/** The bulk loader: packs an ascending stream into leaves and builds the levels bottom-up (btree/build.go). */
module Builders {
  import opened Bytes
  import opened Wrappers
  import opened Seqs
  import opened KVLists
  import opened Shapes
  import opened ShapeOps
  import opened Fitting
  import opened Nodes
  import opened PageStore
  import opened TreePages
  import opened Trees
  import opened Levels
  import opened LevelBuilds

  // ---- Order of what has been added ----

  /** What Add lets through: after a non-empty key only larger ones; after an empty key anything,
      because the empty key is not told apart from "no key yet". */
  ghost predicate Accepted(s: seq<KV>) {
    forall i :: 0 < i < |s| ==> s[i - 1].key == [] || Less(s[i - 1].key, s[i].key)
  }

  /** Exactly when the accepted stream is strictly ascending: unless it starts with two empty keys. */
  lemma AcceptedIsSorted(s: seq<KV>)
    requires Accepted(s)
    ensures Sorted(s) <==> !(|s| >= 2 && s[0].key == [] && s[1].key == [])
  {
    if |s| >= 2 && s[0].key == [] && s[1].key == [] {
      LessIrreflexive([]);
      assert !Less(s[0].key, s[1].key);
    } else {
      forall i, j | 0 <= i < j < |s|
        ensures Less(s[i].key, s[j].key)
      {
        AcceptedPair(s, i, j);
      }
    }
  }

  lemma {:induction false} AcceptedPair(s: seq<KV>, i: nat, j: nat)
    requires Accepted(s) && !(|s| >= 2 && s[0].key == [] && s[1].key == []) && i < j < |s|
    ensures Less(s[i].key, s[j].key)
    decreases j
  {
    if j == 1 {
      assert s[0].key == [] || Less(s[0].key, s[1].key);
    } else {
      AcceptedPair(s, 0, j - 1);
      assert s[j - 1].key != [];
      if i < j - 1 {
        AcceptedPair(s, i, j - 1);
        LessTransitive(s[i].key, s[j - 1].key, s[j].key);
      }
    }
  }

  // ---- The open leaf ----

  /** What the fields of a leaf entry can hold. */
  predicate Loads(kv: KV) {
    |kv.key| < 0x1_0000 && |kv.value| <= INVALID
  }

  /** A leaf overflows its page only if its one pair does. */
  predicate Snug(kvs: seq<KV>) {
    PageSize(Tip(kvs)) <= BODY_SIZE || |kvs| == 1
  }

  ghost predicate OpenLeaf(pages: Pages, leaf: seq<LeafEntry>, pending: seq<KV>, leafBytes: nat) {
    DenotesAll(pages, leaf, pending) && leafBytes == PageSize(Tip(pending)) && Snug(pending)
  }

  /** Leaves are packed full: no leaf had room for the pair that starts the next one. */
  ghost predicate Packed(tips: seq<Shape>, next: seq<KV>) {
    && (forall i :: 0 <= i < |tips| ==> Snug(Contents(tips[i])))
    && (forall i :: 0 < i < |tips| ==> NoRoom(tips[i - 1], Contents(tips[i])))
    && (tips != [] ==> NoRoom(tips[|tips| - 1], next))
  }

  ghost predicate NoRoom(t: Shape, next: seq<KV>) {
    next != [] ==> PageSize(t) + KvSize(next[0]) > BODY_SIZE
  }

  function LastKey(s: seq<KV>): bytes {
    if s == [] then [] else s[|s| - 1].key
  }

  lemma NothingAdded(pages: Pages, limit: PageId)
    ensures OpenLeaf(pages, [], [], 2) && LevelRepr(pages, [], [], limit) && LeafCuts(FirstKeys([]), [])
    ensures Packed([], []) && Flat([]) + [] == [] && Accepted([]) && LastKey([]) == []
  {
  }

  lemma OpenLeafStable(a: Pages, b: Pages, leaf: seq<LeafEntry>, pending: seq<KV>, leafBytes: nat)
    requires OpenLeaf(a, leaf, pending, leafBytes) && Extends(a, b)
    ensures OpenLeaf(b, leaf, pending, leafBytes)
  {
    hide Denotes, PageSize, Extends;
    forall i | 0 <= i < |leaf|
      ensures Denotes(b, leaf[i], pending[i])
    {
      DenotesStable(a, b, leaf[i], pending[i]);
    }
  }

  lemma OpenLeafGrows(pages: Pages, leaf: seq<LeafEntry>, pending: seq<KV>, leafBytes: nat, e: LeafEntry, kv: KV)
    requires OpenLeaf(pages, leaf, pending, leafBytes) && Denotes(pages, e, kv)
    requires pending == [] || leafBytes + EntrySize(e) <= BODY_SIZE
    ensures EntrySize(e) == KvSize(kv) && OpenLeaf(pages, leaf + [e], pending + [kv], leafBytes + EntrySize(e))
  {
    EntrySizeIs(pages, e, kv);
    KvsSizeAppend(pending, [kv]);
    assert KvsSize([kv]) == KvSize(kv) + KvsSize([]);
    hide Denotes, KvsSize, KvSize;
  }

  lemma NextAccepted(s: seq<KV>, kv: KV)
    requires Accepted(s) && (LastKey(s) == [] || Less(LastKey(s), kv.key))
    ensures Accepted(s + [kv]) && LastKey(s + [kv]) == kv.key
  {
    hide Less;
  }

  /** A full leaf becomes the page of a tip of the lowest level. */
  lemma LeafFlushed(before: Pages, after: Pages, leaf: seq<LeafEntry>, pending: seq<KV>, leafBytes: nat, id: PageId)
    requires OpenLeaf(before, leaf, pending, leafBytes) && id < INVALID && Extends(before, after)
    requires id in after && after[id] == PageOf(Leaf(leaf))
    ensures Written(after, id, Tip(pending))
  {
    KvsSizeBounds(pending);
    hide PageOf, Repr, Unreadable, KvsSize, NodeBytes, Denotes;
    var n, t := Leaf(leaf), Tip(pending);
    NodeSizeIs(before, n, t, id);
    NodeEncodable(before, n, t, id);
    if Small(t) {
      WrittenNode(before, after, id, n, t);
    } else {
      WrittenUnreadable(before, after, id, n);
    }
  }

  lemma TipAdded(fk: seq<bytes>, tips: seq<Shape>, pending: seq<KV>)
    requires LeafCuts(fk, tips) && pending != [] && Packed(tips, pending) && Snug(pending)
    ensures LeafCuts(fk + [pending[0].key], tips + [Tip(pending)]) && Packed(tips + [Tip(pending)], [])
    ensures Flat(tips + [Tip(pending)]) + [] == Flat(tips) + pending
  {
    hide PageSize, KvSize;
    FlatAppend(tips, [Tip(pending)]);
    FlatOne(Tip(pending));
  }

  // ---- The leaves of a list, and when a tree over them can be read back ----

  /** How many pairs the first leaf takes, if it has taken `n` already. */
  function Taken(s: seq<KV>, n: nat): (m: nat)
    requires n <= |s|
    ensures n <= m <= |s|
    decreases |s| - n
  {
    if n < |s| && PageSize(Tip(s[..n + 1])) <= BODY_SIZE then Taken(s, n + 1) else n
  }

  /** Every leaf takes one pair, and then as many as fit its page. */
  function Leaves(s: seq<KV>): seq<Shape>
    decreases |s|
  {
    if s == [] then [] else [Tip(s[..Taken(s, 1)])] + Leaves(s[Taken(s, 1)..])
  }

  /** Every leaf fits its page, and none but the first starts with a key too long to be a separator. */
  predicate BulkFits(s: seq<KV>) {
    forall i :: 0 <= i < |Leaves(s)| ==> Small(Leaves(s)[i]) && (i > 0 ==> !StartsLong(Leaves(s)[i]))
  }

  predicate StartsLong(t: Shape) {
    t.Tip? && t.kvs != [] && |t.kvs[0].key| > MAX_KEY
  }

  lemma SizeStep(s: seq<KV>, n: nat)
    requires n < |s|
    ensures PageSize(Tip(s[..n + 1])) == PageSize(Tip(s[..n])) + KvSize(s[n])
  {
    TakeNext(s, n);
    KvsSizeAppend(s[..n], [s[n]]);
    assert KvsSize([s[n]]) == KvSize(s[n]) + KvsSize([]);
  }

  lemma {:induction false} SizesGrow(s: seq<KV>, m: nat, n: nat)
    requires m <= n <= |s|
    ensures PageSize(Tip(s[..m])) <= PageSize(Tip(s[..n]))
  {
    hide PageSize;
    if m < n {
      SizesGrow(s, m, n - 1);
      SizeStep(s, n - 1);
    }
  }

  lemma {:induction false} TakenIs(s: seq<KV>, m: nat, n: nat)
    requires m <= n <= |s| && (m < n ==> PageSize(Tip(s[..n])) <= BODY_SIZE)
    requires n < |s| ==> PageSize(Tip(s[..n + 1])) > BODY_SIZE
    ensures Taken(s, m) == n
    decreases n - m
  {
    hide PageSize;
    if m < n {
      SizesGrow(s, m + 1, n);
      TakenIs(s, m + 1, n);
    }
  }

  /** Leaves packed full are the ones the definition cuts. */
  lemma {:induction false} PackedIsCut(fk: seq<bytes>, tips: seq<Shape>)
    requires LeafCuts(fk, tips) && Packed(tips, [])
    ensures tips == Leaves(Flat(tips))
    decreases |tips|
  {
    hide PageSize, KvSize;
    if tips != [] {
      var first, s := tips[0].kvs, Flat(tips);
      PackedTail(fk, tips);
      PackedIsCut(fk[1..], tips[1..]);
      assert s == first + Flat(tips[1..]);
      if |first| < |s| {
        SizeStep(s, |first|);
        NextLeaf(fk, tips);
      }
      assert s[..|first|] == first && s[|first|..] == Flat(tips[1..]);
      TakenIs(s, 1, |first|);
    }
  }

  lemma PackedTail(fk: seq<bytes>, tips: seq<Shape>)
    requires LeafCuts(fk, tips) && Packed(tips, []) && tips != []
    ensures LeafCuts(fk[1..], tips[1..]) && Packed(tips[1..], [])
    ensures tips[0].Tip? && tips[0].kvs != [] && Snug(tips[0].kvs)
  {
    hide Snug, NoRoom;
    assert forall i :: 0 <= i < |tips| - 1 ==> tips[1..][i] == tips[i + 1] && fk[1..][i] == fk[i + 1];
    assert Contents(tips[0]) == tips[0].kvs && Snug(Contents(tips[0]));
    assert forall i :: 0 < i < |tips| - 1 ==> NoRoom(tips[i], Contents(tips[i + 1]));
    assert |tips| > 1 ==> NoRoom(tips[|tips| - 1], []);
    NoRoomForNothing();
  }

  lemma NoRoomForNothing()
    ensures forall t :: NoRoom(t, [])
  {
  }

  lemma NextLeaf(fk: seq<bytes>, tips: seq<Shape>)
    requires LeafCuts(fk, tips) && Packed(tips, []) && tips != []
    requires |tips[0].kvs| < |Flat(tips)|
    ensures PageSize(tips[0]) + KvSize(Flat(tips)[|tips[0].kvs|]) > BODY_SIZE
  {
    hide PageSize, KvSize;
    var rest := tips[1..];
    assert Flat(tips) == tips[0].kvs + Flat(rest);
    assert rest != [] && rest[0] == tips[1] && tips[1].kvs != [];
    assert Flat(rest) == tips[1].kvs + Flat(rest[1..]);
    assert NoRoom(tips[0], Contents(tips[1]));
  }

  lemma PackedIsLeaves(fk: seq<bytes>, tips: seq<Shape>)
    requires LeafCuts(fk, tips) && Packed(tips, [])
    ensures tips == Leaves(Flat(tips))
    ensures Doomed(fk, tips) <==> !BulkFits(Flat(tips))
  {
    hide PageSize, Packed, Leaves, Flat;
    PackedIsCut(fk, tips);
    assert forall i :: 0 <= i < |tips| ==> (PagesFit(tips[i]) <==> Small(tips[i]));
    assert forall i :: 0 <= i < |tips| ==> (StartsLong(tips[i]) <==> |fk[i]| > MAX_KEY);
  }

  lemma {:induction false} LeavesFrom(s: seq<KV>, i: nat)
    requires i < |Leaves(s)|
    ensures var t := Leaves(s)[i]; t.Tip? && t.kvs != [] && Snug(t.kvs) && forall kv :: kv in t.kvs ==> kv in s
    decreases |s|
  {
    hide PageSize;
    var n := Taken(s, 1);
    TakenSnug(s, 1);
    if i > 0 {
      LeavesFrom(s[n..], i - 1);
    }
  }

  lemma {:induction false} TakenSnug(s: seq<KV>, n: nat)
    requires 1 <= n <= |s| && Snug(s[..n])
    ensures Snug(s[..Taken(s, n)])
    decreases |s| - n
  {
    hide PageSize;
    if n < |s| && PageSize(Tip(s[..n + 1])) <= BODY_SIZE {
      TakenSnug(s, n + 1);
    }
  }

  /** Pairs that fit a page, with keys short enough to separate two children, can always be loaded. */
  lemma ShortKeysLoad(s: seq<KV>)
    requires forall kv :: kv in s ==> KvSize(kv) + 2 <= BODY_SIZE && |kv.key| <= MAX_KEY
    ensures BulkFits(s)
  {
    hide KvSize, Leaves;
    forall i | 0 <= i < |Leaves(s)|
      ensures Small(Leaves(s)[i]) && !StartsLong(Leaves(s)[i])
    {
      LeavesFrom(s, i);
      var kvs := Leaves(s)[i].kvs;
      assert kvs[0] in kvs;
      if |kvs| == 1 {
        SizeStep(kvs, 0);
        Whole(kvs);
      }
    }
  }

  /** Two pairs that do not fit one page: the second key decides. */
  lemma TwoPairsLoad(a: KV, b: KV)
    requires KvSize(a) + 2 <= BODY_SIZE && KvSize(b) + 2 <= BODY_SIZE
    ensures BulkFits([a, b]) <==> KvSize(a) + KvSize(b) + 2 <= BODY_SIZE || |b.key| <= MAX_KEY
  {
    hide PageSize, KvSize;
    var s := [a, b];
    SizeStep(s, 0);
    SizeStep(s, 1);
    assert PageSize(Tip(s[..0])) == 2 by { EmptyPage(s); }
    if KvSize(a) + KvSize(b) + 2 <= BODY_SIZE {
      TakenIs(s, 1, 2);
      assert s[..2] == s && s[2..] == [];
      assert Leaves(s) == [Tip(s)];
    } else {
      TakenIs(s, 1, 1);
      assert s[..1] == [a] && s[1..] == [b];
      OneLeaf(b);
      var ls := Leaves(s);
      assert ls == [Tip([a]), Tip([b])];
      SizeStep([b], 0);
      EmptyPage([b]);
      assert [b][..1] == [b] && Small(ls[0]) && Small(ls[1]);
      assert StartsLong(ls[1]) <==> |b.key| > MAX_KEY;
    }
  }

  lemma EmptyPage(s: seq<KV>)
    ensures PageSize(Tip(s[..0])) == 2
  {
  }

  lemma OneLeaf(kv: KV)
    ensures Leaves([kv]) == [Tip([kv])]
  {
    hide PageSize;
    assert Taken([kv], 1) == 1;
    assert [kv][..1] == [kv] && [kv][1..] == [];
  }

  /** Two ascending pairs of 4050 key bytes each: both fit a page, and no branch over the two does. */
  lemma LongKeysAreLost() returns (a: KV, b: KV)
    ensures |a.key| == |b.key| == 4050 && a.value == b.value == [] && Sorted([a, b])
    ensures KvSize(a) + 2 <= BODY_SIZE && KvSize(b) + 2 <= BODY_SIZE && !BulkFits([a, b])
  {
    hide BulkFits;
    a, b := KV(seq(4050, i => 0), []), KV(seq(4050, i => 1), []);
    TwoPairsLoad(a, b);
    assert a.key[0] < b.key[0];
  }

  class Builder {
    const store: Store
    var leaf: seq<LeafEntry>
    var leafBytes: nat
    var leaves: seq<LevelEntry>
    var lastKey: bytes
    var count: nat
    /** All pairs added so far; those still in the open leaf; the leaves already written. */
    ghost var added: seq<KV>
    ghost var pending: seq<KV>
    ghost var tips: seq<Shape>

    ghost predicate Valid()
      reads this, store
    {
      && store.Valid() && store.numPages <= INVALID
      && OpenLeaf(store.pages, leaf, pending, leafBytes)
      && LevelRepr(store.pages, leaves, tips, store.numPages)
      && LeafCuts(FirstKeys(leaves), tips) && Packed(tips, pending)
      && added == Flat(tips) + pending && Accepted(added)
      && count == |added| && lastKey == LastKey(added)
    }

    constructor (store: Store)
      requires store.Valid() && store.numPages <= INVALID
      ensures Valid() && this.store == store && added == [] && leaves == [] && pending == [] && tips == []
    {
      hide OpenLeaf, LevelRepr, LeafCuts, FirstKeys, Packed, Flat, Accepted, LastKey;
      this.store := store;
      leaf, leafBytes, leaves, lastKey, count := [], 2, [], [], 0;
      added, pending, tips := [], [], [];
      NothingAdded(store.pages, store.numPages);
    }

    /** Writes the open leaf out as a page of the lowest level. */
    method FlushLeaf()
      requires Valid() && store.numPages < INVALID
      modifies this, store
      ensures Valid() && Extends(old(store.pages), store.pages)
      ensures added == old(added) && lastKey == old(lastKey) && pending == []
      ensures store.numPages <= old(store.numPages) + 1 && |leaves| <= old(|leaves|) + 1
      ensures tips == old(tips) + if old(pending) == [] then [] else [Tip(old(pending))]
    {
      hide PageOf, Repr, Extends, Flat, Accepted, PagesFit, LeafCuts, Packed, LastKey, OpenLeaf, LevelRepr, FirstKeys;
      LeafLength(store.pages, leaf, pending, leafBytes);
      if |leaf| == 0 {
        ExtendsSelf(store.pages);
        return;
      }
      ghost var p := store.pages;
      var id := store.WriteNode(Leaf(leaf));
      LeafFlushed(p, store.pages, leaf, pending, leafBytes, id);
      LeafSizeIs(p, leaf, pending, leafBytes);
      LevelStable(p, store.pages, leaves, tips, id, id + 1);
      var e := LevelEntry(leaf[0].key, id);
      LevelSnoc(store.pages, leaves, tips, id + 1, e, Tip(pending));
      TipAdded(FirstKeys(leaves), tips, pending);
      NothingAdded(store.pages, id + 1);
      leaves := leaves + [e];
      tips := tips + [Tip(pending)];
      leaf, leafBytes, pending := [], 2, [];
    }

    /** The entry of a pair; a long value goes to pages of its own, behind those of the finished leaves. */
    method MakeEntry(key: bytes, value: bytes) returns (e: LeafEntry)
      requires Valid() && Loads(KV(key, value))
      requires store.numPages + PageCount(|value|) <= INVALID
      modifies store
      ensures Valid() && Extends(old(store.pages), store.pages)
      ensures Denotes(store.pages, e, KV(key, value)) && EntrySize(e) == KvSize(KV(key, value))
      ensures store.numPages <= old(store.numPages) + PageCount(|value|)
    {
      hide Extends, PageCount, OpenLeaf, LevelRepr, LeafCuts, FirstKeys, Packed, Flat, Accepted, LastKey,
        Denotes, EntrySize, KvSize, ValueOf;
      e := MakeLeafEntry(store, key, value);
      ghost var p0, p := old(store.pages), store.pages;
      OpenLeafStable(p0, p, leaf, pending, leafBytes);
      LevelStable(p0, p, leaves, tips, old(store.numPages), store.numPages);
      EntryMade(p, e, KV(key, value));
    }

    /** Flushes the open leaf exactly when the new entry does not fit behind the ones it holds. */
    method MakeRoom(e: LeafEntry, es: nat, ghost kv: KV)
      requires Valid() && Denotes(store.pages, e, kv) && es == KvSize(kv)
      requires (pending == [] ==> tips == []) && store.numPages < INVALID
      modifies this, store
      ensures Valid() && Extends(old(store.pages), store.pages) && Denotes(store.pages, e, kv)
      ensures added == old(added) && (pending == [] ==> tips == [] || Packed(tips, [kv]))
      ensures pending == [] || leafBytes + es <= BODY_SIZE
      ensures store.numPages <= old(store.numPages) + 1 && |leaves| <= old(|leaves|) + 1
    {
      hide Extends, OpenLeaf, LevelRepr, LeafCuts, FirstKeys, Packed, Flat, Accepted, LastKey, Denotes, KvSize,
        PageSize;
      ghost var p, was := store.pages, pending;
      LeafLength(p, leaf, pending, leafBytes);
      LeafSizeIs(p, leaf, pending, leafBytes);
      ExtendsSelf(p);
      if |leaf| > 0 && leafBytes + es > BODY_SIZE {
        FlushLeaf();
        DenotesStable(p, store.pages, e, kv);
        PackedFlushed(tips, Tip(was), kv);
      }
    }

    /** Appends one pair, in a leaf of its own if the open leaf has no room for it. */
    method Add(key: bytes, value: bytes) returns (ok: bool)
      requires Valid() && Loads(KV(key, value))
      requires pending == [] ==> tips == []
      requires store.numPages + PageCount(|value|) + 1 <= INVALID
      modifies this, store
      ensures Valid() && Extends(old(store.pages), store.pages) && (pending == [] ==> tips == [])
      ensures ok <==> old(lastKey) == [] || Less(old(lastKey), key)
      ensures added == if ok then old(added) + [KV(key, value)] else old(added)
      ensures store.numPages <= old(store.numPages) + PageCount(|value|) + 1 && |leaves| <= old(|leaves|) + 1
    {
      hide Less, Extends, Loads, PageCount, OpenLeaf, LevelRepr, LeafCuts, FirstKeys, Packed, Flat, Accepted,
        LastKey, Denotes, EntrySize, KvSize, ValueOf;
      if lastKey != [] {
        LessTotal(key, lastKey);
        var c := CompareBytes(key, lastKey);
        if c <= 0 {
          ExtendsSelf(store.pages);
          return false;
        }
      }
      ghost var kv := KV(key, value);
      var e := MakeEntry(key, value);
      ghost var p := store.pages;
      NextAccepted(added, kv);
      var es := EntrySize(e);
      MakeRoom(e, es, kv);
      ExtendsTransitive(old(store.pages), p, store.pages);
      OpenLeafGrows(store.pages, leaf, pending, leafBytes, e, kv);
      PackedGrows(tips, pending, kv);
      Assoc(Flat(tips), pending, [kv]);
      leaf := leaf + [e];
      leafBytes := leafBytes + es;
      lastKey := key;
      count := count + 1;
      pending, added := pending + [kv], added + [kv];
      return true;
    }

    /**
     * Writes the last leaf and all levels above. The root stands for exactly what was added if
     * every pair fits a page and no leaf but the first starts with a key too long to separate two
     * children; if not, the root leads to a page that cannot be read, and there is no error.
     */
    method Finish() returns (root: PageId, ghost t: Shape, ghost h: nat)
      requires Valid() && store.numPages + 2 * |leaves| + 3 <= INVALID
      modifies this, store
      ensures store.Valid() && Extends(old(store.pages), store.pages)
      ensures Contents(t) == old(added) && (Sorted(old(added)) ==> WellFormed(t, h, Unbounded, Unbounded))
      ensures root == INVALID <==> old(added) == []
      ensures PagesFit(t) <==> BulkFits(old(added))
      ensures if BulkFits(old(added)) then RootRepr(store.pages, root, t) else Unreadable(store.pages, root)
      ensures tips == Leaves(old(added))
    {
      hide Extends, OpenLeaf, LevelRepr, LeafCuts, FirstKeys, Packed, Flat, Accepted, LastKey, LevelWf, WellFormed,
        Sorted, Repr, RootRepr, PagesFit, Contents, Unreadable, Written, Doomed, BulkFits;
      FlushLeaf();
      Whole(Flat(tips));
      PackedIsLeaves(FirstKeys(leaves), tips);
      LevelLength(store.pages, leaves, tips, store.numPages);
      FinishedTips(FirstKeys(leaves), tips);
      if |leaves| == 0 {
        EmptyRoot(store.pages);
        return INVALID, Tip([]), 0;
      }
      var level := leaves;
      ghost var shapes := tips;
      ghost var cap := store.numPages + 2 * |leaves|;
      ghost var p := store.pages;
      h := 0;
      ExtendsSelf(p);
      while |level| > 1
        invariant |level| >= 1 && store.Valid() && store.numPages + 2 * |level| <= cap
        invariant Extends(p, store.pages)
        invariant LevelRepr(store.pages, level, shapes, store.numPages) && Flat(shapes) == added
        invariant Sorted(added) ==> LevelWf(FirstKeys(level), shapes, h, Unbounded)
        invariant Doomed(FirstKeys(level), shapes) <==> !BulkFits(added)
        modifies store
        decreases |level|
      {
        ghost var q := store.pages;
        level, shapes := BuildInternalLevel(store, level, shapes, h);
        ExtendsTransitive(p, q, store.pages);
        h := h + 1;
      }
      ExtendsTransitive(old(store.pages), p, store.pages);
      TopLevel(store.pages, level, shapes, store.numPages, h);
      return level[0].page, shapes[0], h;
    }
  }

  lemma EntryMade(pages: Pages, e: LeafEntry, kv: KV)
    requires e.key == kv.key && ValueOf(pages, e) == Some(kv.value) && Loads(kv)
    requires e.Spilled? <==> |kv.value| > MAX_INLINE
    requires e.Spilled? ==> e.head <= INVALID && e.size == |kv.value|
    ensures Denotes(pages, e, kv) && EntrySize(e) == KvSize(kv)
  {
    EntrySizeIs(pages, e, kv);
  }

  lemma LeafSizeIs(pages: Pages, leaf: seq<LeafEntry>, pending: seq<KV>, leafBytes: nat)
    requires OpenLeaf(pages, leaf, pending, leafBytes)
    ensures leafBytes == PageSize(Tip(pending)) && Snug(pending)
  {
  }

  lemma PackedFlushed(tips: seq<Shape>, t: Shape, kv: KV)
    requires Packed(tips, []) && tips != [] && tips[|tips| - 1] == t && PageSize(t) + KvSize(kv) > BODY_SIZE
    ensures Packed(tips, [kv])
  {
    hide PageSize, KvSize;
  }

  lemma PackedGrows(tips: seq<Shape>, pending: seq<KV>, kv: KV)
    requires Packed(tips, pending) && (pending == [] ==> tips == [] || Packed(tips, [kv]))
    ensures Packed(tips, pending + [kv])
  {
    hide PageSize, KvSize;
    if pending == [] {
      assert pending + [kv] == [kv];
    }
  }

  lemma FinishedTips(fk: seq<bytes>, tips: seq<Shape>)
    requires LeafCuts(fk, tips)
    ensures Flat(tips) == [] <==> tips == []
    ensures Sorted(Flat(tips)) ==> LevelWf(fk, tips, 0, Unbounded)
  {
    if tips != [] {
      assert Contents(tips[0]) != [];
    }
    if Sorted(Flat(tips)) {
      LeavesWf(fk, tips, |tips|);
      hide LevelWf, Flat;
      Whole(fk);
      Whole(tips);
    }
  }

  lemma EmptyRoot(pages: Pages)
    ensures RootRepr(pages, INVALID, Tip([])) && PagesFit(Tip([])) && Contents(Tip([])) == []
    ensures WellFormed(Tip([]), 0, Unbounded, Unbounded) && BulkFits([])
  {
  }

  /** A level of one node is a whole tree. */
  lemma TopLevel(pages: Pages, level: seq<LevelEntry>, shapes: seq<Shape>, limit: PageId, h: nat)
    requires LevelRepr(pages, level, shapes, limit) && |level| == 1 && limit <= INVALID
    ensures |shapes| == 1 && level[0].page < INVALID && (PagesFit(shapes[0]) <==> !Doomed(FirstKeys(level), shapes))
    ensures if PagesFit(shapes[0]) then RootRepr(pages, level[0].page, shapes[0]) else Unreadable(pages, level[0].page)
    ensures Contents(shapes[0]) == Flat(shapes)
    ensures LevelWf(FirstKeys(level), shapes, h, Unbounded) ==> WellFormed(shapes[0], h, Unbounded, Unbounded)
  {
    hide Repr, PagesFit, Contents, Unreadable;
    assert Written(pages, level[0].page, shapes[0]);
    assert shapes == [shapes[0]];
    FlatOne(shapes[0]);
    if LevelWf(FirstKeys(level), shapes, h, Unbounded) {
      WidenBottom(shapes[0], h, Key(level[0].firstKey), Unbounded) by {
        assert NextKey(FirstKeys(level), 0, Unbounded) == Unbounded;
      }
    }
  }

  lemma LeafLength(pages: Pages, leaf: seq<LeafEntry>, pending: seq<KV>, leafBytes: nat)
    requires OpenLeaf(pages, leaf, pending, leafBytes)
    ensures |leaf| == |pending| && (leaf != [] ==> leaf[0].key == pending[0].key && |leaf[0].key| < 0x1_0000)
  {
    if leaf != [] {
      assert Denotes(pages, leaf[0], pending[0]);
    }
  }

  /** Loading two ascending pairs: neither is refused, and the outcome is as `TwoPairsLoad` says. */
  method LoadTwo(store: Store, a: KV, b: KV) returns (root: PageId, ghost t: Shape)
    requires store.Valid() && Loads(a) && Loads(b) && Less(a.key, b.key)
    requires store.numPages + PageCount(|a.value|) + PageCount(|b.value|) + 9 <= INVALID
    modifies store
    ensures Contents(t) == [a, b]
    ensures if BulkFits([a, b]) then RootRepr(store.pages, root, t) else Unreadable(store.pages, root)
  {
    hide *;
    hide Builder.Valid;
    var loader := new Builder(store);
    LastAdded(loader);
    LastOf(a);
    var ok := loader.Add(a.key, a.value);
    LastAdded(loader);
    ok := loader.Add(b.key, b.value);
    ghost var h;
    root, t, h := loader.Finish();
  }

  lemma LastOf(kv: KV)
    ensures [] + [kv] == [kv] && LastKey([kv]) == kv.key && LastKey([]) == []
    ensures forall b: KV :: [kv] + [b] == [kv, b]
  {
  }

  lemma LastAdded(b: Builder)
    requires b.Valid()
    ensures b.lastKey == LastKey(b.added)
  {
  }
}
