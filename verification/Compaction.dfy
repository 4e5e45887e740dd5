/** Compaction: the base generation and the net changes of the log, merged into a fresh tree (checkpoint.go, mergeBuild). */
module Compaction {
  import opened Bytes
  import opened Wrappers
  import opened Seqs
  import opened Sorting
  import opened KVLists
  import opened Shapes
  import opened ShapeOps
  import opened Nodes
  import opened PageStore
  import opened TreePages
  import opened Trees
  import opened Scans
  import opened Builders
  import opened Levels
  import opened LevelBuilds
  import Entries

  type Deltas = Entries.Deltas

  // ---- What the merge lists ----

  function Emit(k: bytes, deltas: Deltas): seq<KV>
    requires k in deltas
  {
    if deltas[k].Data? then [KV(k, deltas[k].data)] else []
  }

  predicate Covered(ks: seq<bytes>, deltas: Deltas) {
    forall i :: 0 <= i < |ks| ==> ks[i] in deltas
  }

  /** Two ascending streams merged into one; on equal keys the change wins. */
  function Merged(kvs: seq<KV>, ks: seq<bytes>, deltas: Deltas): seq<KV>
    requires Covered(ks, deltas)
    decreases |kvs| + |ks|
  {
    if ks == [] then kvs
    else if kvs == [] then Emit(ks[0], deltas) + Merged([], ks[1..], deltas)
    else if Less(ks[0], kvs[0].key) then Emit(ks[0], deltas) + Merged(kvs, ks[1..], deltas)
    else if ks[0] == kvs[0].key then Emit(ks[0], deltas) + Merged(kvs[1..], ks[1..], deltas)
    else [kvs[0]] + Merged(kvs[1..], ks, deltas)
  }

  ghost predicate KeysOver(ks: seq<bytes>, k: bytes) {
    forall i :: 0 <= i < |ks| ==> Less(k, ks[i])
  }

  ghost predicate MergeInput(kvs: seq<KV>, ks: seq<bytes>, deltas: Deltas) {
    Sorted(kvs) && Ascending(ks) && Covered(ks, deltas)
  }

  lemma InputTails(kvs: seq<KV>, ks: seq<bytes>, deltas: Deltas)
    requires MergeInput(kvs, ks, deltas)
    ensures kvs != [] ==> MergeInput(kvs[1..], ks, deltas) && AllAbove(kvs[1..], kvs[0].key)
    ensures ks != [] ==> MergeInput(kvs, ks[1..], deltas) && KeysOver(ks[1..], ks[0])
    ensures kvs != [] && ks != [] ==> MergeInput(kvs[1..], ks[1..], deltas)
  {
    hide Less;
    assert kvs != [] ==> forall i :: 0 <= i < |kvs| - 1 ==> kvs[1..][i] == kvs[i + 1];
    assert ks != [] ==> forall i :: 0 <= i < |ks| - 1 ==> ks[1..][i] == ks[i + 1];
  }

  lemma HeadSorted(kv: KV, rest: seq<KV>)
    requires Sorted(rest) && AllAbove(rest, kv.key)
    ensures Sorted([kv] + rest)
  {
    hide Less;
  }

  lemma EmitSorted(k: bytes, deltas: Deltas, rest: seq<KV>)
    requires k in deltas && Sorted(rest) && AllAbove(rest, k)
    ensures Sorted(Emit(k, deltas) + rest)
  {
    Whole(rest);
    if deltas[k].Data? {
      HeadSorted(KV(k, deltas[k].data), rest);
    }
  }

  lemma EmitAbove(k: bytes, deltas: Deltas, rest: seq<KV>, lo: bytes)
    requires k in deltas && Less(lo, k) && AllAbove(rest, lo)
    ensures AllAbove(Emit(k, deltas) + rest, lo)
  {
    hide Less;
  }

  lemma {:induction false} MergedAbove(kvs: seq<KV>, ks: seq<bytes>, deltas: Deltas, lo: bytes)
    requires Covered(ks, deltas) && AllAbove(kvs, lo) && KeysOver(ks, lo)
    ensures AllAbove(Merged(kvs, ks, deltas), lo)
    decreases |kvs| + |ks|
  {
    hide Less, Emit;
    if ks != [] && (kvs == [] || Less(ks[0], kvs[0].key)) {
      MergedAbove(kvs, ks[1..], deltas, lo);
      EmitAbove(ks[0], deltas, Merged(kvs, ks[1..], deltas), lo);
    } else if ks != [] && ks[0] == kvs[0].key {
      MergedAbove(kvs[1..], ks[1..], deltas, lo);
      EmitAbove(ks[0], deltas, Merged(kvs[1..], ks[1..], deltas), lo);
    } else if ks != [] {
      MergedAbove(kvs[1..], ks, deltas, lo);
    }
  }

  /** Everything behind the smaller of the two heads is above it. */
  lemma HeadsOrdered(kvs: seq<KV>, ks: seq<bytes>, deltas: Deltas)
    requires MergeInput(kvs, ks, deltas) && ks != []
    ensures kvs == [] || Less(ks[0], kvs[0].key) ==> AllAbove(kvs, ks[0])
    ensures kvs != [] && !Less(ks[0], kvs[0].key) && ks[0] != kvs[0].key ==> Less(kvs[0].key, ks[0]) && KeysOver(ks, kvs[0].key)
  {
    if kvs != [] {
      LessTotal(ks[0], kvs[0].key);
      LessOrder();
    }
  }

  lemma {:induction false} MergedSorted(kvs: seq<KV>, ks: seq<bytes>, deltas: Deltas)
    requires MergeInput(kvs, ks, deltas)
    ensures Sorted(Merged(kvs, ks, deltas))
    decreases |kvs| + |ks|
  {
    hide Less, Emit, Sorted, MergeInput, KeysOver, AllAbove;
    assert Sorted(kvs) && Covered(ks, deltas) by { OnlyInput(kvs, ks, deltas); }
    InputTails(kvs, ks, deltas);
    if ks != [] {
      HeadsOrdered(kvs, ks, deltas);
      if kvs == [] || Less(ks[0], kvs[0].key) {
        MergedSorted(kvs, ks[1..], deltas);
        MergedAbove(kvs, ks[1..], deltas, ks[0]);
        EmitSorted(ks[0], deltas, Merged(kvs, ks[1..], deltas));
      } else if ks[0] == kvs[0].key {
        MergedSorted(kvs[1..], ks[1..], deltas);
        MergedAbove(kvs[1..], ks[1..], deltas, ks[0]);
        EmitSorted(ks[0], deltas, Merged(kvs[1..], ks[1..], deltas));
      } else {
        MergedSorted(kvs[1..], ks, deltas);
        MergedAbove(kvs[1..], ks, deltas, kvs[0].key);
        HeadSorted(kvs[0], Merged(kvs[1..], ks, deltas));
      }
    }
  }

  lemma OnlyInput(kvs: seq<KV>, ks: seq<bytes>, deltas: Deltas)
    requires MergeInput(kvs, ks, deltas)
    ensures Sorted(kvs) && Covered(ks, deltas)
  {
  }

  // ---- What the merged list means ----

  function After(kvs: seq<KV>, ks: seq<bytes>, deltas: Deltas, x: bytes): Option<bytes>
    requires Covered(ks, deltas)
  {
    if x in ks then (if deltas[x].Data? then Some(deltas[x].data) else None) else Find(kvs, x)
  }

  lemma FindEmitted(k: bytes, deltas: Deltas, rest: seq<KV>, x: bytes)
    requires k in deltas
    ensures Find(Emit(k, deltas) + rest, x) == if x == k && deltas[k].Data? then Some(deltas[k].data) else Find(rest, x)
  {
    AppendTail(Emit(k, deltas), rest);
    if deltas[k].Data? {
      assert Emit(k, deltas)[1..] == [];
      Whole(rest);
    }
  }

  lemma NotBehind(ks: seq<bytes>, x: bytes)
    requires ks != [] && KeysOver(ks[1..], ks[0])
    ensures ks[0] !in ks[1..] && (x in ks <==> x == ks[0] || x in ks[1..])
  {
    LessIrreflexive(ks[0]);
    HeadTail(ks);
  }

  lemma NotOver(ks: seq<bytes>, k: bytes)
    requires KeysOver(ks, k)
    ensures k !in ks
  {
    LessIrreflexive(k);
  }

  lemma {:induction false} MergedMeans(kvs: seq<KV>, ks: seq<bytes>, deltas: Deltas, x: bytes)
    requires MergeInput(kvs, ks, deltas)
    ensures Covered(ks, deltas) && Find(Merged(kvs, ks, deltas), x) == After(kvs, ks, deltas, x)
    decreases |kvs| + |ks|
  {
    hide Less, Emit, Sorted, MergeInput, KeysOver, AllAbove;
    OnlyInput(kvs, ks, deltas);
    InputTails(kvs, ks, deltas);
    if ks != [] {
      HeadsOrdered(kvs, ks, deltas);
      NotBehind(ks, x);
      if kvs == [] || Less(ks[0], kvs[0].key) {
        MergedMeans(kvs, ks[1..], deltas, x);
        FindEmitted(ks[0], deltas, Merged(kvs, ks[1..], deltas), x);
        FiltersAbove(kvs, ks[0]);
      } else if ks[0] == kvs[0].key {
        MergedMeans(kvs[1..], ks[1..], deltas, x);
        FindEmitted(ks[0], deltas, Merged(kvs[1..], ks[1..], deltas), x);
        FiltersAbove(kvs[1..], ks[0]);
      } else {
        MergedMeans(kvs[1..], ks, deltas, x);
        NotOver(ks, kvs[0].key);
        AppendTail([kvs[0]], Merged(kvs[1..], ks, deltas));
        Whole(Merged(kvs[1..], ks, deltas));
      }
    }
  }

  /** The merged list stands for the base map with the changes applied. */
  lemma MergedIsMerge(kvs: seq<KV>, ks: seq<bytes>, deltas: Deltas)
    requires Sorted(kvs) && Ascending(ks) && forall k :: k in ks <==> k in deltas
    ensures Covered(ks, deltas) && Sorted(Merged(kvs, ks, deltas))
    ensures ToMap(Merged(kvs, ks, deltas)) == Entries.Merge(ToMap(kvs), deltas)
  {
    MergedSorted(kvs, ks, deltas);
    var m := Entries.Merge(ToMap(kvs), deltas);
    forall x
      ensures Find(Merged(kvs, ks, deltas), x) == Lookup(m, x)
    {
      MergedMeans(kvs, ks, deltas, x);
      FindIsLookup(kvs, x);
    }
    SameLookups(Merged(kvs, ks, deltas), m);
  }

  // ---- The merge itself ----

  predicate Storable(kv: KV) {
    Loads(kv)
  }

  predicate AllStorable(s: seq<KV>) {
    forall i :: 0 <= i < |s| ==> Storable(s[i])
  }

  /** Pages that bulk-loading a list can take, at most. */
  function Room(s: seq<KV>): nat {
    if s == [] then 3 else PageCount(|s[0].value|) + 3 + Room(s[1..])
  }

  /** The builder holds the merged list so far; `rest` is what is still to come, and there is room for it. */
  ghost predicate Progress(b: Builder, rest: seq<KV>, total: seq<KV>)
    reads b, b.store
  {
    && b.Valid() && (b.pending == [] ==> b.tips == [])
    && b.added + rest == total && Sorted(total) && AllStorable(total)
    && b.store.numPages + 2 * |b.leaves| + Room(rest) <= INVALID
  }

  lemma NextAt(added: seq<KV>, kv: KV, rest: seq<KV>)
    ensures var total := added + ([kv] + rest);
            && total == added + [kv] + rest && |added| < |total| && total[|added|] == kv
            && (added != [] ==> total[|added| - 1] == added[|added| - 1])
  {
    Assoc(added, [kv], rest);
  }

  lemma RoomForNext(kv: KV, rest: seq<KV>)
    ensures Room([kv] + rest) == PageCount(|kv.value|) + 3 + Room(rest)
  {
    hide PageCount;
    AppendTail([kv], rest);
    assert [kv][1..] == [];
    Whole(rest);
  }

  lemma NextIsAccepted(added: seq<KV>, kv: KV, rest: seq<KV>, total: seq<KV>)
    requires added + ([kv] + rest) == total && Sorted(total) && AllStorable(total)
    ensures LastKey(added) == [] || Less(LastKey(added), kv.key)
    ensures Storable(kv) && (added + [kv]) + rest == total
  {
    hide Less, Storable;
    NextAt(added, kv, rest);
  }

  /** One callback's Add: never refused, because the merged list is strictly ascending. */
  method AddNext(b: Builder, kv: KV, ghost rest: seq<KV>, ghost total: seq<KV>) returns (ok: bool)
    requires Progress(b, [kv] + rest, total)
    modifies b, b.store
    ensures ok && Progress(b, rest, total) && Extends(old(b.store.pages), b.store.pages)
  {
    NextIsAccepted(b.added, kv, rest, total);
    RoomForNext(kv, rest);
    hide Extends, Sorted, AllStorable, PageCount, Room, Less, Loads, OpenLeaf, LevelRepr, LeafCuts, FirstKeys,
      Packed, Flat, Accepted, LastKey;
    ok := b.Add(kv.key, kv.value);
  }

  lemma CoveredFrom(ks: seq<bytes>, i: nat, deltas: Deltas)
    requires Covered(ks, deltas) && i <= |ks|
    ensures Covered(ks[i..], deltas) && (i < |ks| ==> ks[i] in deltas && ks[i + 1..] == ks[i..][1..])
  {
    assert forall j :: 0 <= j < |ks| - i ==> ks[i..][j] == ks[i + j];
  }

  method AddDelta(b: Builder, k: bytes, deltas: Deltas, ghost rest: seq<KV>, ghost total: seq<KV>) returns (ok: bool)
    requires k in deltas && Progress(b, Emit(k, deltas) + rest, total)
    modifies b, b.store
    ensures ok && Progress(b, rest, total) && Extends(old(b.store.pages), b.store.pages)
  {
    hide Progress, Extends;
    Whole(rest);
    ExtendsSelf(b.store.pages);
    if deltas[k].Deleted? {
      return true;
    }
    ok := AddNext(b, KV(k, deltas[k].data), rest, total);
  }

  /** How one step of the merge takes apart what is still to come. */
  lemma MergedStep(kvs: seq<KV>, ks: seq<bytes>, i: nat, deltas: Deltas)
    requires Covered(ks, deltas) && i < |ks|
    ensures Covered(ks[i..], deltas) && Covered(ks[i + 1..], deltas) && ks[i] in deltas
    ensures kvs == [] || Less(ks[i], kvs[0].key) ==>
              Merged(kvs, ks[i..], deltas) == Emit(ks[i], deltas) + Merged(kvs, ks[i + 1..], deltas)
    ensures kvs != [] && !Less(ks[i], kvs[0].key) && ks[i] == kvs[0].key ==>
              Merged(kvs, ks[i..], deltas) == Emit(ks[i], deltas) + Merged(kvs[1..], ks[i + 1..], deltas)
    ensures kvs != [] && !Less(ks[i], kvs[0].key) && ks[i] != kvs[0].key ==>
              Merged(kvs, ks[i..], deltas) == [kvs[0]] + Merged(kvs[1..], ks[i..], deltas)
  {
    CoveredFrom(ks, i, deltas);
    CoveredFrom(ks, i + 1, deltas);
    hide Less, Emit;
  }

  lemma NoMoreDeltas(kvs: seq<KV>, ks: seq<bytes>, deltas: Deltas)
    requires Covered(ks, deltas)
    ensures Covered(ks[|ks|..], deltas) && Merged(kvs, ks[|ks|..], deltas) == kvs
  {
  }

  /** Adds every change whose key comes before `key`. */
  method FlushDeltasBefore(b: Builder, ks: seq<bytes>, start: nat, deltas: Deltas, key: bytes, ghost kvs: seq<KV>,
                           ghost total: seq<KV>)
    returns (di: nat, ok: bool)
    requires Covered(ks, deltas) && start <= |ks| && kvs != [] && kvs[0].key == key
    requires Covered(ks[start..], deltas) && Progress(b, Merged(kvs, ks[start..], deltas), total)
    modifies b, b.store
    ensures ok && start <= di <= |ks| && Covered(ks[di..], deltas) && Extends(old(b.store.pages), b.store.pages)
    ensures Progress(b, Merged(kvs, ks[di..], deltas), total)
    ensures di < |ks| ==> !Less(ks[di], key)
  {
    hide Progress, Extends, Less, Merged, Covered, Emit;
    di := start;
    ExtendsSelf(b.store.pages);
    while di < |ks|
      invariant start <= di <= |ks| && Covered(ks[di..], deltas)
      invariant Extends(old(b.store.pages), b.store.pages)
      invariant Progress(b, Merged(kvs, ks[di..], deltas), total)
    {
      MergedStep(kvs, ks, di, deltas);
      var c := CompareBytes(ks[di], key);
      if c >= 0 {
        LessTotal(ks[di], key);
        return di, true;
      }
      ghost var p := b.store.pages;
      ok := AddDelta(b, ks[di], deltas, Merged(kvs, ks[di + 1..], deltas), total);
      ExtendsTransitive(old(b.store.pages), p, b.store.pages);
      di := di + 1;
    }
    return di, true;
  }

  /** The scan callback: changes before the pair, then the change to its key, or the pair itself. */
  method MergePair(b: Builder, kv: KV, ks: seq<bytes>, start: nat, deltas: Deltas, ghost kvs: seq<KV>,
                   ghost total: seq<KV>)
    returns (di: nat, ok: bool)
    requires Covered(ks, deltas) && start <= |ks| && kvs != [] && kvs[0] == kv
    requires Covered(ks[start..], deltas) && Progress(b, Merged(kvs, ks[start..], deltas), total)
    modifies b, b.store
    ensures ok && start <= di <= |ks| && Covered(ks[di..], deltas) && Extends(old(b.store.pages), b.store.pages)
    ensures Progress(b, Merged(kvs[1..], ks[di..], deltas), total)
  {
    hide Progress, Extends, Less, Merged, Covered, Emit;
    di, ok := FlushDeltasBefore(b, ks, start, deltas, kv.key, kvs, total);
    ghost var p := b.store.pages;
    if di < |ks| {
      MergedStep(kvs, ks, di, deltas);
    } else {
      NoMoreDeltas(kvs, ks, deltas);
      NoMoreDeltas(kvs[1..], ks, deltas);
      HeadTail(kvs);
    }
    if di < |ks| && ks[di] == kv.key {
      ok := AddDelta(b, ks[di], deltas, Merged(kvs[1..], ks[di + 1..], deltas), total);
      di := di + 1;
    } else {
      ok := AddNext(b, kv, Merged(kvs[1..], ks[di..], deltas), total);
    }
    ExtendsTransitive(old(b.store.pages), p, b.store.pages);
  }

  ghost predicate SameKeys(ks: seq<bytes>, deltas: Deltas) {
    Ascending(ks) && forall k :: k in ks <==> k in deltas
  }

  /** Every pair the merge lists can be stored, and the new file has pages for all of them. */
  ghost predicate Fits(kvs: seq<KV>, ks: seq<bytes>, deltas: Deltas) {
    Covered(ks, deltas) && AllStorable(Merged(kvs, ks, deltas)) && 1 + Room(Merged(kvs, ks, deltas)) <= INVALID
  }

  lemma MergeStarts(b: Builder, kvs: seq<KV>, ks: seq<bytes>, deltas: Deltas)
    requires b.Valid() && b.added == [] && b.leaves == [] && b.pending == [] && b.tips == [] && b.store.numPages == 1
    requires Sorted(kvs) && SameKeys(ks, deltas) && Fits(kvs, ks, deltas)
    ensures kvs[0..] == kvs && ks[0..] == ks && Covered(ks, deltas)
    ensures Progress(b, Merged(kvs, ks, deltas), Merged(kvs, ks, deltas))
    ensures ToMap(Merged(kvs, ks, deltas)) == Entries.Merge(ToMap(kvs), deltas)
  {
    MergedIsMerge(kvs, ks, deltas);
    hide Merged, Ascending, ToMap, Room, AllStorable, Sorted;
    Whole(Merged(kvs, ks, deltas));
  }

  /** The callback on every pair of the base. */
  method MergePairs(b: Builder, pairs: seq<KV>, ks: seq<bytes>, deltas: Deltas, ghost total: seq<KV>)
    returns (di: nat, ok: bool)
    requires Covered(ks, deltas) && Progress(b, Merged(pairs, ks, deltas), total)
    modifies b, b.store
    ensures ok && di <= |ks| && Covered(ks[di..], deltas) && Progress(b, Merged([], ks[di..], deltas), total)
  {
    hide *;
    var i := 0;
    di, ok := 0, true;
    Whole(pairs);
    Whole(ks);
    while i < |pairs|
      invariant 0 <= i <= |pairs| && di <= |ks| && Covered(ks[di..], deltas) && ok
      invariant Progress(b, Merged(pairs[i..], ks[di..], deltas), total)
    {
      TakeNext(pairs, i);
      di, ok := MergePair(b, pairs[i], ks, di, deltas, pairs[i..], total);
      i := i + 1;
    }
    EndOfPairs(pairs);
  }

  /** The changes behind the last pair of the base. */
  method MergeRest(b: Builder, ks: seq<bytes>, start: nat, deltas: Deltas, ghost total: seq<KV>) returns (ok: bool)
    requires Covered(ks, deltas) && start <= |ks| && Covered(ks[start..], deltas)
    requires Progress(b, Merged([], ks[start..], deltas), total)
    modifies b, b.store
    ensures ok && Progress(b, [], total)
  {
    hide *;
    var di := start;
    ok := true;
    while di < |ks|
      invariant di <= |ks| && Covered(ks[di..], deltas) && ok
      invariant Progress(b, Merged([], ks[di..], deltas), total)
    {
      MergedStep([], ks, di, deltas);
      ok := AddDelta(b, ks[di], deltas, Merged([], ks[di + 1..], deltas), total);
      di := di + 1;
    }
    NoMoreDeltas([], ks, deltas);
  }

  /**
   * The merge of base and changes into a fresh tree. No pair is refused; the root stands for the
   * merge exactly if bulk loading can hold its list, and otherwise leads to an unreadable page.
   */
  method MergeBuild(store: Store, base: Store, baseRoot: PageId, deltas: Deltas, ks: seq<bytes>, ghost t: Shape,
                    ghost h: nat)
    returns (r: Result<PageId>, ghost t': Shape, ghost h': nat)
    requires store != base && store.Valid() && store.numPages == 1
    requires base.Valid() && RootRepr(base.pages, baseRoot, t) && WellFormed(t, h, Unbounded, Unbounded)
    requires SameKeys(ks, deltas) && Fits(Contents(t), ks, deltas)
    modifies store
    ensures store.Valid() && r.Ok?
    ensures Loaded(store.pages, r.value, t', h')
    ensures Contents(t') == Merged(Contents(t), ks, deltas)
    ensures ToMap(Contents(t')) == Entries.Merge(ToMap(Contents(t)), deltas)
  {
    assert store.numPages <= INVALID;
    hide *;
    var b := new Builder(store);
    var pairs := ScanAll(base, baseRoot, t, h);
    MergeStarts(b, pairs, ks, deltas);
    ghost var total := Merged(pairs, ks, deltas);
    var di, ok := MergePairs(b, pairs, ks, deltas, total);
    if !ok {
      return Err, t, h;
    }
    ok := MergeRest(b, ks, di, deltas, total);
    if !ok {
      return Err, t, h;
    }
    ReadyToFinish(b, total);
    var root;
    root, t', h' := b.Finish();
    IsLoaded(store.pages, root, t', h');
    return Ok(root), t', h';
  }

  /** A bulk-loaded tree: ordered, and readable from its root exactly if its leaves allow it. */
  ghost predicate Loaded(pages: Pages, root: PageId, t: Shape, h: nat) {
    && WellFormed(t, h, Unbounded, Unbounded) && (PagesFit(t) <==> BulkFits(Contents(t)))
    && if BulkFits(Contents(t)) then RootRepr(pages, root, t) else Unreadable(pages, root)
  }

  lemma IsLoaded(pages: Pages, root: PageId, t: Shape, h: nat)
    requires WellFormed(t, h, Unbounded, Unbounded) && (PagesFit(t) <==> BulkFits(Contents(t)))
    requires if BulkFits(Contents(t)) then RootRepr(pages, root, t) else Unreadable(pages, root)
    ensures Loaded(pages, root, t, h)
  {
  }

  lemma EndOfPairs(pairs: seq<KV>)
    ensures pairs[|pairs|..] == []
  {
  }

  lemma ReadyToFinish(b: Builder, total: seq<KV>)
    requires Progress(b, [], total)
    ensures b.Valid() && b.added == total && Sorted(total) && b.store.numPages + 2 * |b.leaves| + 3 <= INVALID
  {
    Whole(b.added);
  }

  /** A full scan whose visitor never stops. */
  method ScanAll(base: Store, root: PageId, ghost t: Shape, ghost h: nat) returns (pairs: seq<KV>)
    requires base.Valid() && RootRepr(base.pages, root, t) && WellFormed(t, h, Unbounded, Unbounded)
    ensures pairs == Contents(t) && Sorted(pairs)
  {
    hide WellFormed, RootRepr, Contents, Matching, Sorted;
    var fn: Visitor := calls => true;
    AllMatch(Contents(t));
    OfferIsPrefix(fn, [], Matching(Contents(t), []));
    var v := Scan(base, root, [], fn, t, h);
    return v.calls;
  }

  /** The merge of any base and any log fits, whatever order its keys are sorted into. */
  ghost predicate GenerationFits(kvs: seq<KV>, deltas: Deltas) {
    forall ks :: SameKeys(ks, deltas) ==> Fits(kvs, ks, deltas)
  }

  /**
   * Compaction preserves meaning: the new generation holds the base with all mutations of the log
   * above `baseApplied` applied one by one, and remembers the highest record it has seen.
   */
  method BuildGeneration(base: Store, baseRoot: PageId, baseApplied: nat, log: seq<Entries.LogEntry>, ghost t: Shape,
                         ghost h: nat)
    returns (store: Store, r: Result<PageId>, lastApplied: nat, ghost t': Shape, ghost h': nat)
    requires base.Valid() && RootRepr(base.pages, baseRoot, t) && WellFormed(t, h, Unbounded, Unbounded)
    requires GenerationFits(Contents(t), Entries.Net(Entries.Mutations(log, baseApplied)))
    ensures fresh(store) && store.Valid() && r.Ok? && Loaded(store.pages, r.value, t', h')
    ensures ToMap(Contents(t')) == Entries.Fold(ToMap(Contents(t)), Entries.Mutations(log, baseApplied))
    ensures lastApplied == Entries.MaxTx(log, baseApplied)
  {
    hide *;
    var deltas, ks, last := Entries.ParseDeltas(log, baseApplied);
    KeysParsed(ks, deltas);
    Allowed(Contents(t), ks, deltas);
    store := new Store();
    r, t', h' := MergeBuild(store, base, baseRoot, deltas, ks, t, h);
    Entries.MergeIsFold(ToMap(Contents(t)), Entries.Mutations(log, baseApplied));
    lastApplied := last;
  }

  lemma KeysParsed(ks: seq<bytes>, deltas: Deltas)
    requires Ascending(ks) && forall k :: k in ks <==> k in deltas
    ensures SameKeys(ks, deltas)
  {
  }

  lemma Allowed(kvs: seq<KV>, ks: seq<bytes>, deltas: Deltas)
    requires GenerationFits(kvs, deltas) && SameKeys(ks, deltas)
    ensures Fits(kvs, ks, deltas)
  {
  }
}
