/** Searching, splitting and rewriting one node of the paged tree (btree/btree.go, node.go, split.go). */
module TreeWrites {
  import opened Bytes
  import opened Wrappers
  import opened Seqs
  import opened KVLists
  import opened Shapes
  import opened ShapeOps
  import opened Fitting
  import opened Nodes
  import opened PageStore
  import opened TreePages

  // ---- Searching inside a node ----

  method LeafSearch(entries: seq<LeafEntry>, key: bytes) returns (idx: nat, found: bool)
    ensures idx <= |entries|
    ensures forall i :: 0 <= i < idx ==> Less(entries[i].key, key)
    ensures idx < |entries| ==> !Less(entries[idx].key, key)
    ensures found <==> idx < |entries| && entries[idx].key == key
  {
    idx := 0;
    while idx < |entries|
      invariant idx <= |entries|
      invariant forall i :: 0 <= i < idx ==> Less(entries[i].key, key)
    {
      var c := CompareBytes(entries[idx].key, key);
      LessTotal(entries[idx].key, key);
      if c == 0 {
        return idx, true;
      } else if c == 1 {
        return idx, false;
      }
      idx := idx + 1;
    }
    found := false;
  }

  method FindChild(keys: seq<bytes>, key: bytes) returns (i: nat)
    ensures i == ChildIndex(keys, key)
  {
    i := 0;
    Whole(keys);
    while i < |keys|
      invariant 0 <= i <= |keys|
      invariant ChildIndex(keys, key) == i + ChildIndex(keys[i..], key)
    {
      TakeNext(keys, i);
      var c := CompareBytes(key, keys[i]);
      if c < 0 {
        return i;
      }
      i := i + 1;
    }
  }

  lemma SearchIsRank(pages: Pages, es: seq<LeafEntry>, kvs: seq<KV>, key: bytes, idx: nat)
    requires DenotesAll(pages, es, kvs) && idx <= |es|
    requires forall i :: 0 <= i < idx ==> Less(es[i].key, key)
    requires idx < |es| ==> !Less(es[idx].key, key)
    ensures idx == Rank(kvs, key)
    ensures idx < |es| ==> Denotes(pages, es[idx], kvs[idx]) && es[idx].key == kvs[idx].key
  {
    var r := Rank(kvs, key);
    assert forall i :: 0 <= i < |es| ==> Denotes(pages, es[i], kvs[i]) && es[i].key == kvs[i].key;
  }

  // ---- Writing a node, in two halves if it does not fit ----

  predicate NodeSplittable(n: Node) {
    match n
    case Leaf(es) => |es| >= 2
    case Internal(keys, children) => |keys| >= 1 && |children| == |keys| + 1
  }

  datatype Halved = Halved(left: Node, sep: bytes, right: Node)

  function SplitNode(n: Node): (h: Halved)
    requires NodeSplittable(n)
    ensures Shaped(h.left) && Shaped(h.right)
  {
    match n
    case Leaf(es) =>
      var mid := |es| / 2;
      Halved(Leaf(es[..mid]), es[mid].key, Leaf(es[mid..]))
    case Internal(keys, children) =>
      var mid := |keys| / 2;
      Halved(Internal(keys[..mid], children[..mid + 1]), keys[mid], Internal(keys[mid + 1..], children[mid + 1..]))
  }

  datatype SplitResult = SplitResult(sep: bytes, right: PageId)

  /** The pages a node ends up on, one or two of them, starting at page `id`. */
  ghost predicate WrittenAt(pages: Pages, n: Node, id: PageId, split: Option<SplitResult>) {
    && Shaped(n) && id in pages
    && if Fits(n) then split == None && pages[id] == PageOf(n)
       else NodeSplittable(n) && id + 1 in pages
            && split == Some(SplitResult(SplitNode(n).sep, id + 1))
            && pages[id] == PageOf(SplitNode(n).left) && pages[id + 1] == PageOf(SplitNode(n).right)
  }

  /** Not ok: a leaf of one entry cannot be split, and the code stops with a run-time error. */
  method WriteMaybeSplit(store: Store, n: Node) returns (id: PageId, split: Option<SplitResult>, ok: bool)
    requires store.Valid() && Shaped(n)
    modifies store
    ensures store.Valid() && Extends(old(store.pages), store.pages)
    ensures ok <==> Fits(n) || NodeSplittable(n)
    ensures !ok ==> store.numPages == old(store.numPages)
    ensures ok ==> id == old(store.numPages) && id < store.numPages <= id + 2
    ensures ok && split.Some? ==> split.value.right < store.numPages
    ensures ok ==> WrittenAt(store.pages, n, id, split)
  {
    hide NodeBytes, PageOf, SplitNode;
    ok := true;
    var size := EncodedSize(n);
    if size <= BODY_SIZE {
      id := store.WriteNode(n);
      split := None;
    } else if !NodeSplittable(n) {
      return 0, None, false;
    } else {
      var h := SplitNode(n);
      id := store.WriteNode(h.left);
      var right := store.WriteNode(h.right);
      split := Some(SplitResult(h.sep, right));
    }
  }

  ghost predicate GrownRepr(pages: Pages, id: PageId, split: Option<SplitResult>, g: Grown) {
    match g
    case One(t) => split == None && Repr(pages, id, t)
    case Two(l, sep, r) => split.Some? && split.value.sep == sep && Repr(pages, id, l) && Repr(pages, split.value.right, r)
  }

  ghost predicate GrownUnreadable(pages: Pages, id: PageId, split: Option<SplitResult>) {
    Unreadable(pages, id) || (split.Some? && Unreadable(pages, split.value.right))
  }

  /** The decision to split, and the separator, depend on sizes and keys only. */
  ghost predicate SameCut(split: Option<SplitResult>, g: Grown) {
    (split.Some? <==> g.Two?) && (g.Two? ==> split.value.sep == g.sep)
  }

  lemma DenotesSlice(pages: Pages, es: seq<LeafEntry>, kvs: seq<KV>, a: nat, b: nat)
    requires DenotesAll(pages, es, kvs) && a <= b <= |es|
    ensures DenotesAll(pages, es[a..b], kvs[a..b])
  {
    forall i | 0 <= i < b - a
      ensures Denotes(pages, es[a..b][i], kvs[a..b][i])
    {
      assert Denotes(pages, es[a + i], kvs[a + i]);
    }
  }

  /** Splitting a node splits its shape. */
  lemma HalvesRepr(pages: Pages, n: Node, t: Shape, limit: PageId)
    requires NodeRepr(pages, n, t, limit) && Splittable(t) && Loadable(t)
    ensures NodeSplittable(n) && SplitShape(t).Two?
    ensures var h := SplitNode(n); var g := SplitShape(t);
            && h.sep == g.sep && NodeRepr(pages, h.left, g.left, limit) && NodeRepr(pages, h.right, g.right, limit)
            && Loadable(g.left) && Loadable(g.right)
  {
    match t
    case Tip(kvs) =>
      var es, mid := n.entries, |kvs| / 2;
      assert Denotes(pages, es[mid], kvs[mid]);
      DenotesSlice(pages, es, kvs, 0, mid);
      DenotesSlice(pages, es, kvs, mid, |es|);
      assert es[0..mid] == es[..mid] && kvs[0..mid] == kvs[..mid];
      assert es[mid..|es|] == es[mid..] && kvs[mid..|kvs|] == kvs[mid..];
    case Branch(keys, kids) =>
      KidsSplit(pages, n.children, kids, |keys| / 2 + 1, limit);
  }

  lemma KidsSplit(pages: Pages, children: seq<PageId>, kids: seq<Shape>, m: nat, limit: PageId)
    requires |children| == |kids| && m <= |kids|
    requires forall i :: 0 <= i < |kids| ==> children[i] < limit && Repr(pages, children[i], kids[i])
    ensures forall i :: 0 <= i < m ==> children[..m][i] < limit && Repr(pages, children[..m][i], kids[..m][i])
    ensures forall i :: 0 <= i < |kids| - m ==> children[m..][i] < limit && Repr(pages, children[m..][i], kids[m..][i])
  {
    hide Repr;
    forall i | 0 <= i < |kids| - m
      ensures children[m..][i] < limit && Repr(pages, children[m..][i], kids[m..][i])
    {
      assert Repr(pages, children[m + i], kids[m + i]);
    }
  }

  lemma HalvesEncodable(n: Node)
    requires Shaped(n) && Encodable(n) && NodeSplittable(n)
    ensures Encodable(SplitNode(n).left) && Encodable(SplitNode(n).right)
  {
    hide EntryEncodable;
  }

  /** Writing a node whose halves fit yields the grown shape; otherwise a page cannot be read back. */
  lemma WrittenGrown(before: Pages, after: Pages, n: Node, t: Shape, id: PageId, split: Option<SplitResult>)
    requires NodeRepr(before, n, t, id) && Loadable(t) && (!Small(t) ==> Splittable(t)) && id + 1 < INVALID
    requires Extends(before, after) && WrittenAt(after, n, id, split)
    ensures SameCut(split, MaybeSplit(t))
    ensures GrownSmall(MaybeSplit(t)) ==> GrownRepr(after, id, split, MaybeSplit(t))
    ensures !GrownSmall(MaybeSplit(t)) ==> GrownUnreadable(after, id, split)
  {
    hide PageSize, NodeBytes, PageOf, SplitNode, SplitShape, NodeRepr, Loadable;
    assert Balanced(t) by { LoadableIsBalanced(t); }
    NodeSizeIs(before, n, t, id);
    NodeEncodable(before, n, t, id);
    if Small(t) {
      WrittenNode(before, after, id, n, t);
    } else {
      HalvesRepr(before, n, t, id);
      HalvesEncodable(n);
      var h, g := SplitNode(n), SplitShape(t);
      WrittenHalf(before, after, h.left, g.left, id, id);
      WrittenHalf(before, after, h.right, g.right, id, id + 1);
    }
  }

  lemma LoadableIsBalanced(t: Shape)
    requires Loadable(t)
    ensures Balanced(t)
  {
  }

  lemma WrittenHalf(before: Pages, after: Pages, n: Node, t: Shape, limit: PageId, id: PageId)
    requires NodeRepr(before, n, t, limit) && limit <= id < INVALID && Loadable(t)
    requires Extends(before, after) && Shaped(n) && Encodable(n) && id in after && after[id] == PageOf(n)
    ensures if Small(t) then Repr(after, id, t) else Unreadable(after, id)
  {
    hide PageSize, NodeBytes, PageOf, NodeRepr, Loadable, Repr, Unreadable;
    NodeIn(before, before, n, t, limit, id);
    LoadableIsBalanced(t);
    NodeSizeIs(before, n, t, id);
    if Small(t) {
      WrittenNode(before, after, id, n, t);
    } else {
      WrittenUnreadable(before, after, id, n);
    }
  }

  lemma NodeIn(a: Pages, b: Pages, n: Node, t: Shape, limit: PageId, limit': PageId)
    requires a == b && NodeRepr(a, n, t, limit) && limit <= limit'
    ensures NodeRepr(b, n, t, limit')
  {
    NodeStable(a, b, n, t, limit, limit');
  }

  /** The same for a node one of whose children cannot be read back. */
  lemma WrittenOverUnreadable(before: Pages, after: Pages, n: Node, t: Shape, id: PageId, split: Option<SplitResult>,
                              bad: nat)
    requires n.Internal? && t.Branch? && n.keys == t.keys && |n.children| == |t.kids|
    requires Loadable(t) && (!Small(t) ==> Splittable(t)) && id + 1 < INVALID
    requires forall i :: 0 <= i < |n.children| ==> n.children[i] <= INVALID
    requires bad < |n.children| && n.children[bad] < id && Unreadable(before, n.children[bad])
    requires Extends(before, after) && WrittenAt(after, n, id, split)
    ensures SameCut(split, MaybeSplit(t)) && GrownUnreadable(after, id, split)
  {
    hide EncodeLinks, KeysSize, PageOf, Unreadable;
    assert Fits(n) <==> Small(t) by { LinksSizeIs(n.keys, n.children[1..]); }
    assert Shaped(n) && Encodable(n);
    hide NodeBytes, PageSize;
    if Fits(n) {
      WrittenUnreadable(before, after, id, n);
    } else {
      HalvesEncodable(n);
      BadHalf(before, after, n, id, bad);
    }
  }

  lemma BadHalf(before: Pages, after: Pages, n: Node, id: PageId, bad: nat)
    requires n.Internal? && NodeSplittable(n) && bad < |n.children|
    requires Encodable(SplitNode(n).left) && Encodable(SplitNode(n).right)
    requires n.children[bad] < id && Unreadable(before, n.children[bad]) && Extends(before, after)
    requires id in after && after[id] == PageOf(SplitNode(n).left)
    requires id + 1 in after && after[id + 1] == PageOf(SplitNode(n).right)
    ensures Unreadable(after, id) || Unreadable(after, id + 1)
  {
    hide NodeBytes, PageOf, Unreadable, Encodable;
    var m := |n.keys| / 2 + 1;
    var l, r := SplitNode(n).left, SplitNode(n).right;
    if bad < m {
      assert l.children[bad] == n.children[bad];
      WrittenUnreadable(before, after, id, l);
    } else {
      assert r.children[bad - m] == n.children[bad];
      WrittenUnreadable(before, after, id + 1, r);
    }
  }

  // ---- Insertion ----

  function InsertElem<T>(s: seq<T>, i: nat, x: T): seq<T>
    requires i <= |s|
  {
    s[..i] + [x] + s[i..]
  }

  /** The parent with its child `ci` replaced by what the child grew into. */
  function ReplaceChild(n: Node, ci: nat, id: PageId, split: Option<SplitResult>): Node
    requires n.Internal? && Shaped(n) && ci < |n.children|
  {
    var children := n.children[ci := id];
    match split
    case None => Internal(n.keys, children)
    case Some(s) => Internal(InsertElem(n.keys, ci, s.sep), InsertElem(children, ci + 1, s.right))
  }

  lemma ReplaceOutline(n: Node, t: Shape, ci: nat, id: PageId, split: Option<SplitResult>, g: Grown)
    requires n.Internal? && t.Branch? && n.keys == t.keys && |n.children| == |t.kids| == |t.keys| + 1 && ci < |t.kids|
    requires SameCut(split, g)
    ensures var n' := ReplaceChild(n, ci, id, split); var t' := Replace(t.keys, t.kids, ci, g);
            && Shaped(n') && n'.Internal? && t'.Branch?
            && n'.keys == t'.keys && |n'.children| == |t'.kids| && n'.children[ci] == id
            && (split.Some? ==> n'.children[ci + 1] == split.value.right)
  {
  }

  lemma ReplaceBelow(n: Node, ci: nat, id: PageId, split: Option<SplitResult>, limit: PageId)
    requires n.Internal? && Shaped(n) && ci < |n.children| && id < limit && (split.Some? ==> split.value.right < limit)
    requires forall i :: 0 <= i < |n.children| ==> n.children[i] < limit
    ensures forall c :: c in ReplaceChild(n, ci, id, split).children ==> c < limit
  {
  }

  lemma ReplaceRepr(pages: Pages, n: Node, t: Shape, ci: nat, id: PageId, split: Option<SplitResult>, g: Grown,
                    limit: PageId)
    requires t.Branch? && NodeRepr(pages, n, t, limit) && |t.kids| == |t.keys| + 1 && ci < |t.kids|
    requires GrownRepr(pages, id, split, g) && id < limit && (split.Some? ==> split.value.right < limit)
    ensures NodeRepr(pages, ReplaceChild(n, ci, id, split), Replace(t.keys, t.kids, ci, g), limit)
  {
    hide Repr;
    var n', t' := ReplaceChild(n, ci, id, split), Replace(t.keys, t.kids, ci, g);
    forall i | 0 <= i < |t'.kids|
      ensures n'.children[i] < limit && Repr(pages, n'.children[i], t'.kids[i])
    {
      if g.One? {
        assert i != ci ==> n'.children[i] == n.children[i] && t'.kids[i] == t.kids[i];
      } else if i < ci {
        assert n'.children[i] == n.children[i] && t'.kids[i] == t.kids[i];
      } else if i > ci + 1 {
        assert n'.children[i] == n.children[i - 1] && t'.kids[i] == t.kids[i - 1];
      }
    }
  }

  lemma LeafReplaced(pages: Pages, es: seq<LeafEntry>, kvs: seq<KV>, e: LeafEntry, kv: KV, idx: nat, end: nat)
    requires DenotesAll(pages, es, kvs) && Denotes(pages, e, kv)
    requires idx == Rank(kvs, kv.key) && end == EndRank(kvs, kv.key)
    ensures DenotesAll(pages, es[..idx] + [e] + es[end..], PutAt(kvs, kv))
  {
    hide Denotes, Rank;
    var es', kvs' := es[..idx] + [e] + es[end..], PutAt(kvs, kv);
    forall i | 0 <= i < |es'|
      ensures Denotes(pages, es'[i], kvs'[i])
    {
      if i < idx {
        assert es'[i] == es[i] && kvs'[i] == kvs[i];
      } else if i > idx {
        assert es'[i] == es[i - idx - 1 + end] && kvs'[i] == kvs[i - idx - 1 + end];
      }
    }
  }

  /** What one level of the insertion promises about the pages it leaves behind. */
  ghost predicate Inserted(pages: Pages, id: PageId, split: Option<SplitResult>, t: Shape, kv: KV) {
    if KvSize(kv) + 2 <= BODY_SIZE then InsertedFitting(pages, id, split, t, kv) else Broken(pages, id, split)
  }

  ghost predicate InsertedFitting(pages: Pages, id: PageId, split: Option<SplitResult>, t: Shape, kv: KV) {
    && SameCut(split, Insert(t, kv))
    && (InsertFits(t, kv) ==> GrownRepr(pages, id, split, Insert(t, kv)))
    && (!InsertFits(t, kv) ==> GrownUnreadable(pages, id, split))
  }

  /** The pages of a pair too large for any page cannot be read back, whatever separator they get. */
  ghost predicate Broken(pages: Pages, id: PageId, split: Option<SplitResult>) {
    GrownUnreadable(pages, id, split) && (split.Some? ==> |split.value.sep| < 0x1_0000)
  }

  lemma {:induction false} EntryWithin(es: seq<LeafEntry>, i: nat)
    ensures i < |es| ==> |EncodeEntries(es)| >= EntrySize(es[i])
  {
    hide EntrySize, EncodeEntry;
    if 0 < i < |es| {
      EntryWithin(es[1..], i - 1);
    }
  }

  /** A leaf with an entry that fits no page: the half that gets the entry cannot be read back. */
  lemma WrittenOversized(before: Pages, after: Pages, n: Node, id: PageId, split: Option<SplitResult>, i: nat)
    requires n.Leaf? && Encodable(n) && i < |n.entries| && EntrySize(n.entries[i]) + 2 > BODY_SIZE
    requires Extends(before, after) && WrittenAt(after, n, id, split)
    ensures Broken(after, id, split)
  {
    hide EntrySize, PageOf, EncodeEntries, Unreadable;
    EntryWithin(n.entries, i);
    assert !Fits(n);
    HalvesEncodable(n);
    var m := |n.entries| / 2;
    var l, r := SplitNode(n).left, SplitNode(n).right;
    assert EntryEncodable(n.entries[m]);
    if i < m {
      EntryWithin(l.entries, i);
      WrittenUnreadable(before, after, id, l);
    } else {
      EntryWithin(r.entries, i - m);
      WrittenUnreadable(before, after, id + 1, r);
    }
  }

  /** The facts every level of an insertion starts from. */
  ghost predicate Insertable(pages: Pages, id: PageId, e: LeafEntry, t: Shape, kv: KV, h: nat, lo: Bound, hi: Bound) {
    && Repr(pages, id, t) && WellFormed(t, h, lo, hi) && PagesFit(t) && Within(kv.key, lo, hi)
    && Denotes(pages, e, kv)
  }

  /** Not ok: an entry too large for a page is all the rewritten leaf would hold. */
  method InsertLeaf(store: Store, n: Node, e: LeafEntry, ghost t: Shape, ghost kv: KV)
    returns (id: PageId, split: Option<SplitResult>, ok: bool)
    requires store.Valid() && t.Tip? && NodeRepr(store.pages, n, t, store.numPages) && Small(t)
    requires Denotes(store.pages, e, kv) && store.numPages + 2 <= INVALID
    modifies store
    ensures store.Valid() && Extends(old(store.pages), store.pages)
    ensures ok <==> KvSize(kv) + 2 <= BODY_SIZE || !LandsAlone(t, kv)
    ensures ok ==> old(store.numPages) == id < store.numPages <= old(store.numPages) + 2
    ensures ok && split.Some? ==> split.value.right < store.numPages
    ensures if ok then Inserted(store.pages, id, split, t, kv) else store.numPages == old(store.numPages)
  {
    hide Denotes, PageSize, NodeBytes, PutAt, Rank, NodeRepr, KvSize;
    assert n.Leaf? && DenotesAll(store.pages, n.entries, t.kvs) by { LeafOf(store.pages, n, t, store.numPages); }
    assert e.key == kv.key by { KeyOf(store.pages, e, kv); }
    var idx, found := LeafSearch(n.entries, e.key);
    SearchIsRank(store.pages, n.entries, t.kvs, kv.key, idx);
    var end := if found then idx + 1 else idx;
    var n' := Leaf(n.entries[..idx] + [e] + n.entries[end..]);
    LeafReplaced(store.pages, n.entries, t.kvs, e, kv, idx, end);
    NewLeaf(store.pages, n', e, t, kv, idx, store.numPages);
    id, split, ok := WriteMaybeSplit(store, n');
    if ok {
      NewLeafWritten(old(store.pages), store.pages, n', e, t, kv, idx, id, split);
    }
  }

  /** When the rewritten leaf can be written. */
  lemma NewLeaf(pages: Pages, n: Node, e: LeafEntry, t: Shape, kv: KV, idx: nat, limit: PageId)
    requires t.Tip? && Small(t) && n.Leaf? && DenotesAll(pages, n.entries, PutAt(t.kvs, kv))
    requires idx < |n.entries| && n.entries[idx] == e && Denotes(pages, e, kv)
    ensures Shaped(n)
    ensures Fits(n) || NodeSplittable(n) <==> KvSize(kv) + 2 <= BODY_SIZE || !LandsAlone(t, kv)
  {
    var t' := Tip(PutAt(t.kvs, kv));
    EntrySizeIs(pages, e, kv);
    hide Denotes, PageSize, PutAt, KvSize, EntrySize;
    NodeOfLeaf(pages, n, t', limit);
    NodeSizeIs(pages, n, t', limit);
    if KvSize(kv) + 2 <= BODY_SIZE {
      GrownLeafLoads(t.kvs, kv);
      CutOfNode(pages, n, t', limit);
    } else {
      EntryWithin(n.entries, idx);
    }
  }

  lemma NewLeafWritten(before: Pages, after: Pages, n: Node, e: LeafEntry, t: Shape, kv: KV, idx: nat, id: PageId,
                       split: Option<SplitResult>)
    requires t.Tip? && Small(t) && n.Leaf? && DenotesAll(before, n.entries, PutAt(t.kvs, kv))
    requires idx < |n.entries| && n.entries[idx] == e && Denotes(before, e, kv)
    requires Extends(before, after) && WrittenAt(after, n, id, split) && id + 1 < INVALID
    ensures Inserted(after, id, split, t, kv)
  {
    hide *;
    var t' := Tip(PutAt(t.kvs, kv));
    NodeOfLeaf(before, n, t', id);
    InsertTipIs(t.kvs, kv);
    if KvSize(kv) + 2 <= BODY_SIZE {
      GrownLeafLoads(t.kvs, kv);
      WrittenGrown(before, after, n, t', id, split);
      TipInsertedIs(after, id, split, t, kv);
    } else {
      EntrySizeIs(before, e, kv);
      NewLeafEncodable(before, n, t, kv);
      WrittenOversized(before, after, n, id, split, idx);
      BrokenIs(after, id, split, t, kv);
    }
  }

  lemma InsertTipIs(kvs: seq<KV>, kv: KV)
    ensures Insert(Tip(kvs), kv) == MaybeSplit(Tip(PutAt(kvs, kv)))
    ensures InsertFits(Tip(kvs), kv) <==> GrownSmall(Insert(Tip(kvs), kv))
  {
  }

  lemma TipInsertedIs(pages: Pages, id: PageId, split: Option<SplitResult>, t: Shape, kv: KV)
    requires KvSize(kv) + 2 <= BODY_SIZE && SameCut(split, Insert(t, kv))
    requires InsertFits(t, kv) ==> GrownRepr(pages, id, split, Insert(t, kv))
    requires !InsertFits(t, kv) ==> GrownUnreadable(pages, id, split)
    ensures Inserted(pages, id, split, t, kv)
  {
  }

  lemma BrokenIs(pages: Pages, id: PageId, split: Option<SplitResult>, t: Shape, kv: KV)
    requires KvSize(kv) + 2 > BODY_SIZE
    ensures Inserted(pages, id, split, t, kv) <==> Broken(pages, id, split)
  {
  }

  lemma NewLeafEncodable(pages: Pages, n: Node, t: Shape, kv: KV)
    requires t.Tip? && Small(t) && n.Leaf? && DenotesAll(pages, n.entries, PutAt(t.kvs, kv))
    ensures Encodable(n)
  {
    KvsSizeBounds(t.kvs);
    PutMembers(t.kvs, kv);
    hide PutAt, KvsSize;
    forall i | 0 <= i < |n.entries|
      ensures EntryEncodable(n.entries[i])
    {
      assert Denotes(pages, n.entries[i], PutAt(t.kvs, kv)[i]);
    }
  }

  lemma LeafOf(pages: Pages, n: Node, t: Shape, limit: PageId)
    requires t.Tip? && NodeRepr(pages, n, t, limit)
    ensures n.Leaf? && DenotesAll(pages, n.entries, t.kvs)
  {
  }

  lemma NodeOfLeaf(pages: Pages, n: Node, t: Shape, limit: PageId)
    requires t.Tip? && n.Leaf? && DenotesAll(pages, n.entries, t.kvs)
    ensures NodeRepr(pages, n, t, limit)
  {
  }

  lemma KeyOf(pages: Pages, e: LeafEntry, kv: KV)
    requires Denotes(pages, e, kv)
    ensures e.key == kv.key
  {
  }

  lemma CutOfNode(pages: Pages, n: Node, t: Shape, limit: PageId)
    requires NodeRepr(pages, n, t, limit) && Loadable(t)
    ensures Shaped(n) && (Splittable(t) ==> NodeSplittable(n))
  {
    hide Denotes, Repr;
  }
}
