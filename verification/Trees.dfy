/** The copy-on-write tree over a page store: insert, delete, get (btree/btree.go). */
module Trees {
  import opened Bytes
  import opened Wrappers
  import opened KVLists
  import opened Shapes
  import opened ShapeOps
  import opened Fitting
  import opened Nodes
  import opened PageStore
  import opened TreePages
  import opened TreeWrites

  lemma ExtendsTransitive(a: Pages, b: Pages, c: Pages)
    requires Extends(a, b) && Extends(b, c)
    ensures Extends(a, c)
  {
  }

  /** Reads the node on a page; on a page that represents a tree this does not fail. */
  method ReadNode(store: Store, id: PageId) returns (r: Result<Node>)
    ensures r == if id in store.pages then ParseNode(store.pages[id]) else Err
  {
    var p := store.ReadPage(id);
    if p.Err? {
      return Err;
    }
    r := DecodeNode(p.value);
  }

  // ---- Insert ----

  lemma ChildFacts(pages: Pages, n: Node, t: Shape, h: nat, lo: Bound, hi: Bound, id: PageId, k: bytes)
    requires NodeRepr(pages, n, t, id) && WellFormed(t, h, lo, hi) && Within(k, lo, hi) && n.Internal?
    ensures t.Branch? && n.keys == t.keys && |n.children| == |t.kids| == |t.keys| + 1 && h > 0
    ensures var ci := ChildIndex(t.keys, k);
            && n.children[ci] < id && Repr(pages, n.children[ci], t.kids[ci])
            && WellFormed(t.kids[ci], h - 1, LoOf(t.keys, lo, ci), HiOf(t.keys, hi, ci))
            && Within(k, LoOf(t.keys, lo, ci), HiOf(t.keys, hi, ci))
    ensures forall i :: 0 <= i < |n.children| ==> n.children[i] < id
  {
    hide Repr, Flat, Contents;
    Descend(t.keys, t.kids, h, lo, hi, k);
  }

  lemma KidFits(t: Shape, i: nat)
    requires t.Branch? && i < |t.kids| && PagesFit(t)
    ensures PagesFit(t.kids[i])
  {
  }

  /** The rewritten parent, once written, is what insertion on shapes says it is. */
  lemma BranchWritten(p0: Pages, p1: Pages, p2: Pages, n: Node, t: Shape, kv: KV, h: nat, lo: Bound, hi: Bound,
                      cid: PageId, csplit: Option<SplitResult>, id: PageId, split: Option<SplitResult>)
    requires t.Branch? && NodeRepr(p0, n, t, id) && Extends(p0, p1) && Extends(p1, p2)
    requires WellFormed(t, h, lo, hi) && PagesFit(t) && id + 1 < INVALID
    requires ChildIndex(t.keys, kv.key) < |t.kids| && Inserted(p1, cid, csplit, t.kids[ChildIndex(t.keys, kv.key)], kv)
    requires cid < id && (csplit.Some? ==> csplit.value.right < id)
    requires n.Internal? && Shaped(n) && |n.children| == |t.kids|
    requires WrittenAt(p2, ReplaceChild(n, ChildIndex(t.keys, kv.key), cid, csplit), id, split)
    ensures Inserted(p2, id, split, t, kv)
  {
    hide *;
    var ci := ChildIndex(t.keys, kv.key);
    if KvSize(kv) + 2 > BODY_SIZE {
      BrokenIs(p1, cid, csplit, t.kids[ci], kv);
      BranchBroken(p0, p1, p2, n, t, ci, cid, csplit, id, split);
      BrokenIs(p2, id, split, t, kv);
      return;
    }
    InsertIntoBranch(t, kv, h, lo, hi);
    if InsertFits(t.kids[ci], kv) {
      BranchWrittenWell(p0, p1, p2, n, t, kv, h, lo, hi, cid, csplit, id, split);
    } else {
      BranchWrittenBadly(p0, p1, p2, n, t, kv, h, lo, hi, cid, csplit, id, split);
    }
    InsertedIs(p2, id, split, t, kv);
    InsertedIs(p1, cid, csplit, t.kids[ci], kv);
  }

  lemma InsertIntoBranch(t: Shape, kv: KV, h: nat, lo: Bound, hi: Bound)
    requires t.Branch? && WellFormed(t, h, lo, hi) && PagesFit(t) && KvSize(kv) + 2 <= BODY_SIZE
    ensures h > 0 && |t.kids| == |t.keys| + 1
    ensures var ci := ChildIndex(t.keys, kv.key); var g := Insert(t.kids[ci], kv);
            var t' := Replace(t.keys, t.kids, ci, g);
            && Insert(t, kv) == MaybeSplit(t') && t'.Branch?
            && (InsertFits(t, kv) <==> InsertFits(t.kids[ci], kv) && GrownSmall(MaybeSplit(t')))
            && Loadable(t') && (!Small(t') ==> Splittable(t'))
  {
    var ci := ChildIndex(t.keys, kv.key);
    assert PagesFit(t.kids[ci]) && Small(t);
    InsertKeysShort(t.kids[ci], kv, h - 1, LoOf(t.keys, lo, ci), HiOf(t.keys, hi, ci));
    GrownBranchLoads(t.keys, t.kids, ci, Insert(t.kids[ci], kv));
    hide PageSize, WellFormed, PagesFit, Loadable, MaybeSplit;
  }

  /** Above pages that cannot be read back, the same again: the rewritten parent leads to them. */
  lemma BranchBroken(p0: Pages, p1: Pages, p2: Pages, n: Node, t: Shape, ci: nat, cid: PageId,
                     csplit: Option<SplitResult>, id: PageId, split: Option<SplitResult>)
    requires t.Branch? && NodeRepr(p0, n, t, id) && Extends(p1, p2) && PagesFit(t) && id + 1 < INVALID
    requires n.Internal? && Shaped(n) && ci < |n.children| && Broken(p1, cid, csplit)
    requires cid < id && (csplit.Some? ==> csplit.value.right < id)
    requires WrittenAt(p2, ReplaceChild(n, ci, cid, csplit), id, split)
    ensures Broken(p2, id, split)
  {
    hide *;
    var n' := ReplaceChild(n, ci, cid, csplit);
    SmallRoot(t);
    BrokenSeparator(p1, cid, csplit);
    ReplacedEncodable(p0, n, t, ci, cid, csplit, id);
    var bad := BrokenChild(p1, n, ci, cid, csplit, id);
    if Fits(n') {
      WrittenFits(p2, n', id, split);
      WrittenUnreadable(p1, p2, id, n') by { assert n'.children[bad] < id && Unreadable(p1, n'.children[bad]); }
      StillBroken(p2, id, split);
    } else {
      WrittenSplit(p2, n', id, split);
      HalvesEncodable(n');
      BadHalf(p1, p2, n', id, bad);
      StillBroken(p2, id, split);
    }
  }

  lemma BrokenSeparator(pages: Pages, id: PageId, split: Option<SplitResult>)
    requires Broken(pages, id, split)
    ensures split.Some? ==> |split.value.sep| < 0x1_0000
  {
    hide Unreadable;
  }

  lemma WrittenFits(pages: Pages, n: Node, id: PageId, split: Option<SplitResult>)
    requires WrittenAt(pages, n, id, split) && Fits(n)
    ensures id in pages && pages[id] == PageOf(n) && split == None
  {
    hide PageOf, Fits;
  }

  lemma WrittenSplit(pages: Pages, n: Node, id: PageId, split: Option<SplitResult>)
    requires WrittenAt(pages, n, id, split) && !Fits(n) && Encodable(n) && n.Internal?
    ensures NodeSplittable(n) && id in pages && id + 1 in pages
    ensures pages[id] == PageOf(SplitNode(n).left) && pages[id + 1] == PageOf(SplitNode(n).right)
    ensures split.Some? && split.value.right == id + 1 && |split.value.sep| < 0x1_0000
  {
    hide PageOf, Fits;
  }

  lemma StillBroken(pages: Pages, id: PageId, split: Option<SplitResult>)
    requires Unreadable(pages, id) || (split.Some? && Unreadable(pages, split.value.right))
    requires split.Some? ==> |split.value.sep| < 0x1_0000
    ensures Broken(pages, id, split)
  {
    hide Unreadable;
  }

  lemma ReplacedEncodable(pages: Pages, n: Node, t: Shape, ci: nat, cid: PageId, csplit: Option<SplitResult>,
                          id: PageId)
    requires t.Branch? && NodeRepr(pages, n, t, id) && Small(t) && n.Internal? && Shaped(n) && ci < |n.children|
    requires cid < id < INVALID && (csplit.Some? ==> csplit.value.right < id && |csplit.value.sep| < 0x1_0000)
    ensures var n' := ReplaceChild(n, ci, cid, csplit); n'.Internal? && Shaped(n') && Encodable(n')
  {
    KeysSizeBounds(t.keys);
    hide Repr, KeysSize;
  }

  lemma BrokenChild(pages: Pages, n: Node, ci: nat, cid: PageId, csplit: Option<SplitResult>, id: PageId)
    returns (bad: nat)
    requires n.Internal? && Shaped(n) && ci < |n.children| && Broken(pages, cid, csplit)
    requires cid < id && (csplit.Some? ==> csplit.value.right < id)
    ensures var n' := ReplaceChild(n, ci, cid, csplit);
            bad < |n'.children| && n'.children[bad] < id && Unreadable(pages, n'.children[bad])
  {
    hide Unreadable;
    bad := if Unreadable(pages, cid) then ci else ci + 1;
  }

  lemma InsertedIs(pages: Pages, id: PageId, split: Option<SplitResult>, t: Shape, kv: KV)
    requires KvSize(kv) + 2 <= BODY_SIZE
    ensures Inserted(pages, id, split, t, kv) <==>
            && SameCut(split, Insert(t, kv))
            && (InsertFits(t, kv) ==> GrownRepr(pages, id, split, Insert(t, kv)))
            && (!InsertFits(t, kv) ==> GrownUnreadable(pages, id, split))
  {
  }

  lemma BranchWrittenWell(p0: Pages, p1: Pages, p2: Pages, n: Node, t: Shape, kv: KV, h: nat, lo: Bound, hi: Bound,
                          cid: PageId, csplit: Option<SplitResult>, id: PageId, split: Option<SplitResult>)
    requires t.Branch? && NodeRepr(p0, n, t, id) && Extends(p0, p1) && Extends(p1, p2)
    requires WellFormed(t, h, lo, hi) && PagesFit(t) && KvSize(kv) + 2 <= BODY_SIZE && id + 1 < INVALID
    requires ChildIndex(t.keys, kv.key) < |t.kids| && Inserted(p1, cid, csplit, t.kids[ChildIndex(t.keys, kv.key)], kv)
    requires InsertFits(t.kids[ChildIndex(t.keys, kv.key)], kv)
    requires cid < id && (csplit.Some? ==> csplit.value.right < id)
    requires n.Internal? && Shaped(n) && |n.children| == |t.kids|
    requires WrittenAt(p2, ReplaceChild(n, ChildIndex(t.keys, kv.key), cid, csplit), id, split)
    ensures var t' := Insert(t, kv); SameCut(split, t')
    ensures GrownSmall(Insert(t, kv)) ==> GrownRepr(p2, id, split, Insert(t, kv))
    ensures !GrownSmall(Insert(t, kv)) ==> GrownUnreadable(p2, id, split)
  {
    hide *;
    var ci := ChildIndex(t.keys, kv.key);
    var g := Insert(t.kids[ci], kv);
    InsertIntoBranch(t, kv, h, lo, hi);
    InsertedIs(p1, cid, csplit, t.kids[ci], kv);
    NodeStable(p0, p1, n, t, id, id);
    ReplaceRepr(p1, n, t, ci, cid, csplit, g, id);
    WrittenGrown(p1, p2, ReplaceChild(n, ci, cid, csplit), Replace(t.keys, t.kids, ci, g), id, split);
  }

  lemma BranchWrittenBadly(p0: Pages, p1: Pages, p2: Pages, n: Node, t: Shape, kv: KV, h: nat, lo: Bound, hi: Bound,
                           cid: PageId, csplit: Option<SplitResult>, id: PageId, split: Option<SplitResult>)
    requires t.Branch? && NodeRepr(p0, n, t, id) && Extends(p1, p2)
    requires WellFormed(t, h, lo, hi) && PagesFit(t) && KvSize(kv) + 2 <= BODY_SIZE && id + 1 < INVALID
    requires ChildIndex(t.keys, kv.key) < |t.kids| && Inserted(p1, cid, csplit, t.kids[ChildIndex(t.keys, kv.key)], kv)
    requires !InsertFits(t.kids[ChildIndex(t.keys, kv.key)], kv)
    requires cid < id && (csplit.Some? ==> csplit.value.right < id)
    requires n.Internal? && Shaped(n) && |n.children| == |t.kids|
    requires WrittenAt(p2, ReplaceChild(n, ChildIndex(t.keys, kv.key), cid, csplit), id, split)
    ensures SameCut(split, Insert(t, kv)) && GrownUnreadable(p2, id, split)
  {
    hide *;
    var ci := ChildIndex(t.keys, kv.key);
    var g := Insert(t.kids[ci], kv);
    InsertIntoBranch(t, kv, h, lo, hi);
    InsertedIs(p1, cid, csplit, t.kids[ci], kv);
    ChildrenBelow(p0, n, t, id);
    ReplaceOutline(n, t, ci, cid, csplit, g);
    var bad := BadChild(p1, n, t, ci, cid, csplit, g, id);
    WrittenOverUnreadable(p1, p2, ReplaceChild(n, ci, cid, csplit), Replace(t.keys, t.kids, ci, g), id, split, bad);
  }

  lemma BadChild(pages: Pages, n: Node, t: Shape, ci: nat, cid: PageId, csplit: Option<SplitResult>, g: Grown,
                 id: PageId)
    returns (bad: nat)
    requires n.Internal? && t.Branch? && n.keys == t.keys && |n.children| == |t.kids| == |t.keys| + 1 && ci < |t.kids|
    requires SameCut(csplit, g) && GrownUnreadable(pages, cid, csplit)
    requires cid < id <= INVALID && (csplit.Some? ==> csplit.value.right < id)
    requires forall i :: 0 <= i < |n.children| ==> n.children[i] < id
    ensures var n' := ReplaceChild(n, ci, cid, csplit);
            && bad < |n'.children| && n'.children[bad] < id && Unreadable(pages, n'.children[bad])
            && forall i :: 0 <= i < |n'.children| ==> n'.children[i] <= INVALID
  {
    ReplaceBelow(n, ci, cid, csplit, id);
    ReplaceOutline(n, t, ci, cid, csplit, g);
    hide ReplaceChild, Unreadable, Replace;
    var n' := ReplaceChild(n, ci, cid, csplit);
    bad := if Unreadable(pages, cid) then ci else ci + 1;
    forall i | 0 <= i < |n'.children|
      ensures n'.children[i] <= INVALID
    {
      assert n'.children[i] in n'.children;
    }
  }

  lemma ChildrenBelow(pages: Pages, n: Node, t: Shape, limit: PageId)
    requires t.Branch? && NodeRepr(pages, n, t, limit)
    ensures n.keys == t.keys && forall i :: 0 <= i < |n.children| ==> n.children[i] < limit
  {
  }

  /** Rewrites the path from page `id` to the key's leaf onto fresh pages. Not ok: the entry is too
      large for a page and alone in its leaf. */
  method InsertAt(store: Store, id: PageId, e: LeafEntry, ghost t: Shape, ghost kv: KV, ghost h: nat,
                  ghost lo: Bound, ghost hi: Bound)
    returns (newId: PageId, split: Option<SplitResult>, ok: bool)
    requires store.Valid() && Insertable(store.pages, id, e, t, kv, h, lo, hi)
    requires store.numPages + 2 * (h + 1) <= INVALID
    modifies store
    ensures store.Valid() && Extends(old(store.pages), store.pages)
    ensures ok <==> KvSize(kv) + 2 <= BODY_SIZE || !LandsAlone(t, kv)
    ensures old(store.numPages) <= store.numPages <= old(store.numPages) + 2 * (h + 1)
    ensures ok ==> old(store.numPages) <= newId < store.numPages
    ensures ok && split.Some? ==> split.value.right < store.numPages
    ensures ok ==> Inserted(store.pages, newId, split, t, kv)
    decreases h
  {
    hide ParseNode, NodeRepr, WellFormed, PagesFit, Denotes, KvSize, Inserted, Extends, ReplaceChild, WrittenAt,
      NodeBytes, LandsAlone;
    ghost var p0 := store.pages;
    var r := ReadNode(store, id);
    var n := r.value;
    assert NodeRepr(p0, n, t, id) && id < store.numPages;
    if n.Leaf? {
      TipOfLeaf(p0, n, t, id);
      SmallRoot(t);
      NodeIn(p0, p0, n, t, id, store.numPages);
      newId, split, ok := InsertLeaf(store, n, e, t, kv);
    } else {
      ChildFacts(p0, n, t, h, lo, hi, id, kv.key);
      KeyOf(p0, e, kv);
      var ci := FindChild(n.keys, e.key);
      KidFits(t, ci);
      AloneBelow(t, kv, ci);
      var cid, csplit;
      cid, csplit, ok := InsertAt(store, n.children[ci], e, t.kids[ci], kv, h - 1, LoOf(t.keys, lo, ci), HiOf(t.keys, hi, ci));
      if !ok {
        return 0, None, false;
      }
      ghost var p1 := store.pages;
      var n' := ReplaceChild(n, ci, cid, csplit);
      NodeIn(p0, p0, n, t, id, store.numPages);
      StaysInternal(n, ci, cid, csplit);
      BranchWritable(n');
      newId, split, ok := WriteMaybeSplit(store, n');
      BranchWritten(p0, p1, store.pages, n, t, kv, h, lo, hi, cid, csplit, newId, split);
      ExtendsTransitive(p0, p1, store.pages);
    }
  }

  lemma StaysInternal(n: Node, ci: nat, id: PageId, split: Option<SplitResult>)
    requires n.Internal? && Shaped(n) && ci < |n.children|
    ensures var n' := ReplaceChild(n, ci, id, split); n'.Internal? && Shaped(n')
  {
  }

  lemma AloneBelow(t: Shape, kv: KV, ci: nat)
    requires t.Branch? && ci == ChildIndex(t.keys, kv.key) < |t.kids|
    ensures LandsAlone(t, kv) <==> LandsAlone(t.kids[ci], kv)
  {
  }

  lemma TipOfLeaf(pages: Pages, n: Node, t: Shape, limit: PageId)
    requires NodeRepr(pages, n, t, limit)
    ensures n.Leaf? <==> t.Tip?
  {
  }

  lemma SmallRoot(t: Shape)
    requires PagesFit(t)
    ensures Small(t)
  {
  }

  /** A branch can always be written: with no separator it fits, with one it can be split. */
  lemma BranchWritable(n: Node)
    requires n.Internal? && Shaped(n)
    ensures Fits(n) || NodeSplittable(n)
  {
    assert n.keys == [] ==> n.children[1..] == [];
  }

  // ---- Delete ----

  lemma LeafRemoved(pages: Pages, es: seq<LeafEntry>, kvs: seq<KV>, k: bytes, idx: nat)
    requires DenotesAll(pages, es, kvs) && idx == Rank(kvs, k) && idx < |es| && FoundAt(kvs, idx, k)
    ensures DenotesAll(pages, es[..idx] + es[idx + 1..], RemoveAt(kvs, k))
  {
    hide Denotes, Rank;
    var es', kvs' := es[..idx] + es[idx + 1..], RemoveAt(kvs, k);
    forall i | 0 <= i < |es'|
      ensures Denotes(pages, es'[i], kvs'[i])
    {
      if i < idx {
        assert es'[i] == es[i] && kvs'[i] == kvs[i];
      } else {
        assert es'[i] == es[i + 1] && kvs'[i] == kvs[i + 1];
      }
    }
  }

  lemma SmallLoads(t: Shape)
    requires Small(t) && Balanced(t)
    ensures Loadable(t)
  {
    match t
    case Tip(kvs) => KvsSizeBounds(kvs);
    case Branch(keys, _) => KeysSizeBounds(keys);
  }

  /** Rewrites the path to the key's leaf; if the key is absent no page is written. */
  method DeleteAt(store: Store, id: PageId, key: bytes, ghost t: Shape, ghost h: nat, ghost lo: Bound, ghost hi: Bound)
    returns (newId: PageId)
    requires store.Valid() && Repr(store.pages, id, t)
    requires WellFormed(t, h, lo, hi) && PagesFit(t) && Within(key, lo, hi) && store.numPages + h + 1 <= INVALID
    modifies store
    ensures store.Valid() && Extends(old(store.pages), store.pages)
    ensures old(store.numPages) <= store.numPages <= old(store.numPages) + h + 1
    ensures newId == id || old(store.numPages) <= newId < store.numPages
    ensures newId == id ==> Delete(t, key) == t
    ensures Repr(store.pages, newId, Delete(t, key))
    decreases h
  {
    hide ParseNode, NodeRepr, WellFormed, PagesFit, Denotes, Extends, NodeBytes, Delete, Rank, RemoveAt, Loadable,
      PageSize;
    ghost var p0 := store.pages;
    var r := ReadNode(store, id);
    var n := r.value;
    assert NodeRepr(p0, n, t, id) && id < store.numPages;
    NodeIn(p0, p0, n, t, id, store.numPages);
    if n.Leaf? {
      TipOfLeaf(p0, n, t, id);
      LeafOf(p0, n, t, id);
      var idx, found := LeafSearch(n.entries, key);
      SearchIsRank(p0, n.entries, t.kvs, key, idx);
      DeleteTip(t.kvs, key, idx, found);
      if !found {
        ExtendsTransitive(p0, p0, store.pages) by { ExtendsSelf(p0); }
        return id;
      }
      var n' := Leaf(n.entries[..idx] + n.entries[idx + 1..]);
      LeafRemoved(p0, n.entries, t.kvs, key, idx);
      NodeOfLeaf(p0, n', Delete(t, key), store.numPages);
      newId := store.WriteNode(n');
      DeletedWritten(p0, store.pages, n', t, key, newId);
    } else {
      ChildFacts(p0, n, t, h, lo, hi, id, key);
      var ci := FindChild(n.keys, key);
      KidFits(t, ci);
      var cid := DeleteAt(store, n.children[ci], key, t.kids[ci], h - 1, LoOf(t.keys, lo, ci), HiOf(t.keys, hi, ci));
      ghost var p1 := store.pages;
      DeleteBranch(t, key, ci);
      if cid == n.children[ci] {
        ReprStable(p0, p1, id, t);
        return id;
      }
      var n' := Internal(n.keys, n.children[ci := cid]);
      NodeStable(p0, p1, n, t, store.numPages, store.numPages);
      ReplaceRepr(p1, n, t, ci, cid, None, One(Delete(t.kids[ci], key)), store.numPages);
      newId := store.WriteNode(n');
      DeletedWritten(p1, store.pages, n', t, key, newId);
      ExtendsTransitive(p0, p1, store.pages);
    }
  }

  lemma ExtendsSelf(p: Pages)
    ensures Extends(p, p)
  {
  }

  lemma DeleteTip(kvs: seq<KV>, k: bytes, idx: nat, found: bool)
    requires idx == Rank(kvs, k) && (found <==> FoundAt(kvs, idx, k))
    ensures Delete(Tip(kvs), k) == Tip(RemoveAt(kvs, k)) && (!found ==> RemoveAt(kvs, k) == kvs)
  {
  }

  lemma DeleteBranch(t: Shape, k: bytes, ci: nat)
    requires t.Branch? && ci == ChildIndex(t.keys, k) && ci < |t.kids|
    ensures Delete(t, k) == Branch(t.keys, t.kids[ci := Delete(t.kids[ci], k)])
    ensures Delete(t.kids[ci], k) == t.kids[ci] ==> Delete(t, k) == t
  {
    assert t.kids[ci := t.kids[ci]] == t.kids;
  }

  lemma DeletedWritten(before: Pages, after: Pages, n: Node, t: Shape, k: bytes, id: PageId)
    requires NodeRepr(before, n, Delete(t, k), id) && PagesFit(t) && Balanced(t) && id < INVALID
    requires Extends(before, after) && id in after && Shaped(n) && after[id] == PageOf(n)
    ensures Repr(after, id, Delete(t, k))
  {
    DeleteKeepsFit(t, k);
    hide PageSize, NodeBytes, PageOf, NodeRepr, Loadable, Repr;
    SmallRoot(Delete(t, k));
    SmallLoads(Delete(t, k));
    WrittenNode(before, after, id, n, Delete(t, k));
  }

  // ---- Get ----

  /** Point lookup from any root, current or captured earlier: descends to a leaf and searches it. */
  method GetFrom(store: Store, root: PageId, key: bytes, ghost t: Shape, ghost h: nat)
    returns (r: Result<Option<bytes>>)
    requires store.Valid() && RootRepr(store.pages, root, t) && WellFormed(t, h, Unbounded, Unbounded)
    ensures r == Ok(Find(Contents(t), key))
  {
    hide ParseNode, NodeRepr, WellFormed, Denotes, Contents, Find;
    if root == INVALID {
      EmptyContents(key);
      return Ok(None);
    }
    var id := root;
    ghost var s, g, lo, hi := t, h, Unbounded, Unbounded;
    while true
      invariant Repr(store.pages, id, s) && WellFormed(s, g, lo, hi) && Within(key, lo, hi)
      invariant Find(Contents(t), key) == Find(Contents(s), key)
      decreases g
    {
      var node := ReadNode(store, id);
      var n := node.value;
      assert NodeRepr(store.pages, n, s, id);
      if n.Leaf? {
        TipOfLeaf(store.pages, n, s, id);
        LeafOf(store.pages, n, s, id);
        var idx, found := LeafSearch(n.entries, key);
        SearchIsRank(store.pages, n.entries, s.kvs, key, idx);
        LeafLookup(s, g, lo, hi, key);
        if !found {
          return Ok(None);
        }
        DenotedValue(store.pages, n.entries[idx], s.kvs[idx]);
        var v := Materialize(store, n.entries[idx]);
        return Ok(Some(v.value));
      }
      ChildFacts(store.pages, n, s, g, lo, hi, id, key);
      var ci := FindChild(n.keys, key);
      BranchLookup(s, g, lo, hi, key);
      id := n.children[ci];
      s, g, lo, hi := s.kids[ci], g - 1, LoOf(s.keys, lo, ci), HiOf(s.keys, hi, ci);
    }
  }

  lemma EmptyContents(key: bytes)
    ensures Find(Contents(Tip([])), key) == None
  {
  }

  lemma LeafLookup(t: Shape, h: nat, lo: Bound, hi: Bound, key: bytes)
    requires t.Tip? && WellFormed(t, h, lo, hi)
    ensures var r := Rank(t.kvs, key);
            Find(Contents(t), key) == if FoundAt(t.kvs, r, key) then Some(t.kvs[r].value) else None
  {
    LeafOps(t.kvs, KV(key, []));
  }

  lemma BranchLookup(t: Shape, h: nat, lo: Bound, hi: Bound, key: bytes)
    requires t.Branch? && WellFormed(t, h, lo, hi) && Within(key, lo, hi)
    ensures h > 0 && ChildIndex(t.keys, key) < |t.kids|
    ensures Find(Contents(t), key) == Find(Contents(t.kids[ChildIndex(t.keys, key)]), key)
  {
    FindDescends(t.keys, t.kids, h, lo, hi, key);
    BranchContents(t);
  }

  lemma DenotedValue(pages: Pages, e: LeafEntry, kv: KV)
    requires Denotes(pages, e, kv)
    ensures EntryEncodable(e) && ValueOf(pages, e) == Some(kv.value)
  {
  }

  // ---- The tree object ----

  lemma PageCountBound(len: nat)
    ensures PageCount(len) <= len + 1
  {
  }

  class Tree {
    const store: Store
    var root: PageId
    ghost var shape: Shape
    ghost var height: nat

    ghost predicate Valid()
      reads this, store
    {
      && store.Valid()
      && RootRepr(store.pages, root, shape)
      && WellFormed(shape, height, Unbounded, Unbounded)
      && PagesFit(shape)
    }

    /** The map the tree stands for. */
    ghost function Map(): map<bytes, bytes>
      reads this
    {
      ToMap(Contents(shape))
    }

    constructor NewEmpty(store: Store)
      requires store.Valid()
      ensures Valid() && this.store == store && root == INVALID && Map() == map[]
    {
      this.store, root, shape, height := store, INVALID, Tip([]), 0;
    }

    /** Adds or replaces a key. If every split along the path fits, the new root stands for the
        updated map; if not, and only then, the new root leads to a page that cannot be read back.
        Not ok: an entry too large for a page is alone in its leaf, which the code fails to split.
        In no case is a page touched that existed before. */
    method Insert(key: bytes, value: bytes) returns (ok: bool)
      requires Valid() && |key| < 0x1_0000 && |value| <= INVALID
      requires store.numPages + PageCount(|value|) + 2 * height + 4 < INVALID
      modifies this, store
      ensures Extends(old(store.pages), store.pages) && store.Valid()
      ensures store.numPages <= old(store.numPages) + PageCount(|value|) + 2 * old(height) + 3 && height <= old(height) + 1
      ensures ok <==> KvSize(KV(key, value)) + 2 <= BODY_SIZE || old(root) == INVALID || !LandsAlone(old(shape), KV(key, value))
      ensures !ok ==> Valid() && root == old(root) && shape == old(shape)
      ensures InsertSafe(old(shape), KV(key, value)) ==>
                && ok && Valid() && shape == InsertRoot(old(shape), KV(key, value))
                && Contents(shape) == Put(old(Contents(shape)), KV(key, value))
                && Map() == old(Map())[key := value]
      ensures ok && !InsertSafe(old(shape), KV(key, value)) ==> Unreadable(store.pages, root)
    {
      hide *;
      ghost var kv, t, h, p0 := KV(key, value), shape, height, store.pages;
      ValidTree(this);
      InsertedContents(t, kv, h);
      OnlyFittingIsSafe(t, kv);
      var e := MakeLeafEntry(store, key, value);
      PageCountBound(|value|);
      NewEntryDenotes(store.pages, e, kv);
      ghost var p1 := store.pages;
      RootStable(p0, p1, root, t);
      if root == INVALID {
        root := WriteFirst(store, e, t, kv);
      } else {
        RootIsPage(p1, root, t);
        InsertableRoot(p1, root, e, t, kv, h);
        var newId, split;
        newId, split, ok := InsertAt(store, root, e, t, kv, h, Unbounded, Unbounded);
        ghost var p2 := store.pages;
        ExtendsTransitive(p0, p1, p2);
        if !ok {
          RootStable(p0, p2, root, t);
          ValidTree(this);
          return false;
        }
        p1 := p2;
        root := WriteTop(store, t, kv, h, newId, split);
      }
      ExtendsTransitive(p0, p1, store.pages);
      shape, height := InsertRoot(t, kv), if ShapeOps.Insert(t, kv).Two? then h + 1 else h;
      ValidTree(this);
      return true;
    }

    /** Removes a key if present; nothing is merged, no existing page is touched. */
    method Delete(key: bytes)
      requires Valid() && store.numPages + height + 1 < INVALID
      modifies this, store
      ensures Extends(old(store.pages), store.pages) && Valid() && height == old(height)
      ensures store.numPages <= old(store.numPages) + height + 1 && shape == ShapeOps.Delete(old(shape), key)
      ensures Contents(shape) == Remove(old(Contents(shape)), key)
      ensures Map() == old(Map()) - {key}
    {
      DeleteCorrect(shape, key, height, Unbounded, Unbounded);
      DeleteKeepsFit(shape, key);
      RemoveRefinesRemoval(Contents(shape), key);
      hide WellFormed, PagesFit, Contents, Remove, ToMap, ShapeOps.Delete;
      if root == INVALID {
        ExtendsSelf(store.pages);
        EmptyDelete(key);
        return;
      }
      root := DeleteAt(store, root, key, shape, height, Unbounded, Unbounded);
      shape := ShapeOps.Delete(shape, key);
    }

    method Get(key: bytes) returns (r: Result<Option<bytes>>)
      requires Valid()
      ensures r == Ok(if key in Map() then Some(Map()[key]) else None)
    {
      r := GetFrom(store, root, key, shape, height);
      FindIsLookup(Contents(shape), key);
    }
  }

  lemma ValidTree(tree: Tree)
    ensures tree.Valid() <==>
              && tree.store.Valid() && RootRepr(tree.store.pages, tree.root, tree.shape)
              && WellFormed(tree.shape, tree.height, Unbounded, Unbounded) && PagesFit(tree.shape)
    ensures tree.Map() == ToMap(Contents(tree.shape))
  {
  }

  lemma RootIsPage(pages: Pages, root: PageId, t: Shape)
    requires RootRepr(pages, root, t)
    ensures if root == INVALID then t == Tip([]) else Repr(pages, root, t)
  {
  }

  lemma InsertableRoot(pages: Pages, root: PageId, e: LeafEntry, t: Shape, kv: KV, h: nat)
    requires Repr(pages, root, t) && WellFormed(t, h, Unbounded, Unbounded) && PagesFit(t)
    requires Denotes(pages, e, kv)
    ensures Insertable(pages, root, e, t, kv, h, Unbounded, Unbounded)
  {
  }

  /** The first insertion into an empty tree writes one leaf, whatever its size. */
  method WriteFirst(store: Store, e: LeafEntry, ghost t: Shape, ghost kv: KV) returns (root: PageId)
    requires store.Valid() && store.numPages < INVALID && RootRepr(store.pages, INVALID, t)
    requires Denotes(store.pages, e, kv)
    modifies store
    ensures store.Valid() && Extends(old(store.pages), store.pages) && store.numPages == old(store.numPages) + 1
    ensures if KvSize(kv) + 2 <= BODY_SIZE then InsertSafe(t, kv) && RootRepr(store.pages, root, InsertRoot(t, kv))
            else Unreadable(store.pages, root)
  {
    hide PageOf, NodeBytes, Denotes, KvSize, InsertSafe, InsertRoot, Insert, Repr, Unreadable;
    root := store.WriteNode(Leaf([e]));
    if KvSize(kv) + 2 <= BODY_SIZE {
      FirstLeaf(old(store.pages), store.pages, Leaf([e]), e, kv, root);
    } else {
      FirstLeafOversized(old(store.pages), store.pages, Leaf([e]), e, kv, root);
    }
  }

  lemma FirstLeafOversized(before: Pages, after: Pages, n: Node, e: LeafEntry, kv: KV, id: PageId)
    requires n == Leaf([e]) && Denotes(before, e, kv) && KvSize(kv) + 2 > BODY_SIZE
    requires Extends(before, after) && id in after && after[id] == PageOf(n)
    ensures Unreadable(after, id)
  {
    hide PageOf, Unreadable, EncodeEntries;
    EntryWithin([e], 0);
    WrittenUnreadable(before, after, id, n);
  }

  /** The last step of an insertion: a split root gets a new branch on top. */
  method WriteTop(store: Store, ghost t: Shape, ghost kv: KV, ghost h: nat, newId: PageId, split: Option<SplitResult>)
    returns (root: PageId)
    requires store.Valid() && store.numPages < INVALID
    requires WellFormed(t, h, Unbounded, Unbounded) && PagesFit(t)
    requires Inserted(store.pages, newId, split, t, kv)
    requires newId < store.numPages && (split.Some? ==> split.value.right < store.numPages)
    modifies store
    ensures store.Valid() && Extends(old(store.pages), store.pages) && store.numPages <= old(store.numPages) + 1
    ensures KvSize(kv) + 2 <= BODY_SIZE && InsertSafe(t, kv) ==> RootRepr(store.pages, root, InsertRoot(t, kv))
    ensures !(KvSize(kv) + 2 <= BODY_SIZE && InsertSafe(t, kv)) ==> Unreadable(store.pages, root)
  {
    hide PageOf, NodeBytes, WellFormed, PagesFit, Inserted, KvSize, InsertSafe, InsertRoot, RootRepr, Unreadable;
    if split.Some? {
      var n := Internal([split.value.sep], [newId, split.value.right]);
      root := store.WriteNode(n);
      if KvSize(kv) + 2 <= BODY_SIZE {
        RootWritten(old(store.pages), store.pages, n, t, kv, h, newId, split, root);
      } else {
        BrokenIs(old(store.pages), newId, split, t, kv);
        RootBroken(old(store.pages), store.pages, n, newId, split, root);
      }
    } else {
      root := newId;
      if KvSize(kv) + 2 <= BODY_SIZE {
        RootKept(store.pages, t, kv, newId, split);
      } else {
        BrokenIs(store.pages, newId, split, t, kv);
        BrokenRoot(store.pages, newId, split);
      }
    }
  }

  lemma RootBroken(before: Pages, after: Pages, n: Node, newId: PageId, split: Option<SplitResult>, id: PageId)
    requires Broken(before, newId, split) && split.Some? && newId < id < INVALID && split.value.right < id
    requires n == Internal([split.value.sep], [newId, split.value.right])
    requires Extends(before, after) && id in after && after[id] == PageOf(n)
    ensures Unreadable(after, id)
  {
    hide PageOf, Unreadable;
    assert n.children[0] == newId && n.children[1] == split.value.right;
    WrittenUnreadable(before, after, id, n);
  }

  lemma BrokenRoot(pages: Pages, id: PageId, split: Option<SplitResult>)
    requires Broken(pages, id, split) && split.None?
    ensures Unreadable(pages, id)
  {
    hide Unreadable;
  }

  lemma OnlyFittingIsSafe(t: Shape, kv: KV)
    ensures InsertSafe(t, kv) ==> KvSize(kv) + 2 <= BODY_SIZE
  {
    if KvSize(kv) + 2 > BODY_SIZE {
      OversizedNeverFits(t, kv);
    }
  }

  lemma EmptyDelete(key: bytes)
    ensures ShapeOps.Delete(Tip([]), key) == Tip([])
  {
  }

  lemma InsertedContents(t: Shape, kv: KV, h: nat)
    requires WellFormed(t, h, Unbounded, Unbounded) && PagesFit(t)
    ensures WellFormed(InsertRoot(t, kv), if Insert(t, kv).Two? then h + 1 else h, Unbounded, Unbounded)
    ensures Contents(InsertRoot(t, kv)) == Put(Contents(t), kv)
    ensures ToMap(Contents(InsertRoot(t, kv))) == ToMap(Contents(t))[kv.key := kv.value]
    ensures InsertSafe(t, kv) ==> PagesFit(InsertRoot(t, kv))
  {
    assert InsertSafe(t, kv) ==> InsertFits(t, kv);
    InsertCorrect(t, kv, h, Unbounded, Unbounded);
    PutRefinesUpdate(Contents(t), kv);
    if InsertSafe(t, kv) {
      InsertKeepsFit(t, kv, h, Unbounded, Unbounded);
    }
    hide *;
    RootOfGrown(t, kv, h);
  }

  lemma RootOfGrown(t: Shape, kv: KV, h: nat)
    requires GrownWellFormed(Insert(t, kv), h, Unbounded, Unbounded)
    ensures WellFormed(InsertRoot(t, kv), if Insert(t, kv).Two? then h + 1 else h, Unbounded, Unbounded)
    ensures Contents(InsertRoot(t, kv)) == GrownContents(Insert(t, kv))
    ensures InsertSafe(t, kv) && GrownFits(Insert(t, kv)) ==> PagesFit(InsertRoot(t, kv))
  {
    hide Insert, InsertFits, PageSize;
    match Insert(t, kv)
    case One(_) =>
    case Two(l, sep, r) =>
      NewRootOrdered(l, sep, r, h);
      FlatPair(l, r);
      BranchContents(Branch([sep], [l, r]));
  }

  lemma FlatPair(l: Shape, r: Shape)
    ensures Flat([l, r]) == Contents(l) + Contents(r)
  {
    FlatOne(l);
    FlatOne(r);
    FlatAppend([l], [r]);
    assert [l, r] == [l] + [r];
  }

  lemma NewRootOrdered(l: Shape, sep: bytes, r: Shape, h: nat)
    requires WellFormed(l, h, Unbounded, Key(sep)) && WellFormed(r, h, Key(sep), Unbounded)
    ensures WellFormed(Branch([sep], [l, r]), h + 1, Unbounded, Unbounded)
  {
    var t := Branch([sep], [l, r]);
    forall i | 0 <= i < 2
      ensures WellFormed(t.kids[i], h, LoOf(t.keys, Unbounded, i), HiOf(t.keys, Unbounded, i))
    {
      assert i == 0 || i == 1;
    }
  }

  lemma NewEntryDenotes(pages: Pages, e: LeafEntry, kv: KV)
    requires e.key == kv.key && ValueOf(pages, e) == Some(kv.value) && |kv.key| < 0x1_0000
    requires e.Spilled? <==> |kv.value| > 512
    requires e.Spilled? ==> e.head <= INVALID && e.size <= INVALID
    ensures Denotes(pages, e, kv)
  {
  }

  lemma PutFirst(kv: KV)
    ensures PutAt([], kv) == [kv] && KvsSize([kv]) == KvSize(kv)
  {
    hide Rank, EndRank, KvSize;
    assert KvsSize([kv]) == KvSize(kv) + KvsSize([]);
  }

  lemma FirstLeaf(before: Pages, after: Pages, n: Node, e: LeafEntry, kv: KV, id: PageId)
    requires n == Leaf([e]) && Denotes(before, e, kv) && KvSize(kv) + 2 <= BODY_SIZE && id < INVALID
    requires Extends(before, after) && id in after && after[id] == PageOf(n)
    ensures InsertSafe(Tip([]), kv) && InsertRoot(Tip([]), kv) == Tip([kv]) && Insert(Tip([]), kv).One?
    ensures RootRepr(after, id, Tip([kv]))
  {
    hide Denotes, NodeBytes, PutAt, KvSize;
    PutFirst(kv);
    assert DenotesAll(before, [e], [kv]);
    WrittenNode(before, after, id, n, Tip([kv]));
  }

  lemma RootWritten(before: Pages, after: Pages, n: Node, t: Shape, kv: KV, h: nat, newId: PageId,
                    split: Option<SplitResult>, id: PageId)
    requires WellFormed(t, h, Unbounded, Unbounded) && PagesFit(t) && KvSize(kv) + 2 <= BODY_SIZE
    requires Inserted(before, newId, split, t, kv) && split.Some? && newId < id < INVALID && split.value.right < id
    requires n == Internal([split.value.sep], [newId, split.value.right])
    requires Extends(before, after) && id in after && after[id] == PageOf(n)
    ensures Insert(t, kv).Two?
    ensures InsertSafe(t, kv) ==> RootRepr(after, id, InsertRoot(t, kv))
    ensures !InsertSafe(t, kv) ==> Unreadable(after, id)
  {
    hide *;
    InsertKeysShort(t, kv, h, Unbounded, Unbounded);
    InsertedIs(before, newId, split, t, kv);
    RootSplit(t, kv, split);
    var g := Insert(t, kv);
    if InsertFits(t, kv) {
      RootOnTop(before, after, n, g.left, g.sep, g.right, newId, split.value.right, id);
    } else {
      RootOverUnreadable(before, after, n, newId, split, id);
    }
  }

  lemma RootSplit(t: Shape, kv: KV, split: Option<SplitResult>)
    requires SameCut(split, Insert(t, kv)) && split.Some? && KeysShort(Insert(t, kv))
    ensures Insert(t, kv).Two? && split.value.sep == Insert(t, kv).sep && |split.value.sep| <= BODY_SIZE
    ensures var g := Insert(t, kv); InsertRoot(t, kv) == Branch([g.sep], [g.left, g.right])
    ensures InsertSafe(t, kv) <==> InsertFits(t, kv) && Small(InsertRoot(t, kv))
    ensures forall pages, id :: GrownRepr(pages, id, split, Insert(t, kv)) ==>
              Repr(pages, id, Insert(t, kv).left) && Repr(pages, split.value.right, Insert(t, kv).right)
  {
    hide Insert, InsertFits, Repr, PageSize;
  }

  lemma RootOutline(n: Node, sep: bytes, a: PageId, b: PageId)
    requires n == Internal([sep], [a, b]) && |sep| <= BODY_SIZE && a <= INVALID && b <= INVALID
    ensures Shaped(n) && Encodable(n)
  {
  }

  lemma RootOnTop(before: Pages, after: Pages, n: Node, l: Shape, sep: bytes, r: Shape, a: PageId, b: PageId,
                  id: PageId)
    requires n == Internal([sep], [a, b]) && |sep| <= BODY_SIZE && a < id < INVALID && b < id
    requires Repr(before, a, l) && Repr(before, b, r) && Extends(before, after) && id in after
    requires Shaped(n) ==> after[id] == PageOf(n)
    ensures if Small(Branch([sep], [l, r])) then RootRepr(after, id, Branch([sep], [l, r])) else Unreadable(after, id)
  {
    hide NodeBytes, PageOf, Repr, Unreadable, PageSize, Encodable, Extends;
    var root := Branch([sep], [l, r]);
    RootOutline(n, sep, a, b);
    assert NodeRepr(before, n, root, id) && Balanced(root) && Loadable(root);
    NodeSizeIs(before, n, root, id);
    if Small(root) {
      WrittenNode(before, after, id, n, root);
    } else {
      WrittenUnreadable(before, after, id, n);
    }
  }

  lemma RootOverUnreadable(before: Pages, after: Pages, n: Node, newId: PageId, split: Option<SplitResult>, id: PageId)
    requires GrownUnreadable(before, newId, split) && split.Some? && newId < id < INVALID && split.value.right < id
    requires n == Internal([split.value.sep], [newId, split.value.right]) && |split.value.sep| <= BODY_SIZE
    requires Extends(before, after) && id in after && (Shaped(n) ==> after[id] == PageOf(n))
    ensures Unreadable(after, id)
  {
    hide NodeBytes, PageOf, Unreadable, Encodable, Extends;
    RootOutline(n, split.value.sep, newId, split.value.right);
    var bad := if Unreadable(before, newId) then 0 else 1;
    assert n.children[bad] < id && Unreadable(before, n.children[bad]);
    WrittenUnreadable(before, after, id, n);
  }

  lemma RootKept(pages: Pages, t: Shape, kv: KV, id: PageId, split: Option<SplitResult>)
    requires Inserted(pages, id, split, t, kv) && split == None && id < INVALID && KvSize(kv) + 2 <= BODY_SIZE
    ensures Insert(t, kv).One?
    ensures InsertSafe(t, kv) ==> RootRepr(pages, id, InsertRoot(t, kv))
    ensures !InsertSafe(t, kv) ==> Unreadable(pages, id)
  {
    InsertedIs(pages, id, split, t, kv);
    hide Inserted, Insert, Repr, Unreadable, PageSize;
    if InsertFits(t, kv) {
      FitsMeansSmall(t, kv);
    }
  }

  lemma FitsMeansSmall(t: Shape, kv: KV)
    requires InsertFits(t, kv) && Insert(t, kv).One?
    ensures Small(InsertRoot(t, kv))
  {
    hide PageSize, MaybeSplit;
  }
}
