/** How pages represent shapes, and how that survives writing more pages. */
module TreePages {
  import opened Bytes
  import opened Wrappers
  import opened KVLists
  import opened Shapes
  import opened ShapeOps
  import opened Nodes
  import opened PageStore

  /** A leaf entry stands for a pair: the key, and the value inline or spelled by an overflow chain. */
  ghost predicate Denotes(pages: Pages, e: LeafEntry, kv: KV) {
    && e.key == kv.key && ValueOf(pages, e) == Some(kv.value)
    && (e.Spilled? <==> |kv.value| > MAX_INLINE)
    && EntryEncodable(e)
  }

  ghost predicate DenotesAll(pages: Pages, es: seq<LeafEntry>, kvs: seq<KV>) {
    |es| == |kvs| && forall i :: 0 <= i < |es| ==> Denotes(pages, es[i], kvs[i])
  }

  /** The decoded node `n` is the root of `t`, with all its children on pages below `limit`. */
  ghost predicate NodeRepr(pages: Pages, n: Node, t: Shape, limit: PageId)
    decreases t, 0
  {
    match t
    case Tip(kvs) => n.Leaf? && DenotesAll(pages, n.entries, kvs)
    case Branch(keys, kids) =>
      && n.Internal? && n.keys == keys && |n.children| == |kids|
      && forall i :: 0 <= i < |kids| ==> n.children[i] < limit && Repr(pages, n.children[i], kids[i])
  }

  /** Page `id` is the root of `t`; every child sits on a page allocated before its parent. */
  ghost predicate Repr(pages: Pages, id: PageId, t: Shape)
    decreases t, 1
  {
    id in pages && ParseNode(pages[id]).Ok? && NodeRepr(pages, ParseNode(pages[id]).value, t, id)
  }

  ghost predicate RootRepr(pages: Pages, root: PageId, t: Shape) {
    if root == INVALID then t == Tip([]) else root < INVALID && Repr(pages, root, t)
  }

  // ---- Copy-on-write ----

  lemma DenotesStable(a: Pages, b: Pages, e: LeafEntry, kv: KV)
    requires Extends(a, b) && Denotes(a, e, kv)
    ensures Denotes(b, e, kv)
  {
    if e.Spilled? {
      ChainStable(a, b, e.head);
    }
  }

  lemma {:induction false} NodeStable(a: Pages, b: Pages, n: Node, t: Shape, limit: PageId, limit': PageId)
    requires Extends(a, b) && NodeRepr(a, n, t, limit) && limit <= limit'
    ensures NodeRepr(b, n, t, limit')
    decreases t, 0
  {
    match t
    case Tip(kvs) =>
      forall i | 0 <= i < |kvs|
        ensures Denotes(b, n.entries[i], kvs[i])
      {
        DenotesStable(a, b, n.entries[i], kvs[i]);
      }
    case Branch(keys, kids) =>
      forall i | 0 <= i < |kids|
        ensures n.children[i] < limit' && Repr(b, n.children[i], kids[i])
      {
        ReprStable(a, b, n.children[i], kids[i]);
      }
  }

  /** A tree stays what it was under any further page writes. */
  lemma {:induction false} ReprStable(a: Pages, b: Pages, id: PageId, t: Shape)
    requires Extends(a, b) && Repr(a, id, t)
    ensures Repr(b, id, t)
    decreases t, 1
  {
    hide ParseNode;
    NodeStable(a, b, ParseNode(a[id]).value, t, id, id);
  }

  /** Copy-on-write immutability: whatever is written later, a root captured before still stands for
      the same tree, so that reading from it gives what it gave then. */
  lemma RootStable(a: Pages, b: Pages, root: PageId, t: Shape)
    requires Extends(a, b) && RootRepr(a, root, t)
    ensures RootRepr(b, root, t)
  {
    if root != INVALID {
      ReprStable(a, b, root, t);
    }
  }

  // ---- Sizes ----

  lemma EntrySizeIs(pages: Pages, e: LeafEntry, kv: KV)
    requires Denotes(pages, e, kv)
    ensures EntrySize(e) == KvSize(kv)
  {
  }

  lemma {:induction false} EntriesSizeIs(pages: Pages, es: seq<LeafEntry>, kvs: seq<KV>)
    requires DenotesAll(pages, es, kvs)
    ensures |EncodeEntries(es)| == KvsSize(kvs)
  {
    if es != [] {
      assert Denotes(pages, es[0], kvs[0]);
      EntrySizeIs(pages, es[0], kvs[0]);
      assert DenotesAll(pages, es[1..], kvs[1..]) by {
        forall i | 0 <= i < |es| - 1
          ensures Denotes(pages, es[1..][i], kvs[1..][i])
        {
          assert Denotes(pages, es[i + 1], kvs[i + 1]);
        }
      }
      EntriesSizeIs(pages, es[1..], kvs[1..]);
    }
  }

  lemma {:induction false} LinksSizeIs(keys: seq<bytes>, children: seq<PageId>)
    requires |keys| == |children|
    ensures |EncodeLinks(keys, children)| == KeysSize(keys)
  {
    if keys != [] {
      LinksSizeIs(keys[1..], children[1..]);
    }
  }

  predicate Balanced(t: Shape) {
    t.Branch? ==> |t.kids| == |t.keys| + 1
  }

  /** The fit test on the node is the fit test on the shape. */
  lemma NodeSizeIs(pages: Pages, n: Node, t: Shape, limit: PageId)
    requires NodeRepr(pages, n, t, limit) && Balanced(t)
    ensures Shaped(n) && |NodeBytes(n)| == PageSize(t)
    ensures Fits(n) <==> Small(t)
  {
    hide EncodeEntries, EncodeLinks, KvsSize, KeysSize;
    match t
    case Tip(kvs) => EntriesSizeIs(pages, n.entries, kvs);
    case Branch(keys, _) => LinksSizeIs(keys, n.children[1..]);
  }

  /** What makes every field of the root node's encoding representable. */
  ghost predicate Loadable(t: Shape) {
    match t
    case Tip(kvs) => |kvs| < 0x1_0000
    case Branch(keys, kids) =>
      |keys| < 0x1_0000 && |kids| == |keys| + 1 && forall i :: 0 <= i < |keys| ==> |keys[i]| < 0x1_0000
  }

  lemma NodeEncodable(pages: Pages, n: Node, t: Shape, limit: PageId)
    requires NodeRepr(pages, n, t, limit) && Loadable(t) && limit <= INVALID
    ensures Shaped(n) && Encodable(n)
  {
    match t
    case Tip(kvs) =>
      forall i | 0 <= i < |kvs|
        ensures EntryEncodable(n.entries[i])
      {
        assert Denotes(pages, n.entries[i], kvs[i]);
      }
    case Branch(keys, kids) =>
      forall i | 0 <= i < |n.children|
        ensures n.children[i] <= INVALID
      {
        assert n.children[i] < limit && Repr(pages, n.children[i], kids[i]);
      }
  }

  /** Writing a node that fits to a fresh page makes that page the root of its shape. */
  lemma WrittenNode(before: Pages, after: Pages, id: PageId, n: Node, t: Shape)
    requires NodeRepr(before, n, t, id) && Loadable(t) && Small(t) && id < INVALID
    requires Shaped(n) && Extends(before, after) && id in after && after[id] == PageOf(n)
    ensures Repr(after, id, t)
  {
    hide PageSize, NodeBytes, PageOf, ParseNode;
    NodeEncodable(before, n, t, id);
    NodeSizeIs(before, n, t, id) by { assert Balanced(t); }
    NodeRoundTrip(n);
    NodeStable(before, after, n, t, id, id);
  }

  // ---- Pages that cannot be read back ----

  /** Some page reachable from `id` does not decode. */
  ghost predicate Unreadable(pages: Pages, id: PageId)
    decreases id
  {
    id in pages &&
    match ParseNode(pages[id])
    case Err => true
    case Ok(n) => n.Internal? && exists i :: 0 <= i < |n.children| && n.children[i] < id && Unreadable(pages, n.children[i])
  }

  /** An unreadable page represents no tree whatsoever. */
  lemma {:induction false} UnreadableMeansNoTree(pages: Pages, id: PageId, t: Shape)
    requires Unreadable(pages, id)
    ensures !Repr(pages, id, t)
    decreases t
  {
    hide ParseNode;
    if Repr(pages, id, t) {
      var n := ParseNode(pages[id]).value;
      var i :| 0 <= i < |n.children| && n.children[i] < id && Unreadable(pages, n.children[i]);
      assert NodeRepr(pages, n, t, id);
      assert t.Branch? && Repr(pages, n.children[i], t.kids[i]);
      UnreadableMeansNoTree(pages, n.children[i], t.kids[i]);
    }
  }

  lemma {:induction false} UnreadableStable(a: Pages, b: Pages, id: PageId)
    requires Extends(a, b) && Unreadable(a, id)
    ensures Unreadable(b, id)
    decreases id
  {
    hide ParseNode;
    if ParseNode(a[id]).Ok? {
      var n := ParseNode(a[id]).value;
      var i :| 0 <= i < |n.children| && n.children[i] < id && Unreadable(a, n.children[i]);
      UnreadableStable(a, b, n.children[i]);
    }
  }

  /** A node too large for its page, or with an unreadable child, makes its page unreadable. */
  lemma WrittenUnreadable(before: Pages, after: Pages, id: PageId, n: Node)
    requires Shaped(n) && Encodable(n) && Extends(before, after) && id in after && after[id] == PageOf(n)
    requires !Fits(n) || (n.Internal? && exists i :: 0 <= i < |n.children| && n.children[i] < id && Unreadable(before, n.children[i]))
    ensures Unreadable(after, id)
  {
    NodeRoundTrip(n);
    hide PageOf, ParseNode, Fits;
    if ParseNode(after[id]).Ok? {
      var i :| 0 <= i < |n.children| && n.children[i] < id && Unreadable(before, n.children[i]);
      UnreadableStable(before, after, n.children[i]);
    }
  }
}
