/** Which insertions keep every page within its body, and what the paged insertion needs to know about sizes. */
module Fitting {
  import opened Bytes
  import opened Seqs
  import opened KVLists
  import opened Shapes
  import opened ShapeOps
  import TreePages
  import Nodes

  predicate GrownSmall(g: Grown) {
    match g
    case One(t) => Small(t)
    case Two(l, _, r) => Small(l) && Small(r)
  }

  /** Along the insertion path, every node that overflows splits into halves that fit. */
  predicate InsertFits(t: Shape, kv: KV) {
    match t
    case Tip(kvs) => GrownSmall(MaybeSplit(Tip(PutAt(kvs, kv))))
    case Branch(keys, kids) =>
      var ci := ChildIndex(keys, kv.key);
      ci < |kids| && InsertFits(kids[ci], kv) && GrownSmall(MaybeSplit(Replace(keys, kids, ci, Insert(kids[ci], kv))))
  }

  /** The new root: a split root gets a branch with two children on top. */
  function InsertRoot(t: Shape, kv: KV): Shape {
    match Insert(t, kv)
    case One(t') => t'
    case Two(l, sep, r) => Branch([sep], [l, r])
  }

  predicate InsertSafe(t: Shape, kv: KV) {
    InsertFits(t, kv) && Small(InsertRoot(t, kv))
  }

  /** The leaf that the insertion rewrites holds nothing but the new pair. */
  predicate LandsAlone(t: Shape, kv: KV) {
    match t
    case Tip(kvs) => |PutAt(kvs, kv)| == 1
    case Branch(keys, kids) =>
      var ci := ChildIndex(keys, kv.key);
      ci < |kids| && LandsAlone(kids[ci], kv)
  }

  // ---- Facts the paged insertion needs ----

  /** A pair that does not fit a page cannot be inserted well. */
  lemma {:induction false} OversizedNeverFits(t: Shape, kv: KV)
    requires KvSize(kv) + 2 > Nodes.BODY_SIZE
    ensures !InsertFits(t, kv)
    decreases t
  {
    hide KvSize, PutAt;
    match t
    case Tip(kvs) =>
      var s := PutAt(kvs, kv);
      var r := PutHolds(kvs, kv);
      KvsSizeAt(s, r);
      KvsSizeAt(s[..|s| / 2], r);
      if r >= |s| / 2 {
        KvsSizeAt(s[|s| / 2..], r - |s| / 2);
      }
    case Branch(keys, kids) =>
      var ci := ChildIndex(keys, kv.key);
      if ci < |kids| {
        OversizedNeverFits(kids[ci], kv);
      }
  }

  lemma PutHolds(kvs: seq<KV>, kv: KV) returns (r: nat)
    ensures r == Rank(kvs, kv.key) && r < |PutAt(kvs, kv)| && PutAt(kvs, kv)[r] == kv
  {
    r := Rank(kvs, kv.key);
  }

  lemma {:induction false} KvsSizeAt(kvs: seq<KV>, i: nat)
    ensures i < |kvs| ==> KvsSize(kvs) >= KvSize(kvs[i])
  {
    hide KvSize;
    if 0 < i < |kvs| {
      KvsSizeAt(kvs[1..], i - 1);
    }
  }

  lemma {:induction false} KvsSizeAppend(a: seq<KV>, b: seq<KV>)
    ensures KvsSize(a + b) == KvsSize(a) + KvsSize(b)
  {
    AppendTail(a, b);
    if a != [] {
      KvsSizeAppend(a[1..], b);
    }
  }

  lemma {:induction false} KvsSizeBounds(kvs: seq<KV>)
    ensures KvsSize(kvs) >= 7 * |kvs|
    ensures forall i :: 0 <= i < |kvs| ==> |kvs[i].key| + 7 <= KvsSize(kvs)
  {
    if kvs != [] {
      KvsSizeBounds(kvs[1..]);
      forall i | 0 <= i < |kvs|
        ensures |kvs[i].key| + 7 <= KvsSize(kvs)
      {
        assert i > 0 ==> kvs[i] == kvs[1..][i - 1];
      }
    }
  }

  lemma {:induction false} KeysSizeBounds(keys: seq<bytes>)
    ensures KeysSize(keys) >= 10 * |keys|
    ensures forall i :: 0 <= i < |keys| ==> |keys[i]| + 10 <= KeysSize(keys)
  {
    if keys != [] {
      KeysSizeBounds(keys[1..]);
      forall i | 0 <= i < |keys|
        ensures |keys[i]| + 10 <= KeysSize(keys)
      {
        assert i > 0 ==> keys[i] == keys[1..][i - 1];
      }
    }
  }

  /** The rewritten leaf can be written out, and can be split if it has to be. */
  lemma GrownLeafLoads(kvs: seq<KV>, kv: KV)
    requires Small(Tip(kvs)) && KvSize(kv) + 2 <= Nodes.BODY_SIZE
    ensures var t := Tip(PutAt(kvs, kv));
            TreePages.Loadable(t) && (!Small(t) ==> Splittable(t))
            && forall i :: 0 <= i < |t.kvs| ==> |t.kvs[i].key| <= Nodes.BODY_SIZE
  {
    KvsSizeBounds(kvs);
    PutMembers(kvs, kv);
    OneKvSize(kv);
    hide KvsSize, PutAt;
  }

  lemma PutMembers(kvs: seq<KV>, kv: KV)
    ensures var s := PutAt(kvs, kv);
            && 1 <= |s| <= |kvs| + 1 && (|s| == 1 ==> s == [kv])
            && forall i :: 0 <= i < |s| ==> s[i] == kv || s[i] in kvs
  {
    hide Rank;
  }

  lemma OneKvSize(kv: KV)
    ensures KvsSize([kv]) == KvSize(kv) && |kv.key| <= KvSize(kv)
  {
    assert KvsSize([kv]) == KvSize(kv) + KvsSize([]);
  }

  predicate KeysShort(g: Grown) {
    g.Two? ==> |g.sep| <= Nodes.BODY_SIZE
  }

  lemma GrownBranchLoads(keys: seq<bytes>, kids: seq<Shape>, ci: nat, g: Grown)
    requires Small(Branch(keys, kids)) && |kids| == |keys| + 1 && ci < |kids| && KeysShort(g)
    ensures var t := Replace(keys, kids, ci, g);
            TreePages.Loadable(t) && (!Small(t) ==> Splittable(t))
            && forall i :: 0 <= i < |t.keys| ==> |t.keys[i]| <= Nodes.BODY_SIZE
  {
    KeysSizeBounds(keys);
  }

  lemma {:induction false} InsertKeysShort(t: Shape, kv: KV, h: nat, lo: Bound, hi: Bound)
    requires WellFormed(t, h, lo, hi) && PagesFit(t) && KvSize(kv) + 2 <= Nodes.BODY_SIZE
    ensures KeysShort(Insert(t, kv))
    decreases h
  {
    match t
    case Tip(kvs) =>
      GrownLeafLoads(kvs, kv);
      hide PageSize, PutAt;
    case Branch(keys, kids) =>
      var ci := ChildIndex(keys, kv.key);
      InsertKeysShort(kids[ci], kv, h - 1, LoOf(keys, lo, ci), HiOf(keys, hi, ci));
      GrownBranchLoads(keys, kids, ci, Insert(kids[ci], kv));
      hide PageSize, Replace;
  }

  lemma SplitKeepsKids(t: Shape)
    requires TreePages.Balanced(t) && forall i :: t.Branch? && 0 <= i < |t.kids| ==> PagesFit(t.kids[i])
    requires GrownSmall(MaybeSplit(t))
    ensures GrownFits(MaybeSplit(t))
  {
    hide PageSize;
  }

  /** If the halves fit along the path, the whole new tree fits. */
  lemma {:induction false} InsertKeepsFit(t: Shape, kv: KV, h: nat, lo: Bound, hi: Bound)
    requires WellFormed(t, h, lo, hi) && PagesFit(t) && InsertFits(t, kv)
    ensures GrownFits(Insert(t, kv))
    decreases h
  {
    hide PageSize;
    match t
    case Tip(kvs) =>
      SplitKeepsKids(Tip(PutAt(kvs, kv)));
    case Branch(keys, kids) =>
      var ci := ChildIndex(keys, kv.key);
      InsertKeepsFit(kids[ci], kv, h - 1, LoOf(keys, lo, ci), HiOf(keys, hi, ci));
      ReplaceKeepsKids(keys, kids, ci, Insert(kids[ci], kv));
      SplitKeepsKids(Replace(keys, kids, ci, Insert(kids[ci], kv)));
  }

  lemma ReplaceKeepsKids(keys: seq<bytes>, kids: seq<Shape>, ci: nat, g: Grown)
    requires |kids| == |keys| + 1 && ci < |kids| && GrownFits(g)
    requires forall i :: 0 <= i < |kids| ==> PagesFit(kids[i])
    ensures var t := Replace(keys, kids, ci, g);
            TreePages.Balanced(t) && forall i :: 0 <= i < |t.kids| ==> PagesFit(t.kids[i])
  {
    hide PagesFit;
    var t := Replace(keys, kids, ci, g);
    forall i | 0 <= i < |t.kids|
      ensures PagesFit(t.kids[i])
    {
      if g.One? {
        assert i != ci ==> t.kids[i] == kids[i];
      } else if i < ci {
        assert t.kids[i] == kids[i];
      } else if i > ci + 1 {
        assert t.kids[i] == kids[i - 1];
      }
    }
  }

  lemma RemovedSize(kvs: seq<KV>, k: bytes)
    ensures KvsSize(RemoveAt(kvs, k)) <= KvsSize(kvs)
  {
    hide KvsSize, Rank, KvSize;
    var r := Rank(kvs, k);
    if FoundAt(kvs, r, k) {
      Parts(kvs, r, r + 1);
      KvsSizeAppend(kvs[..r] + kvs[r..r + 1], kvs[r + 1..]);
      KvsSizeAppend(kvs[..r], kvs[r..r + 1]);
      KvsSizeAppend(kvs[..r], kvs[r + 1..]);
    }
  }

  /** Deletion only shrinks pages. */
  lemma {:induction false} DeleteKeepsFit(t: Shape, k: bytes)
    requires PagesFit(t)
    ensures PagesFit(Delete(t, k))
  {
    hide KeysSize, KvsSize, RemoveAt;
    match t
    case Tip(kvs) => RemovedSize(kvs, k);
    case Branch(keys, kids) =>
      var ci := ChildIndex(keys, k);
      if ci < |kids| {
        DeleteKeepsFit(kids[ci], k);
        var t' := Delete(t, k);
        forall i | 0 <= i < |t'.kids|
          ensures PagesFit(t'.kids[i])
        {
          assert i != ci ==> t'.kids[i] == kids[i];
        }
      }
  }
}
