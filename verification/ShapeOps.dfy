/** Insertion and deletion on shapes: the branches of btree.go and split.go, and what they do to the contents. */
module ShapeOps {
  import opened Bytes
  import opened Wrappers
  import opened Seqs
  import opened Sorting
  import opened KVLists
  import opened Shapes
  import Nodes

  // ---- Sizes ----

  function KvSize(kv: KV): nat {
    2 + |kv.key| + 1 + if |kv.value| > Nodes.MAX_INLINE then 16 else 4 + |kv.value|
  }

  function KvsSize(kvs: seq<KV>): nat {
    if kvs == [] then 0 else KvSize(kvs[0]) + KvsSize(kvs[1..])
  }

  function KeysSize(keys: seq<bytes>): nat {
    if keys == [] then 0 else 10 + |keys[0]| + KeysSize(keys[1..])
  }

  /** The body bytes of the page that holds the root node of `t`. */
  function PageSize(t: Shape): nat {
    match t
    case Tip(kvs) => 2 + KvsSize(kvs)
    case Branch(keys, _) => 10 + KeysSize(keys)
  }

  predicate Small(t: Shape) {
    PageSize(t) <= Nodes.BODY_SIZE
  }

  /** Every page of the tree is within its body size. */
  ghost predicate PagesFit(t: Shape) {
    Small(t) && (t.Branch? ==> forall i :: 0 <= i < |t.kids| ==> PagesFit(t.kids[i]))
  }

  /** What a parent needs to know about a rewritten child: one node, or two and their separator. */
  datatype Grown = One(t: Shape) | Two(left: Shape, sep: bytes, right: Shape)

  ghost predicate GrownWellFormed(g: Grown, h: nat, lo: Bound, hi: Bound) {
    match g
    case One(t) => WellFormed(t, h, lo, hi)
    case Two(l, sep, r) => WellFormed(l, h, lo, Key(sep)) && WellFormed(r, h, Key(sep), hi) && Inside(sep, lo, hi)
  }

  function GrownContents(g: Grown): seq<KV> {
    match g
    case One(t) => Contents(t)
    case Two(l, _, r) => Contents(l) + Contents(r)
  }

  ghost predicate GrownFits(g: Grown) {
    match g
    case One(t) => PagesFit(t)
    case Two(l, _, r) => PagesFit(l) && PagesFit(r)
  }

  // ---- Splitting ----

  predicate Splittable(t: Shape) {
    match t
    case Tip(kvs) => |kvs| >= 2
    case Branch(keys, kids) => |keys| >= 1 && |kids| == |keys| + 1
  }

  /** By count: a leaf's right half starts at its separator, a branch's middle separator moves up. */
  function SplitShape(t: Shape): Grown
    requires Splittable(t)
  {
    match t
    case Tip(kvs) =>
      var mid := |kvs| / 2;
      Two(Tip(kvs[..mid]), kvs[mid].key, Tip(kvs[mid..]))
    case Branch(keys, kids) =>
      var mid := |keys| / 2;
      Two(Branch(keys[..mid], kids[..mid + 1]), keys[mid], Branch(keys[mid + 1..], kids[mid + 1..]))
  }

  function MaybeSplit(t: Shape): Grown {
    if Small(t) || !Splittable(t) then One(t) else SplitShape(t)
  }

  lemma SplitTip(kvs: seq<KV>, lo: Bound, hi: Bound)
    requires WellFormed(Tip(kvs), 0, lo, hi) && |kvs| >= 2
    ensures GrownWellFormed(SplitShape(Tip(kvs)), 0, lo, hi)
  {
    var mid := |kvs| / 2;
    var sep := kvs[mid].key;
    assert Within(sep, lo, hi) && Within(kvs[0].key, lo, hi);
    if lo.Key? {
      BoundsTransitive(sep, kvs[0].key, lo.key);
      BoundsTransitive(kvs[0].key, lo.key, sep);
      LessOrder();
    }
    forall i | 0 <= i < mid
      ensures Within(kvs[..mid][i].key, lo, Key(sep))
    {
      assert Within(kvs[i].key, lo, hi);
    }
    forall i | 0 <= i < |kvs| - mid
      ensures Within(kvs[mid..][i].key, Key(sep), hi)
    {
      assert kvs[mid..][i] == kvs[mid + i] && Within(kvs[mid + i].key, lo, hi);
      LessTotal(sep, kvs[mid + i].key);
    }
  }

  lemma SplitSeparators(keys: seq<bytes>, lo: Bound, hi: Bound)
    requires Separators(keys, lo, hi) && |keys| >= 1
    ensures var mid := |keys| / 2;
            Separators(keys[..mid], lo, Key(keys[mid])) && Separators(keys[mid + 1..], Key(keys[mid]), hi)
  {
    var mid := |keys| / 2;
    var rk := keys[mid + 1..];
    AscendingSlice(keys, 0, mid);
    AscendingSlice(keys, mid + 1, |keys|);
    assert keys[mid + 1..|keys|] == rk && keys[0..mid] == keys[..mid];
    forall i | 0 <= i < |rk|
      ensures Inside(rk[i], Key(keys[mid]), hi)
    {
      assert rk[i] == keys[mid + 1 + i] && Inside(keys[mid + 1 + i], lo, hi);
    }
    assert forall i :: 0 <= i < mid ==> Inside(keys[i], lo, hi);
  }

  lemma LeftKid(keys: seq<bytes>, kids: seq<Shape>, h: nat, lo: Bound, hi: Bound, mid: nat, i: nat)
    requires h > 0 && WellFormed(Branch(keys, kids), h, lo, hi) && i <= mid < |keys|
    ensures WellFormed(kids[..mid + 1][i], h - 1, LoOf(keys[..mid], lo, i), HiOf(keys[..mid], Key(keys[mid]), i))
  {
    assert WellFormed(kids[i], h - 1, LoOf(keys, lo, i), HiOf(keys, hi, i));
    hide WellFormed;
  }

  lemma RightKid(keys: seq<bytes>, kids: seq<Shape>, h: nat, lo: Bound, hi: Bound, mid: nat, i: nat)
    requires h > 0 && WellFormed(Branch(keys, kids), h, lo, hi) && mid < |keys| && i < |keys| - mid
    ensures WellFormed(kids[mid + 1..][i], h - 1, LoOf(keys[mid + 1..], Key(keys[mid]), i), HiOf(keys[mid + 1..], hi, i))
  {
    var j := mid + 1 + i;
    assert WellFormed(kids[j], h - 1, LoOf(keys, lo, j), HiOf(keys, hi, j));
    hide WellFormed;
  }

  lemma SplitBranch(keys: seq<bytes>, kids: seq<Shape>, h: nat, lo: Bound, hi: Bound)
    requires h > 0 && WellFormed(Branch(keys, kids), h, lo, hi) && |keys| >= 1
    ensures GrownWellFormed(SplitShape(Branch(keys, kids)), h, lo, hi)
  {
    var mid := |keys| / 2;
    var lk, rk := keys[..mid], keys[mid + 1..];
    assert Inside(keys[mid], lo, hi);
    SplitSeparators(keys, lo, hi);
    hide Inside, Separators, LoOf, HiOf;
    forall i | 0 <= i < mid + 1
      ensures WellFormed(kids[..mid + 1][i], h - 1, LoOf(lk, lo, i), HiOf(lk, Key(keys[mid]), i))
    {
      LeftKid(keys, kids, h, lo, hi, mid, i);
    }
    forall i | 0 <= i < |rk| + 1
      ensures WellFormed(kids[mid + 1..][i], h - 1, LoOf(rk, Key(keys[mid]), i), HiOf(rk, hi, i))
    {
      RightKid(keys, kids, h, lo, hi, mid, i);
    }
  }

  lemma HeightOf(t: Shape, h: nat, lo: Bound, hi: Bound)
    requires WellFormed(t, h, lo, hi)
    ensures t.Tip? <==> h == 0
  {
  }

  lemma SplitContents(t: Shape)
    requires Splittable(t)
    ensures GrownContents(SplitShape(t)) == Contents(t)
  {
    hide Flat;
    if t.Tip? {
      Parts(t.kvs, |t.kvs| / 2, |t.kvs|);
    } else {
      FlatInTwo(t.kids, |t.keys| / 2 + 1);
    }
  }

  /** Splitting changes neither the order nor the contents. */
  lemma MaybeSplitKeeps(t: Shape, h: nat, lo: Bound, hi: Bound)
    requires WellFormed(t, h, lo, hi)
    ensures GrownWellFormed(MaybeSplit(t), h, lo, hi)
    ensures GrownContents(MaybeSplit(t)) == Contents(t)
  {
    HeightOf(t, h, lo, hi);
    hide PageSize, WellFormed, SplitShape, Contents;
    if !Small(t) && Splittable(t) {
      SplitContents(t);
      if t.Tip? {
        SplitTip(t.kvs, lo, hi);
      } else {
        SplitBranch(t.keys, t.kids, h, lo, hi);
      }
    }
  }

  lemma FlatInTwo(kids: seq<Shape>, n: nat)
    requires n <= |kids|
    ensures Flat(kids) == Flat(kids[..n]) + Flat(kids[n..])
  {
    FlatAppend(kids[..n], kids[n..]);
    Parts(kids, n, n);
  }

  // ---- Leaves ----

  /** How many leading keys are below `k`: where a leaf search stops. */
  function Rank(kvs: seq<KV>, k: bytes): (r: nat)
    ensures r <= |kvs|
    ensures forall i :: 0 <= i < r ==> Less(kvs[i].key, k)
    ensures r < |kvs| ==> !Less(kvs[r].key, k)
  {
    if kvs == [] || !Less(kvs[0].key, k) then 0
    else
      var r := Rank(kvs[1..], k);
      assert forall i :: 0 < i < r + 1 ==> kvs[i] == kvs[1..][i - 1];
      r + 1
  }

  predicate FoundAt(kvs: seq<KV>, r: nat, k: bytes) {
    r < |kvs| && kvs[r].key == k
  }

  function EndRank(kvs: seq<KV>, k: bytes): (e: nat)
    ensures Rank(kvs, k) <= e <= |kvs|
  {
    var r := Rank(kvs, k);
    if FoundAt(kvs, r, k) then r + 1 else r
  }

  function PutAt(kvs: seq<KV>, kv: KV): seq<KV> {
    var r := Rank(kvs, kv.key);
    kvs[..r] + [kv] + kvs[EndRank(kvs, kv.key)..]
  }

  function RemoveAt(kvs: seq<KV>, k: bytes): seq<KV> {
    var r := Rank(kvs, k);
    if FoundAt(kvs, r, k) then kvs[..r] + kvs[r + 1..] else kvs
  }

  lemma BehindRank(kvs: seq<KV>, k: bytes, i: nat)
    requires Sorted(kvs) && EndRank(kvs, k) <= i < |kvs|
    ensures Less(k, kvs[i].key)
  {
    var r := Rank(kvs, k);
    LessTotal(k, kvs[r].key);
    if r < i && Less(k, kvs[r].key) {
      LessTransitive(k, kvs[r].key, kvs[i].key);
    }
  }

  lemma AroundRank(kvs: seq<KV>, k: bytes)
    requires Sorted(kvs)
    ensures AllBelow(kvs[..Rank(kvs, k)], k) && AllAbove(kvs[EndRank(kvs, k)..], k)
  {
    var e := EndRank(kvs, k);
    var s := kvs[e..];
    forall i | 0 <= i < |s|
      ensures Less(k, s[i].key)
    {
      BehindRank(kvs, k, e + i);
    }
  }

  /** Positional insertion and removal in a sorted leaf do what Put and Remove say. */
  lemma LeafOps(kvs: seq<KV>, kv: KV)
    requires Sorted(kvs)
    ensures PutAt(kvs, kv) == Put(kvs, kv)
    ensures RemoveAt(kvs, kv.key) == Remove(kvs, kv.key)
    ensures var r := Rank(kvs, kv.key); Find(kvs, kv.key) == if FoundAt(kvs, r, kv.key) then Some(kvs[r].value) else None
  {
    var k := kv.key;
    var r, e := Rank(kvs, k), EndRank(kvs, k);
    AroundRank(kvs, k);
    Parts(kvs, r, e);
    hide Rank, Put, Remove, Find;
    OnlyTheMiddle(kvs[..r], kvs[r..e], kvs[e..], kv);
    OneOrNone(kvs[r..e], kv);
    Whole(kvs[..r]);
  }

  lemma OneOrNone(s: seq<KV>, kv: KV)
    requires |s| <= 1 && forall i :: 0 <= i < |s| ==> s[i].key == kv.key
    ensures Put(s, kv) == [kv] && Remove(s, kv.key) == []
    ensures Find(s, kv.key) == if s == [] then None else Some(s[0].value)
  {
    LessIrreflexive(kv.key);
    if s != [] {
      assert s[1..] == [];
    }
  }

  lemma FiltersAreEnds(s: seq<KV>, k: bytes)
    requires Sorted(s)
    ensures var r := Rank(s, k);
            KeysBelow(s, k) == s[..r] && KeysAbove(s, k) == s[EndRank(s, k)..]
  {
    AroundRank(s, k);
    AtRank(s, k);
    hide *;
    var r, e := Rank(s, k), EndRank(s, k);
    Parts(s, r, e);
    ThreeFiltered(s[..r], s[r..e], s[e..], k);
  }

  lemma AtRank(s: seq<KV>, k: bytes)
    ensures Rank(s, k) <= EndRank(s, k) <= |s|
    ensures AllEqual(s[Rank(s, k)..EndRank(s, k)], k)
  {
  }

  ghost predicate AllEqual(s: seq<KV>, k: bytes) {
    |s| <= 1 && forall i :: 0 <= i < |s| ==> s[i].key == k
  }

  lemma ThreeFiltered(a: seq<KV>, mid: seq<KV>, b: seq<KV>, k: bytes)
    requires AllBelow(a, k) && AllEqual(mid, k) && AllAbove(b, k)
    ensures KeysBelow(a + mid + b, k) == a && KeysAbove(a + mid + b, k) == b
  {
    FiltersBelow(a, k);
    FiltersAbove(b, k);
    OneFiltered(mid, k);
    hide *;
    FiltersAppend(a + mid, b, k);
    FiltersAppend(a, mid, k);
  }

  lemma OneFiltered(s: seq<KV>, k: bytes)
    requires AllEqual(s, k)
    ensures KeysBelow(s, k) == [] && KeysAbove(s, k) == []
  {
    LessIrreflexive(k);
    if s != [] {
      assert s[1..] == [];
    }
  }

  /** A sorted list stays sorted and in range under Put and Remove. */
  lemma PutKeepsOrder(s: seq<KV>, kv: KV, lo: Bound, hi: Bound)
    requires Sorted(s) && InRange(s, lo, hi) && Within(kv.key, lo, hi)
    ensures Sorted(Put(s, kv)) && InRange(Put(s, kv), lo, hi)
    ensures Sorted(Remove(s, kv.key)) && InRange(Remove(s, kv.key), lo, hi)
  {
    FiltersAreEnds(s, kv.key);
    AroundRank(s, kv.key);
    hide KeysBelow, KeysAbove, Rank;
    var a, b := KeysBelow(s, kv.key), KeysAbove(s, kv.key);
    SortedAround(a, kv, b);
    InRangeAround(a, kv, b, lo, hi);
  }

  lemma SortedAround(a: seq<KV>, kv: KV, b: seq<KV>)
    requires Sorted(a) && Sorted(b) && AllBelow(a, kv.key) && AllAbove(b, kv.key)
    ensures Sorted(a + [kv] + b) && Sorted(a + b)
  {
    forall i, j | 0 <= i < |a| && 0 <= j < |b|
      ensures Less(a[i].key, b[j].key)
    {
      LessTransitive(a[i].key, kv.key, b[j].key);
    }
  }

  lemma InRangeAround(a: seq<KV>, kv: KV, b: seq<KV>, lo: Bound, hi: Bound)
    requires InRange(a, lo, hi) && InRange(b, lo, hi) && Within(kv.key, lo, hi)
    ensures InRange(a + [kv] + b, lo, hi) && InRange(a + b, lo, hi)
  {
  }

  // ---- Insertion ----

  /** A branch whose child `ci` was rewritten, possibly into two. */
  function Replace(keys: seq<bytes>, kids: seq<Shape>, ci: nat, g: Grown): Shape
    requires ci <= |keys| && ci < |kids|
  {
    match g
    case One(c) => Branch(keys, kids[ci := c])
    case Two(l, sep, r) => Branch(keys[..ci] + [sep] + keys[ci..], kids[..ci] + [l, r] + kids[ci + 1..])
  }

  function Insert(t: Shape, kv: KV): Grown {
    match t
    case Tip(kvs) => MaybeSplit(Tip(PutAt(kvs, kv)))
    case Branch(keys, kids) =>
      var ci := ChildIndex(keys, kv.key);
      if ci >= |kids| then One(t) else MaybeSplit(Replace(keys, kids, ci, Insert(kids[ci], kv)))
  }

  lemma InsertSeparator(keys: seq<bytes>, lo: Bound, hi: Bound, ci: nat, sep: bytes)
    requires Separators(keys, lo, hi) && ci <= |keys|
    requires Inside(sep, LoOf(keys, lo, ci), HiOf(keys, hi, ci))
    ensures Separators(keys[..ci] + [sep] + keys[ci..], lo, hi)
  {
    var ks := keys[..ci] + [sep] + keys[ci..];
    forall i | 0 <= i < |keys|
      ensures i < ci ==> Less(keys[i], sep)
      ensures i >= ci ==> Less(sep, keys[i])
      ensures Inside(keys[i], lo, hi)
    {
      if i < ci - 1 { LessTransitive(keys[i], keys[ci - 1], sep); }
      if i > ci { LessTransitive(sep, keys[ci], keys[i]); }
    }
    assert Inside(sep, lo, hi) by {
      if ci > 0 && lo.Key? { LessTransitive(lo.key, keys[ci - 1], sep); }
      if ci < |keys| && hi.Key? { LessTransitive(sep, keys[ci], hi.key); }
    }
    forall i, j | 0 <= i < j < |ks|
      ensures Less(ks[i], ks[j])
    {
      if i < ci < j { LessTransitive(keys[i], sep, keys[j - 1]); }
    }
  }

  lemma ReplaceOne(keys: seq<bytes>, kids: seq<Shape>, h: nat, lo: Bound, hi: Bound, ci: nat, c: Shape)
    requires h > 0 && WellFormed(Branch(keys, kids), h, lo, hi) && ci < |kids|
    requires WellFormed(c, h - 1, LoOf(keys, lo, ci), HiOf(keys, hi, ci))
    ensures WellFormed(Branch(keys, kids[ci := c]), h, lo, hi)
  {
    forall i | 0 <= i < |kids|
      ensures WellFormed(kids[ci := c][i], h - 1, LoOf(keys, lo, i), HiOf(keys, hi, i))
    {
      assert i != ci ==> kids[ci := c][i] == kids[i];
    }
  }

  lemma ReplaceTwo(keys: seq<bytes>, kids: seq<Shape>, h: nat, lo: Bound, hi: Bound, ci: nat, l: Shape, sep: bytes,
                   r: Shape)
    requires h > 0 && WellFormed(Branch(keys, kids), h, lo, hi) && ci < |kids|
    requires GrownWellFormed(Two(l, sep, r), h - 1, LoOf(keys, lo, ci), HiOf(keys, hi, ci))
    ensures WellFormed(Replace(keys, kids, ci, Two(l, sep, r)), h, lo, hi)
  {
    var ks := keys[..ci] + [sep] + keys[ci..];
    var cs := kids[..ci] + [l, r] + kids[ci + 1..];
    InsertSeparator(keys, lo, hi, ci, sep);
    forall i | 0 <= i < |cs|
      ensures WellFormed(cs[i], h - 1, LoOf(ks, lo, i), HiOf(ks, hi, i))
    {
      if i < ci {
        assert WellFormed(kids[i], h - 1, LoOf(keys, lo, i), HiOf(keys, hi, i));
      } else if i > ci + 1 {
        assert WellFormed(kids[i - 1], h - 1, LoOf(keys, lo, i - 1), HiOf(keys, hi, i - 1));
      }
    }
  }

  lemma ReplaceContents(keys: seq<bytes>, kids: seq<Shape>, ci: nat, g: Grown)
    requires ci <= |keys| && ci < |kids|
    ensures Contents(Replace(keys, kids, ci, g)) == Flat(kids[..ci]) + GrownContents(g) + Flat(kids[ci + 1..])
  {
    hide Flat, Contents;
    var cs := match g case One(c) => [c] case Two(l, _, r) => [l, r];
    assert (match g case One(c) => kids[ci := c] case Two(l, _, r) => kids[..ci] + [l, r] + kids[ci + 1..])
           == kids[..ci] + cs + kids[ci + 1..];
    FlatAppend(kids[..ci] + cs, kids[ci + 1..]);
    FlatAppend(kids[..ci], cs);
    assert Flat(cs) == GrownContents(g) by {
      match g
      case One(c) => FlatOne(c);
      case Two(l, _, r) =>
        FlatOne(l);
        FlatOne(r);
        FlatAppend([l], [r]);
        assert [l, r] == [l] + [r];
    }
    BranchContents(Replace(keys, kids, ci, g));
  }

  lemma BranchContents(t: Shape)
    requires t.Branch?
    ensures Contents(t) == Flat(t.kids)
  {
  }

  /**
   * Insertion, at any height and through any number of splits: the tree (or the two trees and
   * their separator) is well formed at the same height, and its contents are Put of the old ones.
   */
  lemma {:induction false} InsertCorrect(t: Shape, kv: KV, h: nat, lo: Bound, hi: Bound)
    requires WellFormed(t, h, lo, hi) && Within(kv.key, lo, hi)
    ensures GrownWellFormed(Insert(t, kv), h, lo, hi)
    ensures GrownContents(Insert(t, kv)) == Put(Contents(t), kv)
    decreases h
  {
    hide *;
    HeightOf(t, h, lo, hi);
    match t
    case Tip(kvs) =>
      TipInserted(kvs, kv, h, lo, hi);
    case Branch(keys, kids) =>
      var ci := ChildIndex(keys, kv.key);
      ChildOf(keys, kids, h, lo, hi, kv);
      InsertCorrect(kids[ci], kv, h - 1, LoOf(keys, lo, ci), HiOf(keys, hi, ci));
      BranchInserted(keys, kids, h, lo, hi, kv, Insert(kids[ci], kv));
  }

  lemma TipInserted(kvs: seq<KV>, kv: KV, h: nat, lo: Bound, hi: Bound)
    requires WellFormed(Tip(kvs), h, lo, hi) && Within(kv.key, lo, hi)
    ensures GrownWellFormed(Insert(Tip(kvs), kv), h, lo, hi)
    ensures GrownContents(Insert(Tip(kvs), kv)) == Put(Contents(Tip(kvs)), kv)
  {
    hide MaybeSplit, GrownWellFormed, GrownContents, PutAt, Put, Sorted, InRange;
    LeafOps(kvs, kv);
    PutKeepsOrder(kvs, kv, lo, hi);
    MaybeSplitKeeps(Tip(PutAt(kvs, kv)), h, lo, hi);
  }

  lemma ChildOf(keys: seq<bytes>, kids: seq<Shape>, h: nat, lo: Bound, hi: Bound, kv: KV)
    requires h > 0 && WellFormed(Branch(keys, kids), h, lo, hi) && Within(kv.key, lo, hi)
    ensures var ci := ChildIndex(keys, kv.key);
            && ci <= |keys| && |kids| == |keys| + 1
            && WellFormed(kids[ci], h - 1, LoOf(keys, lo, ci), HiOf(keys, hi, ci))
            && Within(kv.key, LoOf(keys, lo, ci), HiOf(keys, hi, ci))
            && Insert(Branch(keys, kids), kv) == MaybeSplit(Replace(keys, kids, ci, Insert(kids[ci], kv)))
    ensures Contents(Branch(keys, kids)) == Flat(kids)
  {
    hide Within, LoOf, HiOf, MaybeSplit, Replace, Separators;
    Descend(keys, kids, h, lo, hi, kv.key);
  }

  lemma BranchKids(keys: seq<bytes>, kids: seq<Shape>, h: nat, lo: Bound, hi: Bound)
    requires h > 0 && WellFormed(Branch(keys, kids), h, lo, hi)
    ensures |kids| == |keys| + 1
  {
  }

  lemma BranchInserted(keys: seq<bytes>, kids: seq<Shape>, h: nat, lo: Bound, hi: Bound, kv: KV, g: Grown)
    requires h > 0 && WellFormed(Branch(keys, kids), h, lo, hi) && Within(kv.key, lo, hi)
    requires var ci := ChildIndex(keys, kv.key);
             GrownWellFormed(g, h - 1, LoOf(keys, lo, ci), HiOf(keys, hi, ci)) && GrownContents(g) == Put(Contents(kids[ci]), kv)
    ensures var t' := MaybeSplit(Replace(keys, kids, ChildIndex(keys, kv.key), g));
            GrownWellFormed(t', h, lo, hi) && GrownContents(t') == Put(Flat(kids), kv)
  {
    hide Put, Flat, Contents, WellFormed, Within, MaybeSplit, Separators;
    BranchKids(keys, kids, h, lo, hi);
    var ci := ChildIndex(keys, kv.key);
    Descend(keys, kids, h, lo, hi, kv.key);
    match g {
      case One(c) => ReplaceOne(keys, kids, h, lo, hi, ci, c);
      case Two(l, sep, r) => ReplaceTwo(keys, kids, h, lo, hi, ci, l, sep, r);
    }
    ReplaceContents(keys, kids, ci, g);
    OnlyTheMiddle(Flat(kids[..ci]), Contents(kids[ci]), Flat(kids[ci + 1..]), kv);
    MaybeSplitKeeps(Replace(keys, kids, ci, g), h, lo, hi);
  }

  // ---- Deletion ----

  /** No merging: the key's leaf loses the entry, and the path above is rewritten. */
  function Delete(t: Shape, k: bytes): Shape {
    match t
    case Tip(kvs) => Tip(RemoveAt(kvs, k))
    case Branch(keys, kids) =>
      var ci := ChildIndex(keys, k);
      if ci >= |kids| then t else Branch(keys, kids[ci := Delete(kids[ci], k)])
  }

  lemma {:induction false} DeleteCorrect(t: Shape, k: bytes, h: nat, lo: Bound, hi: Bound)
    requires WellFormed(t, h, lo, hi) && Within(k, lo, hi)
    ensures WellFormed(Delete(t, k), h, lo, hi)
    ensures Contents(Delete(t, k)) == Remove(Contents(t), k)
    decreases h
  {
    var kv := KV(k, []);
    match t
    case Tip(kvs) =>
      LeafOps(kvs, kv);
      PutKeepsOrder(kvs, kv, lo, hi);
    case Branch(keys, kids) =>
      var ci := ChildIndex(keys, k);
      Descend(keys, kids, h, lo, hi, k);
      DeleteCorrect(kids[ci], k, h - 1, LoOf(keys, lo, ci), HiOf(keys, hi, ci));
      hide Remove, Flat, Contents;
      ReplaceOne(keys, kids, h, lo, hi, ci, Delete(kids[ci], k));
      ReplaceContents(keys, kids, ci, One(Delete(kids[ci], k)));
      OnlyTheMiddle(Flat(kids[..ci]), Contents(kids[ci]), Flat(kids[ci + 1..]), kv);
      BranchContents(t);
  }
}
