/**
 * B+Trees as values: what a root page stands for. Insertion and deletion are given as functions
 * on shapes with the branches of the paged code; their effect on the contents is proved here.
 */
module Shapes {
  import opened Bytes
  import opened Seqs
  import opened Sorting
  import opened KVLists
  import opened Nodes

  datatype Shape = Tip(kvs: seq<KV>) | Branch(keys: seq<bytes>, kids: seq<Shape>)

  // ---- Structure ----

  /** Child `i` of a branch over [lo, hi) holds the keys of [LoOf, HiOf). */
  function LoOf(keys: seq<bytes>, lo: Bound, i: nat): Bound
    requires i <= |keys|
  {
    if i == 0 then lo else Key(keys[i - 1])
  }

  function HiOf(keys: seq<bytes>, hi: Bound, i: nat): Bound
    requires i <= |keys|
  {
    if i == |keys| then hi else Key(keys[i])
  }

  predicate Inside(k: bytes, lo: Bound, hi: Bound) {
    (lo.Key? ==> Less(lo.key, k)) && Below(k, hi)
  }

  ghost predicate Separators(keys: seq<bytes>, lo: Bound, hi: Bound) {
    Ascending(keys) && forall i :: 0 <= i < |keys| ==> Inside(keys[i], lo, hi)
  }

  /** Sorted leaves, separators that bound the children, and every leaf at depth `h`. */
  ghost predicate WellFormed(t: Shape, h: nat, lo: Bound, hi: Bound)
    decreases h
  {
    match t
    case Tip(kvs) => h == 0 && Sorted(kvs) && InRange(kvs, lo, hi)
    case Branch(keys, kids) =>
      && h > 0 && |kids| == |keys| + 1
      && Separators(keys, lo, hi)
      && forall i :: 0 <= i < |kids| ==> WellFormed(kids[i], h - 1, LoOf(keys, lo, i), HiOf(keys, hi, i))
  }

  function Contents(t: Shape): seq<KV> {
    match t
    case Tip(kvs) => kvs
    case Branch(_, kids) => Flat(kids)
  }

  function Flat(kids: seq<Shape>): seq<KV> {
    if kids == [] then [] else Contents(kids[0]) + Flat(kids[1..])
  }

  lemma {:induction false} FlatAppend(a: seq<Shape>, b: seq<Shape>)
    ensures Flat(a + b) == Flat(a) + Flat(b)
  {
    hide Contents;
    AppendTail(a, b);
    if a != [] {
      FlatAppend(a[1..], b);
      Assoc(Contents(a[0]), Flat(a[1..]), Flat(b));
    } else {
      Whole(Flat(b));
    }
  }

  lemma FlatOne(t: Shape)
    ensures Flat([t]) == Contents(t)
  {
    Whole(Contents(t));
  }

  lemma FlatTake(kids: seq<Shape>, n: nat)
    requires n < |kids|
    ensures Flat(kids[..n + 1]) == Flat(kids[..n]) + Contents(kids[n])
  {
    hide Contents, Flat;
    TakeNext(kids, n);
    FlatAppend(kids[..n], [kids[n]]);
    FlatOne(kids[n]);
  }

  lemma FlatSplit(kids: seq<Shape>, n: nat)
    requires n < |kids|
    ensures Flat(kids) == Flat(kids[..n]) + Contents(kids[n]) + Flat(kids[n + 1..])
  {
    hide Contents, Flat;
    assert kids == kids[..n + 1] + kids[n + 1..];
    FlatAppend(kids[..n + 1], kids[n + 1..]);
    FlatTake(kids, n);
  }

  // ---- The order of the contents ----

  lemma BoundsTransitive(k: bytes, a: bytes, b: bytes)
    ensures !Less(k, b) && !Less(b, a) ==> !Less(k, a)
    ensures Less(k, a) && !Less(b, a) ==> Less(k, b)
    ensures !Less(k, a) && Less(b, a) ==> Less(b, k)
  {
    LessOrder();
  }

  lemma SortedAppend(a: seq<KV>, b: seq<KV>, k: bytes)
    requires Sorted(a) && Sorted(b) && InRange(b, Key(k), Unbounded) && AllBelow(a, k)
    ensures Sorted(a + b)
  {
    forall i, j | 0 <= i < j < |a + b|
      ensures Less((a + b)[i].key, (a + b)[j].key)
    {
      if i < |a| <= j {
        assert Within(b[j - |a|].key, Key(k), Unbounded);
        BoundsTransitive(a[i].key, k, b[j - |a|].key);
      }
    }
  }

  lemma InRangeAppend(a: seq<KV>, b: seq<KV>, lo: Bound, hi: Bound)
    ensures InRange(a + b, lo, hi) <==> InRange(a, lo, hi) && InRange(b, lo, hi)
  {
    if InRange(a + b, lo, hi) {
      assert forall i :: 0 <= i < |a| ==> a[i] == (a + b)[i];
      assert forall i :: 0 <= i < |b| ==> b[i] == (a + b)[|a| + i];
    }
  }

  lemma InRangeWiden(s: seq<KV>, lo: Bound, hi: Bound, lo': Bound, hi': Bound)
    requires InRange(s, lo, hi)
    requires lo' == lo || (lo'.Key? ==> lo.Key? && !Less(lo.key, lo'.key))
    requires hi' == hi || (hi'.Key? ==> hi.Key? && !Less(hi'.key, hi.key))
    ensures InRange(s, lo', hi')
  {
    forall i | 0 <= i < |s|
      ensures Within(s[i].key, lo', hi')
    {
      if lo'.Key? && lo' != lo { BoundsTransitive(s[i].key, lo'.key, lo.key); }
      if hi'.Key? && hi' != hi { BoundsTransitive(s[i].key, hi.key, hi'.key); }
    }
  }

  /** The first `n` children, taken together, hold sorted keys from `lo` up to the n-th separator. */
  lemma {:induction false} KidsOrdered(keys: seq<bytes>, kids: seq<Shape>, h: nat, lo: Bound, hi: Bound, n: nat)
    requires h > 0 && WellFormed(Branch(keys, kids), h, lo, hi) && 0 < n <= |kids|
    ensures Sorted(Flat(kids[..n])) && InRange(Flat(kids[..n]), lo, HiOf(keys, hi, n - 1))
    decreases h, 0, n
  {
    var last := kids[n - 1];
    ContentsOrdered(last, h - 1, LoOf(keys, lo, n - 1), HiOf(keys, hi, n - 1));
    FlatTake(kids, n - 1);
    if n == 1 {
      assert Flat(kids[..0]) == [];
      Whole(Contents(last));
    } else {
      KidsOrdered(keys, kids, h, lo, hi, n - 1);
      hide Flat, Contents;
      var k := keys[n - 2];
      AllBelowBound(Flat(kids[..n - 1]), lo, k);
      InRangeWiden(Contents(last), Key(k), HiOf(keys, hi, n - 1), Key(k), Unbounded);
      SortedAppend(Flat(kids[..n - 1]), Contents(last), k);
      SeparatorBounds(keys, lo, hi, n - 2);
      InRangeWiden(Flat(kids[..n - 1]), lo, Key(k), lo, HiOf(keys, hi, n - 1));
      InRangeWiden(Contents(last), Key(k), HiOf(keys, hi, n - 1), lo, HiOf(keys, hi, n - 1));
      InRangeAppend(Flat(kids[..n - 1]), Contents(last), lo, HiOf(keys, hi, n - 1));
    }
  }

  lemma AllBelowBound(s: seq<KV>, lo: Bound, k: bytes)
    requires InRange(s, lo, Key(k))
    ensures AllBelow(s, k)
  {
    forall i | 0 <= i < |s|
      ensures Less(s[i].key, k)
    {
      assert Within(s[i].key, lo, Key(k));
    }
  }

  lemma SeparatorBounds(keys: seq<bytes>, lo: Bound, hi: Bound, i: nat)
    requires Separators(keys, lo, hi) && i < |keys|
    ensures lo.Key? ==> !Less(keys[i], lo.key)
    ensures HiOf(keys, hi, i + 1).Key? ==> !Less(HiOf(keys, hi, i + 1).key, keys[i])
    ensures LoOf(keys, lo, i).Key? ==> !Less(keys[i], LoOf(keys, lo, i).key)
  {
    assert Inside(keys[i], lo, hi);
    LessOrder();
  }

  lemma {:induction false} ContentsOrdered(t: Shape, h: nat, lo: Bound, hi: Bound)
    requires WellFormed(t, h, lo, hi)
    ensures Sorted(Contents(t)) && InRange(Contents(t), lo, hi)
    decreases h, 1
  {
    if t.Branch? {
      KidsOrdered(t.keys, t.kids, h, lo, hi, |t.kids|);
      Whole(t.kids);
    }
  }

  lemma FlatDrop(kids: seq<Shape>, n: nat)
    requires n < |kids|
    ensures Flat(kids[n..]) == Contents(kids[n]) + Flat(kids[n + 1..])
    ensures n + 1 == |kids| ==> Flat(kids[n + 1..]) == []
  {
    TakeNext(kids, n);
    hide Contents;
  }

  /** The children from `n` on hold only keys at or above the separator before them. */
  lemma {:induction false} KidsFrom(keys: seq<bytes>, kids: seq<Shape>, h: nat, lo: Bound, hi: Bound, n: nat)
    requires h > 0 && WellFormed(Branch(keys, kids), h, lo, hi) && n < |kids|
    ensures InRange(Flat(kids[n..]), LoOf(keys, lo, n), Unbounded)
    decreases |kids| - n
  {
    assert WellFormed(kids[n], h - 1, LoOf(keys, lo, n), HiOf(keys, hi, n));
    assert Separators(keys, lo, hi) && |kids| == |keys| + 1;
    ContentsOrdered(kids[n], h - 1, LoOf(keys, lo, n), HiOf(keys, hi, n));
    FlatDrop(kids, n);
    hide Contents, Flat, Separators, Sorted;
    InRangeWiden(Contents(kids[n]), LoOf(keys, lo, n), HiOf(keys, hi, n), LoOf(keys, lo, n), Unbounded);
    if n + 1 < |kids| {
      KidsFrom(keys, kids, h, lo, hi, n + 1);
      SeparatorBounds(keys, lo, hi, n);
      InRangeWiden(Flat(kids[n + 1..]), Key(keys[n]), Unbounded, LoOf(keys, lo, n), Unbounded);
    }
    InRangeAppend(Contents(kids[n]), Flat(kids[n + 1..]), LoOf(keys, lo, n), Unbounded);
  }

  // ---- Descending ----

  /** The first child whose upper separator exceeds `k`; the last child covers the rest. */
  function ChildIndex(keys: seq<bytes>, k: bytes): (i: nat)
    ensures i <= |keys|
    ensures forall j :: 0 <= j < i ==> !Less(k, keys[j])
    ensures i < |keys| ==> Less(k, keys[i])
  {
    if keys == [] || Less(k, keys[0]) then 0
    else
      var i := ChildIndex(keys[1..], k);
      assert forall j :: 0 < j < i + 1 ==> keys[j] == keys[1..][j - 1];
      i + 1
  }

  /** The chosen child is the only one that can hold the key. */
  lemma Descend(keys: seq<bytes>, kids: seq<Shape>, h: nat, lo: Bound, hi: Bound, k: bytes)
    requires h > 0 && WellFormed(Branch(keys, kids), h, lo, hi) && Within(k, lo, hi)
    ensures var ci := ChildIndex(keys, k);
            && Flat(kids) == Flat(kids[..ci]) + Contents(kids[ci]) + Flat(kids[ci + 1..])
            && AllBelow(Flat(kids[..ci]), k) && AllAbove(Flat(kids[ci + 1..]), k)
            && Within(k, LoOf(keys, lo, ci), HiOf(keys, hi, ci))
  {
    var ci := ChildIndex(keys, k);
    FlatSplit(kids, ci);
    if ci > 0 {
      KidsOrdered(keys, kids, h, lo, hi, ci);
      NotBelow(Flat(kids[..ci]), lo, keys[ci - 1], k);
    }
    if ci < |keys| {
      KidsFrom(keys, kids, h, lo, hi, ci + 1);
      StrictlyAbove(Flat(kids[ci + 1..]), keys[ci], k);
    } else {
      assert Flat(kids[ci + 1..]) == [];
    }
  }

  lemma NotBelow(s: seq<KV>, lo: Bound, sep: bytes, k: bytes)
    requires InRange(s, lo, Key(sep)) && !Less(k, sep)
    ensures AllBelow(s, k)
  {
    forall i | 0 <= i < |s|
      ensures Less(s[i].key, k)
    {
      assert Within(s[i].key, lo, Key(sep));
      BoundsTransitive(s[i].key, sep, k);
    }
  }

  lemma StrictlyAbove(s: seq<KV>, sep: bytes, k: bytes)
    requires InRange(s, Key(sep), Unbounded) && Less(k, sep)
    ensures AllAbove(s, k)
  {
    forall i | 0 <= i < |s|
      ensures Less(k, s[i].key)
    {
      assert Within(s[i].key, Key(sep), Unbounded);
      BoundsTransitive(s[i].key, sep, k);
    }
  }

  /** Looking a key up in a branch is looking it up in the chosen child. */
  lemma FindDescends(keys: seq<bytes>, kids: seq<Shape>, h: nat, lo: Bound, hi: Bound, k: bytes)
    requires h > 0 && WellFormed(Branch(keys, kids), h, lo, hi) && Within(k, lo, hi)
    ensures Find(Flat(kids), k) == Find(Contents(kids[ChildIndex(keys, k)]), k)
  {
    hide Flat, Contents, Find;
    Descend(keys, kids, h, lo, hi, k);
    var ci := ChildIndex(keys, k);
    OnlyTheMiddle(Flat(kids[..ci]), Contents(kids[ci]), Flat(kids[ci + 1..]), KV(k, []));
  }
}
