/** One level of a tree under construction: subtrees in key order, each with its first key. */
module Levels {
  import opened Bytes
  import opened Seqs
  import opened Sorting
  import opened KVLists
  import opened Shapes

  /** The i-th subtree holds keys from its first key to the next one's; the last one's end at `end`. */
  function NextKey(fk: seq<bytes>, i: nat, end: Bound): Bound {
    if i + 1 < |fk| then Key(fk[i + 1]) else end
  }

  ghost predicate LevelWf(fk: seq<bytes>, shapes: seq<Shape>, h: nat, end: Bound) {
    && |fk| == |shapes| && Ascending(fk)
    && (end.Key? && |fk| > 0 ==> Less(fk[|fk| - 1], end.key))
    && forall i :: 0 <= i < |fk| ==> WellFormed(shapes[i], h, Key(fk[i]), NextKey(fk, i, end))
  }

  lemma LevelAppend(fk: seq<bytes>, shapes: seq<Shape>, h: nat, k: bytes, t: Shape, end: Bound)
    requires LevelWf(fk, shapes, h, Key(k)) && WellFormed(t, h, Key(k), end)
    requires end.Key? ==> Less(k, end.key)
    ensures LevelWf(fk + [k], shapes + [t], h, end)
  {
    var fk', shapes' := fk + [k], shapes + [t];
    forall i, j | 0 <= i < j < |fk'|
      ensures Less(fk'[i], fk'[j])
    {
      if j == |fk| && i < |fk| - 1 {
        LessTransitive(fk[i], fk[|fk| - 1], k);
      }
    }
    forall i | 0 <= i < |fk'|
      ensures WellFormed(shapes'[i], h, Key(fk'[i]), NextKey(fk', i, end))
    {
      if i < |fk| {
        assert WellFormed(shapes[i], h, Key(fk[i]), NextKey(fk, i, Key(k)));
      }
    }
  }

  /** A run of neighbours makes a branch: all first keys but the first become separators. */
  lemma GroupWf(fk: seq<bytes>, shapes: seq<Shape>, h: nat, i: nat, j: nat)
    requires LevelWf(fk, shapes, h, Unbounded) && i < j <= |fk|
    ensures WellFormed(Branch(fk[i + 1..j], shapes[i..j]), h + 1, Key(fk[i]), if j < |fk| then Key(fk[j]) else Unbounded)
    ensures j < |fk| ==> Less(fk[i], fk[j])
  {
    var lo, hi := Key(fk[i]), if j < |fk| then Key(fk[j]) else Unbounded;
    var keys, kids := fk[i + 1..j], shapes[i..j];
    GroupSeparators(fk, i, j);
    forall m | 0 <= m < |kids|
      ensures WellFormed(kids[m], h, LoOf(keys, lo, m), HiOf(keys, hi, m))
    {
      GroupKid(fk, shapes, h, i, j, m);
    }
    hide LoOf, HiOf, Separators;
  }

  lemma GroupSeparators(fk: seq<bytes>, i: nat, j: nat)
    requires Ascending(fk) && i < j <= |fk|
    ensures Separators(fk[i + 1..j], Key(fk[i]), if j < |fk| then Key(fk[j]) else Unbounded)
  {
    AscendingSlice(fk, i + 1, j);
    var keys := fk[i + 1..j];
    forall m | 0 <= m < |keys|
      ensures Inside(keys[m], Key(fk[i]), if j < |fk| then Key(fk[j]) else Unbounded)
    {
      assert keys[m] == fk[i + 1 + m];
    }
  }

  lemma GroupBounds(fk: seq<bytes>, i: nat, j: nat, m: nat)
    requires i < j <= |fk| && m < j - i
    ensures var keys, hi := fk[i + 1..j], if j < |fk| then Key(fk[j]) else Unbounded;
            LoOf(keys, Key(fk[i]), m) == Key(fk[i + m]) && HiOf(keys, hi, m) == NextKey(fk, i + m, Unbounded)
  {
  }

  lemma GroupKid(fk: seq<bytes>, shapes: seq<Shape>, h: nat, i: nat, j: nat, m: nat)
    requires LevelWf(fk, shapes, h, Unbounded) && i < j <= |fk| && m < j - i
    ensures var keys := fk[i + 1..j];
            WellFormed(shapes[i..j][m], h, LoOf(keys, Key(fk[i]), m), HiOf(keys, if j < |fk| then Key(fk[j]) else Unbounded, m))
  {
    hide WellFormed, LoOf, HiOf, NextKey;
    assert WellFormed(shapes[i + m], h, Key(fk[i + m]), NextKey(fk, i + m, Unbounded));
    GroupBounds(fk, i, j, m);
  }

  lemma WidenBottom(t: Shape, h: nat, lo: Bound, hi: Bound)
    requires WellFormed(t, h, lo, hi)
    ensures WellFormed(t, h, Unbounded, hi)
    decreases h
  {
    match t
    case Tip(kvs) =>
      InRangeWiden(kvs, lo, hi, Unbounded, hi);
    case Branch(keys, kids) =>
      assert Separators(keys, Unbounded, hi) by {
        assert forall i :: 0 <= i < |keys| ==> Inside(keys[i], lo, hi);
      }
      WidenBottom(kids[0], h - 1, lo, HiOf(keys, hi, 0));
      forall i | 0 <= i < |kids|
        ensures WellFormed(kids[i], h - 1, LoOf(keys, Unbounded, i), HiOf(keys, hi, i))
      {
        assert WellFormed(kids[i], h - 1, LoOf(keys, lo, i), HiOf(keys, hi, i));
      }
  }

  /** Non-empty leaves cut from a sorted list, with the keys they start with. */
  ghost predicate LeafCuts(fk: seq<bytes>, tips: seq<Shape>) {
    && |fk| == |tips|
    && forall i :: 0 <= i < |tips| ==> tips[i].Tip? && tips[i].kvs != [] && tips[i].kvs[0].key == fk[i]
  }

  lemma NoShapes(fk: seq<bytes>, tips: seq<Shape>, end: Bound)
    ensures LevelWf(fk[..0], tips[..0], 0, end)
  {
  }

  lemma {:induction false} LeavesWf(fk: seq<bytes>, tips: seq<Shape>, n: nat)
    requires LeafCuts(fk, tips) && Sorted(Flat(tips)) && n <= |tips|
    ensures LevelWf(fk[..n], tips[..n], 0, if n < |tips| then Key(fk[n]) else Unbounded)
  {
    hide WellFormed, LevelWf, Flat, Sorted, Less;
    var end := if n < |tips| then Key(fk[n]) else Unbounded;
    if n == 0 {
      NoShapes(fk, tips, end);
    } else {
      LeavesWf(fk, tips, n - 1);
      LeafInOrder(fk, tips, n - 1);
      TakeNext(fk, n - 1);
      TakeNext(tips, n - 1);
      LevelAppend(fk[..n - 1], tips[..n - 1], 0, fk[n - 1], tips[n - 1], end);
    }
  }

  lemma LeafInOrder(fk: seq<bytes>, tips: seq<Shape>, i: nat)
    requires LeafCuts(fk, tips) && Sorted(Flat(tips)) && i < |tips|
    ensures WellFormed(tips[i], 0, Key(fk[i]), if i + 1 < |tips| then Key(fk[i + 1]) else Unbounded)
    ensures i + 1 < |tips| ==> Less(fk[i], fk[i + 1])
  {
    FlatSplit(tips, i);
    var left, mid, right := Flat(tips[..i]), tips[i].kvs, Flat(tips[i + 1..]);
    SortedParts(left, mid, right);
    if i + 1 < |tips| {
      assert tips[i + 1..][0] == tips[i + 1];
      assert right[0].key == fk[i + 1];
    }
    hide Flat;
    forall j | 0 <= j < |mid|
      ensures Within(mid[j].key, Key(fk[i]), if i + 1 < |tips| then Key(fk[i + 1]) else Unbounded)
    {
      LessTotal(mid[0].key, mid[j].key);
    }
  }

  lemma SortedParts(left: seq<KV>, mid: seq<KV>, right: seq<KV>)
    requires Sorted(left + mid + right)
    ensures Sorted(mid)
    ensures right != [] ==> forall j :: 0 <= j < |mid| ==> Less(mid[j].key, right[0].key)
  {
    var s := left + mid + right;
    forall i, j | 0 <= i < j < |mid|
      ensures Less(mid[i].key, mid[j].key)
    {
      assert s[|left| + i] == mid[i] && s[|left| + j] == mid[j];
    }
    if right != [] {
      forall j | 0 <= j < |mid|
        ensures Less(mid[j].key, right[0].key)
      {
        assert s[|left| + j] == mid[j] && s[|left| + |mid|] == right[0];
      }
    }
  }
}
