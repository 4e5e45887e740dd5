/** Splitting a list of sizes in two by count: when both halves stay within the room of a page. */
module Halves {
  import opened Seqs

  function Sum(s: seq<nat>): nat {
    if s == [] then 0 else s[0] + Sum(s[1..])
  }

  ghost predicate Between(s: seq<nat>, least: nat, most: nat) {
    forall i :: 0 <= i < |s| ==> least <= s[i] <= most
  }

  lemma {:induction false} SumAppend(a: seq<nat>, b: seq<nat>)
    ensures Sum(a + b) == Sum(a) + Sum(b)
  {
    AppendTail(a, b);
    if a != [] {
      SumAppend(a[1..], b);
    }
  }

  lemma SumSplit(s: seq<nat>, i: nat)
    requires i <= |s|
    ensures Sum(s) == Sum(s[..i]) + Sum(s[i..])
  {
    Parts(s, i, i);
    SumAppend(s[..i], s[i..]);
  }

  /** Products under a name, so that the proofs below stay linear. */
  function Times(n: nat, c: nat): nat {
    n * c
  }

  lemma TimesMonotone(a: nat, b: nat, c: nat)
    requires a <= b
    ensures Times(a, c) <= Times(b, c) && Times(c, a) <= Times(c, b)
  {
  }

  lemma TimesStep(n: nat, c: nat)
    ensures n > 0 ==> Times(n, c) == c + Times(n - 1, c)
    ensures Times(0, c) == 0 && Times(1, c) == c && Times(2, c) == c + c && Times(n, 1) == n
  {
  }

  lemma TimesAdd(a: nat, b: nat, c: nat)
    ensures Times(a + b, c) == Times(a, c) + Times(b, c)
  {
  }

  lemma Quotient(room: nat, most: nat)
    requires most > 0
    ensures Times(room / most, most) <= room < Times(room / most + 1, most)
  {
  }

  lemma {:induction false} SumBounds(s: seq<nat>, least: nat, most: nat)
    requires Between(s, least, most)
    ensures Times(|s|, least) <= Sum(s) <= Times(|s|, most)
  {
    if s != [] {
      assert Between(s[1..], least, most) by {
        assert forall i :: 0 <= i < |s| - 1 ==> s[1..][i] == s[i + 1];
      }
      SumBounds(s[1..], least, most);
    }
    TimesStep(|s|, least);
    TimesStep(|s|, most);
  }

  lemma BetweenSlice(s: seq<nat>, i: nat, j: nat, least: nat, most: nat)
    requires Between(s, least, most) && i <= j <= |s|
    ensures Between(s[i..j], least, most)
  {
    forall k | 0 <= k < j - i
      ensures least <= s[i..j][k] <= most
    {
      assert s[i..j][k] == s[i + k];
    }
  }

  /** The list as it was before the size at `at` was put in fitted. */
  ghost predicate FittedWithout(s: seq<nat>, at: nat, room: nat)
    requires at < |s|
  {
    Sum(s[..at]) + Sum(s[at + 1..]) <= room
  }

  ghost predicate HalvesFit(s: seq<nat>, room: nat) {
    Sum(s[..|s| / 2]) <= room && Sum(s[|s| / 2..]) <= room
  }

  /**
   * For sizes from `least` to `most`: as many small ones as fit large ones outweigh a large one,
   * or no two sizes ever fit together.
   */
  predicate Safe(least: nat, most: nat, room: nat)
    requires most > 0
  {
    Times(room / most, least) >= most || 2 * least > room
  }

  /**
   * A half of `halfCount` sizes weighing `half`, next to one of `otherCount` sizes weighing
   * `other`, where without the `added` size the whole list fitted.
   */
  lemma HalfFits(half: nat, halfCount: nat, other: nat, otherCount: nat, added: nat, least: nat, most: nat, room: nat)
    requires 0 < most <= room && Safe(least, most, room)
    requires half <= Times(halfCount, most) && Times(otherCount, least) <= other
    requires halfCount <= otherCount + 1 && 2 <= halfCount + otherCount
    requires added <= most && half + other <= room + added
    requires Times(halfCount + otherCount - 1, least) + added <= half + other
    ensures half <= room
  {
    hide Times;
    var k := room / most;
    var rest := halfCount + otherCount - 1;
    Quotient(room, most);
    if Times(k, least) >= most {
      if halfCount <= k {
        TimesMonotone(halfCount, k, most);
      } else {
        TimesMonotone(k, otherCount, least);
      }
    } else {
      TimesStep(halfCount, least);
      TimesStep(halfCount, most);
      if 2 <= rest {
        TimesMonotone(2, rest, least);
      }
      TimesMonotone(halfCount, 1, most);
    }
  }

  lemma SumAround(s: seq<nat>, at: nat)
    requires at < |s|
    ensures Sum(s) == Sum(s[..at]) + s[at] + Sum(s[at + 1..])
  {
    SumSplit(s, at);
    TakeNext(s, at);
  }

  lemma TakeBounds(s: seq<nat>, j: nat, least: nat, most: nat)
    requires Between(s, least, most) && j <= |s|
    ensures Times(j, least) <= Sum(s[..j]) <= Times(j, most)
  {
    assert s[0..j] == s[..j];
    BetweenSlice(s, 0, j, least, most);
    SumBounds(s[..j], least, most);
  }

  lemma DropBounds(s: seq<nat>, i: nat, least: nat, most: nat)
    requires Between(s, least, most) && i <= |s|
    ensures Times(|s| - i, least) <= Sum(s[i..]) <= Times(|s| - i, most)
  {
    assert s[i..|s|] == s[i..];
    BetweenSlice(s, i, |s|, least, most);
    SumBounds(s[i..], least, most);
  }

  lemma WeightWithout(s: seq<nat>, at: nat, least: nat, most: nat, room: nat)
    requires Between(s, least, most) && at < |s| && FittedWithout(s, at, room)
    ensures s[at] <= most && Times(|s| - 1, least) + s[at] <= Sum(s) <= room + s[at]
  {
    hide Sum, Times;
    assert s[at] <= most;
    SumAround(s, at);
    TakeBounds(s, at, least, most);
    DropBounds(s, at + 1, least, most);
    TimesAdd(at, |s| - at - 1, least);
  }

  lemma SafeHalvesFit(s: seq<nat>, at: nat, least: nat, most: nat, room: nat)
    requires 0 < most <= room && Safe(least, most, room)
    requires Between(s, least, most) && at < |s| && 2 <= |s| && FittedWithout(s, at, room)
    ensures HalvesFit(s, room)
  {
    var mid := |s| / 2;
    hide Sum, Between, Safe, Times, FittedWithout;
    WeightWithout(s, at, least, most, room);
    SumSplit(s, mid);
    TakeBounds(s, mid, least, most);
    DropBounds(s, mid, least, most);
    var left, right := Sum(s[..mid]), Sum(s[mid..]);
    HalfFits(left, mid, right, |s| - mid, s[at], least, most, room);
    HalfFits(right, |s| - mid, left, mid, s[at], least, most, room);
  }

  // ---- A branch: the middle size moves up ----

  ghost predicate OuterHalvesFit(s: seq<nat>, room: nat)
    requires s != []
  {
    Sum(s[..|s| / 2]) <= room && Sum(s[|s| / 2 + 1..]) <= room
  }

  /** One size less stays in the halves, so one more small size may be needed to outweigh a large one. */
  predicate BranchSafe(least: nat, most: nat, room: nat)
    requires most > 0
  {
    Times(room / most + 1, least) >= most || 3 * least > room
  }

  lemma OuterHalfFits(half: nat, halfCount: nat, other: nat, otherCount: nat, added: nat, least: nat, most: nat,
                      room: nat)
    requires 0 < most <= room && BranchSafe(least, most, room)
    requires half <= Times(halfCount, most) && Times(otherCount, least) <= other
    requires halfCount <= otherCount && 1 <= otherCount
    requires added <= most && half + other <= room + added
    requires Times(halfCount + otherCount - 1, least) + added <= half + other
    ensures half <= room
  {
    hide Times;
    var k := room / most;
    var rest := halfCount + otherCount - 1;
    Quotient(room, most);
    if halfCount <= k {
      TimesMonotone(halfCount, k, most);
    } else if Times(k + 1, least) >= most {
      TimesMonotone(k + 1, otherCount, least);
    } else {
      TimesStep(halfCount, most);
      if 2 <= halfCount {
        TimesMonotone(3, rest, least);
        TimesThree(least);
      }
      TimesMonotone(halfCount, 1, most);
    }
  }

  lemma TimesThree(c: nat)
    ensures Times(3, c) == 3 * c
  {
  }

  lemma SafeOuterHalvesFit(s: seq<nat>, at: nat, least: nat, most: nat, room: nat)
    requires 0 < most <= room && BranchSafe(least, most, room)
    requires Between(s, least, most) && at < |s| && FittedWithout(s, at, room)
    ensures OuterHalvesFit(s, room)
  {
    hide *;
    var mid := |s| / 2;
    WeightWithout(s, at, least, most, room);
    TakeBounds(s, mid, least, most);
    DropBounds(s, mid, least, most);
    SumSplit(s, mid);
    OuterHalfFits(Sum(s[..mid]), mid, Sum(s[mid..]), |s| - mid, s[at], least, most, room);
    TakeBounds(s, mid + 1, least, most);
    DropBounds(s, mid + 1, least, most);
    SumSplit(s, mid + 1);
    OuterHalfFits(Sum(s[mid + 1..]), |s| - mid - 1, Sum(s[..mid + 1]), mid + 1, s[at], least, most, room);
    OuterHalves(s, room);
  }

  lemma OuterHalves(s: seq<nat>, room: nat)
    requires s != [] && Sum(s[..|s| / 2]) <= room && Sum(s[|s| / 2 + 1..]) <= room
    ensures OuterHalvesFit(s, room)
  {
  }

  /** The safe bounds of leaves are safe for branches. */
  lemma SafeIsBranchSafe(least: nat, most: nat, room: nat)
    requires most > 0 && Safe(least, most, room)
    ensures BranchSafe(least, most, room)
  {
    hide Times;
    TimesMonotone(room / most, room / most + 1, least);
  }

  /** For every other pair: `k` sizes that are filled up and a large one make up the left half, and as
      many small ones follow. It fitted without the large one. */
  lemma UnsafeOuterHalves(least: nat, most: nat, room: nat) returns (s: seq<nat>, at: nat)
    requires 0 < least <= most <= room && !BranchSafe(least, most, room)
    ensures Between(s, least, most) && at < |s| <= 2 * room + 2
    ensures FittedWithout(s, at, room) && Sum(s) > room && Sum(s[..|s| / 2]) > room
  {
    var k := room / most;
    UnsafeBranchCounts(least, most, room);
    var total := if room + 1 - most >= Times(k, least) then room + 1 - most else Times(k, least);
    var filled := Fill(k, total, least, most);
    var small := Fill(k + 1, Times(k + 1, least), least, most);
    hide BranchSafe, Times;
    at := k;
    s := FilledThenSmall(filled, most, small);
  }

  lemma FilledThenSmall(filled: seq<nat>, large: nat, small: seq<nat>) returns (s: seq<nat>)
    requires |small| == |filled| + 1
    ensures s == filled + [large] + small
    ensures Sum(s[..|filled|]) == Sum(filled) && Sum(s[|filled| + 1..]) == Sum(small)
    ensures Sum(s[..|s| / 2]) == Sum(filled) + large && Sum(s) == Sum(filled) + large + Sum(small)
  {
    s := filled + [large] + small;
    Fields(filled, [large], small);
    SumAppend(filled, [large]);
    SumAppend(filled + [large], small);
    assert Sum([large]) == large + Sum([]);
    hide Sum;
    assert s[..|s| / 2] == filled + [large];
  }

  lemma UnsafeBranchCounts(least: nat, most: nat, room: nat)
    requires 0 < least <= most <= room && !BranchSafe(least, most, room)
    ensures var k := room / most;
            var total := if room + 1 - most >= Times(k, least) then room + 1 - most else Times(k, least);
            && 1 <= k <= room && Times(k + 1, least) <= Times(k + 1, most)
            && Times(k, least) <= total <= Times(k, most) && total + Times(k + 1, least) <= room && total + most > room
  {
    hide Times;
    var k := room / most;
    Quotient(room, most);
    TimesStep(k + 1, most);
    TimesMonotone(least, most, k);
    TimesMonotone(least, most, k + 1);
    TimesMonotone(1, most, k);
    TimesStep(k, 1);
    TimesStep(k, most);
    TimesStep(k + 1, least);
    TimesStep(k, least);
    if k >= 2 {
      TimesMonotone(2, k, most);
    }
  }

  // ---- Outside the safe sizes there is always a list that splits badly ----

  lemma BoundsOrdered(n: nat, total: nat, least: nat, most: nat)
    requires n > 0 && Times(n, least) <= total <= Times(n, most)
    ensures least <= most
  {
    hide Times;
    if most < least {
      TimesMonotone(most, least, n - 1);
      TimesStep(n, least);
      TimesStep(n, most);
    }
  }

  /** `n` sizes from `least` to `most` that add up to `total`. */
  lemma {:induction false} Fill(n: nat, total: nat, least: nat, most: nat) returns (s: seq<nat>)
    requires Times(n, least) <= total <= Times(n, most)
    ensures |s| == n && Between(s, least, most) && Sum(s) == total
  {
    TimesStep(n, least);
    TimesStep(n, most);
    hide Times;
    if n == 0 {
      return [];
    }
    TimesStep(n - 1, least);
    assert least <= most by { BoundsOrdered(n, total, least, most); }
    TimesMonotone(least, most, n - 1);
    var first := if total - least <= Times(n - 1, most) then least else total - Times(n - 1, most);
    var rest := Fill(n - 1, total - first, least, most);
    s := [first] + rest;
    AppendTail([first], rest);
    Whole(rest);
  }

  /**
   * For every unsafe pair of bounds: `k` small sizes, then `k` that are filled up, then one large
   * one added last. It fitted without the last, and the right half does not fit.
   */
  lemma UnsafeHalves(least: nat, most: nat, room: nat) returns (s: seq<nat>)
    requires 0 < least <= most <= room && !Safe(least, most, room)
    ensures Between(s, least, most) && 2 <= |s| <= 2 * room + 1
    ensures FittedWithout(s, |s| - 1, room)
    ensures Sum(s) > room && Sum(s[|s| / 2..]) > room
  {
    var k := room / most;
    UnsafeCounts(least, most, room);
    var total := if room + 1 - most >= Times(k, least) then room + 1 - most else Times(k, least);
    var small := Fill(k, Times(k, least), least, most);
    var filled := Fill(k, total, least, most);
    hide Safe;
    s := SmallThenFilled(small, filled, most);
  }

  lemma SmallThenFilled(small: seq<nat>, filled: seq<nat>, last: nat) returns (s: seq<nat>)
    requires |small| == |filled|
    ensures s == small + filled + [last]
    ensures Sum(s[..|s| - 1]) == Sum(small) + Sum(filled) && s[|s|..] == []
    ensures Sum(s[|s| / 2..]) == Sum(filled) + last && Sum(s) == Sum(small) + Sum(filled) + last
  {
    s := small + filled + [last];
    Fields(small, filled + [last], []);
    Fields(small + filled, [last], []);
    Whole(s);
    Assoc(small, filled, [last]);
    SumAppend(small, filled);
    SumAppend(filled, [last]);
    SumAppend(small + filled, [last]);
    assert Sum([last]) == last + Sum([]);
    hide Sum;
    assert s[|s| / 2..] == filled + [last];
    assert s[..|s| - 1] == small + filled;
  }

  lemma UnsafeCounts(least: nat, most: nat, room: nat)
    requires 0 < least <= most <= room && !Safe(least, most, room)
    ensures var k := room / most;
            var total := if room + 1 - most >= Times(k, least) then room + 1 - most else Times(k, least);
            && 1 <= k <= room && Times(k, least) <= Times(k, most)
            && Times(k, least) <= total <= Times(k, most) && Times(k, least) + total <= room && total + most > room
  {
    hide Times;
    var k := room / most;
    Quotient(room, most);
    TimesStep(k + 1, most);
    TimesMonotone(least, most, k);
    TimesMonotone(1, most, k);
    TimesStep(k, 1);
    TimesStep(k, most);
    TimesStep(k, least);
    if k >= 2 {
      TimesMonotone(2, k, most);
    }
  }
}
