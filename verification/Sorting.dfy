/** Sorted key lists, standing in for the library sort. */
module Sorting {
  import opened Bytes

  ghost predicate Ascending(s: seq<bytes>) {
    forall i, j :: 0 <= i < j < |s| ==> Less(s[i], s[j])
  }

  lemma AscendingSlice(s: seq<bytes>, a: nat, b: nat)
    requires Ascending(s) && a <= b <= |s|
    ensures Ascending(s[a..b])
  {
    forall i, j | 0 <= i < j < b - a
      ensures Less(s[a..b][i], s[a..b][j])
    {
      assert s[a..b][i] == s[a + i] && s[a..b][j] == s[a + j];
    }
  }

  lemma {:induction false} LeastExists(keys: set<bytes>) returns (least: bytes)
    requires keys != {}
    ensures least in keys && forall k :: k in keys ==> k == least || Less(least, k)
  {
    var k :| k in keys;
    if keys == {k} {
      return k;
    }
    var m := LeastExists(keys - {k});
    LessTotal(k, m);
    least := if Less(k, m) then k else m;
    forall x | x in keys
      ensures x == least || Less(least, x)
    {
      if Less(k, m) && Less(m, x) {
        LessTransitive(k, m, x);
      }
    }
  }

  method SortKeys(keys: set<bytes>) returns (sorted: seq<bytes>)
    ensures Ascending(sorted)
    ensures forall k :: k in sorted <==> k in keys
  {
    sorted := [];
    var rest := keys;
    while rest != {}
      invariant rest <= keys && Ascending(sorted)
      invariant forall k :: k in sorted <==> k in keys - rest
      invariant forall i, k :: 0 <= i < |sorted| && k in rest ==> Less(sorted[i], k)
    {
      ghost var m := LeastExists(rest);
      LessOrder();
      var least :| least in rest && forall k :: k in rest ==> k == least || Less(least, k);
      sorted := sorted + [least];
      rest := rest - {least};
    }
  }
}
