/** Sorted lists of key/value pairs: the in-order contents of a tree, and the map they stand for. */
module KVLists {
  import opened Bytes
  import opened Wrappers
  import opened Seqs

  datatype KV = KV(key: bytes, value: bytes)

  // ---- Sorted lists of pairs ----

  ghost predicate Sorted(s: seq<KV>) {
    forall i, j :: 0 <= i < j < |s| ==> Less(s[i].key, s[j].key)
  }

  predicate Within(k: bytes, lo: Bound, hi: Bound) {
    AtLeast(k, lo) && Below(k, hi)
  }

  ghost predicate InRange(s: seq<KV>, lo: Bound, hi: Bound) {
    forall i :: 0 <= i < |s| ==> Within(s[i].key, lo, hi)
  }

  ghost predicate AllBelow(s: seq<KV>, k: bytes) {
    forall i :: 0 <= i < |s| ==> Less(s[i].key, k)
  }

  ghost predicate AllAbove(s: seq<KV>, k: bytes) {
    forall i :: 0 <= i < |s| ==> Less(k, s[i].key)
  }

  function KeysBelow(s: seq<KV>, k: bytes): seq<KV> {
    if s == [] then []
    else (if Less(s[0].key, k) then [s[0]] else []) + KeysBelow(s[1..], k)
  }

  function KeysAbove(s: seq<KV>, k: bytes): seq<KV> {
    if s == [] then []
    else (if Less(k, s[0].key) then [s[0]] else []) + KeysAbove(s[1..], k)
  }

  /** The list with `kv` added or replaced. */
  function Put(s: seq<KV>, kv: KV): seq<KV> {
    KeysBelow(s, kv.key) + [kv] + KeysAbove(s, kv.key)
  }

  function Remove(s: seq<KV>, k: bytes): seq<KV> {
    KeysBelow(s, k) + KeysAbove(s, k)
  }

  function Find(s: seq<KV>, k: bytes): Option<bytes> {
    if s == [] then None
    else if s[0].key == k then Some(s[0].value)
    else Find(s[1..], k)
  }

  function Matching(s: seq<KV>, prefix: bytes): seq<KV> {
    if s == [] then []
    else (if prefix <= s[0].key then [s[0]] else []) + Matching(s[1..], prefix)
  }

  /** What a scan for a prefix is about: the pairs whose key starts with it, in their order. */
  lemma {:induction false} MatchingExactly(s: seq<KV>, prefix: bytes, kv: KV)
    ensures kv in Matching(s, prefix) <==> kv in s && |prefix| <= |kv.key| && kv.key[..|prefix|] == prefix
    ensures Sorted(s) ==> Sorted(Matching(s, prefix))
  {
    if s != [] {
      MatchingExactly(s[1..], prefix, kv);
      if Sorted(s) {
        MatchingTail(s, prefix);
      }
    }
  }

  lemma MatchingTail(s: seq<KV>, prefix: bytes)
    requires s != [] && Sorted(s)
    ensures Sorted(s[1..]) && AllAbove(Matching(s[1..], prefix), s[0].key)
  {
    assert forall i :: 0 <= i < |s| - 1 ==> s[1..][i] == s[i + 1];
    MatchingAbove(s[1..], prefix, s[0].key);
  }

  lemma {:induction false} MatchingAbove(s: seq<KV>, prefix: bytes, k: bytes)
    requires AllAbove(s, k)
    ensures AllAbove(Matching(s, prefix), k)
  {
    hide Less;
    if s != [] {
      MatchingAbove(s[1..], prefix, k);
    }
  }

  lemma {:induction false} FiltersAppend(a: seq<KV>, b: seq<KV>, k: bytes)
    ensures KeysBelow(a + b, k) == KeysBelow(a, k) + KeysBelow(b, k)
    ensures KeysAbove(a + b, k) == KeysAbove(a, k) + KeysAbove(b, k)
    ensures Matching(a + b, k) == Matching(a, k) + Matching(b, k)
  {
    AppendTail(a, b);
    if a == [] {
      Whole(KeysBelow(b, k));
      Whole(KeysAbove(b, k));
      Whole(Matching(b, k));
    } else {
      FiltersAppend(a[1..], b, k);
      Assoc(if Less(a[0].key, k) then [a[0]] else [], KeysBelow(a[1..], k), KeysBelow(b, k));
      Assoc(if Less(k, a[0].key) then [a[0]] else [], KeysAbove(a[1..], k), KeysAbove(b, k));
      Assoc(if k <= a[0].key then [a[0]] else [], Matching(a[1..], k), Matching(b, k));
    }
  }

  lemma {:induction false} FindAppend(a: seq<KV>, b: seq<KV>, k: bytes)
    ensures Find(a + b, k) == if Find(a, k).Some? then Find(a, k) else Find(b, k)
  {
    AppendTail(a, b);
    if a != [] {
      FindAppend(a[1..], b, k);
    }
  }

  lemma {:induction false} FiltersBelow(s: seq<KV>, k: bytes)
    requires AllBelow(s, k)
    ensures KeysBelow(s, k) == s && KeysAbove(s, k) == [] && Find(s, k) == None
  {
    if s != [] {
      LessTotal(s[0].key, k);
      FiltersBelow(s[1..], k);
      HeadTail(s);
    }
  }

  lemma {:induction false} FiltersAbove(s: seq<KV>, k: bytes)
    requires AllAbove(s, k)
    ensures KeysBelow(s, k) == [] && KeysAbove(s, k) == s && Find(s, k) == None
  {
    if s != [] {
      LessTotal(s[0].key, k);
      FiltersAbove(s[1..], k);
      HeadTail(s);
    }
  }

  /** An operation on a key concerns only the stretch of the list that can hold the key. */
  lemma OnlyTheMiddle(left: seq<KV>, mid: seq<KV>, right: seq<KV>, kv: KV)
    requires AllBelow(left, kv.key) && AllAbove(right, kv.key)
    ensures Put(left + mid + right, kv) == left + Put(mid, kv) + right
    ensures Remove(left + mid + right, kv.key) == left + Remove(mid, kv.key) + right
    ensures Find(left + mid + right, kv.key) == Find(mid, kv.key)
  {
    var k := kv.key;
    FiltersAppend(left + mid, right, k);
    FiltersAppend(left, mid, k);
    FiltersBelow(left, k);
    FiltersAbove(right, k);
    FindAppend(left + mid, right, k);
    FindAppend(left, mid, k);
    hide KeysBelow, KeysAbove, Find;
    Regroup(left, KeysBelow(mid, k), [kv], KeysAbove(mid, k), right);
    Whole(left + KeysBelow(mid, k));
    Whole(KeysAbove(mid, k));
  }

  // ---- Lists as maps ----

  function ToMap(s: seq<KV>): map<bytes, bytes> {
    if s == [] then map[] else ToMap(s[1..])[s[0].key := s[0].value]
  }

  lemma {:induction false} FindIsLookup(s: seq<KV>, k: bytes)
    ensures Find(s, k) == if k in ToMap(s) then Some(ToMap(s)[k]) else None
  {
    if s != [] {
      FindIsLookup(s[1..], k);
    }
  }

  lemma {:induction false} FindInSorted(s: seq<KV>, k: bytes)
    ensures Find(s, k).Some? <==> exists i :: 0 <= i < |s| && s[i].key == k
    ensures Sorted(s) ==> forall i :: 0 <= i < |s| && s[i].key == k ==> Find(s, k) == Some(s[i].value)
  {
    if s != [] {
      FindInSorted(s[1..], k);
      assert s[0].key == k ==> s[0].key == k && 0 < |s|;
      forall i | 0 <= i < |s| && s[i].key == k
        ensures Find(s, k).Some?
      {
        assert i > 0 ==> s[1..][i - 1].key == k;
      }
      if Sorted(s) {
        forall i | 0 <= i < |s| && s[i].key == k
          ensures Find(s, k) == Some(s[i].value)
        {
          if i > 0 {
            LessIrreflexive(k);
            assert s[1..][i - 1] == s[i];
          }
        }
      }
    }
  }

  lemma {:induction false} FindFiltered(s: seq<KV>, k: bytes, x: bytes)
    ensures Find(KeysBelow(s, k), x) == if Less(x, k) then Find(s, x) else None
    ensures Find(KeysAbove(s, k), x) == if Less(k, x) then Find(s, x) else None
  {
    if s != [] {
      FindFiltered(s[1..], k, x);
      FindAppend(if Less(s[0].key, k) then [s[0]] else [], KeysBelow(s[1..], k), x);
      FindAppend(if Less(k, s[0].key) then [s[0]] else [], KeysAbove(s[1..], k), x);
    }
  }

  /** Put and Remove are update and removal of the map the list stands for. */
  lemma PutRefinesUpdate(s: seq<KV>, kv: KV)
    ensures ToMap(Put(s, kv)) == ToMap(s)[kv.key := kv.value]
  {
    forall x
      ensures Find(Put(s, kv), x) == if x == kv.key then Some(kv.value) else Find(s, x)
    {
      FindAppend(KeysBelow(s, kv.key) + [kv], KeysAbove(s, kv.key), x);
      FindAppend(KeysBelow(s, kv.key), [kv], x);
      FindFiltered(s, kv.key, x);
      LessTotal(x, kv.key);
    }
    hide Put, Find;
    SameLookups(Put(s, kv), ToMap(s)[kv.key := kv.value]) by {
      forall x
        ensures Find(Put(s, kv), x) == Lookup(ToMap(s)[kv.key := kv.value], x)
      {
        FindIsLookup(s, x);
      }
    }
  }

  lemma RemoveRefinesRemoval(s: seq<KV>, k: bytes)
    ensures ToMap(Remove(s, k)) == ToMap(s) - {k}
  {
    forall x
      ensures Find(Remove(s, k), x) == if x == k then None else Find(s, x)
    {
      FindAppend(KeysBelow(s, k), KeysAbove(s, k), x);
      FindFiltered(s, k, x);
      LessTotal(x, k);
    }
    hide Remove, Find;
    SameLookups(Remove(s, k), ToMap(s) - {k}) by {
      forall x
        ensures Find(Remove(s, k), x) == Lookup(ToMap(s) - {k}, x)
      {
        FindIsLookup(s, x);
      }
    }
  }

  function Lookup(m: map<bytes, bytes>, k: bytes): Option<bytes> {
    if k in m then Some(m[k]) else None
  }

  lemma SameLookups(s: seq<KV>, m: map<bytes, bytes>)
    requires forall x :: Find(s, x) == Lookup(m, x)
    ensures ToMap(s) == m
  {
    forall x
      ensures Lookup(ToMap(s), x) == Lookup(m, x)
    {
      FindIsLookup(s, x);
      assert Find(s, x) == Lookup(m, x);
    }
    assert forall x :: x in m ==> Lookup(m, x) == Some(m[x]);
    forall x
      ensures x in ToMap(s) <==> x in m
      ensures x in m ==> ToMap(s)[x] == m[x]
    {
      assert Lookup(ToMap(s), x) == Lookup(m, x);
    }
  }
}
