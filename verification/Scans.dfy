/** Ordered prefix scans with pruning and early stop (btree.Scan). */
module Scans {
  import opened Bytes
  import opened Wrappers
  import opened Seqs
  import opened KVLists
  import opened Shapes
  import opened Nodes
  import opened PageStore
  import opened TreePages
  import opened TreeWrites
  import opened Trees

  /**
   * A visitor may keep state, so whether it wants to go on is a function of all the calls made so
   * far, the current one included.
   */
  type Visitor = seq<KV> -> bool

  datatype Visits = Visits(calls: seq<KV>, stopped: bool)

  /** Offering a list of pairs, one by one, to a visitor. */
  function Offer(fn: Visitor, v: Visits, todo: seq<KV>): Visits
    decreases |todo|
  {
    if v.stopped || todo == [] then v
    else
      var calls := v.calls + [todo[0]];
      Offer(fn, Visits(calls, !fn(calls)), todo[1..])
  }

  lemma {:induction false} OfferAppend(fn: Visitor, v: Visits, a: seq<KV>, b: seq<KV>)
    ensures Offer(fn, v, a + b) == Offer(fn, Offer(fn, v, a), b)
    decreases |a|
  {
    AppendTail(a, b);
    if !v.stopped && a != [] {
      var calls := v.calls + [a[0]];
      OfferAppend(fn, Visits(calls, !fn(calls)), a[1..], b);
    }
  }

  /** The visitor is called on the list itself, up to and including its first refusal. */
  lemma {:induction false} OfferIsPrefix(fn: Visitor, before: seq<KV>, todo: seq<KV>)
    ensures var r := Offer(fn, Visits(before, false), todo);
            && before <= r.calls <= before + todo
            && (!r.stopped ==> r.calls == before + todo)
            && (r.stopped ==> before < r.calls && !fn(r.calls))
            && (forall i :: |before| < i < |r.calls| ==> fn(r.calls[..i]))
    decreases |todo|
  {
    if todo != [] {
      var calls := before + [todo[0]];
      assert before + todo == calls + todo[1..];
      if fn(calls) {
        OfferIsPrefix(fn, calls, todo[1..]);
        var r := Offer(fn, Visits(calls, false), todo[1..]);
        assert r.calls[..|calls|] == calls;
      }
    } else {
      Whole(before);
    }
  }

  // ---- Pruning ----

  lemma {:induction false} NoneMatch(s: seq<KV>, prefix: bytes)
    requires forall i :: 0 <= i < |s| ==> !(prefix <= s[i].key)
    ensures Matching(s, prefix) == []
  {
    if s != [] {
      NoneMatch(s[1..], prefix) by {
        assert forall i :: 0 <= i < |s| - 1 ==> s[1..][i] == s[i + 1];
      }
    }
  }

  /** A subtree whose keys all lie below the prefix, or all at or above its upper end, has no match. */
  lemma NoMatchBelow(s: seq<KV>, lo: Bound, sep: bytes, prefix: bytes)
    requires InRange(s, lo, Key(sep)) && !Less(prefix, sep)
    ensures Matching(s, prefix) == []
  {
    forall i | 0 <= i < |s|
      ensures !(prefix <= s[i].key)
    {
      assert Within(s[i].key, lo, Key(sep));
      PrefixIsRange(prefix, s[i].key);
      LessOrder();
    }
    NoneMatch(s, prefix);
  }

  lemma NoMatchAbove(s: seq<KV>, sep: bytes, hi: Bound, prefix: bytes, up: bytes)
    requires InRange(s, Key(sep), hi) && Upper(prefix) == Key(up) && !Less(sep, up)
    ensures Matching(s, prefix) == []
  {
    forall i | 0 <= i < |s|
      ensures !(prefix <= s[i].key)
    {
      assert Within(s[i].key, Key(sep), hi);
      PrefixIsRange(prefix, s[i].key);
      LessOrder();
    }
    NoneMatch(s, prefix);
  }

  lemma PrunedChild(t: Shape, h: nat, lo: Bound, hi: Bound, i: nat, prefix: bytes)
    requires t.Branch? && WellFormed(t, h, lo, hi) && i < |t.kids|
    requires || (i < |t.keys| && prefix != [] && !Less(prefix, t.keys[i]))
             || (i > 0 && Upper(prefix).Key? && !Less(t.keys[i - 1], Upper(prefix).key))
    ensures Matching(Contents(t.kids[i]), prefix) == []
  {
    var l, u := LoOf(t.keys, lo, i), HiOf(t.keys, hi, i);
    ContentsOrdered(t.kids[i], h - 1, l, u);
    hide Contents, WellFormed, Upper, Less;
    if i < |t.keys| && prefix != [] && !Less(prefix, t.keys[i]) {
      NoMatchBelow(Contents(t.kids[i]), l, t.keys[i], prefix);
    } else {
      NoMatchAbove(Contents(t.kids[i]), t.keys[i - 1], u, prefix, Upper(prefix).key);
    }
  }

  lemma MatchingStep(kvs: seq<KV>, i: nat, prefix: bytes)
    requires i < |kvs|
    ensures Matching(kvs[i..], prefix) == (if prefix <= kvs[i].key then [kvs[i]] else []) + Matching(kvs[i + 1..], prefix)
  {
    TakeNext(kvs, i);
  }

  lemma FlatStep(kids: seq<Shape>, i: nat, prefix: bytes)
    requires i < |kids|
    ensures Matching(Flat(kids[i..]), prefix) == Matching(Contents(kids[i]), prefix) + Matching(Flat(kids[i + 1..]), prefix)
  {
    TakeNext(kids, i);
    FiltersAppend(Contents(kids[i]), Flat(kids[i + 1..]), prefix);
  }

  lemma OfferOne(fn: Visitor, v: Visits, kv: KV, rest: seq<KV>)
    requires !v.stopped
    ensures Offer(fn, v, [kv] + rest) == Offer(fn, Visits(v.calls + [kv], !fn(v.calls + [kv])), rest)
    ensures Offer(fn, v, [] + rest) == Offer(fn, v, rest)
  {
    AppendTail([kv], rest);
    Whole(rest);
  }

  lemma OfferEnds(fn: Visitor, v: Visits, todo: seq<KV>)
    ensures v.stopped ==> Offer(fn, v, todo) == v
    ensures Offer(fn, v, []) == v
  {
  }

  lemma EntryAt(pages: Pages, es: seq<LeafEntry>, kvs: seq<KV>, i: nat)
    requires DenotesAll(pages, es, kvs) && i < |es|
    ensures EntryEncodable(es[i]) && es[i].key == kvs[i].key && ValueOf(pages, es[i]) == Some(kvs[i].value)
  {
    assert Denotes(pages, es[i], kvs[i]);
  }

  // ---- The walk ----

  method WalkLeaf(store: Store, entries: seq<LeafEntry>, prefix: bytes, up: Bound, fn: Visitor, v0: Visits,
                  ghost kvs: seq<KV>)
    returns (v: Visits)
    requires store.Valid() && DenotesAll(store.pages, entries, kvs) && up == Upper(prefix)
    ensures v == Offer(fn, v0, Matching(kvs, prefix))
  {
    hide *;
    v := v0;
    var i := 0;
    Whole(kvs);
    SameLength(store.pages, entries, kvs);
    while i < |entries|
      invariant 0 <= i <= |entries|
      invariant Offer(fn, v0, Matching(kvs, prefix)) == Offer(fn, v, Matching(kvs[i..], prefix))
    {
      if v.stopped {
        OfferEnds(fn, v, Matching(kvs[i..], prefix));
        return;
      }
      EntryAt(store.pages, entries, kvs, i);
      MatchingStep(kvs, i, prefix);
      var e := entries[i];
      var below := OutsideRange(e.key, prefix, up);
      OfferOne(fn, v, kvs[i], Matching(kvs[i + 1..], prefix));
      if !below {
        var val := Materialize(store, e);
        var calls := v.calls + [KV(e.key, val.value)];
        assert KV(e.key, val.value) == kvs[i];
        v := Visits(calls, !fn(calls));
      }
      i := i + 1;
    }
    NothingMatches(prefix);
    OfferEnds(fn, v, []);
  }

  lemma SameLength(pages: Pages, es: seq<LeafEntry>, kvs: seq<KV>)
    requires DenotesAll(pages, es, kvs)
    ensures |es| == |kvs|
  {
  }

  lemma NothingMatches(prefix: bytes)
    ensures Matching([], prefix) == [] && Matching(Flat([]), prefix) == []
  {
  }

  /** The two comparisons a scan makes per key are together the prefix test. */
  method OutsideRange(key: bytes, prefix: bytes, up: Bound) returns (outside: bool)
    requires up == Upper(prefix)
    ensures outside <==> !(prefix <= key)
  {
    PrefixIsRange(prefix, key);
    hide Less, Upper;
    if |prefix| > 0 {
      var c := CompareBytes(key, prefix);
      if c < 0 {
        return true;
      }
    } else {
      NothingBelowEmpty(key);
    }
    if up.Key? {
      var c := CompareBytes(key, up.key);
      LessTotal(key, up.key);
      if c >= 0 {
        return true;
      }
    }
    return false;
  }

  lemma NothingBelowEmpty(key: bytes)
    ensures !Less(key, [])
  {
  }

  method Prune(keys: seq<bytes>, i: nat, prefix: bytes, up: Bound) returns (skip: bool)
    requires i <= |keys|
    ensures skip <==> || (i < |keys| && prefix != [] && !Less(prefix, keys[i]))
                      || (i > 0 && up.Key? && !Less(keys[i - 1], up.key))
  {
    hide Less;
    if i < |keys| && |prefix| > 0 {
      var c := CompareBytes(keys[i], prefix);
      LessTotal(keys[i], prefix);
      if c <= 0 {
        return true;
      }
    }
    if i > 0 && up.Key? {
      var c := CompareBytes(keys[i - 1], up.key);
      LessTotal(keys[i - 1], up.key);
      if c >= 0 {
        return true;
      }
    }
    return false;
  }

  lemma ChildAt(pages: Pages, n: Node, t: Shape, h: nat, lo: Bound, hi: Bound, limit: PageId, i: nat)
    requires t.Branch? && NodeRepr(pages, n, t, limit) && WellFormed(t, h, lo, hi) && i < |t.kids|
    ensures h > 0 && n.keys == t.keys && |n.children| == |t.kids| == |t.keys| + 1 && n.children[i] < limit
    ensures Repr(pages, n.children[i], t.kids[i]) && WellFormed(t.kids[i], h - 1, LoOf(t.keys, lo, i), HiOf(t.keys, hi, i))
  {
  }

  lemma BranchIs(pages: Pages, n: Node, t: Shape, h: nat, lo: Bound, hi: Bound, limit: PageId)
    requires n.Internal? && NodeRepr(pages, n, t, limit) && WellFormed(t, h, lo, hi)
    ensures t.Branch? && n.keys == t.keys && |n.children| == |t.kids| == |t.keys| + 1 && h > 0 && Contents(t) == Flat(t.kids)
  {
  }

  method Walk(store: Store, id: PageId, prefix: bytes, up: Bound, fn: Visitor, v0: Visits, ghost t: Shape,
              ghost h: nat, ghost lo: Bound, ghost hi: Bound)
    returns (v: Visits)
    requires store.Valid() && Repr(store.pages, id, t) && WellFormed(t, h, lo, hi) && up == Upper(prefix)
    ensures v == Offer(fn, v0, Matching(Contents(t), prefix))
    decreases h, 1
  {
    hide ParseNode, NodeRepr, WellFormed, Contents, Matching, Upper, Less, Denotes;
    if v0.stopped {
      OfferEnds(fn, v0, Matching(Contents(t), prefix));
      return v0;
    }
    var r := ReadNode(store, id);
    var n := r.value;
    assert NodeRepr(store.pages, n, t, id);
    if n.Leaf? {
      TipOfLeaf(store.pages, n, t, id);
      LeafOf(store.pages, n, t, id);
      TipContents(t);
      v := WalkLeaf(store, n.entries, prefix, up, fn, v0, t.kvs);
    } else {
      v := WalkChildren(store, id, n, prefix, up, fn, v0, t, h, lo, hi);
    }
  }

  lemma TipContents(t: Shape)
    requires t.Tip?
    ensures Contents(t) == t.kvs
  {
  }

  method WalkChildren(store: Store, id: PageId, n: Node, prefix: bytes, up: Bound, fn: Visitor, v0: Visits,
                      ghost t: Shape, ghost h: nat, ghost lo: Bound, ghost hi: Bound)
    returns (v: Visits)
    requires store.Valid() && n.Internal? && NodeRepr(store.pages, n, t, id) && WellFormed(t, h, lo, hi) && up == Upper(prefix)
    ensures v == Offer(fn, v0, Matching(Contents(t), prefix))
    decreases h, 0
  {
    hide *;
    BranchIs(store.pages, n, t, h, lo, hi, id);
    v := v0;
    Whole(t.kids);
    var i := 0;
    while i < |n.children|
      invariant 0 <= i <= |n.children|
      invariant Offer(fn, v0, Matching(Contents(t), prefix)) == Offer(fn, v, Matching(Flat(t.kids[i..]), prefix))
    {
      if v.stopped {
        OfferEnds(fn, v, Matching(Flat(t.kids[i..]), prefix));
        return;
      }
      ChildAt(store.pages, n, t, h, lo, hi, id, i);
      FlatStep(t.kids, i, prefix);
      OfferAppend(fn, v, Matching(Contents(t.kids[i]), prefix), Matching(Flat(t.kids[i + 1..]), prefix));
      var skip := Prune(n.keys, i, prefix, up);
      if skip {
        PrunedChild(t, h, lo, hi, i, prefix);
        OfferEnds(fn, v, []);
      } else {
        v := Walk(store, n.children[i], prefix, up, fn, v, t.kids[i], h - 1, LoOf(t.keys, lo, i), HiOf(t.keys, hi, i));
      }
      i := i + 1;
    }
    NothingMatches(prefix);
    OfferEnds(fn, v, []);
  }

  /**
   * Scan from any root: the visitor is called on exactly the pairs with the prefix, in ascending
   * key order, or on those up to its first refusal.
   */
  method Scan(store: Store, root: PageId, prefix: bytes, fn: Visitor, ghost t: Shape, ghost h: nat) returns (v: Visits)
    requires store.Valid() && RootRepr(store.pages, root, t) && WellFormed(t, h, Unbounded, Unbounded)
    ensures v == Offer(fn, Visits([], false), Matching(Contents(t), prefix))
    ensures v.calls <= Matching(Contents(t), prefix) && Sorted(v.calls)
    ensures if v.stopped then v.calls != [] && !fn(v.calls) else v.calls == Matching(Contents(t), prefix)
    ensures forall i :: 0 < i < |v.calls| ==> fn(v.calls[..i])
  {
    hide Contents, Matching, WellFormed, Upper, Offer, Sorted, InRange;
    OfferIsPrefix(fn, [], Matching(Contents(t), prefix));
    Whole(Matching(Contents(t), prefix));
    ContentsOrdered(t, h, Unbounded, Unbounded);
    MatchingSorted(Contents(t), prefix, Unbounded);
    PrefixSorted(Matching(Contents(t), prefix));
    if root == INVALID {
      EmptyMatches(prefix);
      OfferEnds(fn, Visits([], false), []);
      return Visits([], false);
    }
    var up := PrefixUpper(prefix);
    v := Walk(store, root, prefix, up, fn, Visits([], false), t, h, Unbounded, Unbounded);
  }

  lemma PrefixSorted(s: seq<KV>)
    requires Sorted(s)
    ensures forall p: seq<KV> :: p <= s ==> Sorted(p)
  {
  }

  lemma EmptyMatches(prefix: bytes)
    ensures Matching(Contents(Tip([])), prefix) == []
  {
  }

  lemma {:induction false} MatchingSorted(s: seq<KV>, prefix: bytes, lo: Bound)
    requires Sorted(s) && InRange(s, lo, Unbounded)
    ensures Sorted(Matching(s, prefix)) && InRange(Matching(s, prefix), lo, Unbounded)
  {
    if s != [] {
      var rest := s[1..];
      forall i | 0 <= i < |rest|
        ensures Within(rest[i].key, Key(s[0].key), Unbounded) && Less(s[0].key, rest[i].key)
      {
        assert rest[i] == s[i + 1];
        LessTotal(s[0].key, rest[i].key);
      }
      MatchingSorted(rest, prefix, lo);
      MatchingAbove(rest, prefix, s[0].key);
    }
  }

  /** The empty prefix matches everything: a full scan lists the contents. */
  lemma {:induction false} AllMatch(s: seq<KV>)
    ensures Matching(s, []) == s
  {
    if s != [] {
      AllMatch(s[1..]);
      HeadTail(s);
    }
  }
}
