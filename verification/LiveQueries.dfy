/**
 * Queries beside concurrent writers and checkpoints (engine.go, QueryObjects), and what queries and
 * lookups show of a record with several changes, as a bulk create logs it.
 */
module LiveQueries {
  import opened Bytes
  import opened Wrappers
  import opened Entries
  import opened LiveReads

  // ---- Queries ----

  /** QueryObjects takes its snapshot at its first step and the overlay at its second. */
  function QueryIn(st0: State, st1: State, k: bytes): Option<bytes>
    requires st0.snap <= |st0.hist|
  {
    if k in st1.overlay then ValueOf(st1.overlay[k].delta) else ValueAt(st0.hist, st0.snap, k)
  }

  lemma {:induction false} OverlayGrows(st: State, evs: seq<Event>, st': State)
    requires Run(st, evs) == Some(st') && forall i :: 0 <= i < |evs| ==> evs[i] != Prune
    ensures st.overlay.Keys <= st'.overlay.Keys
    decreases |evs|
  {
    if evs != [] {
      var next := Step(st, evs[0]).value;
      assert evs[0] != Prune;
      assert forall i :: 0 <= i < |evs| - 1 ==> evs[1..][i] == evs[i + 1];
      OverlayGrows(next, evs[1..], st');
    }
  }

  lemma {:induction false} DoneStays(st: State, evs: seq<Event>, st': State, k: bytes, i: nat)
    requires Run(st, evs) == Some(st') && Done(st, k, i)
    ensures Done(st', k, i)
    decreases |evs|
  {
    hide Touches, Published, Pruned;
    if evs != [] {
      DoneStays(Step(st, evs[0]).value, evs[1..], st', k, i);
    }
  }

  /** A key is lost to the query when a write to it moved from the overlay to a later snapshot. */
  ghost predicate Slipped(st0: State, st1: State, k: bytes) {
    k !in st1.overlay && exists i :: Done(st0, k, i) && i >= st0.snap
  }

  /** How many records the value that a query returns is taken from. */
  function QueryLevel(st0: State, st1: State, k: bytes): nat {
    if k in st1.overlay then st1.overlay[k].record + 1 else st0.snap
  }

  /** The query's answer is older than a write that had succeeded before it, exactly if the key slipped. */
  lemma SlippedIff(st0: State, evs: seq<Event>, st1: State, k: bytes)
    requires Inv(st0) && Reaches(st0, evs, st1)
    ensures QueryLevel(st0, st1, k) <= |st1.hist| && st0.snap <= |st0.hist|
    ensures QueryIn(st0, st1, k) == ValueAt(st1.hist, QueryLevel(st0, st1, k), k)
    ensures Slipped(st0, st1, k) <==> exists i :: Done(st0, k, i) && i >= QueryLevel(st0, st1, k)
  {
    hide ValueAt, Touches, Net, Exclusive, NothingMissing, Orderly, Run;
    RunKeeps(st0, evs, st1);
    forall i | Done(st0, k, i)
      ensures Done(st1, k, i)
    {
      DoneStays(st0, evs, st1, k, i);
    }
    if k in st1.overlay {
      OverlayValue(st1, k);
    } else {
      ValueSame(st0.hist, st1.hist, st0.snap, k);
    }
  }

  /** What a query returns for a key that did not slip is current, as for a lookup. */
  lemma QueryIsCurrent(st0: State, evs: seq<Event>, st1: State, k: bytes)
    requires Inv(st0) && Reaches(st0, evs, st1) && !Slipped(st0, st1, k)
    ensures st0.snap <= |st0.hist| && Current(st0, st1, k, QueryIn(st0, st1, k))
  {
    RunKeeps(st0, evs, st1);
    forall i | Done(st0, k, i)
      ensures Done(st1, k, i)
    {
      DoneStays(st0, evs, st1, k, i);
    }
    hide Exclusive, OverlayRight, ValueAt, Orderly, Run, Touches, Done, NothingMissing;
    if k in st1.overlay {
      hide Inv;
      OverlayValue(st1, k);
      assert CurrentAt(st0, st1, k, QueryIn(st0, st1, k), st1.overlay[k].record + 1);
    } else {
      ValueSame(st0.hist, st1.hist, st0.snap, k);
      assert CurrentAt(st0, st1, k, QueryIn(st0, st1, k), st0.snap);
    }
  }

  /** With no pruning between its two steps, a query is current for every key. */
  lemma QueryWithoutPruning(st0: State, evs: seq<Event>, st1: State, k: bytes)
    requires Inv(st0) && Reaches(st0, evs, st1)
    requires forall i :: 0 <= i < |evs| ==> evs[i] != Prune
    ensures !Slipped(st0, st1, k) && st0.snap <= |st0.hist| && Current(st0, st1, k, QueryIn(st0, st1, k))
  {
    OverlayGrows(st0, evs, st1);
    assert k !in st1.overlay ==> k !in st0.overlay;
    hide Touches;
    assert !Slipped(st0, st1, k);
    QueryIsCurrent(st0, evs, st1, k);
  }

  /**
   * When a query can miss a write: from any state, exactly if a write of the key that succeeded
   * before the query is not in the snapshot the query holds. Checkpoints that end before the
   * query's second step then make it return what the key was before that write.
   */
  lemma QueryCanMissIff(st0: State, k: bytes)
    requires Inv(st0)
    ensures (exists evs, st1 :: Reaches(st0, evs, st1) && Slipped(st0, st1, k)) <==>
            (exists i :: Done(st0, k, i) && i >= st0.snap)
    ensures (exists i :: Done(st0, k, i) && i >= st0.snap) ==>
              exists evs, st1 :: Reaches(st0, evs, st1) && Slipped(st0, st1, k) && st1.hist == st0.hist
                && QueryIn(st0, st1, k) == ValueAt(st0.hist, st0.snap, k)
  {
    hide Reaches, Done, ValueAt, OverlayRight, NothingMissing, Exclusive;
    if exists i :: Done(st0, k, i) && i >= st0.snap {
      var st1 := CheckpointsEmptyOverlay(st0);
      assert Slipped(st0, st1, k);
      assert QueryIn(st0, st1, k) == ValueAt(st0.hist, st0.snap, k);
    }
  }

  /** A query across a whole checkpoint misses a key that was written before it and never changed. */
  lemma QueryCanMissAWrite(e: Entry, k: bytes) returns (st0: State, evs: seq<Event>, st1: State)
    requires Touches(e, k) && Net(e.Flatten())[k].Data?
    ensures Run(START, [Submit(e), Publish(0)]) == Some(st0) && Done(st0, k, 0)
    ensures Reaches(st0, evs, st1) && st0.hist == st1.hist == [e] && st0.snap == 0
    ensures QueryIn(st0, st1, k) == None && ValueAt([e], 1, k) == Some(Net(e.Flatten())[k].data)
  {
    hide Net, Run, Orderly, Inv, ValueAt;
    st0 := OneWrite(e);
    evs := [Cut, Swap, Prune];
    st1 := WholeCheckpoint(st0);
    ValueStep([e], 0, k);
    ValueAtStart(st0.hist, k);
  }

  // ---- Batches: what a query, and lookups one after the other, show of one record ----

  /** The change record `i` made to the key, or a later one, is what the query shows. */
  predicate QueryShows(st0: State, st1: State, k: bytes, i: nat) {
    QueryLevel(st0, st1, k) > i
  }

  /** The same for a lookup. */
  predicate LookupShows(st0: State, st1: State, k: bytes, i: nat) {
    LookupLevel(st0, st1, k) > i
  }

  /** An older change hides the one of record `i`, which the snapshot may hold already. */
  predicate Shadowed(st: State, k: bytes, i: nat) {
    k in st.overlay && st.overlay[k].record < i
  }

  lemma QueryShowsIs(st0: State, st1: State, i: nat, k: bytes)
    requires Inv(st1) && i < |st1.hist| && i !in st1.failed && Touches(st1.hist[i], k)
    ensures QueryShows(st0, st1, k, i) <==>
            if i < st0.snap then !Shadowed(st1, k, i) else i !in st1.pending && k in st1.overlay
    ensures i !in st1.pending ==> !Shadowed(st1, k, i)
  {
    hide Net, Touches, Exclusive;
    if i !in st1.pending {
      assert Done(st1, k, i);
    } else if k in st1.overlay && st1.overlay[k].record > i {
      NoLater(st1, i, st1.overlay[k].record, k);
    } else if k in st1.overlay {
      assert !Done(st1, k, i);
    }
  }

  /**
   * When a query shows a record whole: it shows both of two changes or neither, exactly if, where
   * its snapshot holds the record, older changes hide both or neither at its second read, and
   * otherwise the record is under way or the overlay has an entry for both keys or for neither.
   */
  lemma QueryIsAtomicIff(st0: State, evs: seq<Event>, st1: State, i: nat, k1: bytes, k2: bytes)
    requires Inv(st0) && Reaches(st0, evs, st1) && i < |st1.hist| && i !in st1.failed
    requires Touches(st1.hist[i], k1) && Touches(st1.hist[i], k2)
    ensures (QueryShows(st0, st1, k1, i) <==> QueryShows(st0, st1, k2, i)) <==>
            if i < st0.snap then Shadowed(st1, k1, i) <==> Shadowed(st1, k2, i)
            else i in st1.pending || (k1 in st1.overlay <==> k2 in st1.overlay)
  {
    hide *;
    RunKeeps(st0, evs, st1);
    QueryShowsIs(st0, st1, i, k1);
    QueryShowsIs(st0, st1, i, k2);
  }

  /** Every finished change from record `m` on has an overlay entry for its key. */
  ghost predicate NotPruned(st: State, m: nat) {
    forall k, j :: Done(st, k, j) && j >= m ==> k in st.overlay
  }

  lemma NotPrunedStep(st: State, ev: Event, st': State, m: nat)
    requires Inv(st) && NotPruned(st, m) && Step(st, ev) == Some(st') && ev != Prune
    ensures NotPruned(st', m)
  {
    hide Touches, Net, Exclusive, OverlayRight, NothingMissing;
    assert !ev.Publish? ==> st'.overlay == st.overlay && forall k, j :: Done(st', k, j) ==> Done(st, k, j);
    if ev.Publish? {
      PublishDone(st, ev.i, st');
      PublishKeys(st, ev.i, st');
    }
  }

  lemma PublishKeys(st: State, i: nat, st': State)
    requires Step(st, Publish(i)) == Some(st')
    ensures st.overlay.Keys <= st'.overlay.Keys && forall k :: Touches(st.hist[i], k) ==> k in st'.overlay
  {
    hide Net;
  }

  lemma {:induction false} NotPrunedRun(st: State, evs: seq<Event>, st': State, m: nat)
    requires Inv(st) && NotPruned(st, m) && Reaches(st, evs, st') && forall i :: 0 <= i < |evs| ==> evs[i] != Prune
    ensures NotPruned(st', m)
    decreases |evs|
  {
    hide Inv, NotPruned, Races;
    if evs != [] {
      var next := Step(st, evs[0]).value;
      assert evs[0] != Prune && forall i :: 0 <= i < |evs| - 1 ==> evs[1..][i] == evs[i + 1];
      StepKeeps(st, evs[0], next);
      NotPrunedStep(st, evs[0], next, m);
      NotPrunedRun(next, evs[1..], st', m);
    }
  }

  lemma NothingPruned(st: State)
    requires Inv(st)
    ensures NotPruned(st, st.snap)
  {
    hide Exclusive, OverlayRight, Touches;
  }

  /** With no pruning between its two reads, a query shows a record of new keys whole or not at all. */
  lemma QueryIsAtomicWithoutPruning(st0: State, evs: seq<Event>, st1: State, i: nat, k1: bytes, k2: bytes)
    requires Inv(st0) && Reaches(st0, evs, st1) && i < |st1.hist| && i !in st1.failed
    requires Touches(st1.hist[i], k1) && Touches(st1.hist[i], k2)
    requires forall j :: 0 <= j < |evs| ==> evs[j] != Prune
    ensures (QueryShows(st0, st1, k1, i) <==> QueryShows(st0, st1, k2, i)) <==>
            (i < st0.snap ==> (Shadowed(st1, k1, i) <==> Shadowed(st1, k2, i)))
  {
    hide Inv, Touches, Reaches, QueryShows, Shadowed, NotPruned;
    QueryIsAtomicIff(st0, evs, st1, i, k1, k2);
    NothingPruned(st0);
    NotPrunedRun(st0, evs, st1, st0.snap);
    InOverlay(st1, st0.snap, i, k1);
    InOverlay(st1, st0.snap, i, k2);
  }

  lemma InOverlay(st: State, m: nat, i: nat, k: bytes)
    requires NotPruned(st, m) && i < |st.hist| && i !in st.failed && Touches(st.hist[i], k)
    ensures i in st.pending || i < m || k in st.overlay
  {
    hide Touches;
    assert i !in st.pending ==> Done(st, k, i);
  }

  // ---- A record's entries come and go together ----

  /** Record `i` is the latest finished write of the key. */
  ghost predicate Latest(st: State, k: bytes, i: nat) {
    Done(st, k, i) && forall j :: i < j ==> !Done(st, k, j)
  }

  /** Of a record's changes that no finished write has replaced, the overlay has all or none. */
  ghost predicate Together(st: State) {
    forall k1, k2, i :: Latest(st, k1, i) && Latest(st, k2, i) ==> (k1 in st.overlay <==> k2 in st.overlay)
  }

  /** The latest finished write is the one in the overlay, if any is. */
  lemma LatestInOverlay(st: State, k: bytes, i: nat)
    requires Inv(st) && Latest(st, k, i) && k in st.overlay
    ensures st.overlay[k].record == i
  {
    hide Exclusive, NothingMissing, Touches, Net;
    var r := st.overlay[k].record;
    assert Done(st, k, r) && forall j :: r < j ==> !Done(st, k, j);
  }

  lemma PruningEndsACut(st: State)
    ensures Step(st, Prune).Some? ==> st.cut.Some?
  {
  }

  lemma PruneLatest(st: State, st': State, k: bytes, i: nat)
    requires Inv(st) && st.cut.Some? && Step(st, Prune) == Some(st') && Latest(st', k, i)
    ensures Latest(st, k, i) && (k in st'.overlay <==> k in st.overlay && i >= st.cut.value)
  {
    hide Touches, Inv;
    assert forall j :: Done(st', k, j) <==> Done(st, k, j);
    if k in st.overlay {
      LatestInOverlay(st, k, i);
    }
  }

  lemma PruneTogether(st: State, st': State)
    requires Inv(st) && Together(st) && Step(st, Prune) == Some(st')
    ensures Together(st')
  {
    hide Latest, Inv, Step;
    PruningEndsACut(st);
    forall k1, k2, i | Latest(st', k1, i) && Latest(st', k2, i)
      ensures k1 in st'.overlay <==> k2 in st'.overlay
    {
      PruneLatest(st, st', k1, i);
      PruneLatest(st, st', k2, i);
    }
  }

  lemma PublishLatest(st: State, n: nat, st': State, k: bytes, i: nat)
    requires Inv(st) && Step(st, Publish(n)) == Some(st') && Latest(st', k, i)
    ensures if i == n then k in st'.overlay else Latest(st, k, i) && (k in st'.overlay <==> k in st.overlay)
  {
    hide Touches, Net, OverlayRight, NothingMissing;
    PublishDone(st, n, st');
    PublishKeys(st, n, st');
    if i != n {
      assert Done(st, k, i);
      if Touches(st.hist[n], k) {
        assert Done(st', k, n) && n < i;
        NoLater(st, n, i, k);
      }
      PublishOthers(st, n, st', k);
    }
  }

  lemma PublishOthers(st: State, n: nat, st': State, k: bytes)
    requires Step(st, Publish(n)) == Some(st') && !Touches(st.hist[n], k)
    ensures k in st'.overlay <==> k in st.overlay
  {
    hide Net;
  }

  lemma PublishTogether(st: State, n: nat, st': State)
    requires Inv(st) && Together(st) && Step(st, Publish(n)) == Some(st')
    ensures Together(st')
  {
    hide Latest, Inv, Step;
    forall k1, k2, i | Latest(st', k1, i) && Latest(st', k2, i)
      ensures k1 in st'.overlay <==> k2 in st'.overlay
    {
      PublishLatest(st, n, st', k1, i);
      PublishLatest(st, n, st', k2, i);
    }
  }

  lemma OthersTogether(st: State, ev: Event, st': State)
    requires Inv(st) && Together(st) && Step(st, ev) == Some(st') && !ev.Publish? && !ev.Prune?
    ensures Together(st')
  {
    hide Touches, Net, Exclusive, OverlayRight, NothingMissing;
    assert st'.overlay == st.overlay;
    assert forall k, j :: Done(st', k, j) <==> Done(st, k, j);
    assert forall k, i :: Latest(st', k, i) ==> Latest(st, k, i);
  }

  lemma {:induction false} RunTogether(st: State, evs: seq<Event>, st': State)
    requires Inv(st) && Together(st) && Reaches(st, evs, st')
    ensures Together(st')
    decreases |evs|
  {
    hide Inv, Together, Races;
    if evs != [] {
      var next := Step(st, evs[0]).value;
      StepKeeps(st, evs[0], next);
      if evs[0].Publish? {
        PublishTogether(st, evs[0].i, next);
      } else if evs[0].Prune? {
        PruneTogether(st, next);
      } else {
        OthersTogether(st, evs[0], next);
      }
      RunTogether(next, evs[1..], st');
    }
  }

  /** Every state an orderly run leads to from the empty database is like that. */
  lemma ReachableIsTogether(evs: seq<Event>, st: State)
    requires Reaches(START, evs, st)
    ensures Inv(st) && Together(st)
  {
    hide Inv, Reaches, Latest;
    StartsRight();
    assert Together(START) by { NothingLatest(); }
    RunKeeps(START, evs, st);
    RunTogether(START, evs, st);
  }

  lemma NothingLatest()
    ensures forall k, i :: !Latest(START, k, i)
  {
  }

  /**
   * Pruned together: in every state an orderly run leads to, a record's changes that no later
   * finished write replaced are all in the overlay, under that record's number, or none is.
   */
  lemma PrunedTogether(st0: State, evs: seq<Event>, st: State, i: nat, k1: bytes, k2: bytes)
    requires Inv(st0) && Together(st0) && Reaches(st0, evs, st) && Latest(st, k1, i) && Latest(st, k2, i)
    ensures k1 in st.overlay <==> k2 in st.overlay
    ensures k1 in st.overlay ==> st.overlay[k1].record == st.overlay[k2].record == i
  {
    hide Inv, Latest, Reaches;
    RunKeeps(st0, evs, st);
    RunTogether(st0, evs, st);
    if k1 in st.overlay {
      LatestInOverlay(st, k1, i);
      LatestInOverlay(st, k2, i);
    }
  }

  /** So a query shows a record whole, checkpoints or not, while no later write has replaced a change of it. */
  lemma QueryIsAtomicUntilReplaced(st0: State, evs: seq<Event>, st1: State, i: nat, k1: bytes, k2: bytes)
    requires Inv(st0) && Together(st0) && Reaches(st0, evs, st1) && Latest(st1, k1, i) && Latest(st1, k2, i)
    ensures QueryShows(st0, st1, k1, i) <==> QueryShows(st0, st1, k2, i)
  {
    hide Inv, Reaches, QueryShows, Touches, Net;
    RunKeeps(st0, evs, st1);
    PrunedTogether(st0, evs, st1, i, k1, k2);
    QueryShowsIs(st0, st1, i, k1);
    QueryShowsIs(st0, st1, i, k2);
  }

  /**
   * For a record that was finished when the query began, and a write that changes one of its keys
   * but not the other: some run makes the query show that one alone, exactly if the query's snapshot
   * does not hold the record.
   */
  lemma QueryCanTearIff(st0: State, i: nat, k1: bytes, k2: bytes, e: Entry)
    requires Inv(st0) && Done(st0, k1, i) && Done(st0, k2, i)
    requires Touches(e, k1) && !Touches(e, k2) && !Races(st0, Submit(e))
    ensures (exists evs, st1 :: Reaches(st0, evs, st1) && QueryShows(st0, st1, k1, i) && !QueryShows(st0, st1, k2, i))
            <==> i >= st0.snap
  {
    hide Reaches, Touches, Inv, QueryShows, Races;
    if i >= st0.snap {
      var evs, st1 := TornQuery(st0, i, k1, k2, e);
    } else {
      forall evs, st1 | Reaches(st0, evs, st1)
        ensures QueryShows(st0, st1, k2, i)
      {
        RunKeeps(st0, evs, st1);
        DoneStays(st0, evs, st1, k2, i) by { ReachesIsRun(st0, evs, st1); }
        QueryShowsIs(st0, st1, i, k2);
      }
    }
  }

  lemma ReachesIsRun(st: State, evs: seq<Event>, st': State)
    requires Reaches(st, evs, st')
    ensures Run(st, evs) == Some(st')
  {
  }

  /** A checkpoint is cut before the write and pruned after it: the overlay keeps the one key, the
      query's snapshot has neither. */
  lemma TornQuery(st0: State, i: nat, k1: bytes, k2: bytes, e: Entry) returns (evs: seq<Event>, st1: State)
    requires Inv(st0) && Done(st0, k1, i) && Done(st0, k2, i) && i >= st0.snap
    requires Touches(e, k1) && !Touches(e, k2) && !Races(st0, Submit(e))
    ensures Reaches(st0, evs, st1) && st1.hist == st0.hist + [e] && i !in st1.pending && i !in st1.failed
    ensures QueryShows(st0, st1, k1, i) && !QueryShows(st0, st1, k2, i)
    ensures !Shadowed(st1, k1, i) && !Shadowed(st1, k2, i)
  {
    hide *;
    var mid := RestOfCheckpoint(st0);
    SameRaces(st0, mid, e);
    RunKeeps(st0, Rest(st0), mid);
    var late;
    late, st1 := WriteInCheckpoint(mid, e);
    ReachesAppend(st0, Rest(st0), mid, late, st1);
    evs := Rest(st0) + late;
    TornShows(st0, mid, st1, i, k1, k2, e);
  }

  lemma SameRaces(a: State, b: State, e: Entry)
    requires a.hist == b.hist && a.pending == b.pending
    ensures Races(a, Submit(e)) <==> Races(b, Submit(e))
  {
  }

  lemma TornShows(st0: State, mid: State, st1: State, i: nat, k1: bytes, k2: bytes, e: Entry)
    requires Done(st0, k1, i) && Done(st0, k2, i) && i >= st0.snap && Touches(e, k1) && !Touches(e, k2)
    requires mid.hist == st0.hist && mid.pending == st0.pending && mid.failed == st0.failed
    requires st1.hist == mid.hist + [e] && st1.pending == mid.pending && st1.failed == mid.failed
    requires st1.overlay == Published(map[], |mid.hist|, Net(e.Flatten()))
    ensures i !in st1.pending && i !in st1.failed
    ensures QueryShows(st0, st1, k1, i) && !QueryShows(st0, st1, k2, i)
    ensures !Shadowed(st1, k1, i) && !Shadowed(st1, k2, i)
  {
    hide Net;
  }

  lemma WriteInCheckpoint(st: State, e: Entry) returns (evs: seq<Event>, st': State)
    requires Inv(st) && st.cut.None? && !Races(st, Submit(e))
    ensures Reaches(st, evs, st') && st'.hist == st.hist + [e]
    ensures st'.pending == st.pending && st'.failed == st.failed
    ensures st'.overlay == Published(map[], |st.hist|, Net(e.Flatten()))
  {
    hide Net, Races, Inv, Published, Pruned;
    var n := |st.hist|;
    var a := Step(st, Cut).value;
    RunOne(st, Cut);
    NothingRaces(st, [Cut]);
    SameRaces(st, a, e);
    var b := Step(a, Submit(e)).value;
    RunOne(a, Submit(e));
    OneEvent(a, Submit(e));
    NotYetPending(st);
    var c := Step(b, Publish(n)).value;
    var d := Step(c, Swap).value;
    st' := Step(d, Prune).value;
    RunThree(b, Publish(n), Swap, Prune);
    NothingRaces(b, [Publish(n), Swap, Prune]);
    ReachesAppend(st, [Cut], a, [Submit(e)], b);
    ReachesAppend(st, [Cut] + [Submit(e)], b, [Publish(n), Swap, Prune], st');
    evs := [Cut] + [Submit(e)] + [Publish(n), Swap, Prune];
    OnlyTheWriteLeft(st, e);
  }

  lemma NotYetPending(st: State)
    requires Inv(st)
    ensures |st.hist| !in st.pending && st.pending + {|st.hist|} - {|st.hist|} == st.pending
  {
    hide Exclusive, OverlayRight, NothingMissing;
  }

  lemma OnlyTheWriteLeft(st: State, e: Entry)
    requires Inv(st)
    ensures Pruned(Published(st.overlay, |st.hist|, Net(e.Flatten())), |st.hist|) ==
            Published(map[], |st.hist|, Net(e.Flatten()))
  {
    hide Exclusive, NothingMissing, Touches, Net;
    assert forall k :: k in st.overlay ==> Done(st, k, st.overlay[k].record);
  }

  /**
   * Two keys of one record, created together, a write that changes one of them, and a checkpoint in
   * between: a query shows the one and misses the other, which was written before it and never changed.
   */
  lemma QueryCanTearABatch(e: Entry, e2: Entry, k1: bytes, k2: bytes)
    returns (st0: State, evs: seq<Event>, st1: State)
    requires Touches(e, k1) && Touches(e, k2) && Touches(e2, k1) && !Touches(e2, k2)
    ensures Reaches(START, [Submit(e), Publish(0)], st0) && Reaches(st0, evs, st1) && st1.hist == [e, e2]
    ensures Done(st0, k1, 0) && Done(st0, k2, 0) && !Shadowed(st1, k1, 0) && !Shadowed(st1, k2, 0)
    ensures st0.snap == 0 && |st0.hist| == 1
    ensures QueryIn(st0, st1, k1) == ValueOf(Net(e2.Flatten())[k1]) && QueryIn(st0, st1, k2) == None
  {
    hide Run, Orderly, Inv, ValueAt, Races, Net;
    st0 := OneWrite(e);
    NothingPendingRaces(st0, e2);
    OneWriteReaches(e, st0);
    evs, st1 := WriteInCheckpoint(st0, e2);
    ValueAtStart(st0.hist, k2);
  }

  lemma NothingPendingRaces(st: State, e: Entry)
    requires st.pending == {}
    ensures !Races(st, Submit(e))
  {
  }

  lemma OneWriteReaches(e: Entry, st: State)
    requires Run(START, [Submit(e), Publish(0)]) == Some(st)
    ensures Reaches(START, [Submit(e), Publish(0)], st)
  {
    hide Net, Published;
    NothingPendingRaces(START, e);
    var s1 := Step(START, Submit(e)).value;
    OneEvent(s1, Publish(0));
    assert [Submit(e), Publish(0)][1..] == [Publish(0)];
  }

  // ---- Lookups one after the other ----

  /**
   * Once a lookup has shown one change of a record, a later lookup of another key shows the record's
   * change to it, or a newer one, exactly if the overlay does not hold an older one: for new keys, always.
   */
  lemma NextLookupShows(st0: State, evs: seq<Event>, st1: State, evs1: seq<Event>, st2: State,
                        evs2: seq<Event>, st3: State, i: nat, k1: bytes, k2: bytes)
    requires Inv(st0) && Reaches(st0, evs, st1) && Reaches(st1, evs1, st2) && Reaches(st2, evs2, st3)
    requires i < |st1.hist| && Touches(st1.hist[i], k1) && Touches(st1.hist[i], k2) && i !in st0.failed
    requires LookupShows(st0, st1, k1, i)
    ensures LookupShows(st2, st3, k2, i) <==> !Shadowed(st2, k2, i)
  {
    hide *;
    RunKeeps(st0, evs, st1);
    RunKeeps(st1, evs1, st2);
    RunKeeps(st2, evs2, st3);
    if k1 in st0.overlay {
      ShownByOverlay(st0, st1, i, k1, k2);
      DoneStays(st0, evs, st1, k2, i) by { ReachesIsRun(st0, evs, st1); }
      DoneStays(st1, evs1, st2, k2, i) by { ReachesIsRun(st1, evs1, st2); }
      DoneIsShown(st2, st3, i, k2);
    } else {
      ShownBySnapshot(st0, st1, st2, st3, i, k1, k2);
    }
  }

  lemma ShownByOverlay(st0: State, st1: State, i: nat, k1: bytes, k2: bytes)
    requires Inv(st0) && st0.hist <= st1.hist && i < |st1.hist| && i !in st0.failed
    requires Touches(st1.hist[i], k1) && Touches(st1.hist[i], k2)
    requires k1 in st0.overlay && LookupShows(st0, st1, k1, i)
    ensures Done(st0, k2, i)
  {
    hide Net, Touches, Exclusive, NothingMissing;
    var r := st0.overlay[k1].record;
    assert Done(st0, k1, r) && i <= r;
    if i in st0.pending {
      NoLater(st0, i, r, k1);
    }
  }

  lemma DoneIsShown(st2: State, st3: State, i: nat, k: bytes)
    requires Inv(st2) && Done(st2, k, i) && st2.snap <= st3.snap
    ensures LookupShows(st2, st3, k, i) && !Shadowed(st2, k, i)
  {
    hide Net, Touches, Exclusive;
  }

  lemma ShownBySnapshot(st0: State, st1: State, st2: State, st3: State, i: nat, k1: bytes, k2: bytes)
    requires k1 !in st0.overlay && LookupShows(st0, st1, k1, i) && st1.snap <= st2.snap <= st3.snap
    ensures LookupShows(st2, st3, k2, i) <==> !Shadowed(st2, k2, i)
  {
  }

  // ---- One moment ----

  /** A query with no step between its two reads: the overlay and the snapshot of one moment. */
  predicate Visible(st: State, k: bytes, i: nat) {
    Level(st, k) > i
  }

  lemma OneMoment(st: State, k: bytes, i: nat)
    ensures Visible(st, k, i) <==> QueryShows(st, st, k, i)
    ensures Reaches(st, [], st)
  {
  }

  /** At one moment both changes are visible or neither, exactly if, once the snapshot holds the
      record, older changes in the overlay hide both of them or neither. */
  lemma BatchIsAtomic(st: State, i: nat, k1: bytes, k2: bytes)
    requires Inv(st) && i < |st.hist| && i !in st.failed
    requires Touches(st.hist[i], k1) && Touches(st.hist[i], k2)
    ensures (Visible(st, k1, i) <==> Visible(st, k2, i)) <==>
            (i < st.snap ==> (Shadowed(st, k1, i) <==> Shadowed(st, k2, i)))
  {
    hide Inv, Touches, Visible, QueryShows, Reaches;
    OneMoment(st, k1, i);
    OneMoment(st, k2, i);
    QueryIsAtomicWithoutPruning(st, [], st, i, k1, k2);
  }

  /** So at one moment a record of new keys, with no older change in the overlay, shows whole or not at all. */
  lemma NewKeysAreAtomic(st: State, i: nat, k1: bytes, k2: bytes)
    requires Inv(st) && i < |st.hist| && i !in st.failed
    requires Touches(st.hist[i], k1) && Touches(st.hist[i], k2) && !Shadowed(st, k1, i) && !Shadowed(st, k2, i)
    ensures Visible(st, k1, i) <==> Visible(st, k2, i)
  {
    hide Inv, Touches, Visible;
    BatchIsAtomic(st, i, k1, k2);
  }

  lemma ValueAtStart(hist: seq<Entry>, k: bytes)
    ensures ValueAt(hist, 0, k) == None
  {
    assert hist[..0] == [];
  }
}
