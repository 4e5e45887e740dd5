/** Where the disk protocol falls short of its documentation, each with the exact condition. */
module Failures {
  import opened Wrappers
  import opened Entries
  import opened Generations
  import opened CrashProtocol
  import opened Recovery

  lemma {:induction false} MutationsMiddle(a: seq<LogEntry>, r: seq<LogEntry>, w: seq<LogEntry>)
    requires Numbered(a + r + w)
    ensures Numbered(a + w)
  {
    var h := a + r + w;
    assert forall i :: 0 <= i < |a| ==> a[i] == h[i];
    assert forall i :: 0 <= i < |w| ==> w[i] == h[|a| + |r| + i];
  }

  lemma Unfolded(s: State)
    requires Layout(s) && Buries(s, RotateRename)
    ensures s.disk.Active() == GenOf(s.hist[..Base(s)])
    ensures s.disk.Active().applied < MaxTx(s.hist[..Base(s)] + s.disk.Retired(), 0)
  {
    hide MaxTx, Numbered, Fold, Mutations, GenOf, Splits;
    var a, r := s.hist[..Base(s)], s.disk.Retired();
    var i :| 0 <= i < |r| && r[i].tx > s.disk.Active().applied;
    AtMostHighest(a, r, i);
    GenOfApplied(a + r);
  }

  lemma AtMostHighest(a: seq<LogEntry>, r: seq<LogEntry>, i: nat)
    requires i < |r|
    ensures r[i].tx <= MaxTx(a + r, 0)
  {
    MaxTxBounds(a + r, 0);
    hide MaxTx;
    assert r[i] == (a + r)[|a| + i];
  }

  lemma GenOfApplied(log: seq<LogEntry>)
    ensures GenOf(log).applied == MaxTx(log, 0)
  {
  }

  /** The disk after a rotation, and what recovery will make of it. */
  lemma RenamedOver(s: State, s': State)
    requires s.phase.Up? && Serving(s) && Buries(s, RotateRename) && Step(s, RotateRename) == Some(s')
    ensures s'.disk == s.disk.(applying := Some(s.disk.Live()), wal := None, synced := 0)
    ensures s'.hist == s.hist && s'.acked == s.acked && s'.phase.Up? && s'.disk.Opens()
    ensures s'.disk.Active() == s.disk.Active() && Recovered(s'.disk) == Compact(s.disk.Active(), s.disk.Live()).db
  {
    hide MaxTx, Numbered, Fold, Mutations, Compact, GenOf, Splits, NextReady, AtMost, Overlaid;
    OverlaidEmpty(Compact(s.disk.Active(), s.disk.Live()));
  }

  lemma RecoversWithout(s: State)
    requires Layout(s) && s.disk.Active() == GenOf(s.hist[..Base(s)])
    ensures Compact(s.disk.Active(), s.disk.Live()).db == Fold(map[], Mutations(s.hist[..Base(s)] + s.disk.Live(), 0))
  {
    var a, r, w := s.hist[..Base(s)], s.disk.Retired(), s.disk.Live();
    MutationsMiddle(a, r, w);
    CompactFollows(a, w);
    hide MaxTx, Numbered, Fold, Mutations, Compact;
  }

  lemma NoLayout(s: State, s': State)
    requires Layout(s) && s'.hist == s.hist && s'.disk.Opens() && s'.disk.Active() == s.disk.Active()
    requires s.disk.Active().applied < MaxTx(s.hist[..Base(s)] + s.disk.Retired(), 0)
    requires s'.disk == s.disk.(applying := Some(s.disk.Live()), wal := None, synced := 0)
    ensures !Layout(s')
  {
    var a, r, w := s.hist[..Base(s)], s.disk.Retired(), s.disk.Live();
    Absorb(s.hist, Base(s), r, w);
    LaterApplied(a + r, w);
    hide MaxTx, Numbered, Fold, Mutations, Splits;
  }

  /**
   * A checkpoint that gave up after its rotation leaves its segment behind. The next rotation
   * renames over it, and from then on the disk recovers to the history without those records. So
   * rotating keeps the invariant if and only if the segment it renames over is already folded.
   */
  lemma BuriedRecordsAreLost(s: State, s': State)
    requires s.phase.Up? && Serving(s) && Buries(s, RotateRename) && Step(s, RotateRename) == Some(s')
    ensures s'.hist == s.hist && s'.acked == s.acked && s'.disk.Opens() && !Inv(s')
    ensures Recovered(s'.disk) == Fold(map[], Mutations(s.hist[..Base(s)] + s.disk.Live(), 0))
  {
    hide Layout, Buries, NextReady, AtMost, Fold, Mutations, MaxTx, GenOf, Recovered, Compact, Step;
    Unfolded(s);
    RenamedOver(s, s');
    RecoversWithout(s);
    NoLayout(s, s');
  }

  lemma OverlaidEmpty(g: Gen)
    ensures Overlaid(g, []) == g.db
  {
  }

  lemma LaterApplied(a: seq<LogEntry>, w: seq<LogEntry>)
    ensures GenOf(a + w).applied >= GenOf(a).applied == MaxTx(a, 0)
  {
    MaxTxAppend(a, w, 0);
  }

  // ---- Witness runs ----

  lemma Extend(evs: seq<Event>, s: State, ev: Event) returns (evs': seq<Event>, s': State)
    requires Run(Fresh(), evs) == Some(s) && Step(s, ev).Some?
    ensures s' == Step(s, ev).value && Run(Fresh(), evs') == Some(s')
  {
    evs', s' := evs + [ev], Step(s, ev).value;
    RunSnoc(Fresh(), evs, s, ev);
  }

  function FirstEntry(): Entry { Entry(CreateClass, [], [65], 0, [], []) }

  function FirstLog(): seq<LogEntry> { [LogEntry(1, FirstEntry())] }

  lemma Created() returns (evs: seq<Event>, s: State)
    ensures Run(Fresh(), evs) == Some(s)
    ensures s == State(Disk(Some(0), map[0 := EMPTY], None, Some([]), 0, false), Cleaning, [], 0)
  {
    evs, s := [], Fresh();
    Boots(s);
    hide Step;
    evs, s := Extend(evs, s, Boot);
    Creates(s);
    evs, s := Extend(evs, s, CreateLog);
    Creates(s);
    evs, s := Extend(evs, s, WriteCurrent);
    assert s.disk.gens == map[0 := EMPTY];
  }

  lemma Opened() returns (evs: seq<Event>, s: State)
    ensures Run(Fresh(), evs) == Some(s)
    ensures s == State(Disk(Some(0), map[0 := EMPTY], None, Some([]), 0, false), Up(0, Between, NoCheckpoint), [], 0)
  {
    evs, s := Created();
    hide Step, KeepGens;
    assert Settled(s.disk);
    Removes(s);
    evs, s := Extend(evs, s, RemoveOrphans({}));
    Replays(s);
    evs, s := Extend(evs, s, Replay);
  }

  lemma OneAcknowledged() returns (evs: seq<Event>, s: State)
    ensures Run(Fresh(), evs) == Some(s)
    ensures s == State(Disk(Some(0), map[0 := EMPTY], None, Some(FirstLog()), 1, false), Up(1, Between, NoCheckpoint), FirstLog(), 1)
  {
    evs, s := Opened();
    hide Step;
    Appends(s, FirstEntry());
    assert [] + [LogEntry(1, FirstEntry())] == FirstLog();
    evs, s := Extend(evs, s, Append(FirstEntry()));
    Answers(s);
    evs, s := Extend(evs, s, SyncLog);
    Answers(s);
    evs, s := Extend(evs, s, Reply);
  }

  /** An acknowledged record is gone after one failed checkpoint and the rotation of the next. */
  lemma AcknowledgedRecordCanBeLost() returns (evs: seq<Event>, s: State)
    ensures Run(Fresh(), evs) == Some(s) && s.acked == |s.hist| == 1 && s.disk.Opens()
    ensures Recovered(s.disk) == map[] && Fold(map[], Mutations(s.hist, 0)) != map[]
  {
    evs, s := OneAcknowledged();
    hide Step;
    Cuts(s);
    evs, s := Extend(evs, s, RotateSync);
    Cuts(s);
    evs, s := Extend(evs, s, RotateRename);
    Cuts(s);
    evs, s := Extend(evs, s, RotateOpen);
    GivesUp(s);
    evs, s := Extend(evs, s, GiveUp);
    Cuts(s);
    evs, s := Extend(evs, s, RotateSync);
    Cuts(s);
    evs, s := Extend(evs, s, RotateRename);
    RecoversEmpty(s.disk);
    FirstLogMeans();
  }

  lemma GivesUp(s: State)
    requires s.phase.Up? && s.phase.ck.Rotated?
    ensures Step(s, GiveUp) == Some(s.(phase := s.phase.(ck := NoCheckpoint)))
  {
  }

  lemma RecoversEmpty(d: Disk)
    requires d.Opens() && d.Active() == EMPTY && d.applying == Some([]) && d.wal == None
    ensures Recovered(d) == map[]
  {
  }

  lemma FirstLogMeans()
    ensures Fold(map[], Mutations(FirstLog(), 0)) != map[]
  {
    var e := FirstEntry();
    assert FirstLog()[..0] == [] && e.Flatten() == [e] && [e][..0] == [];
    assert Mutations(FirstLog(), 0) == [e];
    assert e.Key() in Effect(map[], e);
  }

  /**
   * A crash while a database is being created, between its first data file and CURRENT, leaves a
   * directory that no later boot can open: nothing but another crash is possible from there.
   */
  lemma InterruptedCreationNeverOpens() returns (evs: seq<Event>, s: State)
    ensures Run(Fresh(), evs) == Some(s) && s.phase.Down? && s.disk.current.None? && 0 in s.disk.gens
    ensures forall ev: Event :: !ev.Crash? ==> Step(s, ev).None?
    ensures forall kept, torn :: Crashed(s, kept, torn).Some? ==> Crashed(s, kept, torn).value.disk.gens == s.disk.gens
  {
    evs, s := [], Fresh();
    evs, s := Extend(evs, s, Boot);
    evs, s := Extend(evs, s, Crash(0, false));
  }
}
