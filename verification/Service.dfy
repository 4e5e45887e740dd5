/**
 * The engine over its own directory (engine.go, Open): what recovery leaves on disk is what the
 * engine opens, wherever the process died, and a checkpoint of both keeps them in step.
 */
module Service {
  import opened Wrappers
  import opened Seqs
  import opened Entries
  import opened Generations
  import opened Overlays
  import opened Reopening
  import opened CrashProtocol
  import opened Recovery
  import opened Schema
  import opened Engine

  // ---- A log that can be reopened, cut in two by a checkpoint ----

  /** The records in front folded into the generation, the contents stay what they were. */
  lemma FoldedContents(base: Gen, a: seq<LogEntry>, b: seq<LogEntry>)
    requires forall i :: 0 <= i < |b| ==> b[i].tx > MaxTx(a, base.applied)
    ensures Compact(base, a).db == Fold(base.db, Mutations(a, base.applied))
    ensures Overlaid(Compact(base, a), b) == Fold(base.db, Mutations(a + b, base.applied))
  {
    hide Fold, Mutations, Merge, Net;
    MergeIsFold(base.db, Mutations(a, base.applied));
    MutationsAppend(a, b, base.applied);
    FoldAppend(base.db, Mutations(a, base.applied), Mutations(b, base.applied));
    MutationsAbove(b, MaxTx(a, base.applied));
    MutationsAbove(b, base.applied);
  }

  lemma NamedParts(a: seq<LogEntry>, b: seq<LogEntry>)
    ensures LogNamed(a + b) <==> LogNamed(a) && LogNamed(b)
  {
    hide AllNamed, Entry.Flatten;
    assert forall i :: 0 <= i < |a| ==> (a + b)[i] == a[i];
    assert forall i :: 0 <= i < |b| ==> (a + b)[|a| + i] == b[i];
  }

  lemma IntactFolded(base: Gen, a: seq<LogEntry>, b: seq<LogEntry>)
    requires Intact(base, a) && forall i :: 0 <= i < |b| ==> b[i].tx > MaxTx(a, base.applied)
    ensures Intact(base, a + b) <==> Intact(Compact(base, a), b)
  {
    FoldedContents(base, a, b);
    NamedParts(a, b);
    hide Fold, Mutations, OnlyRows, ObjectsHaveClasses, LogNamed, Merge, Net;
  }

  /**
   * What a crash inside a checkpoint leaves opens like what was there before it: a log can be
   * reopened exactly if its front part can, and the rest can on top of the generation it is folded into.
   */
  lemma ReopenableFolded(base: Gen, a: seq<LogEntry>, b: seq<LogEntry>)
    requires forall i :: 0 <= i < |b| ==> b[i].tx > MaxTx(a, base.applied)
    ensures Reopenable(base, a + b) <==> Reopenable(base, a) && Reopenable(Compact(base, a), b)
  {
    hide Intact, Compact, MaxTx;
    var log := a + b;
    assert log[..|a|] == a;
    assert forall n :: 0 <= n <= |a| ==> log[..n] == a[..n];
    forall n | 0 <= n <= |b|
      ensures Intact(base, a) ==> (Intact(base, log[..|a| + n]) <==> Intact(Compact(base, a), b[..n]))
    {
      assert log[..|a| + n] == a + b[..n];
      if Intact(base, a) {
        IntactFolded(base, a, b[..n]);
      }
    }
    Whole(a);
    if Reopenable(base, a) && Reopenable(Compact(base, a), b) {
      forall n | 0 <= n <= |log|
        ensures Intact(base, log[..n])
      {
        if n > |a| {
          assert Intact(Compact(base, a), b[..n - |a|]);
        }
      }
    }
    if Reopenable(base, log) {
      CutReopenable(base, log, |a|);
    }
  }

  /** The same over a whole history, which starts from the empty generation. */
  lemma HistoryReopens(a: seq<LogEntry>, b: seq<LogEntry>)
    requires Numbered(a + b)
    ensures Reopenable(EMPTY, a + b) <==> Reopenable(EMPTY, a) && Reopenable(GenOf(a), b)
  {
    hide Reopenable, Numbered, MaxTx, Compact, GenOf;
    Whole(a);
    NumberedParts(a, b);
    CompactFollows([], a);
    EmptyGeneration();
    assert [] + a == a;
    ReopenableFolded(EMPTY, a, b);
  }

  lemma EmptyGeneration()
    ensures GenOf([]) == EMPTY && EMPTY.applied == 0
  {
  }

  // ---- Engine and directory in step ----

  /** The engine has opened what the directory holds, and both are ready for the next write. */
  ghost predicate Serves(e: Engine, db: Database)
    reads e, e.gen, db
  {
    && e.Valid() && db.Open() && db.disk.Opens() && db.disk.applying.None?
    && e.base == db.disk.Active() && e.log == db.disk.Live() && e.nextTx == db.nextTx
  }

  /** How the directory of a settled database splits its history. */
  lemma SettledParts(s: State) returns (a: seq<LogEntry>)
    requires Inv(s) && s.phase.Up? && s.disk.applying.None?
    ensures s.disk.Opens() && s.hist == a + s.disk.Live() && s.disk.Active() == GenOf(a) && Numbered(s.hist)
    ensures a == s.hist[..|s.hist| - |s.disk.Live()|]
  {
    hide GenOf, Numbered, AtMost, NextReady;
    a := s.hist[..Base(s)];
    Whole(a);
  }

  /** Whatever the engine has logged since, the history can be reopened. */
  lemma ServedHistory(e: Engine, db: Database, before: seq<LogEntry>)
    requires Serves(e, db) && db.st.hist == before + db.disk.Live() && Reopenable(EMPTY, before)
    ensures Reopenable(EMPTY, db.st.hist)
  {
    hide Inv, Reopenable, Run, Tidy, GenOf, Numbered, Engine.Valid;
    var a := SettledParts(db.st);
    SameFront(a, before, db.disk.Live());
    EngineReopens(e);
    HistoryReopens(a, db.disk.Live());
  }

  lemma SameFront(a: seq<LogEntry>, b: seq<LogEntry>, live: seq<LogEntry>)
    requires a + live == b + live
    ensures a == b
  {
    assert |a + live| == |b + live|;
    assert a == (a + live)[..|a|] && b == (b + live)[..|b|];
  }

  lemma EngineReopens(e: Engine)
    requires e.Valid()
    ensures Reopenable(e.base, e.log)
  {
  }

  lemma StartsFrom(s: State) returns (a: seq<LogEntry>)
    requires Inv(s) && s.phase.Up? && s.disk.applying.None? && Reopenable(EMPTY, s.hist)
    ensures s.disk.Opens() && s.hist == a + s.disk.Live() && s.disk.Active() == GenOf(a)
    ensures Reopenable(s.disk.Active(), s.disk.Live())
    ensures var applied, seen := s.disk.Active().applied, MaxTx(s.disk.Live(), 0);
            MaxTx(s.hist, 0) == if seen > applied then seen else applied
  {
    hide Inv, Reopenable, Numbered, MaxTx;
    a := SettledParts(s);
    HistoryReopens(a, s.disk.Live());
    MaxTxAppend(a, s.disk.Live(), 0);
    MaxTxFloor(s.disk.Live(), MaxTx(a, 0));
  }

  /**
   * Start-up, wherever the process died: if the history can be reopened, recovery leaves a
   * generation and a log that the engine opens, and it then stands for the whole history.
   */
  method Start(db: Database, fits: Entry -> bool) returns (r: Result<Engine>)
    requires db.Valid() && db.st.phase.Down? && Reopenable(EMPTY, db.st.hist)
    modifies db
    ensures r.Err? <==> old(db.disk.current.None? && 0 in db.disk.gens)
    ensures r.Ok? ==> fresh(r.value) && fresh(r.value.gen) && Serves(r.value, db) && db.st.hist == old(db.st.hist)
    ensures r.Ok? ==> r.value.Map() == Fold(map[], Mutations(db.st.hist, 0)) && r.value.fits == fits
  {
    hide Inv, Reopenable, Run, Tidy, GenOf, Numbered, MaxTx, Mutations, Fold, HighestSeen, Stored, Sound, View;
    var last := db.Recover();
    if last.Err? {
      return Err;
    }
    ghost var a := StartsFrom(db.st);
    var e := new Engine.Open(fits, db.disk.gens[db.disk.current.value], db.disk.wal.value);
    HistoryMap(db.st.hist);
    return Ok(e);
  }

  lemma HistoryMap(hist: seq<LogEntry>)
    ensures GenOf(hist).db == Fold(map[], Mutations(hist, 0))
    ensures forall g: Gen, live: seq<LogEntry> :: Overlaid(g, live) == Fold(g.db, Mutations(live, g.applied))
  {
  }

  /** A crash that loses an unsynced end of the log, and the next start. */
  method CrashAndStart(e: Engine, db: Database, kept: nat, torn: bool) returns (again: Result<Engine>)
    requires Serves(e, db) && Reopenable(EMPTY, db.st.hist) && db.disk.synced <= kept <= |db.disk.Live()|
    modifies db
    ensures again.Ok? && fresh(again.value) && Serves(again.value, db)
    ensures again.value.Map() == Fold(e.base.db, Mutations(e.log[..kept], e.base.applied))
    ensures Reopenable(EMPTY, db.st.hist)
  {
    hide Inv, Reopenable, Run, Tidy, GenOf, Numbered, MaxTx, Mutations, Fold, Engine.Valid, Overlaid;
    ghost var hist := db.st.hist;
    ghost var a := SettledParts(db.st);
    db.Crash(kept, torn);
    ghost var lost := |hist| - |db.st.hist|;
    Whole(hist);
    CutReopenable(EMPTY, hist, |db.st.hist|);
    assert db.st.hist == hist[..|db.st.hist|];
    CutNumbered(hist, |db.st.hist|);
    assert db.st.hist == a + e.log[..kept];
    OverlaidFollows(a, e.log[..kept]);
    HistoryMap(db.st.hist);
    again := Start(db, e.fits);
  }

  lemma CutNumbered(hist: seq<LogEntry>, n: nat)
    requires Numbered(hist) && n <= |hist|
    ensures Numbered(hist[..n])
  {
    assert hist[..n] + hist[n..] == hist;
    NumberedParts(hist[..n], hist[n..]);
  }

  /** A checkpoint of both keeps them in step, and the map. */
  method CheckpointBoth(e: Engine, db: Database)
    requires Serves(e, db)
    modifies e, db
    ensures Serves(e, db) && e.Map() == old(e.Map()) && db.st.hist == old(db.st.hist)
    ensures e.gen == old(e.gen) && e.log == [] && e.base == GenOf(db.st.hist)
  {
    hide Inv, Reopenable, Run, Tidy, GenOf, Numbered, Compact, Engine.Valid, Engine.Map;
    ghost var a := SettledParts(db.st);
    CompactFollows(a, e.log);
    NothingBuried(db.st);
    var newGen, folded := db.Checkpoint();
    e.Checkpoint();
  }

  lemma NothingBuried(s: State)
    requires s.disk.applying.None?
    ensures !Buries(s, RotateRename)
  {
  }
}
