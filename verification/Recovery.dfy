/**
 * The programs that walk the disk protocol: the sequencer's loop, a checkpoint and recovery. Each
 * disk change they make is one step of the protocol, so a crash between any two is covered by it.
 */
module Recovery {
  import opened Wrappers
  import opened Seqs
  import opened Entries
  import opened Generations
  import opened CrashProtocol

  lemma {:induction false} RunSnoc(s: State, evs: seq<Event>, mid: State, ev: Event)
    requires Run(s, evs) == Some(mid)
    ensures Run(s, evs + [ev]) == Step(mid, ev)
    ensures Tidy(s, evs) && !Buries(mid, ev) ==> Tidy(s, evs + [ev])
    decreases |evs|
  {
    hide Step, Buries;
    if evs == [] {
      assert [] + [ev] == [ev];
      assert Step(s, ev).Some? ==> Run(Step(s, ev).value, [ev][1..]) == Step(s, ev);
    } else {
      AppendTail(evs, [ev]);
      RunSnoc(Step(s, evs[0]).value, evs[1..], mid, ev);
    }
  }

  /** A request to append: an entry, and whether its payload is within the record limit. */
  datatype Request = Request(entry: Entry, fits: bool)

  predicate AllFit(batch: seq<Request>) {
    forall i :: 0 <= i < |batch| ==> batch[i].fits
  }

  /** The records a batch leaves in the log: those before the first refused one. */
  function Accepted(batch: seq<Request>, tx: nat): seq<LogEntry> {
    if batch == [] then []
    else
      var init := batch[..|batch| - 1];
      Accepted(init, tx) + if AllFit(batch) then [LogEntry(tx + |batch|, batch[|init|].entry)] else []
  }

  /** All requests before the n-th fit, and the n-th, if there is one, does not. */
  ghost predicate FirstRefused(batch: seq<Request>, n: nat)
    requires n <= |batch|
  {
    (forall i :: 0 <= i < n ==> batch[i].fits) && (n < |batch| ==> !batch[n].fits)
  }

  /** The first `n` entries of a batch, logged under the numbers that follow `tx`. */
  ghost predicate LogsUpTo(batch: seq<Request>, n: nat, tx: nat, logged: seq<LogEntry>)
    requires n <= |batch|
  {
    |logged| == n && forall i :: 0 <= i < n ==> logged[i] == LogEntry(tx + 1 + i, batch[i].entry)
  }

  /** Exactly the requests before the first refused one are accepted, under consecutive numbers. */
  lemma {:induction false} AcceptedIs(batch: seq<Request>, tx: nat) returns (n: nat)
    ensures n <= |batch| && FirstRefused(batch, n) && (AllFit(batch) <==> n == |batch|)
    ensures LogsUpTo(batch, n, tx, Accepted(batch, tx))
  {
    if batch == [] {
      return 0;
    }
    var init := batch[..|batch| - 1];
    n := AcceptedIs(init, tx);
    assert forall i :: 0 <= i < |init| ==> init[i] == batch[i];
    if AllFit(batch) {
      n := |batch|;
    }
  }

  lemma Behind<T>(a: seq<T>, b: seq<T>)
    ensures a <= a + b && (a + b)[|a|..] == b
  {
  }

  lemma AcceptedNext(batch: seq<Request>, i: nat, tx: nat, log: seq<LogEntry>)
    requires i < |batch|
    ensures AllFit(batch[..i + 1]) <==> AllFit(batch[..i]) && batch[i].fits
    ensures log + Accepted(batch[..i + 1], tx) ==
            if AllFit(batch[..i + 1]) then log + Accepted(batch[..i], tx) + [LogEntry(tx + i + 1, batch[i].entry)]
            else log + Accepted(batch[..i], tx)
  {
    assert batch[..i + 1][..i] == batch[..i] && batch[..i + 1][i] == batch[i];
    assert AllFit(batch[..i]) ==> forall j :: 0 <= j < i ==> batch[..i + 1][j] == batch[..i][j];
    assert AllFit(batch[..i + 1]) ==> forall j :: 0 <= j < i ==> batch[..i][j] == batch[..i + 1][j];
    Whole(Accepted(batch[..i], tx));
    Assoc(log, Accepted(batch[..i], tx), [LogEntry(tx + i + 1, batch[i].entry)]);
  }

  /** Nothing left over from a crash or a checkpoint: what a finished recovery leaves. */
  predicate Settled(d: Disk) {
    && d.current.Some? && d.applying.None? && d.wal.Some? && !d.torn
    && forall g :: g in d.gens ==> g <= d.current.value
  }

  class Database {
    var disk: Disk
    var nextTx: nat
    /** The protocol state, and the steps that led to it from an empty directory. */
    ghost var st: State
    ghost var trace: seq<Event>

    /** The fields are where the steps taken so far have led. */
    ghost predicate Tracked()
      reads this
    {
      && st.disk == disk && Run(Fresh(), trace) == Some(st)
      && (st.phase.Up? ==> st.phase.nextTx == nextTx)
    }

    /** No step so far has renamed the log over unfolded records, and so the invariant holds. */
    ghost predicate Sound()
      reads `st, `trace
    {
      Tidy(Fresh(), trace) && Inv(st)
    }

    ghost predicate Valid()
      reads this
    {
      Tracked() && Sound()
    }

    ghost predicate Idle()
      reads this
    {
      st.phase == Up(nextTx, Between, NoCheckpoint)
    }

    /** Ready for the next batch or checkpoint. */
    ghost predicate Open()
      reads this
    {
      Valid() && Idle()
    }

    constructor ()
      ensures Valid() && st == Fresh()
    {
      disk, nextTx := Fresh().disk, 0;
      st, trace := Fresh(), [];
    }

    /** Accounts for one step of the protocol, whose disk change has just been made. */
    ghost method Take(ev: Event)
      requires Run(Fresh(), trace) == Some(st) && Step(st, ev).Some? && Step(st, ev).value.disk == disk
      modifies `st, `trace
      ensures Run(Fresh(), trace) == Some(st) && (old(Sound()) && !Buries(old(st), ev) ==> Sound())
      ensures st == Step(old(st), ev).value && trace == old(trace) + [ev]
    {
      hide Inv, Step, Buries, Tidy;
      var next := Step(st, ev).value;
      RunSnoc(Fresh(), trace, st, ev);
      if Sound() && !Buries(st, ev) {
        StepKeeps(st, ev, next);
      }
      st, trace := next, trace + [ev];
    }

    /** Builds, publishes and switches to the generation after the current one. */
    method BuildGeneration(curGen: nat, newGen: nat, log: seq<LogEntry>) returns (folded: nat)
      requires Tracked() && disk.current == Some(curGen) && newGen == curGen + 1 && disk.applying == Some(log)
      requires disk.Opens() && (st.phase.Folding? || (st.phase.Up? && st.phase.ck.Rotated?))
      modifies this
      ensures Tracked() && (old(Sound()) ==> Sound()) && nextTx == old(nextTx) && st.hist == old(st.hist) && st.acked == old(st.acked)
      ensures disk.current == Some(newGen) && disk.Opens() && folded == disk.Active().applied
      ensures disk.applying == old(disk.applying) && disk.wal == old(disk.wal)
      ensures disk.gens == old(disk.gens)[newGen := Compact(old(disk.Active()), log)]
      ensures st.phase == if old(st.phase).Folding? then FoldSwitched else old(st.phase).(ck := Switched)
    {
      hide Inv, Merge, Net, Mutations, MaxTx, Tidy, Run, Buries, Step;
      OnlyRenamesBury();
      var base := disk.gens[curGen];
      var deltas, sorted, last := ParseDeltas(log, base.applied);
      folded := last;
      ghost var booting := st.phase.Folding?;
      disk := disk.(gens := disk.gens[newGen := Gen(Merge(base.db, deltas), last)]);
      Publishes(st);
      Take(if booting then FoldPublish else Publish);
      disk := disk.(current := Some(newGen));
      Switches(st);
      Take(if booting then FoldSwitch else Switch);
    }

    /**
     * Brings a directory to a state from which the engine can serve: whatever a crash left, the
     * recovered contents are the fold of the whole history, and numbering resumes above it. It
     * fails exactly when a crash interrupted the creation of the database before CURRENT existed.
     */
    method Recover() returns (r: Result<nat>)
      requires Valid() && st.phase.Down?
      modifies this
      ensures r.Err? <==> old(disk.current.None? && 0 in disk.gens)
      ensures r.Err? ==> Valid() && disk == old(disk) && st == old(st)
      ensures r.Ok? ==> Open() && r.value == nextTx == MaxTx(st.hist, 0)
      ensures r.Ok? ==> st.hist == old(st.hist) && st.acked == old(st.acked)
      ensures r.Ok? ==> disk.Opens() && Settled(disk) && (Settled(old(disk)) ==> disk == old(disk))
      ensures r.Ok? ==> Overlaid(disk.Active(), disk.wal.value) == GenOf(st.hist).db
      ensures old(disk.current).Some? ==> Reopened(old(disk), disk)
    {
      hide Inv, Tidy, Run, Buries, Step, KeepGens, GenOf, Overlaid, MaxTx, AtMost;
      OnlyRenamesBury();
      if disk.current.None? {
        if 0 in disk.gens {
          return Err;
        }
        InitFresh();
      } else {
        Boots(st);
        Take(Boot);
      }
      var curGen := disk.current.value;
      GenerationPresent(st);
      Removes(st);
      disk := disk.(gens := KeepGens(disk.gens, curGen, true, {}));
      OlderKept(st.disk.gens, curGen);
      Take(RemoveOrphans({}));
      if disk.applying.Some? {
        FinishCheckpoint(curGen);
      }
      ReplayLog();
      r := Ok(nextTx);
    }

    /** Creates the empty first generation, the empty log and, last, CURRENT. */
    method InitFresh()
      requires Valid() && st.phase.Down? && disk.current.None? && 0 !in disk.gens
      modifies this
      ensures Valid() && st.phase.Cleaning? && st.hist == old(st.hist) && st.acked == old(st.acked)
      ensures disk.current == Some(0) && disk.applying == old(disk.applying)
    {
      hide Inv, Tidy, Run, Buries, Step;
      OnlyRenamesBury();
      Boots(st);
      disk := disk.(gens := disk.gens[0 := EMPTY]);
      Take(Boot);
      Creates(st);
      disk := disk.(wal := Some(disk.Live()));
      Take(CreateLog);
      Creates(st);
      disk := disk.(current := Some(0));
      Take(CrashProtocol.WriteCurrent);
    }

    /** Completes the checkpoint that a crash interrupted after its rotation. */
    method FinishCheckpoint(curGen: nat)
      requires Valid() && st.phase.Folding? && disk.current == Some(curGen) && disk.applying.Some?
      modifies this
      requires forall g :: g in disk.gens ==> g <= curGen
      ensures Valid() && st.phase.Replaying? && st.hist == old(st.hist) && st.acked == old(st.acked)
      ensures disk.current == Some(curGen + 1) && disk.Opens() && disk.applying == None
      ensures forall g :: g in disk.gens ==> g <= curGen + 1
      ensures curGen in old(disk.gens)
      ensures disk.gens == old(disk.gens)[curGen + 1 := Compact(old(disk.gens)[curGen], old(disk.applying).value)]
    {
      hide Inv, Tidy, Run, Buries, Step;
      OnlyRenamesBury();
      GenerationPresent(st);
      var folded := BuildGeneration(curGen, curGen + 1, disk.applying.value);
      Drops(st);
      disk := disk.(applying := None);
      Take(FoldRemove);
    }

    /** Reads the live log to its durable end, cuts off what is torn and resumes numbering. */
    method ReplayLog()
      requires Valid() && st.phase.Replaying? && disk.Opens() && disk.applying == None
      modifies this
      ensures Open() && st.hist == old(st.hist) && st.acked == old(st.acked) && nextTx == MaxTx(st.hist, 0)
      ensures disk.Opens() && disk.wal.Some? && disk == old(disk).(wal := disk.wal, torn := false)
      ensures old(disk.wal).Some? ==> disk.wal == old(disk.wal)
      ensures Overlaid(disk.Active(), disk.wal.value) == GenOf(st.hist).db
    {
      hide Inv, Tidy, Run, Buries, Step, GenOf, Overlaid, MaxTx, AtMost;
      OnlyRenamesBury();
      var log, applied := disk.Live(), disk.Active().applied;
      var maxTx, i := 0, 0;
      LogEnds(log, 0);
      while i < |log|
        invariant 0 <= i <= |log| && maxTx == MaxTx(log[..i], 0)
        modifies {}
      {
        LogNext(log, i, 0);
        maxTx := if log[i].tx > maxTx then log[i].tx else maxTx;
        i := i + 1;
      }
      Replays(st);
      ResumesAt(st);
      disk := disk.(wal := Some(log), torn := false);
      nextTx := if maxTx > applied then maxTx else applied;
      Take(Replay);
      Resumes(st);
    }

    /**
     * One round of the sequencer: every request gets the next number; up to the first refused one
     * they are appended; one sync makes the batch durable, and only then is it answered OK.
     */
    method RunBatch(batch: seq<Request>) returns (txIDs: seq<nat>, ok: bool, ghost n: nat)
      requires Open() && batch != []
      modifies this
      ensures Open() && |txIDs| == |batch| && nextTx == old(nextTx) + |batch|
      ensures forall i :: 0 <= i < |batch| ==> txIDs[i] == old(nextTx) + 1 + i
      ensures n <= |batch| && FirstRefused(batch, n) && (ok <==> n == |batch|) && old(st.hist) <= st.hist
      ensures var logged := st.hist[|old(st.hist)|..];
              && LogsUpTo(batch, n, old(nextTx), logged)
              && disk == old(disk).(wal := Some(old(disk.Live()) + logged), synced := disk.synced)
      ensures st.acked == if ok then |st.hist| else old(st.acked)
      ensures disk.synced == if ok then |disk.Live()| else old(disk.synced)
    {
      hide Inv, Tidy, Run, Buries, Step, Accepted, AllFit, Sound, FirstRefused, LogsUpTo;
      txIDs, ok := AppendAll(batch);
      n := AcceptedIs(batch, old(nextTx));
      Behind(old(st.hist), Accepted(batch, old(nextTx)));
      Deliver(ok);
    }

    /** Every request gets a number; its entry is appended unless it or one before it is refused. */
    method AppendAll(batch: seq<Request>) returns (txIDs: seq<nat>, ok: bool)
      requires Open() && batch != []
      modifies this
      ensures Valid() && |txIDs| == |batch| && nextTx == old(nextTx) + |batch|
      ensures forall i :: 0 <= i < |batch| ==> txIDs[i] == old(nextTx) + 1 + i
      ensures ok <==> AllFit(batch)
      ensures st.hist == old(st.hist) + Accepted(batch, old(nextTx)) && st.acked == old(st.acked)
      ensures disk == old(disk).(wal := Some(old(disk.Live()) + Accepted(batch, old(nextTx))))
      ensures st.phase == Up(nextTx, Filling(|old(st.hist)|), NoCheckpoint)
    {
      hide Inv, Tidy, Run, Buries, Step, Accepted, AllFit, Sound;
      OnlyRenamesBury();
      SoundMeans(this);
      ServesCurrent(st);
      txIDs, ok := [], true;
      var i := 0;
      BatchStarts(batch, nextTx, st.hist);
      BatchStarts(batch, nextTx, disk.Live());
      while i < |batch|
        invariant 0 <= i <= |batch| && |txIDs| == i && Valid() && nextTx == old(nextTx) + i
        invariant forall j :: 0 <= j < i ==> txIDs[j] == old(nextTx) + 1 + j
        invariant ok <==> AllFit(batch[..i])
        invariant st.hist == old(st.hist) + Accepted(batch[..i], old(nextTx)) && st.acked == old(st.acked)
        invariant disk == old(disk).(wal := Some(old(disk.Live()) + Accepted(batch[..i], old(nextTx))))
        invariant st.phase == Up(nextTx, if i == 0 then Between else Filling(|old(st.hist)|), NoCheckpoint)
      {
        AcceptedNext(batch, i, old(nextTx), old(st.hist));
        AcceptedNext(batch, i, old(nextTx), old(disk.Live()));
        nextTx := nextTx + 1;
        txIDs := txIDs + [nextTx];
        ok := ok && batch[i].fits;
        Appends(st, batch[i].entry);
        if ok {
          disk := disk.(wal := Some(disk.Live() + [LogEntry(nextTx, batch[i].entry)]));
          Take(Event.Append(batch[i].entry));
        } else {
          Take(Burn);
        }
        i := i + 1;
      }
      Whole(batch);
    }

    /** One sync makes the batch durable, if nothing was refused, and then every request is answered. */
    method Deliver(ok: bool)
      requires Valid() && st.phase.Up? && st.phase.batch.Filling? && st.phase.ck.NoCheckpoint?
      modifies this
      ensures Open() && nextTx == old(nextTx) && st.hist == old(st.hist)
      ensures st.acked == if ok then |st.hist| else old(st.acked)
      ensures disk == old(disk).(synced := if ok then |disk.Live()| else old(disk.synced))
    {
      hide Inv, Tidy, Run, Buries, Step;
      OnlyRenamesBury();
      Answers(st);
      if ok {
        disk := disk.(synced := |disk.Live()|);
        Take(SyncLog);
        Answers(st);
        Take(Reply);
      } else {
        Take(ReplyError);
      }
    }

    /** The process or the machine stops; records not yet synced may be lost, the last one in part. */
    method Crash(kept: nat, torn: bool)
      requires Valid() && disk.synced <= kept <= |disk.Live()|
      modifies this
      ensures Valid() && st.phase.Down? && st.acked == old(st.acked)
      ensures st.hist <= old(st.hist) && |st.hist| == |old(st.hist)| - (|old(disk.Live())| - kept)
      ensures disk == old(disk).(wal := disk.wal, torn := disk.torn) && disk.Live() == old(disk.Live())[..kept]
    {
      hide Inv, Tidy, Run, Buries, Step;
      OnlyRenamesBury();
      Stops(st, kept, torn);
      var wal := if disk.wal.Some? then Some(disk.Live()[..kept]) else None;
      disk := disk.(wal := wal, torn := torn && wal.Some?);
      Take(Event.Crash(kept, torn));
    }

    /** doRotate: syncs the log, renames it aside and opens an empty one in its place. */
    method Rotate() returns (log: seq<LogEntry>)
      requires Tracked() && Idle()
      modifies this
      ensures Tracked() && (old(Sound()) && !old(Buries(st, RotateRename)) ==> Sound())
      ensures nextTx == old(nextTx) && st.hist == old(st.hist) && st.acked == old(st.acked)
      ensures st.phase == Up(nextTx, Between, Rotated) && disk.gens == old(disk.gens)
      ensures disk.applying == Some(log) && log == old(disk.Live()) && disk.wal == Some([]) && disk.current == old(disk.current)
    {
      hide Inv, Tidy, Run, Buries, Step;
      OnlyRenamesBury();
      disk := disk.(synced := |disk.Live()|);
      BuriesLess(st);
      Cuts(st);
      Take(RotateSync);
      Cuts(st);
      log := disk.Live();
      disk := disk.(applying := Some(log), wal := None, synced := 0);
      Take(RotateRename);
      Cuts(st);
      disk := disk.(wal := Some([]));
      Take(RotateOpen);
    }

    /**
     * Cuts the log, folds the cut part into the next generation and drops it. The new generation is
     * the old one with the live log folded in; that is the whole history unless the rotation renamed
     * over unfolded records, which are then in neither.
     */
    method Checkpoint() returns (newGen: nat, folded: nat)
      requires Tracked() && Idle() && disk.Opens()
      modifies this
      ensures Tracked() && Idle() && (old(Sound()) && !old(Buries(st, RotateRename)) ==> Open())
      ensures nextTx == old(nextTx) && st.hist == old(st.hist) && st.acked == old(st.acked)
      ensures disk.current == Some(newGen) && old(disk.current) == Some(newGen - 1) && disk.Opens()
      ensures disk.Active() == Compact(old(disk.Active()), old(disk.Live())) && folded == disk.Active().applied
      ensures old(Sound()) && !old(Buries(st, RotateRename)) ==> disk.Active() == GenOf(st.hist)
      ensures disk.applying == None && disk.wal == Some([])
      ensures forall g :: g in disk.gens <==> g == newGen || (g in old(disk.gens) && g > newGen)
    {
      hide Inv, Tidy, Run, Buries, GenOf, Compact;
      var curGen := disk.current.value;
      newGen := curGen + 1;
      var log := Rotate();
      folded := BuildGeneration(curGen, newGen, log);
      Retire(newGen);
      if Sound() {
        AllFolded(st);
      }
    }

    /** Drops the folded log, and the generations before the current one. */
    method Retire(newGen: nat)
      requires Tracked() && disk.current == Some(newGen) && disk.Opens() && st.phase == Up(nextTx, Between, Switched)
      modifies this
      ensures Tracked() && Idle() && (old(Sound()) ==> Sound()) && nextTx == old(nextTx) && st.hist == old(st.hist) && st.acked == old(st.acked)
      ensures disk.current == Some(newGen) && disk.Opens() && disk.Active() == old(disk.Active())
      ensures disk.applying == None && disk.wal == old(disk.wal)
      ensures forall g :: g in disk.gens <==> g in old(disk.gens) && g >= newGen
    {
      hide Inv, Tidy, Run, Buries, Step, KeepGens;
      OnlyRenamesBury();
      disk := disk.(applying := None);
      Drops(st);
      Take(DropRetired(true));
      Cleans(st);
      disk := disk.(gens := KeepGens(disk.gens, newGen, false, {}));
      Take(CleanUp({}));
    }
  }

  /** What recovery leaves of the data files: those up to CURRENT, and if a rotated log was left over, the
      next one, with that log folded in; CURRENT names the last of them. */
  ghost predicate Reopened(before: Disk, after: Disk)
    requires before.current.Some?
  {
    var cur := before.current.value;
    && (forall g :: g in before.gens && g <= cur ==> g in after.gens && after.gens[g] == before.gens[g])
    && (forall g :: g in after.gens ==> (g in before.gens && g <= cur) || (before.applying.Some? && g == cur + 1))
    && after.current == Some(if before.applying.Some? then cur + 1 else cur) && after.applying == None
    && (before.applying.Some? && before.Opens() ==>
          cur + 1 in after.gens && after.gens[cur + 1] == Compact(before.Active(), before.applying.value))
  }

  lemma OlderKept(gens: map<nat, Gen>, cur: nat)
    ensures forall g :: g in KeepGens(gens, cur, true, {}) <==> g in gens && g <= cur
    ensures forall g :: g in KeepGens(gens, cur, true, {}) ==> KeepGens(gens, cur, true, {})[g] == gens[g]
  {
  }

  lemma SoundMeans(db: Database)
    requires db.Sound()
    ensures Inv(db.st)
  {
  }

  lemma GenerationPresent(s: State)
    requires Inv(s) && s.disk.current.Some?
    ensures s.disk.Opens()
  {
    hide GenOf, Numbered, Splits, NextReady, Folded, AtMost;
  }

  lemma ServesCurrent(s: State)
    requires Inv(s) && s.phase.Up?
    ensures s.disk.Opens() && (s.phase.ck.NoCheckpoint? ==> s.disk.wal.Some?)
  {
    hide GenOf, Numbered, Splits, NextReady, Folded, AtMost;
  }

  lemma OnlyRenamesBury()
    ensures forall s: State, ev: Event :: !ev.RotateRename? ==> !Buries(s, ev)
  {
  }

  lemma BuriesLess(s: State)
    ensures forall s': State :: s'.disk == s.disk.(synced := s'.disk.synced) ==> (Buries(s', RotateRename) <==> Buries(s, RotateRename))
  {
    forall s': State | s'.disk == s.disk.(synced := s'.disk.synced)
      ensures Buries(s', RotateRename) <==> Buries(s, RotateRename)
    {
      assert s'.disk.Retired() == s.disk.Retired() && (s'.disk.Opens() <==> s.disk.Opens());
      assert s.disk.Opens() ==> s'.disk.Active() == s.disk.Active();
    }
  }

  /** What the protocol's steps are at the points of the programs that take them. */
  lemma Cuts(s: State)
    requires s.phase.Up? && s.phase.batch.Between?
    ensures var p, d := s.phase, s.disk;
            && (p.ck.NoCheckpoint? ==> Step(s, RotateSync) == Some(s.(disk := d.(synced := |d.Live()|), phase := p.(ck := LogSynced))))
            && (p.ck.LogSynced? ==>
                  var cut := d.(applying := Some(d.Live()), wal := None, synced := 0);
                  Step(s, RotateRename) == Some(s.(disk := cut, phase := p.(ck := LogRenamed))))
            && (p.ck.LogRenamed? ==> Step(s, RotateOpen) == Some(s.(disk := d.(wal := Some([])), phase := p.(ck := Rotated))))
  {
  }

  lemma Drops(s: State)
    ensures s.phase.Up? && s.phase.ck.Switched? ==>
              Step(s, DropRetired(true)) == Some(s.(disk := s.disk.(applying := None), phase := s.phase.(ck := Dropped)))
    ensures s.phase.FoldSwitched? ==> Step(s, FoldRemove) == Some(s.(disk := s.disk.(applying := None), phase := Replaying))
  {
  }

  lemma Cleans(s: State)
    requires s.phase.Up? && s.phase.ck.Dropped? && s.disk.Opens()
    ensures var d := s.disk.(gens := KeepGens(s.disk.gens, s.disk.current.value, false, {}));
            && Step(s, CleanUp({})) == Some(s.(disk := d, phase := s.phase.(ck := NoCheckpoint)))
            && d.Opens() && d.Active() == s.disk.Active()
            && forall g :: g in d.gens <==> g in s.disk.gens && g >= s.disk.current.value
  {
  }

  lemma Publishes(s: State)
    requires s.disk.Opens() && (s.phase.Folding? || (s.phase.Up? && s.phase.ck.Rotated?))
    ensures var s' := s.(disk := Publishing(s.disk), phase := if s.phase.Up? then s.phase.(ck := Published) else FoldPublished);
            Step(s, if s.phase.Folding? then FoldPublish else Publish) == Some(s')
  {
  }

  lemma Switches(s: State)
    requires s.disk.Opens() && (s.phase.FoldPublished? || (s.phase.Up? && s.phase.ck.Published?))
    ensures var s' := s.(disk := Switching(s.disk), phase := if s.phase.Up? then s.phase.(ck := Switched) else FoldSwitched);
            Step(s, if s.phase.FoldPublished? then FoldSwitch else Switch) == Some(s')
  {
  }

  lemma AllFolded(s: State)
    requires Inv(s) && s.phase.Up? && s.disk.applying == None && s.disk.wal == Some([])
    ensures s.disk.Opens() && s.disk.Active() == GenOf(s.hist)
  {
    hide GenOf, Numbered, NextReady, AtMost;
    Whole(s.hist);
  }

  lemma Boots(s: State)
    requires s.phase.Down? && (s.disk.current.None? ==> 0 !in s.disk.gens)
    ensures Step(s, Boot) == Some(
              if s.disk.current.Some? then s.(phase := Cleaning)
              else s.(disk := s.disk.(gens := s.disk.gens[0 := EMPTY]), phase := InitGen))
  {
  }

  lemma Creates(s: State)
    ensures s.phase.InitGen? ==> Step(s, CreateLog) == Some(s.(disk := s.disk.(wal := Some(s.disk.Live())), phase := InitLog))
    ensures s.phase.InitLog? ==> Step(s, WriteCurrent) == Some(s.(disk := s.disk.(current := Some(0)), phase := Cleaning))
  {
  }

  lemma Removes(s: State)
    requires s.phase.Cleaning? && s.disk.Opens()
    ensures var d := s.disk.(gens := KeepGens(s.disk.gens, s.disk.current.value, true, {}));
            && Step(s, RemoveOrphans({})) == Some(s.(disk := d, phase := if d.applying.Some? then Folding else Replaying))
            && d.Opens() && d.Active() == s.disk.Active() && (forall g :: g in d.gens ==> g <= s.disk.current.value)
            && (Settled(s.disk) ==> d == s.disk)
  {
  }

  lemma Replays(s: State)
    requires s.phase.Replaying? && s.disk.Opens()
    ensures var applied, seen := s.disk.Active().applied, MaxTx(s.disk.Live(), 0);
            Step(s, Replay) == Some(s.(disk := s.disk.(wal := Some(s.disk.Live()), torn := false),
              phase := Up(if seen > applied then seen else applied, Between, NoCheckpoint)))
  {
  }

  lemma ResumesAt(s: State)
    requires Inv(s) && s.phase.Replaying? && s.disk.Opens()
    ensures var applied, seen := s.disk.Active().applied, MaxTx(s.disk.Live(), 0);
            MaxTx(s.hist, 0) == if seen > applied then seen else applied
  {
    var a, w := s.hist[..Base(s)], s.disk.Live();
    hide MaxTx, Numbered, Fold, Mutations, AtMost, NextReady;
    Whole(a);
    MaxTxAppend(a, w, 0);
    MaxTxFloor(w, MaxTx(a, 0));
  }

  /** Where a replay has ended, the live log on top of the active generation is the whole history. */
  lemma Resumes(s: State)
    requires Inv(s) && s.phase.Up? && s.disk.applying == None
    ensures s.disk.Opens()
    ensures Overlaid(s.disk.Active(), s.disk.Live()) == GenOf(s.hist).db
  {
    hide GenOf, Numbered, Overlaid, AtMost, NextReady, Folded, Splits;
    RecoveredIsHistory(s);
  }

  lemma BatchStarts(batch: seq<Request>, tx: nat, log: seq<LogEntry>)
    ensures AllFit(batch[..0]) && log + Accepted(batch[..0], tx) == log
  {
    Whole(log);
  }

  lemma Appends(s: State, e: Entry)
    requires s.phase.Up? && s.phase.ck.NoCheckpoint? && !s.phase.batch.Flushed?
    ensures var start := if s.phase.batch.Filling? then s.phase.batch.start else |s.hist|;
            && Step(s, Append(e)) == Some(Appended(s, e, start))
            && Step(s, Burn) == Some(s.(phase := s.phase.(nextTx := s.phase.nextTx + 1, batch := Filling(start))))
  {
  }

  lemma Answers(s: State)
    requires s.phase.Up?
    ensures s.phase.batch.Filling? ==>
              && Step(s, SyncLog) == Some(s.(disk := s.disk.(synced := |s.disk.Live()|), phase := s.phase.(batch := Flushed(s.phase.batch.start))))
              && Step(s, ReplyError) == Some(s.(phase := s.phase.(batch := Between)))
    ensures s.phase.batch.Flushed? ==> Step(s, Reply) == Some(s.(phase := s.phase.(batch := Between), acked := |s.hist|))
  {
  }

  lemma Stops(s: State, kept: nat, torn: bool)
    requires Inv(s) && s.disk.synced <= kept <= |s.disk.Live()|
    ensures Step(s, Crash(kept, torn)) == Crashed(s, kept, torn) && Crashed(s, kept, torn).Some?
  {
    hide GenOf, Numbered, Splits, NextReady, Folded, AtMost;
  }
}
