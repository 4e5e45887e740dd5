/**
 * The engine's disk protocol: appending, syncing and acknowledging records (wal/sequencer.go),
 * checkpoints (checkpoint.go, Run and BuildGeneration) and recovery (recovery.go), one disk change
 * at a time, with a crash possible between any two of them.
 */
module CrashProtocol {
  import opened Wrappers
  import opened Seqs
  import opened Entries
  import opened Generations

  /** What a crash leaves. Temporary files have no effect and are not kept. */
  datatype Disk = Disk(
    current: Option<nat>,            // CURRENT
    gens: map<nat, Gen>,             // published data files
    applying: Option<seq<LogEntry>>, // wal.applying.log
    wal: Option<seq<LogEntry>>,      // the whole records of wal.log
    synced: nat,                     // how many of them are known to be on disk
    torn: bool)                      // part of a record behind them
  {
    function Retired(): seq<LogEntry> { if applying.Some? then applying.value else [] }

    function Live(): seq<LogEntry> { if wal.Some? then wal.value else [] }

    predicate Opens() { current.Some? && current.value in gens }

    function Active(): Gen
      requires Opens()
    {
      gens[current.value]
    }
  }

  /** The sequencer's position in its loop: the records of a batch start at `start` of the history. */
  datatype Batch = Between | Filling(start: nat) | Flushed(start: nat)

  /** How far the running checkpoint has come. */
  datatype Checkpoint = NoCheckpoint | LogSynced | LogRenamed | Rotated | Published | Switched | Dropped

  datatype Phase =
    | Down
    | InitGen | InitLog                            // a new database, before CURRENT exists
    | Cleaning                                     // CURRENT read
    | Folding | FoldPublished | FoldSwitched       // completing an interrupted checkpoint
    | Replaying                                    // the live log is next
    | Up(nextTx: nat, batch: Batch, ck: Checkpoint)

  /** `hist` is every record of the database so far, `acked` how many of them cover all OK replies. */
  datatype State = State(disk: Disk, phase: Phase, hist: seq<LogEntry>, acked: nat)

  datatype Event =
    | Boot | CreateLog | WriteCurrent | RemoveOrphans(keep: set<nat>)
    | FoldPublish | FoldSwitch | FoldRemove | Replay
    | Append(entry: Entry) | Burn | SyncLog | Reply | ReplyError
    | RotateSync | RotateRename | RotateOpen | RotateUndo
    | Publish | Switch | DropRetired(removed: bool) | CleanUp(keep: set<nat>) | GiveUp
    | Crash(kept: nat, torn: bool)

  const EMPTY := Gen(map[], 0)

  function Fresh(): State {
    State(Disk(None, map[], None, None, 0, false), Down, [], 0)
  }

  function KeepGens(gens: map<nat, Gen>, always: nat, older: bool, keep: set<nat>): map<nat, Gen> {
    map g | g in gens && ((if older then g <= always else g >= always) || g in keep) :: gens[g]
  }

  // ---- The steps ----

  function BootStep(s: State, ev: Event): Option<State> {
    var d := s.disk;
    match (ev, s.phase)
    case (Boot, Down) =>
      if d.current.Some? then Some(s.(phase := Cleaning))
      else if 0 in d.gens then None // page.Create refuses an existing file
      else Some(s.(disk := d.(gens := d.gens[0 := EMPTY]), phase := InitGen))
    case (CreateLog, InitGen) => Some(s.(disk := d.(wal := Some(d.Live())), phase := InitLog))
    case (WriteCurrent, InitLog) => Some(s.(disk := d.(current := Some(0)), phase := Cleaning))
    case (RemoveOrphans(keep), Cleaning) =>
      if !d.Opens() then None
      else Some(s.(disk := d.(gens := KeepGens(d.gens, d.current.value, true, keep)),
                   phase := if d.applying.Some? then Folding else Replaying))
    case (FoldPublish, Folding) => if d.Opens() then Some(s.(disk := Publishing(d), phase := FoldPublished)) else None
    case (FoldSwitch, FoldPublished) => if d.Opens() then Some(s.(disk := Switching(d), phase := FoldSwitched)) else None
    case (FoldRemove, FoldSwitched) => Some(s.(disk := d.(applying := None), phase := Replaying))
    case (Replay, Replaying) =>
      if !d.Opens() then None
      else
        var applied, seen := d.Active().applied, MaxTx(d.Live(), 0);
        Some(s.(disk := d.(wal := Some(d.Live()), torn := false),
                phase := Up(if seen > applied then seen else applied, Between, NoCheckpoint)))
    case _ => None
  }

  function Publishing(d: Disk): Disk
    requires d.Opens()
  {
    d.(gens := d.gens[d.current.value + 1 := Compact(d.Active(), d.Retired())])
  }

  function Switching(d: Disk): Disk
    requires d.Opens()
  {
    d.(current := Some(d.current.value + 1))
  }

  /** One record more in the live log, under the next number. */
  function Appended(s: State, e: Entry, start: nat): State
    requires s.phase.Up?
  {
    var r := LogEntry(s.phase.nextTx + 1, e);
    s.(disk := s.disk.(wal := Some(s.disk.Live() + [r])),
       phase := s.phase.(nextTx := s.phase.nextTx + 1, batch := Filling(start)),
       hist := s.hist + [r])
  }

  /**
   * The sequencer's goroutine: a batch is appended, synced once and answered; it rotates only
   * between batches. A refused append uses up a number, and fails its whole batch.
   */
  function BatchStep(s: State, ev: Event): Option<State>
    requires s.phase.Up?
  {
    var p := s.phase;
    match (ev, p.batch)
    case (Append(e), Between) => if p.ck.LogSynced? || p.ck.LogRenamed? then None else Some(Appended(s, e, |s.hist|))
    case (Append(e), Filling(start)) => Some(Appended(s, e, start))
    case (Burn, Between) =>
      if p.ck.LogSynced? || p.ck.LogRenamed? then None
      else Some(s.(phase := p.(nextTx := p.nextTx + 1, batch := Filling(|s.hist|))))
    case (Burn, Filling(_)) => Some(s.(phase := p.(nextTx := p.nextTx + 1)))
    case (SyncLog, Filling(start)) =>
      Some(s.(disk := s.disk.(synced := |s.disk.Live()|), phase := p.(batch := Flushed(start))))
    case (Reply, Flushed(_)) => Some(s.(phase := p.(batch := Between), acked := |s.hist|))
    case (ReplyError, Filling(_)) => Some(s.(phase := p.(batch := Between)))
    case _ => None
  }

  /** Run: cut the log, build and publish the next generation, switch, drop what is folded. */
  function CheckpointStep(s: State, ev: Event): Option<State>
    requires s.phase.Up?
  {
    var d, p := s.disk, s.phase;
    match (ev, p.ck)
    case (RotateSync, NoCheckpoint) =>
      if p.batch.Between? then Some(s.(disk := d.(synced := |d.Live()|), phase := p.(ck := LogSynced))) else None
    case (RotateRename, LogSynced) =>
      Some(s.(disk := d.(applying := Some(d.Live()), wal := None, synced := 0), phase := p.(ck := LogRenamed)))
    case (RotateOpen, LogRenamed) => Some(s.(disk := d.(wal := Some([])), phase := p.(ck := Rotated)))
    case (RotateUndo, LogRenamed) =>
      Some(s.(disk := d.(wal := Some(d.Retired()), applying := None, synced := |d.Retired()|), phase := p.(ck := NoCheckpoint)))
    case (Publish, Rotated) => if d.Opens() then Some(s.(disk := Publishing(d), phase := p.(ck := Published))) else None
    case (Switch, Published) => if d.Opens() then Some(s.(disk := Switching(d), phase := p.(ck := Switched))) else None
    case (DropRetired(removed), Switched) =>
      Some(s.(disk := if removed then d.(applying := None) else d, phase := p.(ck := Dropped)))
    case (CleanUp(keep), Dropped) =>
      if d.current.None? then None
      else Some(s.(disk := d.(gens := KeepGens(d.gens, d.current.value, false, keep)), phase := p.(ck := NoCheckpoint)))
    case (GiveUp, _) =>
      if p.ck.Rotated? || p.ck.Published? || p.ck.Switched? then Some(s.(phase := p.(ck := NoCheckpoint))) else None
    case _ => None
  }

  /** The process dies: any unsynced end of the live log is gone, perhaps in the middle of a record. */
  function Crashed(s: State, kept: nat, torn: bool): Option<State> {
    var live := s.disk.Live();
    var lost := |live| - kept;
    if s.disk.synced <= kept <= |live| && lost <= |s.hist| then
      var wal := if s.disk.wal.Some? then Some(live[..kept]) else None;
      Some(State(s.disk.(wal := wal, torn := torn && wal.Some?), Down, s.hist[..|s.hist| - lost], s.acked))
    else None
  }

  function Step(s: State, ev: Event): Option<State> {
    if ev.Crash? then Crashed(s, ev.kept, ev.torn)
    else if !s.phase.Up? then BootStep(s, ev)
    else if BatchStep(s, ev).Some? then BatchStep(s, ev)
    else CheckpointStep(s, ev)
  }

  // ---- What every step keeps ----

  /** How many records at the start of the history are in neither log segment any more. */
  function Base(s: State): int {
    |s.hist| - |s.disk.Live()| - |s.disk.Retired()|
  }

  ghost predicate Splits(hist: seq<LogEntry>, b: nat, retired: seq<LogEntry>, live: seq<LogEntry>) {
    b <= |hist| && hist == hist[..b] + retired + live
  }

  /** The active generation is the history before the log segments, with or without the retired one. */
  ghost predicate Layout(s: State) {
    var d, b := s.disk, Base(s);
    && b >= 0 && d.Opens() && Numbered(s.hist)
    && Splits(s.hist, b, d.Retired(), d.Live())
    && (d.Active() == GenOf(s.hist[..b]) || Folded(s))
    && d.synced <= |d.Live()|
    && s.acked <= |s.hist| - |d.Live()| + d.synced
  }

  ghost predicate Folded(s: State)
    requires Base(s) >= 0 && s.disk.Opens()
  {
    s.disk.Active() == GenOf(s.hist[..Base(s)] + s.disk.Retired())
  }

  /** The generation after the active one is complete. */
  ghost predicate NextReady(s: State)
    requires Base(s) >= 0 && s.disk.Opens()
  {
    var next := s.disk.current.value + 1;
    next in s.disk.gens && s.disk.gens[next] == GenOf(s.hist[..Base(s)] + s.disk.Retired())
  }

  /** Nothing but an empty first generation and an empty log can be there before CURRENT is. */
  ghost predicate NewDatabase(s: State) {
    && s.disk.current.None? && s.hist == [] && s.acked == 0
    && s.disk.applying.None? && s.disk.Live() == [] && s.disk.synced == 0
    && (s.phase.Down? || ((s.phase.InitGen? || s.phase.InitLog?) && 0 in s.disk.gens && s.disk.gens[0] == EMPTY))
  }

  ghost predicate Booting(s: State) {
    && Layout(s) && !s.phase.InitGen? && !s.phase.InitLog?
    && (s.phase.Folding? || s.phase.FoldPublished? || s.phase.FoldSwitched? ==> s.disk.applying.Some?)
    && (s.phase.FoldPublished? ==> NextReady(s))
    && (s.phase.FoldSwitched? ==> Folded(s))
    && (s.phase.Replaying? ==> s.disk.applying.None?)
  }

  ghost predicate Serving(s: State)
    requires s.phase.Up?
  {
    var p, d := s.phase, s.disk;
    && Layout(s) && !d.torn
    && AtMost(s.hist, p.nextTx)
    && (d.wal.None? <==> p.ck.LogRenamed?)
    && (!p.batch.Between? ==> |s.hist| - |d.Live()| <= p.batch.start <= |s.hist|)
    && (p.batch.Flushed? ==> d.synced == |d.Live()|)
    && (p.ck.LogSynced? ==> d.synced == |d.Live()| && p.batch.Between?)
    && (p.ck.LogRenamed? ==> p.batch.Between? && d.applying.Some? && d.Active() == GenOf(s.hist[..Base(s)]))
    && (p.ck.Rotated? || p.ck.Published? || p.ck.Switched? ==> d.applying.Some?)
    && (p.ck.Published? ==> NextReady(s))
    && (p.ck.Switched? ==> Folded(s))
  }

  ghost predicate Inv(s: State) {
    NewDatabase(s) || (if s.phase.Up? then Serving(s) else Booting(s))
  }

  // ---- When a rotation would bury records ----

  /** Renaming the live log over a retired segment whose records are not in the active generation. */
  predicate Buries(s: State, ev: Event) {
    && ev.RotateRename? && s.disk.Opens()
    && exists i :: 0 <= i < |s.disk.Retired()| && s.disk.Retired()[i].tx > s.disk.Active().applied
  }

  // ---- Each kind of disk change keeps the layout ----

  lemma SameLayout(s: State, s': State)
    requires Layout(s) && s'.hist == s.hist && s'.acked == s.acked
    requires s'.disk.current == s.disk.current && s'.disk.applying == s.disk.applying && s'.disk.Live() == s.disk.Live()
    requires s'.disk.Opens() && s'.disk.Active() == s.disk.Active() && s.disk.synced <= s'.disk.synced <= |s.disk.Live()|
    ensures Layout(s') && Base(s') == Base(s) && (Folded(s) ==> Folded(s'))
  {
    hide GenOf, Numbered;
  }

  lemma KeptGens(s: State, s': State, older: bool, keep: set<nat>)
    requires Layout(s) && s'.hist == s.hist && s'.acked == s.acked
    requires s'.disk == s.disk.(gens := KeepGens(s.disk.gens, s.disk.current.value, older, keep))
    ensures Layout(s')
  {
    hide GenOf, Numbered;
    SameLayout(s, s');
  }

  /** Building the next generation from an unfolded or an already folded segment gives the same. */
  lemma Built(s: State)
    requires Layout(s)
    ensures Compact(s.disk.Active(), s.disk.Retired()) == GenOf(s.hist[..Base(s)] + s.disk.Retired())
  {
    var a, r := s.hist[..Base(s)], s.disk.Retired();
    NumberedParts(a + r, s.disk.Live());
    CompactFollows(a, r);
    CompactAgain(a, r);
    hide GenOf, Numbered, Compact;
  }

  lemma PublishKeeps(s: State, s': State)
    requires Layout(s) && s'.hist == s.hist && s'.acked == s.acked && s'.disk == Publishing(s.disk)
    ensures Layout(s') && NextReady(s')
  {
    Built(s);
    hide GenOf, Numbered, Compact;
    SameLayout(s, s');
  }

  lemma SwitchKeeps(s: State, s': State)
    requires Layout(s) && NextReady(s) && s'.hist == s.hist && s'.acked == s.acked && s'.disk == Switching(s.disk)
    ensures Layout(s') && Folded(s')
  {
    hide GenOf, Numbered;
  }

  lemma RemoveKeeps(s: State, s': State)
    requires Layout(s) && Folded(s) && s'.hist == s.hist && s'.acked == s.acked && s'.disk == s.disk.(applying := None)
    ensures Layout(s')
  {
    Absorb(s.hist, Base(s), s.disk.Retired(), s.disk.Live());
    hide GenOf, Numbered, Splits;
  }

  /** A folded segment counts as part of the history before the segments. */
  lemma Absorb(hist: seq<LogEntry>, b: nat, retired: seq<LogEntry>, live: seq<LogEntry>)
    requires Splits(hist, b, retired, live)
    ensures hist[..b + |retired|] == hist[..b] + retired
    ensures Splits(hist, b + |retired|, [], live) && Splits(hist, b + |retired|, live, [])
  {
    Whole(hist[..b] + retired);
    Whole(hist);
  }

  lemma AppendKeeps(s: State, s': State, r: LogEntry)
    requires Layout(s) && s'.hist == s.hist + [r] && s'.acked == s.acked
    requires s'.disk == s.disk.(wal := Some(s.disk.Live() + [r]))
    requires r.tx > 0 && forall i :: 0 <= i < |s.hist| ==> s.hist[i].tx < r.tx
    ensures Layout(s') && Base(s') == Base(s) && (NextReady(s) ==> NextReady(s')) && (Folded(s) ==> Folded(s'))
  {
    hide GenOf;
    assert s'.hist[..Base(s)] == s.hist[..Base(s)];
    Assoc(s.hist[..Base(s)] + s.disk.Retired(), s.disk.Live(), [r]);
  }

  lemma RenameKeeps(s: State, s': State)
    requires Layout(s) && s.disk.synced == |s.disk.Live()| && s'.hist == s.hist && s'.acked == s.acked
    requires !Buries(s, RotateRename)
    requires s'.disk == s.disk.(applying := Some(s.disk.Live()), wal := None, synced := 0)
    ensures Layout(s') && s'.disk.Active() == GenOf(s'.hist[..Base(s')])
  {
    var b, r := Base(s), s.disk.Retired();
    NotBuried(s);
    hide GenOf, Numbered, Buries, Splits;
    Absorb(s.hist, b, r, s.disk.Live());
  }

  /** A segment no record of which is above the active generation's number is folded already. */
  lemma NotBuried(s: State)
    requires Layout(s) && !Buries(s, RotateRename)
    ensures Folded(s)
  {
    var a, r := s.hist[..Base(s)], s.disk.Retired();
    NumberedParts(a + r, s.disk.Live());
    NumberedParts(a, r);
    if r == [] {
      Whole(a);
    } else if s.disk.Active() == GenOf(a) {
      assert r[0].tx > s.disk.Active().applied;
    }
  }

  lemma UndoKeeps(s: State, s': State)
    requires Layout(s) && s.disk.wal.None? && s.disk.Active() == GenOf(s.hist[..Base(s)])
    requires s'.hist == s.hist && s'.acked == s.acked
    requires s'.disk == s.disk.(wal := Some(s.disk.Retired()), applying := None, synced := |s.disk.Retired()|)
    ensures Layout(s')
  {
    hide GenOf, Numbered;
    Whole(s.hist[..Base(s)]);
    Whole(s.hist[..Base(s)] + s.disk.Retired());
  }

  lemma CrashKeeps(s: State, kept: nat, torn: bool, s': State)
    requires Layout(s) && Crashed(s, kept, torn) == Some(s')
    ensures Layout(s') && Base(s') == Base(s) && s'.hist <= s.hist && s.acked == s'.acked <= |s'.hist|
  {
    hide GenOf, Splits;
    var b, r, w := Base(s), s.disk.Retired(), s.disk.Live();
    CutEnd(s.hist, b, r, w, kept);
    NumberedPrefix(s.hist, s'.hist);
    hide Numbered;
  }

  lemma NumberedPrefix(hist: seq<LogEntry>, cut: seq<LogEntry>)
    requires Numbered(hist) && cut <= hist
    ensures Numbered(cut)
  {
  }

  lemma CutEnd(hist: seq<LogEntry>, b: nat, retired: seq<LogEntry>, live: seq<LogEntry>, kept: nat)
    requires Splits(hist, b, retired, live) && kept <= |live|
    ensures var cut := hist[..|hist| - (|live| - kept)];
            Splits(cut, b, retired, live[..kept]) && cut[..b] == hist[..b] && cut <= hist
  {
  }

  predicate AtMost(log: seq<LogEntry>, m: nat) {
    forall i :: 0 <= i < |log| ==> log[i].tx <= m
  }

  lemma AtMostBoth(a: seq<LogEntry>, b: seq<LogEntry>, m: nat, n: nat)
    requires AtMost(a, m) && AtMost(b, n)
    ensures AtMost(a + b, if n > m then n else m)
  {
  }

  /** After a replay, no record has a number above the one the sequencer resumes from. */
  lemma ReplaySeesAll(s: State)
    requires Layout(s) && s.disk.applying.None?
    ensures var applied, seen := s.disk.Active().applied, MaxTx(s.disk.Live(), 0);
            AtMost(s.hist, if seen > applied then seen else applied)
  {
    hide *;
    var a := ReplayedParts(s);
    AtMostMax(a);
    AtMostMax(s.disk.Live());
    AtMostBoth(a, s.disk.Live(), MaxTx(a, 0), MaxTx(s.disk.Live(), 0));
  }

  lemma ReplayedParts(s: State) returns (a: seq<LogEntry>)
    requires Layout(s) && s.disk.applying.None?
    ensures s.disk.Opens() && s.hist == a + s.disk.Live() && s.disk.Active().applied == MaxTx(a, 0)
  {
    hide MaxTx, Numbered, Mutations, Fold;
    a := s.hist[..Base(s)];
    Whole(a);
  }

  lemma AtMostMax(log: seq<LogEntry>)
    ensures AtMost(log, MaxTx(log, 0))
  {
    MaxTxBounds(log, 0);
    hide MaxTx;
  }

  // ---- Every step keeps the invariant ----

  lemma InitKeeps(s: State, ev: Event, s': State)
    requires NewDatabase(s) && Step(s, ev) == Some(s')
    ensures Inv(s')
  {
    if s'.disk.current.Some? {
      NothingYet(s');
    }
    hide GenOf, Numbered, Splits;
  }

  lemma NothingYet(s: State)
    requires s.hist == [] && s.acked == 0 && s.disk.applying.None? && s.disk.Live() == [] && s.disk.synced == 0
    requires s.disk.Opens() && s.disk.Active() == EMPTY
    ensures Layout(s)
  {
  }

  lemma BootKeeps(s: State, ev: Event, s': State)
    requires Booting(s) && !s.phase.Up? && BootStep(s, ev) == Some(s')
    ensures if s'.phase.Up? then Serving(s') else Booting(s')
  {
    hide GenOf, Numbered, Splits, NextReady, Folded, Compact, AtMost, MaxTx;
    if ev.RemoveOrphans? {
      KeptGens(s, s', true, ev.keep);
    } else if ev.FoldPublish? {
      PublishKeeps(s, s');
    } else if ev.FoldSwitch? {
      SwitchKeeps(s, s');
    } else if ev.FoldRemove? {
      RemoveKeeps(s, s');
    } else {
      SameLayout(s, s');
      if ev.Replay? {
        ReplaySeesAll(s);
      }
    }
  }

  lemma AtMostMore(log: seq<LogEntry>, m: nat, r: LogEntry)
    requires AtMost(log, m)
    ensures AtMost(log, m + 1) && (r.tx == m + 1 ==> AtMost(log + [r], m + 1))
    ensures forall i :: 0 <= i < |log| ==> log[i].tx < m + 1
  {
  }

  lemma BatchKeeps(s: State, ev: Event, s': State)
    requires s.phase.Up? && Serving(s) && BatchStep(s, ev) == Some(s')
    ensures s'.phase.Up? && Serving(s')
  {
    hide GenOf, Numbered, Splits, NextReady, Folded, Compact, AtMost;
    AtMostMore(s.hist, s.phase.nextTx, LogEntry(s.phase.nextTx + 1, if ev.Append? then ev.entry else SOME_ENTRY));
    if ev.Append? {
      AppendKeeps(s, s', LogEntry(s.phase.nextTx + 1, ev.entry));
    } else {
      SameState(s, s');
    }
  }

  const SOME_ENTRY := Entry(Batch, [], [], 0, [], [])

  /** Syncing and replying change neither the segments nor the generations. */
  lemma SameState(s: State, s': State)
    requires Layout(s) && s'.hist == s.hist && s'.disk == s.disk.(synced := s'.disk.synced)
    requires s.disk.synced <= s'.disk.synced <= |s.disk.Live()|
    requires s'.acked == s.acked || (s'.acked == |s.hist| && s'.disk.synced == |s.disk.Live()|)
    ensures Layout(s') && (Folded(s) ==> Folded(s')) && (NextReady(s) ==> NextReady(s'))
  {
    hide GenOf, Numbered, Splits;
  }

  lemma CheckpointKeeps(s: State, ev: Event, s': State)
    requires s.phase.Up? && Serving(s) && !Buries(s, ev) && CheckpointStep(s, ev) == Some(s')
    ensures s'.phase.Up? && Serving(s')
  {
    hide GenOf, Numbered, Splits, NextReady, Folded, Compact, AtMost, Buries;
    if ev.RotateRename? {
      RenameKeeps(s, s');
    } else if ev.RotateUndo? {
      UndoKeeps(s, s');
    } else if ev.Publish? {
      PublishKeeps(s, s');
    } else if ev.Switch? {
      SwitchKeeps(s, s');
    } else if ev.DropRetired? && ev.removed {
      RemoveKeeps(s, s');
    } else if ev.CleanUp? {
      KeptGens(s, s', false, ev.keep);
    } else {
      SameLayout(s, s');
    }
  }

  lemma CrashedKeeps(s: State, kept: nat, torn: bool, s': State)
    requires Layout(s) && Crashed(s, kept, torn) == Some(s')
    ensures Booting(s') && s'.phase.Down?
  {
    hide GenOf, Numbered, Splits, NextReady, Folded;
    CrashKeeps(s, kept, torn, s');
  }

  lemma StepKeeps(s: State, ev: Event, s': State)
    requires Inv(s) && !Buries(s, ev) && Step(s, ev) == Some(s')
    ensures Inv(s')
  {
    hide Layout, NextReady, Folded, BootStep, BatchStep, CheckpointStep, Crashed, Buries;
    if NewDatabase(s) {
      InitKeeps(s, ev, s');
    } else if ev.Crash? {
      CrashedKeeps(s, ev.kept, ev.torn, s');
    } else if !s.phase.Up? {
      BootKeeps(s, ev, s');
    } else if BatchStep(s, ev).Some? {
      BatchKeeps(s, ev, s');
    } else {
      CheckpointKeeps(s, ev, s');
    }
  }

  // ---- Runs ----

  function Run(s: State, evs: seq<Event>): Option<State>
    decreases |evs|
  {
    if evs == [] then Some(s)
    else
      match Step(s, evs[0])
      case None => None
      case Some(next) => Run(next, evs[1..])
  }

  /** No rotation in the run renames over records that were never folded. */
  predicate Tidy(s: State, evs: seq<Event>)
    decreases |evs|
  {
    evs != [] ==>
      !Buries(s, evs[0]) && (Step(s, evs[0]).Some? ==> Tidy(Step(s, evs[0]).value, evs[1..]))
  }

  lemma DiskStepHistory(s: State, ev: Event, s': State)
    requires if s.phase.Up? then CheckpointStep(s, ev) == Some(s') else BootStep(s, ev) == Some(s')
    ensures s'.hist == s.hist && s'.acked == s.acked
  {
    hide Compact, Publishing, Switching, KeepGens, MaxTx;
  }

  lemma BatchStepHistory(s: State, ev: Event, s': State)
    requires s.phase.Up? && BatchStep(s, ev) == Some(s') && s.acked <= |s.hist|
    ensures s.acked <= s'.acked <= |s'.hist| && s.hist <= s'.hist
  {
  }

  lemma CrashHistory(s: State, kept: nat, torn: bool, s': State)
    requires Inv(s) && Crashed(s, kept, torn) == Some(s')
    ensures s.acked == s'.acked <= |s'.hist| && s'.hist <= s.hist
  {
    hide GenOf, Numbered, Splits, NextReady, Folded, AtMost;
  }

  /** A step only adds to the history, or, in a crash, takes unacknowledged records off its end. */
  lemma StepHistory(s: State, ev: Event, s': State)
    requires Inv(s) && Step(s, ev) == Some(s')
    ensures s.acked <= s'.acked <= |s'.hist| && s.hist[..s.acked] <= s'.hist
    ensures if ev.Crash? then s'.hist <= s.hist else s.hist <= s'.hist
  {
    hide Inv, BootStep, BatchStep, CheckpointStep, Crashed;
    AckedInHistory(s);
    if ev.Crash? {
      CrashHistory(s, ev.kept, ev.torn, s');
    } else if s.phase.Up? && BatchStep(s, ev).Some? {
      BatchStepHistory(s, ev, s');
    } else {
      DiskStepHistory(s, ev, s');
    }
  }

  /** What has been acknowledged stays, as a prefix of the history, through any run. */
  lemma {:induction false} AcknowledgedStays(s: State, evs: seq<Event>, s': State)
    requires Inv(s) && Tidy(s, evs) && Run(s, evs) == Some(s')
    ensures Inv(s') && s.acked <= s'.acked <= |s'.hist| && s.hist[..s.acked] <= s'.hist
    decreases |evs|
  {
    hide Inv, Step, Buries;
    AckedInHistory(s);
    if evs != [] {
      var next := Step(s, evs[0]).value;
      StepKeeps(s, evs[0], next);
      StepHistory(s, evs[0], next);
      AcknowledgedStays(next, evs[1..], s');
      PrefixThrough(s.hist[..s.acked], next.hist, next.acked, s'.hist);
    }
  }

  lemma AckedInHistory(s: State)
    requires Inv(s)
    ensures s.acked <= |s.hist|
  {
    hide GenOf, Numbered, Splits, NextReady, Folded, AtMost;
  }

  lemma PrefixThrough<T>(p: seq<T>, a: seq<T>, k: nat, b: seq<T>)
    requires p <= a && |p| <= k <= |a| && a[..k] <= b
    ensures p <= b
  {
    assert p == a[..k][..|p|];
  }

  // ---- What recovery finds ----

  /** The contents recovery arrives at from what is on disk. */
  function Recovered(d: Disk): Db
    requires d.Opens()
  {
    Overlaid(if d.applying.Some? then Compact(d.Active(), d.Retired()) else d.Active(), d.Live())
  }

  lemma RecoveredIsHistory(s: State)
    requires Layout(s)
    ensures Recovered(s.disk) == GenOf(s.hist).db
  {
    hide Overlaid, GenOf, Compact, Numbered;
    var a, r, w := s.hist[..Base(s)], s.disk.Retired(), s.disk.Live();
    if s.disk.applying.Some? {
      Built(s);
    } else {
      Whole(a);
    }
    OverlaidFollows(a + r, w);
  }

  /**
   * Crash safety: at every moment of every run, crashes and interrupted recoveries included, the
   * disk recovers to exactly the record-by-record fold of the history, which contains every
   * acknowledged record and whose record numbers increase strictly.
   */
  lemma CrashSafety(evs: seq<Event>, s: State)
    requires Tidy(Fresh(), evs) && Run(Fresh(), evs) == Some(s)
    ensures s.acked <= |s.hist| && Numbered(s.hist)
    ensures s.disk.current.Some? ==> s.disk.Opens() && Recovered(s.disk) == Fold(map[], Mutations(s.hist, 0))
    ensures s.disk.current.None? ==> s.hist == []
  {
    hide NextReady, Folded, Recovered, Layout, Step, Buries;
    assert NewDatabase(Fresh());
    AcknowledgedStays(Fresh(), evs, s);
    if !NewDatabase(s) {
      RecoveredIsHistory(s);
      LayoutMeans(s);
    }
  }

  lemma LayoutMeans(s: State)
    requires Layout(s)
    ensures s.disk.Opens() && Numbered(s.hist)
  {
  }

  predicate Over(log: seq<LogEntry>, m: nat) {
    forall i :: 0 <= i < |log| ==> log[i].tx > m
  }

  lemma NumbersAround(a: seq<LogEntry>, r: seq<LogEntry>, w: seq<LogEntry>)
    requires Numbered(a + r + w)
    ensures AtMost(r, MaxTx(a + r, 0)) && Over(w, MaxTx(a + r, 0))
  {
    NumberedParts(a + r, w);
    hide MaxTx, Numbered;
    assert forall i :: 0 <= i < |r| ==> r[i] == (a + r)[|a| + i];
  }

  /**
   * Rotation separates: while a checkpoint runs, every record of the retired segment has a number
   * at most the one the new generation will carry, every record of the live log a larger one, and
   * the batch in progress lies wholly in the live log.
   */
  lemma FoldedNumberSeparates(s: State)
    requires s.phase.Up? && Serving(s)
    ensures var folded := MaxTx(s.hist[..Base(s)] + s.disk.Retired(), 0);
            && AtMost(s.disk.Retired(), folded) && Over(s.disk.Live(), folded)
            && (s.phase.ck.Published? ==> s.disk.gens[s.disk.current.value + 1].applied == folded)
            && (s.phase.ck.Switched? ==> s.disk.Active().applied == folded)
    ensures !s.phase.batch.Between? ==> |s.hist| - |s.disk.Live()| <= s.phase.batch.start
  {
    hide MaxTx, Numbered, Fold, Mutations, AtMost, Over;
    NumbersAround(s.hist[..Base(s)], s.disk.Retired(), s.disk.Live());
  }

  /** An OK reply is given only when everything appended so far is on disk. */
  lemma ReplyMeansSynced(s: State, s': State)
    requires s.phase.Up? && Serving(s) && Step(s, Reply) == Some(s')
    ensures s'.acked == |s'.hist| && s'.disk.synced == |s'.disk.Live()|
    ensures s'.phase.batch.Between? && s'.hist == s.hist && s'.disk == s.disk
  {
    hide GenOf, Numbered, Splits, NextReady, Folded, AtMost;
  }
}
