/**
 * Live reads and the disk protocol are two views of one engine: every protocol step has its
 * counterpart in memory, the snapshot a checkpoint swaps in is the generation the protocol switched
 * to, and the overlay by record is the engine's overlay by record number (engine.go, checkpoint.go).
 */
module LiveProtocol {
  import opened Bytes
  import opened Wrappers
  import opened Seqs
  import opened KVLists
  import opened Entries
  import opened Generations
  import Overlays
  import Reopening
  import L = LiveReads
  import Q = LiveQueries
  import P = CrashProtocol

  function EntriesOf(hist: seq<LogEntry>): (es: seq<Entry>)
    ensures |es| == |hist|
  {
    seq(|hist|, i requires 0 <= i < |hist| => hist[i].entry)
  }

  // ---- The snapshot is a generation ----

  lemma {:induction false} MutationsAre(hist: seq<LogEntry>, m: nat)
    requires Numbered(hist) && m <= |hist|
    ensures Mutations(hist[..m], 0) == L.All(EntriesOf(hist)[..m])
  {
    hide Entry.Flatten;
    var es := EntriesOf(hist);
    if m > 0 {
      MutationsAre(hist, m - 1);
      assert hist[..m][..m - 1] == hist[..m - 1] && es[..m][..m - 1] == es[..m - 1];
      assert hist[..m][m - 1].tx > 0;
    }
  }

  /** What a read finds in a snapshot of the first `m` records is what their generation holds. */
  lemma SnapshotIsGeneration(hist: seq<LogEntry>, m: nat, k: bytes)
    requires Numbered(hist) && m <= |hist|
    ensures L.ValueAt(EntriesOf(hist), m, k) == Lookup(GenOf(hist[..m]).db, k)
  {
    hide Mutations, Fold, Numbered, L.All;
    MutationsAre(hist, m);
  }

  // ---- The overlay by record number ----

  /** The engine tags a change with its record's number, not its position. */
  function ByNumber(overlay: map<bytes, L.Over>, hist: seq<LogEntry>): Overlays.Overlay {
    map k | k in overlay && overlay[k].record < |hist| :: Overlays.Over(hist[overlay[k].record].tx, overlay[k].delta)
  }

  ghost predicate InRange(overlay: map<bytes, L.Over>, hist: seq<LogEntry>) {
    forall k :: k in overlay ==> overlay[k].record < |hist|
  }

  /** Publishing a record to either overlay is the same. */
  lemma PublishByNumber(overlay: map<bytes, L.Over>, hist: seq<LogEntry>, i: nat)
    requires i < |hist| && InRange(overlay, hist)
    ensures ByNumber(L.Published(overlay, i, Net(hist[i].entry.Flatten())), hist) ==
            Overlays.PutAll(ByNumber(overlay, hist), hist[i].tx, hist[i].entry.Flatten())
  {
    Overlays.PutAllIs(ByNumber(overlay, hist), hist[i].tx, hist[i].entry.Flatten());
    hide Net, Overlays.PutAll;
  }

  lemma NumbersFollowPositions(hist: seq<LogEntry>, cut: nat, r: nat)
    requires Numbered(hist) && cut <= |hist| && r < |hist|
    ensures hist[r].tx > MaxTx(hist[..cut], 0) <==> r >= cut
  {
    var a, b := hist[..cut], hist[cut..];
    assert hist == a + b;
    NumberedParts(a, b);
    hide MaxTx, Numbered;
    if r < cut {
      assert a[r] == hist[r];
    } else {
      assert b[r - cut] == hist[r];
    }
  }

  /** Pruning by the folded number is pruning by the position of the cut. */
  lemma PruneByNumber(overlay: map<bytes, L.Over>, hist: seq<LogEntry>, cut: nat)
    requires Numbered(hist) && cut <= |hist| && InRange(overlay, hist)
    ensures var b := ByNumber(overlay, hist);
            ByNumber(L.Pruned(overlay, cut), hist) == map k | k in b && b[k].tx > GenOf(hist[..cut]).applied :: b[k]
  {
    hide MaxTx, Numbered, Fold, Mutations;
    forall k | k in overlay
      ensures hist[overlay[k].record].tx > GenOf(hist[..cut]).applied <==> overlay[k].record >= cut
    {
      NumbersFollowPositions(hist, cut, overlay[k].record);
    }
  }

  /** Reading both at one moment is reading the engine's view. */
  lemma LookupByNumber(st: L.State, hist: seq<LogEntry>, k: bytes)
    requires Numbered(hist) && st.hist == EntriesOf(hist) && st.snap <= |hist| && InRange(st.overlay, hist)
    ensures st.snap <= |st.hist|
    ensures L.LookupIn(st, st, k) ==
            Lookup(Overlays.View(GenOf(hist[..st.snap]).db, ByNumber(st.overlay, hist)), k)
  {
    hide L.ValueAt, GenOf, Numbered, Overlays.View;
    SnapshotIsGeneration(hist, st.snap, k);
    Overlays.ViewLookup(GenOf(hist[..st.snap]).db, ByNumber(st.overlay, hist), k);
  }

  // ---- The protocol's steps in memory ----

  /** The retired log is dropped right after the snapshot is swapped, and the overlay is pruned when
      the checkpoint returns. */
  function InMemory(ev: P.Event): seq<L.Event> {
    match ev
    case Append(e) => [L.Submit(e)]
    case RotateRename => [L.Cut]
    case DropRetired(_) => [L.Swap]
    case CleanUp(_) => [L.Prune]
    case GiveUp => [L.GiveUp]
    case RotateUndo => [L.GiveUp]
    case _ => []
  }

  predicate Cutting(ck: P.Checkpoint) {
    ck.LogRenamed? || ck.Rotated? || ck.Published? || ck.Switched? || ck.Dropped?
  }

  /** Same history; a checkpoint that has cut the log here has cut it there, at the start of the live log. */
  ghost predicate Matches(s: P.State, st: L.State) {
    && s.phase.Up? && st.hist == EntriesOf(s.hist)
    && (st.cut.Some? <==> Cutting(s.phase.ck))
    && (st.cut.Some? ==> st.cut.value == |s.hist| - |s.disk.Live()|)
    && (st.swapped <==> s.phase.ck.Dropped?)
  }

  lemma AppendMatches(s: P.State, e: Entry, s': P.State, st: L.State)
    requires Matches(s, st) && P.Step(s, P.Append(e)) == Some(s')
    ensures Matches(s', L.Step(st, L.Submit(e)).value)
  {
    assert EntriesOf(s.hist + [s'.hist[|s.hist|]]) == EntriesOf(s.hist) + [e];
  }

  lemma OneStep(st: L.State, ev: L.Event)
    ensures L.Run(st, [ev]) == L.Step(st, ev) && L.Run(st, []) == Some(st)
  {
    hide L.Step;
    assert [ev][1..] == [];
    assert L.Step(st, ev).Some? ==> L.Run(L.Step(st, ev).value, []) == L.Step(st, ev);
  }

  lemma QuietMatches(s: P.State, ev: P.Event, s': P.State, st: L.State)
    requires P.Inv(s) && Matches(s, st) && P.Step(s, ev) == Some(s') && s'.phase.Up? && InMemory(ev) == []
    ensures Matches(s', st)
  {
    hide P.Layout, P.Folded, P.NextReady, EntriesOf, P.AtMost, Compact, P.KeepGens;
  }

  lemma CheckpointMatches(s: P.State, ev: P.Event, s': P.State, st: L.State)
    requires P.Inv(s) && Matches(s, st) && P.Step(s, ev) == Some(s') && s'.phase.Up?
    requires InMemory(ev) != [] && !ev.Append?
    ensures L.Step(st, InMemory(ev)[0]).Some? && Matches(s', L.Step(st, InMemory(ev)[0]).value)
  {
    hide P.Layout, P.Folded, P.NextReady, EntriesOf, P.AtMost, P.KeepGens, L.Pruned;
  }

  /** Every protocol step of a running engine has its step in memory, and the two views stay one. */
  lemma StepMatches(s: P.State, ev: P.Event, s': P.State, st: L.State) returns (st': L.State)
    requires P.Inv(s) && Matches(s, st) && P.Step(s, ev) == Some(s') && s'.phase.Up?
    ensures L.Run(st, InMemory(ev)) == Some(st') && Matches(s', st')
  {
    hide Matches, P.Step, P.Inv, L.Step;
    OneStep(st, L.Cut);
    if InMemory(ev) == [] {
      QuietMatches(s, ev, s', st);
      st' := st;
    } else {
      var live := InMemory(ev)[0];
      OneStep(st, live);
      if ev.Append? {
        AppendMatches(s, ev.entry, s', st);
        Submits(st, ev.entry);
      } else {
        CheckpointMatches(s, ev, s', st);
      }
      st' := L.Step(st, live).value;
    }
  }

  lemma Submits(st: L.State, e: Entry)
    ensures L.Step(st, L.Submit(e)).Some?
  {
  }

  /** The snapshot a checkpoint swaps in is the generation the protocol has switched to, and the
      number the overlay is pruned by is the one that generation remembers. */
  lemma SwapIsSwitched(s: P.State, removed: bool, s': P.State, st: L.State, st': L.State)
    requires P.Inv(s) && Matches(s, st) && P.Step(s, P.DropRetired(removed)) == Some(s')
    requires L.Step(st, L.Swap) == Some(st')
    ensures s.disk.Opens() && st'.snap <= |s.hist| && s.disk.Active() == GenOf(s.hist[..st'.snap])
  {
    hide *;
    Swaps(s, removed, st, st');
    var front := SwitchedTo(s);
    FrontOf(front, s.disk.Live());
  }

  lemma SwitchedTo(s: P.State) returns (front: seq<LogEntry>)
    requires P.Inv(s) && s.phase.Up? && s.phase.ck.Switched?
    ensures s.disk.Opens() && s.hist == front + s.disk.Live() && s.disk.Active() == GenOf(front)
  {
    hide GenOf, Numbered, P.AtMost, P.NextReady;
    front := s.hist[..P.Base(s)] + s.disk.Retired();
  }

  lemma Swaps(s: P.State, removed: bool, st: L.State, st': L.State)
    requires Matches(s, st) && P.Step(s, P.DropRetired(removed)).Some? && L.Step(st, L.Swap) == Some(st')
    ensures s.phase.Up? && s.phase.ck.Switched? && st'.snap == |s.hist| - |s.disk.Live()|
  {
    hide EntriesOf;
  }

  lemma FrontOf(front: seq<LogEntry>, live: seq<LogEntry>)
    ensures (front + live)[..|front + live| - |live|] == front
  {
  }

  // ---- Runs of both ----

  /** A protocol step with its step in memory, or a step in memory alone. */
  datatype Joint = OnDisk(step: P.Event) | Alone(act: L.Event)

  function JointStep(s: P.State, st: L.State, j: Joint): Option<(P.State, L.State)> {
    match j
    case OnDisk(ev) =>
      var s', st' := P.Step(s, ev), L.Run(st, InMemory(ev));
      if s'.Some? && s'.value.phase.Up? && st'.Some? then Some((s'.value, st'.value)) else None
    case Alone(ev) =>
      var st' := L.Step(st, ev);
      if (ev.Publish? || ev.Abandon?) && st'.Some? then Some((s, st'.value)) else None
  }

  ghost predicate Both(s: P.State, st: L.State) {
    P.Inv(s) && Matches(s, st) && L.Inv(st)
  }

  /** No rotation over unfolded records, and no overlapping writes to one key. */
  ghost predicate CalmStep(s: P.State, st: L.State, j: Joint) {
    j.OnDisk? ==> !P.Buries(s, j.step) && (j.step.Append? ==> !L.Races(st, L.Submit(j.step.entry)))
  }

  function InMemoryOf(j: Joint): seq<L.Event> {
    match j
    case OnDisk(ev) => InMemory(ev)
    case Alone(ev) => [ev]
  }

  lemma CalmIsOrderly(s: P.State, st: L.State, j: Joint)
    requires CalmStep(s, st, j) && (j.Alone? ==> j.act.Publish? || j.act.Abandon?)
    ensures L.Orderly(st, InMemoryOf(j))
  {
    var evs := InMemoryOf(j);
    if evs != [] {
      assert evs == [evs[0]];
      L.OneEvent(st, evs[0]);
    }
  }

  lemma JointKeeps(s: P.State, st: L.State, j: Joint, s': P.State, st': L.State)
    requires Both(s, st) && JointStep(s, st, j) == Some((s', st')) && CalmStep(s, st, j)
    ensures Both(s', st') && L.Reaches(st, InMemoryOf(j), st')
  {
    hide P.Inv, L.Inv, Matches, P.Step, P.Buries, L.Orderly, L.Step;
    CalmIsOrderly(s, st, j);
    if j.OnDisk? {
      var live := StepMatches(s, j.step, s', st);
      P.StepKeeps(s, j.step, s');
    } else {
      OneStep(st, j.act);
      AloneMatches(s, st, j.act, st');
    }
    L.RunKeeps(st, InMemoryOf(j), st');
  }

  lemma AloneMatches(s: P.State, st: L.State, ev: L.Event, st': L.State)
    requires Matches(s, st) && L.Step(st, ev) == Some(st') && (ev.Publish? || ev.Abandon?)
    ensures Matches(s, st')
  {
    hide EntriesOf, L.Published;
  }

  ghost predicate JointRun(s: P.State, st: L.State, js: seq<Joint>, s': P.State, st': L.State)
    decreases |js|
  {
    if js == [] then s' == s && st' == st
    else
      && CalmStep(s, st, js[0]) && JointStep(s, st, js[0]).Some?
      && JointRun(JointStep(s, st, js[0]).value.0, JointStep(s, st, js[0]).value.1, js[1..], s', st')
  }

  function MemoryRun(js: seq<Joint>): seq<L.Event> {
    if js == [] then [] else InMemoryOf(js[0]) + MemoryRun(js[1..])
  }

  /**
   * The protocol in memory: along every calm run both invariants hold and the two views stay one;
   * and what happens in memory is an orderly run, so that all that is proved of reads in such runs
   * holds beside the protocol.
   */
  lemma {:induction false} JointRunIsOrderly(s: P.State, st: L.State, js: seq<Joint>, s': P.State, st': L.State)
    requires Both(s, st) && JointRun(s, st, js, s', st')
    ensures Both(s', st') && L.Reaches(st, MemoryRun(js), st')
    decreases |js|
  {
    hide Both, CalmStep, JointStep, L.Reaches, InMemoryOf;
    if js == [] {
      Stays(st);
    } else {
      var next := JointStep(s, st, js[0]).value;
      JointKeeps(s, st, js[0], next.0, next.1);
      JointRunIsOrderly(next.0, next.1, js[1..], s', st');
      L.ReachesAppend(st, InMemoryOf(js[0]), next.1, MemoryRun(js[1..]), st');
    }
  }

  lemma Stays(st: L.State)
    ensures L.Reaches(st, [], st)
  {
  }

  // ---- What opening a directory starts from ----

  /** Every record of the live log published in turn. */
  function Replayed(hist: seq<Entry>, b: nat, n: nat): map<bytes, L.Over>
    requires n <= |hist|
  {
    if n <= b then map[] else L.Published(Replayed(hist, b, n - 1), n - 1, Net(hist[n - 1].Flatten()))
  }

  /** The entry of a key is that of the last record from `b` up to `n` that changes it. */
  ghost predicate LastFrom(overlay: map<bytes, L.Over>, hist: seq<Entry>, b: nat, n: nat, k: bytes)
    requires n <= |hist|
  {
    if k in overlay then
      var r := overlay[k].record;
      b <= r < n && L.Touches(hist[r], k) && overlay[k].delta == Net(hist[r].Flatten())[k] && L.Untouched(hist, r + 1, n, k)
    else
      L.Untouched(hist, b, n, k)
  }

  lemma {:induction false} ReplayedIs(hist: seq<Entry>, b: nat, n: nat, k: bytes)
    requires n <= |hist|
    ensures LastFrom(Replayed(hist, b, n), hist, b, n, k)
  {
    hide LastFrom, L.Published;
    if n > b {
      ReplayedIs(hist, b, n - 1, k);
      OneMoreLast(Replayed(hist, b, n - 1), hist, b, n, k);
    } else {
      NoneFrom(hist, b, n, k);
    }
  }

  lemma NoneFrom(hist: seq<Entry>, b: nat, n: nat, k: bytes)
    requires n <= |hist| && n <= b
    ensures LastFrom(map[], hist, b, n, k)
  {
    hide Net;
  }

  lemma OneMoreLast(overlay: map<bytes, L.Over>, hist: seq<Entry>, b: nat, n: nat, k: bytes)
    requires b < n <= |hist| && LastFrom(overlay, hist, b, n - 1, k)
    ensures LastFrom(L.Published(overlay, n - 1, Net(hist[n - 1].Flatten())), hist, b, n, k)
  {
    hide Net;
  }

  function Opened(s: P.State): L.State
    requires |s.disk.Live()| <= |s.hist|
  {
    var es, b := EntriesOf(s.hist), |s.hist| - |s.disk.Live()|;
    L.State(es, {}, {}, Replayed(es, b, |es|), b, None, false)
  }

  /** Nothing is under way: every record is published, or held by the snapshot. */
  ghost predicate Quiet(st: L.State) {
    st.pending == {} && st.failed == {} && st.snap <= |st.hist|
  }

  lemma QuietDone(st: L.State, k: bytes, i: int)
    requires Quiet(st)
    ensures L.Done(st, k, i) <==> 0 <= i < |st.hist| && L.Touches(st.hist[i], k)
  {
    hide L.Touches;
  }

  ghost predicate EntryRight(st: L.State, k: bytes) {
    if k in st.overlay then
      var i := st.overlay[k].record;
      Q.Latest(st, k, i) && i >= st.snap && st.overlay[k].delta == Net(st.hist[i].Flatten())[k]
    else
      forall j :: L.Done(st, k, j) ==> j < st.snap
  }

  /** In a quiet state the overlay need only have the last change of each key since the snapshot. */
  lemma QuietEntry(st: L.State, k: bytes)
    requires Quiet(st) && LastFrom(st.overlay, st.hist, st.snap, |st.hist|, k)
    ensures EntryRight(st, k)
  {
    hide L.Touches, Net, L.Done;
    forall i: int
      ensures L.Done(st, k, i) <==> 0 <= i < |st.hist| && L.Touches(st.hist[i], k)
    {
      QuietDone(st, k, i);
    }
  }

  lemma QuietIsRight(st: L.State)
    requires Quiet(st) && st.cut.None? && !st.swapped
    requires forall k :: LastFrom(st.overlay, st.hist, st.snap, |st.hist|, k)
    ensures L.Inv(st) && Q.Together(st)
  {
    hide *;
    forall k
      ensures EntryRight(st, k)
    {
      QuietEntry(st, k);
    }
    QuietInv(st);
    QuietTogether(st);
  }

  lemma QuietInv(st: L.State)
    requires Quiet(st) && st.cut.None? && !st.swapped && forall k :: EntryRight(st, k)
    ensures L.Inv(st)
  {
    hide L.Touches, Net;
    assert L.OverlayRight(st) by { assert forall k :: k in st.overlay ==> EntryRight(st, k); }
    assert L.NothingMissing(st) by { assert forall k :: k !in st.overlay ==> EntryRight(st, k); }
  }

  lemma QuietTogether(st: L.State)
    requires forall k :: EntryRight(st, k)
    ensures Q.Together(st)
  {
    hide L.Touches, Net, L.Done;
    forall k, i: nat | Q.Latest(st, k, i)
      ensures k in st.overlay <==> i >= st.snap
    {
      assert EntryRight(st, k);
    }
  }

  /** A recovered engine's memory satisfies the invariant of live reads, and matches its directory. */
  lemma OpenedIsRight(s: P.State)
    requires P.Inv(s) && s.phase.Up? && s.phase.ck.NoCheckpoint?
    ensures |s.disk.Live()| <= |s.hist| && Both(s, Opened(s)) && Q.Together(Opened(s))
  {
    hide P.Inv, L.Inv, Q.Together, Replayed, LastFrom;
    LiveInHistory(s);
    var st := Opened(s);
    forall k
      ensures LastFrom(st.overlay, st.hist, st.snap, |st.hist|, k)
    {
      ReplayedIs(st.hist, st.snap, |st.hist|, k);
    }
    QuietIsRight(st);
  }

  lemma LiveInHistory(s: P.State)
    requires P.Inv(s) && s.phase.Up?
    ensures |s.disk.Live()| <= |s.hist|
  {
    hide P.Folded, P.NextReady, P.AtMost, GenOf, Numbered;
  }

  lemma {:induction false} RepublishedRecord(list: seq<LogEntry>, tx: nat, es: seq<Entry>)
    ensures Overlays.Republished(list + Reopening.Each(tx, es)) == Overlays.PutAll(Overlays.Republished(list), tx, es)
  {
    var each := Reopening.Each(tx, es);
    if es == [] {
      Whole(list);
    } else {
      RepublishedRecord(list, tx, es[..|es| - 1]);
      InitOf(list, tx, es);
      hide DeltaOf, Entry.Key;
    }
  }

  lemma InitOf(list: seq<LogEntry>, tx: nat, es: seq<Entry>)
    requires es != []
    ensures var all := list + Reopening.Each(tx, es);
            && all[..|all| - 1] == list + Reopening.Each(tx, es[..|es| - 1])
            && all[|all| - 1] == LogEntry(tx, es[|es| - 1])
  {
  }

  lemma {:induction false} ReplayedByNumber(hist: seq<LogEntry>, b: nat, n: nat, applied: nat)
    requires b <= n <= |hist| && forall i :: b <= i < |hist| ==> hist[i].tx > applied
    ensures ByNumber(Replayed(EntriesOf(hist), b, n), hist) == Overlays.Republished(Reopening.Listed(hist[b..n], applied))
    decreases n
  {
    hide *;
    hide Entry.Flatten, Overlays.Republished, Overlays.PutAll, Reopening.Each, Reopening.Listed;
    var es := EntriesOf(hist);
    if n == b {
      NothingListed(hist[b..n], applied);
      NothingReplayed(hist, b);
    } else {
      ReplayedByNumber(hist, b, n - 1, applied);
      OneMoreListed(hist, b, n, applied);
      OneMoreReplayed(hist, b, n);
      RepublishedRecord(Reopening.Listed(hist[b..n - 1], applied), hist[n - 1].tx, hist[n - 1].entry.Flatten());
      ReplayedInRange(hist, b, n - 1);
      PublishByNumber(Replayed(es, b, n - 1), hist, n - 1);
    }
  }

  lemma NothingReplayed(hist: seq<LogEntry>, b: nat)
    requires b <= |hist|
    ensures ByNumber(Replayed(EntriesOf(hist), b, b), hist) == map[]
  {
  }

  lemma OneMoreListed(hist: seq<LogEntry>, b: nat, n: nat, applied: nat)
    requires b < n <= |hist| && hist[n - 1].tx > applied
    ensures Reopening.Listed(hist[b..n], applied) ==
            Reopening.Listed(hist[b..n - 1], applied) + Reopening.Each(hist[n - 1].tx, hist[n - 1].entry.Flatten())
  {
    hide Entry.Flatten, Reopening.Each;
    assert hist[b..n][..n - 1 - b] == hist[b..n - 1] && hist[b..n][n - 1 - b] == hist[n - 1];
  }

  lemma OneMoreReplayed(hist: seq<LogEntry>, b: nat, n: nat)
    requires b < n <= |hist|
    ensures Replayed(EntriesOf(hist), b, n) ==
            L.Published(Replayed(EntriesOf(hist), b, n - 1), n - 1, Net(hist[n - 1].entry.Flatten()))
  {
    hide Entry.Flatten, Net, L.Published;
  }

  lemma NothingListed(log: seq<LogEntry>, applied: nat)
    requires log == []
    ensures Overlays.Republished(Reopening.Listed(log, applied)) == map[]
  {
  }

  lemma ReplayedInRange(hist: seq<LogEntry>, b: nat, n: nat)
    requires n <= |hist|
    ensures InRange(Replayed(EntriesOf(hist), b, n), hist)
  {
    forall k | k in Replayed(EntriesOf(hist), b, n)
      ensures Replayed(EntriesOf(hist), b, n)[k].record < |hist|
    {
      ReplayedIs(EntriesOf(hist), b, n, k);
    }
  }

  /** The overlay that opening rebuilds from the live log is the one these runs start from. */
  lemma OpenedOverlay(s: P.State, applied: nat)
    requires |s.disk.Live()| <= |s.hist| && s.hist[|s.hist| - |s.disk.Live()|..] == s.disk.Live()
    requires forall i :: 0 <= i < |s.disk.Live()| ==> s.disk.Live()[i].tx > applied
    ensures ByNumber(Opened(s).overlay, s.hist) == Overlays.Republished(Reopening.Listed(s.disk.Live(), applied))
  {
    hide *;
    hide Overlays.Republished, Reopening.Listed;
    var b := |s.hist| - |s.disk.Live()|;
    AboveFrom(s.hist, b, applied);
    ReplayedByNumber(s.hist, b, |s.hist|, applied);
    OpenedIs(s);
  }

  lemma AboveFrom(hist: seq<LogEntry>, b: nat, applied: nat)
    requires b <= |hist| && forall i :: 0 <= i < |hist[b..]| ==> hist[b..][i].tx > applied
    ensures hist[b..|hist|] == hist[b..] && forall i :: b <= i < |hist| ==> hist[i].tx > applied
  {
    assert forall i :: b <= i < |hist| ==> hist[i] == hist[b..][i - b];
  }

  lemma OpenedIs(s: P.State)
    requires |s.disk.Live()| <= |s.hist|
    ensures Opened(s).overlay == Replayed(EntriesOf(s.hist), |s.hist| - |s.disk.Live()|, |s.hist|)
  {
    hide Replayed;
  }

  // ---- Reading everything at a quiet moment ----

  lemma QuietLookup(st: L.State, k: bytes)
    requires L.Inv(st) && Quiet(st)
    ensures L.LookupIn(st, st, k) == L.ValueAt(st.hist, |st.hist|, k)
  {
    hide L.ValueAt, L.Touches, L.Exclusive, Net, L.Done;
    var m := if k in st.overlay then st.overlay[k].record + 1 else st.snap;
    if k in st.overlay {
      L.OverlayValue(st, k);
    }
    forall j | m <= j < |st.hist|
      ensures !L.Touches(st.hist[j], k)
    {
      QuietDone(st, k, j);
    }
    L.ValueKept(st.hist, m, |st.hist|, k);
  }

  /** With no write under way or refused, the engine's view is the generation of the whole history. */
  lemma QuietView(s: P.State, st: L.State)
    requires Both(s, st) && Quiet(st)
    ensures st.snap <= |s.hist|
    ensures Overlays.View(GenOf(s.hist[..st.snap]).db, ByNumber(st.overlay, s.hist)) == GenOf(s.hist).db
  {
    QuietFacts(s, st);
    hide *;
    var view := Overlays.View(GenOf(s.hist[..st.snap]).db, ByNumber(st.overlay, s.hist));
    forall k
      ensures Lookup(view, k) == Lookup(GenOf(s.hist).db, k)
    {
      LookupByNumber(st, s.hist, k);
      QuietLookup(st, k);
      SnapshotIsGeneration(s.hist, |s.hist|, k);
      Whole(s.hist);
    }
    SameMap(view, GenOf(s.hist).db);
  }

  lemma SameMap(a: Db, b: Db)
    requires forall k :: Lookup(a, k) == Lookup(b, k)
    ensures a == b
  {
    forall k
      ensures k in a <==> k in b
      ensures k in a && k in b ==> a[k] == b[k]
    {
      assert Lookup(a, k) == Lookup(b, k);
    }
  }

  lemma QuietFacts(s: P.State, st: L.State)
    requires Both(s, st)
    ensures L.Inv(st) && Numbered(s.hist) && st.hist == EntriesOf(s.hist) && |st.hist| == |s.hist|
    ensures st.snap <= |s.hist| && InRange(st.overlay, s.hist)
  {
    hide P.Folded, P.NextReady, P.AtMost, GenOf, Numbered, EntriesOf, Net, L.Touches, L.Exclusive, L.NothingMissing;
    assert forall k :: k in st.overlay ==> L.Done(st, k, st.overlay[k].record);
  }
}
