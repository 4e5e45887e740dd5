/**
 * Reads beside concurrent writers and checkpoints (engine.go): a write is logged, then published
 * to the overlay, or abandoned when its batch was refused; a checkpoint cuts the log, swaps the
 * snapshot, then prunes the overlay, or gives up before the swap. Each is one step, so any number of
 * writers and readers interleave.
 */
module LiveReads {
  import opened Bytes
  import opened Wrappers
  import opened Entries
  import opened KVLists

  /** The overlay remembers which record a change came from. */
  datatype Over = Over(record: nat, delta: Delta)

  datatype State = State(
    hist: seq<Entry>,         // all logged records, in log order
    pending: set<nat>,        // logged, not yet published
    failed: set<nat>,         // logged in a batch that was refused: its write returned an error
    overlay: map<bytes, Over>,
    snap: nat,                // how many records the current snapshot holds
    cut: Option<nat>,         // where a running checkpoint cut the log
    swapped: bool)            // and whether it has swapped the snapshot

  datatype Event = Submit(entry: Entry) | Publish(i: nat) | Abandon(i: nat) | Cut | Swap | Prune | GiveUp

  predicate Touches(e: Entry, k: bytes) {
    k in Net(e.Flatten())
  }

  function Published(overlay: map<bytes, Over>, i: nat, changes: Deltas): map<bytes, Over> {
    map k | k in overlay.Keys + changes.Keys :: if k in changes then Over(i, changes[k]) else overlay[k]
  }

  function Pruned(overlay: map<bytes, Over>, folded: nat): map<bytes, Over> {
    map k | k in overlay && overlay[k].record >= folded :: overlay[k]
  }

  function Step(st: State, ev: Event): Option<State> {
    match ev
    case Submit(e) => Some(st.(hist := st.hist + [e], pending := st.pending + {|st.hist|}))
    case Publish(i) =>
      if i in st.pending && i < |st.hist| then
        Some(st.(overlay := Published(st.overlay, i, Net(st.hist[i].Flatten())), pending := st.pending - {i}))
      else None
    case Abandon(i) =>
      if i in st.pending then Some(st.(pending := st.pending - {i}, failed := st.failed + {i})) else None
    case Cut => if st.cut.None? then Some(st.(cut := Some(|st.hist|), swapped := false)) else None
    case Swap => if st.cut.Some? && !st.swapped then Some(st.(snap := st.cut.value, swapped := true)) else None
    case Prune =>
      if st.cut.Some? && st.swapped then
        Some(st.(overlay := Pruned(st.overlay, st.cut.value), cut := None, swapped := false))
      else None
    case GiveUp => if st.cut.Some? && !st.swapped then Some(st.(cut := None)) else None
  }

  function Run(st: State, evs: seq<Event>): Option<State>
    decreases |evs|
  {
    if evs == [] then Some(st)
    else
      match Step(st, evs[0])
      case None => None
      case Some(next) => Run(next, evs[1..])
  }

  const START := State([], {}, {}, map[], 0, None, false)

  // ---- What a key's value is after a number of records ----

  function All(hist: seq<Entry>): seq<Entry> {
    if hist == [] then [] else All(hist[..|hist| - 1]) + hist[|hist| - 1].Flatten()
  }

  /** The value of a key after the first `m` records. */
  function ValueAt(hist: seq<Entry>, m: nat, k: bytes): Option<bytes>
    requires m <= |hist|
  {
    Lookup(Fold(map[], All(hist[..m])), k)
  }

  function ValueOf(d: Delta): Option<bytes> {
    if d.Data? then Some(d.data) else None
  }

  lemma ValueStep(hist: seq<Entry>, m: nat, k: bytes)
    requires m < |hist|
    ensures ValueAt(hist, m + 1, k) ==
            if Touches(hist[m], k) then ValueOf(Net(hist[m].Flatten())[k]) else ValueAt(hist, m, k)
  {
    assert hist[..m + 1][..m] == hist[..m] && hist[..m + 1][m] == hist[m];
    FoldAppend(map[], All(hist[..m]), hist[m].Flatten());
    MergeIsFold(Fold(map[], All(hist[..m])), hist[m].Flatten());
    hide Fold, Net;
  }

  /** No record from `i` up to `m` changes the key. */
  ghost predicate Untouched(hist: seq<Entry>, i: nat, m: nat, k: bytes) {
    forall j :: i <= j < m && j < |hist| ==> !Touches(hist[j], k)
  }

  lemma {:induction false} ValueKept(hist: seq<Entry>, i: nat, m: nat, k: bytes)
    requires i <= m <= |hist| && Untouched(hist, i, m, k)
    ensures ValueAt(hist, m, k) == ValueAt(hist, i, k)
  {
    hide Touches, ValueAt;
    if i < m {
      ValueKept(hist, i, m - 1, k);
      ValueStep(hist, m - 1, k);
    }
  }

  lemma ValueSame(hist: seq<Entry>, more: seq<Entry>, m: nat, k: bytes)
    requires m <= |hist| && hist <= more
    ensures ValueAt(hist, m, k) == ValueAt(more, m, k)
  {
    assert hist[..m] == more[..m];
  }

  // ---- What every run keeps, if no two writes to a key are under way at once ----

  predicate Apart(a: Entry, b: Entry) {
    Net(a.Flatten()).Keys !! Net(b.Flatten()).Keys
  }

  /** A write is logged while an earlier one to the same key is logged but not yet published. */
  ghost predicate Races(st: State, ev: Event) {
    ev.Submit? && exists i :: i in st.pending && i < |st.hist| && !Apart(st.hist[i], ev.entry)
  }

  ghost predicate Orderly(st: State, evs: seq<Event>)
    decreases |evs|
  {
    evs != [] ==>
      && !Races(st, evs[0])
      && (Step(st, evs[0]).Some? ==> Orderly(Step(st, evs[0]).value, evs[1..]))
  }

  /** An orderly run leads from one state to the other. */
  ghost predicate Reaches(st: State, evs: seq<Event>, st': State) {
    Orderly(st, evs) && Run(st, evs) == Some(st')
  }

  /** The write of record `i`, which changes `k`, has succeeded. */
  predicate Done(st: State, k: bytes, i: int) {
    0 <= i < |st.hist| && i !in st.pending && i !in st.failed && Touches(st.hist[i], k)
  }

  ghost predicate Bounded(st: State) {
    && (forall i :: i in st.pending ==> i < |st.hist| && i !in st.failed)
    && (forall i :: i in st.failed ==> i < |st.hist|)
    && st.snap <= |st.hist|
    && (st.cut.Some? ==> st.snap <= st.cut.value <= |st.hist|)
    && (st.swapped ==> st.cut == Some(st.snap))
  }

  /** What follows a record that is still to be published changes none of its keys. */
  ghost predicate Exclusive(st: State) {
    forall i, j :: i in st.pending && i < j < |st.hist| ==> Apart(st.hist[i], st.hist[j])
  }

  /** An overlay entry is the latest finished write of its key. */
  ghost predicate OverlayRight(st: State) {
    forall k :: k in st.overlay ==>
      var i := st.overlay[k].record;
      && Done(st, k, i) && st.overlay[k].delta == Net(st.hist[i].Flatten())[k]
      && forall j :: i < j ==> !Done(st, k, j)
  }

  /** A finished write that is not in the overlay is in the snapshot. */
  ghost predicate NothingMissing(st: State) {
    forall k, j :: k !in st.overlay && Done(st, k, j) ==> j < st.snap
  }

  ghost predicate Inv(st: State) {
    Bounded(st) && Exclusive(st) && OverlayRight(st) && NothingMissing(st)
  }

  lemma SubmitKeeps(st: State, e: Entry)
    requires Inv(st) && !Races(st, Submit(e))
    ensures Inv(Step(st, Submit(e)).value)
  {
    hide Touches, Apart;
    var st' := Step(st, Submit(e)).value;
    assert forall k, i :: Done(st', k, i) <==> Done(st, k, i);
    forall i, j | i in st'.pending && i < j < |st'.hist|
      ensures Apart(st'.hist[i], st'.hist[j])
    {
    }
  }

  lemma PublishDone(st: State, i: nat, st': State)
    requires Inv(st) && Step(st, Publish(i)) == Some(st')
    ensures forall k, j :: Done(st', k, j) <==> Done(st, k, j) || (j == i && Touches(st.hist[i], k))
  {
    hide Touches, Apart, Net;
  }

  lemma PublishKeeps(st: State, i: nat, st': State)
    requires Inv(st) && Step(st, Publish(i)) == Some(st')
    ensures Inv(st')
  {
    PublishDone(st, i, st');
    forall k | k in st'.overlay
      ensures var r := st'.overlay[k].record;
              && Done(st', k, r) && st'.overlay[k].delta == Net(st'.hist[r].Flatten())[k]
              && forall j :: r < j ==> !Done(st', k, j)
    {
      if Touches(st.hist[i], k) {
        forall j | i < j
          ensures !Done(st', k, j)
        {
          assert j < |st.hist| ==> Apart(st.hist[i], st.hist[j]);
        }
      }
    }
    hide Net;
  }

  lemma AbandonKeeps(st: State, i: nat, st': State)
    requires Inv(st) && Step(st, Abandon(i)) == Some(st')
    ensures Inv(st')
  {
    hide Touches, Apart, Net;
    assert forall k, j :: Done(st', k, j) <==> Done(st, k, j);
  }

  lemma SwapKeeps(st: State, st': State)
    requires Inv(st) && Step(st, Swap) == Some(st')
    ensures Inv(st')
  {
    hide Touches, Apart, Net;
    assert forall k, j :: Done(st', k, j) <==> Done(st, k, j);
  }

  lemma CutKeeps(st: State, st': State)
    requires Inv(st) && Step(st, Cut) == Some(st')
    ensures Inv(st')
  {
    hide Touches, Apart, Net;
    assert forall k, j :: Done(st', k, j) <==> Done(st, k, j);
  }

  lemma GiveUpKeeps(st: State, st': State)
    requires Inv(st) && Step(st, GiveUp) == Some(st')
    ensures Inv(st')
  {
    hide Touches, Apart, Net;
    assert forall k, j :: Done(st', k, j) <==> Done(st, k, j);
  }

  lemma PruneKeeps(st: State, st': State)
    requires Inv(st) && Step(st, Prune) == Some(st')
    ensures Inv(st')
  {
    hide Touches, Apart, Net;
    assert forall k, j :: Done(st', k, j) <==> Done(st, k, j);
    forall k, j | k !in st'.overlay && Done(st', k, j)
      ensures j < st'.snap
    {
      if k in st.overlay {
        assert j <= st.overlay[k].record < st.snap;
      }
    }
  }

  lemma StepKeeps(st: State, ev: Event, st': State)
    requires Inv(st) && !Races(st, ev) && Step(st, ev) == Some(st')
    ensures Inv(st') && st.hist <= st'.hist
  {
    hide Inv, Races;
    match ev
    case Submit(e) => SubmitKeeps(st, e);
    case Publish(i) => PublishKeeps(st, i, st');
    case Abandon(i) => AbandonKeeps(st, i, st');
    case GiveUp => GiveUpKeeps(st, st');
    case Cut => CutKeeps(st, st');
    case Swap => SwapKeeps(st, st');
    case Prune => PruneKeeps(st, st');
  }

  lemma {:induction false} RunKeeps(st: State, evs: seq<Event>, st': State)
    requires Inv(st) && Reaches(st, evs, st')
    ensures Inv(st') && st.hist <= st'.hist && st.snap <= st'.snap
    decreases |evs|
  {
    hide Inv, Races;
    if evs != [] {
      var next := Step(st, evs[0]).value;
      StepKeeps(st, evs[0], next);
      SnapshotsAdvance(st, evs[0], next);
      RunKeeps(next, evs[1..], st');
    }
  }

  lemma SnapshotsAdvance(st: State, ev: Event, st': State)
    requires Inv(st) && Step(st, ev) == Some(st')
    ensures st.snap <= st'.snap
  {
    hide Exclusive, OverlayRight, NothingMissing, Published, Pruned;
  }

  // ---- Reads ----

  /** lookup: the overlay as it was at its first step, else the snapshot current at its second. */
  function LookupIn(st0: State, st1: State, k: bytes): Option<bytes>
    requires st1.snap <= |st1.hist|
  {
    if k in st0.overlay then ValueOf(st0.overlay[k].delta) else ValueAt(st1.hist, st1.snap, k)
  }

  /** A result no older than the writes done by `st0`, no newer than the records logged by `st1`. */
  ghost predicate Current(st0: State, st1: State, k: bytes, r: Option<bytes>) {
    exists m :: CurrentAt(st0, st1, k, r, m)
  }

  ghost predicate CurrentAt(st0: State, st1: State, k: bytes, r: Option<bytes>, m: nat) {
    m <= |st1.hist| && r == ValueAt(st1.hist, m, k) && forall i :: Done(st0, k, i) ==> i < m
  }

  lemma OverlayValue(st: State, k: bytes)
    requires Inv(st) && k in st.overlay
    ensures st.overlay[k].record < |st.hist|
    ensures ValueOf(st.overlay[k].delta) == ValueAt(st.hist, st.overlay[k].record + 1, k)
    ensures forall i :: Done(st, k, i) ==> i < st.overlay[k].record + 1
  {
    hide Exclusive, Net, NothingMissing, ValueAt, ValueOf, Touches;
    ValueStep(st.hist, st.overlay[k].record, k);
  }

  /**
   * Live reads agree with history: however many writes are logged and published, and however far
   * checkpoints get, between the two steps of a lookup, it returns a value the key had between the
   * last write that was done before the call and the last one logged by its end.
   */
  lemma LookupIsCurrent(st0: State, evs: seq<Event>, st1: State, k: bytes)
    requires Inv(st0) && Reaches(st0, evs, st1)
    ensures st1.snap <= |st1.hist| && Current(st0, st1, k, LookupIn(st0, st1, k))
  {
    hide *;
    LookupLevelIs(st0, evs, st1, k);
    LookupLevelCovers(st0, evs, st1, k);
    IsCurrentAt(st0, st1, k, LookupLevel(st0, st1, k));
  }

  lemma IsCurrentAt(st0: State, st1: State, k: bytes, m: nat)
    requires m <= |st1.hist| && st1.snap <= |st1.hist| && LookupIn(st0, st1, k) == ValueAt(st1.hist, m, k)
    requires forall i :: Done(st0, k, i) ==> i < m
    ensures Current(st0, st1, k, LookupIn(st0, st1, k))
  {
    hide Done, ValueAt, LookupIn;
    assert CurrentAt(st0, st1, k, LookupIn(st0, st1, k), m);
  }

  /** How many records the value that a lookup returns is taken from. */
  function LookupLevel(st0: State, st1: State, k: bytes): nat {
    if k in st0.overlay then st0.overlay[k].record + 1 else st1.snap
  }

  lemma LookupLevelIs(st0: State, evs: seq<Event>, st1: State, k: bytes)
    requires Inv(st0) && Reaches(st0, evs, st1)
    ensures LookupLevel(st0, st1, k) <= |st1.hist| && st1.snap <= |st1.hist|
    ensures LookupIn(st0, st1, k) == ValueAt(st1.hist, LookupLevel(st0, st1, k), k)
  {
    hide Inv, ValueAt, Reaches, Touches, Net, ValueOf;
    RunKeeps(st0, evs, st1);
    SnapInHistory(st1);
    if k in st0.overlay {
      OverlayValue(st0, k);
      ValueSame(st0.hist, st1.hist, st0.overlay[k].record + 1, k);
    }
  }

  lemma LookupLevelCovers(st0: State, evs: seq<Event>, st1: State, k: bytes)
    requires Inv(st0) && Reaches(st0, evs, st1)
    ensures forall i :: Done(st0, k, i) ==> i < LookupLevel(st0, st1, k)
  {
    RunKeeps(st0, evs, st1);
    hide Reaches, Done, Exclusive;
  }

  lemma SnapInHistory(st: State)
    requires Inv(st)
    ensures st.snap <= |st.hist|
  {
    hide Exclusive, OverlayRight, NothingMissing;
  }

  // ---- When a later lookup goes back ----

  /** How many records the value is taken from, if overlay and snapshot are read at one moment. */
  function Level(st: State, k: bytes): nat {
    if k in st.overlay then st.overlay[k].record + 1 else st.snap
  }

  /** The number of records up to and with the last of the first `m` that changes the key. */
  function LastChange(hist: seq<Entry>, m: nat, k: bytes): (n: nat)
    requires m <= |hist|
    ensures n <= m
  {
    if m == 0 then 0 else if Touches(hist[m - 1], k) then m else LastChange(hist, m - 1, k)
  }

  lemma {:induction false} LastChangeIs(hist: seq<Entry>, m: nat, k: bytes)
    requires m <= |hist|
    ensures var n := LastChange(hist, m, k);
            Untouched(hist, n, m, k) && (n > 0 ==> Touches(hist[n - 1], k)) && ValueAt(hist, m, k) == ValueAt(hist, n, k)
    ensures m > 0 && Touches(hist[m - 1], k) ==> LastChange(hist, m, k) == m
  {
    hide Touches, ValueAt;
    if m > 0 {
      LastChangeIs(hist, m - 1, k);
    }
    ValueKept(hist, LastChange(hist, m, k), m, k);
  }

  lemma LastChangeMonotone(a: seq<Entry>, b: seq<Entry>, m: nat, n: nat, k: bytes)
    requires a <= b && m <= |a| && m <= n <= |b|
    ensures LastChange(a, m, k) <= LastChange(b, n, k)
  {
    hide Touches, LastChange, ValueAt;
    LastChangeIs(a, m, k);
    LastChangeIs(b, n, k);
  }

  lemma LevelInHistory(st: State, k: bytes)
    requires Inv(st)
    ensures Level(st, k) <= |st.hist|
  {
    hide Exclusive, Net, NothingMissing, Touches;
  }

  lemma LevelNeverDrops(st: State, ev: Event, st': State, k: bytes)
    requires Inv(st) && !Races(st, ev) && Step(st, ev) == Some(st')
    ensures Level(st, k) <= |st.hist| && Level(st', k) <= |st'.hist|
    ensures LastChange(st.hist, Level(st, k), k) <= LastChange(st'.hist, Level(st', k), k)
  {
    StepKeeps(st, ev, st');
    LevelInHistory(st, k);
    LevelInHistory(st', k);
    if Level(st, k) <= Level(st', k) {
      LastChangeMonotone(st.hist, st'.hist, Level(st, k), Level(st', k), k);
    } else {
      PublishIsLatest(st, ev, st', k);
      LastChangeMonotone(st.hist, st'.hist, Level(st', k), Level(st', k), k);
    }
  }

  /** No record after one that is still to be published changes a key it changes. */
  lemma NoLater(st: State, i: nat, j: nat, k: bytes)
    requires Exclusive(st) && i in st.pending && i < j < |st.hist| && Touches(st.hist[i], k)
    ensures !Touches(st.hist[j], k)
  {
    assert Apart(st.hist[i], st.hist[j]);
  }

  lemma PublishLowers(st: State, ev: Event, st': State, k: bytes)
    requires Inv(st) && Step(st, ev) == Some(st') && Level(st, k) > Level(st', k)
    ensures ev.Publish? && ev.i in st.pending && ev.i < |st.hist| && st'.hist == st.hist
    ensures Touches(st.hist[ev.i], k) && Level(st', k) == ev.i + 1
  {
    hide Net, Exclusive, NothingMissing;
  }

  /** Only a publication can lower the level, and then to the last change of the key there is. */
  lemma PublishIsLatest(st: State, ev: Event, st': State, k: bytes)
    requires Inv(st) && Step(st, ev) == Some(st') && Level(st, k) > Level(st', k)
    requires Level(st, k) <= |st.hist| && Level(st', k) <= |st'.hist|
    ensures LastChange(st.hist, Level(st, k), k) <= LastChange(st'.hist, Level(st', k), k)
  {
    hide Touches, Exclusive, OverlayRight, NothingMissing, Step, Level, LastChange, Untouched, ValueAt;
    PublishLowers(st, ev, st', k);
    LastChangeIs(st.hist, Level(st, k), k);
    LastChangeIs(st'.hist, Level(st', k), k);
    var n := LastChange(st.hist, Level(st, k), k);
    if n > ev.i + 1 {
      NoLater(st, ev.i, n - 1, k);
    }
  }

  lemma {:induction false} LevelsOfRun(st: State, evs: seq<Event>, st': State, k: bytes)
    requires Inv(st) && Reaches(st, evs, st')
    ensures Level(st, k) <= |st.hist| && Level(st', k) <= |st'.hist|
    ensures LastChange(st.hist, Level(st, k), k) <= LastChange(st'.hist, Level(st', k), k)
    decreases |evs|
  {
    hide Inv, Races, Level, LastChange, Touches;
    LevelInHistory(st, k);
    if evs != [] {
      var next := Step(st, evs[0]).value;
      StepKeeps(st, evs[0], next);
      LevelNeverDrops(st, evs[0], next, k);
      LevelsOfRun(next, evs[1..], st', k);
    }
  }

  /** The second of two consecutive lookups returns an older change of the key than the first. */
  predicate GoesBack(st0: State, st1: State, st2: State, st3: State, k: bytes) {
    && LookupLevel(st0, st1, k) <= |st1.hist| && LookupLevel(st2, st3, k) <= |st3.hist|
    && LastChange(st3.hist, LookupLevel(st2, st3, k), k) < LastChange(st1.hist, LookupLevel(st0, st1, k), k)
  }

  /** The snapshot holds a change of the key that is newer than the one in the overlay. */
  ghost predicate Behind(st: State, k: bytes) {
    k in st.overlay && exists j :: st.overlay[k].record < j < st.snap && j < |st.hist| && Touches(st.hist[j], k)
  }

  lemma BehindIs(st: State, k: bytes)
    requires Inv(st) && k in st.overlay
    ensures st.overlay[k].record < |st.hist|
    ensures Behind(st, k) <==>
            LastChange(st.hist, st.overlay[k].record + 1, k) < LastChange(st.hist, st.snap, k)
  {
    hide Inv, Touches, Net, LastChange, ValueAt;
    SnapInHistory(st);
    OverlayTouches(st, k);
    var r := st.overlay[k].record;
    LastChangeIs(st.hist, r + 1, k);
    LastChangeIs(st.hist, st.snap, k);
    var n := LastChange(st.hist, st.snap, k);
    if r + 1 < n {
      assert r < n - 1 < st.snap && Touches(st.hist[n - 1], k);
    }
  }

  lemma OverlayTouches(st: State, k: bytes)
    requires Inv(st) && k in st.overlay
    ensures st.overlay[k].record < |st.hist| && Touches(st.hist[st.overlay[k].record], k)
  {
    hide Exclusive, NothingMissing, Touches, Net;
    assert Done(st, k, st.overlay[k].record);
  }

  /** Such a change is one whose write has not succeeded: it is under way or was refused. */
  lemma BehindAnUnfinishedWrite(st: State, k: bytes)
    requires Inv(st) && Behind(st, k)
    ensures exists j :: j in st.pending + st.failed && st.overlay[k].record < j < st.snap && Touches(st.hist[j], k)
  {
    hide Exclusive, NothingMissing, Net;
    var j :| st.overlay[k].record < j < st.snap && j < |st.hist| && Touches(st.hist[j], k);
    assert !Done(st, k, j);
    assert j in st.pending + st.failed;
  }

  /** What the first lookup read is no newer than what is read at its end, unless `Behind`. */
  lemma FirstLookupAtMost(st0: State, evs: seq<Event>, st1: State, k: bytes)
    requires Inv(st0) && Reaches(st0, evs, st1) && (k in st0.overlay || !Behind(st1, k))
    ensures LookupLevel(st0, st1, k) <= |st1.hist| && Level(st1, k) <= |st1.hist|
    ensures LastChange(st1.hist, LookupLevel(st0, st1, k), k) <= LastChange(st1.hist, Level(st1, k), k)
  {
    hide Reaches, Inv, LastChange, Behind;
    RunKeeps(st0, evs, st1);
    LookupLevelIs(st0, evs, st1, k);
    LevelsOfRun(st0, evs, st1, k);
    if k in st0.overlay {
      SameLastChange(st0.hist, st1.hist, Level(st0, k), k);
    } else if k in st1.overlay {
      BehindIs(st1, k);
    }
  }

  lemma {:induction false} SameLastChange(a: seq<Entry>, b: seq<Entry>, m: nat, k: bytes)
    requires a <= b && m <= |a|
    ensures LastChange(a, m, k) == LastChange(b, m, k)
  {
    hide Touches;
    if m > 0 {
      SameLastChange(a, b, m - 1, k);
    }
  }

  lemma NeverBackUnlessBehind(st0: State, evs: seq<Event>, st1: State,
                              evs1: seq<Event>, st2: State, evs2: seq<Event>, st3: State, k: bytes)
    requires Inv(st0) && Reaches(st0, evs, st1) && (k in st0.overlay || !Behind(st1, k))
    requires Reaches(st1, evs1, st2) && Reaches(st2, evs2, st3)
    ensures !GoesBack(st0, st1, st2, st3, k)
  {
    hide Reaches, Inv, LastChange, Behind;
    RunKeeps(st0, evs, st1);
    RunKeeps(st1, evs1, st2);
    RunKeeps(st2, evs2, st3);
    FirstLookupAtMost(st0, evs, st1, k);
    LevelsOfRun(st1, evs1, st2, k);
    LookupLevelIs(st2, evs2, st3, k);
    LastChangeMonotone(st2.hist, st3.hist, Level(st2, k), LookupLevel(st2, st3, k), k);
  }

  /**
   * When lookups of a key go back. After a lookup, with any number of steps before, inside and
   * after the next one, some later lookup can return an older change exactly if the first one
   * missed the overlay, and at its end the overlay is behind the snapshot.
   */
  lemma LookupsGoBackIff(st0: State, evs: seq<Event>, st1: State, k: bytes)
    requires Inv(st0) && Reaches(st0, evs, st1)
    ensures (exists evs1, st2, evs2, st3 ::
               Reaches(st1, evs1, st2) && Reaches(st2, evs2, st3) && GoesBack(st0, st1, st2, st3, k)) <==>
            k !in st0.overlay && Behind(st1, k)
  {
    hide Inv, LastChange, Behind;
    if k !in st0.overlay && Behind(st1, k) {
      RunKeeps(st0, evs, st1);
      LookupLevelIs(st0, evs, st1, k);
      BehindOverlay(st1, k);
      BehindIs(st1, k);
      assert Reaches(st1, [], st1);
      assert GoesBack(st0, st1, st1, st1, k);
    } else {
      forall evs1, st2, evs2, st3 | Reaches(st1, evs1, st2) && Reaches(st2, evs2, st3)
        ensures !GoesBack(st0, st1, st2, st3, k)
      {
        NeverBackUnlessBehind(st0, evs, st1, evs1, st2, evs2, st3, k);
      }
    }
  }

  lemma BehindOverlay(st: State, k: bytes)
    requires Behind(st, k)
    ensures k in st.overlay
  {
  }

  // ---- The conditions cannot be dropped ----

  lemma RunThree(st: State, a: Event, b: Event, c: Event)
    requires Step(st, a).Some? && Step(Step(st, a).value, b).Some?
    ensures Run(st, [a, b, c]) == Step(Step(Step(st, a).value, b).value, c)
  {
    hide Step;
    var s1 := Step(st, a).value;
    var s2 := Step(s1, b).value;
    assert [a, b, c][1..] == [b, c] && [b, c][1..] == [c] && [c][1..] == [];
    assert Run(st, [a, b, c]) == Run(s1, [b, c]) == Run(s2, [c]);
    assert Step(s2, c).Some? ==> Run(Step(s2, c).value, []) == Step(s2, c);
  }

  /**
   * Whenever a write is logged while an earlier one to the same key is not published yet, publishing
   * the two in the other order leaves readers with the older change, both writes having returned.
   */
  lemma RaceCanReadStale(st: State, ev: Event) returns (evs: seq<Event>, st': State, k: bytes, i: nat)
    requires Inv(st) && Races(st, ev)
    ensures |evs| > 0 && evs[0] == ev && Run(st, evs) == Some(st')
    ensures Done(st', k, i) && Done(st', k, |st.hist|) && i < |st.hist| && st'.hist == st.hist + [ev.entry]
    ensures st'.snap <= |st'.hist| && LookupIn(st', st', k) == ValueOf(Net(st.hist[i].Flatten())[k])
  {
    hide OverlayRight, NothingMissing, Exclusive, Net;
    i :| i in st.pending && i < |st.hist| && !Apart(st.hist[i], ev.entry);
    k :| k in Net(st.hist[i].Flatten()).Keys && k in Net(ev.entry.Flatten()).Keys;
    evs := [ev, Publish(|st.hist|), Publish(i)];
    var s1 := Step(st, ev).value;
    var s2 := Step(s1, Publish(|st.hist|)).value;
    RunThree(st, ev, Publish(|st.hist|), Publish(i));
    st' := Step(s2, Publish(i)).value;
  }

  /** One write, from the empty database to its publication. */
  lemma OneWrite(e: Entry) returns (st: State)
    ensures Run(START, [Submit(e), Publish(0)]) == Some(st) && Inv(st)
    ensures st == State([e], {}, {}, Published(map[], 0, Net(e.Flatten())), 0, None, false)
  {
    StartsRight();
    hide Inv, Published, Net;
    var s1 := Step(START, Submit(e)).value;
    StepKeeps(START, Submit(e), s1);
    assert s1.hist == [e] && s1.pending == {0};
    st := Step(s1, Publish(0)).value;
    StepKeeps(s1, Publish(0), st);
    RunTwo(START, Submit(e), Publish(0));
  }

  lemma OneEvent(st: State, ev: Event)
    requires !Races(st, ev)
    ensures Orderly(st, [ev])
  {
    hide Races;
    assert [ev][1..] == [];
  }

  lemma RunTwo(st: State, a: Event, b: Event)
    requires Step(st, a).Some?
    ensures Run(st, [a, b]) == Step(Step(st, a).value, b)
  {
    hide Step;
    var s1 := Step(st, a).value;
    assert [a, b][1..] == [b] && [b][1..] == [];
    assert Run(st, [a, b]) == Run(s1, [b]);
    assert Step(s1, b).Some? ==> Run(Step(s1, b).value, []) == Step(s1, b);
  }

  lemma WholeCheckpoint(st: State) returns (st': State)
    requires st.cut.None?
    ensures Reaches(st, [Cut, Swap, Prune], st')
    ensures st' == State(st.hist, st.pending, st.failed, Pruned(st.overlay, |st.hist|), |st.hist|, None, false)
  {
    hide Pruned, Races;
    var s1 := Step(st, Cut).value;
    var s2 := Step(s1, Swap).value;
    RunThree(st, Cut, Swap, Prune);
    st' := Step(s2, Prune).value;
    NothingRaces(st, [Cut, Swap, Prune]);
  }

  lemma {:induction false} ReachesAppend(st: State, a: seq<Event>, mid: State, b: seq<Event>, st': State)
    requires Reaches(st, a, mid) && Reaches(mid, b, st')
    ensures Reaches(st, a + b, st')
    decreases |a|
  {
    hide Races, Step;
    if a == [] {
      assert [] + b == b;
    } else {
      ReachesAppend(Step(st, a[0]).value, a[1..], mid, b, st');
      assert (a + b)[1..] == a[1..] + b;
    }
  }

  /** The events that are left of a running checkpoint. */
  function Rest(st: State): seq<Event> {
    if st.cut.None? then [] else if st.swapped then [Prune] else [Swap, Prune]
  }

  lemma RestOfCheckpoint(st: State) returns (st': State)
    requires Inv(st)
    ensures Reaches(st, Rest(st), st') && st'.cut.None?
    ensures st'.hist == st.hist && st'.pending == st.pending && st'.failed == st.failed
  {
    hide Pruned, Races, Exclusive, OverlayRight, NothingMissing, Net;
    NothingRaces(st, Rest(st));
    if st.cut.None? {
      st' := st;
    } else if st.swapped {
      st' := Step(st, Prune).value;
      RunOne(st, Prune);
    } else {
      st' := Step(Step(st, Swap).value, Prune).value;
      RunTwo(st, Swap, Prune);
    }
  }

  /** Ending the running checkpoint, if there is one, and running another empties the overlay. */
  lemma CheckpointsEmptyOverlay(st: State) returns (st': State)
    requires Inv(st)
    ensures Reaches(st, Rest(st) + [Cut, Swap, Prune], st')
    ensures st'.overlay == map[] && st'.hist == st.hist && st'.snap == |st.hist| && st'.failed == st.failed
  {
    hide Reaches, Races, Inv;
    var mid := RestOfCheckpoint(st);
    st' := WholeCheckpoint(mid);
    ReachesAppend(st, Rest(st), mid, [Cut, Swap, Prune], st');
    RunKeeps(st, Rest(st), mid);
    NothingLeft(mid);
  }

  lemma NothingLeft(st: State)
    requires Inv(st)
    ensures Pruned(st.overlay, |st.hist|) == map[]
  {
    hide Exclusive, NothingMissing, Touches, Net;
    assert forall k :: k in st.overlay ==> Done(st, k, st.overlay[k].record);
  }

  /**
   * A write that was logged and then refused, because another one of its batch was too large, still
   * takes effect: checkpoints that follow bring its change into the snapshot, and lookups return it.
   */
  lemma RefusedWriteTakesEffect(st: State, i: nat, k: bytes) returns (evs: seq<Event>, st': State)
    requires Inv(st) && i in st.pending && i < |st.hist| && Touches(st.hist[i], k)
    ensures Reaches(st, evs, st') && evs != [] && evs[0] == Abandon(i) && Inv(st')
    ensures st'.snap <= |st'.hist| && st'.hist == st.hist && !Done(st', k, i)
    ensures LookupIn(st', st', k) == ValueOf(Net(st.hist[i].Flatten())[k])
  {
    hide *;
    var mid := Abandoned(st, i);
    st' := CheckpointsEmptyOverlay(mid);
    var rest := Rest(mid) + [Cut, Swap, Prune];
    evs := [Abandon(i)] + rest;
    ReachesAppend(st, [Abandon(i)], mid, rest, st');
    RunKeeps(mid, rest, st');
    NeverDone(st', i, k);
    NoLaterChange(st, i, k);
    LastValue(st.hist, i, k);
    EmptyOverlayLookup(st', k);
  }

  lemma Abandoned(st: State, i: nat) returns (st': State)
    requires Inv(st) && i in st.pending
    ensures Reaches(st, [Abandon(i)], st') && Inv(st') && st'.hist == st.hist && st'.failed == st.failed + {i}
  {
    st' := Step(st, Abandon(i)).value;
    AbandonKeeps(st, i, st');
    hide Inv, Races;
    RunOne(st, Abandon(i));
    NothingRaces(st, [Abandon(i)]);
  }

  lemma NeverDone(st: State, i: nat, k: bytes)
    ensures i in st.failed ==> !Done(st, k, i)
  {
  }

  lemma LastValue(hist: seq<Entry>, i: nat, k: bytes)
    requires i < |hist| && Touches(hist[i], k) && forall j :: i < j < |hist| ==> !Touches(hist[j], k)
    ensures ValueAt(hist, |hist|, k) == ValueOf(Net(hist[i].Flatten())[k])
  {
    hide Net, ValueAt, ValueOf, Touches;
    ValueStep(hist, i, k);
    ValueKept(hist, i + 1, |hist|, k);
  }

  lemma EmptyOverlayLookup(st: State, k: bytes)
    requires st.overlay == map[] && st.snap <= |st.hist|
    ensures LookupIn(st, st, k) == ValueAt(st.hist, st.snap, k)
  {
  }

  lemma NoLaterChange(st: State, i: nat, k: bytes)
    requires Inv(st) && i in st.pending && i < |st.hist| && Touches(st.hist[i], k)
    ensures forall j :: i < j < |st.hist| ==> !Touches(st.hist[j], k)
  {
    hide Touches, OverlayRight, NothingMissing, Bounded;
    forall j | i < j < |st.hist|
      ensures !Touches(st.hist[j], k)
    {
      NoLater(st, i, j, k);
    }
  }

  lemma RunOne(st: State, a: Event)
    requires Step(st, a).Some?
    ensures Run(st, [a]) == Step(st, a)
  {
    hide Step;
    assert [a][1..] == [];
    assert Run(Step(st, a).value, []) == Step(st, a);
  }

  /**
   * Two writes of a key, each published in turn as the code demands, and a checkpoint between: a
   * lookup returns the second write's change, and the next lookup the first write's.
   */
  lemma LookupCanGoBack(e1: Entry, e2: Entry, k: bytes)
    returns (st0: State, evs: seq<Event>, st1: State)
    requires Touches(e1, k) && Touches(e2, k)
    ensures Reaches(START, [Submit(e1)], st0) && Reaches(st0, evs, st1) && Inv(st1)
    ensures st1.hist == [e1, e2] && st1.snap == 2
    ensures LookupIn(st0, st1, k) == ValueOf(Net(e2.Flatten())[k])
    ensures LookupIn(st1, st1, k) == ValueOf(Net(e1.Flatten())[k])
    ensures GoesBack(st0, st1, st1, st1, k)
  {
    evs := [Publish(0), Submit(e2), Cut, Swap];
    st0 := State([e1], {0}, {}, map[], 0, None, false);
    st1 := State([e1, e2], {1}, {}, Published(map[], 0, Net(e1.Flatten())), 2, Some(2), true);
    AfterSubmit(e1, e2, st0, evs, st1);
    hide Net, Reaches, Inv, Published, Run, Orderly;
    StartsRight();
    RunKeeps(START, [Submit(e1)], st0);
    RunKeeps(st0, evs, st1);
    ValueStep([e1, e2], 1, k);
    PublishedHas(e1, k);
    hide Touches, ValueAt;
    LastChangeIs([e1, e2], 2, k);
    LastChangeIs([e1, e2], 1, k);
  }

  lemma PublishedHas(e: Entry, k: bytes)
    requires Touches(e, k)
    ensures var o := Published(map[], 0, Net(e.Flatten())); k in o && o[k] == Over(0, Net(e.Flatten())[k])
  {
    hide Net;
  }

  lemma AfterSubmit(e1: Entry, e2: Entry, st0: State, evs: seq<Event>, st1: State)
    requires evs == [Publish(0), Submit(e2), Cut, Swap]
    requires st0 == State([e1], {0}, {}, map[], 0, None, false)
    requires st1 == State([e1, e2], {1}, {}, Published(map[], 0, Net(e1.Flatten())), 2, Some(2), true)
    ensures Reaches(START, [Submit(e1)], st0) && Reaches(st0, evs, st1)
  {
    hide Net, Published, Apart;
    RunOne(START, Submit(e1));
    assert Step(START, Submit(e1)).value == st0;
    assert !Races(START, Submit(e1)) && [Submit(e1)][1..] == [] && Orderly(st0, []);
    var a := Step(st0, Publish(0)).value;
    var b := Step(a, Submit(e2)).value;
    assert [e1] + [e2] == [e1, e2];
    assert b == State([e1, e2], {1}, {}, st1.overlay, 0, None, false);
    RunTwo(st0, Publish(0), Submit(e2));
    RunTwo(b, Cut, Swap);
    NothingRaces(b, [Cut, Swap]);
    assert !Races(a, Submit(e2));
    assert [Publish(0), Submit(e2)][1..] == [Submit(e2)] && [Submit(e2)][1..] == [];
    assert Orderly(b, []) && Orderly(a, [Submit(e2)]);
    ReachesAppend(st0, [Publish(0), Submit(e2)], b, [Cut, Swap], st1);
    assert [Publish(0), Submit(e2)] + [Cut, Swap] == evs;
  }

  lemma {:induction false} NothingRaces(st: State, evs: seq<Event>)
    requires forall i :: 0 <= i < |evs| ==> !evs[i].Submit?
    ensures Orderly(st, evs)
    decreases |evs|
  {
    if evs != [] {
      assert !evs[0].Submit?;
      assert forall i :: 0 <= i < |evs| - 1 ==> evs[1..][i] == evs[i + 1];
      if Step(st, evs[0]).Some? {
        NothingRaces(Step(st, evs[0]).value, evs[1..]);
      }
    }
  }

  lemma StartsRight()
    ensures Inv(START)
  {
    hide Net;
  }
}
