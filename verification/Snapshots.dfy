/**
 * Reference-counted snapshots (mvcc/snapshot.go), as the interleaved atomic steps of any number of
 * readers and of one swapper at a time. A reader is one Acquire with its later Release.
 */
module Snapshots {
  import opened Wrappers

  /** Where a reader stands between two of its atomic operations. */
  datatype Pc =
    | Idle
    | Loaded(snap: nat)     // has read the current pointer
    | Added(snap: nat)      // has counted itself, has not looked again
    | Holding(snap: nat)    // Acquire has returned
    | Failing(snap: nat)    // a swap came in between: about to drop and retry
    | Zeroed(snap: nat)     // its decrement gave zero, has not read `retired`
    | Unmapping(snap: nat)  // has read `retired` as true
  {
    predicate Counts(s: nat) {
      (Added? || Holding? || Failing?) && snap == s
    }
  }

  datatype SwapPc =
    | Quiet
    | Swapped(gone: nat)     // the pointer is replaced, the old snapshot not marked yet
    | Marked(gone: nat)      // marked, its count not read yet
    | Reclaiming(gone: nat)  // has read zero

  /** Snapshots are numbered in the order they are opened; the newest is the current one. */
  datatype State = State(refs: seq<nat>, retired: set<nat>, unmaps: seq<nat>, readers: seq<Pc>, swapper: SwapPc) {
    function Current(): int { |refs| - 1 }
  }

  datatype Event =
    | Load(i: nat) | AddRef(i: nat) | Recheck(i: nat) | Decrement(i: nat) | ReadRetired(i: nat) | Unmap(i: nat)
    | Swap | Retire | ReadRefs | Reclaim

  function Initial(n: nat): State {
    State([0], {}, [], seq(n, _ => Idle), Quiet)
  }

  /** sync.Once: only the first call has an effect. */
  function Once(unmaps: seq<nat>, s: nat): seq<nat> {
    if s in unmaps then unmaps else unmaps + [s]
  }

  function At(st: State, i: nat, pc: Pc): State
    requires i < |st.readers|
  {
    st.(readers := st.readers[i := pc])
  }

  function ReaderStep(st: State, ev: Event, i: nat): Option<State>
    requires i < |st.readers|
  {
    match (ev, st.readers[i])
    case (Load(_), Idle) => if |st.refs| > 0 then Some(At(st, i, Loaded(|st.refs| - 1))) else None
    case (AddRef(_), Loaded(s)) =>
      if s < |st.refs| then Some(At(st, i, Added(s)).(refs := st.refs[s := st.refs[s] + 1])) else None
    case (Recheck(_), Added(s)) =>
      Some(At(st, i, if st.Current() == s then Holding(s) else Failing(s)))
    case (Decrement(_), Holding(s)) => Dropped(st, i, s)
    case (Decrement(_), Failing(s)) => Dropped(st, i, s)
    case (ReadRetired(_), Zeroed(s)) => Some(At(st, i, if s in st.retired then Unmapping(s) else Idle))
    case (Unmap(_), Unmapping(s)) => Some(At(st, i, Idle).(unmaps := Once(st.unmaps, s)))
    case _ => None
  }

  /** refs.Add(-1) and the comparison with zero. */
  function Dropped(st: State, i: nat, s: nat): Option<State>
    requires i < |st.readers|
  {
    if s < |st.refs| && st.refs[s] > 0 then
      Some(At(st, i, if st.refs[s] == 1 then Zeroed(s) else Idle).(refs := st.refs[s := st.refs[s] - 1]))
    else None
  }

  function SwapStep(st: State, ev: Event): Option<State> {
    match (ev, st.swapper)
    case (Swap, Quiet) =>
      if |st.refs| > 0 then Some(st.(refs := st.refs + [0], swapper := Swapped(|st.refs| - 1))) else None
    case (Retire, Swapped(s)) => Some(st.(retired := st.retired + {s}, swapper := Marked(s)))
    case (ReadRefs, Marked(s)) =>
      if s < |st.refs| then Some(st.(swapper := if st.refs[s] == 0 then Reclaiming(s) else Quiet)) else None
    case (Reclaim, Reclaiming(s)) => Some(st.(unmaps := Once(st.unmaps, s), swapper := Quiet))
    case _ => None
  }

  predicate ReaderEvent(ev: Event) {
    ev.Load? || ev.AddRef? || ev.Recheck? || ev.Decrement? || ev.ReadRetired? || ev.Unmap?
  }

  /** One atomic operation of one thread; None where it is not that thread's next operation. */
  function Step(st: State, ev: Event): Option<State> {
    if ReaderEvent(ev) then
      if ev.i < |st.readers| then ReaderStep(st, ev, ev.i) else None
    else SwapStep(st, ev)
  }

  function Run(st: State, evs: seq<Event>): Option<State>
    decreases |evs|
  {
    if evs == [] then Some(st)
    else
      match Step(st, evs[0])
      case None => None
      case Some(next) => Run(next, evs[1..])
  }

  // ---- Counting ----

  function Count(readers: seq<Pc>, s: nat): nat {
    if readers == [] then 0 else (if readers[0].Counts(s) then 1 else 0) + Count(readers[1..], s)
  }

  lemma {:induction false} CountUpdate(readers: seq<Pc>, i: nat, pc: Pc, s: nat)
    requires i < |readers|
    ensures Count(readers[i := pc], s) + (if readers[i].Counts(s) then 1 else 0)
         == Count(readers, s) + (if pc.Counts(s) then 1 else 0)
  {
    var updated := readers[i := pc];
    if i == 0 {
      assert updated[1..] == readers[1..];
    } else {
      CountUpdate(readers[1..], i - 1, pc, s);
      assert updated[1..] == readers[1..][i - 1 := pc];
    }
  }

  lemma {:induction false} CountedIsPositive(readers: seq<Pc>, i: nat, s: nat)
    requires i < |readers| && readers[i].Counts(s)
    ensures Count(readers, s) > 0
  {
    if i > 0 {
      CountedIsPositive(readers[1..], i - 1, s);
    }
  }

  lemma {:induction false} CountIdle(readers: seq<Pc>, s: nat)
    requires forall i :: 0 <= i < |readers| ==> readers[i].Idle?
    ensures Count(readers, s) == 0
  {
    if readers != [] {
      CountIdle(readers[1..], s);
    }
  }

  // ---- What every run keeps ----

  ghost predicate NoDuplicates(s: seq<nat>) {
    forall i, j :: 0 <= i < j < |s| ==> s[i] != s[j]
  }

  /** Every count is the number of readers that have counted themselves. */
  ghost predicate Counted(st: State) {
    |st.refs| > 0 && forall s :: 0 <= s < |st.refs| ==> st.refs[s] == Count(st.readers, s)
  }

  /** Exactly the replaced snapshots are retired, but for the one a swap is about to mark. */
  ghost predicate RetiredRight(st: State) {
    && (forall s :: s in st.retired <==> 0 <= s < |st.refs| - 1 && !(st.swapper.Swapped? && st.swapper.gone == s))
    && (!st.swapper.Quiet? ==> st.swapper.gone == |st.refs| - 2)
    && (forall i :: 0 <= i < |st.readers| && !st.readers[i].Idle? ==> st.readers[i].snap < |st.refs|)
    && (forall i :: 0 <= i < |st.readers| && st.readers[i].Unmapping? ==> st.readers[i].snap in st.retired)
    && (forall s :: s in st.unmaps ==> s in st.retired)
    && NoDuplicates(st.unmaps)
  }

  /** Somebody is on the way to unmapping `s`, or to finding out that it must. */
  ghost predicate Pending(st: State, s: nat) {
    || (!st.swapper.Quiet? && st.swapper.gone == s)
    || exists i :: 0 <= i < |st.readers| && (st.readers[i] == Zeroed(s) || st.readers[i] == Unmapping(s))
  }

  ghost predicate NoneForgotten(st: State) {
    forall s :: s in st.retired && s < |st.refs| && st.refs[s] == 0 && s !in st.unmaps ==> Pending(st, s)
  }

  ghost predicate Inv(st: State) {
    Counted(st) && RetiredRight(st) && NoneForgotten(st)
  }

  lemma StartsRight(n: nat)
    ensures Inv(Initial(n)) && Undisturbed(Initial(n))
  {
    CountIdle(Initial(n).readers, 0);
  }

  lemma ReaderKeepsCount(st: State, ev: Event, i: nat, st': State)
    requires Counted(st) && i < |st.readers| && ReaderStep(st, ev, i) == Some(st')
    ensures Counted(st') && |st'.refs| == |st.refs| && |st'.readers| == |st.readers|
  {
    forall s | 0 <= s < |st.refs|
      ensures st'.refs[s] == Count(st'.readers, s)
    {
      CountUpdate(st.readers, i, st'.readers[i], s);
    }
  }

  lemma {:induction false} NotYetOpened(readers: seq<Pc>, s: nat)
    requires forall i :: 0 <= i < |readers| && !readers[i].Idle? ==> readers[i].snap < s
    ensures Count(readers, s) == 0
  {
    if readers != [] {
      assert forall i :: 0 <= i < |readers| - 1 ==> readers[1..][i] == readers[i + 1];
      NotYetOpened(readers[1..], s);
    }
  }

  lemma SwapKeepsCount(st: State, ev: Event, st': State)
    requires Counted(st) && RetiredRight(st) && SwapStep(st, ev) == Some(st')
    ensures Counted(st') && |st'.refs| >= |st.refs| && st'.readers == st.readers
  {
    NotYetOpened(st.readers, |st.refs|);
  }

  lemma ReaderKeepsRetired(st: State, ev: Event, i: nat, st': State)
    requires RetiredRight(st) && Counted(st) && i < |st.readers| && ReaderStep(st, ev, i) == Some(st')
    ensures RetiredRight(st')
  {
    hide Count;
  }

  lemma SwapKeepsRetired(st: State, ev: Event, st': State)
    requires RetiredRight(st) && Counted(st) && SwapStep(st, ev) == Some(st')
    ensures RetiredRight(st')
  {
    hide Count;
  }

  lemma ReaderForgetsNone(st: State, ev: Event, i: nat, st': State)
    requires Inv(st) && i < |st.readers| && ReaderStep(st, ev, i) == Some(st')
    ensures NoneForgotten(st')
  {
    hide Count;
    forall s | s in st'.retired && s < |st'.refs| && st'.refs[s] == 0 && s !in st'.unmaps
      ensures Pending(st', s)
    {
      StillPending(st, ev, i, st', s);
    }
  }

  lemma StillPending(st: State, ev: Event, i: nat, st': State, s: nat)
    requires Inv(st) && i < |st.readers| && ReaderStep(st, ev, i) == Some(st')
    requires s in st'.retired && s < |st'.refs| && st'.refs[s] == 0 && s !in st'.unmaps
    ensures Pending(st', s)
  {
    hide Count;
    assert s in st.retired && s !in st.unmaps;
    if st.refs[s] != 0 {
      assert st'.readers[i] == Zeroed(s);
    } else if !(!st.swapper.Quiet? && st.swapper.gone == s) {
      assert Pending(st, s);
      var j :| 0 <= j < |st.readers| && (st.readers[j] == Zeroed(s) || st.readers[j] == Unmapping(s));
      assert st'.readers[j] == Zeroed(s) || st'.readers[j] == Unmapping(s);
    }
  }

  lemma SwapForgetsNone(st: State, ev: Event, st': State)
    requires Inv(st) && SwapStep(st, ev) == Some(st')
    ensures NoneForgotten(st')
  {
    hide Count;
    forall s | s in st'.retired && s < |st'.refs| && st'.refs[s] == 0 && s !in st'.unmaps
      ensures Pending(st', s)
    {
      if !(!st'.swapper.Quiet? && st'.swapper.gone == s) {
        assert s in st.retired;
        assert Pending(st, s);
        var j :| 0 <= j < |st.readers| && (st.readers[j] == Zeroed(s) || st.readers[j] == Unmapping(s));
        assert st'.readers[j] == st.readers[j];
      }
    }
  }

  lemma StepKeeps(st: State, ev: Event, st': State)
    requires Inv(st) && Step(st, ev) == Some(st')
    ensures Inv(st') && |st'.readers| == |st.readers|
  {
    hide Counted, RetiredRight, NoneForgotten, ReaderStep, SwapStep;
    if ReaderEvent(ev) {
      ReaderKeepsCount(st, ev, ev.i, st');
      ReaderKeepsRetired(st, ev, ev.i, st');
      ReaderForgetsNone(st, ev, ev.i, st');
    } else {
      SwapKeepsCount(st, ev, st');
      SwapKeepsRetired(st, ev, st');
      SwapForgetsNone(st, ev, st');
    }
  }

  /** In every run: counts are right, no snapshot is unmapped twice, and none is forgotten. */
  lemma {:induction false} RunKeeps(st: State, evs: seq<Event>, st': State)
    requires Inv(st) && Run(st, evs) == Some(st')
    ensures Inv(st') && |st'.readers| == |st.readers|
    decreases |evs|
  {
    if evs != [] {
      var next := Step(st, evs[0]).value;
      StepKeeps(st, evs[0], next);
      RunKeeps(next, evs[1..], st');
    }
  }

  /**
   * In every run: once a replaced snapshot has no references, no swap is under way and no reader is
   * in the middle of a Release, it has been unmapped exactly once.
   */
  lemma ReclaimedExactlyOnce(n: nat, evs: seq<Event>, st: State, s: nat)
    requires Run(Initial(n), evs) == Some(st)
    requires s < st.Current() && st.refs[s] == 0 && st.swapper.Quiet?
    requires forall i :: 0 <= i < |st.readers| ==> st.readers[i] != Zeroed(s) && st.readers[i] != Unmapping(s)
    ensures multiset(st.unmaps)[s] == 1
  {
    StartsRight(n);
    RunKeeps(Initial(n), evs, st);
    assert s in st.retired && !Pending(st, s);
    OnceOnly(st.unmaps, s);
  }

  lemma {:induction false} OnceOnly(unmaps: seq<nat>, s: nat)
    requires NoDuplicates(unmaps) && s in unmaps
    ensures multiset(unmaps)[s] == 1
  {
    var last := |unmaps| - 1;
    assert unmaps == unmaps[..last] + [unmaps[last]];
    if unmaps[last] == s {
      assert s !in unmaps[..last];
    } else {
      OnceOnly(unmaps[..last], s);
    }
  }

  /** No operation waits: between Acquire and Release every reader always has a next step. */
  lemma NeverBlocked(st: State, i: nat)
    requires Inv(st) && i < |st.readers|
    ensures exists ev: Event :: ReaderEvent(ev) && ev.i == i && Step(st, ev).Some?
  {
    var pc := st.readers[i];
    if pc.Holding? || pc.Failing? {
      CountedIsPositive(st.readers, i, pc.snap);
    }
    hide Count;
    var ev := match pc
      case Idle => Load(i)
      case Loaded(_) => AddRef(i)
      case Added(_) => Recheck(i)
      case Holding(_) => Decrement(i)
      case Failing(_) => Decrement(i)
      case Zeroed(_) => ReadRetired(i)
      case Unmapping(_) => Unmap(i);
    assert ReaderEvent(ev) && ev.i == i && Step(st, ev).Some?;
  }

  // ---- What Acquire returns ----

  /** How many times the current pointer has been replaced. */
  function Swaps(evs: seq<Event>): nat {
    if evs == [] then 0 else (if evs[0].Swap? then 1 else 0) + Swaps(evs[1..])
  }

  lemma StepSwaps(st: State, ev: Event, st': State)
    requires Step(st, ev) == Some(st')
    ensures st'.Current() == st.Current() + (if ev.Swap? then 1 else 0)
  {
  }

  /** The current snapshot is the one the last swap installed. */
  lemma {:induction false} CurrentIsNewest(st: State, evs: seq<Event>, st': State)
    requires Run(st, evs) == Some(st')
    ensures st'.Current() == st.Current() + Swaps(evs)
    decreases |evs|
  {
    hide Step;
    if evs != [] {
      StepSwaps(st, evs[0], Step(st, evs[0]).value);
      CurrentIsNewest(Step(st, evs[0]).value, evs[1..], st');
    }
  }

  /** In every run a reader comes to hold a snapshot only at a moment when it is the newest. */
  lemma HoldsOnlyTheNewest(n: nat, evs: seq<Event>, st: State, ev: Event, st': State, i: nat, s: nat)
    requires Run(Initial(n), evs) == Some(st) && Step(st, ev) == Some(st') && i < |st.readers|
    requires |st'.readers| == |st.readers| && st'.readers[i] == Holding(s) && st.readers[i] != Holding(s)
    ensures ev == Recheck(i) && s == Swaps(evs)
  {
    CurrentIsNewest(Initial(n), evs, st);
  }

  ghost predicate OfOthers(evs: seq<Event>, i: nat) {
    forall k :: 0 <= k < |evs| ==> ReaderEvent(evs[k]) ==> evs[k].i != i
  }

  lemma OtherStep(st: State, ev: Event, st': State, i: nat)
    requires Inv(st) && i < |st.readers| && Step(st, ev) == Some(st') && (ReaderEvent(ev) ==> ev.i != i)
    ensures Inv(st') && |st'.readers| == |st.readers| && st'.readers[i] == st.readers[i]
  {
    StepKeeps(st, ev, st');
    hide Inv;
  }

  lemma {:induction false} OthersLeave(st: State, evs: seq<Event>, st': State, i: nat)
    requires Inv(st) && i < |st.readers| && Run(st, evs) == Some(st') && OfOthers(evs, i)
    ensures Inv(st') && |st'.readers| == |st.readers| && st'.readers[i] == st.readers[i]
    decreases |evs|
  {
    hide Inv, Step;
    if evs != [] {
      assert forall k :: 0 <= k < |evs| - 1 ==> evs[1..][k] == evs[k + 1];
      OtherStep(st, evs[0], Step(st, evs[0]).value, i);
      OthersLeave(Step(st, evs[0]).value, evs[1..], st', i);
    }
  }

  /** A held snapshot counts one reader more than the others that are counted in. */
  lemma HeldCounts(st: State, i: nat, s: nat)
    requires Inv(st) && i < |st.readers| && st.readers[i] == Holding(s)
    ensures s < |st.refs| && st.refs[s] == Count(st.readers[i := Idle], s) + 1
  {
    CountUpdate(st.readers, i, Idle, s);
    hide Count, NoneForgotten;
  }

  lemma Attempt(st: State, i: nat, a: seq<Event>, b: seq<Event>, st': State)
    requires Inv(st) && i < |st.readers| && st.readers[i] == Idle && st.Current() >= 0
    requires OfOthers(a, i) && OfOthers(b, i)
    requires Run(st, [Load(i)] + a + [AddRef(i)] + b + [Recheck(i)]) == Some(st')
    ensures Inv(st') && |st'.readers| == |st.readers|
    ensures st'.readers[i] == if Swaps(a) + Swaps(b) == 0 then Holding(st.Current()) else Failing(st.Current())
  {
    hide Count, Inv, Run;
    RunNext(st, [Load(i)] + a + [AddRef(i)] + b, Recheck(i));
    var s4 := Run(st, [Load(i)] + a + [AddRef(i)] + b).value;
    RunAppend(st, [Load(i)] + a + [AddRef(i)], b);
    var s3 := Run(st, [Load(i)] + a + [AddRef(i)]).value;
    RunNext(st, [Load(i)] + a, AddRef(i));
    var s2 := Run(st, [Load(i)] + a).value;
    RunAppend(st, [Load(i)], a);
    RunOne(st, Load(i));
    var s1 := Step(st, Load(i)).value;
    StepKeeps(st, Load(i), s1);
    OthersLeave(s1, a, s2, i);
    CurrentIsNewest(s1, a, s2);
    StepKeeps(s2, AddRef(i), s3);
    OthersLeave(s3, b, s4, i);
    CurrentIsNewest(s3, b, s4);
    StepKeeps(s4, Recheck(i), st');
  }

  /**
   * Acquire: whatever other threads do between its steps, an attempt ends holding the newest
   * snapshot, which then counts one reader more than the others, if no swap came between its two
   * looks at the pointer; and if one did, it ends about to try again.
   */
  lemma AcquireReturnsTheNewest(n: nat, before: seq<Event>, st: State, i: nat, a: seq<Event>, b: seq<Event>, st': State)
    requires Run(Initial(n), before) == Some(st) && i < |st.readers| && st.readers[i] == Idle
    requires OfOthers(a, i) && OfOthers(b, i)
    requires Run(st, [Load(i)] + a + [AddRef(i)] + b + [Recheck(i)]) == Some(st')
    ensures |st'.readers| == |st.readers|
    ensures var s := Swaps(before);
            if Swaps(a) + Swaps(b) == 0 then
              st'.readers[i] == Holding(s) && s < |st'.refs| && st'.refs[s] == Count(st'.readers[i := Idle], s) + 1
            else st'.readers[i] == Failing(s)
  {
    StartsRight(n);
    RunKeeps(Initial(n), before, st);
    CurrentIsNewest(Initial(n), before, st);
    hide Count, Inv, Run, Swaps;
    Attempt(st, i, a, b, st');
    if Swaps(a) + Swaps(b) == 0 {
      HeldCounts(st', i, Swaps(before));
    }
  }

  lemma OwnStep(st: State, evs: seq<Event>, mid: State, i: nat, ev: Event) returns (evs': seq<Event>, st': State)
    requires Run(st, evs) == Some(mid) && Inv(mid) && Step(mid, ev).Some? && ReaderEvent(ev) && ev.i == i
    requires forall k :: 0 <= k < |evs| ==> ReaderEvent(evs[k]) && evs[k].i == i
    ensures evs' == evs + [ev] && Run(st, evs') == Some(st') && Step(mid, ev) == Some(st') && Inv(st')
    ensures forall k :: 0 <= k < |evs'| ==> ReaderEvent(evs'[k]) && evs'[k].i == i
    ensures |st'.readers| == |mid.readers| && st'.Current() == mid.Current()
  {
    hide Inv, Run;
    evs', st' := ExtendRun(st, evs, mid, ev);
    StepKeeps(mid, ev, st');
    StepSwaps(mid, ev, st');
  }

  /** Ends the Release a reader is in, or the attempt that a swap came between. */
  lemma LetGo(st: State, i: nat) returns (evs: seq<Event>, st': State)
    requires Inv(st) && i < |st.readers| && !st.readers[i].Loaded? && !st.readers[i].Added?
    ensures Run(st, evs) == Some(st') && |evs| <= 3 && Inv(st') && |st'.readers| == |st.readers|
    ensures forall k :: 0 <= k < |evs| ==> ReaderEvent(evs[k]) && evs[k].i == i
    ensures st'.readers[i] == Idle && st'.Current() == st.Current()
  {
    hide Inv, Step, Run;
    ReleaseSteps(st, i);
    evs, st' := [], st;
    Stands(st);
    if st'.readers[i].Holding? || st'.readers[i].Failing? {
      evs, st' := OwnStep(st, evs, st', i, Decrement(i));
    }
    ReleaseSteps(st', i);
    if st'.readers[i].Zeroed? {
      evs, st' := OwnStep(st, evs, st', i, ReadRetired(i));
    }
    ReleaseSteps(st', i);
    if st'.readers[i].Unmapping? {
      evs, st' := OwnStep(st, evs, st', i, Unmap(i));
    }
  }

  lemma Stands(st: State)
    ensures Run(st, []) == Some(st)
  {
  }

  /** The steps of a Release, each with where it leads. */
  lemma ReleaseSteps(st: State, i: nat)
    requires Inv(st) && i < |st.readers|
    ensures st.readers[i].Holding? || st.readers[i].Failing? ==>
              var next := Step(st, Decrement(i));
              next.Some? && i < |next.value.readers| && (next.value.readers[i].Zeroed? || next.value.readers[i].Idle?)
    ensures st.readers[i].Zeroed? ==>
              var next := Step(st, ReadRetired(i));
              next.Some? && i < |next.value.readers| && (next.value.readers[i].Unmapping? || next.value.readers[i].Idle?)
    ensures st.readers[i].Unmapping? ==>
              var next := Step(st, Unmap(i)); next.Some? && i < |next.value.readers| && next.value.readers[i].Idle?
  {
    var pc := st.readers[i];
    if pc.Holding? || pc.Failing? {
      CountedIsPositive(st.readers, i, pc.snap);
    }
    hide Count, NoneForgotten;
  }

  /** From between two calls, or with an attempt that failed: left alone, a reader comes to hold the
      newest snapshot within six steps. */
  lemma AcquireEnds(st: State, i: nat) returns (evs: seq<Event>, st': State)
    requires Inv(st) && i < |st.readers| && !st.readers[i].Loaded? && !st.readers[i].Added?
    ensures Run(st, evs) == Some(st') && |evs| <= 6 && Inv(st') && |st'.readers| == |st.readers|
    ensures forall k :: 0 <= k < |evs| ==> ReaderEvent(evs[k]) && evs[k].i == i
    ensures st'.readers[i] == Holding(st.Current()) && st'.Current() == st.Current()
  {
    CurrentExists(st);
    hide Count, Inv;
    evs, st' := LetGo(st, i);
    evs, st' := OwnStep(st, evs, st', i, Load(i));
    evs, st' := OwnStep(st, evs, st', i, AddRef(i));
    evs, st' := OwnStep(st, evs, st', i, Recheck(i));
  }

  lemma CurrentExists(st: State)
    requires Inv(st)
    ensures st.Current() >= 0
  {
  }

  // ---- When a held snapshot stays mapped ----

  /** A reader is using a snapshot whose mapping is gone. */
  ghost predicate Violated(st: State) {
    exists i :: 0 <= i < |st.readers| && st.readers[i].Holding? && st.readers[i].snap in st.unmaps
  }

  /**
   * Release takes two steps: it drops the count to zero and then reads `retired`. The event is
   * harmful exactly when a reader succeeds in acquiring a snapshot between those two steps.
   */
  ghost predicate Harmful(st: State, ev: Event) {
    && ev.Recheck? && ev.i < |st.readers| && st.readers[ev.i].Added? && st.readers[ev.i].snap == st.Current()
    && exists j :: 0 <= j < |st.readers| && st.readers[j] == Zeroed(st.readers[ev.i].snap)
  }

  ghost predicate Careful(st: State, evs: seq<Event>)
    decreases |evs|
  {
    evs != [] ==>
      && !Harmful(st, evs[0])
      && (Step(st, evs[0]).Some? ==> Careful(Step(st, evs[0]).value, evs[1..]))
  }

  /** Nobody is on the way to unmapping a snapshot that is held. */
  ghost predicate Undisturbed(st: State) {
    forall i :: 0 <= i < |st.readers| && st.readers[i].Holding? ==>
      var s := st.readers[i].snap;
      && s !in st.unmaps && st.swapper != Reclaiming(s)
      && forall j :: 0 <= j < |st.readers| ==> st.readers[j] != Zeroed(s) && st.readers[j] != Unmapping(s)
  }

  lemma NobodyHolds(st: State, s: nat)
    requires Counted(st) && s < |st.refs| && st.refs[s] == 0
    ensures forall i :: 0 <= i < |st.readers| ==> st.readers[i] != Holding(s)
  {
    forall i | 0 <= i < |st.readers|
      ensures st.readers[i] != Holding(s)
    {
      if st.readers[i] == Holding(s) {
        CountedIsPositive(st.readers, i, s);
      }
    }
  }

  lemma ReaderDisturbsNobody(st: State, ev: Event, i: nat, st': State)
    requires Inv(st) && Inv(st') && Undisturbed(st) && i < |st.readers| && ReaderStep(st, ev, i) == Some(st')
    requires ReaderEvent(ev) && ev.i == i && !Harmful(st, ev)
    ensures Undisturbed(st')
  {
    if st'.readers[i].Zeroed? {
      NobodyHolds(st', st'.readers[i].snap);
    }
    hide Count, Counted, NoneForgotten;
  }

  lemma SwapDisturbsNobody(st: State, ev: Event, st': State)
    requires Inv(st) && Inv(st') && Undisturbed(st) && SwapStep(st, ev) == Some(st')
    ensures Undisturbed(st')
  {
    if st'.swapper.Reclaiming? {
      NobodyHolds(st', st'.swapper.gone);
    }
    hide Count, Counted, NoneForgotten;
  }

  /** If no harmful step is taken, no reader ever uses an unmapped snapshot. */
  lemma {:induction false} CarefulRunsAreSafe(st: State, evs: seq<Event>, st': State)
    requires Inv(st) && Undisturbed(st) && Careful(st, evs) && Run(st, evs) == Some(st')
    ensures Undisturbed(st') && !Violated(st')
    decreases |evs|
  {
    if evs != [] {
      var next := Step(st, evs[0]).value;
      StepKeeps(st, evs[0], next);
      hide Inv;
      if ReaderEvent(evs[0]) {
        ReaderDisturbsNobody(st, evs[0], evs[0].i, next);
      } else {
        SwapDisturbsNobody(st, evs[0], next);
      }
      CarefulRunsAreSafe(next, evs[1..], st');
    }
  }

  lemma {:induction false} RunAppend(st: State, a: seq<Event>, b: seq<Event>)
    ensures Run(st, a + b) == match Run(st, a) case None => None case Some(mid) => Run(mid, b)
    decreases |a|
  {
    if a == [] {
      assert a + b == b;
    } else {
      assert (a + b)[1..] == a[1..] + b;
      if Step(st, a[0]).Some? {
        RunAppend(Step(st, a[0]).value, a[1..], b);
      }
    }
  }

  lemma RunOne(st: State, ev: Event)
    ensures Run(st, [ev]) == Step(st, ev)
  {
    assert Step(st, ev).Some? ==> Run(Step(st, ev).value, [ev][1..]) == Step(st, ev);
  }

  lemma RunNext(st: State, evs: seq<Event>, ev: Event)
    ensures Run(st, evs + [ev]) == match Run(st, evs) case None => None case Some(mid) => Step(mid, ev)
  {
    RunAppend(st, evs, [ev]);
    if Run(st, evs).Some? {
      RunOne(Run(st, evs).value, ev);
    }
  }

  /** The swap under way, if any, can always be finished without touching the readers. */
  lemma FinishSwap(st: State) returns (evs: seq<Event>, st': State)
    requires Inv(st)
    ensures Run(st, evs) == Some(st') && Inv(st') && st'.swapper.Quiet?
    ensures st'.readers == st.readers && st'.refs == st.refs
  {
    assert !st.swapper.Quiet? ==> st.swapper.gone < |st.refs|;
    hide Count, Inv, Run;
    Stands(st);
    evs, st' := [], st;
    if st'.swapper.Swapped? {
      evs, st' := ExtendRun(st, evs, st', Retire);
    }
    if st'.swapper.Marked? {
      evs, st' := ExtendRun(st, evs, st', ReadRefs);
    }
    if st'.swapper.Reclaiming? {
      evs, st' := ExtendRun(st, evs, st', Reclaim);
    }
  }

  lemma ExtendRun(st: State, evs: seq<Event>, mid: State, ev: Event) returns (evs': seq<Event>, st': State)
    requires Run(st, evs) == Some(mid) && Inv(mid) && Step(mid, ev).Some?
    ensures evs' == evs + [ev] && st' == Step(mid, ev).value && Run(st, evs') == Some(st') && Inv(st')
  {
    evs', st' := evs + [ev], Step(mid, ev).value;
    RunNext(st, evs, ev);
    StepKeeps(mid, ev, st');
  }

  /** The swap that comes next unmaps the snapshot that `i` holds, by the hand of `j`. */
  lemma TakeAway(st: State, i: nat, j: nat, s: nat) returns (evs: seq<Event>, st': State)
    requires Inv(st) && st.swapper.Quiet? && s == st.Current() && i < |st.readers| && j < |st.readers|
    requires st.readers[i] == Holding(s) && st.readers[j] == Zeroed(s)
    ensures Run(st, evs) == Some(st') && Violated(st')
  {
    hide Count, Inv, Run;
    Stands(st);
    evs, st' := ExtendRun(st, [], st, Swap);
    evs, st' := ExtendRun(st, evs, st', Retire);
    evs, st' := ExtendRun(st, evs, st', ReadRetired(j));
    evs, st' := ExtendRun(st, evs, st', Unmap(j));
    assert st'.readers[i].Holding? && st'.readers[i].snap in st'.unmaps;
  }

  /** Every harmful step can be continued to a state in which the acquired snapshot is gone. */
  lemma HarmCanBeDone(st: State, ev: Event) returns (evs: seq<Event>, st': State)
    requires Inv(st) && Harmful(st, ev)
    ensures Run(st, evs) == Some(st') && evs != [] && evs[0] == ev && Violated(st')
  {
    var i, s := ev.i, st.readers[ev.i].snap;
    var j :| 0 <= j < |st.readers| && st.readers[j] == Zeroed(s);
    hide Count, Inv;
    evs, st' := ExtendRun(st, [], st, ev);
    var rest, quiet := FinishSwap(st');
    RunAppend(st, evs, rest);
    var last, end := TakeAway(quiet, i, j, s);
    RunAppend(st, evs + rest, last);
    evs, st' := evs + rest + last, end;
  }

  /**
   * The condition is exact: a run that takes a harmful step has the same beginning, up to and with
   * that step, as a run in which a reader uses an unmapped snapshot.
   */
  lemma {:induction false} CarelessRunsCanGoWrong(st: State, evs: seq<Event>)
    returns (k: nat, evs': seq<Event>, st': State)
    requires Inv(st) && Run(st, evs).Some? && !Careful(st, evs)
    ensures 0 < k <= |evs| && k <= |evs'| && evs'[..k] == evs[..k]
    ensures Run(st, evs') == Some(st') && Violated(st')
    decreases |evs|
  {
    if Harmful(st, evs[0]) {
      evs', st' := HarmCanBeDone(st, evs[0]);
      k := 1;
    } else {
      var next := Step(st, evs[0]).value;
      StepKeeps(st, evs[0], next);
      hide Inv, Harmful, Step;
      k, evs', st' := CarelessRunsCanGoWrong(next, evs[1..]);
      k, evs' := k + 1, [evs[0]] + evs';
      Prefixed(evs, evs', k);
    }
  }

  lemma Prefixed(a: seq<Event>, b: seq<Event>, k: nat)
    requires 0 < k <= |a| && k <= |b| && a[0] == b[0] && a[1..][..k - 1] == b[1..][..k - 1]
    ensures a[..k] == b[..k]
  {
    assert a[..k] == [a[0]] + a[1..][..k - 1];
    assert b[..k] == [b[0]] + b[1..][..k - 1];
  }

  function Two(count: nat, a: Pc, b: Pc): State {
    State([count], {}, [], [a, b], Quiet)
  }

  lemma Updates(n: nat, m: nat, a: Pc, b: Pc, c: Pc)
    ensures [n][0 := m] == [m] && [a, b][0 := c] == [c, b] && [a, b][1 := c] == [a, c]
  {
  }

  lemma TwoReadersStep()
    ensures Initial(2) == Two(0, Idle, Idle)
    ensures Step(Two(0, Idle, Idle), Load(0)) == Some(Two(0, Loaded(0), Idle))
    ensures Step(Two(0, Loaded(0), Idle), AddRef(0)) == Some(Two(1, Added(0), Idle))
    ensures Step(Two(1, Added(0), Idle), Recheck(0)) == Some(Two(1, Holding(0), Idle))
  {
    assert Initial(2).readers == [Idle, Idle];
    Updates(0, 0, Idle, Idle, Loaded(0));
    Updates(0, 1, Loaded(0), Idle, Added(0));
    Updates(1, 1, Added(0), Idle, Holding(0));
  }

  lemma TwoReadersGoOn()
    ensures Step(Two(1, Holding(0), Idle), Decrement(0)) == Some(Two(0, Zeroed(0), Idle))
    ensures Step(Two(0, Zeroed(0), Idle), Load(1)) == Some(Two(0, Zeroed(0), Loaded(0)))
    ensures Step(Two(0, Zeroed(0), Loaded(0)), AddRef(1)) == Some(Two(1, Zeroed(0), Added(0)))
  {
    Updates(1, 0, Holding(0), Idle, Zeroed(0));
    Updates(0, 0, Zeroed(0), Idle, Loaded(0));
    Updates(0, 1, Zeroed(0), Loaded(0), Added(0));
  }

  lemma AnotherReaderComes() returns (evs: seq<Event>, st: State)
    ensures Run(Initial(2), evs) == Some(st) && Inv(st) && st == Two(1, Zeroed(0), Added(0))
  {
    hide Count, Inv, Run, Step, Two, Initial;
    StartsRight(2);
    var start := Initial(2);
    Stands(start);
    TwoReadersStep();
    TwoReadersGoOn();
    evs, st := ExtendRun(start, [], start, Load(0));
    evs, st := ExtendRun(start, evs, st, AddRef(0));
    evs, st := ExtendRun(start, evs, st, Recheck(0));
    evs, st := ExtendRun(start, evs, st, Decrement(0));
    evs, st := ExtendRun(start, evs, st, Load(1));
    evs, st := ExtendRun(start, evs, st, AddRef(1));
  }

  /** It does happen: two readers and one swap are enough. */
  lemma HeldSnapshotCanBeUnmapped() returns (evs: seq<Event>, st: State)
    ensures Run(Initial(2), evs) == Some(st) && Violated(st)
  {
    hide Count, Inv, Run, Step, Violated;
    evs, st := AnotherReaderComes();
    assert st.readers[0] == Zeroed(0);
    assert Harmful(st, Recheck(1));
    var rest, end := HarmCanBeDone(st, Recheck(1));
    RunAppend(Initial(2), evs, rest);
    evs, st := evs + rest, end;
  }
}
