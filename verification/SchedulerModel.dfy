/** The scheduler as a step machine: callers that schedule, one caller that starts and stops, one timing thread, and a
    clock.  Each step is one stretch of code under the scheduler's mutex, or one atomic access outside it.
    Requests are named by their insertion order: `accepted[o]` is the request with insertion order `o`. */
module SchedulerModel {
  import opened Orders
  import opened Results

  datatype Item<+P> = Item(
    forwardAt: int, order: nat, id: nat, subscriber: Option<nat>, eventId: nat, superstep: nat, payload: P)

  /** `lhs` has the lower priority: its deadline is later, or equal and it was inserted later. */
  predicate EarlierDeadline<P>(lhs: Item<P>, rhs: Item<P>) {
    if lhs.forwardAt != rhs.forwardAt then lhs.forwardAt > rhs.forwardAt
    else lhs.order > rhs.order
  }

  lemma EarlierDeadlineIsOrder<P(!new)>()
    ensures StrictWeakOrder<Item<P>>(EarlierDeadline)
  {
    var less: (Item<P>, Item<P>) -> bool := EarlierDeadline;
    forall a, b, c | less(a, c) ensures less(a, b) || less(b, c) {
      assert EarlierDeadline(a, b) || EarlierDeadline(b, c);
    }
  }

  /** A positive count of nanoseconds as a time point of a clock whose tick is `tick` nanoseconds long. */
  function TimePointOf(nanoseconds: int, tick: int): int
    requires nanoseconds > 0 && tick > 0
  {
    nanoseconds / tick
  }

  /** The time point is the last tick that is not after the nanosecond asked for.  So a clock that has reached it is less
      than one tick before that nanosecond, and is never before it exactly when the nanoseconds are whole ticks. */
  lemma TimePointPrecision(nanoseconds: int, tick: int, reading: int)
    requires nanoseconds > 0 && tick > 0 && reading >= TimePointOf(nanoseconds, tick)
    ensures TimePointOf(nanoseconds, tick) * tick <= nanoseconds < (TimePointOf(nanoseconds, tick) + 1) * tick
    ensures reading * tick > nanoseconds - tick
    ensures nanoseconds % tick == 0 ==> reading * tick >= nanoseconds
    ensures nanoseconds % tick != 0 ==> TimePointOf(nanoseconds, tick) * tick < nanoseconds
  {
    var t := TimePointOf(nanoseconds, tick);
    assert nanoseconds == t * tick + nanoseconds % tick;
    assert (reading - t) * tick >= 0;
    assert reading * tick == t * tick + (reading - t) * tick;
  }

  // ---------- States and steps ----------

  /** Where the timing thread is. */
  datatype Phase =
    | NoThread                                    // not started, or joined
    | LoopTop                                     // about to test for a stop request
    | AwaitWork                                   // waiting for the heap to fill
    | AwaitDeadline(deadline: int, order: nat)    // waiting for the observed root to come due
    | Publishing(due: nat, extractedAt: int)      // publishing, mutex released
    | Backoff                                     // waiting before a retry, mutex released
    | Exited                                      // returned from its loop, not yet joined

  /** How far a call of `stop` has come. */
  datatype Stopping = NotStopping | Refusing | Requested

  datatype Outcome = Forwarded | Failed

  datatype Done = Done(order: nat, outcome: Outcome, extractedAt: int, doneAt: int)

  datatype State<P> = State(
    accepted: seq<Item<P>>, pending: set<nat>, finished: seq<Done>,
    accepting: bool, running: bool, stopRequested: bool, stopping: Stopping,
    phase: Phase, now: int,
    scheduledCount: nat, forwardedCount: nat, failedCount: nat)

  datatype Step<P> =
    | Schedule(forwardAt: int, subscriber: Option<nat>, eventId: nat, superstep: nat, payload: P)
    | Start(created: bool)
    | Refuse | RequestStop | Join
    | Exit | Idle | WakeForWork | Observe(order: nat) | Interrupt | Abandon | Extract(order: nat)
    | Forward | Fail | Overflow | EndBackoff
    | Tick(time: int)

  function Initial<P>(now: int): State<P> {
    State([], {}, [], false, false, false, NotStopping, NoThread, now, 0, 0, 0)
  }

  /** Request `a` comes before request `b` in (deadline, insertion order). */
  predicate Earlier<P>(s: State<P>, a: nat, b: nat)
    requires a < |s.accepted| && b < |s.accepted|
  {
    EarlierDeadline(s.accepted[b], s.accepted[a])
  }

  predicate IsRoot<P>(s: State<P>, o: nat) {
    && o in s.pending && (forall p :: p in s.pending ==> p < |s.accepted|)
    && forall p :: p in s.pending && p != o ==> Earlier(s, o, p)
  }

  /** What the timed wait tests: the heap is empty, or it has a root before the one observed. */
  predicate RootChanged<P>(s: State<P>, deadline: int, order: nat) {
    || s.pending == {}
    || exists p :: p in s.pending && p < |s.accepted| &&
         (s.accepted[p].forwardAt < deadline || (s.accepted[p].forwardAt == deadline && p < order))
  }

  predicate Enabled<P>(s: State<P>, step: Step<P>) {
    match step
    case Schedule(_, _, _, _, _) => s.accepting
    case Start(_) => s.stopping == NotStopping && !s.running
    case Refuse => s.stopping == NotStopping
    case RequestStop => s.stopping == Refusing
    case Join => s.stopping == Requested && (s.phase == NoThread || s.phase == Exited)
    case Exit => s.phase == LoopTop && s.stopRequested
    case Idle => s.phase == LoopTop && !s.stopRequested && s.pending == {}
    case WakeForWork => s.phase == AwaitWork && (s.stopRequested || s.pending != {})
    case Observe(o) => s.phase == LoopTop && !s.stopRequested && IsRoot(s, o)
    case Interrupt =>
      s.phase.AwaitDeadline? && !s.stopRequested && RootChanged(s, s.phase.deadline, s.phase.order)
    case Abandon => s.phase.AwaitDeadline? && s.stopRequested
    case Extract(o) =>
      && s.phase.AwaitDeadline? && !s.stopRequested && !RootChanged(s, s.phase.deadline, s.phase.order)
      && s.now >= s.phase.deadline && IsRoot(s, o)
    case Forward => s.phase.Publishing?
    case Fail => s.phase.Publishing?
    case Overflow => s.phase.Publishing?
    case EndBackoff => s.phase == Backoff
    case Tick(_) => true
  }

  function Apply<P>(s: State<P>, step: Step<P>): State<P>
    requires Enabled(s, step)
  {
    match step
    case Schedule(at, subscriber, event, superstep, payload) =>
      var o := |s.accepted|;
      s.(accepted := s.accepted + [Item(at, o, o + 1, subscriber, event, superstep, payload)],
         pending := s.pending + {o}, scheduledCount := s.scheduledCount + 1)
    case Start(created) =>
      if created then s.(accepting := true, running := true, stopRequested := false, phase := LoopTop)
      else s.(accepting := false, running := false)
    case Refuse => s.(accepting := false, stopping := Refusing)
    case RequestStop => s.(stopRequested := s.phase != NoThread, stopping := Requested)
    case Join => s.(phase := NoThread, running := false, stopping := NotStopping)
    case Exit => s.(phase := Exited)
    case Idle => s.(phase := AwaitWork)
    case WakeForWork => s.(phase := LoopTop)
    case Observe(o) => s.(phase := AwaitDeadline(s.accepted[o].forwardAt, o))
    case Interrupt => s.(phase := LoopTop)
    case Abandon => s.(phase := Exited)
    case Extract(o) => s.(pending := s.pending - {o}, phase := Publishing(o, s.now))
    case Forward =>
      s.(finished := s.finished + [Done(s.phase.due, Forwarded, s.phase.extractedAt, s.now)],
         forwardedCount := s.forwardedCount + 1, phase := LoopTop)
    case Fail =>
      s.(finished := s.finished + [Done(s.phase.due, Failed, s.phase.extractedAt, s.now)],
         failedCount := s.failedCount + 1, phase := LoopTop)
    case Overflow => s.(pending := s.pending + {s.phase.due}, phase := Backoff)
    case EndBackoff => s.(phase := LoopTop)
    case Tick(t) => s.(now := t)
  }

  // ---------- The invariant ----------

  /** Request `o` is among the first `j` that left the scheduler. */
  predicate DoneBefore(finished: seq<Done>, o: nat, j: nat)
    requires j <= |finished|
  {
    exists i :: 0 <= i < j && finished[i].order == o
  }

  predicate IsDone(finished: seq<Done>, o: nat) {
    DoneBefore(finished, o, |finished|)
  }

  predicate InFlight(phase: Phase, o: nat) {
    phase.Publishing? && phase.due == o
  }

  /** Each accepted request is in exactly one place: pending, finished (once), or in flight. */
  ghost predicate Conserved<P>(s: State<P>) {
    && (forall o :: o in s.pending ==> o < |s.accepted| && !IsDone(s.finished, o) && !InFlight(s.phase, o))
    && (forall i :: 0 <= i < |s.finished| ==> s.finished[i].order < |s.accepted| && !InFlight(s.phase, s.finished[i].order))
    && (forall i, j :: 0 <= i < j < |s.finished| ==> s.finished[i].order != s.finished[j].order)
    && (s.phase.Publishing? ==> s.phase.due < |s.accepted|)
    && (forall o :: 0 <= o < |s.accepted| ==> o in s.pending || IsDone(s.finished, o) || InFlight(s.phase, o))
  }

  /** Requests are numbered in the order of their acceptance. */
  ghost predicate Numbered<P>(s: State<P>) {
    forall o :: 0 <= o < |s.accepted| ==> s.accepted[o].order == o && s.accepted[o].id == o + 1
  }

  /** `a` was accepted first and is due no later: it must leave the scheduler first. */
  predicate MustPrecede<P>(accepted: seq<Item<P>>, a: nat, b: nat)
    requires a < |accepted| && b < |accepted|
  {
    a < b && accepted[a].forwardAt <= accepted[b].forwardAt
  }

  ghost predicate InOrder<P>(s: State<P>)
    requires Conserved(s)
  {
    && (forall j, a :: 0 <= j < |s.finished| && 0 <= a < |s.accepted| && MustPrecede(s.accepted, a, s.finished[j].order) ==>
          DoneBefore(s.finished, a, j))
    && (s.phase.Publishing? ==> forall a :: 0 <= a < |s.accepted| && MustPrecede(s.accepted, a, s.phase.due) ==> IsDone(s.finished, a))
  }

  ghost predicate NeverEarly<P>(s: State<P>)
    requires Conserved(s)
  {
    && (forall j :: 0 <= j < |s.finished| ==> s.accepted[s.finished[j].order].forwardAt <= s.finished[j].extractedAt)
    && (s.phase.Publishing? ==> s.accepted[s.phase.due].forwardAt <= s.phase.extractedAt)
  }

  /** While the thread waits for a deadline, the request it observed stays in the heap. */
  ghost predicate Observing<P>(s: State<P>) {
    s.phase.AwaitDeadline? ==>
      s.phase.order in s.pending && s.phase.order < |s.accepted| && s.accepted[s.phase.order].forwardAt == s.phase.deadline
  }

  function CountOf(finished: seq<Done>, outcome: Outcome): nat {
    if finished == [] then 0
    else CountOf(finished[..|finished| - 1], outcome) + if finished[|finished| - 1].outcome == outcome then 1 else 0
  }

  ghost predicate Counted<P>(s: State<P>) {
    && s.scheduledCount == |s.accepted|
    && s.forwardedCount == CountOf(s.finished, Forwarded)
    && s.failedCount == CountOf(s.finished, Failed)
    && s.scheduledCount == |s.pending| + s.forwardedCount + s.failedCount + if s.phase.Publishing? then 1 else 0
  }

  /** The flags agree with the life of the thread. */
  ghost predicate Flagged<P>(s: State<P>) {
    && (s.accepting <==> s.running && s.stopping == NotStopping)
    && (s.running <==> s.phase != NoThread)
    && (s.phase == Exited ==> s.stopRequested)
    && (s.stopRequested && s.stopping != Requested ==> s.phase == NoThread)
  }

  ghost predicate Inv<P>(s: State<P>) {
    Conserved(s) && Numbered(s) && InOrder(s) && NeverEarly(s) && Observing(s) && Counted(s) && Flagged(s)
  }

  // ---------- Every step keeps the invariant ----------

  lemma ScheduleConserves<P>(s: State<P>, step: Step<P>)
    requires Inv(s) && step.Schedule? && Enabled(s, step)
    ensures Conserved(Apply(s, step)) && Numbered(Apply(s, step)) && Counted(Apply(s, step))
  {
    var t, n := Apply(s, step), |s.accepted|;
    assert forall o :: 0 <= o < n ==> t.accepted[o] == s.accepted[o];
    assert n !in s.pending;
  }

  lemma ScheduleKeepsOrder<P>(s: State<P>, step: Step<P>)
    requires Inv(s) && step.Schedule? && Enabled(s, step)
    ensures Conserved(Apply(s, step))
    ensures InOrder(Apply(s, step)) && NeverEarly(Apply(s, step)) && Observing(Apply(s, step)) && Flagged(Apply(s, step))
  {
    var t, n := Apply(s, step), |s.accepted|;
    ScheduleConserves(s, step);
    assert forall o :: 0 <= o < n ==> t.accepted[o] == s.accepted[o];
    assert forall a, b :: 0 <= a < n && 0 <= b < n ==> MustPrecede(t.accepted, a, b) == MustPrecede(s.accepted, a, b);
    assert forall b :: 0 <= b < n ==> !MustPrecede(t.accepted, n, b);
  }

  /** The timing thread takes exactly the request it observed, when that is due. */
  lemma ExtractsObserved<P>(s: State<P>, step: Step<P>)
    requires Inv(s) && step.Extract? && Enabled(s, step)
    ensures step.order == s.phase.order && s.accepted[step.order].forwardAt <= s.now
  {
    assert step.order == s.phase.order || Earlier(s, step.order, s.phase.order);
  }

  lemma ExtractConserves<P>(s: State<P>, step: Step<P>)
    requires Inv(s) && step.Extract? && Enabled(s, step)
    ensures Conserved(Apply(s, step)) && Numbered(Apply(s, step)) && Counted(Apply(s, step))
  {
    assert |s.pending - {step.order}| == |s.pending| - 1;
  }

  lemma ExtractKeepsOrder<P>(s: State<P>, step: Step<P>)
    requires Inv(s) && step.Extract? && Enabled(s, step)
    ensures Conserved(Apply(s, step))
    ensures InOrder(Apply(s, step)) && NeverEarly(Apply(s, step)) && Observing(Apply(s, step)) && Flagged(Apply(s, step))
  {
    ExtractConserves(s, step);
    ExtractsObserved(s, step);
    forall a | 0 <= a < |s.accepted| && MustPrecede(s.accepted, a, step.order) ensures IsDone(s.finished, a) {
      assert a !in s.pending;
    }
  }

  /** One more request leaves. */
  lemma DoneGrows(finished: seq<Done>, d: Done)
    ensures forall o: nat, j: nat | j <= |finished| :: DoneBefore(finished + [d], o, j) == DoneBefore(finished, o, j)
    ensures forall o: nat :: IsDone(finished + [d], o) <==> IsDone(finished, o) || o == d.order
  {
    var longer, n := finished + [d], |finished|;
    forall o: nat | IsDone(finished, o) || o == d.order ensures IsDone(longer, o) {
      if o == d.order {
        assert longer[n].order == o;
      } else {
        var i :| 0 <= i < n && finished[i].order == o;
        assert longer[i].order == o;
      }
    }
    forall o: nat, j: nat | j <= n ensures DoneBefore(longer, o, j) == DoneBefore(finished, o, j) {
      assert forall i :: 0 <= i < j ==> longer[i] == finished[i];
    }
    forall o: nat | IsDone(longer, o) ensures IsDone(finished, o) || o == d.order {
      var i :| 0 <= i < n + 1 && longer[i].order == o;
      if i < n { assert finished[i].order == o; }
    }
  }

  lemma FinishConserves<P>(s: State<P>, step: Step<P>)
    requires Inv(s) && (step.Forward? || step.Fail?) && Enabled(s, step)
    ensures Conserved(Apply(s, step)) && Numbered(Apply(s, step))
  {
    hide InOrder, NeverEarly, Observing, Counted, Flagged, DoneBefore;
    var t, n := Apply(s, step), |s.finished|;
    DoneGrows(s.finished, t.finished[n]);
    assert forall i :: 0 <= i < n ==> t.finished[i] == s.finished[i];
  }

  lemma FinishCounts<P>(s: State<P>, step: Step<P>)
    requires Inv(s) && (step.Forward? || step.Fail?) && Enabled(s, step)
    ensures Counted(Apply(s, step))
  {
    hide Conserved, Numbered, InOrder, NeverEarly, Observing, Flagged, CountOf;
    CountNext(s.finished, Apply(s, step).finished[|s.finished|]);
  }

  lemma {:induction false} CountNext(finished: seq<Done>, d: Done)
    ensures forall outcome :: CountOf(finished + [d], outcome) == CountOf(finished, outcome) + if d.outcome == outcome then 1 else 0
  {
    assert (finished + [d])[..|finished|] == finished;
  }

  lemma FinishKeepsOrder<P>(s: State<P>, step: Step<P>)
    requires Inv(s) && (step.Forward? || step.Fail?) && Enabled(s, step)
    ensures Conserved(Apply(s, step))
    ensures InOrder(Apply(s, step)) && NeverEarly(Apply(s, step)) && Observing(Apply(s, step)) && Flagged(Apply(s, step))
  {
    var t, n := Apply(s, step), |s.finished|;
    FinishConserves(s, step);
    DoneGrows(s.finished, t.finished[n]);
    assert forall i :: 0 <= i < n ==> t.finished[i] == s.finished[i];
    forall j, a | 0 <= j < n + 1 && 0 <= a < |t.accepted| && MustPrecede(t.accepted, a, t.finished[j].order)
      ensures DoneBefore(t.finished, a, j)
    {
      if j == n { assert IsDone(s.finished, a); }
    }
  }

  /** A request that finds a partition full goes back and loses nothing. */
  lemma OverflowKeeps<P>(s: State<P>, step: Step<P>)
    requires Inv(s) && step.Overflow? && Enabled(s, step)
    ensures Inv(Apply(s, step))
  {
    assert s.phase.due !in s.pending;
  }

  /** Steps that touch neither the heap nor a request in flight. */
  predicate Quiet<P>(step: Step<P>) {
    !step.Schedule? && !step.Extract? && !step.Forward? && !step.Fail? && !step.Overflow?
  }

  lemma QuietKeeps<P>(s: State<P>, step: Step<P>)
    requires Inv(s) && Quiet(step) && Enabled(s, step)
    ensures Inv(Apply(s, step))
  {
    hide DoneBefore, CountOf, MustPrecede;
    var t := Apply(s, step);
    assert t.phase.Publishing? || s.phase.Publishing? ==> t.phase == s.phase;
  }

  lemma StepKeeps<P>(s: State<P>, step: Step<P>)
    requires Inv(s) && Enabled(s, step)
    ensures Inv(Apply(s, step))
  {
    if step.Schedule? {
      ScheduleConserves(s, step);
      ScheduleKeepsOrder(s, step);
    } else if step.Extract? {
      ExtractConserves(s, step);
      ExtractKeepsOrder(s, step);
    } else if step.Forward? || step.Fail? {
      FinishConserves(s, step);
      FinishCounts(s, step);
      FinishKeepsOrder(s, step);
    } else if step.Overflow? {
      OverflowKeeps(s, step);
    } else {
      QuietKeeps(s, step);
    }
  }

  // ---------- Whole runs ----------

  /** `steps` can happen one after the other in a new scheduler. */
  ghost predicate Possible<P>(now: int, steps: seq<Step<P>>)
    decreases |steps|, 0
  {
    steps != [] ==> var n := |steps| - 1; Possible(now, steps[..n]) && Enabled(After(now, steps[..n]), steps[n])
  }

  ghost function After<P>(now: int, steps: seq<Step<P>>): State<P>
    requires Possible(now, steps)
    decreases |steps|, 1
  {
    if steps == [] then Initial(now) else var n := |steps| - 1; Apply(After(now, steps[..n]), steps[n])
  }

  lemma InitialInv<P>(now: int)
    ensures Inv(Initial<P>(now))
  {}

  lemma StepGrows<P>(s: State<P>, step: Step<P>)
    requires Enabled(s, step)
    ensures s.accepted <= Apply(s, step).accepted && s.finished <= Apply(s, step).finished
  {}

  lemma {:induction false} AfterNext<P>(now: int, steps: seq<Step<P>>, step: Step<P>)
    requires Possible(now, steps) && Enabled(After(now, steps), step)
    ensures Possible(now, steps + [step]) && After(now, steps + [step]) == Apply(After(now, steps), step)
  {
    assert (steps + [step])[..|steps|] == steps;
  }

  lemma {:induction false} Reached<P>(now: int, steps: seq<Step<P>>)
    requires Possible(now, steps)
    ensures Inv(After(now, steps))
  {
    hide Inv, Enabled, Apply, Initial;
    if steps == [] {
      InitialInv<P>(now);
    } else {
      var n := |steps| - 1;
      Reached(now, steps[..n]);
      StepKeeps(After(now, steps[..n]), steps[n]);
    }
  }

  /** What has been accepted and what has left is never revised. */
  lemma {:induction false} RunGrows<P>(now: int, steps: seq<Step<P>>, k: nat)
    requires Possible(now, steps) && k <= |steps|
    ensures Possible(now, steps[..k])
    ensures After(now, steps[..k]).accepted <= After(now, steps).accepted
    ensures After(now, steps[..k]).finished <= After(now, steps).finished
  {
    hide Enabled, Apply;
    if k == |steps| {
      assert steps[..k] == steps;
    } else {
      var n := |steps| - 1;
      RunGrows(now, steps[..n], k);
      StepGrows(After(now, steps[..n]), steps[n]);
      assert steps[..n][..k] == steps[..k];
    }
  }

  /** In every interleaving of callers, clock and timing thread: a request accepted first and due no later is forwarded
      or failed first. */
  lemma {:induction false} ForwardedInOrder<P>(now: int, steps: seq<Step<P>>, a: nat, b: nat, j: nat)
    requires Possible(now, steps)
    requires var s := After(now, steps);
      && a < b < |s.accepted| && s.accepted[a].forwardAt <= s.accepted[b].forwardAt
      && j < |s.finished| && s.finished[j].order == b
    ensures var s := After(now, steps);
      exists i :: 0 <= i < j && s.finished[i].order == a
  {
    hide Possible, After;
    Reached(now, steps);
    var s := After(now, steps);
    assert MustPrecede(s.accepted, a, s.finished[j].order);
    assert DoneBefore(s.finished, a, j);
  }

  /** No request is lost or duplicated by stops, restarts and retries. */
  lemma {:induction false} RequestsConserved<P>(now: int, steps: seq<Step<P>>)
    requires Possible(now, steps)
    ensures var s := After(now, steps);
      && (forall o :: 0 <= o < |s.accepted| ==>
            && (o in s.pending || IsDone(s.finished, o) || InFlight(s.phase, o))
            && !(o in s.pending && IsDone(s.finished, o)) && !(o in s.pending && InFlight(s.phase, o))
            && !(IsDone(s.finished, o) && InFlight(s.phase, o)))
      && (forall i, j :: 0 <= i < j < |s.finished| ==> s.finished[i].order != s.finished[j].order)
      && s.scheduledCount == |s.pending| + s.forwardedCount + s.failedCount + (if s.phase.Publishing? then 1 else 0)
      && (!s.running ==> !s.phase.Publishing?)
  {
    hide Possible, After;
    Reached(now, steps);
  }

  /** No request leaves the heap before the clock has read its deadline. */
  lemma {:induction false} ExtractedOnTime<P>(now: int, steps: seq<Step<P>>)
    requires Possible(now, steps)
    ensures var s := After(now, steps);
      && (forall j :: 0 <= j < |s.finished| ==>
            s.finished[j].order < |s.accepted| && s.accepted[s.finished[j].order].forwardAt <= s.finished[j].extractedAt)
  {
    hide Possible, After;
    Reached(now, steps);
  }

  // ---------- The path of the timing thread ----------

  predicate OfThread<P>(step: Step<P>) {
    || step.Exit? || step.Idle? || step.WakeForWork? || step.Observe? || step.Interrupt? || step.Abandon? || step.Extract?
    || EndsFlight(step) || step.EndBackoff?
  }

  /** What the timed wait tests tells exactly whether the observed request is still the first one. */
  lemma RootChangedExactly<P>(s: State<P>)
    requires Inv(s) && s.phase.AwaitDeadline?
    ensures RootChanged(s, s.phase.deadline, s.phase.order) <==> !IsRoot(s, s.phase.order)
  {
    if !RootChanged(s, s.phase.deadline, s.phase.order) {
      forall p | p in s.pending && p != s.phase.order ensures Earlier(s, s.phase.order, p) {}
    } else if s.pending != {} {
      var p :|
        && p in s.pending && p < |s.accepted|
        && (s.accepted[p].forwardAt < s.phase.deadline || (s.accepted[p].forwardAt == s.phase.deadline && p < s.phase.order));
      assert !Earlier(s, s.phase.order, p);
    }
  }

  /** Where the thread can go from where it is. */
  ghost predicate Moves<P>(s: State<P>, t: State<P>) {
    match s.phase
    case NoThread => false
    case Exited => false
    case LoopTop =>
      && t.pending == s.pending && t.finished == s.finished
      && if s.stopRequested then t.phase == Exited
         else if s.pending == {} then t.phase == AwaitWork
         else
           && t.phase.AwaitDeadline? && IsRoot(s, t.phase.order)
           && t.phase.deadline == s.accepted[t.phase.order].forwardAt
    case AwaitWork =>
      (s.stopRequested || s.pending != {}) && t == s.(phase := LoopTop)
    case AwaitDeadline(deadline, order) =>
      && t.finished == s.finished
      && if s.stopRequested then t == s.(phase := Exited)
         else if !IsRoot(s, order) then t == s.(phase := LoopTop)
         else s.now >= deadline && t == s.(pending := s.pending - {order}, phase := Publishing(order, s.now))
    case Publishing(due, extractedAt) =>
      || (t.phase == LoopTop && t.pending == s.pending
          && exists outcome :: t.finished == s.finished + [Done(due, outcome, extractedAt, s.now)])
      || t == s.(pending := s.pending + {due}, phase := Backoff)
    case Backoff => t == s.(phase := LoopTop)
  }

  lemma {:induction false} ThreadMoves<P>(s: State<P>, step: Step<P>)
    requires Inv(s) && Enabled(s, step) && OfThread(step)
    ensures Moves(s, Apply(s, step))
    ensures EndsFlight(step) <==> s.phase.Publishing?
  {
    hide Conserved, Numbered, InOrder, NeverEarly, Counted, Flagged, IsRoot, RootChanged;
    if s.phase.AwaitDeadline? {
      RootChangedExactly(s);
      if step.Extract? { ExtractsObserved(s, step); }
    }
    if s.phase.LoopTop? && step.Observe? { RootIsPending(s, step.order); }
    if EndsFlight(step) && !step.Overflow? { EndsPublishing(s, step); }
  }

  lemma RootIsPending<P>(s: State<P>, o: nat)
    ensures IsRoot(s, o) ==> o in s.pending && o < |s.accepted|
  {}

  /** After an overflow the thread waits out the backoff, and does nothing else before that. */
  lemma {:induction false} OverflowBacksOff<P>(now: int, steps: seq<Step<P>>, k: nat)
    requires Possible(now, steps) && k < |steps| && steps[k].Overflow?
    requires forall i :: k < i < |steps| ==> !OfThread(steps[i])
    ensures var s := After(now, steps);
      s.phase == Backoff && forall step :: OfThread(step) && Enabled(s, step) ==> step == EndBackoff
  {
    hide Inv, Possible;
    var n := |steps| - 1;
    LastStep(now, steps);
    if k < n {
      OverflowBacksOff(now, steps[..n], k);
      Reached(now, steps[..n]);
      OthersStay(After(now, steps[..n]), steps[n]);
    }
  }

  lemma {:induction false} LastStep<P>(now: int, steps: seq<Step<P>>)
    requires Possible(now, steps) && steps != []
    ensures var n := |steps| - 1;
      && Possible(now, steps[..n]) && Enabled(After(now, steps[..n]), steps[n])
      && After(now, steps) == Apply(After(now, steps[..n]), steps[n])
  {}

  /** Nobody else moves the thread, unless to start or to join it. */
  lemma OthersStay<P>(s: State<P>, step: Step<P>)
    requires Inv(s) && Enabled(s, step) && !OfThread(step)
    ensures Apply(s, step).phase == if step == Start(true) then LoopTop else if step.Join? then NoThread else s.phase
    ensures step.Join? ==> s.phase == NoThread || s.phase == Exited
    ensures step.Start? ==> s.phase == NoThread && !s.running
  {
    hide Conserved, Numbered, InOrder, NeverEarly, Counted, Observing;
  }

  /** The thread is never stuck: it waits only for work, or for a deadline that has not come. */
  lemma {:induction false} ThreadCanMove<P>(s: State<P>)
    requires Inv(s)
    ensures (exists step: Step<P> :: OfThread(step) && Enabled(s, step)) <==>
      match s.phase
      case NoThread => false
      case Exited => false
      case AwaitWork => s.stopRequested || s.pending != {}
      case AwaitDeadline(deadline, order) => s.stopRequested || !IsRoot(s, order) || s.now >= deadline
      case _ => true
  {
    hide Numbered, InOrder, NeverEarly, Counted, Flagged;
    match s.phase
    case NoThread =>
    case Exited =>
    case LoopTop =>
      if s.stopRequested {
        assert OfThread<P>(Exit) && Enabled(s, Exit);
      } else if s.pending == {} {
        assert OfThread<P>(Idle) && Enabled(s, Idle);
      } else {
        var o := FirstPending(s);
        assert OfThread<P>(Observe(o)) && Enabled(s, Observe(o));
      }
    case AwaitWork =>
      if s.stopRequested || s.pending != {} { assert OfThread<P>(WakeForWork) && Enabled(s, WakeForWork); }
    case AwaitDeadline(deadline, order) =>
      RootChangedExactly(s);
      if s.stopRequested {
        assert OfThread<P>(Abandon) && Enabled(s, Abandon);
      } else if !IsRoot(s, order) {
        assert OfThread<P>(Interrupt) && Enabled(s, Interrupt);
      } else if s.now >= deadline {
        assert OfThread<P>(Extract(order)) && Enabled(s, Extract(order));
      }
    case Publishing(_, _) => assert OfThread<P>(Fail) && Enabled(s, Fail);
    case Backoff => assert OfThread<P>(EndBackoff) && Enabled(s, EndBackoff);
  }

  /** Among pending requests one is the first. */
  lemma {:induction false} FirstPending<P>(s: State<P>) returns (o: nat)
    requires s.pending != {} && forall p :: p in s.pending ==> p < |s.accepted|
    requires Numbered(s)
    ensures IsRoot(s, o)
    decreases |s.pending|
  {
    var p :| p in s.pending;
    var rest := s.(pending := s.pending - {p});
    if rest.pending == {} {
      o := p;
      assert s.pending == {p};
    } else {
      assert |rest.pending| < |s.pending|;
      var q := FirstPending(rest);
      o := if Earlier(s, p, q) then p else q;
      forall r | r in s.pending && r != o ensures Earlier(s, o, r) {
        assert r == p || r == q || Earlier(rest, q, r);
      }
    }
  }

  // ---------- Stopping and starting again ----------

  /** A stop that has been completed: no thread, nothing accepted, all requests where they were. */
  lemma {:induction false} StopEnds<P>(now: int, steps: seq<Step<P>>)
    requires Possible(now, steps) && steps != [] && steps[|steps| - 1].Join?
    ensures var s, t := After(now, steps[..|steps| - 1]), After(now, steps);
      && t.phase == NoThread && !t.running && !t.accepting && t.stopping == NotStopping
      && t.pending == s.pending && t.accepted == s.accepted && t.finished == s.finished
      && (forall step: Step<P> :: OfThread(step) || step.Schedule? ==> !Enabled(t, step))
      && Enabled(t, Step<P>.Start(true))
  {
    hide Inv, Possible;
    LastStep(now, steps);
    Reached(now, steps[..|steps| - 1]);
    Reached(now, steps);
    FlagsMean(After(now, steps[..|steps| - 1]));
  }

  lemma FlagsMean<P>(s: State<P>)
    requires Inv(s)
    ensures s.accepting <==> s.running && s.stopping == NotStopping
    ensures s.running <==> s.phase != NoThread
  {}

  /** Starting again after a completed stop: running, accepting, with the same requests pending. */
  lemma {:induction false} RestartResumes<P>(now: int, steps: seq<Step<P>>)
    requires Possible(now, steps) && steps != [] && steps[|steps| - 1].Join?
    ensures Possible(now, steps + [Start(true)])
    ensures var s, t := After(now, steps), After(now, steps + [Start(true)]);
      && t.running && t.accepting && t.phase == LoopTop && !t.stopRequested && t.stopping == NotStopping
      && t.pending == s.pending && t.accepted == s.accepted && t.finished == s.finished
  {
    hide Inv, Possible;
    StopEnds(now, steps);
    AfterNext(now, steps, Start(true));
  }

  /** Once requests are refused, none is accepted until the scheduler is started again. */
  lemma {:induction false} RefusedUntilStart<P>(now: int, steps: seq<Step<P>>, k: nat)
    requires Possible(now, steps) && k < |steps| && steps[k].Refuse?
    requires forall i :: k < i < |steps| ==> steps[i] != Start(true)
    ensures var s := After(now, steps);
      !s.accepting && forall step: Step<P> :: step.Schedule? ==> !Enabled(s, step)
  {
    hide Possible;
    var n := |steps| - 1;
    LastStep(now, steps);
    if k < n { RefusedUntilStart(now, steps[..n], k); }
  }

  /** How many steps the thread is from having left its loop, at most, once it has been asked to stop. */
  function Distance(phase: Phase): nat {
    match phase
    case NoThread => 0
    case Exited => 0
    case LoopTop => 1
    case AwaitDeadline(_, _) => 1
    case AwaitWork => 2
    case Backoff => 2
    case Publishing(_, _) => 3
  }

  function ThreadSteps<P>(steps: seq<Step<P>>): nat {
    if steps == [] then 0 else ThreadSteps(steps[..|steps| - 1]) + if OfThread(steps[|steps| - 1]) then 1 else 0
  }

  /** Asked to stop, the thread takes no request out any more, and at most three steps of any kind; and it can take the
      next one whenever it has not left its loop. */
  lemma {:induction false} StopLeaves<P>(now: int, steps: seq<Step<P>>, k: nat)
    requires Possible(now, steps) && k < |steps| && steps[k].RequestStop?
    requires forall i :: k < i < |steps| ==> steps[i] != Start(true)
    ensures var s := After(now, steps);
      && (s.phase != NoThread ==> s.stopRequested)
      && (forall i :: k < i < |steps| ==> !steps[i].Extract? && !steps[i].Observe? && !steps[i].Idle?)
      && ThreadSteps(steps[k + 1..]) + Distance(s.phase) <= 3
      && (s.phase != NoThread && s.phase != Exited ==> exists step: Step<P> :: OfThread(step) && Enabled(s, step))
  {
    hide Inv, Possible, Apply, Enabled, ThreadSteps, OfThread;
    var n := |steps| - 1;
    LastStep(now, steps);
    Reached(now, steps);
    ThreadCanMove(After(now, steps));
    if k == n {
      assert steps[k + 1..] == [];
      NoSteps<P>();
      StopRequested(After(now, steps[..n]), steps[n]);
    } else {
      StopLeaves(now, steps[..n], k);
      Reached(now, steps[..n]);
      StopStep(After(now, steps[..n]), steps[n]);
      StepsNext(steps[..n], steps[n], k + 1);
      assert steps == steps[..n] + [steps[n]];
    }
  }

  lemma NoSteps<P>()
    ensures ThreadSteps<P>([]) == 0
  {}

  lemma {:induction false} StepsNext<P>(steps: seq<Step<P>>, step: Step<P>, from: nat)
    requires from <= |steps|
    ensures ThreadSteps((steps + [step])[from..]) == ThreadSteps(steps[from..]) + if OfThread(step) then 1 else 0
  {
    assert (steps + [step])[from..] == steps[from..] + [step];
    assert (steps[from..] + [step])[..|steps| - from] == steps[from..];
  }

  lemma StopRequested<P>(s: State<P>, step: Step<P>)
    requires Enabled(s, step) && step.RequestStop?
    ensures Apply(s, step).phase != NoThread ==> Apply(s, step).stopRequested
  {}

  lemma StopStep<P>(s: State<P>, step: Step<P>)
    requires Inv(s) && Enabled(s, step) && step != Start(true) && (s.phase != NoThread ==> s.stopRequested)
    ensures var t := Apply(s, step);
      && (t.phase != NoThread ==> t.stopRequested)
      && !step.Extract? && !step.Observe? && !step.Idle?
      && Distance(t.phase) + (if OfThread(step) then 1 else 0) <= Distance(s.phase)
  {
    hide Conserved, Numbered, InOrder, NeverEarly, Counted, Observing;
  }

  // ---------- Early publication ----------

  predicate EndsFlight<P>(step: Step<P>) {
    step.Forward? || step.Fail? || step.Overflow?
  }

  /** Request `o` is taken out of the heap by step `x` and is in flight from then on. */
  predicate FliesFrom<P>(steps: seq<Step<P>>, x: nat, o: nat) {
    && x < |steps| && steps[x] == Extract(o)
    && forall i :: x < i < |steps| ==> !EndsFlight(steps[i])
  }

  /** The flight of request `o` that step `e` ends for good. */
  predicate FlightOf<P>(steps: seq<Step<P>>, x: nat, e: nat, o: nat) {
    && x < e < |steps| && FliesFrom(steps[..e], x, o) && (steps[e].Forward? || steps[e].Fail?)
  }

  /** The last reading to which the clock is set. */
  function LastTick<P>(steps: seq<Step<P>>): Option<int> {
    if steps == [] then None
    else
      var n := |steps| - 1;
      if steps[n].Tick? then Some(steps[n].time) else LastTick(steps[..n])
  }

  function Clock<P>(start: int, steps: seq<Step<P>>): int {
    match LastTick(steps) case Some(time) => time case None => start
  }

  lemma {:induction false} LastTickNext<P>(steps: seq<Step<P>>, step: Step<P>, from: nat)
    requires from <= |steps|
    ensures LastTick((steps + [step])[from..]) == if step.Tick? then Some(step.time) else LastTick(steps[from..])
  {
    assert (steps + [step])[from..] == steps[from..] + [step];
    assert (steps[from..] + [step])[..|steps| - from] == steps[from..];
  }

  /** A step that does not end a flight leaves it under way, and moves the clock only if it is a tick. */
  lemma FlightStep<P>(s: State<P>, step: Step<P>)
    requires Inv(s) && Enabled(s, step) && !EndsFlight(step)
    ensures s.phase.Publishing? ==> Apply(s, step).phase == s.phase && Apply(s, step).now == if step.Tick? then step.time else s.now
    ensures !s.phase.Publishing? ==> Apply(s, step).phase.Publishing? == step.Extract?
    ensures step.Extract? ==> Apply(s, step).phase == Publishing(step.order, s.now) && Apply(s, step).now == s.now
  {
    hide Conserved, Numbered, InOrder, NeverEarly, Observing, Counted;
  }

  /** While a request is in flight the clock shows the last tick of the flight, or else the time of extraction. */
  lemma {:induction false} FlightLasts<P>(now: int, steps: seq<Step<P>>, x: nat, o: nat)
    requires Possible(now, steps) && FliesFrom(steps, x, o)
    ensures var s := After(now, steps);
      s.phase.Publishing? && s.phase.due == o && s.now == Clock(s.phase.extractedAt, steps[x + 1..])
  {
    hide Inv, Enabled, Apply, LastTick;
    var n := |steps| - 1;
    var before, step := steps[..n], steps[n];
    assert steps == before + [step];
    Reached(now, before);
    FlightStep(After(now, before), step);
    if x == n {
      assert steps[x + 1..] == [];
      NoTick<P>();
    } else {
      FlightLasts(now, before, x, o);
      LastTickNext(before, step, x + 1);
    }
  }

  lemma NoTick<P>()
    ensures LastTick<P>([]) == None
  {}

  /** A request in flight has been taken out of the heap by a step since which no flight has ended. */
  lemma {:induction false} FlightBegan<P>(now: int, steps: seq<Step<P>>) returns (x: nat)
    requires Possible(now, steps) && After(now, steps).phase.Publishing?
    ensures FliesFrom(steps, x, After(now, steps).phase.due)
  {
    hide Inv, Enabled, Apply;
    var n := |steps| - 1;
    if steps == [] {
      assert false;
    } else {
      var s := After(now, steps[..n]);
      Reached(now, steps[..n]);
      EndedFlight(s, steps[n]);
      FlightStep(s, steps[n]);
      if steps[n].Extract? {
        x := n;
      } else {
        x := FlightBegan(now, steps[..n]);
        assert forall i :: x < i < n ==> steps[..n][i] == steps[i];
      }
    }
  }

  lemma EndedFlight<P>(s: State<P>, step: Step<P>)
    requires Enabled(s, step)
    ensures Apply(s, step).phase.Publishing? ==> !EndsFlight(step)
  {}

  /** Every request that has left was ended by some step of the run, before which it was in flight. */
  lemma {:induction false} EndOf<P>(now: int, steps: seq<Step<P>>, j: nat) returns (x: nat, e: nat)
    requires Possible(now, steps) && j < |After(now, steps).finished|
    ensures FlightOf(steps, x, e, After(now, steps).finished[j].order)
  {
    hide Inv, Enabled;
    var n := |steps| - 1;
    var s := After(now, steps[..n]);
    if j < |s.finished| {
      x, e := EndOf(now, steps[..n], j);
      assert steps[..n][..e] == steps[..e];
    } else {
      e := n;
      EndsPublishing(s, steps[n]);
      x := FlightBegan(now, steps[..n]);
    }
  }

  lemma EndsPublishing<P>(s: State<P>, step: Step<P>)
    requires Enabled(s, step)
    ensures |Apply(s, step).finished| > |s.finished| ==> s.phase.Publishing? && (step.Forward? || step.Fail?)
    ensures step.Forward? || step.Fail? ==>
      s.phase.Publishing? && exists outcome ::
        Apply(s, step).finished == s.finished + [Done(s.phase.due, outcome, s.phase.extractedAt, s.now)]
  {
    if step.Forward? {
      assert Apply(s, step).finished == s.finished + [Done(s.phase.due, Forwarded, s.phase.extractedAt, s.now)];
    } else if step.Fail? {
      assert Apply(s, step).finished == s.finished + [Done(s.phase.due, Failed, s.phase.extractedAt, s.now)];
    }
  }

  predicate IsEarly<P>(accepted: seq<Item<P>>, d: Done) {
    d.order < |accepted| && d.doneAt < accepted[d.order].forwardAt
  }

  /** The flight from step `x` to step `e` ends with the clock set below the deadline. */
  predicate SetBack<P>(steps: seq<Step<P>>, x: nat, e: nat, deadline: int) {
    x < e <= |steps| && LastTick(steps[x + 1..e]).Some? && LastTick(steps[x + 1..e]).value < deadline
  }

  /** A flight, and what has been noted down of its end. */
  lemma {:induction false} FlightIsNoted<P>(now: int, steps: seq<Step<P>>, x: nat, e: nat, o: nat) returns (i: nat)
    requires Possible(now, steps) && FlightOf(steps, x, e, o)
    ensures var s := After(now, steps);
      && i < |s.finished| && s.finished[i].order == o < |s.accepted|
      && (IsEarly(s.accepted, s.finished[i]) <==> SetBack(steps, x, e, s.accepted[o].forwardAt))
  {
    hide Enabled, Apply, Possible, After, LastTick;
    RunGrows(now, steps, e);
    RunGrows(now, steps, e + 1);
    assert steps[..e + 1][..e] == steps[..e] && steps[..e + 1] == steps[..e] + [steps[e]];
    EndsWith(now, steps[..e], steps[e]);
    FlightLasts(now, steps[..e], x, o);
    assert steps[..e][x + 1..] == steps[x + 1..e];
    Reached(now, steps[..e]);
    EndsPublishing(After(now, steps[..e]), steps[e]);
    i := |After(now, steps[..e]).finished|;
  }

  lemma {:induction false} EndsWith<P>(now: int, steps: seq<Step<P>>, step: Step<P>)
    requires Possible(now, steps + [step])
    ensures Possible(now, steps) && Enabled(After(now, steps), step)
    ensures After(now, steps + [step]) == Apply(After(now, steps), step)
  {
    assert (steps + [step])[..|steps|] == steps;
  }

  /** A request ends before its deadline if and only if the last time that the clock is set during its last flight, it
      is set below the deadline.  What the clock does at any other time does not matter. */
  lemma {:induction false} EarlyExactly<P>(now: int, steps: seq<Step<P>>, j: nat)
    requires Possible(now, steps) && j < |After(now, steps).finished|
    ensures var s := After(now, steps);
      var d := s.finished[j];
      && d.order < |s.accepted|
      && (exists x, e : nat :: FlightOf(steps, x, e, d.order))
      && forall x, e : nat :: FlightOf(steps, x, e, d.order) ==>
           (IsEarly(s.accepted, d) <==> SetBack(steps, x, e, s.accepted[d.order].forwardAt))
  {
    hide Possible, After, LastTick, SetBack, FlightOf;
    Reached(now, steps);
    var s := After(now, steps);
    var d := s.finished[j];
    var _, _ := EndOf(now, steps, j);
    forall x: nat, e: nat | FlightOf(steps, x, e, d.order)
      ensures IsEarly(s.accepted, d) <==> SetBack(steps, x, e, s.accepted[d.order].forwardAt)
    {
      var i := FlightIsNoted(now, steps, x, e, d.order);
      assert i == j;
    }
  }

  /** A run publishes nothing early if and only if no flight in it ends with the clock set below the deadline. */
  lemma {:induction false} PublishedOnTime<P>(now: int, steps: seq<Step<P>>)
    requires Possible(now, steps)
    ensures var s := After(now, steps);
      (forall j :: 0 <= j < |s.finished| ==> !IsEarly(s.accepted, s.finished[j]))
      <==> forall x, e, o : nat :: FlightOf(steps, x, e, o) && o < |s.accepted| ==> !SetBack(steps, x, e, s.accepted[o].forwardAt)
  {
    hide Possible, After, LastTick, SetBack, FlightOf, IsEarly;
    var s := After(now, steps);
    forall x: nat, e: nat, o: nat | FlightOf(steps, x, e, o) && o < |s.accepted| && SetBack(steps, x, e, s.accepted[o].forwardAt)
      ensures exists j :: 0 <= j < |s.finished| && IsEarly(s.accepted, s.finished[j])
    {
      var _ := FlightIsNoted(now, steps, x, e, o);
    }
    forall j | 0 <= j < |s.finished| && IsEarly(s.accepted, s.finished[j])
      ensures exists x, e, o : nat :: FlightOf(steps, x, e, o) && o < |s.accepted| && SetBack(steps, x, e, s.accepted[o].forwardAt)
    {
      EarlyExactly(now, steps, j);
    }
  }

  /** A run with a request for time 5, in which the clock is set back to 0 while the request is in flight. */
  ghost function SetBackRun<P>(payload: P): seq<Step<P>> {
    [Start(true)] + [Schedule(5, None, 1, 0, payload)] + [Observe(0)] + [Tick(5)] + [Extract(0)] + [Tick(0)] + [Forward]
  }

  lemma {:induction false} SetBackBegins<P>(payload: P)
    ensures var steps := [Start(true)] + [Schedule(5, None, 1, 0, payload)] + [Observe(0)];
      && Possible(0, steps)
      && var s := After(0, steps);
         && s.phase == AwaitDeadline(5, 0) && s.pending == {0} && s.finished == [] && !s.stopRequested
         && s.accepted == [Item(5, 0, 1, None, 1, 0, payload)]
  {
    hide Possible, After;
    var start: seq<Step<P>> := [Start(true)];
    Nothing<P>(0);
    AfterNext(0, [], Step<P>.Start(true));
    assert [] + start == start;
    AfterNext(0, start, Schedule(5, None, 1, 0, payload));
    AfterNext(0, start + [Schedule(5, None, 1, 0, payload)], Observe(0));
  }

  lemma Nothing<P>(now: int)
    ensures Possible<P>(now, []) && After<P>(now, []) == Initial(now)
  {}

  /** A clock set back during a flight makes the publication early: here a request for time 5 is forwarded at time 0. */
  lemma {:induction false} SetBackIsEarly<P>(payload: P)
    ensures Possible(0, SetBackRun(payload))
    ensures var s := After(0, SetBackRun(payload));
      s.finished == [Done(0, Forwarded, 5, 0)] && s.accepted == [Item(5, 0, 1, None, 1, 0, payload)]
  {
    hide Possible, After;
    SetBackBegins(payload);
    var observed := [Start(true)] + [Schedule(5, None, 1, 0, payload)] + [Observe(0)];
    AfterNext(0, observed, Tick(5));
    assert IsRoot(After(0, observed + [Tick(5)]), 0);
    AfterNext(0, observed + [Tick(5)], Extract(0));
    AfterNext(0, observed + [Tick(5)] + [Extract(0)], Tick(0));
    AfterNext(0, observed + [Tick(5)] + [Extract(0)] + [Tick(0)], Forward);
  }
}
