/** Scheduler and bus together.  The timing thread publishes a due request by a call of the bus like any other publisher's;
    what the call comes to decides whether the request has been forwarded, goes back, or has failed. */
module Forwarding {
  import S = SchedulerModel
  import B = EventBusModel
  import opened PartitionLedger
  import opened PartitionModel
  import opened Results

  /** How far the call for the request in flight has come. */
  datatype Stage<+P> = NotCalled | Calling | Returned(report: B.Report<P>)

  /** A report of the bus, and the request for which the call was made, if it was the scheduler's. */
  datatype Note<+P> = Note(request: Option<nat>, report: B.Report<P>)

  datatype System<P> = System(scheduler: S.State<P>, bus: B.Bus<P>, stage: Stage<P>, log: seq<Note<P>>)

  datatype Step<P> =
    | OnScheduler(step: S.Step<P>)   // any step of the scheduler but the end of a publication
    | OnBus(action: B.Action<P>)     // any action on the bus: of consumers, other publishers, or the call under way
    | Call                           // the timing thread calls the bus
    | Return                         // and goes on with what the call has come to

  function Initial<P>(now: int): System<P> {
    System(S.Initial(now), B.Initial(), NotCalled, [])
  }

  /** For a request to one subscriber or to all. */
  function CallFor<P>(item: S.Item<P>): B.Action<P> {
    match item.subscriber
    case Some(id) => B.BeginOne(id, item.eventId, item.superstep, item.payload)
    case None => B.Begin(item.eventId, item.superstep, item.payload)
  }

  /** A call that returns has forwarded, one refused for want of room goes back, any other failure is final. */
  function Ending<P>(report: B.Report<P>): S.Step<P> {
    match report
    case Completed(_, _, _) => S.Forward
    case Refused(_, _) => S.Overflow
    case _ => S.Fail
  }

  predicate Enabled<P>(s: System<P>, step: Step<P>) {
    match step
    case OnScheduler(step) => !S.EndsFlight(step) && S.Enabled(s.scheduler, step)
    case OnBus(action) => B.Enabled(s.bus, action)
    case Call =>
      && s.scheduler.phase.Publishing? && s.scheduler.phase.due < |s.scheduler.accepted|
      && s.stage.NotCalled? && B.Enabled(s.bus, CallFor(s.scheduler.accepted[s.scheduler.phase.due]))
    case Return => s.scheduler.phase.Publishing? && s.stage.Returned?
  }

  /** The bus has moved on; a report of the scheduler's own call returns to it. */
  function Noted<P>(s: System<P>, bus: B.Bus<P>, request: Option<nat>, stage: Stage<P>): System<P> {
    if |s.bus.reports| < |bus.reports| then
      var report := bus.reports[|s.bus.reports|];
      s.(bus := bus, log := s.log + [Note(request, report)], stage := if request.Some? then Returned(report) else stage)
    else s.(bus := bus, stage := stage)
  }

  function Apply<P>(s: System<P>, capacity: nat, merge: (P, P) -> P, step: Step<P>): System<P>
    requires Enabled(s, step)
  {
    match step
    case OnScheduler(step) =>
      s.(scheduler := S.Apply(s.scheduler, step), stage := if step.Extract? then NotCalled else s.stage)
    case OnBus(action) =>
      Noted(s, B.Apply(s.bus, capacity, merge, action),
            if s.stage.Calling? && s.scheduler.phase.Publishing? then Some(s.scheduler.phase.due) else None, s.stage)
    case Call =>
      var due := s.scheduler.phase.due;
      Noted(s, B.Apply(s.bus, capacity, merge, CallFor(s.scheduler.accepted[due])), Some(due), Calling)
    case Return => s.(scheduler := S.Apply(s.scheduler, Ending(s.stage.report)), stage := NotCalled)
  }

  // ---------- What has been done for a request ----------

  ghost predicate AllRefused<P>(log: seq<Note<P>>, o: nat) {
    forall k :: 0 <= k < |log| && log[k].request == Some(o) ==> log[k].report.Refused?
  }

  /** Call `k` was made for the request, and all others made for it were refused. */
  ghost predicate OnlyCall<P>(log: seq<Note<P>>, o: nat, k: int) {
    && 0 <= k < |log| && log[k].request == Some(o)
    && forall j :: 0 <= j < |log| && j != k && log[j].request == Some(o) ==> log[j].report.Refused?
  }

  ghost predicate SentOnce<P>(log: seq<Note<P>>, o: nat) {
    exists k :: OnlyCall(log, o, k) && log[k].report.Completed?
  }

  ghost predicate FailedOnce<P>(log: seq<Note<P>>, o: nat) {
    exists k :: OnlyCall(log, o, k) && (log[k].report.Missing? || log[k].report.Broken?)
  }

  /** What a report for the request in flight makes of it. */
  ghost predicate Resulting<P>(log: seq<Note<P>>, o: nat, report: B.Report<P>) {
    match report
    case Completed(_, _, _) => SentOnce(log, o)
    case Refused(_, _) => AllRefused(log, o)
    case _ => FailedOnce(log, o)
  }

  lemma NoteForOther<P>(log: seq<Note<P>>, note: Note<P>, o: nat)
    requires note.request != Some(o)
    ensures AllRefused(log, o) ==> AllRefused(log + [note], o)
    ensures SentOnce(log, o) ==> SentOnce(log + [note], o)
    ensures FailedOnce(log, o) ==> FailedOnce(log + [note], o)
  {
    var longer := log + [note];
    forall k | OnlyCall(log, o, k) ensures OnlyCall(longer, o, k) && longer[k] == log[k] {}
  }

  lemma NoteForRequest<P>(log: seq<Note<P>>, note: Note<P>, o: nat)
    requires note.request == Some(o) && AllRefused(log, o)
    ensures Resulting(log + [note], o, note.report)
  {
    var longer := log + [note];
    assert OnlyCall(longer, o, |log|) && longer[|log|] == note;
  }

  // ---------- The invariant ----------

  /** The call carries what was scheduled. */
  ghost predicate Carries<P>(event: Event<P>, targets: seq<nat>, item: S.Item<P>) {
    && event.id == item.eventId && event.superstep == item.superstep && event.payload == item.payload
    && (item.subscriber.Some? ==> targets == [item.subscriber.value])
  }

  /** Each request has been sent if it was forwarded or its call has just returned completed; all calls for it so far
      were refused if it is pending or its call is still to come or to return. */
  ghost predicate Fate<P>(s: System<P>, o: nat) {
    && (o in s.scheduler.pending ==> AllRefused(s.log, o))
    && (S.InFlight(s.scheduler.phase, o) ==>
          if s.stage.Returned? then Resulting(s.log, o, s.stage.report) else AllRefused(s.log, o))
    && forall i :: 0 <= i < |s.scheduler.finished| && s.scheduler.finished[i].order == o ==>
         if s.scheduler.finished[i].outcome == S.Forwarded then SentOnce(s.log, o) else FailedOnce(s.log, o)
  }

  ghost predicate Calls<P>(s: System<P>) {
    && |s.log| == |s.bus.reports|
    && (forall k :: 0 <= k < |s.log| ==> s.log[k].report == s.bus.reports[k])
    && (forall k :: 0 <= k < |s.log| && s.log[k].request.Some? ==>
          && s.log[k].request.value < |s.scheduler.accepted|
          && (s.log[k].report.Completed? || s.log[k].report.Refused? ==>
                Carries(s.log[k].report.event, s.log[k].report.targets, s.scheduler.accepted[s.log[k].request.value])))
    && (s.stage.Calling? ==>
          && s.scheduler.phase.Publishing? && s.scheduler.phase.due < |s.scheduler.accepted| && !s.bus.publisher.Idle?
          && Carries(s.bus.publisher.event, s.bus.publisher.targets, s.scheduler.accepted[s.scheduler.phase.due]))
  }

  ghost predicate Inv<P>(s: System<P>, capacity: nat, merge: (P, P) -> P) {
    && S.Inv(s.scheduler) && B.Inv(s.bus, capacity, merge) && B.Accepting(s.bus, capacity, merge)
    && Calls(s)
    && forall o :: 0 <= o < |s.scheduler.accepted| ==> Fate(s, o)
  }

  // ---------- Every step keeps the invariant ----------

  /** A step of the scheduler that does not end a flight leaves requests where they are, or takes a pending one out. */
  lemma SchedulerFrame<P>(s: S.State<P>, step: S.Step<P>)
    requires S.Inv(s) && S.Enabled(s, step) && !S.EndsFlight(step)
    ensures var t := S.Apply(s, step);
      && s.accepted <= t.accepted && t.finished == s.finished
      && (forall o :: o in t.pending ==> o in s.pending || o == |s.accepted|)
      && (s.phase.Publishing? ==> t.phase == s.phase && !step.Extract?)
      && (!s.phase.Publishing? && t.phase.Publishing? ==> step.Extract? && t.phase.due in s.pending)
  {
    hide S.Numbered, S.InOrder, S.NeverEarly, S.Observing, S.Counted;
    S.FlightStep(s, step);
  }

  lemma SchedulerKeepsFate<P>(s: System<P>, capacity: nat, merge: (P, P) -> P, step: S.Step<P>, o: nat)
    requires Inv(s, capacity, merge) && Enabled(s, OnScheduler(step))
    requires o < |S.Apply(s.scheduler, step).accepted|
    ensures Fate(Apply(s, capacity, merge, OnScheduler(step)), o)
  {
    hide B.Inv, B.Accepting, AllRefused, SentOnce, FailedOnce, S.Apply, S.Enabled;
    SchedulerFrame(s.scheduler, step);
    if o >= |s.scheduler.accepted| {
      NewRequest(s, o);
    } else {
      assert Fate(s, o);
    }
  }

  lemma NewRequest<P>(s: System<P>, o: nat)
    requires Calls(s) && o >= |s.scheduler.accepted|
    ensures AllRefused(s.log, o)
  {}

  lemma SchedulerKeeps<P>(s: System<P>, capacity: nat, merge: (P, P) -> P, step: S.Step<P>)
    requires Inv(s, capacity, merge) && Enabled(s, OnScheduler(step))
    ensures Inv(Apply(s, capacity, merge, OnScheduler(step)), capacity, merge)
  {
    hide B.Inv, B.Accepting, Fate, S.Apply, S.Enabled, S.Inv;
    SchedulerFrame(s.scheduler, step);
    S.StepKeeps(s.scheduler, step);
    forall o: nat | o < |S.Apply(s.scheduler, step).accepted|
      ensures Fate(Apply(s, capacity, merge, OnScheduler(step)), o)
    {
      SchedulerKeepsFate(s, capacity, merge, step, o);
    }
  }

  /** A report for the request in flight settles it, and none other. */
  lemma NotedKeepsFate<P>(s: System<P>, bus: B.Bus<P>, request: Option<nat>, stage: Stage<P>, o: nat)
    requires S.Inv(s.scheduler) && Fate(s, o)
    requires |bus.reports| > |s.bus.reports|
    requires request.Some? ==> S.InFlight(s.scheduler.phase, request.value) && !s.stage.Returned?
    requires request.None? ==> stage == s.stage
    ensures Fate(Noted(s, bus, request, stage), o)
  {
    hide AllRefused, SentOnce, FailedOnce, S.InOrder, S.NeverEarly, S.Observing, S.Counted, S.Numbered;
    var note := Note(request, bus.reports[|s.bus.reports|]);
    if request == Some(o) {
      NoteForRequest(s.log, note, o);
    } else {
      NoteForOther(s.log, note, o);
    }
  }

  lemma NotedKeepsCalls<P>(s: System<P>, bus: B.Bus<P>, request: Option<nat>, stage: Stage<P>)
    requires Calls(s) && s.bus.reports <= bus.reports && |bus.reports| == |s.bus.reports| + 1
    requires request.Some? ==> request.value < |s.scheduler.accepted|
    requires request.None? ==> stage == s.stage && !stage.Calling?
    requires var r := bus.reports[|s.bus.reports|];
      request.Some? && (r.Completed? || r.Refused?) ==> Carries(r.event, r.targets, s.scheduler.accepted[request.value])
    ensures Calls(Noted(s, bus, request, stage))
  {}

  lemma BusKeeps<P>(s: System<P>, capacity: nat, merge: (P, P) -> P, action: B.Action<P>)
    requires Inv(s, capacity, merge) && Enabled(s, OnBus(action))
    ensures Inv(Apply(s, capacity, merge, OnBus(action)), capacity, merge)
  {
    hide B.Inv, B.Accepting, Fate, B.Apply, B.Enabled, S.Inv;
    B.ActionKeeps(s.bus, capacity, merge, action);
    B.ActionKeepsAccepting(s.bus, capacity, merge, action);
    B.ReportsGrow(s.bus, capacity, merge, action);
    var t, bus := Apply(s, capacity, merge, OnBus(action)), B.Apply(s.bus, capacity, merge, action);
    var request := if s.stage.Calling? && s.scheduler.phase.Publishing? then Some(s.scheduler.phase.due) else None;
    if bus.reports == s.bus.reports {
      forall o: nat | o < |s.scheduler.accepted| ensures Fate(t, o) { SameFate(s, t, o); }
    } else {
      NotedKeepsCalls(s, bus, request, s.stage);
      forall o: nat | o < |s.scheduler.accepted| ensures Fate(t, o) {
        NotedKeepsFate(s, bus, request, s.stage, o);
      }
    }
  }

  lemma SameFate<P>(s: System<P>, t: System<P>, o: nat)
    requires Fate(s, o) && t.scheduler == s.scheduler && t.log == s.log
    requires t.stage == s.stage || (!t.stage.Returned? && !s.stage.Returned?)
    ensures Fate(t, o)
  {}

  /** A call begins, or ends at once for want of a subscriber. */
  lemma CallBegins<P>(s: B.Bus<P>, capacity: nat, merge: (P, P) -> P, item: S.Item<P>)
    requires B.Enabled(s, CallFor(item))
    ensures var t := B.Apply(s, capacity, merge, CallFor(item));
      if t.reports == s.reports then
        !t.publisher.Idle? && Carries(t.publisher.event, t.publisher.targets, item)
      else t.reports == s.reports + [B.Missing]
  {}

  lemma CallKeeps<P>(s: System<P>, capacity: nat, merge: (P, P) -> P)
    requires Inv(s, capacity, merge) && Enabled(s, Call)
    ensures Inv(Apply(s, capacity, merge, Call), capacity, merge)
  {
    hide B.Inv, B.Accepting, Fate, B.Apply, B.Enabled, S.Inv, Carries, CallFor;
    var due := s.scheduler.phase.due;
    var action := CallFor(s.scheduler.accepted[due]);
    B.ActionKeeps(s.bus, capacity, merge, action);
    B.ActionKeepsAccepting(s.bus, capacity, merge, action);
    CallBegins(s.bus, capacity, merge, s.scheduler.accepted[due]);
    var t, bus := Apply(s, capacity, merge, Call), B.Apply(s.bus, capacity, merge, action);
    if bus.reports == s.bus.reports {
      forall o: nat | o < |s.scheduler.accepted| ensures Fate(t, o) { SameFate(s, t, o); }
    } else {
      NotedKeepsCalls(s, bus, Some(due), Calling);
      forall o: nat | o < |s.scheduler.accepted| ensures Fate(t, o) {
        NotedKeepsFate(s, bus, Some(due), Calling, o);
      }
    }
  }

  lemma ReturnKeepsFate<P>(s: System<P>, capacity: nat, merge: (P, P) -> P, o: nat)
    requires S.Inv(s.scheduler) && Fate(s, o) && Enabled(s, Return)
    ensures Fate(Apply(s, capacity, merge, Return), o)
  {
    hide AllRefused, SentOnce, FailedOnce, S.InOrder, S.NeverEarly, S.Observing, S.Counted, S.Numbered;
  }

  lemma ReturnKeeps<P>(s: System<P>, capacity: nat, merge: (P, P) -> P)
    requires Inv(s, capacity, merge) && Enabled(s, Return)
    ensures Inv(Apply(s, capacity, merge, Return), capacity, merge)
  {
    hide B.Inv, B.Accepting, Fate, S.Inv;
    S.StepKeeps(s.scheduler, Ending(s.stage.report));
    forall o: nat | o < |s.scheduler.accepted| ensures Fate(Apply(s, capacity, merge, Return), o) {
      ReturnKeepsFate(s, capacity, merge, o);
    }
  }

  lemma StepKeeps<P>(s: System<P>, capacity: nat, merge: (P, P) -> P, step: Step<P>)
    requires Inv(s, capacity, merge) && Enabled(s, step)
    ensures Inv(Apply(s, capacity, merge, step), capacity, merge)
  {
    hide Inv, Apply;
    match step
    case OnScheduler(step) => SchedulerKeeps(s, capacity, merge, step);
    case OnBus(action) => BusKeeps(s, capacity, merge, action);
    case Call => CallKeeps(s, capacity, merge);
    case Return => ReturnKeeps(s, capacity, merge);
  }

  // ---------- Whole runs ----------

  ghost predicate Possible<P>(now: int, steps: seq<Step<P>>, capacity: nat, merge: (P, P) -> P)
    decreases |steps|, 0
  {
    steps != [] ==>
      var n := |steps| - 1;
      Possible(now, steps[..n], capacity, merge) && Enabled(After(now, steps[..n], capacity, merge), steps[n])
  }

  ghost function After<P>(now: int, steps: seq<Step<P>>, capacity: nat, merge: (P, P) -> P): System<P>
    requires Possible(now, steps, capacity, merge)
    decreases |steps|, 1
  {
    if steps == [] then Initial(now)
    else var n := |steps| - 1; Apply(After(now, steps[..n], capacity, merge), capacity, merge, steps[n])
  }

  lemma {:induction false} RunKeeps<P>(now: int, steps: seq<Step<P>>, capacity: nat, merge: (P, P) -> P)
    requires Possible(now, steps, capacity, merge)
    ensures Inv(After(now, steps, capacity, merge), capacity, merge)
  {
    hide Inv, Enabled, Apply;
    if steps == [] {
      InitialInv(now, capacity, merge);
    } else {
      var n := |steps| - 1;
      RunKeeps(now, steps[..n], capacity, merge);
      StepKeeps(After(now, steps[..n], capacity, merge), capacity, merge, steps[n]);
    }
  }

  lemma InitialInv<P>(now: int, capacity: nat, merge: (P, P) -> P)
    ensures Inv(Initial(now), capacity, merge)
  {
    S.InitialInv<P>(now);
  }

  /** The publication of call `k` has done everything: its event went once into each of its targets that was subscribed,
      and nowhere else. */
  ghost predicate Everywhere<P>(s: System<P>, k: nat, capacity: nat, merge: (P, P) -> P)
    requires k < |s.log| && s.log[k].report.Completed?
  {
    var r := s.log[k].report;
    forall id: nat :: B.Live(s.bus.slots, id) && s.bus.slots[id].value.since <= r.event.sequence ==>
      var sub := s.bus.slots[id].value;
      if id in r.targets then B.GotOnce(sub, r.event, capacity, merge) else PushOp(r.event) !in sub.ops
  }

  /** The publication of call `k` has done nothing. */
  ghost predicate Nowhere<P>(s: System<P>, k: nat)
    requires k < |s.log| && s.log[k].report.Refused?
  {
    forall id: nat :: B.Live(s.bus.slots, id) ==> PushOp(s.log[k].report.event) !in s.bus.slots[id].value.ops
  }

  lemma {:induction false} CallsAreSettled<P>(s: System<P>, capacity: nat, merge: (P, P) -> P, k: nat)
    requires Inv(s, capacity, merge) && k < |s.log|
    ensures s.log[k].report.Completed? ==> Everywhere(s, k, capacity, merge)
    ensures s.log[k].report.Refused? ==> Nowhere(s, k)
    ensures !s.log[k].report.Broken?
  {
    hide B.SlotInv, B.PublisherInv, B.Accepting, S.Inv, Fate, B.GotOnce;
    assert s.log[k].report in s.bus.reports;
    forall id: nat | B.Live(s.bus.slots, id) {
      B.CallIsSettled(s.bus, capacity, merge, s.log[k].report, id);
    }
  }

  /** A request that has been forwarded has, in every run of the whole system, been published by exactly one call that
      did anything: that call carried what was scheduled, and put it once into each of its targets.  Whatever other calls
      were made for the request found a partition full and inserted nothing. */
  lemma {:induction false} ForwardedOnce<P>(now: int, steps: seq<Step<P>>, capacity: nat, merge: (P, P) -> P, i: nat)
    requires Possible(now, steps, capacity, merge)
    requires var finished := After(now, steps, capacity, merge).scheduler.finished;
      i < |finished| && finished[i].outcome == S.Forwarded
    ensures var s := After(now, steps, capacity, merge);
      var o := s.scheduler.finished[i].order;
      && o < |s.scheduler.accepted|
      && exists k: nat ::
           && k < |s.log| && s.log[k].request == Some(o) && s.log[k].report.Completed?
           && Carries(s.log[k].report.event, s.log[k].report.targets, s.scheduler.accepted[o])
           && Everywhere(s, k, capacity, merge)
           && forall j: nat :: j < |s.log| && j != k && s.log[j].request == Some(o) ==> s.log[j].report.Refused? && Nowhere(s, j)
  {
    hide Possible, After, Everywhere, Nowhere;
    RunKeeps(now, steps, capacity, merge);
    var s := After(now, steps, capacity, merge);
    var o := s.scheduler.finished[i].order;
    assert Fate(s, o);
    var k :| OnlyCall(s.log, o, k) && s.log[k].report.Completed?;
    forall j: nat | j < |s.log| ensures s.log[j].report.Completed? ==> Everywhere(s, j, capacity, merge)
      ensures s.log[j].report.Refused? ==> Nowhere(s, j)
    {
      CallsAreSettled(s, capacity, merge, j);
    }
  }

  /** A request that is pending, for the first time or again, has been put into no partition; nor has one that failed,
      and only a subscriber that does not exist makes one fail. */
  lemma {:induction false} NothingSentYet<P>(now: int, steps: seq<Step<P>>, capacity: nat, merge: (P, P) -> P, o: nat)
    requires Possible(now, steps, capacity, merge)
    requires var s := After(now, steps, capacity, merge).scheduler;
      o in s.pending || exists i :: 0 <= i < |s.finished| && s.finished[i].order == o && s.finished[i].outcome == S.Failed
    ensures var s := After(now, steps, capacity, merge);
      forall k: nat :: k < |s.log| && s.log[k].request == Some(o) ==>
        s.log[k].report.Missing? || (s.log[k].report.Refused? && Nowhere(s, k))
  {
    hide Possible, After, Nowhere;
    RunKeeps(now, steps, capacity, merge);
    var s := After(now, steps, capacity, merge);
    assert Fate(s, o);
    forall k: nat | k < |s.log|
      ensures !s.log[k].report.Broken? && (s.log[k].report.Refused? ==> Nowhere(s, k))
    {
      CallsAreSettled(s, capacity, merge, k);
    }
  }
}
