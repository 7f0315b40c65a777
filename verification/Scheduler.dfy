/** The deadline scheduler as an object.  A method is one stretch of the source under the mutex, or one atomic access
    outside it; the loop of the timing thread is cut at the points where it gives the mutex up, and `phase` and `due`
    are that thread's place and local variable.  Every method is proved to make a step of `SchedulerModel`. */
module Schedulers {
  import opened Orders
  import opened PairingHeaps
  import opened PairingTree
  import opened Results
  import opened SchedulerModel

  type Handle<P> = Node<Item<P>>

  ghost function PendingOf<P>(entries: map<Handle<P>, Item<P>>): set<nat> {
    set n | n in entries :: entries[n].order
  }

  /** The heap holds requests that were accepted, each at most once. */
  ghost predicate Agrees<P>(entries: map<Handle<P>, Item<P>>, accepted: seq<Item<P>>) {
    && (forall n :: n in entries ==> entries[n].order < |accepted| && accepted[entries[n].order] == entries[n])
    && (forall n, m :: n in entries && m in entries && n != m ==> entries[n].order != entries[m].order)
  }

  lemma PendingGrows<P>(
      entries: map<Handle<P>, Item<P>>, accepted: seq<Item<P>>, n: Handle<P>, item: Item<P>, accepted': seq<Item<P>>)
    requires Agrees(entries, accepted) && n !in entries && item.order !in PendingOf(entries)
    requires accepted <= accepted' && item.order < |accepted'| && accepted'[item.order] == item
    ensures PendingOf(entries[n := item]) == PendingOf(entries) + {item.order}
    ensures Agrees(entries[n := item], accepted')
  {
    var more := entries[n := item];
    assert n in more && more[n] == item;
    assert forall m :: m in entries ==> m in more && more[m] == entries[m] && entries[m].order in PendingOf(entries);
  }

  lemma PendingShrinks<P>(entries: map<Handle<P>, Item<P>>, accepted: seq<Item<P>>, n: Handle<P>)
    requires Agrees(entries, accepted) && n in entries
    ensures PendingOf(entries - {n}) == PendingOf(entries) - {entries[n].order}
    ensures Agrees(entries - {n}, accepted)
  {
    var fewer := entries - {n};
    assert forall m :: m in entries && m != n ==> m in fewer && fewer[m] == entries[m];
  }

  lemma AcceptStep<P>(s: State<P>, item: Item<P>)
    requires s.accepting && item.order == |s.accepted| && item.id == item.order + 1 && Inv(s)
    ensures Enabled(s, Step<P>.Schedule(item.forwardAt, item.subscriber, item.eventId, item.superstep, item.payload))
    ensures var t := s.(accepted := s.accepted + [item], pending := s.pending + {item.order}, scheduledCount := s.scheduledCount + 1);
      && Apply(s, Step<P>.Schedule(item.forwardAt, item.subscriber, item.eventId, item.superstep, item.payload)) == t
      && Inv(t)
  {
    hide Inv;
    StepKeeps(s, Step<P>.Schedule(item.forwardAt, item.subscriber, item.eventId, item.superstep, item.payload));
  }

  /** How the timed wait can end: a stop request comes first, then a change of the root, then the deadline. */
  ghost predicate WakesTo<P>(s: State<P>, t: State<P>) {
    && s.phase.AwaitDeadline?
    && if s.stopRequested then t == Apply(s, Step<P>.Abandon)
       else if RootChanged(s, s.phase.deadline, s.phase.order) then t == Apply(s, Step<P>.Interrupt)
       else exists o :: Enabled(s, Step<P>.Extract(o)) && t == Apply(s, Step<P>.Extract(o))
  }

  /** What the top of the loop does: leave when asked to stop, wait for work, or wait for the first request. */
  ghost predicate LoopsTo<P>(s: State<P>, t: State<P>) {
    if s.stopRequested then Enabled(s, Step<P>.Exit) && t == Apply(s, Step<P>.Exit)
    else if s.pending == {} then Enabled(s, Step<P>.Idle) && t == Apply(s, Step<P>.Idle)
    else exists o :: Enabled(s, Step<P>.Observe(o)) && t == Apply(s, Step<P>.Observe(o))
  }

  /** A step of the thread, with all that has been proved of it. */
  lemma ThreadStep<P>(s: State<P>, step: Step<P>)
    requires Inv(s) && Enabled(s, step) && OfThread(step)
    ensures Inv(Apply(s, step)) && Moves(s, Apply(s, step))
    ensures !step.Extract? && !EndsFlight(step) ==> Apply(s, step) == s.(phase := Apply(s, step).phase)
    ensures s.phase.LoopTop? ==> LoopsTo(s, Apply(s, step))
    ensures s.phase.AwaitDeadline? ==> WakesTo(s, Apply(s, step))
  {
    hide Inv, Moves, IsRoot, RootChanged, LoopsTo, WakesTo;
    StepKeeps(s, step);
    ThreadMoves(s, step);
    LoopOrWake(s, step);
  }

  lemma LoopOrWake<P>(s: State<P>, step: Step<P>)
    requires Enabled(s, step) && OfThread(step)
    ensures s.phase.LoopTop? ==> LoopsTo(s, Apply(s, step))
    ensures s.phase.AwaitDeadline? ==> WakesTo(s, Apply(s, step))
  {
    if step.Observe? { RootIsPending(s, step.order); }
    hide IsRoot, RootChanged;
  }

  class Scheduler<P(!new)> {
    const retryDelay: int
    const heap: PairingHeap<Item<P>>
    var accepting: bool
    var running: bool
    var stopRequested: bool
    var nextOrder: nat
    var nextId: nat
    var scheduledEvents: nat
    var forwardedEvents: nat
    var failedEvents: nat

    // The timing thread.
    var phase: Phase
    var due: Option<Item<P>>

    ghost var stopping: Stopping
    ghost var accepted: seq<Item<P>>
    ghost var finished: seq<Done>
    ghost var now: int

    ghost function View(): State<P>
      reads this, heap
    {
      State(accepted, PendingOf(heap.Contents()), finished, accepting, running, stopRequested, stopping, phase, now,
            scheduledEvents, forwardedEvents, failedEvents)
    }

    ghost predicate Valid()
      reads this, heap, Keys(heap.shape)
    {
      && retryDelay > 0
      && heap.Valid() && heap.less == EarlierDeadline
      && Agrees(heap.Contents(), accepted)
      && nextOrder == |accepted| && nextId == nextOrder + 1
      && (phase.Publishing? ==>
            && phase.due < |accepted| && due == Some(accepted[phase.due]) && due.value.order == phase.due
            && phase.due !in PendingOf(heap.Contents()))
      && Inv(View())
    }

    constructor (retryDelay: int, ghost now: int)
      requires retryDelay > 0
      ensures Valid() && fresh(heap) && View() == Initial<P>(now) && this.retryDelay == retryDelay
    {
      EarlierDeadlineIsOrder<P>();
      InitialInv<P>(now);
      hide StrictWeakOrder, Inv;
      assert PendingOf<P>(map[]) == {} && Agrees<P>(map[], []);
      this.retryDelay := retryDelay;
      heap := new PairingHeap(EarlierDeadline);
      accepting, running, stopRequested := false, false, false;
      nextOrder, nextId := 0, 1;
      scheduledEvents, forwardedEvents, failedEvents := 0, 0, 0;
      phase, due := NoThread, None;
      stopping, accepted, finished, this.now := NotStopping, [], [], now;
    }

    /** A scheduler is made running; a retry delay that is not positive is refused, and without a thread there is none. */
    static method Make(retryDelay: int, created: bool, ghost now: int) returns (r: Result<Scheduler<P>>)
      ensures retryDelay <= 0 ==> r == Err(InvalidArgument)
      ensures retryDelay > 0 && !created ==> r == Err(SystemError)
      ensures retryDelay > 0 && created ==>
        && r.Ok? && fresh(r.value) && r.value.Valid() && r.value.View() == Apply(Initial<P>(now), Step<P>.Start(true))
        && r.value.View() == Initial<P>(now).(accepting := true, running := true, phase := LoopTop)
    {
      if retryDelay <= 0 {
        return Err(InvalidArgument);
      }
      var s := new Scheduler<P>(retryDelay, now);
      var started := s.Start(created);
      if started.Err? {
        return Err(started.error);
      }
      return Ok(s);
    }

    /** Puts a request that is not in the heap into it. */
    method Insert(item: Item<P>, ghost accepted': seq<Item<P>>)
      requires heap.Valid() && heap.less == EarlierDeadline && Agrees(heap.Contents(), accepted)
      requires item.order !in PendingOf(heap.Contents())
      requires accepted <= accepted' && item.order < |accepted'| && accepted'[item.order] == item
      modifies this`accepted, heap, Keys(heap.shape)
      ensures heap.Valid() && Agrees(heap.Contents(), accepted) && accepted == accepted'
      ensures PendingOf(heap.Contents()) == old(PendingOf(heap.Contents())) + {item.order}
    {
      hide IsHeap, StrictWeakOrder, Entries, Agrees, PendingOf, Inv;
      ghost var entries := heap.Contents();
      var handle := heap.Emplace(item);
      PendingGrows(entries, accepted, handle, item, accepted');
      ghost var nodes := Keys(heap.shape);
      accepted := accepted';
    }

    lemma NumberUnused()
      requires Agrees(heap.Contents(), accepted)
      ensures |accepted| !in PendingOf(heap.Contents())
    {}

    /** Accepts a request and names it, or refuses it once stopping has begun. */
    method Schedule(subscriber: Option<nat>, eventId: nat, payload: P, forwardAt: int, superstep: nat)
      returns (r: Result<nat>)
      requires Valid()
      modifies this, heap, Keys(heap.shape)
      ensures Valid()
      ensures !old(accepting) ==> r == Err(LogicError) && View() == old(View())
      ensures old(accepting) ==>
        && r == Ok(|old(accepted)| + 1)
        && View() == Apply(old(View()), Step<P>.Schedule(forwardAt, subscriber, eventId, superstep, payload))
        && var o := |old(accepted)|;
           View() == old(View()).(
             accepted := old(accepted) + [Item(forwardAt, o, o + 1, subscriber, eventId, superstep, payload)],
             pending := old(View()).pending + {o}, scheduledCount := old(View()).scheduledCount + 1)
    {
      hide IsHeap, StrictWeakOrder, Entries, Agrees, PendingOf, Inv, Apply, Enabled;
      if !accepting {
        return Err(LogicError);
      }
      NumberUnused();
      ghost var nodes, before := Keys(heap.shape), View();
      var id := nextId;
      nextId := nextId + 1;
      var item := Item(forwardAt, nextOrder, id, subscriber, eventId, superstep, payload);
      nextOrder := nextOrder + 1;
      Insert(item, accepted + [item]);
      nodes := Keys(heap.shape);
      scheduledEvents := scheduledEvents + 1;
      AcceptStep(before, item);
      return Ok(id);
    }

    /** Deadlines given in nanoseconds must be positive; they are cut down to ticks of the clock. */
    method ScheduleAtUnixNanoseconds(
        subscriber: Option<nat>, eventId: nat, payload: P, nanoseconds: int, tick: int, superstep: nat)
      returns (r: Result<nat>)
      requires Valid() && tick > 0
      modifies this, heap, Keys(heap.shape)
      ensures Valid()
      ensures nanoseconds <= 0 ==> r == Err(InvalidArgument) && View() == old(View())
      ensures nanoseconds > 0 && !old(accepting) ==> r == Err(LogicError) && View() == old(View())
      ensures nanoseconds > 0 && old(accepting) ==>
        && r == Ok(|old(accepted)| + 1)
        && View() == Apply(old(View()),
             Step<P>.Schedule(TimePointOf(nanoseconds, tick), subscriber, eventId, superstep, payload))
        && |accepted| == |old(accepted)| + 1
        && var item := accepted[|old(accepted)|];
           && item.forwardAt * tick <= nanoseconds < (item.forwardAt + 1) * tick
           && item.subscriber == subscriber && item.eventId == eventId && item.superstep == superstep
           && item.payload == payload
    {
      hide IsHeap, StrictWeakOrder, Entries, Agrees, PendingOf, Inv, Apply, Enabled;
      if nanoseconds <= 0 {
        return Err(InvalidArgument);
      }
      TimePointPrecision(nanoseconds, tick, TimePointOf(nanoseconds, tick));
      r := Schedule(subscriber, eventId, payload, TimePointOf(nanoseconds, tick), superstep);
    }

    /** Starts the thread; if it cannot be created, the scheduler is as it was, and the caller is told. */
    method Start(created: bool) returns (r: Result<()>)
      requires Valid() && stopping == NotStopping
      modifies this
      ensures Valid()
      ensures r == if !old(running) && !created then Err(SystemError) else Ok(())
      ensures View() == if old(running) then old(View()) else Apply(old(View()), Step<P>.Start(created))
      ensures View() ==
        if old(running) || !created then old(View())
        else old(View()).(accepting := true, running := true, stopRequested := false, phase := LoopTop)
    {
      hide IsHeap, StrictWeakOrder, Entries, Agrees, PendingOf, Inv;
      if running {
        return Ok(());
      }
      ghost var nodes := Keys(heap.shape);
      StepKeeps(View(), Step<P>.Start(created));
      FlagsMean(View());
      accepting := true;
      running := true;
      if created {
        phase, stopRequested := LoopTop, false;
      } else {
        accepting := false;
        running := false;
        return Err(SystemError);
      }
      return Ok(());
    }

    // ---------- stop: refuse requests, ask the thread to stop, join it ----------

    method Refuse()
      requires Valid() && stopping == NotStopping
      modifies this
      ensures Valid() && View() == Apply(old(View()), Step<P>.Refuse)
      ensures View() == old(View()).(accepting := false, stopping := Refusing)
    {
      hide IsHeap, StrictWeakOrder, Entries, Agrees, PendingOf, Inv;
      ghost var nodes := Keys(heap.shape);
      StepKeeps(View(), Step<P>.Refuse);
      accepting, stopping := false, Refusing;
    }

    method RequestStop()
      requires Valid() && stopping == Refusing
      modifies this
      ensures Valid() && View() == Apply(old(View()), Step<P>.RequestStop)
      ensures View() == old(View()).(stopRequested := old(phase) != NoThread, stopping := Requested)
    {
      hide IsHeap, StrictWeakOrder, Entries, Agrees, PendingOf, Inv;
      ghost var nodes := Keys(heap.shape);
      StepKeeps(View(), Step<P>.RequestStop);
      stopRequested, stopping := phase != NoThread, Requested;
    }

    method Join()
      requires Valid() && stopping == Requested && (phase == NoThread || phase == Exited)
      modifies this
      ensures Valid() && View() == Apply(old(View()), Step<P>.Join)
      ensures View() == old(View()).(phase := NoThread, running := false, stopping := NotStopping)
    {
      hide IsHeap, StrictWeakOrder, Entries, Agrees, PendingOf, Inv;
      ghost var nodes := Keys(heap.shape);
      StepKeeps(View(), Step<P>.Join);
      phase, running, stopping := NoThread, false, NotStopping;
    }

    // ---------- The loop of the timing thread ----------

    /** The root of the heap is the pending request with the earliest deadline, first come first served. */
    lemma TopIsRoot()
      requires Valid() && heap.shape.Bin?
      ensures heap.shape.value.order < |accepted| && accepted[heap.shape.value.order] == heap.shape.value
      ensures IsRoot(View(), heap.shape.value.order)
    {
      var entries, top := heap.Contents(), heap.shape.value;
      TopIsGreatest(heap.shape, heap.less);
      assert heap.shape.key in entries && entries[heap.shape.key] == top;
      forall p | p in View().pending && p != top.order ensures Earlier(View(), top.order, p) {
        var n :| n in entries && entries[n].order == p;
        assert !heap.less(top, Lookup(heap.shape, n));
        assert entries[n] == Lookup(heap.shape, n) && accepted[p] == entries[n];
      }
    }

    lemma EmptyHeap()
      requires Valid()
      ensures heap.shape.Nil? <==> View().pending == {}
    {
      if heap.shape.Bin? { assert heap.Contents()[heap.shape.key].order in View().pending; }
    }

    /** The predicate of the timed wait: it looks at the root alone, and that decides for the whole heap. */
    function RootHasChanged(deadline: int, order: nat): (changed: bool)
      requires Valid()
      reads this, heap, Keys(heap.shape)
      ensures changed == RootChanged(View(), deadline, order)
    {
      RootDecides(deadline, order);
      heap.root == null
      || heap.root.value.forwardAt < deadline
      || (heap.root.value.forwardAt == deadline && heap.root.value.order < order)
    }

    lemma RootDecides(deadline: int, order: nat)
      requires Valid()
      ensures RootChanged(View(), deadline, order) <==>
        || heap.root == null
        || heap.root.value.forwardAt < deadline
        || (heap.root.value.forwardAt == deadline && heap.root.value.order < order)
    {
      EmptyHeap();
      if heap.root != null {
        TopIsRoot();
        var o := heap.shape.value.order;
        assert heap.root.value == heap.shape.value && o in View().pending;
        if RootChanged(View(), deadline, order) {
          var p :| p in View().pending && p < |accepted| &&
            (accepted[p].forwardAt < deadline || (accepted[p].forwardAt == deadline && p < order));
          assert p == o || Earlier(View(), o, p);
        }
      }
    }

    /** The top of the loop: leave when asked to stop, wait for work, or wait for the root that is seen now. */
    method LoopAgain()
      requires Valid() && phase == LoopTop
      modifies this
      ensures Valid() && Moves(old(View()), View())
      ensures View() == old(View()).(phase := phase)
      ensures LoopsTo(old(View()), View())
    {
      hide Inv, Moves, LoopsTo, Agrees, PendingOf, IsHeap, StrictWeakOrder, Entries;
      ghost var nodes, before := Keys(heap.shape), View();
      if stopRequested {
        ThreadStep(before, Step<P>.Exit);
        phase := Exited;
        return;
      }
      EmptyHeap();
      if heap.root == null {
        ThreadStep(before, Step<P>.Idle);
        phase := AwaitWork;
        return;
      }
      TopIsRoot();
      var root := heap.root.value;
      ThreadStep(before, Step<P>.Observe(root.order));
      phase := AwaitDeadline(root.forwardAt, root.order);
    }

    /** The untimed wait returns. */
    method WakeForWork()
      requires Valid() && phase == AwaitWork && (stopRequested || heap.root != null)
      modifies this
      ensures Valid() && Enabled(old(View()), Step<P>.WakeForWork) && View() == Apply(old(View()), Step<P>.WakeForWork)
      ensures View() == old(View()).(phase := LoopTop)
    {
      hide IsHeap, StrictWeakOrder, Entries, Agrees, PendingOf, Inv;
      EmptyHeap();
      ghost var nodes := Keys(heap.shape);
      StepKeeps(View(), Step<P>.WakeForWork);
      phase := LoopTop;
    }

    /** The timed wait returns: because its predicate holds, or else because the clock has reached the deadline. */
    method WakeAtDeadline(clock: int)
      requires Valid() && phase.AwaitDeadline? && clock == now
      requires stopRequested || RootChanged(View(), phase.deadline, phase.order) || clock >= phase.deadline
      modifies this, heap, Keys(heap.shape)
      ensures Valid()
      ensures WakesTo(old(View()), View()) && Moves(old(View()), View())
    {
      hide Inv, Moves, WakesTo, Agrees, PendingOf, IsHeap, StrictWeakOrder, Entries;
      var interrupted := RootHasChanged(phase.deadline, phase.order);
      EmptyHeap();
      ghost var nodes, before := Keys(heap.shape), View();
      if stopRequested {
        ThreadStep(before, Step<P>.Abandon);
        phase := Exited;
        return;
      }
      if interrupted {
        ThreadStep(before, Step<P>.Interrupt);
        phase := LoopTop;
        return;
      }
      TakeDue(clock);
    }

    /** Take the due request out of the heap before it is published. */
    method TakeDue(clock: int)
      requires Valid() && phase.AwaitDeadline? && clock == now && !stopRequested && heap.root != null
      requires !RootChanged(View(), phase.deadline, phase.order) && clock >= phase.deadline
      modifies this, heap, Keys(heap.shape)
      ensures Valid()
      ensures WakesTo(old(View()), View()) && Moves(old(View()), View())
    {
      hide IsHeap, StrictWeakOrder, Entries, Agrees, PendingOf, Inv, Moves, WakesTo;
      TopIsRoot();
      ghost var before, entries, top := View(), heap.Contents(), heap.root;
      var item := heap.ExtractTop();
      PendingShrinks(entries, accepted, top);
      ghost var nodes := Keys(heap.shape);
      ThreadStep(before, Step<P>.Extract(item.value.order));
      due := Some(item.value);
      phase := Publishing(item.value.order, clock);
      assert View() == Apply(before, Step<P>.Extract(item.value.order));
    }

    /** Publishing has ended for good; the mutex is taken again. */
    method PublicationEnds(outcome: Outcome)
      requires Valid() && phase.Publishing?
      modifies this
      ensures Valid()
      ensures View() == Apply(old(View()), if outcome == Forwarded then Step<P>.Forward else Step<P>.Fail)
      ensures var s := old(View());
        View() == s.(
          finished := s.finished + [Done(s.phase.due, outcome, s.phase.extractedAt, s.now)], phase := LoopTop,
          forwardedCount := s.forwardedCount + (if outcome == Forwarded then 1 else 0),
          failedCount := s.failedCount + (if outcome == Failed then 1 else 0))
    {
      hide IsHeap, StrictWeakOrder, Entries, Agrees, PendingOf, Inv;
      ghost var nodes := Keys(heap.shape);
      StepKeeps(View(), if outcome == Forwarded then Step<P>.Forward else Step<P>.Fail);
      if outcome == Forwarded {
        forwardedEvents := forwardedEvents + 1;
      } else {
        failedEvents := failedEvents + 1;
      }
      finished := finished + [Done(phase.due, outcome, phase.extractedAt, now)];
      phase := LoopTop;
    }

    /** A partition was full: the request goes back under its own deadline and insertion order. */
    method PublicationOverflows()
      requires Valid() && phase.Publishing?
      modifies this, heap, Keys(heap.shape)
      ensures Valid() && View() == Apply(old(View()), Step<P>.Overflow)
      ensures View() == old(View()).(pending := old(View()).pending + {old(View()).phase.due}, phase := Backoff)
    {
      hide IsHeap, StrictWeakOrder, Entries, Agrees, PendingOf, Inv;
      StepKeeps(View(), Step<P>.Overflow);
      Insert(due.value, accepted);
      ghost var nodes := Keys(heap.shape);
      phase := Backoff;
    }

    /** The backoff ends, by time or by a stop request. */
    method EndBackoff()
      requires Valid() && phase == Backoff
      modifies this
      ensures Valid() && View() == Apply(old(View()), Step<P>.EndBackoff)
      ensures View() == old(View()).(phase := LoopTop)
    {
      hide IsHeap, StrictWeakOrder, Entries, Agrees, PendingOf, Inv;
      ghost var nodes := Keys(heap.shape);
      StepKeeps(View(), Step<P>.EndBackoff);
      phase := LoopTop;
    }

    /** The wall clock moves, in either direction. */
    ghost method Tick(time: int)
      requires Valid()
      modifies this`now
      ensures Valid() && View() == Apply(old(View()), Step<P>.Tick(time)) && View() == old(View()).(now := time)
    {
      hide IsHeap, StrictWeakOrder, Entries, Agrees, PendingOf, Inv;
      var nodes := Keys(heap.shape);
      StepKeeps(View(), Step<P>.Tick(time));
      now := time;
    }
  }
}
