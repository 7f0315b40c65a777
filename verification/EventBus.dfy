/** The bus as an object.  The bodies follow the source; between two locked regions `Interleave` lets the consumers pop
    whatever they like.  The ghost history of actions ties each body to `EventBusModel`: every state of a bus is one that
    the step machine reaches. */
module EventBuses {
  import opened PartitionModel
  import opened PartitionLedger
  import opened EventBusModel
  import opened Results
  import opened Subscribers

  /** A slot holds what the history of its subscription leaves in the partition. */
  ghost predicate Mirrors<P>(now: Option<seq<Event<P>>>, slot: Option<Subscription<P>>, capacity: nat, merge: (P, P) -> P) {
    && now.Some? == slot.Some?
    && (now.Some? ==> now.value == QueueOf(slot.value, capacity, merge))
  }

  ghost predicate AllMirror<P>(now: seq<Option<seq<Event<P>>>>, slots: Slots<P>, capacity: nat, merge: (P, P) -> P) {
    |now| == |slots| && forall i :: 0 <= i < |now| ==> Mirrors(now[i], slots[i], capacity, merge)
  }

  lemma MirrorOne<P>(now: seq<Option<seq<Event<P>>>>, slots: Slots<P>, capacity: nat, merge: (P, P) -> P, id: nat)
    requires AllMirror(now, slots, capacity, merge)
    ensures id < |now| ==> Mirrors(now[id], slots[id], capacity, merge)
    ensures Live(slots, id) <==> id < |now| && now[id].Some?
    ensures Live(slots, id) ==> now[id].value == QueueAt(slots, id, capacity, merge)
  {}

  lemma MirrorPush<P>(now: seq<Option<seq<Event<P>>>>, slots: Slots<P>, capacity: nat, merge: (P, P) -> P, id: nat, e: Event<P>)
    requires AllMirror(now, slots, capacity, merge) && Live(slots, id)
    ensures AllMirror(now[id := Some(Push(now[id].value, capacity, e, merge))], Extend(slots, id, PushOp(e)), capacity, merge)
  {
    hide Push;
    RunPush(slots[id].value.ops, capacity, merge, e);
  }

  lemma MirrorPop<P>(now: seq<Option<seq<Event<P>>>>, slots: Slots<P>, capacity: nat, merge: (P, P) -> P, id: nat)
    requires AllMirror(now, slots, capacity, merge) && Live(slots, id)
    ensures AllMirror(
      if now[id].value == [] then now else now[id := Some(now[id].value[1..])], Extend(slots, id, PopOp), capacity, merge)
  {
    RunPop(slots[id].value.ops, capacity, merge);
  }

  /** Which slots are taken decides what `Taken` lists, not what they hold. */
  lemma SameTaken<X, Y>(a: seq<Option<X>>, b: seq<Option<Y>>, n: nat)
    requires n <= |a| == |b| && forall i :: 0 <= i < |a| ==> a[i].Some? == b[i].Some?
    ensures Taken(a, n) == Taken(b, n)
  {}

  lemma NoneTaken<X>(slots: seq<Option<X>>, n: nat)
    requires n <= |slots| && forall i :: 0 <= i < |slots| ==> slots[i] == None
    ensures Taken(slots, n) == []
  {}

  /** Filling a free slot adds one to the number of taken ones. */
  lemma {:induction false} TakenFills<X>(slots: seq<Option<X>>, id: nat, x: X, n: nat)
    requires id < |slots| && n <= |slots| && slots[id] == None
    ensures |Taken(slots[id := Some(x)], n)| == |Taken(slots, n)| + if id < n then 1 else 0
  {
    if n > 0 { TakenFills(slots, id, x, n - 1); }
  }

  lemma AllTaken<X>(slots: seq<Option<X>>, n: nat)
    requires n <= |slots|
    ensures |Taken(slots, n)| <= n
    ensures |Taken(slots, n)| == n ==> forall i :: 0 <= i < n ==> slots[i].Some?
  {}

  /** The same call is under way: nothing but pops, starts and stops in between. */
  ghost predicate SameCall<P>(now: Bus<P>, was: Bus<P>) {
    && now.publisher == was.publisher && now.sequence == was.sequence
    && now.reports == was.reports
    && |now.slots| == |was.slots| && forall id :: 0 <= id < |was.slots| ==> now.slots[id].Some? == was.slots[id].Some?
  }

  lemma ConsumeIsSameCall<P>(s: Bus<P>, capacity: nat, merge: (P, P) -> P, id: nat)
    requires Inv(s, capacity, merge) && Live(s.slots, id)
    ensures var t := Apply(s, capacity, merge, EventBusModel.Consume(id));
      SameCall(t, s) && (Roomy(s, capacity, merge) ==> Roomy(t, capacity, merge))
  {
    var action: Action<P> := EventBusModel.Consume(id);
    if Roomy(s, capacity, merge) && !s.publisher.Idle? {
      RoomyIsNotRefused(s, capacity, merge, action);
    }
  }

  ghost predicate Takes<P>(s: Bus<P>, capacity: nat, merge: (P, P) -> P, action: Action<P>, t: Bus<P>) {
    Enabled(s, action) && t == Apply(s, capacity, merge, action)
  }

  /** Starting and stopping do not take the publish mutex, and do not disturb the call that does. */
  lemma RunningIsSameCall<P>(s: Bus<P>, capacity: nat, merge: (P, P) -> P, running: bool)
    ensures var t := s.(running := running);
      SameCall(t, s) && (Roomy(s, capacity, merge) ==> Roomy(t, capacity, merge))
  {}

  class EventBus<P> {
    const partitionCapacity: nat
    const merge: (P, P) -> P
    const subscribers: SlotTable<P>
    var subscriberCount: nat
    var sequence: nat
    var running: bool

    /** All that has happened to this bus. */
    ghost var actions: seq<Action<P>>

    ghost function Model(): Bus<P>
      reads this
      requires Possible(actions, partitionCapacity, merge)
    {
      After(actions, partitionCapacity, merge)
    }

    ghost predicate Valid()
      reads this, subscribers, subscribers.slots, subscribers.all
    {
      && subscribers.Valid() && this !in subscribers.all
      && subscribers.size == |subscribers.queues| == MAX_SUBSCRIBERS && subscribers.capacity == partitionCapacity && subscribers.merge == merge
      && Possible(actions, partitionCapacity, merge)
      && sequence == Model().sequence && running == Model().running
      && AllMirror(subscribers.queues, Model().slots, partitionCapacity, merge)
      && subscriberCount == |Taken(subscribers.queues, MAX_SUBSCRIBERS)|
    }

    /** Valid, and no call holds the publish mutex. */
    ghost predicate Free()
      reads this, subscribers, subscribers.slots, subscribers.all
    {
      Valid() && Model().publisher.Idle?
    }

    constructor (partitionCapacity: nat, merge: (P, P) -> P)
      requires partitionCapacity > 0
      ensures Free() && Model() == Initial<P>() && fresh(subscribers) && fresh(subscribers.slots) && fresh(subscribers.all)
      ensures this.partitionCapacity == partitionCapacity && this.merge == merge
    {
      this.partitionCapacity, this.merge := partitionCapacity, merge;
      subscribers := new SlotTable(MAX_SUBSCRIBERS, partitionCapacity, merge);
      subscriberCount, sequence, running, actions := 0, 0, false, [];
      new;
      NoneTaken(subscribers.queues, MAX_SUBSCRIBERS);
    }

    /** Nothing broken can be reached. */
    lemma Sound()
      requires Valid()
      ensures Inv(Model(), partitionCapacity, merge) && Counted(Model(), partitionCapacity, merge)
      ensures Accepting(Model(), partitionCapacity, merge)
    {
      RunKeeps(actions, partitionCapacity, merge);
    }

    ghost method Record(action: Action<P>)
      requires Possible(actions, partitionCapacity, merge) && Enabled(Model(), action)
      modifies this`actions
      ensures actions == old(actions) + [action] && Possible(actions, partitionCapacity, merge)
      ensures Model() == Apply(old(Model()), partitionCapacity, merge, action)
    {
      AfterNext(actions, partitionCapacity, merge, action);
      actions := actions + [action];
    }

    /** What others do between two locked regions of a call: any number of pops, anywhere, and of starts and stops. */
    method Interleave()
      requires Valid()
      modifies this`running, this`actions, subscribers, subscribers.all
      ensures fresh(subscribers.all - old(subscribers.all))
      ensures Valid() && old(actions) <= actions
      ensures SameCall(Model(), old(Model()))
      ensures old(Roomy(Model(), partitionCapacity, merge)) ==> Roomy(Model(), partitionCapacity, merge)
    {
      hide Roomy, AllMirror, Taken, SlotTable.Valid;
      var times: nat :| true;
      while times > 0
        invariant Valid() && old(actions) <= actions && fresh(subscribers.all - old(subscribers.all))
        invariant SameCall(Model(), old(Model()))
        invariant old(Roomy(Model(), partitionCapacity, merge)) ==> Roomy(Model(), partitionCapacity, merge)
      {
        if {
          case true =>
            var id: nat :| id < MAX_SUBSCRIBERS;
            var _ := Consume(id);
          case true =>
            RunningIsSameCall(Model(), partitionCapacity, merge, true);
            Start();
          case true =>
            RunningIsSameCall(Model(), partitionCapacity, merge, false);
            Stop();
        }
        times := times - 1;
      }
    }

    /** One pop by the consumer of a partition. */
    method Consume(id: nat) returns (event: Option<Event<P>>)
      requires Valid() && id < MAX_SUBSCRIBERS
      modifies this`actions, subscribers, subscribers.all
      ensures fresh(subscribers.all - old(subscribers.all))
      ensures Valid() && old(actions) <= actions
      ensures SameCall(Model(), old(Model()))
      ensures old(Roomy(Model(), partitionCapacity, merge)) ==> Roomy(Model(), partitionCapacity, merge)
      ensures old(subscribers.queues[id]).None? ==> event == None && Model() == old(Model())
      ensures old(subscribers.queues[id]).Some? ==>
        && Takes(old(Model()), partitionCapacity, merge, EventBusModel.Consume(id), Model())
        && subscribers.queues ==
             (if old(subscribers.queues[id]) == Some([]) then old(subscribers.queues)
              else old(subscribers.queues)[id := Some(old(subscribers.queues[id]).value[1..])])
        && event == (if old(subscribers.queues[id]) == Some([]) then None else Some(old(subscribers.queues[id]).value[0]))
        && HandledAt(Model(), id) == HandledAt(old(Model()), id) + (if event == None then [] else [event.value])
    {
      hide Roomy, AllMirror, Taken, Inv, Counted, Apply, SlotTable.Valid;
      MirrorOne(subscribers.queues, Model().slots, partitionCapacity, merge, id);
      var taken := subscribers.IsTaken(id);
      if !taken {
        return None;
      }
      ghost var before, was := subscribers.queues, Model();
      Sound();
      ConsumeIsSameCall(was, partitionCapacity, merge, id);
      MirrorPop(before, was.slots, partitionCapacity, merge, id);
      ConsumePops(was, partitionCapacity, merge, id);
      ConsumeHandles(was, id);
      Record(EventBusModel.Consume(id));
      event := subscribers.PopAt(id);
      SameTaken(before, subscribers.queues, MAX_SUBSCRIBERS);
    }

    /** What the subscriber of a slot has received so far. */
    ghost function HandledAt(s: Bus<P>, id: nat): seq<Event<P>> {
      if Live(s.slots, id) then HandledOf(s.slots[id].value, partitionCapacity, merge) else []
    }

    lemma ConsumeHandles(s: Bus<P>, id: nat)
      requires Live(s.slots, id)
      ensures var q := QueueOf(s.slots[id].value, partitionCapacity, merge);
        HandledAt(Apply(s, partitionCapacity, merge, EventBusModel.Consume(id)), id)
        == HandledAt(s, id) + if q == [] then [] else [q[0]]
    {
      hide Run;
      RunPop(s.slots[id].value.ops, partitionCapacity, merge);
    }

    static lemma ConsumePops(s: Bus<P>, capacity: nat, merge: (P, P) -> P, id: nat)
      requires Live(s.slots, id)
      ensures Apply(s, capacity, merge, EventBusModel.Consume(id)) == s.(slots := Extend(s.slots, id, PopOp))
    {}

    method Subscribe(callable: bool) returns (r: Result<nat>)
      requires Free()
      modifies this`subscriberCount, this`actions, subscribers, subscribers.slots
      ensures fresh(subscribers.all - old(subscribers.all))
      ensures Free()
      ensures !callable ==> r == Err(InvalidArgument)
      ensures callable && running ==> r == Err(LogicError)
      ensures callable && !running ==>
        (r == Err(LengthError) <==> forall i :: 0 <= i < MAX_SUBSCRIBERS ==> old(subscribers.queues[i]).Some?)
      ensures callable && !running && r.Err? ==> r == Err(LengthError)
      ensures r.Err? ==> Model() == old(Model()) && subscribers.queues == old(subscribers.queues)
      ensures r.Ok? ==>
        && r.value < MAX_SUBSCRIBERS && old(subscribers.queues)[r.value].None?
        && (forall j :: 0 <= j < r.value ==> old(subscribers.queues)[j].Some?)
        && subscribers.queues == old(subscribers.queues)[r.value := Some([])]
        && subscriberCount == old(subscriberCount) + 1
        && Model() == old(Model()).(slots := old(Model()).slots[r.value := Some(Subscription(sequence, []))])
        && Enabled(old(Model()), EventBusModel.Subscribe(r.value))
        && Model() == Apply(old(Model()), partitionCapacity, merge, EventBusModel.Subscribe(r.value))
    {
      hide Taken, Possible, After, Apply, SlotTable.Valid;
      if !callable {
        return Err(InvalidArgument);
      }
      if running {
        return Err(LogicError);
      }
      AllTaken(subscribers.queues, MAX_SUBSCRIBERS);
      if subscriberCount >= MAX_SUBSCRIBERS {
        return Err(LengthError);
      }
      var id := 0;
      while id < MAX_SUBSCRIBERS
        invariant Free() && Model() == old(Model()) && subscribers.queues == old(subscribers.queues)
        invariant subscribers.all == old(subscribers.all)
        invariant id <= MAX_SUBSCRIBERS && forall i :: 0 <= i < id ==> subscribers.queues[i].Some?
      {
        var taken := subscribers.IsTaken(id);
        if !taken {
          TakenFills(subscribers.queues, id, [], MAX_SUBSCRIBERS);
          MembershipSlots(Model(), partitionCapacity, merge, id);
          Record(EventBusModel.Subscribe(id));
          subscribers.Fill(id);
          subscriberCount := subscriberCount + 1;
          return Ok(id);
        }
        id := id + 1;
      }
      return Err(LengthError);
    }

    method Unsubscribe(id: nat) returns (r: Result<()>)
      requires Free()
      modifies this`subscriberCount, this`actions, subscribers, subscribers.slots
      ensures fresh(subscribers.all - old(subscribers.all))
      ensures Free()
      ensures running ==> r == Err(LogicError)
      ensures !running && (id >= MAX_SUBSCRIBERS || old(subscribers.queues[id]).None?) ==> r == Err(OutOfRange)
      ensures r.Err? ==> Model() == old(Model()) && subscribers.queues == old(subscribers.queues)
      ensures !running && id < MAX_SUBSCRIBERS && old(subscribers.queues[id]).Some? ==>
        && r == Ok(()) && Enabled(old(Model()), EventBusModel.Unsubscribe(id))
        && subscribers.queues == old(subscribers.queues)[id := None] && subscriberCount == old(subscriberCount) - 1
        && Model() == old(Model()).(slots := old(Model()).slots[id := None])
        && Model() == Apply(old(Model()), partitionCapacity, merge, EventBusModel.Unsubscribe(id))
    {
      hide Taken, Possible, After, Apply, SlotTable.Valid;
      if running {
        return Err(LogicError);
      }
      if id >= MAX_SUBSCRIBERS {
        return Err(OutOfRange);
      }
      var taken := subscribers.IsTaken(id);
      if !taken {
        return Err(OutOfRange);
      }
      ghost var before := subscribers.queues;
      MembershipSlots(Model(), partitionCapacity, merge, id);
      Record(EventBusModel.Unsubscribe(id));
      subscribers.Free(id);
      TakenFills(subscribers.queues, id, before[id].value, MAX_SUBSCRIBERS);
      assert subscribers.queues[id := before[id]] == before;
      subscriberCount := subscriberCount - 1;
      return Ok(());
    }

    static lemma MembershipSlots(s: Bus<P>, capacity: nat, merge: (P, P) -> P, id: nat)
      requires id < |s.slots|
      ensures QueueOf(Subscription(s.sequence, []), capacity, merge) == []
      ensures Enabled(s, EventBusModel.Subscribe(id)) ==>
        Apply(s, capacity, merge, EventBusModel.Subscribe(id)) == s.(slots := s.slots[id := Some(Subscription(s.sequence, []))])
      ensures Enabled(s, EventBusModel.Unsubscribe(id)) ==>
        Apply(s, capacity, merge, EventBusModel.Unsubscribe(id)) == s.(slots := s.slots[id := None])
    {}

    /** The taken slots, under the lock on the registry. */
    method SnapshotSubscribers() returns (ids: seq<nat>)
      requires Valid()
      ensures ids == Taken(subscribers.queues, MAX_SUBSCRIBERS)
    {
      ids := [];
      for id := 0 to MAX_SUBSCRIBERS
        invariant ids == Taken(subscribers.queues, id)
      {
        var taken := subscribers.IsTaken(id);
        if taken {
          ids := ids + [id];
        }
      }
    }

    /** A locked check of one partition. */
    method CheckNext(id: nat, event: Event<P>) returns (ok: bool)
      requires Valid() && Enabled(Model(), Check)
      requires Model().publisher.event == event && Model().publisher.targets[Model().publisher.reached] == id
      modifies this`actions
      ensures Valid() && actions == old(actions) + [Check]
      ensures Model() == Apply(old(Model()), partitionCapacity, merge, Check)
      ensures ok == Model().publisher.Checking?
      ensures old(Roomy(Model(), partitionCapacity, merge)) ==> ok && Roomy(Model(), partitionCapacity, merge)
    {
      hide Roomy, AllMirror, Taken, CanAccept, QueueAt, SlotTable.Valid;
      Sound();
      CheckDecides(Model(), partitionCapacity, merge);
      MirrorOne(subscribers.queues, Model().slots, partitionCapacity, merge, id);
      ok := subscribers.CanAcceptAt(id, event);
      Record(Check);
    }

    static lemma CheckDecides(s: Bus<P>, capacity: nat, merge: (P, P) -> P)
      requires Inv(s, capacity, merge) && Enabled(s, Check)
      ensures var p, t := s.publisher, Apply(s, capacity, merge, Check);
        && Live(s.slots, p.targets[p.reached])
        && (t.publisher.Checking? <==>
              CanAccept(QueueAt(s.slots, p.targets[p.reached], capacity, merge), capacity, KeyOf(p.event)))
        && (Roomy(s, capacity, merge) ==> t.publisher.Checking? && Roomy(t, capacity, merge))
        && t.slots == s.slots && t.sequence == s.sequence && t.running == s.running
    {
      if Roomy(s, capacity, merge) { RoomyIsNotRefused(s, capacity, merge, Check); }
    }

    /** A locked push into one partition. */
    method InsertNext(id: nat, event: Event<P>) returns (outcome: PushResult)
      requires Valid() && Enabled(Model(), Insert)
      requires Model().publisher.event == event && Model().publisher.targets[Model().publisher.reached] == id
      modifies this`actions, subscribers, subscribers.all
      ensures fresh(subscribers.all - old(subscribers.all))
      ensures Valid() && actions == old(actions) + [Insert]
      ensures Model() == Apply(old(Model()), partitionCapacity, merge, Insert)
      ensures Live(old(Model()).slots, id)
        && outcome == PushOutcome(QueueAt(old(Model()).slots, id, partitionCapacity, merge), partitionCapacity, event)
        && outcome != Full
    {
      hide AllMirror, Taken, CanAccept, QueueAt, Push, PushOutcome, SlotTable.Valid;
      ghost var was, before := Model(), subscribers.queues;
      Sound();
      InsertFindsRoom(was, partitionCapacity, merge);
      MirrorOne(before, was.slots, partitionCapacity, merge, id);
      MirrorPush(before, was.slots, partitionCapacity, merge, id, event);
      Record(Insert);
      outcome := subscribers.PushAt(id, event);
      SameTaken(before, subscribers.queues, MAX_SUBSCRIBERS);
    }

    /** First pass: every partition is asked before anything is inserted. */
    method Preflight(ids: seq<nat>, event: Event<P>) returns (ok: bool)
      requires Valid() && Model().publisher == Checking(event, ids, 0)
      modifies this`running, this`actions, subscribers, subscribers.all
      ensures fresh(subscribers.all - old(subscribers.all))
      ensures Valid() && old(actions) <= actions && sequence == Model().sequence == old(sequence)
      ensures ok ==> Model().publisher == Checking(event, ids, |ids|) && Model().reports == old(Model()).reports
      ensures !ok ==> Model().publisher.Idle? && Model().reports == old(Model()).reports + [Refused(event, ids)]
      ensures old(Roomy(Model(), partitionCapacity, merge)) ==> ok
    {
      hide Roomy, AllMirror, Taken, CanAccept, QueueAt, Possible, After, SlotTable.Valid;
      var i := 0;
      while i < |ids|
        invariant i <= |ids| && Valid() && old(actions) <= actions && sequence == old(sequence)
        invariant fresh(subscribers.all - old(subscribers.all))
        invariant Model().publisher == Checking(event, ids, i) && Model().reports == old(Model()).reports
        invariant old(Roomy(Model(), partitionCapacity, merge)) ==> Roomy(Model(), partitionCapacity, merge)
      {
        Interleave();
        ok := CheckNext(ids[i], event);
        if !ok {
          return false;
        }
        i := i + 1;
      }
      return true;
    }

    /** Second pass: insert everywhere. */
    method Deliver(ids: seq<nat>, event: Event<P>) returns (r: Result<PublishResult>)
      requires Valid() && Model().publisher == Inserting(event, ids, 0, PublishResult(0, 0))
      modifies this`running, this`actions, subscribers, subscribers.all
      ensures fresh(subscribers.all - old(subscribers.all))
      ensures Valid() && old(actions) <= actions && sequence == old(sequence)
      ensures r.Ok? && Model().publisher == Inserting(event, ids, |ids|, r.value) && Model().reports == old(Model()).reports
    {
      hide AllMirror, Taken, CanAccept, QueueAt, Possible, After, PushOutcome, SlotTable.Valid;
      var result, i := PublishResult(0, 0), 0;
      while i < |ids|
        invariant i <= |ids| && Valid() && old(actions) <= actions && sequence == old(sequence)
        invariant fresh(subscribers.all - old(subscribers.all))
        invariant Model().publisher == Inserting(event, ids, i, result) && Model().reports == old(Model()).reports
      {
        Interleave();
        var outcome := InsertNext(ids[i], event);
        match outcome {
          case Inserted => result := result.(delivered := result.delivered + 1);
          case Coalesced => result := PublishResult(result.delivered + 1, result.coalesced + 1);
          case Full => return Err(LogicError);
        }
        i := i + 1;
      }
      r := Ok(result);
    }

    /** The partitions of `ids` can take an event of this key. */
    ghost predicate Ready(ids: seq<nat>, key: Key)
      reads subscribers
    {
      forall j :: 0 <= j < |ids| ==>
        ids[j] < |subscribers.queues| && subscribers.queues[ids[j]].Some?
        && CanAccept(subscribers.queues[ids[j]].value, partitionCapacity, key)
    }

    lemma ReadyIsRoomy(s: Bus<P>, ids: seq<nat>)
      requires Valid() && s.slots == Model().slots && s.publisher.Checking? && s.publisher.targets == ids
      requires Ready(ids, KeyOf(s.publisher.event))
      ensures Roomy(s, partitionCapacity, merge)
    {
      hide CanAccept, QueueAt, AllMirror, SlotTable.Valid;
      forall i | 0 <= i < |ids|
        ensures CanAccept(QueueAt(s.slots, ids[i], partitionCapacity, merge), partitionCapacity, KeyOf(s.publisher.event))
      {
        MirrorOne(subscribers.queues, s.slots, partitionCapacity, merge, ids[i]);
      }
    }

    lemma TakenMirrors()
      requires Valid()
      ensures |Model().slots| == MAX_SUBSCRIBERS
      ensures Taken(subscribers.queues, MAX_SUBSCRIBERS) == Taken(Model().slots, MAX_SUBSCRIBERS)
    {
      SameTaken(subscribers.queues, Model().slots, MAX_SUBSCRIBERS);
    }

    /** The event has gone once into the partition of each of `ids`, and into no other. */
    ghost predicate PushedExactly(ids: seq<nat>, event: Event<P>)
      reads this
      requires Possible(actions, partitionCapacity, merge)
    {
      && (forall id :: id in ids ==> Live(Model().slots, id))
      && forall id: nat :: Live(Model().slots, id) ==>
           if id in ids then GotOnce(Model().slots[id].value, event, partitionCapacity, merge)
           else PushOp(event) !in Model().slots[id].value.ops
    }

    /** Into the partitions of all subscribers, or into none.  The sequence number is spent either way. */
    method Publish(eventId: nat, payload: P, superstep: nat) returns (r: Result<PublishResult>)
      requires Free()
      modifies this`running, this`sequence, this`actions, subscribers, subscribers.all
      ensures fresh(subscribers.all - old(subscribers.all))
      ensures Free() && old(actions) <= actions && sequence == old(sequence) + 1
      ensures
        var event := Event(eventId, superstep, old(sequence), payload);
        var ids := Taken(old(subscribers.queues), MAX_SUBSCRIBERS);
        && (old(Ready(Taken(subscribers.queues, MAX_SUBSCRIBERS), Key(eventId, superstep))) ==> r.Ok?)
        && (r.Err? ==>
              && r == Err(Overflow) && Model().reports == old(Model()).reports + [Refused(event, ids)]
              && PushedExactly([], event))
        && (r.Ok? ==>
              && Model().reports == old(Model()).reports + [Completed(event, ids, r.value)]
              && r.value.delivered == |ids| == subscriberCount
              && r.value.coalesced == CoalescedCount(Model().slots, ids, partitionCapacity, merge, event)
              && PushedExactly(ids, event))
    {
      hide Roomy, AllMirror, Taken, Ready, Possible, After, CoalescedCount, Inv, Counted, PushedExactly, Apply, SlotTable.Valid;
      var ids := SnapshotSubscribers();
      TakenMirrors();
      var event := Event(eventId, superstep, sequence, payload);
      CallSteps(Model(), partitionCapacity, merge, 0, event);
      Record(Begin(eventId, superstep, payload));
      sequence := sequence + 1;
      if Ready(ids, KeyOf(event)) { ReadyIsRoomy(Model(), ids); }
      var room := Preflight(ids, event);
      if !room {
        RefusedNowhere(Refused(event, ids));
        return Err(Overflow);
      }
      r := Complete(ids, event);
    }

    /** From the end of the first pass to the end of the call. */
    method Complete(ids: seq<nat>, event: Event<P>) returns (r: Result<PublishResult>)
      requires Valid() && Model().publisher == Checking(event, ids, |ids|)
      modifies this`running, this`actions, subscribers, subscribers.all
      ensures fresh(subscribers.all - old(subscribers.all))
      ensures Free() && old(actions) <= actions && sequence == old(sequence)
      ensures r.Ok? && Model().reports == old(Model()).reports + [Completed(event, ids, r.value)]
      ensures r.value.delivered == |ids|
      ensures r.value.coalesced == CoalescedCount(Model().slots, ids, partitionCapacity, merge, event)
      ensures PushedExactly(ids, event)
    {
      hide Roomy, AllMirror, Taken, Possible, After, CoalescedCount, Inv, Counted, Apply, SlotTable.Valid;
      CallSteps(Model(), partitionCapacity, merge, 0, event);
      Record(Turn);
      r := Deliver(ids, event);
      Sound();
      Delivered(Model(), partitionCapacity, merge, ids, event);
      CallSteps(Model(), partitionCapacity, merge, 0, event);
      Record(Finish);
    }

    /** The steps of a call that touch no partition. */
    static lemma CallSteps(s: Bus<P>, capacity: nat, merge: (P, P) -> P, id: nat, event: Event<P>)
      ensures
        var action := Begin(event.id, event.superstep, event.payload);
        Enabled(s, action) && s.sequence == event.sequence ==>
          Apply(s, capacity, merge, action)
          == s.(sequence := s.sequence + 1, publisher := Checking(event, Taken(s.slots, |s.slots|), 0))
      ensures
        var action := BeginOne(id, event.id, event.superstep, event.payload);
        Enabled(s, action) && s.sequence == event.sequence ==>
          Apply(s, capacity, merge, action)
          == if Live(s.slots, id) then s.(sequence := s.sequence + 1, publisher := Checking(event, [id], 0))
             else s.(reports := s.reports + [Missing])
      ensures
        Enabled(s, Turn) ==>
          Apply(s, capacity, merge, Turn)
          == s.(publisher := Inserting(s.publisher.event, s.publisher.targets, 0, PublishResult(0, 0)))
      ensures
        Enabled(s, Finish) ==>
          var p := s.publisher;
          Apply(s, capacity, merge, Finish)
          == s.(publisher := Idle, reports := s.reports + [Completed(p.event, p.targets, p.result)])
    {}

    lemma RefusedNowhere(r: Report<P>)
      requires Valid() && r.Refused? && r in Model().reports
      ensures PushedExactly([], r.event)
    {
      hide SlotTable.Valid, AllMirror, Taken;
      Sound();
      forall id: nat | Live(Model().slots, id) ensures PushOp(r.event) !in Model().slots[id].value.ops {
        assert SlotInv(Model(), id);
      }
    }

    static lemma Delivered(s: Bus<P>, capacity: nat, merge: (P, P) -> P, ids: seq<nat>, event: Event<P>)
      requires Inv(s, capacity, merge) && Counted(s, capacity, merge) && Accepting(s, capacity, merge)
      requires s.publisher.Inserting? && s.publisher.reached == |ids| && s.publisher.targets == ids && s.publisher.event == event
      ensures s.publisher.result.delivered == |ids|
      ensures s.publisher.result.coalesced == CoalescedCount(s.slots, ids, capacity, merge, event)
      ensures forall id :: id in ids ==> Live(s.slots, id)
      ensures forall id: nat :: Live(s.slots, id) ==>
        if id in ids then GotOnce(s.slots[id].value, event, capacity, merge) else PushOp(event) !in s.slots[id].value.ops
    {
      hide CanAccept, QueueAt, CoalescedCount, GotOnce, AllAccepted;
      assert ids[..|ids|] == ids;
      forall id: nat | Live(s.slots, id)
        ensures if id in ids then GotOnce(s.slots[id].value, event, capacity, merge)
          else PushOp(event) !in s.slots[id].value.ops
      {
        assert SlotInv(s, id);
        if id in ids {
          PushedIsGot(s.slots[id].value, event, s.sequence, capacity, merge);
        } else {
          NotPushed(s.slots[id].value.ops, event);
        }
      }
    }

    /** Into the partition of one subscriber. */
    method PublishOne(id: nat, eventId: nat, payload: P, superstep: nat) returns (r: Result<PublishResult>)
      requires Free()
      modifies this`running, this`sequence, this`actions, subscribers, subscribers.all
      ensures fresh(subscribers.all - old(subscribers.all))
      ensures Free() && old(actions) <= actions
      ensures id >= MAX_SUBSCRIBERS || old(subscribers.queues[id]).None? ==>
        && r == Err(OutOfRange) && sequence == old(sequence) && subscribers.queues == old(subscribers.queues)
        && Model() == old(Model()).(reports := old(Model()).reports + [Missing])
      ensures id < MAX_SUBSCRIBERS && old(subscribers.queues[id]).Some? ==>
        var event := Event(eventId, superstep, old(sequence), payload);
        && sequence == old(sequence) + 1
        && (old(Ready([id], Key(eventId, superstep))) ==> r.Ok?)
        && (r.Err? ==>
              && r == Err(Overflow) && Model().reports == old(Model()).reports + [Refused(event, [id])]
              && PushedExactly([], event))
        && (r.Ok? ==>
              && Model().reports == old(Model()).reports + [Completed(event, [id], r.value)]
              && r.value.delivered == 1
              && r.value.coalesced == CoalescedCount(Model().slots, [id], partitionCapacity, merge, event)
              && PushedExactly([id], event))
    {
      hide Roomy, AllMirror, Taken, Ready, Possible, After, CoalescedCount, Inv, Counted, PushedExactly, Apply, SlotTable.Valid;
      MirrorLive(id);
      CallSteps(Model(), partitionCapacity, merge, id, Event(eventId, superstep, sequence, payload));
      var taken := false;
      if id < MAX_SUBSCRIBERS {
        taken := subscribers.IsTaken(id);
      }
      if !taken {
        Record(BeginOne(id, eventId, superstep, payload));
        return Err(OutOfRange);
      }
      r := PublishTo(id, eventId, payload, superstep);
    }

    method PublishTo(id: nat, eventId: nat, payload: P, superstep: nat) returns (r: Result<PublishResult>)
      requires Free() && id < MAX_SUBSCRIBERS && subscribers.queues[id].Some?
      modifies this`running, this`sequence, this`actions, subscribers, subscribers.all
      ensures fresh(subscribers.all - old(subscribers.all))
      ensures Free() && old(actions) <= actions
      ensures
        var event := Event(eventId, superstep, old(sequence), payload);
        && sequence == old(sequence) + 1
        && (old(Ready([id], Key(eventId, superstep))) ==> r.Ok?)
        && (r.Err? ==>
              && r == Err(Overflow) && Model().reports == old(Model()).reports + [Refused(event, [id])]
              && PushedExactly([], event))
        && (r.Ok? ==>
              && Model().reports == old(Model()).reports + [Completed(event, [id], r.value)]
              && r.value.delivered == 1
              && r.value.coalesced == CoalescedCount(Model().slots, [id], partitionCapacity, merge, event)
              && PushedExactly([id], event))
    {
      hide Roomy, AllMirror, Taken, Ready, Possible, After, CoalescedCount, Inv, Counted, PushedExactly, Apply, SlotTable.Valid;
      MirrorLive(id);
      var event := Event(eventId, superstep, sequence, payload);
      CallSteps(Model(), partitionCapacity, merge, id, event);
      Record(BeginOne(id, eventId, superstep, payload));
      sequence := sequence + 1;
      if Ready([id], KeyOf(event)) { ReadyIsRoomy(Model(), [id]); }
      var room := Preflight([id], event);
      if !room {
        RefusedNowhere(Refused(event, [id]));
        return Err(Overflow);
      }
      r := CompleteOne(id, event);
    }

    lemma MirrorLive(id: nat)
      requires Valid()
      ensures Live(Model().slots, id) <==> id < MAX_SUBSCRIBERS && subscribers.queues[id].Some?
    {
      MirrorOne(subscribers.queues, Model().slots, partitionCapacity, merge, id);
    }

    /** The one push of a call for one subscriber. */
    method CompleteOne(id: nat, event: Event<P>) returns (r: Result<PublishResult>)
      requires Valid() && Model().publisher == Checking(event, [id], 1)
      modifies this`running, this`actions, subscribers, subscribers.all
      ensures fresh(subscribers.all - old(subscribers.all))
      ensures Free() && old(actions) <= actions && sequence == old(sequence)
      ensures r.Ok? && Model().reports == old(Model()).reports + [Completed(event, [id], r.value)]
      ensures r.value.delivered == 1
      ensures r.value.coalesced == CoalescedCount(Model().slots, [id], partitionCapacity, merge, event)
      ensures PushedExactly([id], event)
    {
      hide Roomy, AllMirror, Taken, Possible, After, CoalescedCount, Inv, Counted, Apply, SlotTable.Valid;
      CallSteps(Model(), partitionCapacity, merge, id, event);
      Record(Turn);
      var result := DeliverOne(id, event);
      Sound();
      Delivered(Model(), partitionCapacity, merge, [id], event);
      CallSteps(Model(), partitionCapacity, merge, id, event);
      Record(Finish);
      r := Ok(result);
    }

    method DeliverOne(id: nat, event: Event<P>) returns (result: PublishResult)
      requires Valid() && Model().publisher == Inserting(event, [id], 0, PublishResult(0, 0))
      modifies this`running, this`actions, subscribers, subscribers.all
      ensures fresh(subscribers.all - old(subscribers.all))
      ensures Valid() && old(actions) <= actions && sequence == old(sequence)
      ensures Model().publisher == Inserting(event, [id], 1, result) && Model().reports == old(Model()).reports
    {
      hide Roomy, AllMirror, Taken, CanAccept, QueueAt, Possible, After, PushOutcome, SlotTable.Valid;
      Interleave();
      result := PublishResult(0, 0);
      var outcome := InsertNext(id, event);
      if outcome == Inserted || outcome == Coalesced {
        result := result.(delivered := 1);
      }
      if outcome == Coalesced {
        result := result.(coalesced := 1);
      }
    }

    /** Membership is frozen from here on. */
    method Start()
      requires Valid()
      modifies this`running, this`actions
      ensures Valid() && old(actions) <= actions && running && Model() == old(Model()).(running := true)
    {
      hide AllMirror, Taken, SlotTable.Valid;
      if running {
        return;
      }
      Record(EventBusModel.Start);
      running := true;
    }

    method Stop()
      requires Valid()
      modifies this`running, this`actions
      ensures Valid() && old(actions) <= actions && !running && Model() == old(Model()).(running := false)
    {
      hide AllMirror, Taken, SlotTable.Valid;
      if !running {
        return;
      }
      Record(EventBusModel.Stop);
      running := false;
    }
  }

  /** A bus needs room in its partitions; without a merger the later payload replaces the earlier one. */
  method MakeBus<P>(partitionCapacity: nat, merger: Option<(P, P) -> P>) returns (r: Result<EventBus<P>>)
    ensures partitionCapacity == 0 <==> r == Err(InvalidArgument)
    ensures r.Err? ==> r == Err(InvalidArgument)
    ensures r.Ok? ==>
      && fresh(r.value) && r.value.Free() && r.value.Model() == Initial<P>() && r.value.partitionCapacity == partitionCapacity
      && (merger.Some? ==> r.value.merge == merger.value)
      && (merger.None? ==> forall current, incoming :: r.value.merge(current, incoming) == incoming)
  {
    if partitionCapacity == 0 {
      return Err(InvalidArgument);
    }
    var merge := match merger case Some(m) => m case None => (current, incoming) => incoming;
    var bus := new EventBus(partitionCapacity, merge);
    r := Ok(bus);
  }
}
