/** The bus as a step machine.  A step is one locked region of the source: a check of one partition, a push into one, a
    pop from one.  Publishers exclude one another, and exclude changes of membership; consumers pop at any time.  A
    subscription is kept as the history of its partition, so that `PartitionLedger` tells what is in it. */
module EventBusModel {
  import opened PartitionModel
  import opened PartitionLedger
  import opened Results

  const MAX_SUBSCRIBERS: nat := 16

  datatype PublishResult = PublishResult(delivered: nat, coalesced: nat)

  datatype Subscription<+P> = Subscription(
    since: nat,          // the bus sequence number at which it began
    ops: seq<Op<P>>)

  type Slots<+P> = seq<Option<Subscription<P>>>

  /** What a publish call came to. */
  datatype Report<+P> =
    | Missing
    | Refused(event: Event<P>, targets: seq<nat>)
    | Completed(event: Event<P>, targets: seq<nat>, result: PublishResult)
    | Broken(event: Event<P>)   // a partition was full although it had been checked

  /** The place of the call that holds the publish mutex. */
  datatype Publisher<+P> =
    | Idle
    | Checking(event: Event<P>, targets: seq<nat>, reached: nat)
    | Inserting(event: Event<P>, targets: seq<nat>, reached: nat, result: PublishResult)

  datatype Bus<+P> = Bus(
    slots: Slots<P>, sequence: nat, running: bool, publisher: Publisher<P>, reports: seq<Report<P>>)

  datatype Action<+P> =
    | Begin(eventId: nat, superstep: nat, payload: P)
    | BeginOne(id: nat, eventId: nat, superstep: nat, payload: P)
    | Check
    | Turn
    | Insert
    | Finish
    | Consume(id: nat)
    | Subscribe(id: nat)
    | Unsubscribe(id: nat)
    | Start
    | Stop

  /** The taken ones among the first `n` slots, in order. */
  function Taken<X>(slots: seq<Option<X>>, n: nat): (ids: seq<nat>)
    requires n <= |slots|
    ensures forall i :: 0 <= i < |ids| ==> ids[i] < n && slots[ids[i]].Some?
    ensures forall i, j :: 0 <= i < j < |ids| ==> ids[i] < ids[j]
    ensures forall id :: 0 <= id < n && slots[id].Some? ==> id in ids
  {
    if n == 0 then [] else Taken(slots, n - 1) + if slots[n - 1].Some? then [n - 1] else []
  }

  predicate Live<P>(slots: Slots<P>, id: nat) {
    id < |slots| && slots[id].Some?
  }

  function QueueOf<P>(sub: Subscription<P>, capacity: nat, merge: (P, P) -> P): seq<Event<P>> {
    Run(sub.ops, capacity, merge).queue
  }

  function HandledOf<P>(sub: Subscription<P>, capacity: nat, merge: (P, P) -> P): seq<Event<P>> {
    Run(sub.ops, capacity, merge).popped
  }

  /** The partition of slot `id`. */
  function QueueAt<P>(slots: Slots<P>, id: nat, capacity: nat, merge: (P, P) -> P): seq<Event<P>> {
    if Live(slots, id) then QueueOf(slots[id].value, capacity, merge) else []
  }

  /** One more operation on the partition of slot `id`. */
  function Extend<P>(slots: Slots<P>, id: nat, op: Op<P>): Slots<P> {
    if Live(slots, id) then slots[id := Some(slots[id].value.(ops := slots[id].value.ops + [op]))] else slots
  }

  function Initial<P>(): Bus<P> {
    Bus(seq(MAX_SUBSCRIBERS, _ => None), 0, false, Idle, [])
  }

  predicate Enabled<P>(s: Bus<P>, action: Action<P>) {
    match action
    case Begin(_, _, _) => s.publisher.Idle?
    case BeginOne(_, _, _, _) => s.publisher.Idle?
    case Check => s.publisher.Checking? && s.publisher.reached < |s.publisher.targets|
    case Turn => s.publisher.Checking? && s.publisher.reached == |s.publisher.targets|
    case Insert => s.publisher.Inserting? && s.publisher.reached < |s.publisher.targets|
    case Finish => s.publisher.Inserting? && s.publisher.reached == |s.publisher.targets|
    case Consume(id) => Live(s.slots, id)
    case Subscribe(id) =>
      s.publisher.Idle? && !s.running && id < |s.slots| && s.slots[id] == None && forall j :: 0 <= j < id ==> s.slots[j].Some?
    case Unsubscribe(id) => s.publisher.Idle? && !s.running && Live(s.slots, id)
    case Start => true
    case Stop => true
  }

  function Apply<P>(s: Bus<P>, capacity: nat, merge: (P, P) -> P, action: Action<P>): Bus<P>
    requires Enabled(s, action)
  {
    match action
    case Begin(eventId, superstep, payload) =>
      s.(sequence := s.sequence + 1,
         publisher := Checking(Event(eventId, superstep, s.sequence, payload), Taken(s.slots, |s.slots|), 0))
    case BeginOne(id, eventId, superstep, payload) =>
      if Live(s.slots, id) then
        s.(sequence := s.sequence + 1, publisher := Checking(Event(eventId, superstep, s.sequence, payload), [id], 0))
      else s.(reports := s.reports + [Missing])
    case Check =>
      var p := s.publisher;
      if CanAccept(QueueAt(s.slots, p.targets[p.reached], capacity, merge), capacity, KeyOf(p.event)) then
        s.(publisher := Checking(p.event, p.targets, p.reached + 1))
      else s.(publisher := Idle, reports := s.reports + [Refused(p.event, p.targets)])
    case Turn => s.(publisher := Inserting(s.publisher.event, s.publisher.targets, 0, PublishResult(0, 0)))
    case Insert =>
      var p, id := s.publisher, s.publisher.targets[s.publisher.reached];
      var t := s.(slots := Extend(s.slots, id, PushOp(p.event)));
      (match PushOutcome(QueueAt(s.slots, id, capacity, merge), capacity, p.event)
       case Inserted =>
         t.(publisher := Inserting(p.event, p.targets, p.reached + 1,
                                   p.result.(delivered := p.result.delivered + 1)))
       case Coalesced =>
         t.(publisher := Inserting(p.event, p.targets, p.reached + 1,
                                   PublishResult(p.result.delivered + 1, p.result.coalesced + 1)))
       case Full => t.(publisher := Idle, reports := s.reports + [Broken(p.event)]))
    case Finish =>
      var p := s.publisher;
      s.(publisher := Idle, reports := s.reports + [Completed(p.event, p.targets, p.result)])
    case Consume(id) => s.(slots := Extend(s.slots, id, PopOp))
    case Subscribe(id) => s.(slots := s.slots[id := Some(Subscription(s.sequence, []))])
    case Unsubscribe(id) => s.(slots := s.slots[id := None])
    case Start => s.(running := true)
    case Stop => s.(running := false)
  }

  // ---------- The invariant ----------

  /** Pushes carry rising sequence numbers, all below `bound`. */
  ghost predicate Ascending<P>(ops: seq<Op<P>>, bound: nat) {
    && (forall i :: 0 <= i < |ops| && ops[i].PushOp? ==> ops[i].event.sequence < bound)
    && (forall i, j :: 0 <= i < j < |ops| && ops[i].PushOp? && ops[j].PushOp? ==>
          ops[i].event.sequence < ops[j].event.sequence)
  }

  /** A refused event was pushed nowhere; a completed one exactly into its targets. */
  ghost predicate Settled<P>(sub: Subscription<P>, id: nat, r: Report<P>) {
    && (r.Refused? ==> PushOp(r.event) !in sub.ops)
    && (r.Completed? && sub.since <= r.event.sequence ==> (PushOp(r.event) in sub.ops <==> id in r.targets))
  }

  /** The slots that the publisher's second pass has been to. */
  predicate Visited<P>(p: Publisher<P>, id: nat) {
    p.Inserting? && p.reached <= |p.targets| && id in p.targets[..p.reached]
  }

  ghost predicate SlotInv<P>(s: Bus<P>, id: nat)
    requires Live(s.slots, id)
  {
    var sub := s.slots[id].value;
    && sub.since <= s.sequence
    && Ascending(sub.ops, s.sequence)
    && (!s.publisher.Idle? ==>
          && sub.since <= s.publisher.event.sequence
          && if Visited(s.publisher, id) then PushOp(s.publisher.event) in sub.ops
             else Ascending(sub.ops, s.publisher.event.sequence))
    && (forall r :: r in s.reports ==> Settled(sub, id, r))
  }

  /** What the publisher still has to visit it may rely on. */
  ghost predicate PublisherInv<P>(s: Bus<P>, capacity: nat, merge: (P, P) -> P) {
    var p := s.publisher;
    !p.Idle? ==>
      && p.event.sequence + 1 == s.sequence
      && p.reached <= |p.targets|
      && (forall i :: 0 <= i < |p.targets| ==> Live(s.slots, p.targets[i]))
      && (forall i, j :: 0 <= i < j < |p.targets| ==> p.targets[i] < p.targets[j])
      && (forall i :: Known(p, i) ==> CanAccept(QueueAt(s.slots, p.targets[i], capacity, merge), capacity, KeyOf(p.event)))
      && (p.Inserting? ==> p.result.delivered == p.reached)
  }

  /** The partitions known to have room: those checked, less those already pushed into. */
  predicate Known<P>(p: Publisher<P>, i: int) {
    !p.Idle? && 0 <= i < |p.targets| && if p.Checking? then i < p.reached else p.reached <= i
  }

  ghost predicate ReportInv<P>(s: Bus<P>, r: Report<P>) {
    && !r.Broken?
    && (!r.Missing? ==> r.event.sequence < s.sequence && (!s.publisher.Idle? ==> r.event.sequence < s.publisher.event.sequence))
    && (r.Completed? ==> r.result.delivered == |r.targets|)
  }

  ghost predicate Inv<P>(s: Bus<P>, capacity: nat, merge: (P, P) -> P) {
    && |s.slots| == MAX_SUBSCRIBERS
    && (forall id: nat :: Live(s.slots, id) ==> SlotInv(s, id))
    && PublisherInv(s, capacity, merge)
    && (forall r :: r in s.reports ==> ReportInv(s, r))
  }

  // ---------- One operation on a partition ----------

  lemma RunPush<P>(ops: seq<Op<P>>, capacity: nat, merge: (P, P) -> P, e: Event<P>)
    ensures Run(ops + [PushOp(e)], capacity, merge).queue == Push(Run(ops, capacity, merge).queue, capacity, e, merge)
    ensures Run(ops + [PushOp(e)], capacity, merge).popped == Run(ops, capacity, merge).popped
  {
    assert (ops + [PushOp(e)])[..|ops|] == ops;
  }

  lemma RunPop<P>(ops: seq<Op<P>>, capacity: nat, merge: (P, P) -> P)
    ensures var s, t := Run(ops, capacity, merge), Run(ops + [PopOp], capacity, merge);
      if s.queue == [] then t.queue == [] && t.popped == s.popped
      else t.queue == s.queue[1..] && t.popped == s.popped + [s.queue[0]]
  {
    assert (ops + [PopOp])[..|ops|] == ops;
  }

  lemma RunWellFormed<P>(ops: seq<Op<P>>, capacity: nat, merge: (P, P) -> P)
    ensures WellFormed(Run(ops, capacity, merge).queue, capacity)
  {
    LedgerHolds(ops, capacity, merge);
  }

  /** A partition that has room keeps it while consumers pop. */
  lemma PopKeepsRoom<P>(ops: seq<Op<P>>, capacity: nat, merge: (P, P) -> P, key: Key)
    requires CanAccept(Run(ops, capacity, merge).queue, capacity, key)
    ensures CanAccept(Run(ops + [PopOp], capacity, merge).queue, capacity, key)
  {
    hide Run;
    RunPop(ops, capacity, merge);
    RunWellFormed(ops, capacity, merge);
    if Run(ops, capacity, merge).queue != [] {
      PopsKeepAcceptance(Run(ops, capacity, merge).queue, capacity, 1, key);
    }
  }

  // ---------- Every step keeps the invariant ----------

  lemma BeginKeeps<P>(s: Bus<P>, capacity: nat, merge: (P, P) -> P, action: Action<P>)
    requires Inv(s, capacity, merge) && Enabled(s, action) && (action.Begin? || action.BeginOne?)
    ensures Inv(Apply(s, capacity, merge, action), capacity, merge)
  {
    var t := Apply(s, capacity, merge, action);
    forall id: nat | Live(t.slots, id) ensures SlotInv(t, id) { assert SlotInv(s, id); }
  }

  lemma CheckKeeps<P>(s: Bus<P>, capacity: nat, merge: (P, P) -> P)
    requires Inv(s, capacity, merge) && Enabled(s, Check)
    ensures Inv(Apply(s, capacity, merge, Check), capacity, merge)
  {
    hide CanAccept, QueueAt;
    var t := Apply(s, capacity, merge, Check);
    forall id: nat | Live(t.slots, id) ensures SlotInv(t, id) {
      assert SlotInv(s, id);
      NotPushed(s.slots[id].value.ops, s.publisher.event);
    }
  }

  lemma NotPushed<P>(ops: seq<Op<P>>, e: Event<P>)
    requires Ascending(ops, e.sequence)
    ensures PushOp(e) !in ops
  {}

  lemma TurnKeeps<P>(s: Bus<P>, capacity: nat, merge: (P, P) -> P)
    requires Inv(s, capacity, merge) && Enabled(s, Turn)
    ensures Inv(Apply(s, capacity, merge, Turn), capacity, merge)
  {
    hide CanAccept, QueueAt;
    var t := Apply(s, capacity, merge, Turn);
    forall id: nat | Live(t.slots, id) ensures SlotInv(t, id) { assert SlotInv(s, id); }
  }

  lemma FinishKeeps<P>(s: Bus<P>, capacity: nat, merge: (P, P) -> P)
    requires Inv(s, capacity, merge) && Enabled(s, Finish)
    ensures Inv(Apply(s, capacity, merge, Finish), capacity, merge)
  {
    hide CanAccept, QueueAt;
    var t, p := Apply(s, capacity, merge, Finish), s.publisher;
    assert p.targets[..p.reached] == p.targets;
    forall id: nat | Live(t.slots, id) ensures SlotInv(t, id) {
      assert SlotInv(s, id);
      if id !in p.targets { NotPushed(s.slots[id].value.ops, p.event); }
    }
  }

  lemma {:induction false} PopAscends<P>(ops: seq<Op<P>>)
    ensures forall bound :: Ascending(ops, bound) ==> Ascending(ops + [PopOp], bound)
    ensures forall e :: PushOp(e) in ops + [PopOp] <==> PushOp(e) in ops
  {}

  lemma {:induction false} ConsumeKeepsSlot<P>(s: Bus<P>, capacity: nat, merge: (P, P) -> P, id: nat, k: nat)
    requires Live(s.slots, k) && SlotInv(s, k) && Enabled(s, Consume(id))
    ensures var t := Apply(s, capacity, merge, Consume(id)); Live(t.slots, k) && SlotInv(t, k)
  {
    hide Ascending;
    PopAscends(s.slots[id].value.ops);
  }

  lemma {:induction false} ConsumeKeeps<P>(s: Bus<P>, capacity: nat, merge: (P, P) -> P, id: nat)
    requires Inv(s, capacity, merge) && Enabled(s, Consume(id))
    ensures Inv(Apply(s, capacity, merge, Consume(id)), capacity, merge)
  {
    hide CanAccept, Run, SlotInv;
    var t, p := Apply(s, capacity, merge, Consume(id)), s.publisher;
    forall k: nat | Live(t.slots, k) ensures SlotInv(t, k) {
      ConsumeKeepsSlot(s, capacity, merge, id, k);
    }
    forall i | Known(p, i) ensures CanAccept(QueueAt(t.slots, p.targets[i], capacity, merge), capacity, KeyOf(p.event)) {
      if p.targets[i] == id { PopKeepsRoom(s.slots[id].value.ops, capacity, merge, KeyOf(p.event)); }
    }
  }

  /** A push of the second pass finds room, always. */
  lemma InsertFindsRoom<P>(s: Bus<P>, capacity: nat, merge: (P, P) -> P)
    requires Inv(s, capacity, merge) && Enabled(s, Insert)
    ensures PushOutcome(QueueAt(s.slots, s.publisher.targets[s.publisher.reached], capacity, merge), capacity, s.publisher.event) != Full
  {
    assert Known(s.publisher, s.publisher.reached);
  }

  lemma InsertKeepsSlot<P>(s: Bus<P>, capacity: nat, merge: (P, P) -> P, k: nat)
    requires Inv(s, capacity, merge) && Enabled(s, Insert) && Live(s.slots, k)
    ensures var t := Apply(s, capacity, merge, Insert); Live(t.slots, k) && SlotInv(t, k)
  {
    InsertFindsRoom(s, capacity, merge);
    hide CanAccept, PushOutcome, QueueAt, Ascending, Settled, PublisherInv, ReportInv;
    var p := s.publisher;
    var id := p.targets[p.reached];
    assert PublisherInv(s, capacity, merge) && SlotInv(s, k);
    VisitNext(s, capacity, merge, Apply(s, capacity, merge, Insert).publisher, k);
    if k == id {
      PushAscends(s.slots[id].value.ops, p.event);
      forall r | r in s.reports ensures Settled(s.slots[id].value.(ops := s.slots[id].value.ops + [PushOp(p.event)]), id, r) {
        assert Settled(s.slots[id].value, id, r) && ReportInv(s, r);
        PushSettled(s, s.slots[id].value, id, r);
      }
    }
  }

  lemma VisitNext<P>(s: Bus<P>, capacity: nat, merge: (P, P) -> P, p': Publisher<P>, k: nat)
    requires PublisherInv(s, capacity, merge) && Enabled(s, Insert)
    requires p'.Inserting? && p'.targets == s.publisher.targets && p'.reached == s.publisher.reached + 1
    ensures var p := s.publisher;
      && Live(s.slots, p.targets[p.reached]) && !Visited(p, p.targets[p.reached])
      && (Visited(p', k) <==> Visited(p, k) || k == p.targets[p.reached])
  {
    var p := s.publisher;
    assert p.targets[..p.reached + 1] == p.targets[..p.reached] + [p.targets[p.reached]];
  }

  lemma PushAscends<P>(ops: seq<Op<P>>, e: Event<P>)
    requires Ascending(ops, e.sequence)
    ensures Ascending(ops + [PushOp(e)], e.sequence + 1) && PushOp(e) in ops + [PushOp(e)]
  {
    assert (ops + [PushOp(e)])[|ops|] == PushOp(e);
  }

  /** The event of an earlier call is another one. */
  lemma PushSettled<P>(s: Bus<P>, sub: Subscription<P>, id: nat, r: Report<P>)
    requires !s.publisher.Idle? && ReportInv(s, r) && Settled(sub, id, r)
    ensures Settled(sub.(ops := sub.ops + [PushOp(s.publisher.event)]), id, r)
  {}

  lemma {:induction false} InsertKeeps<P>(s: Bus<P>, capacity: nat, merge: (P, P) -> P)
    requires Inv(s, capacity, merge) && Enabled(s, Insert)
    ensures Inv(Apply(s, capacity, merge, Insert), capacity, merge)
  {
    InsertFindsRoom(s, capacity, merge);
    hide CanAccept, PushOutcome, QueueOf, SlotInv;
    var t := Apply(s, capacity, merge, Insert);
    forall k: nat | Live(t.slots, k) ensures SlotInv(t, k) {
      InsertKeepsSlot(s, capacity, merge, k);
    }
    assert PublisherInv(t, capacity, merge);
  }

  lemma MembershipKeeps<P>(s: Bus<P>, capacity: nat, merge: (P, P) -> P, action: Action<P>)
    requires Inv(s, capacity, merge) && Enabled(s, action)
    requires action.Subscribe? || action.Unsubscribe? || action.Start? || action.Stop?
    ensures Inv(Apply(s, capacity, merge, action), capacity, merge)
  {
    hide CanAccept, QueueOf;
    var t := Apply(s, capacity, merge, action);
    forall id: nat | Live(t.slots, id) ensures SlotInv(t, id) {
      if Live(s.slots, id) { assert SlotInv(s, id); }
    }
  }

  lemma ActionKeeps<P>(s: Bus<P>, capacity: nat, merge: (P, P) -> P, action: Action<P>)
    requires Inv(s, capacity, merge) && Enabled(s, action)
    ensures Inv(Apply(s, capacity, merge, action), capacity, merge)
  {
    hide Inv, Apply;
    match action
    case Begin(_, _, _) => BeginKeeps(s, capacity, merge, action);
    case BeginOne(_, _, _, _) => BeginKeeps(s, capacity, merge, action);
    case Check => CheckKeeps(s, capacity, merge);
    case Turn => TurnKeeps(s, capacity, merge);
    case Insert => InsertKeeps(s, capacity, merge);
    case Finish => FinishKeeps(s, capacity, merge);
    case Consume(id) => ConsumeKeeps(s, capacity, merge, id);
    case _ => MembershipKeeps(s, capacity, merge, action);
  }

  // ---------- What coalesced ----------

  /** The push of `e` met an entry of its key. */
  ghost predicate CoalescedIn<P>(ops: seq<Op<P>>, capacity: nat, merge: (P, P) -> P, e: Event<P>) {
    exists k :: 0 <= k < |ops| && ops[k] == PushOp(e) && PushOutcome(Run(ops[..k], capacity, merge).queue, capacity, e) == Coalesced
  }

  ghost function CoalescedCount<P>(slots: Slots<P>, ids: seq<nat>, capacity: nat, merge: (P, P) -> P, e: Event<P>): nat {
    if ids == [] then 0
    else
      CoalescedCount(slots, ids[..|ids| - 1], capacity, merge, e)
      + var id := ids[|ids| - 1];
        if Live(slots, id) && CoalescedIn(slots[id].value.ops, capacity, merge, e) then 1 else 0
  }

  ghost predicate Counted<P>(s: Bus<P>, capacity: nat, merge: (P, P) -> P) {
    var p := s.publisher;
    p.Inserting? && p.reached <= |p.targets| ==>
      p.result.coalesced == CoalescedCount(s.slots, p.targets[..p.reached], capacity, merge, p.event)
  }

  /** Whether a push coalesced is decided when it is made. */
  lemma CoalescedStays<P>(ops: seq<Op<P>>, capacity: nat, merge: (P, P) -> P, e: Event<P>, op: Op<P>)
    ensures CoalescedIn(ops + [op], capacity, merge, e) <==>
      || CoalescedIn(ops, capacity, merge, e)
      || (op == PushOp(e) && PushOutcome(Run(ops, capacity, merge).queue, capacity, e) == Coalesced)
  {
    hide Run, PushOutcome;
    var longer := ops + [op];
    assert longer[..|ops|] == ops;
    assert forall k :: 0 <= k < |ops| ==> longer[..k] == ops[..k] && longer[k] == ops[k];
    if CoalescedIn(ops, capacity, merge, e) {
      var k :| 0 <= k < |ops| && ops[k] == PushOp(e) && PushOutcome(Run(ops[..k], capacity, merge).queue, capacity, e) == Coalesced;
      assert longer[k] == PushOp(e);
    } else if op == PushOp(e) && PushOutcome(Run(ops, capacity, merge).queue, capacity, e) == Coalesced {
      assert longer[|ops|] == PushOp(e);
    }
  }

  lemma {:induction false} CountStays<P>(
      slots: Slots<P>, slots': Slots<P>, ids: seq<nat>, capacity: nat, merge: (P, P) -> P, e: Event<P>)
    requires forall i :: 0 <= i < |ids| ==>
      && Live(slots, ids[i]) && Live(slots', ids[i])
      && (CoalescedIn(slots'[ids[i]].value.ops, capacity, merge, e) <==> CoalescedIn(slots[ids[i]].value.ops, capacity, merge, e))
    ensures CoalescedCount(slots', ids, capacity, merge, e) == CoalescedCount(slots, ids, capacity, merge, e)
  {
    hide CoalescedIn;
    if ids != [] { CountStays(slots, slots', ids[..|ids| - 1], capacity, merge, e); }
  }

  lemma {:induction false} InsertKeepsCount<P>(s: Bus<P>, capacity: nat, merge: (P, P) -> P)
    requires Inv(s, capacity, merge) && Counted(s, capacity, merge) && Enabled(s, Insert)
    ensures Counted(Apply(s, capacity, merge, Insert), capacity, merge)
  {
    hide CoalescedIn, CoalescedCount, PushOutcome, QueueAt, CanAccept, SlotInv, ReportInv;
    InsertFindsRoom(s, capacity, merge);
    InsertTarget(s, capacity, merge);
    var p := s.publisher;
    var id, done := p.targets[p.reached], p.targets[..p.reached];
    assert p.targets[..p.reached + 1] == done + [id];
    CountElsewhere(s.slots, done, id, capacity, merge, p.event);
    CountNext(Extend(s.slots, id, PushOp(p.event)), done, id, capacity, merge, p.event);
    PushCoalesces(s, capacity, merge, id);
  }

  /** The next target is a live one, and none of those before it. */
  lemma InsertTarget<P>(s: Bus<P>, capacity: nat, merge: (P, P) -> P)
    requires PublisherInv(s, capacity, merge) && Enabled(s, Insert)
    ensures var p := s.publisher;
      && Live(s.slots, p.targets[p.reached]) && !Visited(p, p.targets[p.reached])
      && forall i :: 0 <= i < p.reached ==> p.targets[..p.reached][i] != p.targets[p.reached] && Live(s.slots, p.targets[..p.reached][i])
  {}

  /** A push into another partition does not matter. */
  lemma {:induction false} CountElsewhere<P>(
      slots: Slots<P>, ids: seq<nat>, id: nat, capacity: nat, merge: (P, P) -> P, e: Event<P>)
    requires Live(slots, id) && forall i :: 0 <= i < |ids| ==> ids[i] != id && Live(slots, ids[i])
    ensures CoalescedCount(Extend(slots, id, PushOp(e)), ids, capacity, merge, e) == CoalescedCount(slots, ids, capacity, merge, e)
  {
    hide CoalescedIn, CoalescedCount;
    CountStays(slots, Extend(slots, id, PushOp(e)), ids, capacity, merge, e);
  }

  lemma {:induction false} CountNext<P>(
      slots: Slots<P>, ids: seq<nat>, id: nat, capacity: nat, merge: (P, P) -> P, e: Event<P>)
    requires Live(slots, id)
    ensures CoalescedCount(slots, ids + [id], capacity, merge, e)
         == CoalescedCount(slots, ids, capacity, merge, e) + if CoalescedIn(slots[id].value.ops, capacity, merge, e) then 1 else 0
  {
    hide CoalescedIn;
    assert (ids + [id])[..|ids|] == ids;
  }

  /** Whether the push of the call under way coalesces is what its history says afterwards. */
  lemma {:induction false} PushCoalesces<P>(s: Bus<P>, capacity: nat, merge: (P, P) -> P, id: nat)
    requires Inv(s, capacity, merge) && Enabled(s, Insert) && Live(s.slots, id) && !Visited(s.publisher, id)
    ensures CoalescedIn(s.slots[id].value.ops + [PushOp(s.publisher.event)], capacity, merge, s.publisher.event)
       <==> PushOutcome(QueueAt(s.slots, id, capacity, merge), capacity, s.publisher.event) == Coalesced
  {
    hide CoalescedIn, PushOutcome, Run, CanAccept;
    var ops, e := s.slots[id].value.ops, s.publisher.event;
    assert SlotInv(s, id);
    CoalescedStays(ops, capacity, merge, e, PushOp(e));
    NeverPushed(ops, capacity, merge, e);
  }

  lemma NeverPushed<P>(ops: seq<Op<P>>, capacity: nat, merge: (P, P) -> P, e: Event<P>)
    requires Ascending(ops, e.sequence)
    ensures !CoalescedIn(ops, capacity, merge, e)
  {}

  lemma ConsumeKeepsCount<P>(s: Bus<P>, capacity: nat, merge: (P, P) -> P, id: nat)
    requires Inv(s, capacity, merge) && Counted(s, capacity, merge) && Enabled(s, Consume(id))
    ensures Counted(Apply(s, capacity, merge, Consume(id)), capacity, merge)
  {
    hide CoalescedIn, PushOutcome, Run, CanAccept;
    var t, p := Apply(s, capacity, merge, Consume(id)), s.publisher;
    if p.Inserting? {
      CoalescedStays(s.slots[id].value.ops, capacity, merge, p.event, PopOp);
      CountStays(s.slots, t.slots, p.targets[..p.reached], capacity, merge, p.event);
    }
  }

  lemma ActionKeepsCount<P>(s: Bus<P>, capacity: nat, merge: (P, P) -> P, action: Action<P>)
    requires Inv(s, capacity, merge) && Counted(s, capacity, merge) && Enabled(s, action)
    ensures Counted(Apply(s, capacity, merge, action), capacity, merge)
  {
    hide Inv, CoalescedIn;
    match action
    case Insert => InsertKeepsCount(s, capacity, merge);
    case Consume(id) => ConsumeKeepsCount(s, capacity, merge, id);
    case _ =>
  }

  // ---------- What was accepted ----------

  /** No push was refused by the partition. */
  ghost predicate AllAccepted<P>(ops: seq<Op<P>>, capacity: nat, merge: (P, P) -> P) {
    forall i :: 0 <= i < |ops| && ops[i].PushOp? ==> i in Run(ops, capacity, merge).accepted
  }

  ghost predicate Accepting<P>(s: Bus<P>, capacity: nat, merge: (P, P) -> P) {
    forall id: nat :: Live(s.slots, id) ==> AllAccepted(s.slots[id].value.ops, capacity, merge)
  }

  lemma {:induction false} RunAccepts<P>(ops: seq<Op<P>>, capacity: nat, merge: (P, P) -> P, op: Op<P>)
    requires AllAccepted(ops, capacity, merge)
    requires op.PopOp? || PushOutcome(Run(ops, capacity, merge).queue, capacity, op.event) != Full
    ensures AllAccepted(ops + [op], capacity, merge)
  {
    assert (ops + [op])[..|ops|] == ops;
  }

  lemma {:induction false} ActionKeepsAccepting<P>(s: Bus<P>, capacity: nat, merge: (P, P) -> P, action: Action<P>)
    requires Inv(s, capacity, merge) && Accepting(s, capacity, merge) && Enabled(s, action)
    ensures Accepting(Apply(s, capacity, merge, action), capacity, merge)
  {
    if action.Insert? { InsertFindsRoom(s, capacity, merge); }
    hide AllAccepted, CanAccept, PushOutcome, SlotInv, ReportInv;
    match action
    case Insert =>
      var p := s.publisher;
      RunAccepts(s.slots[p.targets[p.reached]].value.ops, capacity, merge, PushOp(p.event));
    case Consume(id) => RunAccepts(s.slots[id].value.ops, capacity, merge, PopOp);
    case Subscribe(_) => NothingAccepted(capacity, merge);
    case _ =>
  }

  lemma NothingAccepted<P>(capacity: nat, merge: (P, P) -> P)
    ensures AllAccepted([], capacity, merge)
  {}

  /** `e` was pushed once, and its push is behind exactly one received or pending entry. */
  ghost predicate GotOnce<P>(sub: Subscription<P>, e: Event<P>, capacity: nat, merge: (P, P) -> P) {
    exists k :: 0 <= k < |sub.ops| && sub.ops[k] == PushOp(e)
      && InOneEntry(Run(sub.ops, capacity, merge), sub.ops, k)
      && forall j :: 0 <= j < |sub.ops| && sub.ops[j] == PushOp(e) ==> j == k
  }

  lemma {:induction false} PushedIsGot<P>(sub: Subscription<P>, e: Event<P>, bound: nat, capacity: nat, merge: (P, P) -> P)
    requires PushOp(e) in sub.ops && Ascending(sub.ops, bound) && AllAccepted(sub.ops, capacity, merge)
    ensures GotOnce(sub, e, capacity, merge)
  {
    hide Run, InOneEntry;
    var k :| 0 <= k < |sub.ops| && sub.ops[k] == PushOp(e);
    AcceptedOnce(sub.ops, capacity, merge, k);
  }

  // ---------- Whole runs ----------

  /** `actions` can happen one after the other on a new bus. */
  ghost predicate Possible<P>(actions: seq<Action<P>>, capacity: nat, merge: (P, P) -> P)
    decreases |actions|, 0
  {
    actions != [] ==>
      var n := |actions| - 1;
      Possible(actions[..n], capacity, merge) && Enabled(After(actions[..n], capacity, merge), actions[n])
  }

  ghost function After<P>(actions: seq<Action<P>>, capacity: nat, merge: (P, P) -> P): Bus<P>
    requires Possible(actions, capacity, merge)
    decreases |actions|, 1
  {
    if actions == [] then Initial()
    else var n := |actions| - 1; Apply(After(actions[..n], capacity, merge), capacity, merge, actions[n])
  }

  lemma AfterNext<P>(actions: seq<Action<P>>, capacity: nat, merge: (P, P) -> P, action: Action<P>)
    requires Possible(actions, capacity, merge) && Enabled(After(actions, capacity, merge), action)
    ensures Possible(actions + [action], capacity, merge)
    ensures After(actions + [action], capacity, merge) == Apply(After(actions, capacity, merge), capacity, merge, action)
  {
    assert (actions + [action])[..|actions|] == actions;
  }

  lemma {:induction false} RunKeeps<P>(actions: seq<Action<P>>, capacity: nat, merge: (P, P) -> P)
    requires Possible(actions, capacity, merge)
    ensures var s := After(actions, capacity, merge);
      Inv(s, capacity, merge) && Counted(s, capacity, merge) && Accepting(s, capacity, merge)
  {
    if actions != [] {
      var n := |actions| - 1;
      var s := After(actions[..n], capacity, merge);
      hide Inv, Counted, Accepting;
      RunKeeps(actions[..n], capacity, merge);
      ActionKeeps(s, capacity, merge, actions[n]);
      ActionKeepsCount(s, capacity, merge, actions[n]);
      ActionKeepsAccepting(s, capacity, merge, actions[n]);
    }
  }

  /** In every reachable state every finished call inserted everywhere or nowhere.  No partition was ever found full
      after it had been checked.  A refused event was pushed into no partition; a completed one, into as many as it
      reports, and into exactly those of its targets, in each of which it is behind exactly one entry, received or
      pending. */
  lemma {:induction false} AllOrNothing<P>(actions: seq<Action<P>>, capacity: nat, merge: (P, P) -> P, r: Report<P>, id: nat)
    requires Possible(actions, capacity, merge)
    requires var s := After(actions, capacity, merge); r in s.reports && Live(s.slots, id)
    ensures !r.Broken?
    ensures var sub := After(actions, capacity, merge).slots[id].value;
      && (r.Refused? ==> PushOp(r.event) !in sub.ops)
      && (r.Completed? ==> r.result.delivered == |r.targets|)
      && (r.Completed? && sub.since <= r.event.sequence ==>
            if id in r.targets then GotOnce(sub, r.event, capacity, merge) else PushOp(r.event) !in sub.ops)
  {
    hide GotOnce, AllAccepted, Possible, After, SlotInv, PublisherInv;
    RunKeeps(actions, capacity, merge);
    CallIsSettled(After(actions, capacity, merge), capacity, merge, r, id);
  }

  lemma {:induction false} CallIsSettled<P>(s: Bus<P>, capacity: nat, merge: (P, P) -> P, r: Report<P>, id: nat)
    requires Inv(s, capacity, merge) && Accepting(s, capacity, merge) && r in s.reports && Live(s.slots, id)
    ensures var sub := s.slots[id].value;
      && (r.Refused? ==> PushOp(r.event) !in sub.ops)
      && (r.Completed? && sub.since <= r.event.sequence ==>
            if id in r.targets then GotOnce(sub, r.event, capacity, merge) else PushOp(r.event) !in sub.ops)
  {
    hide GotOnce, AllAccepted;
    assert SlotInv(s, id);
    var sub := s.slots[id].value;
    if r.Completed? && PushOp(r.event) in sub.ops { PushedIsGot(sub, r.event, s.sequence, capacity, merge); }
  }

  // ---------- Order ----------

  /** Earlier entries of a superstep carry earlier sequence numbers. */
  ghost predicate Fifo<P>(events: seq<Event<P>>, bound: nat) {
    && (forall i :: 0 <= i < |events| ==> events[i].sequence < bound)
    && (forall i, j :: 0 <= i < j < |events| && events[i].superstep == events[j].superstep ==>
          events[i].sequence < events[j].sequence)
  }

  predicate Precedes<P>(a: Event<P>, b: Event<P>) {
    a.superstep < b.superstep || (a.superstep == b.superstep && a.sequence < b.sequence)
  }

  /** What has been handled and what is queued, as one list, is first in first out in each superstep. */
  lemma {:induction false} RunIsFifo<P>(ops: seq<Op<P>>, bound: nat, capacity: nat, merge: (P, P) -> P)
    requires Ascending(ops, bound)
    ensures Fifo(Run(ops, capacity, merge).popped + Run(ops, capacity, merge).queue, bound)
  {
    hide Run, Push, Ascending, Fifo;
    if ops == [] {
      NothingIsFifo(bound, capacity, merge);
    } else {
      var n := |ops| - 1;
      var before, op := ops[..n], ops[n];
      assert ops == before + [op];
      AscendingBefore(ops, bound);
      var s := Run(before, capacity, merge);
      if op.PushOp? {
        RunIsFifo(before, op.event.sequence, capacity, merge);
        RunPush(before, capacity, merge, op.event);
        RunWellFormed(before, capacity, merge);
        PushIsFifo(s.popped, s.queue, capacity, merge, op.event);
        FifoWeaker(Run(ops, capacity, merge).popped + Run(ops, capacity, merge).queue, op.event.sequence + 1, bound);
      } else {
        RunIsFifo(before, bound, capacity, merge);
        RunPop(before, capacity, merge);
        assert Run(ops, capacity, merge).popped + Run(ops, capacity, merge).queue == s.popped + s.queue;
      }
    }
  }

  lemma NothingIsFifo<P>(bound: nat, capacity: nat, merge: (P, P) -> P)
    ensures Fifo(Run<P>([], capacity, merge).popped + Run<P>([], capacity, merge).queue, bound)
  {}

  lemma {:induction false} AscendingBefore<P>(ops: seq<Op<P>>, bound: nat)
    requires ops != [] && Ascending(ops, bound)
    ensures var n := |ops| - 1;
      && Ascending(ops[..n], bound)
      && (ops[n].PushOp? ==> Ascending(ops[..n], ops[n].event.sequence) && ops[n].event.sequence < bound)
  {}

  lemma PushIsFifo<P>(popped: seq<Event<P>>, q: seq<Event<P>>, capacity: nat, merge: (P, P) -> P, e: Event<P>)
    requires Fifo(popped + q, e.sequence) && WellFormed(q, capacity)
    ensures Fifo(popped + Push(q, capacity, e, merge), e.sequence + 1)
  {
    hide WellFormed, Fifo, BySuperstep, UniqueKeys, HasKey, Slot;
    var all := popped + q;
    WellFormedSplits(q, capacity, e.superstep);
    match PushOutcome(q, capacity, e)
    case Inserted =>
      var k := Slot(q, e.superstep);
      assert popped + InsertAt(q, k, e) == InsertAt(all, |popped| + k, e);
      forall i | |popped| + k <= i < |all| ensures e.superstep < all[i].superstep { assert all[i] == q[i - |popped|]; }
      FifoInsert(all, |popped| + k, e);
    case Coalesced =>
      var k := Position(q, KeyOf(e));
      assert popped + q[k := Merged(q[k], e.payload, merge)] == all[|popped| + k := Merged(q[k], e.payload, merge)];
      FifoReplace(all, |popped| + k, Merged(q[k], e.payload, merge), e.sequence);
    case Full => FifoWeaker(all, e.sequence, e.sequence + 1);
  }

  lemma WellFormedSplits<P>(q: seq<Event<P>>, capacity: nat, superstep: nat)
    requires WellFormed(q, capacity)
    ensures forall i :: Slot(q, superstep) <= i < |q| ==> superstep < q[i].superstep
  {
    SlotSplits(q, superstep);
  }

  lemma FifoInsert<P>(all: seq<Event<P>>, k: nat, e: Event<P>)
    requires Fifo(all, e.sequence) && k <= |all| && forall i :: k <= i < |all| ==> e.superstep < all[i].superstep
    ensures Fifo(InsertAt(all, k, e), e.sequence + 1)
  {}

  lemma FifoReplace<P>(all: seq<Event<P>>, k: nat, e: Event<P>, bound: nat)
    requires Fifo(all, bound) && k < |all| && KeyOf(e) == KeyOf(all[k]) && e.sequence == all[k].sequence
    ensures Fifo(all[k := e], bound + 1)
  {}

  lemma FifoWeaker<P>(all: seq<Event<P>>, bound: nat, bound': nat)
    requires Fifo(all, bound) && bound <= bound'
    ensures Fifo(all, bound')
  {}

  lemma QueueIsOrdered<P>(popped: seq<Event<P>>, q: seq<Event<P>>, bound: nat)
    requires Fifo(popped + q, bound) && BySuperstep(q)
    ensures forall i, j :: 0 <= i < j < |q| ==> Precedes(q[i], q[j])
  {
    forall i, j | 0 <= i < j < |q| ensures Precedes(q[i], q[j]) {
      assert (popped + q)[|popped| + i] == q[i] && (popped + q)[|popped| + j] == q[j];
    }
  }

  /** Every subscriber handles the entries of a superstep in publication order, over the whole run; and what is queued
      is strictly ordered by superstep and sequence number. */
  lemma HandledInOrder<P>(actions: seq<Action<P>>, capacity: nat, merge: (P, P) -> P, id: nat)
    requires Possible(actions, capacity, merge) && Live(After(actions, capacity, merge).slots, id)
    ensures var s := After(actions, capacity, merge);
      var sub := s.slots[id].value;
      var q := QueueOf(sub, capacity, merge);
      && Fifo(HandledOf(sub, capacity, merge) + q, s.sequence)
      && forall i, j :: 0 <= i < j < |q| ==> Precedes(q[i], q[j])
  {
    hide Run, Fifo, UniqueKeys;
    RunKeeps(actions, capacity, merge);
    var s := After(actions, capacity, merge);
    assert SlotInv(s, id);
    var sub := s.slots[id].value;
    RunIsFifo(sub.ops, s.sequence, capacity, merge);
    RunWellFormed(sub.ops, capacity, merge);
    QueueIsOrdered(HandledOf(sub, capacity, merge), QueueOf(sub, capacity, merge), s.sequence);
  }

  // ---------- When a call succeeds ----------

  /** All partitions that the call under way has still to visit have room. */
  ghost predicate Roomy<P>(s: Bus<P>, capacity: nat, merge: (P, P) -> P) {
    var p := s.publisher;
    p.Checking? ==>
      forall i :: 0 <= i < |p.targets| ==> CanAccept(QueueAt(s.slots, p.targets[i], capacity, merge), capacity, KeyOf(p.event))
  }

  /** If the partitions have room when a call begins, it is not refused. */
  lemma RoomyIsNotRefused<P>(s: Bus<P>, capacity: nat, merge: (P, P) -> P, action: Action<P>)
    requires Inv(s, capacity, merge) && Enabled(s, action) && Roomy(s, capacity, merge) && !s.publisher.Idle?
    ensures var t := Apply(s, capacity, merge, action);
      && Roomy(t, capacity, merge)
      && (t.publisher.Idle? ==> action.Finish?)
      && (!t.publisher.Idle? ==> t.publisher.event == s.publisher.event && t.publisher.targets == s.publisher.targets)
  {
    if action.Insert? { InsertGoesOn(s, capacity, merge, action); }
    hide CanAccept, PushOutcome, Run;
    var t, p := Apply(s, capacity, merge, action), s.publisher;
    if action.Consume? && p.Checking? {
      forall i | 0 <= i < |p.targets| ensures CanAccept(QueueAt(t.slots, p.targets[i], capacity, merge), capacity, KeyOf(p.event)) {
        if p.targets[i] == action.id { PopKeepsRoom(s.slots[action.id].value.ops, capacity, merge, KeyOf(p.event)); }
      }
    }
  }

  lemma InsertGoesOn<P>(s: Bus<P>, capacity: nat, merge: (P, P) -> P, action: Action<P>)
    requires Inv(s, capacity, merge) && Enabled(s, action) && action.Insert?
    ensures Apply(s, capacity, merge, action).publisher.Inserting?
  {
    InsertFindsRoom(s, capacity, merge);
  }

  /** A call that begins with room in all its targets ends by completing, and in no other way: as long as it has not, it
      is under way. */
  lemma {:induction false} RoomyCallCompletes<P>(actions: seq<Action<P>>, k: nat, capacity: nat, merge: (P, P) -> P)
    requires Possible(actions, capacity, merge) && k <= |actions| && Possible(actions[..k], capacity, merge)
    requires !After(actions[..k], capacity, merge).publisher.Idle? && Roomy(After(actions[..k], capacity, merge), capacity, merge)
    requires forall i :: k <= i < |actions| ==> !actions[i].Finish?
    ensures var s, t := After(actions[..k], capacity, merge), After(actions, capacity, merge);
      && !t.publisher.Idle? && Roomy(t, capacity, merge)
      && t.publisher.event == s.publisher.event && t.publisher.targets == s.publisher.targets
  {
    hide Roomy, Enabled, Apply, Inv, Counted, Accepting;
    var n := |actions| - 1;
    if k == n + 1 {
      assert actions[..k] == actions;
    } else {
      assert actions[..n][..k] == actions[..k];
      RoomyCallCompletes(actions[..n], k, capacity, merge);
      RunKeeps(actions[..n], capacity, merge);
      RoomyIsNotRefused(After(actions[..n], capacity, merge), capacity, merge, actions[n]);
    }
  }

  // ---------- Calls and their reports ----------

  /** How an action adds to the reports: the call under way ends with one, and only a call for a subscriber that does not
      exist both begins and ends at once. */
  lemma ReportsGrow<P>(s: Bus<P>, capacity: nat, merge: (P, P) -> P, action: Action<P>)
    requires Enabled(s, action)
    ensures var t := Apply(s, capacity, merge, action);
      && (t.reports == s.reports || (|t.reports| == |s.reports| + 1 && s.reports <= t.reports))
      && (!s.publisher.Idle? ==>
            if t.reports == s.reports then
              !t.publisher.Idle? && t.publisher.event == s.publisher.event && t.publisher.targets == s.publisher.targets
            else
              var r := t.reports[|s.reports|];
              && t.publisher.Idle? && !r.Missing? && r.event == s.publisher.event
              && (!r.Broken? ==> r.targets == s.publisher.targets))
      && (s.publisher.Idle? && t.reports != s.reports ==> t.publisher.Idle? && t.reports[|s.reports|].Missing?)
  {}
}
