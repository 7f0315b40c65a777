/** Where every push goes.  Beside the partition's list runs a ledger that keeps, for each entry, the positions in the
    history of the pushes that went into it. */
module PartitionLedger {
  import opened PartitionModel

  datatype Op<+P> = PushOp(event: Event<P>) | PopOp

  datatype State<+P> = State(
    queue: seq<Event<P>>,              // the partition
    popped: seq<Event<P>>,             // what consumers have received
    groups: seq<seq<nat>>,             // the pushes behind each entry of the queue
    poppedGroups: seq<seq<nat>>,       // the pushes behind each received event
    poppedAt: seq<nat>,                // when each received event was popped
    accepted: set<nat>)                // the pushes that were not refused

  /** The effect of operation number `n`. */
  function Step<P>(s: State<P>, capacity: nat, merge: (P, P) -> P, op: Op<P>, n: nat): State<P>
    requires |s.groups| == |s.queue|
  {
    match op
    case PushOp(e) =>
      var q := Push(s.queue, capacity, e, merge);
      (match PushOutcome(s.queue, capacity, e)
       case Coalesced =>
         var i := Position(s.queue, KeyOf(e));
         s.(queue := q, groups := s.groups[i := s.groups[i] + [n]], accepted := s.accepted + {n})
       case Inserted =>
         s.(queue := q, groups := InsertAt(s.groups, Slot(s.queue, e.superstep), [n]), accepted := s.accepted + {n})
       case Full => s)
    case PopOp =>
      if s.queue == [] then s
      else s.(queue := s.queue[1..], popped := s.popped + [s.queue[0]],
              groups := s.groups[1..], poppedGroups := s.poppedGroups + [s.groups[0]], poppedAt := s.poppedAt + [n])
  }

  function Run<P>(ops: seq<Op<P>>, capacity: nat, merge: (P, P) -> P): (s: State<P>)
    ensures |s.groups| == |s.queue|
  {
    if ops == [] then State([], [], [], [], [], {})
    else Step(Run(ops[..|ops| - 1], capacity, merge), capacity, merge, ops[|ops| - 1], |ops| - 1)
  }

  // ---------- What an entry owes to its pushes ----------

  /** Positions of pushes, oldest first, all of one key. */
  ghost predicate OfOneKey<P>(ops: seq<Op<P>>, group: seq<nat>) {
    && group != []
    && (forall i :: 0 <= i < |group| ==> group[i] < |ops| && ops[group[i]].PushOp?)
    && (forall i, j :: 0 <= i < j < |group| ==> group[i] < group[j])
    && (forall i :: 0 <= i < |group| ==> KeyOf(ops[group[i]].event) == KeyOf(ops[group[0]].event))
  }

  /** The first payload, with each later one merged into what there is so far. */
  ghost function FoldLeft<P>(merge: (P, P) -> P, payloads: seq<P>): P
    requires payloads != []
  {
    var n := |payloads| - 1;
    if n == 0 then payloads[0] else merge(FoldLeft(merge, payloads[..n]), payloads[n])
  }

  ghost function Payloads<P>(ops: seq<Op<P>>, group: seq<nat>): (payloads: seq<P>)
    requires OfOneKey(ops, group)
    ensures |payloads| == |group| && forall i :: 0 <= i < |group| ==> payloads[i] == ops[group[i]].event.payload
  {
    seq(|group|, i requires 0 <= i < |group| => ops[group[i]].event.payload)
  }

  /** The first push, with the payloads of all pushes of the group folded from the left. */
  ghost function Fold<P>(ops: seq<Op<P>>, group: seq<nat>, merge: (P, P) -> P): Event<P>
    requires OfOneKey(ops, group)
  {
    var first := ops[group[0]].event;
    Event(first.id, first.superstep, first.sequence, FoldLeft(merge, Payloads(ops, group)))
  }

  predicate SameKey<P>(ops: seq<Op<P>>, m: nat, n: nat) {
    m < |ops| && n < |ops| && ops[m].PushOp? && ops[n].PushOp? && KeyOf(ops[m].event) == KeyOf(ops[n].event)
  }

  /** Every accepted push of the group's key from its first one up to `until` is in the group. */
  ghost predicate Complete<P>(ops: seq<Op<P>>, group: seq<nat>, accepted: set<nat>, until: nat)
    requires OfOneKey(ops, group)
  {
    forall m :: m in accepted && group[0] <= m < until && SameKey(ops, m, group[0]) ==> m in group
  }

  function Members(groups: seq<seq<nat>>): multiset<nat> {
    if groups == [] then multiset{} else multiset(groups[0]) + Members(groups[1..])
  }

  ghost predicate Ledger<P>(s: State<P>, ops: seq<Op<P>>, capacity: nat, merge: (P, P) -> P) {
    && |s.groups| == |s.queue|
    && |s.poppedGroups| == |s.popped| == |s.poppedAt|
    && WellFormed(s.queue, capacity)
    && (forall m :: m in s.accepted ==> m < |ops| && ops[m].PushOp?)
    && Members(s.groups) + Members(s.poppedGroups) == multiset(s.accepted)
    && (forall i :: 0 <= i < |s.queue| ==> EntryOwes(s.queue[i], s.groups[i], ops, s.accepted, |ops|, capacity, merge))
    && (forall i :: 0 <= i < |s.popped| ==>
          && s.poppedAt[i] < |ops|
          && EntryOwes(s.popped[i], s.poppedGroups[i], ops, s.accepted, s.poppedAt[i], capacity, merge))
  }

  /** The group's first push found its key absent. */
  ghost predicate Founded<P>(ops: seq<Op<P>>, group: seq<nat>, capacity: nat, merge: (P, P) -> P)
    requires OfOneKey(ops, group)
  {
    PushOutcome(Run(ops[..group[0]], capacity, merge).queue, capacity, ops[group[0]].event) == Inserted
  }

  ghost predicate EntryOwes<P>(
      e: Event<P>, group: seq<nat>, ops: seq<Op<P>>, accepted: set<nat>, until: nat, capacity: nat, merge: (P, P) -> P)
  {
    && OfOneKey(ops, group)
    && Founded(ops, group, capacity, merge)
    && e == Fold(ops, group, merge)
    && Complete(ops, group, accepted, until)
    && (forall i :: 0 <= i < |group| ==> group[i] < until)
  }

  // ---------- Bookkeeping ----------

  lemma {:induction false} MembersInsert(groups: seq<seq<nat>>, i: nat, g: seq<nat>)
    requires i <= |groups|
    ensures Members(InsertAt(groups, i, g)) == Members(groups) + multiset(g)
  {
    var more := InsertAt(groups, i, g);
    if i == 0 {
      assert more[1..] == groups;
    } else {
      MembersInsert(groups[1..], i - 1, g);
      assert more[1..] == InsertAt(groups[1..], i - 1, g);
    }
  }

  lemma {:induction false} MembersExtend(groups: seq<seq<nat>>, i: nat, n: nat)
    requires i < |groups|
    ensures Members(groups[i := groups[i] + [n]]) == Members(groups) + multiset{n}
  {
    var more := groups[i := groups[i] + [n]];
    if i == 0 {
      assert more[1..] == groups[1..];
      assert multiset(groups[0] + [n]) == multiset(groups[0]) + multiset{n};
    } else {
      MembersExtend(groups[1..], i - 1, n);
      assert more[1..] == groups[1..][i - 1 := groups[1..][i - 1] + [n]];
    }
  }

  lemma MembersAppend(groups: seq<seq<nat>>, g: seq<nat>)
    ensures Members(groups + [g]) == Members(groups) + multiset(g)
  {
    MembersInsert(groups, |groups|, g);
    assert InsertAt(groups, |groups|, g) == groups + [g];
  }

  lemma MembersDrop(groups: seq<seq<nat>>)
    requires groups != []
    ensures Members(groups) == multiset(groups[0]) + Members(groups[1..])
  {}

  /** Later operations do not change what a group stands for. */
  lemma {:induction false} FoldFrame<P>(ops: seq<Op<P>>, op: Op<P>, group: seq<nat>, merge: (P, P) -> P)
    requires OfOneKey(ops, group)
    ensures OfOneKey(ops + [op], group) && Fold(ops + [op], group, merge) == Fold(ops, group, merge)
  {
    assert OfOneKey(ops + [op], group);
    assert Payloads(ops + [op], group) == Payloads(ops, group);
  }

  /** One more push of the key: its payload is merged into the fold so far. */
  lemma {:induction false} FoldNext<P>(ops: seq<Op<P>>, group: seq<nat>, n: nat, merge: (P, P) -> P)
    requires OfOneKey(ops, group) && OfOneKey(ops, group + [n])
    ensures var e := Fold(ops, group, merge);
      Fold(ops, group + [n], merge) == Event(e.id, e.superstep, e.sequence, merge(e.payload, ops[n].event.payload))
  {
    assert Payloads(ops, group + [n])[..|group|] == Payloads(ops, group);
  }

  /** An entry that operation `op` does not concern. */
  lemma OwesFrame<P>(
      e: Event<P>, group: seq<nat>, ops: seq<Op<P>>, op: Op<P>, accepted: set<nat>, accepted': set<nat>,
      until: nat, until': nat, capacity: nat, merge: (P, P) -> P)
    requires EntryOwes(e, group, ops, accepted, until, capacity, merge)
    requires accepted' <= accepted + {|ops|} && until <= until' <= |ops| + 1
    requires |ops| in accepted' && |ops| < until' ==> op.PushOp? && KeyOf(op.event) != KeyOf(e)
    requires until == until' || (until == |ops| && until' == |ops| + 1)
    ensures EntryOwes(e, group, ops + [op], accepted', until', capacity, merge)
  {
    FoldFrame(ops, op, group, merge);
    assert (ops + [op])[..group[0]] == ops[..group[0]];
  }

  /** The entry that a push is merged into. */
  lemma OwesMerge<P>(
      e: Event<P>, group: seq<nat>, ops: seq<Op<P>>, op: Op<P>, accepted: set<nat>, capacity: nat, merge: (P, P) -> P)
    requires EntryOwes(e, group, ops, accepted, |ops|, capacity, merge)
    requires op.PushOp? && KeyOf(op.event) == KeyOf(e)
    ensures EntryOwes(Merged(e, op.event.payload, merge), group + [|ops|], ops + [op], accepted + {|ops|}, |ops| + 1, capacity, merge)
  {
    var n, longer, group' := |ops|, ops + [op], group + [|ops|];
    FoldFrame(ops, op, group, merge);
    assert OfOneKey(longer, group');
    assert longer[..group[0]] == ops[..group[0]];
    FoldNext(longer, group, n, merge);
    assert Complete(longer, group', accepted + {n}, n + 1);
  }

  /** The entry that a push founds. */
  lemma OwesInsert<P>(ops: seq<Op<P>>, op: Op<P>, accepted: set<nat>, capacity: nat, merge: (P, P) -> P)
    requires op.PushOp? && PushOutcome(Run(ops, capacity, merge).queue, capacity, op.event) == Inserted
    ensures EntryOwes(op.event, [|ops|], ops + [op], accepted + {|ops|}, |ops| + 1, capacity, merge)
  {
    assert OfOneKey(ops + [op], [|ops|]);
    assert (ops + [op])[..|ops|] == ops;
  }

  // ---------- Every operation keeps the ledger ----------

  ghost predicate Entries<P>(s: State<P>, ops: seq<Op<P>>, capacity: nat, merge: (P, P) -> P)
    requires |s.groups| == |s.queue|
  {
    forall i :: 0 <= i < |s.queue| ==> EntryOwes(s.queue[i], s.groups[i], ops, s.accepted, |ops|, capacity, merge)
  }

  ghost predicate Received<P>(s: State<P>, ops: seq<Op<P>>, capacity: nat, merge: (P, P) -> P) {
    && |s.poppedGroups| == |s.popped| == |s.poppedAt|
    && forall i :: 0 <= i < |s.popped| ==>
         s.poppedAt[i] < |ops| && EntryOwes(s.popped[i], s.poppedGroups[i], ops, s.accepted, s.poppedAt[i], capacity, merge)
  }

  /** What consumers have received is settled, whatever is done next. */
  lemma ReceivedSettled<P>(
      s: State<P>, ops: seq<Op<P>>, op: Op<P>, accepted': set<nat>, capacity: nat, merge: (P, P) -> P)
    requires Received(s, ops, capacity, merge) && s.accepted <= accepted' <= s.accepted + {|ops|}
    ensures Received(s.(accepted := accepted'), ops + [op], capacity, merge)
  {
    forall i | 0 <= i < |s.popped|
      ensures EntryOwes(s.popped[i], s.poppedGroups[i], ops + [op], accepted', s.poppedAt[i], capacity, merge)
    {
      OwesFrame(s.popped[i], s.poppedGroups[i], ops, op, s.accepted, accepted', s.poppedAt[i], s.poppedAt[i], capacity, merge);
    }
  }

  lemma MergeKeepsEntries<P>(s: State<P>, ops: seq<Op<P>>, op: Op<P>, capacity: nat, merge: (P, P) -> P)
    requires |s.groups| == |s.queue| && UniqueKeys(s.queue) && Entries(s, ops, capacity, merge)
    requires op.PushOp? && PushOutcome(s.queue, capacity, op.event) == Coalesced
    ensures Entries(Step(s, capacity, merge, op, |ops|), ops + [op], capacity, merge)
  {
    var n, t := |ops|, Step(s, capacity, merge, op, |ops|);
    var k := Position(s.queue, KeyOf(op.event));
    forall i | 0 <= i < |t.queue| ensures EntryOwes(t.queue[i], t.groups[i], ops + [op], t.accepted, n + 1, capacity, merge) {
      if i == k {
        OwesMerge(s.queue[k], s.groups[k], ops, op, s.accepted, capacity, merge);
      } else {
        assert KeyOf(s.queue[i]) != KeyOf(s.queue[k]);
        OwesFrame(s.queue[i], s.groups[i], ops, op, s.accepted, t.accepted, n, n + 1, capacity, merge);
      }
    }
  }

  lemma InsertKeepsEntries<P>(s: State<P>, ops: seq<Op<P>>, op: Op<P>, capacity: nat, merge: (P, P) -> P)
    requires |s.groups| == |s.queue| && Entries(s, ops, capacity, merge)
    requires op.PushOp? && PushOutcome(s.queue, capacity, op.event) == Inserted
    requires s.queue == Run(ops, capacity, merge).queue
    ensures Entries(Step(s, capacity, merge, op, |ops|), ops + [op], capacity, merge)
  {
    hide EntryOwes, Run;
    var n, t := |ops|, Step(s, capacity, merge, op, |ops|);
    var k := Slot(s.queue, op.event.superstep);
    assert t.queue == InsertAt(s.queue, k, op.event) && t.groups == InsertAt(s.groups, k, [n]);
    forall i | 0 <= i < |t.queue| ensures EntryOwes(t.queue[i], t.groups[i], ops + [op], t.accepted, n + 1, capacity, merge) {
      if i == k {
        OwesInsert(ops, op, s.accepted, capacity, merge);
      } else {
        var j := if i < k then i else i - 1;
        assert t.queue[i] == s.queue[j] && t.groups[i] == s.groups[j];
        assert KeyOf(s.queue[j]) != KeyOf(op.event);
        OwesFrame(s.queue[j], s.groups[j], ops, op, s.accepted, t.accepted, n, n + 1, capacity, merge);
      }
    }
  }

  lemma PopKeepsEntries<P>(s: State<P>, ops: seq<Op<P>>, op: Op<P>, capacity: nat, merge: (P, P) -> P)
    requires |s.groups| == |s.queue| && Entries(s, ops, capacity, merge) && Received(s, ops, capacity, merge)
    requires op.PopOp? || PushOutcome(s.queue, capacity, op.event) == Full
    requires forall m :: m in s.accepted ==> m < |ops|
    ensures Entries(Step(s, capacity, merge, op, |ops|), ops + [op], capacity, merge)
    ensures Received(Step(s, capacity, merge, op, |ops|), ops + [op], capacity, merge)
  {
    var n, t := |ops|, Step(s, capacity, merge, op, |ops|);
    var d := |s.queue| - |t.queue|;
    forall i | 0 <= i < |t.queue| ensures EntryOwes(t.queue[i], t.groups[i], ops + [op], t.accepted, n + 1, capacity, merge) {
      assert t.queue[i] == s.queue[i + d] && t.groups[i] == s.groups[i + d];
      OwesFrame(s.queue[i + d], s.groups[i + d], ops, op, s.accepted, s.accepted, n, n + 1, capacity, merge);
    }
    ReceivedSettled(s, ops, op, s.accepted, capacity, merge);
    if d == 1 { OwesFrame(s.queue[0], s.groups[0], ops, op, s.accepted, s.accepted, n, n, capacity, merge); }
  }

  ghost predicate Accounted<P>(s: State<P>, ops: seq<Op<P>>) {
    && (forall m :: m in s.accepted ==> m < |ops| && ops[m].PushOp?)
    && Members(s.groups) + Members(s.poppedGroups) == multiset(s.accepted)
  }

  lemma StepAccounts<P>(s: State<P>, ops: seq<Op<P>>, op: Op<P>, capacity: nat, merge: (P, P) -> P)
    requires |s.groups| == |s.queue| && Accounted(s, ops)
    ensures Accounted(Step(s, capacity, merge, op, |ops|), ops + [op])
  {
    var n, t := |ops|, Step(s, capacity, merge, op, |ops|);
    assert n !in s.accepted;
    assert multiset(s.accepted + {n}) == multiset(s.accepted) + multiset{n};
    if op.PopOp? {
      if s.queue != [] {
        MembersDrop(s.groups);
        MembersAppend(s.poppedGroups, s.groups[0]);
      }
    } else if PushOutcome(s.queue, capacity, op.event) == Coalesced {
      MembersExtend(s.groups, Position(s.queue, KeyOf(op.event)), n);
    } else if PushOutcome(s.queue, capacity, op.event) == Inserted {
      MembersInsert(s.groups, Slot(s.queue, op.event.superstep), [n]);
      assert multiset([n]) == multiset{n};
    }
  }

  lemma StepKeepsLedger<P>(s: State<P>, ops: seq<Op<P>>, op: Op<P>, capacity: nat, merge: (P, P) -> P)
    requires Ledger(s, ops, capacity, merge) && s == Run(ops, capacity, merge)
    ensures Ledger(Step(s, capacity, merge, op, |ops|), ops + [op], capacity, merge)
  {
    hide EntryOwes, WellFormed, Members, Run;
    StepAccounts(s, ops, op, capacity, merge);
    if op.PopOp? {
      PopKeepsEntries(s, ops, op, capacity, merge);
      if s.queue != [] { PopsKeepShape(s.queue, capacity, 1); }
    } else {
      WellFormedUnique(s.queue, capacity);
      PushKeepsShape(s.queue, capacity, op.event, merge);
      match PushOutcome(s.queue, capacity, op.event)
      case Coalesced =>
        MergeKeepsEntries(s, ops, op, capacity, merge);
        ReceivedSettled(s, ops, op, s.accepted + {|ops|}, capacity, merge);
      case Inserted =>
        InsertKeepsEntries(s, ops, op, capacity, merge);
        ReceivedSettled(s, ops, op, s.accepted + {|ops|}, capacity, merge);
      case Full =>
        PopKeepsEntries(s, ops, op, capacity, merge);
    }
  }

  lemma WellFormedUnique<P>(q: seq<Event<P>>, capacity: nat)
    requires WellFormed(q, capacity)
    ensures UniqueKeys(q)
  {}

  lemma LedgerStarts<P>(capacity: nat, merge: (P, P) -> P)
    ensures Ledger(Run([], capacity, merge), [], capacity, merge)
  {}

  /** After every history of pushes and pops: each accepted push is in exactly one pending entry or received event, and
      every one of these is its first push with the payloads of all later pushes of its key merged in, in order. */
  lemma {:induction false} LedgerHolds<P>(ops: seq<Op<P>>, capacity: nat, merge: (P, P) -> P)
    ensures Ledger(Run(ops, capacity, merge), ops, capacity, merge)
  {
    hide EntryOwes, WellFormed, Members;
    if ops == [] {
      LedgerStarts(capacity, merge);
    } else {
      var n := |ops| - 1;
      hide Step;
      LedgerHolds(ops[..n], capacity, merge);
      StepKeepsLedger(Run(ops[..n], capacity, merge), ops[..n], ops[n], capacity, merge);
      assert ops[..n] + [ops[n]] == ops;
    }
  }

  // ---------- Payloads ----------

  /** All entries there have been, received or pending, and the pushes behind each. */
  function AllEntries<P>(s: State<P>): seq<Event<P>> {
    s.popped + s.queue
  }

  function AllGroups<P>(s: State<P>): seq<seq<nat>> {
    s.poppedGroups + s.groups
  }

  /** A merger that lets the later payload replace the earlier one. */
  ghost predicate Replaces<P(!new)>(merge: (P, P) -> P) {
    forall current, incoming :: merge(current, incoming) == incoming
  }

  /** With such a merger every entry, received or pending, carries the payload of the last push behind it. */
  lemma {:induction false} LatestWins<P(!new)>(ops: seq<Op<P>>, capacity: nat, merge: (P, P) -> P, i: nat)
    requires Replaces(merge)
    ensures var s := Run(ops, capacity, merge);
      && |AllGroups(s)| == |AllEntries(s)|
      && (i < |AllEntries(s)| ==>
            var group := AllGroups(s)[i];
            && group != [] && group[|group| - 1] < |ops| && ops[group[|group| - 1]].PushOp?
            && AllEntries(s)[i].payload == ops[group[|group| - 1]].event.payload)
  {
    hide Run, Members, Founded, Complete, WellFormed;
    var s := Run(ops, capacity, merge);
    LedgerHolds(ops, capacity, merge);
    if i < |AllEntries(s)| {
      var p := |s.popped|;
      var e, group := AllEntries(s)[i], AllGroups(s)[i];
      var until := if i < p then s.poppedAt[i] else |ops|;
      assert EntryOwes(e, group, ops, s.accepted, until, capacity, merge);
      assert e == Fold(ops, group, merge);
    }
  }

  // ---------- One entry for each push ----------

  /** Push `n` is behind exactly one entry, which is of its key. */
  ghost predicate InOneEntry<P>(s: State<P>, ops: seq<Op<P>>, n: nat) {
    && n < |ops| && ops[n].PushOp?
    && |AllGroups(s)| == |AllEntries(s)|
    && exists i :: 0 <= i < |AllGroups(s)| && OnlyIn(AllGroups(s), i, n) && KeyOf(AllEntries(s)[i]) == KeyOf(ops[n].event)
  }

  ghost predicate OnlyIn(groups: seq<seq<nat>>, i: int, n: nat) {
    && 0 <= i < |groups| && multiset(groups[i])[n] == 1
    && forall j :: 0 <= j < |groups| && j != i ==> n !in groups[j]
  }

  lemma {:induction false} MembersConcat(a: seq<seq<nat>>, b: seq<seq<nat>>)
    ensures Members(a + b) == Members(a) + Members(b)
  {
    if a == [] {
      assert a + b == b;
    } else {
      assert (a + b)[1..] == a[1..] + b;
      MembersConcat(a[1..], b);
    }
  }

  lemma {:induction false} MembersNone(groups: seq<seq<nat>>, n: nat)
    requires Members(groups)[n] == 0
    ensures forall j :: 0 <= j < |groups| ==> n !in groups[j]
  {
    if groups != [] {
      assert n !in multiset(groups[0]);
      MembersNone(groups[1..], n);
      forall j | 0 <= j < |groups| ensures n !in groups[j] {
        if j > 0 { assert groups[j] == groups[1..][j - 1]; }
      }
    }
  }

  lemma {:induction false} MembersOne(groups: seq<seq<nat>>, n: nat) returns (i: nat)
    requires Members(groups)[n] == 1
    ensures OnlyIn(groups, i, n)
  {
    if n in multiset(groups[0]) {
      i := 0;
      MembersNone(groups[1..], n);
      assert forall j :: 0 < j < |groups| ==> groups[j] == groups[1..][j - 1];
    } else {
      var k := MembersOne(groups[1..], n);
      i := k + 1;
      forall j | 0 <= j < |groups| && j != i ensures n !in groups[j] {
        if j > 0 { assert groups[j] == groups[1..][j - 1]; }
      }
    }
  }

  /** After every history an accepted push is behind exactly one entry. */
  lemma {:induction false} AcceptedOnce<P>(ops: seq<Op<P>>, capacity: nat, merge: (P, P) -> P, n: nat)
    requires n in Run(ops, capacity, merge).accepted
    ensures InOneEntry(Run(ops, capacity, merge), ops, n)
  {
    hide Run, Members, EntryOwes;
    var s := Run(ops, capacity, merge);
    LedgerHolds(ops, capacity, merge);
    MembersConcat(s.poppedGroups, s.groups);
    assert multiset(s.accepted)[n] == 1;
    var i := MembersOne(AllGroups(s), n);
    var p := |s.popped|;
    assert n in AllGroups(s)[i];
    if i < p {
      OwesKey(s.popped[i], s.poppedGroups[i], ops, s.accepted, s.poppedAt[i], capacity, merge, n);
    } else {
      OwesKey(s.queue[i - p], s.groups[i - p], ops, s.accepted, |ops|, capacity, merge, n);
    }
  }

  lemma OwesKey<P>(
      e: Event<P>, group: seq<nat>, ops: seq<Op<P>>, accepted: set<nat>, until: nat, capacity: nat, merge: (P, P) -> P, n: nat)
    requires EntryOwes(e, group, ops, accepted, until, capacity, merge) && n in group
    ensures n < |ops| && ops[n].PushOp? && KeyOf(ops[n].event) == KeyOf(e)
  {
    var i :| 0 <= i < |group| && group[i] == n;
  }
}
