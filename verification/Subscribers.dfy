/** The slots of the bus: at most one partition each, no two of which share anything. */
module Subscribers {
  import opened PartitionModel
  import opened Partitions
  import opened Results

  type Queue<P> = seq<Event<P>>

  /** The partition of a slot, if there is one, lives in `part` and holds `queue`. */
  ghost predicate Holds<P>(
      p: Partition?<P>, queue: Option<Queue<P>>, part: set<object>, capacity: nat, merge: (P, P) -> P)
    reads part
  {
    if p == null then queue == None
    else
      && p in part && (forall c :: c in p.cells ==> c in part)
      && p.Valid() && queue == Some(p.Queue()) && p.capacity == capacity && p.merge == merge
  }

  class SlotTable<P> {
    const size: nat
    const capacity: nat
    const merge: (P, P) -> P
    const slots: array<Partition?<P>>

    /** What the partitions hold. */
    ghost var queues: seq<Option<Queue<P>>>

    /** The objects that belong to each slot, and to all of them. */
    ghost var parts: seq<set<object>>
    ghost var all: set<object>

    ghost predicate Apart()
      reads this
    {
      && slots.Length == size == |queues| == |parts| && this !in all && slots !in all
      && (forall i :: 0 <= i < size ==> parts[i] <= all)
      && (forall i, j :: 0 <= i < j < size ==> parts[i] !! parts[j])
    }

    ghost predicate Valid()
      reads this, slots, all
    {
      && capacity > 0 && Apart()
      && forall i :: 0 <= i < size ==> Holds(slots[i], queues[i], parts[i], capacity, merge)
    }

    constructor (size: nat, capacity: nat, merge: (P, P) -> P)
      requires capacity > 0
      ensures Valid() && fresh(slots) && fresh(all)
      ensures this.size == size && this.capacity == capacity && this.merge == merge
      ensures queues == seq(size, _ => None)
    {
      this.size, this.capacity, this.merge := size, capacity, merge;
      slots := new Partition?<P>[size](_ => null);
      queues, parts, all := seq(size, _ => None), seq(size, _ => {}), {};
    }

    method IsTaken(id: nat) returns (b: bool)
      requires Valid() && id < size
      ensures b <==> queues[id].Some?
    {
      return slots[id] != null;
    }

    method CanAcceptAt(id: nat, event: Event<P>) returns (b: bool)
      requires Valid() && id < size && queues[id].Some?
      ensures b == CanAccept(queues[id].value, capacity, KeyOf(event))
    {
      b := slots[id].CanAcceptEvent(event);
    }

    method PushAt(id: nat, event: Event<P>) returns (r: PushResult)
      requires Valid() && id < size && queues[id].Some?
      modifies this`queues, this`parts, this`all, all
      ensures Valid() && fresh(all - old(all))
      ensures r == PushOutcome(old(queues)[id].value, capacity, event)
      ensures queues == old(queues)[id := Some(Push(old(queues)[id].value, capacity, event, merge))]
    {
      hide WellFormed, Indexed, Leveled, Push, PushOutcome, Pushes;
      var p := slots[id];
      ghost var part := parts[id];
      r := p.PushEvent(event);
      ghost var grown := part + (set c | c in p.cells);
      parts := parts[id := grown];
      all := all + grown;
      queues := queues[id := Some(p.Queue())];
      forall i | 0 <= i < size ensures Holds(slots[i], queues[i], parts[i], capacity, merge) {}
    }

    method PopAt(id: nat) returns (event: Option<Event<P>>)
      requires Valid() && id < size && queues[id].Some?
      modifies this`queues, all
      ensures Valid() && all == old(all)
      ensures var q := old(queues)[id].value;
        && event == (if q == [] then None else Some(q[0]))
        && queues == if q == [] then old(queues) else old(queues)[id := Some(q[1..])]
    {
      hide WellFormed, Indexed, Leveled;
      var p := slots[id];
      event := p.PopEvent();
      queues := queues[id := Some(p.Queue())];
      forall i | 0 <= i < size ensures Holds(slots[i], queues[i], parts[i], capacity, merge) {}
    }

    method Fill(id: nat)
      requires Valid() && id < size && queues[id].None?
      modifies this`queues, this`parts, this`all, slots
      ensures Valid() && fresh(all - old(all)) && queues == old(queues)[id := Some([])]
    {
      hide WellFormed, Indexed, Leveled;
      var p := new Partition(capacity, merge);
      slots[id] := p;
      queues := queues[id := Some([])];
      parts := parts[id := {p}];
      all := all + {p};
    }

    method Free(id: nat)
      requires Valid() && id < size && queues[id].Some?
      modifies this`queues, slots
      ensures Valid() && all == old(all) && queues == old(queues)[id := None]
    {
      hide WellFormed, Indexed, Leveled;
      slots[id] := null;
      queues := queues[id := None];
    }
  }
}
