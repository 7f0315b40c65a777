/** A subscriber's partition as one list of events: lowest superstep first, first come first served within a superstep,
    one entry for each (event id, superstep). */
module PartitionModel {

  datatype Event<+P> = Event(id: nat, superstep: nat, sequence: nat, payload: P)

  datatype Key = Key(id: nat, superstep: nat)

  datatype PushResult = Inserted | Coalesced | Full

  function KeyOf<P>(e: Event<P>): Key {
    Key(e.id, e.superstep)
  }

  predicate HasKey<P>(q: seq<Event<P>>, key: Key) {
    exists i :: 0 <= i < |q| && KeyOf(q[i]) == key
  }

  /** The first position of a key. */
  function Position<P>(q: seq<Event<P>>, key: Key): (i: nat)
    requires HasKey(q, key)
    ensures i < |q| && KeyOf(q[i]) == key
  {
    if KeyOf(q[0]) == key then 0
    else
      assert exists j :: 1 <= j < |q| && KeyOf(q[j]) == key;
      assert HasKey(q[1..], key) by { var j :| 1 <= j < |q| && KeyOf(q[j]) == key; assert KeyOf(q[1..][j - 1]) == key; }
      1 + Position(q[1..], key)
  }

  /** Where a new event of a superstep goes: behind every entry of that superstep and of the ones before it. */
  function Slot<P>(q: seq<Event<P>>, superstep: nat): (i: nat)
    ensures i <= |q|
  {
    if q == [] || q[0].superstep > superstep then 0 else 1 + Slot(q[1..], superstep)
  }

  function InsertAt<X>(q: seq<X>, i: nat, x: X): seq<X>
    requires i <= |q|
  {
    q[..i] + [x] + q[i..]
  }

  function Merged<P>(e: Event<P>, payload: P, merge: (P, P) -> P): Event<P> {
    e.(payload := merge(e.payload, payload))
  }

  predicate CanAccept<P>(q: seq<Event<P>>, capacity: nat, key: Key) {
    HasKey(q, key) || |q| < capacity
  }

  function PushOutcome<P>(q: seq<Event<P>>, capacity: nat, e: Event<P>): PushResult {
    if HasKey(q, KeyOf(e)) then Coalesced else if |q| >= capacity then Full else Inserted
  }

  function Push<P>(q: seq<Event<P>>, capacity: nat, e: Event<P>, merge: (P, P) -> P): seq<Event<P>> {
    match PushOutcome(q, capacity, e)
    case Coalesced => var i := Position(q, KeyOf(e)); q[i := Merged(q[i], e.payload, merge)]
    case Inserted => InsertAt(q, Slot(q, e.superstep), e)
    case Full => q
  }

  // ---------- What a push does ----------

  /** What a push makes of a list of at most `capacity` events, entry by entry: an entry of the key, if there is one, gets
      the payload that the merger makes of its own and of the new one, in this order; otherwise the event is refused if
      the list is full, and goes behind all entries up to its superstep if not. */
  ghost predicate Pushes<P>(
      q: seq<Event<P>>, capacity: nat, e: Event<P>, merge: (P, P) -> P, outcome: PushResult, q': seq<Event<P>>)
  {
    if exists i :: 0 <= i < |q| && q[i].id == e.id && q[i].superstep == e.superstep then
      && outcome == Coalesced
      && exists i :: 0 <= i < |q| && q[i].id == e.id && q[i].superstep == e.superstep
           && q' == q[i := Event(e.id, e.superstep, q[i].sequence, merge(q[i].payload, e.payload))]
    else if |q| == capacity then outcome == Full && q' == q
    else
      && outcome == Inserted
      && exists i :: 0 <= i <= |q| && q' == q[..i] + [e] + q[i..]
           && (forall j :: 0 <= j < i ==> q[j].superstep <= e.superstep)
           && (forall j :: i <= j < |q| ==> e.superstep < q[j].superstep)
  }

  lemma PushDoes<P>(q: seq<Event<P>>, capacity: nat, e: Event<P>, merge: (P, P) -> P)
    requires WellFormed(q, capacity)
    ensures Pushes(q, capacity, e, merge, PushOutcome(q, capacity, e), Push(q, capacity, e, merge))
  {
    KeyExplained(q, e);
    hide UniqueKeys, BySuperstep, HasKey, Slot;
    if HasKey(q, KeyOf(e)) {
      var i := Position(q, KeyOf(e));
      assert q[i].id == e.id && q[i].superstep == e.superstep;
    } else if |q| < capacity {
      SlotSplits(q, e.superstep);
      var i := Slot(q, e.superstep);
      assert Push(q, capacity, e, merge) == q[..i] + [e] + q[i..];
    }
  }

  lemma KeyExplained<P>(q: seq<Event<P>>, e: Event<P>)
    ensures HasKey(q, KeyOf(e)) <==> exists i :: 0 <= i < |q| && q[i].id == e.id && q[i].superstep == e.superstep
  {
    if i :| 0 <= i < |q| && q[i].id == e.id && q[i].superstep == e.superstep { assert KeyOf(q[i]) == KeyOf(e); }
  }

  // ---------- The shape of the list ----------

  ghost predicate UniqueKeys<P>(q: seq<Event<P>>) {
    forall i, j :: 0 <= i < j < |q| ==> KeyOf(q[i]) != KeyOf(q[j])
  }

  ghost predicate BySuperstep<P>(q: seq<Event<P>>) {
    forall i, j :: 0 <= i < j < |q| ==> q[i].superstep <= q[j].superstep
  }

  ghost predicate WellFormed<P>(q: seq<Event<P>>, capacity: nat) {
    UniqueKeys(q) && BySuperstep(q) && |q| <= capacity
  }

  /** In an ordered list the slot splits it: no later superstep before it, only later ones behind it. */
  lemma {:induction false} SlotSplits<P>(q: seq<Event<P>>, superstep: nat)
    requires BySuperstep(q)
    ensures forall i :: 0 <= i < Slot(q, superstep) ==> q[i].superstep <= superstep
    ensures forall i :: Slot(q, superstep) <= i < |q| ==> superstep < q[i].superstep
  {
    if q != [] && q[0].superstep <= superstep {
      SlotSplits(q[1..], superstep);
      var s := Slot(q[1..], superstep);
      forall i | 0 <= i < 1 + s ensures q[i].superstep <= superstep {
        if i > 0 { assert q[i] == q[1..][i - 1]; }
      }
      forall i | 1 + s <= i < |q| ensures superstep < q[i].superstep {
        assert q[i] == q[1..][i - 1];
      }
    }
  }

  /** The slot is the only place that splits an ordered list so. */
  lemma SlotUnique<P>(q: seq<Event<P>>, superstep: nat, i: nat)
    requires BySuperstep(q) && i <= |q|
    requires forall j :: 0 <= j < i ==> q[j].superstep <= superstep
    requires forall j :: i <= j < |q| ==> superstep < q[j].superstep
    ensures Slot(q, superstep) == i
  {
    SlotSplits(q, superstep);
    var s := Slot(q, superstep);
    if s < |q| { assert superstep < q[s].superstep; }
    if i < |q| { assert superstep < q[i].superstep; }
  }

  lemma InsertKeepsOrder<P>(q: seq<Event<P>>, e: Event<P>)
    requires BySuperstep(q)
    ensures BySuperstep(InsertAt(q, Slot(q, e.superstep), e))
  {
    SlotSplits(q, e.superstep);
    hide Slot;
  }

  lemma InsertKeepsUnique<P>(q: seq<Event<P>>, i: nat, e: Event<P>)
    requires UniqueKeys(q) && i <= |q| && !HasKey(q, KeyOf(e))
    ensures UniqueKeys(InsertAt(q, i, e)) && HasKey(InsertAt(q, i, e), KeyOf(e))
  {
    assert InsertAt(q, i, e)[i] == e;
  }

  lemma MergeKeepsShape<P>(q: seq<Event<P>>, i: nat, e: Event<P>)
    requires i < |q| && KeyOf(e) == KeyOf(q[i])
    ensures UniqueKeys(q) ==> UniqueKeys(q[i := e])
    ensures BySuperstep(q) ==> BySuperstep(q[i := e])
    ensures HasKey(q[i := e], KeyOf(e))
  {
    assert q[i := e][i] == e;
  }

  lemma PushKeepsShape<P>(q: seq<Event<P>>, capacity: nat, e: Event<P>, merge: (P, P) -> P)
    requires WellFormed(q, capacity)
    ensures WellFormed(Push(q, capacity, e, merge), capacity)
    ensures PushOutcome(q, capacity, e) != Full ==> HasKey(Push(q, capacity, e, merge), KeyOf(e))
  {
    hide UniqueKeys, BySuperstep, HasKey, Slot;
    match PushOutcome(q, capacity, e)
    case Coalesced =>
      var i := Position(q, KeyOf(e));
      MergeKeepsShape(q, i, Merged(q[i], e.payload, merge));
    case Inserted =>
      InsertKeepsOrder(q, e);
      InsertKeepsUnique(q, Slot(q, e.superstep), e);
    case Full =>
  }

  lemma PopsKeepShape<P>(q: seq<Event<P>>, capacity: nat, k: nat)
    requires WellFormed(q, capacity) && k <= |q|
    ensures WellFormed(q[k..], capacity)
  {}

  /** What a partition can accept it can still accept after any number of pops. */
  lemma PopsKeepAcceptance<P>(q: seq<Event<P>>, capacity: nat, k: nat, key: Key)
    requires |q| <= capacity && k <= |q| && CanAccept(q, capacity, key)
    ensures CanAccept(q[k..], capacity, key)
  {
    if HasKey(q, key) && k == 0 {
      assert q[k..] == q;
    }
  }

  /** The check before a push is exact: a push is refused if and only if the check would have said so. */
  lemma AcceptanceIsExact<P>(q: seq<Event<P>>, capacity: nat, e: Event<P>)
    ensures CanAccept(q, capacity, KeyOf(e)) <==> PushOutcome(q, capacity, e) != Full
  {}
}
