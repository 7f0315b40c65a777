/** A partition as it is built: an ordered map of lists, a hash index of list positions, and a size counter.  A list
    position is a `Cell`, so that merging through the index changes the event where it stands in its list. */
module Partitions {
  import opened PartitionModel
  import opened Results

  // ---------- Ordered maps of lists ----------

  /** The first key of an ordered map. */
  function MinKey(keys: set<nat>): (k: nat)
    requires keys != {}
    ensures k in keys && forall j :: j in keys ==> k <= j
  {
    assert exists j :: j in keys && forall i :: i in keys ==> j <= i by {
      var any :| any in keys;
      MinExists(keys, any);
    }
    var k :| k in keys && forall j :: j in keys ==> k <= j;
    k
  }

  lemma {:induction false} MinExists(keys: set<nat>, k: nat)
    requires k in keys
    ensures exists j :: j in keys && forall i :: i in keys ==> j <= i
    decreases k
  {
    if i :| i in keys && i < k { MinExists(keys, i); }
  }

  /** All lists one after the other, in key order. */
  ghost function Flatten<X>(levels: map<nat, seq<X>>): seq<X>
    decreases |levels.Keys|
  {
    if levels.Keys == {} then []
    else
      var k := MinKey(levels.Keys);
      assert |levels.Keys - {k}| < |levels.Keys|;
      levels[k] + Flatten(levels - {k})
  }

  function LevelOf<X>(levels: map<nat, seq<X>>, s: nat): seq<X> {
    if s in levels then levels[s] else []
  }

  /** The lists up to and including key `s`, and the lists behind it. */
  ghost function UpTo<X>(levels: map<nat, seq<X>>, s: nat): map<nat, seq<X>> {
    map k | k in levels && k <= s :: levels[k]
  }

  ghost function Behind<X>(levels: map<nat, seq<X>>, s: nat): map<nat, seq<X>> {
    map k | k in levels && k > s :: levels[k]
  }

  /** The first list of a map that holds one of the least key. */
  lemma FlattenFirst<X>(levels: map<nat, seq<X>>, k: nat)
    requires k in levels && forall j :: j in levels ==> k <= j
    ensures Flatten(levels) == levels[k] + Flatten(levels - {k})
  {
    assert MinKey(levels.Keys) == k;
  }

  lemma {:induction false} FlattenSplits<X>(levels: map<nat, seq<X>>, s: nat)
    ensures Flatten(levels) == Flatten(UpTo(levels, s)) + Flatten(Behind(levels, s))
    decreases |levels.Keys|
  {
    hide Flatten;
    if levels.Keys == {} {
      NothingFlat(levels);
      NothingFlat(UpTo(levels, s));
      NothingFlat(Behind(levels, s));
    } else {
      var k := MinKey(levels.Keys);
      var rest := levels - {k};
      FlattenFirst(levels, k);
      assert |levels.Keys - {k}| < |levels.Keys|;
      FlattenSplits(rest, s);
      if k <= s {
        FlattenFirst(UpTo(levels, s), k);
        assert UpTo(levels, s) - {k} == UpTo(rest, s) && Behind(levels, s) == Behind(rest, s);
        assert levels[k] + (Flatten(UpTo(rest, s)) + Flatten(Behind(rest, s)))
            == levels[k] + Flatten(UpTo(rest, s)) + Flatten(Behind(rest, s));
      } else {
        NothingFlat(UpTo(levels, s));
        assert Behind(levels, s) == levels;
      }
    }
  }

  lemma NothingFlat<X>(levels: map<nat, seq<X>>)
    ensures levels.Keys == {} ==> Flatten(levels) == []
  {}

  /** Appending to the last list appends to the whole. */
  lemma {:induction false} FlattenAppends<X>(levels: map<nat, seq<X>>, s: nat, x: X)
    requires forall k :: k in levels ==> k <= s
    ensures Flatten(levels[s := LevelOf(levels, s) + [x]]) == Flatten(levels) + [x]
    decreases |levels.Keys|
  {
    hide Flatten;
    if k :| k in levels && k < s {
      var more := levels[s := LevelOf(levels, s) + [x]];
      var m := MinKey(levels.Keys);
      assert m in levels && m <= k && more[m] == levels[m] && forall j :: j in more ==> m <= j;
      var rest := levels - {m};
      FlattenFirst(levels, m);
      FlattenFirst(more, m);
      assert |levels.Keys - {m}| < |levels.Keys|;
      assert LevelOf(rest, s) == LevelOf(levels, s);
      assert more - {m} == rest[s := LevelOf(rest, s) + [x]];
      FlattenAppends(rest, s, x);
      assert levels[m] + (Flatten(rest) + [x]) == levels[m] + Flatten(rest) + [x];
    } else {
      assert levels.Keys <= {s};
      FlattenOne(levels, s);
      FlattenOne(levels[s := LevelOf(levels, s) + [x]], s);
    }
  }

  lemma FlattenOne<X>(levels: map<nat, seq<X>>, s: nat)
    requires levels.Keys <= {s}
    ensures Flatten(levels) == LevelOf(levels, s)
  {
    hide Flatten;
    NothingFlat(levels);
    if s in levels {
      FlattenFirst(levels, s);
      NothingFlat(levels - {s});
    }
  }

  /** A new element of key `s` goes between the lists up to `s` and the lists behind. */
  lemma FlattenInserts<X>(levels: map<nat, seq<X>>, s: nat, x: X)
    ensures Flatten(levels[s := LevelOf(levels, s) + [x]])
         == Flatten(UpTo(levels, s)) + [x] + Flatten(Behind(levels, s))
  {
    hide Flatten;
    var more, up := levels[s := LevelOf(levels, s) + [x]], UpTo(levels, s);
    FlattenSplits(more, s);
    FlattenAppends(up, s, x);
    assert UpTo(more, s) == up[s := LevelOf(up, s) + [x]];
    assert Behind(more, s) == Behind(levels, s);
  }

  /** Taking the first element of the first list takes the first element of the whole. */
  lemma FlattenPops<X>(levels: map<nat, seq<X>>)
    requires levels.Keys != {} && levels[MinKey(levels.Keys)] != []
    ensures var k := MinKey(levels.Keys);
      && Flatten(levels) == [levels[k][0]] + Flatten(levels)[1..]
      && Flatten(if |levels[k]| == 1 then levels - {k} else levels[k := levels[k][1..]]) == Flatten(levels)[1..]
  {
    var k := MinKey(levels.Keys);
    if |levels[k]| > 1 {
      var fewer := levels[k := levels[k][1..]];
      assert fewer.Keys == levels.Keys && fewer - {k} == levels - {k};
    }
  }

  ghost predicate Occurs<X>(levels: map<nat, seq<X>>, x: X) {
    exists k :: k in levels && x in levels[k]
  }

  /** The elements of the whole are those of the lists. */
  lemma {:induction false} FlattenMember<X>(levels: map<nat, seq<X>>, x: X)
    ensures x in Flatten(levels) <==> Occurs(levels, x)
    decreases |levels.Keys|
  {
    if levels.Keys != {} {
      var k := MinKey(levels.Keys);
      var rest := levels - {k};
      assert |levels.Keys - {k}| < |levels.Keys|;
      FlattenMember(rest, x);
      if Occurs(rest, x) {
        var j :| j in rest && x in rest[j];
        assert j in levels && x in levels[j];
      }
      if Occurs(levels, x) && x !in levels[k] {
        var j :| j in levels && x in levels[j];
        assert j in rest && x in rest[j];
      }
    }
  }

  // ---------- The partition ----------

  /** A position in a list. */
  class Cell<P> {
    var event: Event<P>

    constructor (event: Event<P>)
      ensures this.event == event
    {
      this.event := event;
    }
  }

  ghost function Events<P>(cells: seq<Cell<P>>): seq<Event<P>>
    reads cells
  {
    seq(|cells|, i requires 0 <= i < |cells| reads cells => cells[i].event)
  }

  /** The index and the list agree: each key stands in one position, and the index leads there. */
  ghost predicate Indexed<P>(cells: seq<Cell<P>>, q: seq<Event<P>>, index: map<Key, Cell<P>>)
    requires |q| == |cells|
  {
    && (forall i, j :: 0 <= i < j < |cells| ==> cells[i] != cells[j])
    && (forall i :: 0 <= i < |cells| ==> KeyOf(q[i]) in index && index[KeyOf(q[i])] == cells[i])
    && (forall k :: k in index ==> HasKey(q, k))
  }

  /** The lists and the whole agree: no list is empty, and each holds the events of its superstep. */
  ghost predicate Leveled<P>(levels: map<nat, seq<Cell<P>>>, cells: seq<Cell<P>>, q: seq<Event<P>>)
    requires |q| == |cells|
  {
    && cells == Flatten(levels)
    && (forall s :: s in levels ==> levels[s] != [])
    && (forall i :: 0 <= i < |cells| ==> q[i].superstep in levels && cells[i] in levels[q[i].superstep])
    && (forall s, i :: s in levels && 0 <= i < |cells| && cells[i] in levels[s] ==> q[i].superstep == s)
  }

  lemma IndexedInsert<P>(
      cells: seq<Cell<P>>, q: seq<Event<P>>, index: map<Key, Cell<P>>, i: nat, cell: Cell<P>, e: Event<P>)
    requires |q| == |cells| && Indexed(cells, q, index) && i <= |q| && cell !in cells && !HasKey(q, KeyOf(e))
    ensures Indexed(InsertAt(cells, i, cell), InsertAt(q, i, e), index[KeyOf(e) := cell])
  {
    var q', index' := InsertAt(q, i, e), index[KeyOf(e) := cell];
    forall k | k in index' ensures HasKey(q', k) {
      if k == KeyOf(e) {
        assert KeyOf(q'[i]) == k;
      } else {
        var j :| 0 <= j < |q| && KeyOf(q[j]) == k;
        assert q'[if j < i then j else j + 1] == q[j];
      }
    }
    forall j | 0 <= j < |q'| ensures KeyOf(q'[j]) in index' && index'[KeyOf(q'[j])] == InsertAt(cells, i, cell)[j] {
      if j < i { assert q'[j] == q[j]; } else if j > i { assert q'[j] == q[j - 1]; }
    }
  }

  lemma IndexedPop<P>(cells: seq<Cell<P>>, q: seq<Event<P>>, index: map<Key, Cell<P>>)
    requires |q| == |cells| > 0 && Indexed(cells, q, index) && UniqueKeys(q)
    ensures Indexed(cells[1..], q[1..], index - {KeyOf(q[0])})
  {
    forall k | k in index - {KeyOf(q[0])} ensures HasKey(q[1..], k) {
      var j :| 0 <= j < |q| && KeyOf(q[j]) == k;
      assert q[1..][j - 1] == q[j];
    }
  }

  lemma IndexedMerge<P>(cells: seq<Cell<P>>, q: seq<Event<P>>, index: map<Key, Cell<P>>, i: nat, e: Event<P>)
    requires |q| == |cells| && Indexed(cells, q, index) && i < |q| && KeyOf(e) == KeyOf(q[i])
    ensures Indexed(cells, q[i := e], index)
  {
    forall k | k in index ensures HasKey(q[i := e], k) {
      var j :| 0 <= j < |q| && KeyOf(q[j]) == k;
      assert KeyOf(q[i := e][j]) == k;
    }
  }

  lemma IndexedDistinct<P>(cells: seq<Cell<P>>, q: seq<Event<P>>, index: map<Key, Cell<P>>)
    requires |q| == |cells| && Indexed(cells, q, index)
    ensures forall i, j :: 0 <= i < j < |cells| ==> cells[i] != cells[j]
  {}

  lemma IndexedPlace<P>(cells: seq<Cell<P>>, q: seq<Event<P>>, index: map<Key, Cell<P>>, i: nat)
    requires |q| == |cells| && Indexed(cells, q, index) && i < |q|
    ensures KeyOf(q[i]) in index && index[KeyOf(q[i])] == cells[i]
  {}

  lemma LeveledMerge<P>(levels: map<nat, seq<Cell<P>>>, cells: seq<Cell<P>>, q: seq<Event<P>>, i: nat, e: Event<P>)
    requires |q| == |cells| && Leveled(levels, cells, q) && i < |q| && KeyOf(e) == KeyOf(q[i])
    ensures Leveled(levels, cells, q[i := e])
  {}

  /** The slot of a superstep is the border between its lists and the later ones. */
  lemma SlotIsBorder<P>(levels: map<nat, seq<Cell<P>>>, cells: seq<Cell<P>>, q: seq<Event<P>>, s: nat)
    requires |q| == |cells| && Leveled(levels, cells, q) && BySuperstep(q)
    ensures cells == Flatten(UpTo(levels, s)) + Flatten(Behind(levels, s))
    ensures Slot(q, s) == |Flatten(UpTo(levels, s))|
  {
    hide Flatten, Slot;
    var up, behind := Flatten(UpTo(levels, s)), Flatten(Behind(levels, s));
    FlattenSplits(levels, s);
    forall j | 0 <= j < |up| ensures q[j].superstep <= s {
      FlattenMember(UpTo(levels, s), up[j]);
      var k :| k in UpTo(levels, s) && up[j] in UpTo(levels, s)[k];
      assert cells[j] == up[j] && cells[j] in levels[k];
    }
    forall j | |up| <= j < |cells| ensures s < q[j].superstep {
      FlattenMember(Behind(levels, s), behind[j - |up|]);
      var k :| k in Behind(levels, s) && behind[j - |up|] in Behind(levels, s)[k];
      assert cells[j] == behind[j - |up|] && cells[j] in levels[k];
    }
    SlotUnique(q, s, |up|);
  }

  lemma LeveledInsert<P>(
      levels: map<nat, seq<Cell<P>>>, cells: seq<Cell<P>>, q: seq<Event<P>>, cell: Cell<P>, e: Event<P>)
    requires |q| == |cells| && Leveled(levels, cells, q) && BySuperstep(q) && cell !in cells
    ensures var i := Slot(q, e.superstep);
      Leveled(levels[e.superstep := LevelOf(levels, e.superstep) + [cell]], InsertAt(cells, i, cell), InsertAt(q, i, e))
  {
    hide Flatten, Slot, Leveled, BySuperstep;
    var s := e.superstep;
    var i, more := Slot(q, s), levels[s := LevelOf(levels, s) + [cell]];
    SlotIsBorder(levels, cells, q, s);
    FlattenInserts(levels, s, cell);
    assert InsertAt(cells, i, cell) == Flatten(more);
    forall t ensures cell !in LevelOf(levels, t) { NotInLists(levels, cells, q, cell, t); }
    PlacedInsert(levels, cells, q, i, cell, e);
  }

  /** A new element goes to the end of the list of its superstep, all others stay in theirs. */
  lemma PlacedInsert<P>(
      levels: map<nat, seq<Cell<P>>>, cells: seq<Cell<P>>, q: seq<Event<P>>, i: nat, cell: Cell<P>, e: Event<P>)
    requires |q| == |cells| && Leveled(levels, cells, q) && i <= |q| && forall t :: cell !in LevelOf(levels, t)
    requires InsertAt(cells, i, cell) == Flatten(levels[e.superstep := LevelOf(levels, e.superstep) + [cell]])
    ensures Leveled(levels[e.superstep := LevelOf(levels, e.superstep) + [cell]], InsertAt(cells, i, cell), InsertAt(q, i, e))
  {
    hide Flatten;
    var more, cells', q' := levels[e.superstep := LevelOf(levels, e.superstep) + [cell]], InsertAt(cells, i, cell), InsertAt(q, i, e);
    forall j | 0 <= j < |cells'|
      ensures q'[j].superstep in more && cells'[j] in more[q'[j].superstep]
      ensures forall t :: t in more && cells'[j] in more[t] ==> q'[j].superstep == t
    {
      if j == i {
        assert cells'[j] in LevelOf(levels, e.superstep) + [cell];
        assert forall t :: t in more && cells'[j] in more[t] ==> t == e.superstep || cell in LevelOf(levels, t);
      } else {
        var k := if j < i then j else j - 1;
        assert cells'[j] == cells[k] && q'[j] == q[k] && cells[k] in LevelOf(levels, q[k].superstep);
      }
    }
  }

  lemma NotInLists<P>(levels: map<nat, seq<Cell<P>>>, cells: seq<Cell<P>>, q: seq<Event<P>>, cell: Cell<P>, t: nat)
    requires |q| == |cells| && Leveled(levels, cells, q) && cell !in cells
    ensures cell !in LevelOf(levels, t)
  {
    FlattenMember(levels, cell);
  }

  lemma LeveledPop<P>(levels: map<nat, seq<Cell<P>>>, cells: seq<Cell<P>>, q: seq<Event<P>>)
    requires |q| == |cells| > 0 && Leveled(levels, cells, q)
    requires forall i, j :: 0 <= i < j < |cells| ==> cells[i] != cells[j]
    ensures levels.Keys != {}
    ensures var s := MinKey(levels.Keys);
      && levels[s] != [] && levels[s][0] == cells[0] && q[0].superstep == s
      && Leveled(if |levels[s]| == 1 then levels - {s} else levels[s := levels[s][1..]], cells[1..], q[1..])
  {
    hide Flatten;
    if levels.Keys == {} { NothingFlat(levels); }
    var s := MinKey(levels.Keys);
    FlattenPops(levels);
    var l := levels[s];
    var fewer := if |l| == 1 then levels - {s} else levels[s := l[1..]];
    assert cells[0] == l[0] && cells[0] in l;
    forall i | 0 <= i < |cells| - 1
      ensures q[1..][i].superstep in fewer && cells[1..][i] in fewer[q[1..][i].superstep]
    {
      assert cells[1..][i] == cells[i + 1] != cells[0] && q[1..][i] == q[i + 1];
      if q[i + 1].superstep == s {
        var j :| 0 <= j < |l| && l[j] == cells[i + 1];
        assert j > 0 && l[1..][j - 1] == cells[i + 1];
      }
    }
    forall t, i | t in fewer && 0 <= i < |cells| - 1 && cells[1..][i] in fewer[t] ensures q[1..][i].superstep == t {
      assert cells[1..][i] == cells[i + 1] && cells[i + 1] in levels[t];
    }
  }

  class Partition<P> {
    const capacity: nat
    const merge: (P, P) -> P
    var levels: map<nat, seq<Cell<P>>>
    var index: map<Key, Cell<P>>
    var size: nat

    /** All positions, in the order in which they will be consumed. */
    ghost var cells: seq<Cell<P>>

    /** The partition as one list of events. */
    ghost function Queue(): seq<Event<P>>
      reads this, cells
    {
      Events(cells)
    }

    ghost predicate Valid()
      reads this, cells
    {
      && capacity > 0
      && Indexed(cells, Queue(), index)
      && Leveled(levels, cells, Queue())
      && size == |cells|
      && WellFormed(Queue(), capacity)
    }

    constructor (capacity: nat, merge: (P, P) -> P)
      requires capacity > 0
      ensures Valid() && Queue() == [] && this.capacity == capacity && this.merge == merge && cells == []
    {
      this.capacity, this.merge := capacity, merge;
      levels, index, size, cells := map[], map[], 0, [];
    }

    /** The index knows exactly the keys of the list. */
    lemma IndexFinds(key: Key)
      requires Valid()
      ensures key in index <==> HasKey(Queue(), key)
    {}

    method CanAcceptEvent(event: Event<P>) returns (b: bool)
      requires Valid()
      ensures b == CanAccept(Queue(), capacity, KeyOf(event))
      ensures b <==>
        || |Queue()| < capacity
        || exists i :: 0 <= i < |Queue()| && Queue()[i].id == event.id && Queue()[i].superstep == event.superstep
    {
      IndexFinds(KeyOf(event));
      KeyExplained(Queue(), event);
      b := KeyOf(event) in index || size < capacity;
    }

    /** Every event goes through here: merged where its key already stands, refused when full, else put in its slot. */
    method PushEvent(event: Event<P>) returns (r: PushResult)
      requires Valid()
      modifies this, cells
      ensures Valid() && forall c :: c in cells && c !in old(cells) ==> fresh(c)
      ensures r == PushOutcome(old(Queue()), capacity, event)
      ensures Queue() == Push(old(Queue()), capacity, event, merge)
      ensures Pushes(old(Queue()), capacity, event, merge, r, Queue())
    {
      hide Indexed, Leveled, WellFormed, Pushes;
      PushDoes(Queue(), capacity, event, merge);
      var key := KeyOf(event);
      IndexFinds(key);
      if key in index {
        MergeInto(index[key], event);
        return Coalesced;
      }
      if size >= capacity {
        return Full;
      }
      Append(event);
      return Inserted;
    }

    /** Merge a payload into the event of its key where that stands. */
    method MergeInto(found: Cell<P>, event: Event<P>)
      requires Valid() && KeyOf(event) in index && found == index[KeyOf(event)]
      modifies cells
      ensures Valid() && HasKey(old(Queue()), KeyOf(event))
      ensures found in cells && KeyOf(old(found.event)) == KeyOf(event)
      ensures found.event == old(found.event).(payload := merge(old(found.event.payload), event.payload))
      ensures forall c :: c in cells && c != found ==> c.event == old(c.event)
      ensures Queue() == Push(old(Queue()), capacity, event, merge)
    {
      hide Indexed, Leveled, WellFormed, HasKey, Push;
      MergeFits(found, event);
      ghost var q := Push(Queue(), capacity, event, merge);
      found.event := Merged(found.event, event.payload, merge);
      assert Queue() == q;
    }

    /** The push keeps all positions, and changes what stands in the one that the index knows. */
    lemma MergeFits(found: Cell<P>, event: Event<P>)
      requires Valid() && KeyOf(event) in index && found == index[KeyOf(event)]
      ensures HasKey(Queue(), KeyOf(event))
      ensures var i, q := Position(Queue(), KeyOf(event)), Push(Queue(), capacity, event, merge);
        && cells[i] == found && (forall j :: 0 <= j < |cells| && cells[j] == found ==> j == i)
        && q == Queue()[i := Merged(found.event, event.payload, merge)]
        && Indexed(cells, q, index) && Leveled(levels, cells, q) && WellFormed(q, capacity)
    {
      hide Indexed, Leveled, WellFormed, HasKey, Push;
      IndexFinds(KeyOf(event));
      var q, e := Queue(), Merged(found.event, event.payload, merge);
      var i := Position(q, KeyOf(event));
      PushKeepsShape(q, capacity, event, merge);
      PushMerges(q, capacity, event, merge);
      IndexedDistinct(cells, q, index);
      IndexedPlace(cells, q, index, i);
      IndexedMerge(cells, q, index, i, e);
      LeveledMerge(levels, cells, q, i, e);
    }

    static lemma PushMerges(q: seq<Event<P>>, capacity: nat, e: Event<P>, merge: (P, P) -> P)
      requires HasKey(q, KeyOf(e))
      ensures var i := Position(q, KeyOf(e)); Push(q, capacity, e, merge) == q[i := Merged(q[i], e.payload, merge)]
    {}

    /** Put a new event at the end of the list of its superstep. */
    method Append(event: Event<P>)
      requires Valid() && size < capacity && !HasKey(Queue(), KeyOf(event))
      modifies this
      ensures Valid() && forall c :: c in cells && c !in old(cells) ==> fresh(c)
      ensures Queue() == Push(old(Queue()), capacity, event, merge)
    {
      hide Indexed, Leveled, UniqueKeys, BySuperstep, Flatten, Slot;
      var s := event.superstep;
      ghost var q, i := Queue(), Slot(Queue(), s);
      PushKeepsShape(q, capacity, event, merge);
      var cell := new Cell(event);
      IndexedInsert(cells, q, index, i, cell, event);
      assert BySuperstep(q);
      LeveledInsert(levels, cells, q, cell, event);
      levels := levels[s := LevelOf(levels, s) + [cell]];
      index := index[KeyOf(event) := cell];
      size := size + 1;
      cells := InsertAt(cells, i, cell);
      assert Queue() == InsertAt(q, i, event);
    }

    /** The event that has waited longest in the lowest superstep. */
    method PopEvent() returns (r: Option<Event<P>>)
      requires Valid()
      modifies this
      ensures Valid() && (forall c :: c in cells ==> c in old(cells))
      ensures old(Queue()) == [] ==> r == None && Queue() == []
      ensures old(Queue()) != [] ==> r == Some(old(Queue())[0]) && Queue() == old(Queue())[1..]
    {
      hide Indexed, Leveled, UniqueKeys, BySuperstep, Flatten;
      if size == 0 {
        return None;
      }
      ghost var q := Queue();
      IndexedDistinct(cells, q, index);
      LeveledPop(levels, cells, q);
      IndexedPop(cells, q, index);
      PopsKeepShape(q, capacity, 1);
      var s := MinKey(levels.Keys);
      var level := levels[s];
      var event := level[0].event;
      levels := if |level| == 1 then levels - {s} else levels[s := level[1..]];
      index := index - {KeyOf(event)};
      size := size - 1;
      cells := cells[1..];
      assert Queue() == q[1..];
      return Some(event);
    }
  }

  /** A partition needs room, and something to merge with. */
  method MakePartition<P>(capacity: nat, merger: Option<(P, P) -> P>) returns (r: Result<Partition<P>>)
    ensures capacity == 0 || merger.None? <==> r.Err?
    ensures r.Err? ==> r == Err(InvalidArgument)
    ensures r.Ok? ==>
      && fresh(r.value) && r.value.Valid() && r.value.Queue() == []
      && r.value.capacity == capacity && Some(r.value.merge) == merger
  {
    if capacity == 0 {
      return Err(InvalidArgument);
    }
    match merger
    case None => return Err(InvalidArgument);
    case Some(merge) =>
      var partition := new Partition(capacity, merge);
      return Ok(partition);
  }
}
