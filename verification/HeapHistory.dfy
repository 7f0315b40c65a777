/** Every sequence of heap operations, as a tree because `meld` joins two histories. */
module HeapHistory {
  import opened Orders
  import opened PairingTree
  import opened PairingPotential

  datatype History<K, V> =
    | Fresh
    | Emplaced(before: History<K, V>, key: K, value: V)
    | Popped(before: History<K, V>)
    | Raised(before: History<K, V>, key: K, value: V)
    | Melded(before: History<K, V>, other: History<K, V>)
    | Cleared(before: History<K, V>)

  /** The heap after a history.  Popping an empty heap and lowering a priority are refused and change nothing. */
  ghost function Heap<K, V>(h: History<K, V>, less: (V, V) -> bool): (t: Tree<K, V>)
    ensures Single(t)
  {
    match h
    case Fresh => Nil
    case Emplaced(g, k, v) => Meld(Heap(g, less), Bin(k, v, Nil, Nil), less)
    case Popped(g) => var t := Heap(g, less); if t.Nil? then t else Pop(t, less)
    case Raised(g, k, v) =>
      var t := Heap(g, less);
      if k !in Keys(t) || less(v, Lookup(t, k)) then t else Raise(t, k, v, less)
    case Melded(g, o) => Meld(Heap(g, less), Heap(o, less), less)
    case Cleared(g) => Nil
  }

  /** What the callers owe: a new node is new, a raised handle is live, melded heaps share no node. */
  ghost predicate Legal<K, V>(h: History<K, V>, less: (V, V) -> bool) {
    match h
    case Fresh => true
    case Emplaced(g, k, _) => Legal(g, less) && k !in Keys(Heap(g, less))
    case Popped(g) => Legal(g, less)
    case Raised(g, k, _) => Legal(g, less) && k in Keys(Heap(g, less))
    case Melded(g, o) => Legal(g, less) && Legal(o, less) && Keys(Heap(g, less)) !! Keys(Heap(o, less))
    case Cleared(g) => Legal(g, less)
  }

  /** After every history the structure is one heap. */
  lemma {:induction false} HistoryIsHeap<K, V(!new)>(h: History<K, V>, less: (V, V) -> bool)
    requires StrictWeakOrder(less) && Legal(h, less)
    ensures IsHeap(Heap(h, less), less)
  {
    match h
    case Fresh =>
    case Emplaced(g, k, v) =>
      HistoryIsHeap(g, less);
      MeldKeys(Heap(g, less), Bin(k, v, Nil, Nil), less);
      MeldOrdered(Heap(g, less), Bin(k, v, Nil, Nil), less);
    case Popped(g) =>
      HistoryIsHeap(g, less);
      if Heap(g, less).Bin? { PopKeeps(Heap(g, less), less); }
    case Raised(g, k, v) =>
      HistoryIsHeap(g, less);
      var t := Heap(g, less);
      if !less(v, Lookup(t, k)) { RaiseIsHeap(t, k, v, less); }
    case Melded(g, o) =>
      HistoryIsHeap(g, less);
      HistoryIsHeap(o, less);
      MeldKeys(Heap(g, less), Heap(o, less), less);
      MeldOrdered(Heap(g, less), Heap(o, less), less);
    case Cleared(g) =>
  }

  /** The abstract priority queue: handles with their values.  A step is right when it does this to the entries. */
  ghost predicate RefinesMap<K, V>(h: History<K, V>, less: (V, V) -> bool) {
    var now := Entries(Heap(h, less));
    match h
    case Fresh => now == map[]
    case Emplaced(g, k, v) => now == Entries(Heap(g, less))[k := v]
    case Popped(g) =>
      var was := Entries(Heap(g, less));
      if was == map[] then now == was
      else exists k :: k in was && now == was - {k} && forall j :: j in was ==> !less(was[k], was[j])
    case Raised(g, k, v) =>
      var was := Entries(Heap(g, less));
      k in was && now == if less(v, was[k]) then was else was[k := v]
    case Melded(g, o) => now == Entries(Heap(g, less)) + Entries(Heap(o, less))
    case Cleared(g) => now == map[]
  }

  /** Whatever happened before, each operation acts on the map of live handles as the abstract queue does. */
  lemma HistoryRefinesMap<K, V(!new)>(h: History<K, V>, less: (V, V) -> bool)
    requires StrictWeakOrder(less) && Legal(h, less)
    ensures RefinesMap(h, less)
  {
    match h
    case Fresh => EmptyEntries<K, V>();
    case Emplaced(g, k, v) => EmplaceRefinesMap(h, less);
    case Popped(g) => PopRefinesMap(h, less);
    case Raised(g, k, v) =>
      HistoryIsHeap(g, less);
      RaiseEntries(Heap(g, less), k, v, less);
      assert k in Entries(Heap(g, less));
    case Melded(g, o) =>
      HistoryIsHeap(g, less);
      HistoryIsHeap(o, less);
      MeldEntries(Heap(g, less), Heap(o, less), less);
    case Cleared(g) => EmptyEntries<K, V>();
  }

  lemma EmptyEntries<K, V>()
    ensures Entries(Tree<K, V>.Nil) == map[]
  {}

  /** The size counter counts the live handles. */
  lemma HistorySize<K, V(!new)>(h: History<K, V>, less: (V, V) -> bool)
    requires StrictWeakOrder(less) && Legal(h, less)
    ensures |Entries(Heap(h, less))| == Size(Heap(h, less))
  {
    HistoryIsHeap(h, less);
    DistinctSize(Heap(h, less));
    assert Entries(Heap(h, less)).Keys == Keys(Heap(h, less));
  }

  lemma EmplaceRefinesMap<K, V(!new)>(h: History<K, V>, less: (V, V) -> bool)
    requires StrictWeakOrder(less) && Legal(h, less) && h.Emplaced?
    ensures RefinesMap(h, less)
  {
    var t, node := Heap(h.before, less), Bin(h.key, h.value, Nil, Nil);
    HistoryIsHeap(h.before, less);
    MeldEntries(t, node, less);
    assert Entries(node) == map[h.key := h.value];
    assert Entries(t) + map[h.key := h.value] == Entries(t)[h.key := h.value];
  }

  lemma PopRefinesMap<K, V(!new)>(h: History<K, V>, less: (V, V) -> bool)
    requires StrictWeakOrder(less) && Legal(h, less) && h.Popped?
    ensures RefinesMap(h, less)
  {
    var t := Heap(h.before, less);
    HistoryIsHeap(h.before, less);
    if t.Bin? {
      var was := Entries(t);
      PopKeeps(t, less);
      TopIsGreatest(t, less);
      assert t.key in was;
      forall j | j in was ensures !less(was[t.key], was[j]) {
        assert !less(t.value, Lookup(t, j));
      }
    }
  }

  // ---------- Amortised cost ----------

  function Emplacements<K, V>(h: History<K, V>): nat {
    match h
    case Fresh => 0
    case Emplaced(g, _, _) => Emplacements(g) + 1
    case Popped(g) => Emplacements(g)
    case Raised(g, _, _) => Emplacements(g)
    case Melded(g, o) => Emplacements(g) + Emplacements(o)
    case Cleared(g) => Emplacements(g)
  }

  /** Comparator calls made by the whole history. */
  ghost function Comparisons<K, V>(h: History<K, V>, less: (V, V) -> bool): nat {
    match h
    case Fresh => 0
    case Emplaced(g, k, v) => Comparisons(g, less) + MeldComparisons(Heap(g, less), Bin(k, v, Nil, Nil))
    case Popped(g) =>
      var t := Heap(g, less);
      Comparisons(g, less) + if t.Nil? then 0 else CombineComparisons(t.child)
    case Raised(g, k, v) =>
      var t := Heap(g, less);
      Comparisons(g, less) + if k in Keys(t) then RaiseComparisons(t, k, v, less) else 0
    case Melded(g, o) =>
      Comparisons(g, less) + Comparisons(o, less) + MeldComparisons(Heap(g, less), Heap(o, less))
    case Cleared(g) => Comparisons(g, less)
  }

  /** What the operations are charged, in units of the logarithm of twice the number of emplacements. */
  function Charge<K, V>(h: History<K, V>): nat {
    match h
    case Fresh => 0
    case Emplaced(g, _, _) => Charge(g) + 1
    case Popped(g) => Charge(g) + 3
    case Raised(g, _, _) => Charge(g) + 3
    case Melded(g, o) => Charge(g) + Charge(o) + if Emplacements(g) > 0 && Emplacements(o) > 0 then 2 else 0
    case Cleared(g) => Charge(g)
  }

  lemma {:induction false} SizeBounded<K, V(!new)>(h: History<K, V>, less: (V, V) -> bool)
    requires StrictWeakOrder(less) && Legal(h, less)
    ensures Size(Heap(h, less)) <= Emplacements(h)
  {
    match h
    case Fresh =>
    case Emplaced(g, k, v) =>
      SizeBounded(g, less);
      MeldKeys(Heap(g, less), Bin(k, v, Nil, Nil), less);
    case Popped(g) =>
      SizeBounded(g, less);
      if Heap(g, less).Bin? { CombineKeys(Heap(g, less).child, less); }
    case Raised(g, k, v) =>
      SizeBounded(g, less);
      HistoryIsHeap(g, less);
      RaiseEntries(Heap(g, less), k, v, less);
    case Melded(g, o) =>
      SizeBounded(g, less);
      SizeBounded(o, less);
      MeldKeys(Heap(g, less), Heap(o, less), less);
    case Cleared(g) =>
  }

  /** `before` comparisons and potential within budget; the step multiplies the potential by `by` at `cost` comparisons. */
  lemma {:induction false} ChargeStep(n: nat, spent: nat, before: nat, budget: nat, cost: nat, after: nat, fee: nat)
    requires Pow(2, spent) * before <= Pow(2 * n, budget)
    requires Pow(2, cost) * after <= Pow(2 * n, fee) * before
    ensures Pow(2, spent + cost) * after <= Pow(2 * n, budget + fee)
  {
    hide Pow;
    PowAdd(2, spent, cost);
    PowAdd(2 * n, budget, fee);
    var a, b, c, d := Pow(2, spent), Pow(2, cost), Pow(2 * n, budget), Pow(2 * n, fee);
    Chain(a, b, c, d, before, after);
  }

  lemma Chain(a: nat, b: nat, c: nat, d: nat, before: nat, after: nat)
    requires a * before <= c && b * after <= d * before
    ensures a * b * after <= c * d
  {
    MulLe(a, a, b * after, d * before);
    MulLe(a * before, c, d, d);
    Regroup(a, b, after);
    Regroup(a, d, before);
  }

  lemma Regroup(a: nat, d: nat, before: nat)
    ensures a * (d * before) == a * d * before == a * before * d
  {}

  lemma SmallPowers(n: nat)
    ensures Pow(2, 0) == 1 && Pow(2, 1) == 2 && Pow(2, 2) == 4 && Pow(2, 3) == 8
    ensures Pow(2 * n, 1) == 2 * n && Pow(2 * n, 2) == 4 * (n * n) && Pow(2 * n, 3) == 8 * (n * n * n)
  {
    assert Pow(2, 1) == 2 * Pow(2, 0) && Pow(2, 2) == 2 * Pow(2, 1) && Pow(2, 3) == 2 * Pow(2, 2);
    var b := 2 * n;
    assert Pow(b, 1) == b * Pow(b, 0) && Pow(b, 2) == b * Pow(b, 1) && Pow(b, 3) == b * Pow(b, 2);
  }

  lemma {:induction false} EmplaceFee<K, V>(t: Tree<K, V>, k: K, v: V, less: (V, V) -> bool, n: nat)
    requires Single(t) && Size(t) + 1 <= n
    ensures var node := Bin(k, v, Nil, Nil);
      Pow(2, MeldComparisons(t, node)) * Potential(Meld(t, node, less)) <= Pow(2 * n, 1) * Potential(t)
  {
    hide Pow, Potential, Size, Meld;
    EmplacePotential(t, k, v, less);
    SmallPowers(n);
    var c, p := Pow(2, MeldComparisons(t, Bin(k, v, Nil, Nil))), Potential(t);
    MulLe(c, 2, (Size(t) + 1) * p, (Size(t) + 1) * p);
    MulLe(2 * (Size(t) + 1), 2 * n, p, p);
    Regroup(2, Size(t) + 1, p);
  }

  lemma {:induction false} PopFee<K, V>(t: Tree<K, V>, less: (V, V) -> bool, n: nat)
    requires Single(t) && t.Bin? && Size(t) <= n
    ensures Pow(2, CombineComparisons(t.child)) * Potential(Pop(t, less)) <= Pow(2 * n, 3) * Potential(t)
  {
    hide Pow, Potential, Size, Roots, Combine;
    var c, m, p := t.child, Size(t.child), Potential(t.child);
    SmallPowers(n);
    SinglePotential(t);
    PotentialPositive(c);
    MulLe(m, n, m, n);
    MulLe(m * m, n * n, m, n);
    MulLe(1, Size(t), p, p);
    MulLe(8 * (m * m * m), 8 * (n * n * n), p, Potential(t));
    if c.Nil? {
      MulLe(1, n, 1, n);
      MulLe(1, n * n, 1, n);
      EmptyPop(t, less);
      MulLe(1, 8 * (n * n * n), 1, Potential(t));
    } else {
      CombinePotential(c, less);
      HalfPow(Roots(c));
      assert Roots(c) >= 1 by { RootsPositive(c); }
      var e, q := Pow(2, Roots(c) - 1), Potential(Pop(t, less));
      assert 2 * e * q <= 4 * (m * m * m) * p;
      Halve(e, q, m * m * m, p);
    }
  }

  lemma EmptyPop<K, V>(t: Tree<K, V>, less: (V, V) -> bool)
    requires t.Bin? && t.child.Nil?
    ensures Potential(Pop(t, less)) == 1
  {}

  lemma RootsPositive<K, V>(t: Tree<K, V>)
    requires t.Bin?
    ensures Roots(t) >= 1
  {}

  lemma HalfPow(k: nat)
    ensures k >= 1 ==> Pow(2, k) == 2 * Pow(2, k - 1)
  {}

  lemma Halve(e: nat, q: nat, m: nat, p: nat)
    requires 2 * e * q <= 4 * m * p
    ensures e * q <= 8 * m * p
  {
    assert 2 * e * q == 2 * (e * q);
    assert 4 * m * p == 4 * (m * p) && 8 * m * p == 8 * (m * p);
  }

  lemma {:induction false} RaiseFee<K, V>(t: Tree<K, V>, k: K, v: V, less: (V, V) -> bool, n: nat)
    requires Single(t) && Distinct(t) && k in Keys(t) && Size(t) <= n && 1 <= n
    ensures var after := if less(v, Lookup(t, k)) then t else Raise(t, k, v, less);
      Pow(2, RaiseComparisons(t, k, v, less)) * Potential(after) <= Pow(2 * n, 3) * Potential(t)
  {
    hide Pow, Potential, Size, Raise;
    var after := if less(v, Lookup(t, k)) then t else Raise(t, k, v, less);
    var p := Potential(t);
    SmallPowers(n);
    RaisePotential(t, k, v, less);
    MulLe(1, n, p, p);
    MulLe(Size(t), n, p, p);
    EightCubes(Pow(2, RaiseComparisons(t, k, v, less)), Potential(after), n, p);
  }

  lemma EightCubes(c: nat, q: nat, n: nat, p: nat)
    requires c <= 8 && q <= n * p && n >= 1
    ensures c * q <= 8 * (n * n * n) * p
  {
    MulLe(c, 8, q, n * p);
    MulLe(1, n, 1, n);
    MulLe(1, n * n, n, n);
    MulLe(8 * n, 8 * (n * n * n), p, p);
    Regroup(8, n, p);
  }

  lemma {:induction false} MeldFee<K, V>(a: Tree<K, V>, b: Tree<K, V>, less: (V, V) -> bool, n: nat)
    requires Single(a) && Single(b) && Size(a) + Size(b) <= n && 1 <= n
    ensures Pow(2, MeldComparisons(a, b)) * Potential(Meld(a, b, less)) <= Pow(2 * n, 2) * (Potential(a) * Potential(b))
  {
    hide Pow, Potential, Size;
    SmallPowers(n);
    var p, q := Potential(a), Potential(b);
    if a.Nil? || b.Nil? {
      NilPotential<K, V>();
      MulLe(1, n, 1, n);
      MulLe(1, 4 * (n * n), p * q, p * q);
    } else {
      SinglePotential(a);
      SinglePotential(b);
      MeldPotential(a, b, less);
      var pa, pb, r := Potential(a.child), Potential(b.child), Size(a) + Size(b) - 1;
      TwoSquares(Size(a), Size(b), r, n, pa, pb);
    }
  }

  lemma TwoSquares(a: nat, b: nat, r: nat, n: nat, pa: nat, pb: nat)
    requires a >= 1 && b >= 1 && r + 1 <= n
    ensures 2 * ((r + 1) * (r * (pa * pb))) <= 4 * (n * n) * (a * pa * (b * pb))
  {
    var x, y := pa * pb, a * pa * (b * pb);
    MulLe(1, a, pa, pa);
    MulLe(1, b, pb, pb);
    MulLe(pa, a * pa, pb, b * pb);
    MulLe(r, n, x, y);
    MulLe(r + 1, n, r * x, n * y);
    Regroup(n, n, y);
    MulLe(2, 4, n * n * y, n * n * y);
    Regroup(4, n * n, y);
  }

  lemma NilPotential<K, V>()
    ensures Potential(Tree<K, V>.Nil) == 1
  {}

  /** Budgets of two heaps add up when they are melded. */
  lemma {:induction false} JoinBudgets(n: nat, spent: nat, spent': nat, p: nat, p': nat, budget: nat, budget': nat)
    requires Pow(2, spent) * p <= Pow(2 * n, budget) && Pow(2, spent') * p' <= Pow(2 * n, budget')
    ensures Pow(2, spent + spent') * (p * p') <= Pow(2 * n, budget + budget')
  {
    hide Pow;
    PowAdd(2, spent, spent');
    PowAdd(2 * n, budget, budget');
    var a, b := Pow(2, spent), Pow(2, spent');
    MulLe(a * p, Pow(2 * n, budget), b * p', Pow(2 * n, budget'));
    assert a * p * (b * p') == a * b * (p * p');
  }

  lemma {:induction false} JoinStep(n: nat, spent: nat, spent': nat, p: nat, p': nat, budget: nat, budget': nat, cost: nat, after: nat)
    requires Pow(2, spent) * p <= Pow(2 * n, budget) && Pow(2, spent') * p' <= Pow(2 * n, budget')
    requires Pow(2, cost) * after <= Pow(2 * n, 2) * (p * p')
    ensures Pow(2, spent + spent' + cost) * after <= Pow(2 * n, budget + budget' + 2)
  {
    hide Pow;
    JoinBudgets(n, spent, spent', p, p', budget, budget');
    ChargeStep(n, spent + spent', p * p', budget + budget', cost, after, 2);
  }

  /** The potential pays: with at most `n` emplacements, comparisons stay within the charges. */
  lemma {:induction false} ChargesCover<K, V(!new)>(h: History<K, V>, less: (V, V) -> bool, n: nat)
    requires StrictWeakOrder(less) && Legal(h, less) && Emplacements(h) <= n && 1 <= n
    ensures Covered(h, less, n)
  {
    hide Pow, Potential;
    match h
    case Fresh =>
      SmallPowers(n);
      NilPotential<K, V>();
      ZeroPow(2 * n);
    case Emplaced(g, k, v) =>
      ChargesCover(g, less, n);
      EmplacedCovered(h, less, n);
    case Popped(g) =>
      ChargesCover(g, less, n);
      PoppedCovered(h, less, n);
    case Raised(g, k, v) =>
      ChargesCover(g, less, n);
      RaisedCovered(h, less, n);
    case Melded(g, o) =>
      ChargesCover(g, less, n);
      ChargesCover(o, less, n);
      MeldedCovered(h, less, n);
    case Cleared(g) =>
      ChargesCover(g, less, n);
      NilPotential<K, V>();
      PotentialPositive(Heap(g, less));
      MulLe(Pow(2, Comparisons(g, less)), Pow(2, Comparisons(g, less)), 1, Potential(Heap(g, less)));
  }

  ghost predicate Covered<K, V>(h: History<K, V>, less: (V, V) -> bool, n: nat) {
    Pow(2, Comparisons(h, less)) * Potential(Heap(h, less)) <= Pow(2 * n, Charge(h))
  }

  lemma {:induction false} EmplacedCovered<K, V(!new)>(h: History<K, V>, less: (V, V) -> bool, n: nat)
    requires StrictWeakOrder(less) && Legal(h, less) && Emplacements(h) <= n && 1 <= n
    requires h.Emplaced? && Covered(h.before, less, n)
    ensures Covered(h, less, n)
  {
    hide Pow, Potential, Meld;
    var g := h.before;
    var t, node := Heap(g, less), Bin(h.key, h.value, Nil, Nil);
    SizeBounded(g, less);
    EmplaceFee(t, h.key, h.value, less, n);
    ChargeStep(n, Comparisons(g, less), Potential(t), Charge(g), MeldComparisons(t, node), Potential(Meld(t, node, less)), 1);
  }

  lemma {:induction false} PoppedCovered<K, V(!new)>(h: History<K, V>, less: (V, V) -> bool, n: nat)
    requires StrictWeakOrder(less) && Legal(h, less) && Emplacements(h) <= n && 1 <= n
    requires h.Popped? && Covered(h.before, less, n)
    ensures Covered(h, less, n)
  {
    hide Pow, Potential, Pop, CombineComparisons, StrictWeakOrder;
    var g := h.before;
    var t, spent := Heap(g, less), Comparisons(g, less);
    SizeBounded(g, less);
    if t.Nil? {
      FreeStep(n, Potential(t));
      ChargeStep(n, spent, Potential(t), Charge(g), 0, Potential(t), 3);
    } else {
      PopFee(t, less, n);
      ChargeStep(n, spent, Potential(t), Charge(g), CombineComparisons(t.child), Potential(Pop(t, less)), 3);
    }
  }

  lemma {:induction false} RaisedCovered<K, V(!new)>(h: History<K, V>, less: (V, V) -> bool, n: nat)
    requires StrictWeakOrder(less) && Legal(h, less) && Emplacements(h) <= n && 1 <= n
    requires h.Raised? && Covered(h.before, less, n)
    ensures Covered(h, less, n)
  {
    hide Pow, Potential, Raise, RaiseComparisons;
    var g := h.before;
    var t := Heap(g, less);
    SizeBounded(g, less);
    HistoryIsHeap(g, less);
    RaiseFee(t, h.key, h.value, less, n);
    ChargeStep(n, Comparisons(g, less), Potential(t), Charge(g), RaiseComparisons(t, h.key, h.value, less),
               Potential(Heap(h, less)), 3);
  }

  lemma {:induction false} MeldedCovered<K, V(!new)>(h: History<K, V>, less: (V, V) -> bool, n: nat)
    requires StrictWeakOrder(less) && Legal(h, less) && Emplacements(h) <= n && 1 <= n
    requires h.Melded? && Covered(h.before, less, n) && Covered(h.other, less, n)
    ensures Covered(h, less, n)
  {
    hide Pow, Potential, Meld, MeldComparisons;
    var g, o := h.before, h.other;
    var t, u := Heap(g, less), Heap(o, less);
    SizeBounded(g, less);
    SizeBounded(o, less);
    if Emplacements(g) > 0 && Emplacements(o) > 0 {
      MeldFee(t, u, less, n);
      JoinStep(n, Comparisons(g, less), Comparisons(o, less), Potential(t), Potential(u), Charge(g), Charge(o),
               MeldComparisons(t, u), Potential(Meld(t, u, less)));
    } else {
      MeldWithNothing(t, u, less);
      JoinBudgets(n, Comparisons(g, less), Comparisons(o, less), Potential(t), Potential(u), Charge(g), Charge(o));
    }
  }

  /** Melding with an empty heap costs nothing. */
  lemma MeldWithNothing<K, V>(t: Tree<K, V>, u: Tree<K, V>, less: (V, V) -> bool)
    requires Single(t) && Single(u) && (Size(t) == 0 || Size(u) == 0)
    ensures MeldComparisons(t, u) == 0 && Potential(Meld(t, u, less)) == Potential(t) * Potential(u)
  {}

  lemma ZeroPow(b: nat)
    ensures Pow(b, 0) == 1
  {}

  lemma FreeStep(n: nat, p: nat)
    requires 1 <= n
    ensures Pow(2, 0) * p <= Pow(2 * n, 3) * p
  {
    hide Pow;
    SmallPowers(n);
    MulLe(1, n, 1, n);
    MulLe(1, n * n, 1, n);
    MulLe(1, 8 * (n * n * n), p, p);
  }

  /** Amortised logarithmic cost of every run: with `n` emplacements in all, the comparator calls of the whole
      history are at most `log2(2n)` for each emplacement, `3 log2(2n)` for each pop and each raise, and
      `2 log2(2n)` for each meld of two heaps into which something was put. */
  lemma AmortisedComparisons<K, V(!new)>(h: History<K, V>, less: (V, V) -> bool)
    requires StrictWeakOrder(less) && Legal(h, less) && Emplacements(h) >= 1
    ensures Pow(2, Comparisons(h, less)) <= Pow(2 * Emplacements(h), Charge(h))
  {
    hide Pow, Potential;
    var n := Emplacements(h);
    ChargesCover(h, less, n);
    PotentialPositive(Heap(h, less));
    MulLe(Pow(2, Comparisons(h, less)), Pow(2, Comparisons(h, less)), 1, Potential(Heap(h, less)));
  }

  function Pops<K, V>(h: History<K, V>): nat {
    match h
    case Fresh => 0
    case Emplaced(g, _, _) => Pops(g)
    case Popped(g) => Pops(g) + 1
    case Raised(g, _, _) => Pops(g)
    case Melded(g, o) => Pops(g) + Pops(o)
    case Cleared(g) => Pops(g)
  }

  function Raises<K, V>(h: History<K, V>): nat {
    match h
    case Fresh => 0
    case Emplaced(g, _, _) => Raises(g)
    case Popped(g) => Raises(g)
    case Raised(g, _, _) => Raises(g) + 1
    case Melded(g, o) => Raises(g) + Raises(o)
    case Cleared(g) => Raises(g)
  }

  /** Every meld that costs anything joins two heaps into which something was put, so the emplacements can pay for it. */
  lemma {:induction false} MeldsArePaid<K, V>(h: History<K, V>)
    ensures Charge(h) + (if Emplacements(h) > 0 then 2 else 0) <= 3 * (Emplacements(h) + Pops(h) + Raises(h))
  {
    match h
    case Fresh =>
    case Emplaced(g, _, _) => MeldsArePaid(g);
    case Popped(g) => MeldsArePaid(g);
    case Raised(g, _, _) => MeldsArePaid(g);
    case Melded(g, o) =>
      MeldsArePaid(g);
      MeldsArePaid(o);
    case Cleared(g) => MeldsArePaid(g);
  }

  /** Melds are free: with `n` emplacements in all, the comparator calls of a whole history are at most `3 log2(2n)` for
      each emplacement, pop and raise, however many melds there are. */
  lemma {:induction false} MeldsAreFree<K, V(!new)>(h: History<K, V>, less: (V, V) -> bool)
    requires StrictWeakOrder(less) && Legal(h, less) && Emplacements(h) >= 1
    ensures Pow(2, Comparisons(h, less)) <= Pow(2 * Emplacements(h), 3 * (Emplacements(h) + Pops(h) + Raises(h)))
  {
    hide Pow;
    var n, charge, more := Emplacements(h), Charge(h), 3 * (Emplacements(h) + Pops(h) + Raises(h)) - Charge(h);
    AmortisedComparisons(h, less);
    MeldsArePaid(h);
    PowAdd(2 * n, charge, more);
    PowPositive(2 * n, more);
    MulLe(Pow(2 * n, charge), Pow(2 * n, charge), 1, Pow(2 * n, more));
  }

  lemma {:induction false} PowPositive(base: nat, e: nat)
    requires base >= 1
    ensures Pow(base, e) >= 1
  {
    if e > 0 {
      PowPositive(base, e - 1);
      MulLe(1, base, 1, Pow(base, e - 1));
    }
  }

  // ---------- A heap object and its history ----------

  /** The tree and the comparator calls so far are those of the history. */
  ghost predicate Tracks<K, V>(h: History<K, V>, t: Tree<K, V>, comparisons: nat, less: (V, V) -> bool) {
    Legal(h, less) && Heap(h, less) == t && Comparisons(h, less) == comparisons
  }

  lemma NothingTracks<K, V>(less: (V, V) -> bool)
    ensures Tracks(History<K, V>.Fresh, Nil, 0, less)
  {}

  lemma EmplaceTracks<K, V>(h: History<K, V>, t: Tree<K, V>, c: nat, less: (V, V) -> bool, k: K, v: V)
    requires Tracks(h, t, c, less) && Single(t) && k !in Keys(t)
    ensures var node := Bin(k, v, Nil, Nil);
      Tracks(Emplaced(h, k, v), Meld(t, node, less), c + MeldComparisons(t, node), less)
  {}

  lemma PopTracks<K, V>(h: History<K, V>, t: Tree<K, V>, c: nat, less: (V, V) -> bool)
    requires Tracks(h, t, c, less)
    ensures t.Nil? ==> Tracks(Popped(h), t, c, less)
    ensures t.Bin? ==> Tracks(Popped(h), Pop(t, less), c + CombineComparisons(t.child), less)
  {}

  lemma RaiseTracks<K, V>(h: History<K, V>, t: Tree<K, V>, c: nat, less: (V, V) -> bool, k: K, v: V)
    requires Tracks(h, t, c, less) && Single(t) && k in Keys(t)
    ensures Tracks(
      Raised(h, k, v), if less(v, Lookup(t, k)) then t else Raise(t, k, v, less), c + RaiseComparisons(t, k, v, less), less)
  {}

  lemma MeldTracks<K, V>(
      h: History<K, V>, t: Tree<K, V>, c: nat, o: History<K, V>, u: Tree<K, V>, d: nat, less: (V, V) -> bool)
    requires Tracks(h, t, c, less) && Tracks(o, u, d, less) && Single(t) && Single(u) && Keys(t) !! Keys(u)
    ensures Tracks(Melded(h, o), Meld(t, u, less), c + d + MeldComparisons(t, u), less)
  {}

  lemma ClearTracks<K, V>(h: History<K, V>, t: Tree<K, V>, c: nat, less: (V, V) -> bool)
    requires Tracks(h, t, c, less)
    ensures Tracks(Cleared(h), Nil, c, less)
  {}
}
