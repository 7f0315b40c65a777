/** The value a pairing heap stands for.
    A heap is a tree in child/sibling form: `child` is the first child, `sibling` the next sibling, so one `Tree`
    is also a list of trees.  Keys stand for nodes (handles), values for what the nodes hold. */
module PairingTree {
  import opened Orders

  datatype Tree<K, V> = Nil | Bin(key: K, value: V, child: Tree<K, V>, sibling: Tree<K, V>)

  // ---------- What a tree holds ----------

  function Size<K, V>(t: Tree<K, V>): nat {
    match t
    case Nil => 0
    case Bin(_, _, c, s) => 1 + Size(c) + Size(s)
  }

  /** The number of roots in a sibling list. */
  function Roots<K, V>(t: Tree<K, V>): nat {
    match t
    case Nil => 0
    case Bin(_, _, _, s) => 1 + Roots(s)
  }

  ghost function Keys<K, V>(t: Tree<K, V>): set<K> {
    match t
    case Nil => {}
    case Bin(k, _, c, s) => {k} + Keys(c) + Keys(s)
  }

  ghost function Lookup<K, V>(t: Tree<K, V>, k: K): V
    requires k in Keys(t)
  {
    if k == t.key then t.value
    else if k in Keys(t.child) then Lookup(t.child, k)
    else Lookup(t.sibling, k)
  }

  /** What the heap stands for: each key with its value. */
  ghost function Entries<K, V>(t: Tree<K, V>): map<K, V> {
    map k | k in Keys(t) :: Lookup(t, k)
  }

  /** No key occurs twice. */
  ghost predicate Distinct<K, V>(t: Tree<K, V>) {
    match t
    case Nil => true
    case Bin(k, _, c, s) =>
      && k !in Keys(c) && k !in Keys(s) && Keys(c) !! Keys(s)
      && Distinct(c) && Distinct(s)
  }

  /** Every tree in the list `t` is heap ordered. */
  ghost predicate Ordered<K, V>(t: Tree<K, V>, less: (V, V) -> bool) {
    match t
    case Nil => true
    case Bin(_, v, c, s) => Under(c, v, less) && Ordered(s, less)
  }

  /** Every tree in the list `t` is heap ordered, and `above` is outranked by none of its roots. */
  ghost predicate Under<K, V>(t: Tree<K, V>, above: V, less: (V, V) -> bool) {
    match t
    case Nil => true
    case Bin(_, v, c, s) => !less(above, v) && Under(c, v, less) && Under(s, above, less)
  }

  /** At most one root. */
  predicate Single<K, V>(t: Tree<K, V>) {
    t.Nil? || t.sibling.Nil?
  }

  ghost predicate IsHeap<K, V>(t: Tree<K, V>, less: (V, V) -> bool) {
    Single(t) && Distinct(t) && Ordered(t, less)
  }

  lemma {:induction false} UnderIsOrdered<K, V>(t: Tree<K, V>, above: V, less: (V, V) -> bool)
    requires Under(t, above, less)
    ensures Ordered(t, less)
  {
    if t.Bin? { UnderIsOrdered(t.sibling, above, less); }
  }

  lemma {:induction false} DistinctSize<K, V>(t: Tree<K, V>)
    requires Distinct(t)
    ensures |Keys(t)| == Size(t)
  {
    if t.Bin? {
      DistinctSize(t.child);
      DistinctSize(t.sibling);
      assert Keys(t) == {t.key} + (Keys(t.child) + Keys(t.sibling));
    }
  }

  /** Heap order reaches all the way down: nothing below `above` outranks it. */
  lemma {:induction false} NothingOutranksAbove<K, V(!new)>(t: Tree<K, V>, above: V, less: (V, V) -> bool)
    requires StrictWeakOrder(less) && Under(t, above, less)
    ensures forall k :: k in Keys(t) ==> !less(above, Lookup(t, k))
  {
    if t.Bin? {
      NothingOutranksAbove(t.child, t.value, less);
      NothingOutranksAbove(t.sibling, above, less);
      forall k | k in Keys(t) ensures !less(above, Lookup(t, k)) {
        if k in Keys(t.child) { assert !less(t.value, Lookup(t.child, k)); }
      }
    }
  }

  // ---------- Melding ----------

  /** `loser` becomes the first child of `winner`. */
  function Link<K, V>(winner: Tree<K, V>, loser: Tree<K, V>): Tree<K, V>
    requires winner.Bin? && loser.Bin?
  {
    Bin(winner.key, winner.value, Bin(loser.key, loser.value, loser.child, winner.child), Nil)
  }

  function Meld<K, V>(a: Tree<K, V>, b: Tree<K, V>, less: (V, V) -> bool): (r: Tree<K, V>)
    requires Single(a) && Single(b)
    ensures Single(r)
  {
    if a.Nil? then b
    else if b.Nil? then a
    else if less(a.value, b.value) then Link(b, a)
    else Link(a, b)
  }

  lemma LinkKeys<K, V>(w: Tree<K, V>, l: Tree<K, V>)
    requires w.Bin? && l.Bin? && Single(w) && Single(l)
    ensures Size(Link(w, l)) == Size(w) + Size(l)
    ensures Keys(Link(w, l)) == Keys(w) + Keys(l)
    ensures Keys(w) !! Keys(l) && Distinct(w) && Distinct(l) ==> Distinct(Link(w, l))
  {
    var c := Link(w, l).child;
    assert Size(c) == 1 + Size(l.child) + Size(w.child);
    assert Keys(c) == {l.key} + Keys(l.child) + Keys(w.child);
    assert Keys(w) == {w.key} + Keys(w.child);
    assert Keys(l) == {l.key} + Keys(l.child);
  }

  lemma LinkLookup<K, V>(w: Tree<K, V>, l: Tree<K, V>, k: K)
    requires w.Bin? && l.Bin? && Single(w) && Single(l) && Distinct(w) && Distinct(l) && Keys(w) !! Keys(l)
    requires k in Keys(w) || k in Keys(l)
    ensures k in Keys(Link(w, l))
    ensures Lookup(Link(w, l), k) == if k in Keys(w) then Lookup(w, k) else Lookup(l, k)
  {
    LinkKeys(w, l);
    var c := Link(w, l).child;
    assert Keys(c) == {l.key} + Keys(l.child) + Keys(w.child);
  }

  lemma MeldKeys<K, V>(a: Tree<K, V>, b: Tree<K, V>, less: (V, V) -> bool)
    requires Single(a) && Single(b)
    ensures var m := Meld(a, b, less);
      && Size(m) == Size(a) + Size(b) && Keys(m) == Keys(a) + Keys(b)
      && (Keys(a) !! Keys(b) && Distinct(a) && Distinct(b) ==> Distinct(m))
  {
    if a.Bin? && b.Bin? {
      if less(a.value, b.value) { LinkKeys(b, a); } else { LinkKeys(a, b); }
    }
  }

  lemma MeldEntries<K, V>(a: Tree<K, V>, b: Tree<K, V>, less: (V, V) -> bool)
    requires Single(a) && Single(b) && Keys(a) !! Keys(b) && Distinct(a) && Distinct(b)
    ensures Entries(Meld(a, b, less)) == Entries(a) + Entries(b)
  {
    MeldKeys(a, b, less);
    var m := Meld(a, b, less);
    forall k | k in Keys(m)
      ensures Entries(m)[k] == (Entries(a) + Entries(b))[k]
    {
      if a.Bin? && b.Bin? {
        if less(a.value, b.value) { LinkLookup(b, a, k); } else { LinkLookup(a, b, k); }
      }
    }
  }

  lemma MeldOrdered<K, V(!new)>(a: Tree<K, V>, b: Tree<K, V>, less: (V, V) -> bool)
    requires Single(a) && Single(b)
    requires StrictWeakOrder(less) && Ordered(a, less) && Ordered(b, less)
    ensures Ordered(Meld(a, b, less), less)
  {}

  /** Melding two heaps makes one heap of all entries. */
  lemma MeldIsHeap<K, V(!new)>(a: Tree<K, V>, b: Tree<K, V>, less: (V, V) -> bool)
    requires StrictWeakOrder(less) && IsHeap(a, less) && IsHeap(b, less) && Keys(a) !! Keys(b)
    ensures Single(a) && Single(b) && Distinct(a) && Distinct(b)
    ensures var m := Meld(a, b, less);
      && IsHeap(m, less) && Size(m) == Size(a) + Size(b) && Keys(m) == Keys(a) + Keys(b)
      && Entries(m) == Entries(a) + Entries(b)
  {
    MeldKeys(a, b, less);
    MeldOrdered(a, b, less);
    MeldEntries(a, b, less);
  }

  /** On a tie the first tree stays on top. */
  lemma MeldTop<K, V>(a: Tree<K, V>, b: Tree<K, V>, less: (V, V) -> bool)
    requires Single(a) && Single(b) && (a.Bin? || b.Bin?)
    ensures Meld(a, b, less).Bin?
    ensures Meld(a, b, less).key == if a.Nil? || (b.Bin? && less(a.value, b.value)) then b.key else a.key
  {}

  lemma SingletonIsHeap<K, V>(k: K, v: V, less: (V, V) -> bool)
    ensures var node := Bin(k, v, Nil, Nil);
      IsHeap(node, less) && Size(node) == 1 && Keys(node) == {k} && Entries(node) == map[k := v]
  {}

  // ---------- Two-pass combining ----------

  /** The first root of a list, without its siblings. */
  function Alone<K, V>(t: Tree<K, V>): Tree<K, V>
    requires t.Bin?
  {
    t.(sibling := Nil)
  }

  /** The first two roots are melded, and the result with what becomes of all the others. */
  function Combine<K, V>(t: Tree<K, V>, less: (V, V) -> bool): (r: Tree<K, V>)
    ensures Single(r)
  {
    if t.Nil? || t.sibling.Nil? then t
    else Meld(PairOf(t, less), Combine(t.sibling.sibling, less), less)
  }

  /** The meld of the first two roots. */
  function PairOf<K, V>(t: Tree<K, V>, less: (V, V) -> bool): (r: Tree<K, V>)
    requires t.Bin? && t.sibling.Bin?
    ensures r.Bin? && Single(r)
  {
    Meld(Alone(t), Alone(t.sibling), less)
  }

  /** The pairing loop as it runs: what comes of each pair is put on top of `stack`. */
  function PairPass<K, V>(t: Tree<K, V>, stack: Tree<K, V>, less: (V, V) -> bool): Tree<K, V> {
    if t.Nil? then stack
    else if t.sibling.Nil? then t.(sibling := stack)
    else var pair := PairOf(t, less); PairPass(t.sibling.sibling, pair.(sibling := stack), less)
  }

  /** The other loop as it runs: the stack is melded, top first, into `result`. */
  function MeldPass<K, V>(stack: Tree<K, V>, result: Tree<K, V>, less: (V, V) -> bool): Tree<K, V>
    requires Single(result)
  {
    if stack.Nil? then result
    else
      MeldPass(stack.sibling, Meld(Alone(stack), result, less), less)
  }

  /** The two passes over the reversed stack compute `Combine`. */
  lemma {:induction false} PassesCombine<K, V>(t: Tree<K, V>, stack: Tree<K, V>, less: (V, V) -> bool)
    ensures MeldPass(PairPass(t, stack, less), Nil, less) == MeldPass(stack, Combine(t, less), less)
  {
    if t.Bin? && t.sibling.Bin? {
      var pair := PairOf(t, less);
      PassesCombine(t.sibling.sibling, pair.(sibling := stack), less);
      assert Alone(pair.(sibling := stack)) == pair;
    } else if t.Bin? {
      assert Alone(t.(sibling := stack)) == t;
    }
  }

  /** A list is its first tree and the rest. */
  lemma SplitFirst<K, V>(t: Tree<K, V>)
    requires Distinct(t) && t.Bin?
    ensures Distinct(Alone(t)) && Distinct(t.sibling) && Keys(Alone(t)) !! Keys(t.sibling)
    ensures Keys(t) == Keys(Alone(t)) + Keys(t.sibling) && Size(t) == Size(Alone(t)) + Size(t.sibling)
    ensures Entries(t) == Entries(Alone(t)) + Entries(t.sibling)
  {}

  lemma {:induction false} CombineKeys<K, V>(t: Tree<K, V>, less: (V, V) -> bool)
    ensures Size(Combine(t, less)) == Size(t) && Keys(Combine(t, less)) == Keys(t)
    ensures Distinct(t) ==> Distinct(Combine(t, less))
  {
    if t.Bin? && t.sibling.Bin? {
      CombineKeys(t.sibling.sibling, less);
      MeldKeys(Alone(t), Alone(t.sibling), less);
      MeldKeys(PairOf(t, less), Combine(t.sibling.sibling, less), less);
      if Distinct(t) {
        SplitFirst(t);
        SplitFirst(t.sibling);
      }
    }
  }

  /** Combining keeps every entry. */
  lemma {:induction false} CombineEntries<K, V>(t: Tree<K, V>, less: (V, V) -> bool)
    requires Distinct(t)
    ensures Entries(Combine(t, less)) == Entries(t)
  {
    if t.Bin? && t.sibling.Bin? {
      var x, y, rest := Alone(t), Alone(t.sibling), t.sibling.sibling;
      SplitFirst(t);
      SplitFirst(t.sibling);
      CombineEntries(rest, less);
      CombineKeys(rest, less);
      MeldKeys(x, y, less);
      MeldEntries(x, y, less);
      MeldEntries(PairOf(t, less), Combine(rest, less), less);
      assert Entries(x) + (Entries(y) + Entries(rest)) == Entries(x) + Entries(y) + Entries(rest);
    }
  }

  /** Combining a list of heaps yields one heap. */
  lemma {:induction false} CombineOrdered<K, V(!new)>(t: Tree<K, V>, less: (V, V) -> bool)
    requires StrictWeakOrder(less) && Ordered(t, less)
    ensures Ordered(Combine(t, less), less)
  {
    if t.Bin? && t.sibling.Bin? {
      CombineOrdered(t.sibling.sibling, less);
      MeldOrdered(Alone(t), Alone(t.sibling), less);
      MeldOrdered(PairOf(t, less), Combine(t.sibling.sibling, less), less);
    }
  }

  /** The first tree after `i` others in a list. */
  function RootAt<K, V>(t: Tree<K, V>, i: nat): (r: Tree<K, V>)
    requires i < Roots(t)
    ensures r.Bin?
  {
    if i == 0 then t else RootAt(t.sibling, i - 1)
  }

  /** Which root of a list comes out on top: the first of those that no other outranks. */
  function Winner<K, V>(t: Tree<K, V>, less: (V, V) -> bool): (i: nat)
    requires t.Bin?
    ensures i < Roots(t)
  {
    if t.sibling.Nil? then 0
    else
      var w := Winner(t.sibling, less);
      if less(t.value, RootAt(t.sibling, w).value) then w + 1 else 0
  }

  lemma {:induction false} WinnerIsFirst<K, V(!new)>(t: Tree<K, V>, less: (V, V) -> bool)
    requires StrictWeakOrder(less) && t.Bin?
    ensures var w := Winner(t, less);
      && (forall j :: 0 <= j < w ==> less(RootAt(t, j).value, RootAt(t, w).value))
      && (forall j :: w < j < Roots(t) ==> !less(RootAt(t, w).value, RootAt(t, j).value))
  {
    if t.sibling.Bin? {
      WinnerIsFirst(t.sibling, less);
      var w, v := Winner(t, less), Winner(t.sibling, less);
      forall j | 0 <= j < w ensures less(RootAt(t, j).value, RootAt(t, w).value) {
        if j > 0 { assert RootAt(t, j) == RootAt(t.sibling, j - 1); }
      }
      forall j | w < j < Roots(t) ensures !less(RootAt(t, w).value, RootAt(t, j).value) {
        assert RootAt(t, j) == RootAt(t.sibling, j - 1);
        if w == 0 && j - 1 < v { assert less(RootAt(t.sibling, j - 1).value, RootAt(t.sibling, v).value); }
      }
    }
  }

  /** Combining puts the first root that no other outranks on top, whatever ties there are. */
  lemma {:induction false} CombineTop<K, V(!new)>(t: Tree<K, V>, less: (V, V) -> bool)
    requires StrictWeakOrder(less) && t.Bin?
    ensures var r, w := Combine(t, less), RootAt(t, Winner(t, less));
      r.Bin? && r.key == w.key && r.value == w.value
  {
    if t.sibling.Bin? && t.sibling.sibling.Bin? {
      CombineTop(t.sibling.sibling, less);
    }
  }

  /** Removing the root of a heap. */
  function Pop<K, V>(t: Tree<K, V>, less: (V, V) -> bool): (r: Tree<K, V>)
    requires t.Bin?
    ensures Single(r)
  {
    Combine(t.child, less)
  }

  /** Popping removes exactly the root's entry and leaves a heap. */
  lemma PopKeeps<K, V(!new)>(t: Tree<K, V>, less: (V, V) -> bool)
    requires StrictWeakOrder(less) && IsHeap(t, less) && t.Bin?
    ensures Single(t) && Distinct(t)
    ensures var r := Pop(t, less);
      && IsHeap(r, less) && Size(r) == Size(t) - 1 && Keys(r) == Keys(t) - {t.key}
      && Entries(r) == Entries(t) - {t.key}
  {
    UnderIsOrdered(t.child, t.value, less);
    CombineKeys(t.child, less);
    CombineEntries(t.child, less);
    CombineOrdered(t.child, less);
  }

  /** The root is an entry that no entry outranks. */
  lemma TopIsGreatest<K, V(!new)>(t: Tree<K, V>, less: (V, V) -> bool)
    requires StrictWeakOrder(less) && IsHeap(t, less) && t.Bin?
    ensures t.key in Entries(t) && Entries(t)[t.key] == t.value
    ensures forall k :: k in Keys(t) ==> !less(t.value, Lookup(t, k))
  {
    NothingOutranksAbove(t.child, t.value, less);
  }

  // ---------- Raising a priority in place ----------

  /** `t` with the value at `k` replaced. */
  ghost function Assign<K, V>(t: Tree<K, V>, k: K, v: V): Tree<K, V>
    requires k in Keys(t)
  {
    if k == t.key then t.(value := v)
    else if k in Keys(t.child) then t.(child := Assign(t.child, k, v))
    else t.(sibling := Assign(t.sibling, k, v))
  }

  /** `t` without the subtree at `k`; the siblings of `k` close up. */
  ghost function Detach<K, V>(t: Tree<K, V>, k: K): Tree<K, V>
    requires k in Keys(t)
  {
    if k == t.key then t.sibling
    else if k in Keys(t.child) then t.(child := Detach(t.child, k))
    else t.(sibling := Detach(t.sibling, k))
  }

  /** `k` with everything below it. */
  ghost function Subtree<K, V>(t: Tree<K, V>, k: K): (r: Tree<K, V>)
    requires k in Keys(t)
    ensures Single(r) && r.Bin? && r.key == k
  {
    if k == t.key then Alone(t)
    else if k in Keys(t.child) then Subtree(t.child, k)
    else Subtree(t.sibling, k)
  }

  /** The value of the parent of `k`, where `above` is the value over the roots of `t`. */
  ghost function Above<K, V>(t: Tree<K, V>, k: K, above: V): V
    requires k in Keys(t)
  {
    if k == t.key then above
    else if k in Keys(t.child) then Above(t.child, k, t.value)
    else Above(t.sibling, k, above)
  }

  /** Give `k` the value `v`; when that outranks its parent, cut its subtree out and meld it with the rest. */
  ghost function Raise<K, V>(t: Tree<K, V>, k: K, v: V, less: (V, V) -> bool): (r: Tree<K, V>)
    requires Single(t) && k in Keys(t)
    ensures Single(r)
  {
    AssignKeys(t, k, v);
    var t' := Assign(t, k, v);
    assert Keys(t.sibling) == {};
    if k == t.key || !less(Above(t.child, k, t.value), v) then t'
    else Meld(Detach(t', k), Subtree(t', k), less)
  }

  lemma {:induction false} AssignKeys<K, V>(t: Tree<K, V>, k: K, v: V)
    requires k in Keys(t)
    ensures var t' := Assign(t, k, v);
      Keys(t') == Keys(t) && Size(t') == Size(t) && (Distinct(t) ==> Distinct(t')) && (Single(t) ==> Single(t'))
  {
    if k == t.key {
    } else if k in Keys(t.child) {
      AssignKeys(t.child, k, v);
    } else {
      AssignKeys(t.sibling, k, v);
    }
  }

  lemma {:induction false} AssignLookup<K, V>(t: Tree<K, V>, k: K, v: V, j: K)
    requires k in Keys(t) && j in Keys(t) && Distinct(t)
    ensures j in Keys(Assign(t, k, v))
    ensures Lookup(Assign(t, k, v), j) == if j == k then v else Lookup(t, j)
  {
    AssignKeys(t, k, v);
    if k in Keys(t.child) {
      AssignKeys(t.child, k, v);
      if j in Keys(t.child) { AssignLookup(t.child, k, v, j); }
    } else if k in Keys(t.sibling) {
      AssignKeys(t.sibling, k, v);
      if j in Keys(t.sibling) { AssignLookup(t.sibling, k, v, j); }
    }
  }

  /** Detaching splits the keys and their values between the rest and the subtree. */
  lemma {:induction false} DetachKeys<K, V>(t: Tree<K, V>, k: K)
    requires k in Keys(t) && Distinct(t)
    ensures var d, s := Detach(t, k), Subtree(t, k);
      && Keys(t) == Keys(d) + Keys(s) && Keys(d) !! Keys(s) && Distinct(d) && Distinct(s)
      && Size(t) == Size(d) + Size(s)
  {
    if k == t.key {
    } else if k in Keys(t.child) {
      DetachKeys(t.child, k);
    } else {
      DetachKeys(t.sibling, k);
    }
  }

  lemma {:induction false} DetachLookup<K, V>(t: Tree<K, V>, k: K, j: K)
    requires k in Keys(t) && j in Keys(t) && Distinct(t)
    ensures var d, s := Detach(t, k), Subtree(t, k);
      && (j in Keys(d) ==> Lookup(t, j) == Lookup(d, j))
      && (j in Keys(s) ==> Lookup(t, j) == Lookup(s, j))
  {
    DetachKeys(t, k);
    if k in Keys(t.child) {
      DetachKeys(t.child, k);
      if j in Keys(t.child) { DetachLookup(t.child, k, j); }
    } else if k in Keys(t.sibling) {
      DetachKeys(t.sibling, k);
      if j in Keys(t.sibling) { DetachLookup(t.sibling, k, j); }
    }
  }

  lemma {:induction false} UnderWeaker<K, V(!new)>(t: Tree<K, V>, a: V, b: V, less: (V, V) -> bool)
    requires StrictWeakOrder(less) && Under(t, a, less) && !less(b, a)
    ensures Under(t, b, less)
  {
    if t.Bin? { UnderWeaker(t.sibling, a, b, less); }
  }

  /** A raised value that its parent still covers leaves the order intact. */
  lemma {:induction false} AssignUnder<K, V(!new)>(t: Tree<K, V>, k: K, v: V, above: V, less: (V, V) -> bool)
    requires StrictWeakOrder(less) && Under(t, above, less) && k in Keys(t)
    requires !less(v, Lookup(t, k)) && !less(Above(t, k, above), v)
    ensures Under(Assign(t, k, v), above, less)
  {
    if k == t.key {
      UnderWeaker(t.child, t.value, v, less);
    } else if k in Keys(t.child) {
      AssignUnder(t.child, k, v, t.value, less);
    } else {
      AssignUnder(t.sibling, k, v, above, less);
    }
  }

  lemma {:induction false} DetachUnder<K, V>(t: Tree<K, V>, k: K, above: V, less: (V, V) -> bool)
    requires Under(t, above, less) && k in Keys(t)
    ensures Under(Detach(t, k), above, less)
    ensures Subtree(t, k).value == Lookup(t, k) && Under(Subtree(t, k).child, Lookup(t, k), less)
  {
    if k == t.key {
    } else if k in Keys(t.child) {
      DetachUnder(t.child, k, t.value, less);
    } else {
      DetachUnder(t.sibling, k, above, less);
    }
  }

  /** Detaching forgets the value at `k`: only the subtree sees it. */
  lemma {:induction false} DetachAssigned<K, V>(t: Tree<K, V>, k: K, v: V)
    requires k in Keys(t)
    ensures k in Keys(Assign(t, k, v))
    ensures Detach(Assign(t, k, v), k) == Detach(t, k)
    ensures var s := Subtree(t, k); Subtree(Assign(t, k, v), k) == s.(value := v)
  {
    AssignKeys(t, k, v);
    if k == t.key {
    } else if k in Keys(t.child) {
      DetachAssigned(t.child, k, v);
      AssignKeys(t.child, k, v);
    } else {
      DetachAssigned(t.sibling, k, v);
      AssignKeys(t.sibling, k, v);
    }
  }

  /** The two ways of raising a priority. */
  lemma RaiseCases<K, V>(t: Tree<K, V>, k: K, v: V, less: (V, V) -> bool)
    requires Single(t) && Distinct(t) && k in Keys(t)
    ensures var t' := Assign(t, k, v);
      && Keys(t') == Keys(t) && Distinct(t') && Single(t') && t'.Bin? && t'.key == t.key
      && (k != t.key ==> k in Keys(t.child))
      && Raise(t, k, v, less) ==
        if k == t.key || !less(Above(t.child, k, t.value), v) then t'
        else Meld(Detach(t', k), Subtree(t', k), less)
    ensures k != t.key ==> Detach(Assign(t, k, v), k).Bin? && Single(Detach(Assign(t, k, v), k))
  {
    AssignKeys(t, k, v);
    assert Keys(t.sibling) == {};
  }

  /** Raising a priority changes the value at `k` and nothing else. */
  lemma RaiseEntries<K, V>(t: Tree<K, V>, k: K, v: V, less: (V, V) -> bool)
    requires Single(t) && Distinct(t) && k in Keys(t)
    ensures var r := Raise(t, k, v, less);
      Distinct(r) && Keys(r) == Keys(t) && Size(r) == Size(t) && Entries(r) == Entries(t)[k := v]
  {
    var t', r := Assign(t, k, v), Raise(t, k, v, less);
    AssignKeys(t, k, v);
    forall j | j in Keys(t) ensures Lookup(t', j) == if j == k then v else Lookup(t, j) {
      AssignLookup(t, k, v, j);
    }
    if k != t.key && less(Above(t.child, k, t.value), v) {
      var d, s := Detach(t', k), Subtree(t', k);
      DetachKeys(t', k);
      MeldKeys(d, s, less);
      MeldEntries(d, s, less);
      forall j | j in Keys(r) ensures Entries(r)[j] == Entries(t)[k := v][j] {
        DetachLookup(t', k, j);
      }
    }
  }

  /** Raising a priority keeps the heap order, whatever the position of `k`. */
  lemma RaiseIsHeap<K, V(!new)>(t: Tree<K, V>, k: K, v: V, less: (V, V) -> bool)
    requires StrictWeakOrder(less) && IsHeap(t, less) && k in Keys(t)
    requires !less(v, Lookup(t, k))
    ensures IsHeap(Raise(t, k, v, less), less)
  {
    RaiseEntries(t, k, v, less);
    if k == t.key {
      UnderWeaker(t.child, t.value, v, less);
    } else if !less(Above(t.child, k, t.value), v) {
      AssignUnder(t.child, k, v, t.value, less);
    } else {
      DetachAssigned(t, k, v);
      DetachUnder(t.child, k, t.value, less);
      UnderWeaker(Subtree(t, k).child, Lookup(t, k), v, less);
      MeldOrdered(Detach(t, k), Subtree(t, k).(value := v), less);
    }
  }

  // ---------- Draining ----------

  /** What popping until empty yields. */
  ghost function Drain<K, V>(t: Tree<K, V>, less: (V, V) -> bool): seq<(K, V)>
    decreases Size(t)
  {
    if t.Nil? then []
    else
      CombineKeys(t.child, less);
      [(t.key, t.value)] + Drain(Pop(t, less), less)
  }

  /** Popping leaves the value of every other key alone. */
  lemma PopLookup<K, V>(t: Tree<K, V>, k: K, less: (V, V) -> bool)
    requires Single(t) && Distinct(t) && t.Bin? && k in Keys(t) && k != t.key
    ensures k in Keys(Pop(t, less)) && Lookup(Pop(t, less), k) == Lookup(t, k)
  {
    CombineKeys(t.child, less);
    CombineEntries(t.child, less);
    assert Entries(Pop(t, less))[k] == Entries(t.child)[k];
  }

  /** `d` is a permutation of the entries of `t`. */
  ghost predicate ListsOnce<K, V>(d: seq<(K, V)>, t: Tree<K, V>) {
    && |d| == Size(t)
    && (forall i :: 0 <= i < |d| ==> d[i].0 in Keys(t) && Lookup(t, d[i].0) == d[i].1)
    && (forall k :: k in Keys(t) ==> exists i :: 0 <= i < |d| && d[i].0 == k)
    && (forall i, j :: 0 <= i < j < |d| ==> d[i].0 != d[j].0)
  }

  lemma ListsNext<K, V>(e: seq<(K, V)>, t: Tree<K, V>, less: (V, V) -> bool)
    requires Single(t) && Distinct(t) && t.Bin? && ListsOnce(e, Pop(t, less))
    ensures ListsOnce([(t.key, t.value)] + e, t)
  {
    hide Pop;
    PopKeys(t, less);
    var d := [(t.key, t.value)] + e;
    forall i | 0 <= i < |d| ensures d[i].0 in Keys(t) && Lookup(t, d[i].0) == d[i].1 {
      if i > 0 {
        assert d[i] == e[i - 1];
        PopLookup(t, d[i].0, less);
      }
    }
    forall k | k in Keys(t) ensures exists i :: 0 <= i < |d| && d[i].0 == k {
      if k == t.key {
        assert d[0].0 == k;
      } else {
        var i :| 0 <= i < |e| && e[i].0 == k;
        assert d[i + 1].0 == k;
      }
    }
  }

  lemma PopKeys<K, V>(t: Tree<K, V>, less: (V, V) -> bool)
    requires Single(t) && Distinct(t) && t.Bin?
    ensures Keys(Pop(t, less)) == Keys(t) - {t.key} && Size(t) == Size(Pop(t, less)) + 1
  {
    CombineKeys(t.child, less);
  }

  /** Draining lists every entry exactly once. */
  lemma {:induction false} DrainIsPermutation<K, V(!new)>(t: Tree<K, V>, less: (V, V) -> bool)
    requires StrictWeakOrder(less) && IsHeap(t, less)
    ensures ListsOnce(Drain(t, less), t)
    decreases Size(t)
  {
    if t.Bin? {
      PopKeeps(t, less);
      DrainIsPermutation(Pop(t, less), less);
      ListsNext(Drain(Pop(t, less), less), t, less);
    }
  }

  ghost predicate NoneOutranked<K, V>(d: seq<(K, V)>, less: (V, V) -> bool) {
    forall i, j :: 0 <= i < j < |d| ==> !less(d[i].1, d[j].1)
  }

  /** Draining never yields an entry before one that outranks it. */
  lemma {:induction false} DrainIsSorted<K, V(!new)>(t: Tree<K, V>, less: (V, V) -> bool)
    requires StrictWeakOrder(less) && IsHeap(t, less)
    ensures NoneOutranked(Drain(t, less), less)
    decreases Size(t)
  {
    if t.Bin? {
      PopKeeps(t, less);
      TopIsGreatest(t, less);
      DrainIsPermutation(t, less);
      DrainIsSorted(Pop(t, less), less);
      SortedNext((t.key, t.value), Drain(Pop(t, less), less), t, less);
    }
  }

  lemma SortedNext<K, V>(top: (K, V), e: seq<(K, V)>, t: Tree<K, V>, less: (V, V) -> bool)
    requires NoneOutranked(e, less) && ListsOnce([top] + e, t)
    requires forall k :: k in Keys(t) ==> !less(top.1, Lookup(t, k))
    ensures NoneOutranked([top] + e, less)
  {
    var d := [top] + e;
    forall i, j | 0 <= i < j < |d| ensures !less(d[i].1, d[j].1) {
      assert d[j] == e[j - 1];
      assert d[j].0 in Keys(t) && Lookup(t, d[j].0) == d[j].1;
      if i > 0 { assert d[i] == e[i - 1]; }
    }
  }

  // ---------- Destroying ----------

  /** Children before their parent, siblings in order: the order in which a tree is freed. */
  ghost function Postorder<K, V>(t: Tree<K, V>): seq<K> {
    match t
    case Nil => []
    case Bin(k, _, c, s) => Postorder(c) + [k] + Postorder(s)
  }

  /** How many nodes still hang below another one. */
  function Hanging<K, V>(t: Tree<K, V>): nat {
    match t
    case Nil => 0
    case Bin(_, _, c, s) => Size(c) + Hanging(s)
  }

  /** The first child is lifted in front of its parent. */
  function Lift<K, V>(t: Tree<K, V>): Tree<K, V>
    requires t.Bin? && t.child.Bin?
  {
    Bin(t.child.key, t.child.value, t.child.child, Bin(t.key, t.value, t.child.sibling, t.sibling))
  }

  /** Lifting leaves one node fewer hanging. */
  lemma LiftKeys<K, V>(t: Tree<K, V>)
    requires Distinct(t) && t.Bin? && t.child.Bin?
    ensures Keys(Lift(t)) == Keys(t) && Distinct(Lift(t))
    ensures Size(Lift(t)) == Size(t) && Hanging(Lift(t)) == Hanging(t) - 1
  {
    var c := t.child;
    assert Keys(Lift(t).sibling) == {t.key} + Keys(c.sibling) + Keys(t.sibling);
    assert Keys(c) == {c.key} + Keys(c.child) + Keys(c.sibling);
    assert Size(Lift(t).sibling) == 1 + Size(c.sibling) + Size(t.sibling);
  }

  /** Lifting does not change the order of destruction. */
  lemma LiftPostorder<K, V>(t: Tree<K, V>)
    requires t.Bin? && t.child.Bin?
    ensures Postorder(Lift(t)) == Postorder(t)
  {
    Regroup(Postorder(t.child.child), [t.child.key], Postorder(t.child.sibling), [t.key], Postorder(t.sibling));
  }

  /** A first tree without children comes first. */
  lemma FreeFirst<K, V>(t: Tree<K, V>)
    requires t.Bin? && t.child.Nil?
    ensures Postorder(t) == [t.key] + Postorder(t.sibling)
    ensures Size(t) + Hanging(t) == 1 + Size(t.sibling) + Hanging(t.sibling)
  {}

  lemma Regroup<K>(a: seq<K>, y: seq<K>, b: seq<K>, x: seq<K>, s: seq<K>)
    ensures (a + y + b) + x + s == a + y + (b + x + s)
  {}

  ghost predicate EachOnce<K>(p: seq<K>, keys: set<K>) {
    && (forall k :: k in keys ==> k in p) && (forall k :: k in p ==> k in keys)
    && (forall i, j :: 0 <= i < j < |p| ==> p[i] != p[j])
  }

  lemma JoinOnce<K>(c: seq<K>, ck: set<K>, x: K, s: seq<K>, sk: set<K>)
    requires EachOnce(c, ck) && EachOnce(s, sk) && ck !! sk && x !in ck && x !in sk
    ensures EachOnce(c + [x] + s, {x} + ck + sk)
  {
    var p := c + [x] + s;
    forall i, j | 0 <= i < j < |p| ensures p[i] != p[j] {
      assert i < |c| ==> p[i] == c[i] && c[i] in c;
      assert i > |c| ==> p[i] == s[i - |c| - 1];
      assert j < |c| ==> p[j] == c[j];
      assert j > |c| ==> p[j] == s[j - |c| - 1] && p[j] in s;
    }
    assert p[|c|] == x;
  }

  /** The order of destruction names every node exactly once. */
  lemma {:induction false} PostorderOnce<K, V>(t: Tree<K, V>)
    requires Distinct(t)
    ensures |Postorder(t)| == Size(t) && EachOnce(Postorder(t), Keys(t))
  {
    hide EachOnce;
    if t.Nil? {
      NothingOnce<K>();
    } else {
      PostorderOnce(t.child);
      PostorderOnce(t.sibling);
      JoinOnce(Postorder(t.child), Keys(t.child), t.key, Postorder(t.sibling), Keys(t.sibling));
    }
  }

  lemma NothingOnce<K>()
    ensures EachOnce<K>([], {})
  {}

  /** In a single heap all nodes but the root hang. */
  lemma HangingInHeap<K, V>(t: Tree<K, V>)
    requires Single(t)
    ensures t.Bin? ==> Hanging(t) == Size(t) - 1
  {}
}
