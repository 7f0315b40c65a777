/** Amortised cost of the pairing heap, in natural numbers.
    The potential of a tree is the product, over its nodes, of the sizes of their subtrees in child/sibling form:
    the exponential of the usual sum of logarithms. */
module PairingPotential {
  import opened PairingTree

  function Potential<K, V>(t: Tree<K, V>): nat {
    match t
    case Nil => 1
    case Bin(_, _, c, s) => Size(t) * Potential(c) * Potential(s)
  }

  function Pow(base: nat, exponent: nat): nat {
    if exponent == 0 then 1 else base * Pow(base, exponent - 1)
  }

  // ---------- Comparator calls ----------

  function MeldComparisons<K, V>(a: Tree<K, V>, b: Tree<K, V>): nat {
    if a.Bin? && b.Bin? then 1 else 0
  }

  /** Combining `k >= 1` roots takes `k - 1` comparisons. */
  function CombineComparisons<K, V>(t: Tree<K, V>): nat {
    if t.Nil? then 0 else Roots(t) - 1
  }

  /** One call rejects a lowering, one tests the parent, one melds the detached subtree back in. */
  ghost function RaiseComparisons<K, V>(t: Tree<K, V>, k: K, v: V, less: (V, V) -> bool): nat
    requires Single(t) && k in Keys(t)
  {
    assert Keys(t.sibling) == {};
    if less(v, Lookup(t, k)) || k == t.key then 1
    else if !less(Above(t.child, k, t.value), v) then 2
    else 3
  }

  // ---------- Arithmetic ----------

  lemma MulLe(a: nat, b: nat, x: nat, y: nat)
    requires a <= b && x <= y
    ensures a * x <= b * y
  {
    assert a * x <= b * x <= b * y;
  }

  lemma DivLe(a: nat, b: nat, c: nat)
    requires c > 0 && a * c <= b * c
    ensures a <= b
  {
    if a > b { MulLe(b + 1, a, c, c); }
  }

  lemma FourProducts(u: nat, c: nat)
    ensures 4 * (u * c) <= (u + c) * (u + c)
  {
    var e: int := u - c;
    assert (u + c) * (u + c) == e * e + 4 * (u * c);
    assert e * e >= 0;
  }

  /** The arithmetic-geometric inequality, cubed up. */
  lemma PairingInequality(u: nat, c: nat, r: nat, s: nat, d: nat)
    requires c <= d && r == u + c && r <= s
    ensures 4 * (u * c) * (c * r) <= s * s * (s * d)
  {
    FourProducts(u, c);
    MulLe(r, s, r, s);
    MulLe(c, d, r, s);
    MulLe(4 * (u * c), s * s, c * r, s * d);
  }

  lemma {:induction false} PowAdd(base: nat, m: nat, n: nat)
    ensures Pow(base, m + n) == Pow(base, m) * Pow(base, n)
  {
    if m > 0 {
      PowAdd(base, m - 1, n);
      assert base * (Pow(base, m - 1) * Pow(base, n)) == base * Pow(base, m - 1) * Pow(base, n);
    }
  }

  lemma {:induction false} PotentialPositive<K, V>(t: Tree<K, V>)
    ensures Potential(t) >= 1
  {
    if t.Bin? {
      PotentialPositive(t.child);
      PotentialPositive(t.sibling);
      MulLe(1, Size(t), 1, Potential(t.child));
      MulLe(1, Size(t) * Potential(t.child), 1, Potential(t.sibling));
    }
  }

  // ---------- What each operation does to the potential ----------

  lemma UnfoldPotential<K, V>(t: Tree<K, V>)
    requires t.Bin?
    ensures Potential(t) == Size(t) * Potential(t.child) * Potential(t.sibling)
    ensures Size(t) == 1 + Size(t.child) + Size(t.sibling)
  {}

  lemma SinglePotential<K, V>(t: Tree<K, V>)
    requires t.Bin? && Single(t)
    ensures Size(t) == 1 + Size(t.child) && Potential(t) == Size(t) * Potential(t.child)
  {}

  lemma MeldPotential<K, V>(a: Tree<K, V>, b: Tree<K, V>, less: (V, V) -> bool)
    requires Single(a) && Single(b) && a.Bin? && b.Bin?
    ensures var m, r := Meld(a, b, less), Size(a) + Size(b) - 1;
      && m.Bin? && Size(m.child) == r && Size(m) == r + 1
      && Potential(m.child) == r * (Potential(a.child) * Potential(b.child))
      && Potential(m) == (r + 1) * (r * (Potential(a.child) * Potential(b.child)))
  {
    MeldKeys(a, b, less);
    var m := Meld(a, b, less);
    SinglePotential(m);
    var w, l := if less(a.value, b.value) then b else a, if less(a.value, b.value) then a else b;
    assert Potential(m.child) == Size(m.child) * Potential(l.child) * Potential(w.child);
    Reassociate(Size(m.child), Potential(l.child), Potential(w.child));
  }

  lemma Reassociate(x: nat, y: nat, z: nat)
    ensures x * y * z == x * (y * z) == x * (z * y)
  {}

  /** A push into `n` nodes multiplies the potential by exactly `n + 1`. */
  lemma EmplacePotential<K, V>(t: Tree<K, V>, k: K, v: V, less: (V, V) -> bool)
    requires Single(t)
    ensures Potential(Meld(t, Bin(k, v, Nil, Nil), less)) == (Size(t) + 1) * Potential(t)
  {
    var node := Bin(k, v, Nil, Nil);
    if t.Bin? {
      MeldPotential(t, node, less);
      SinglePotential(t);
      assert Size(node) == 1 && Potential(node.child) == 1;
    }
  }

  /** Combining `k` roots with `m` nodes: `2^k` times the new potential is at most `4 * m^3` times the old one. */
  lemma {:induction false} CombinePotential<K, V>(t: Tree<K, V>, less: (V, V) -> bool)
    requires t.Bin?
    ensures var m := Size(t);
      Pow(2, Roots(t)) * Potential(Combine(t, less)) <= 4 * (m * m * m) * Potential(t)
  {
    var m := Size(t);
    assert m == 1 + Size(t.child) + Size(t.sibling);
    if t.sibling.Nil? {
      assert Roots(t) == 1 && Pow(2, 1) == 2 * Pow(2, 0);
      MulLe(1, m, 1, m);
      MulLe(1, m * m, 1, m);
      MulLe(2, 4 * (m * m * m), Potential(t), Potential(t));
    } else {
      var rest := t.sibling.sibling;
      var u, q := Size(t.child) + Size(t.sibling.child) + 1, Potential(t.child) * Potential(t.sibling.child);
      ListPotential(t);
      assert Roots(t) == 2 + Roots(rest) && m == u + Size(rest) + 1;
      assert Pow(2, 2 + Roots(rest)) == 2 * Pow(2, 1 + Roots(rest)) == 2 * (2 * Pow(2, Roots(rest)));
      if rest.Nil? {
        CombinePairPotential(t, less);
        PairOnly(m, u, Size(t.sibling), q);
      } else {
        CombinePotential(rest, less);
        CombineRestPotential(t, less);
        PairAndRest(u, Size(rest), Size(t.sibling), m - 1, m, Pow(2, Roots(rest)), q, Potential(rest),
                    Potential(Combine(rest, less).child));
      }
    }
  }

  /** The potential of a list of at least two roots. */
  lemma ListPotential<K, V>(t: Tree<K, V>)
    requires t.Bin? && t.sibling.Bin?
    ensures Potential(t)
         == Size(t) * Size(t.sibling) * (Potential(t.child) * Potential(t.sibling.child)) * Potential(t.sibling.sibling)
  {
    FiveFactors(Size(t), Potential(t.child), Size(t.sibling), Potential(t.sibling.child), Potential(t.sibling.sibling));
  }

  lemma FiveFactors(m: nat, pa: nat, d: nat, pb: nat, pr: nat)
    ensures m * pa * (d * pb * pr) == m * d * (pa * pb) * pr
  {}

  lemma CombinePairPotential<K, V>(t: Tree<K, V>, less: (V, V) -> bool)
    requires t.Bin? && t.sibling.Bin? && t.sibling.sibling.Nil?
    ensures Potential(Combine(t, less))
         == Size(t) * ((Size(t) - 1) * (Potential(t.child) * Potential(t.sibling.child)))
  {
    MeldPotential(Alone(t), Alone(t.sibling), less);
    assert Combine(t, less) == PairOf(t, less);
  }

  lemma CombineRestPotential<K, V>(t: Tree<K, V>, less: (V, V) -> bool)
    requires t.Bin? && t.sibling.Bin? && t.sibling.sibling.Bin?
    ensures var u, q := Size(t.child) + Size(t.sibling.child) + 1, Potential(t.child) * Potential(t.sibling.child);
      var rest := t.sibling.sibling;
      var r := Combine(rest, less);
      && r.Bin? && Potential(r) == Size(rest) * Potential(r.child)
      && Potential(Combine(t, less)) == Size(t) * ((Size(t) - 1) * (u * q * Potential(r.child)))
  {
    var rest := t.sibling.sibling;
    CombineKeys(rest, less);
    SinglePotential(Combine(rest, less));
    MeldPotential(Alone(t), Alone(t.sibling), less);
    MeldPotential(PairOf(t, less), Combine(rest, less), less);
  }

  /** The arithmetic of a list of two roots. */
  lemma PairOnly(m: nat, r: nat, d: nat, q: nat)
    requires m >= 1 && d >= 1 && r <= m
    ensures 2 * (2 * 1) * (m * (r * q)) <= 4 * (m * m * m) * (m * d * q * 1)
  {
    var cube := m * m * m;
    MulLe(1, m, 1, m);
    MulLe(m, m * m, 1, m);
    MulLe(r, cube, 1, d);
    MulLe(r * 1, cube * d, m * q, m * q);
    Regroup3(m, r, q);
    Regroup4(cube, d, m, q);
  }

  lemma Regroup3(m: nat, r: nat, q: nat)
    ensures m * (r * q) == r * 1 * (m * q)
  {}

  lemma Regroup4(cube: nat, d: nat, m: nat, q: nat)
    ensures cube * d * (m * q) == cube * (m * d * q)
  {}

  /** The arithmetic of a pair melded with a combined, non-empty rest. */
  lemma PairAndRest(u: nat, c: nat, d: nat, r: nat, s: nat, e: nat, q: nat, pr: nat, pc: nat)
    requires c >= 1 && c <= d && r == u + c && s == r + 1
    requires e * (c * pc) <= 4 * (c * c * c) * pr
    ensures 2 * (2 * e) * (s * (r * (u * q * pc))) <= 4 * (s * s * s) * (s * d * q * pr)
  {
    assert e * pc <= 4 * (c * c) * pr by {
      Reassociate(e, c, pc);
      Reassociate(e, pc, c);
      CubeOut(c, pr);
      DivLe(e * pc, 4 * (c * c) * pr, c);
    }
    PairingInequality(u, c, r, s, d);
    var z, w := 4 * (c * c), 4 * (r * u);
    var bound := 4 * (s * s * (s * d));
    assert w * z <= bound by { Regroup5(r, u, c); }
    MulLe(w, w, e * pc, z * pr);
    MulLe(w * z, bound, pr, pr);
    assert w * (z * pr) == w * z * pr;
    MulLe(s * q, s * q, w * (e * pc), bound * pr);
    LeftSide(e, s, r, u, q, pc);
    RightSide(s, d, q, pr);
  }

  lemma CubeOut(c: nat, pr: nat)
    ensures 4 * (c * c * c) * pr == 4 * (c * c) * pr * c
  {}

  lemma Regroup5(r: nat, u: nat, c: nat)
    ensures 4 * (r * u) * (4 * (c * c)) == 4 * (4 * (u * c) * (c * r))
  {}

  lemma LeftSide(e: nat, s: nat, r: nat, u: nat, q: nat, pc: nat)
    ensures 2 * (2 * e) * (s * (r * (u * q * pc))) == s * q * (4 * (r * u) * (e * pc))
  {}

  lemma RightSide(s: nat, d: nat, q: nat, pr: nat)
    ensures 4 * (s * s * s) * (s * d * q * pr) == s * q * (4 * (s * s * (s * d)) * pr)
  {}

  /** A pop of a root with `k >= 1` children that leaves `m` nodes. */
  lemma PopPotential<K, V>(t: Tree<K, V>, less: (V, V) -> bool)
    requires t.Bin? && Single(t) && t.child.Bin?
    ensures var k, m := Roots(t.child), Size(t.child);
      Pow(2, k) * Potential(Pop(t, less)) * Size(t) <= 4 * (m * m * m) * Potential(t)
  {
    hide Potential, Pow, Size, Roots, Combine;
    var m := Size(t.child);
    SinglePotential(t);
    CombinePotential(t.child, less);
    Rescale(Pow(2, Roots(t.child)) * Potential(Pop(t, less)), 4 * (m * m * m), Potential(t.child), Size(t));
  }

  lemma Rescale(x: nat, y: nat, c: nat, n: nat)
    requires x <= y * c
    ensures x * n <= y * (n * c)
  {
    MulLe(x, y * c, n, n);
    Reassociate(y, c, n);
  }

  lemma {:induction false} AssignPotential<K, V>(t: Tree<K, V>, k: K, v: V)
    requires k in Keys(t)
    ensures Potential(Assign(t, k, v)) == Potential(t)
  {
    AssignKeys(t, k, v);
    if k == t.key {
    } else if k in Keys(t.child) {
      AssignPotential(t.child, k, v);
    } else {
      AssignPotential(t.sibling, k, v);
    }
  }

  /** Detaching never gains potential. */
  lemma {:induction false} DetachPotential<K, V>(t: Tree<K, V>, k: K)
    requires k in Keys(t) && Distinct(t)
    ensures Potential(Detach(t, k)) * Potential(Subtree(t, k)) <= Potential(t)
  {
    hide Potential, Size;
    DetachKeys(t, k);
    UnfoldPotential(t);
    var n, c, r, s := Size(t), Potential(t.child), Potential(t.sibling), Potential(Subtree(t, k));
    if k == t.key {
      SinglePotential(Subtree(t, k));
      CutFirst(1 + Size(t.child), n, c, r);
    } else if k in Keys(t.child) {
      DetachPotential(t.child, k);
      UnfoldPotential(Detach(t, k));
      CutWithin(Size(Detach(t, k)), n, Potential(Detach(t.child, k)), s, c, r);
    } else {
      DetachPotential(t.sibling, k);
      UnfoldPotential(Detach(t, k));
      CutWithin(Size(Detach(t, k)), n, Potential(Detach(t.sibling, k)), s, r, c);
    }
  }

  lemma CutFirst(m: nat, n: nat, c: nat, r: nat)
    requires m <= n
    ensures r * (m * c) <= n * c * r
  {
    MulLe(m, n, c, c);
    MulLe(m * c, n * c, r, r);
  }

  lemma CutWithin(n': nat, n: nat, d: nat, s: nat, x: nat, y: nat)
    requires n' <= n && d * s <= x
    ensures n' * d * y * s <= n * x * y
    ensures n' * y * d * s <= n * y * x
  {
    MulLe(n', n, d * s, x);
    MulLe(n' * (d * s), n * x, y, y);
    Shuffle(n', d, y, s);
    Shuffle(n, x, y, 1);
  }

  lemma Shuffle(n: nat, d: nat, y: nat, s: nat)
    ensures n * (d * s) * y == n * d * y * s == n * y * d * s
  {}

  /** Raising a priority in a heap of `n` nodes multiplies the potential by at most `n`. */
  lemma RaisePotential<K, V>(t: Tree<K, V>, k: K, v: V, less: (V, V) -> bool)
    requires Single(t) && Distinct(t) && k in Keys(t)
    ensures Potential(Raise(t, k, v, less)) <= Size(t) * Potential(t)
  {
    hide Potential, Size;
    AssignKeys(t, k, v);
    AssignPotential(t, k, v);
    PotentialPositive(t);
    var t' := Assign(t, k, v);
    assert Keys(t.sibling) == {};
    if k == t.key || !less(Above(t.child, k, t.value), v) {
      UnfoldPotential(t);
      MulLe(1, Size(t), Potential(t), Potential(t));
    } else {
      var d, s := Detach(t', k), Subtree(t', k);
      DetachKeys(t', k);
      DetachPotential(t'.child, k);
      MeldPotential(d, s, less);
      CutAndMeld(t', d, s);
      MulLe(Size(t), Size(t), (Size(t) - 1) * (Potential(d.child) * Potential(s.child)), Potential(t));
    }
  }

  /** The potential after melding a detached subtree back in, from the potentials of its parts. */
  lemma {:induction false} CutAndMeld<K, V>(t: Tree<K, V>, d: Tree<K, V>, s: Tree<K, V>)
    requires Single(t) && t.Bin? && Single(d) && d.Bin? && Single(s) && s.Bin?
    requires Potential(d.child) * Potential(s) <= Potential(t.child)
    ensures (Size(t) - 1) * (Potential(d.child) * Potential(s.child)) <= Potential(t)
  {
    hide Potential, Size;
    SinglePotential(s);
    SinglePotential(t);
    var n, a, b := Size(t), Potential(d.child), Potential(s.child);
    MulLe(1, Size(s), b, b);
    MulLe(a, a, b, Potential(s));
    MulLe(n - 1, n, a * b, Potential(t.child));
  }
}
