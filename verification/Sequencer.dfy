/** The single-producer sequencer: claims are granted against a cached reading of the consumer's progress. */
module Sequencer {
  import opened Results

  const INITIAL_CURSOR: int := -1
  const OK: int := 0
  const FULL: int := -2

  datatype State = State(
    next: int,            // last claim
    cursor: int,          // last publication
    cached: int,          // consumer progress as last read
    gating: int,          // consumer progress
    claimed: seq<int>)    // all claims granted so far

  datatype Step = Claim | Consume(to: int) | Gate(progress: int) | Publish(sequence: int)

  function Initial(): State {
    State(INITIAL_CURSOR, INITIAL_CURSOR, INITIAL_CURSOR, INITIAL_CURSOR, [])
  }

  /** The claim that would be granted if the consumer's progress were read every time. */
  function Uncached(s: State, n: nat): Option<int> {
    if s.next + 1 - n > s.gating then None else Some(s.next + 1)
  }

  /** The claim that is granted: the progress is read only when the cached one is too old. */
  function Granted(s: State, n: nat): Option<int> {
    if s.next + 1 - n > s.cached && s.next + 1 - n > s.gating then None else Some(s.next + 1)
  }

  function Apply(s: State, n: nat, step: Step): State {
    match step
    case Claim =>
      var t := if s.next + 1 - n > s.cached then s.(cached := s.gating) else s;
      (match Granted(s, n)
       case None => t
       case Some(claim) => t.(next := claim, claimed := s.claimed + [claim]))
    case Consume(to) => s.(gating := to)
    case Gate(progress) => s.(gating := progress, cached := progress)
    case Publish(sequence) => s.(cursor := sequence)
  }

  function After(steps: seq<Step>, n: nat): State {
    if steps == [] then Initial() else Apply(After(steps[..|steps| - 1], n), n, steps[|steps| - 1])
  }

  function Remaining(s: State, n: nat): int {
    n - (s.next - s.gating)
  }

  /** Consumers do not go back, nor does a newly attached one start behind the last. */
  ghost predicate Monotone(steps: seq<Step>, n: nat) {
    steps != [] ==>
      && Monotone(steps[..|steps| - 1], n)
      && Forward(After(steps[..|steps| - 1], n), steps[|steps| - 1])
  }

  predicate Forward(s: State, step: Step) {
    (step.Consume? ==> s.gating <= step.to) && (step.Gate? ==> s.gating <= step.progress)
  }

  ghost predicate Inv(s: State, n: nat) {
    && s.cached <= s.gating && s.next <= s.cached + n
    && s.next == |s.claimed| - 1 && forall i :: 0 <= i < |s.claimed| ==> s.claimed[i] == i
  }

  /** The cache decides as a fresh reading would, except when the consumer has fallen behind what was cached: exactly
      then a claim is granted that should not have been. */
  lemma CacheIsExact(s: State, n: nat)
    ensures Granted(s, n) == Uncached(s, n) <==> !(s.gating < s.next + 1 - n <= s.cached)
  {}

  lemma {:induction false} RunKeeps(steps: seq<Step>, n: nat)
    requires Monotone(steps, n)
    ensures Inv(After(steps, n), n)
  {
    if steps != [] { RunKeeps(steps[..|steps| - 1], n); }
  }

  /** With a consumer that does not go back: the cache never shows, a claim is granted if and only if the remaining
      capacity is positive, no more than `n` claims are ahead of the consumer, claims are handed out without gaps or
      repetitions, and no two of those not yet consumed share a slot of the ring. */
  lemma {:induction false} ClaimsAreSafe(steps: seq<Step>, n: nat)
    requires Monotone(steps, n)
    ensures var s := After(steps, n);
      && Granted(s, n) == Uncached(s, n)
      && (Granted(s, n).Some? <==> Remaining(s, n) > 0)
      && s.next <= s.gating + n && 0 <= Remaining(s, n)
      && s.next + 1 == |s.claimed| && (forall i :: 0 <= i < |s.claimed| ==> s.claimed[i] == i)
      && (n > 0 ==> forall a, b :: a in s.claimed && b in s.claimed && s.gating < a < b ==> a % n != b % n)
  {
    hide After, Monotone;
    RunKeeps(steps, n);
    var s := After(steps, n);
    if n > 0 {
      forall a, b | a in s.claimed && b in s.claimed && s.gating < a < b ensures a % n != b % n {
        SlotsDiffer(a, b, n);
      }
    }
  }

  lemma SlotsDiffer(a: int, b: int, n: nat)
    requires n > 0 && a < b < a + n
    ensures a % n != b % n
  {
    assert b - a == (b / n - a / n) * n + (b % n - a % n);
    NoMultipleBetween(b / n - a / n, n);
  }

  lemma NoMultipleBetween(q: int, n: nat)
    ensures q * n <= 0 || n <= q * n
  {
    if q >= 1 { assert q * n == n + (q - 1) * n; }
  }

  lemma {:induction false} AfterNext(steps: seq<Step>, n: nat, step: Step)
    ensures After(steps + [step], n) == Apply(After(steps, n), n, step)
    ensures Monotone(steps + [step], n) <==> Monotone(steps, n) && Forward(After(steps, n), step)
  {
    assert (steps + [step])[..|steps|] == steps;
  }

  /** The step leaves no more than `n` claims ahead of the consumer: a claim, unless the consumer has fallen behind the wrap
      point that the cache still covers; a move of the consumer, or a new one, unless it is further back than that. */
  predicate Allowed(s: State, n: nat, step: Step) {
    match step
    case Claim => !(s.gating < s.next + 1 - n <= s.cached)
    case Consume(to) => s.next - n <= to
    case Gate(progress) => s.next - n <= progress
    case Publish(_) => true
  }

  ghost predicate AllAllowed(steps: seq<Step>, n: nat) {
    forall k :: 0 <= k < |steps| ==> Allowed(After(steps[..k], n), n, steps[k])
  }

  ghost predicate Within(steps: seq<Step>, n: nat) {
    forall k :: 0 <= k <= |steps| ==> 0 <= Remaining(After(steps[..k], n), n)
  }

  lemma StepIsWithin(s: State, n: nat, step: Step)
    requires 0 <= Remaining(s, n)
    ensures 0 <= Remaining(Apply(s, n, step), n) <==> Allowed(s, n, step)
  {}

  /** Over any run, monotone or not, the bound holds all the time if and only if each step is an allowed one. */
  lemma {:induction false} WithinExactly(steps: seq<Step>, n: nat)
    ensures Within(steps, n) <==> AllAllowed(steps, n)
  {
    hide Apply, Remaining, Allowed, After;
    assert steps[..|steps|] == steps;
    if steps == [] {
      NothingClaimed(n);
    } else {
      var m := |steps| - 1;
      var before := steps[..m];
      WithinExactly(before, n);
      assert forall k :: 0 <= k <= m ==> before[..k] == steps[..k];
      assert before[..m] == before;
      LastStep(steps, n);
      if Within(before, n) {
        assert 0 <= Remaining(After(before[..m], n), n);
        StepIsWithin(After(before, n), n, steps[m]);
        assert Within(steps, n) <==> 0 <= Remaining(After(steps[..m + 1], n), n);
        assert AllAllowed(steps, n) <==> Allowed(After(steps[..m], n), n, steps[m]);
      } else {
        assert !Within(steps, n);
        assert !AllAllowed(steps, n);
      }
    }
  }

  lemma NothingClaimed(n: nat)
    ensures 0 <= Remaining(After([], n), n)
  {}

  lemma {:induction false} LastStep(steps: seq<Step>, n: nat)
    requires steps != []
    ensures After(steps, n) == Apply(After(steps[..|steps| - 1], n), n, steps[|steps| - 1])
  {}

  /** `k` attempts to claim, one after the other, while the consumer stands still. */
  function Attempts(s: State, n: nat, k: nat): State {
    if k == 0 then s else Apply(Attempts(s, n, k - 1), n, Claim)
  }

  /** The remaining capacity is exactly the number of claims that can still be made: of any number of attempts so many
      succeed, in order, and the others change no claim. */
  lemma {:induction false} CapacityIsExact(s: State, n: nat, k: nat)
    requires s.cached <= s.gating && 0 <= Remaining(s, n)
    ensures var t, granted := Attempts(s, n, k), if k <= Remaining(s, n) then k else Remaining(s, n);
      && t.next == s.next + granted
      && t.claimed == s.claimed + seq(granted, i => s.next + 1 + i)
      && t.gating == s.gating && t.cursor == s.cursor && t.cached <= t.gating
      && (Granted(t, n).Some? <==> k < Remaining(s, n))
  {
    if k > 0 { CapacityIsExact(s, n, k - 1); }
  }

  /** A consumer that goes back breaks the bound: with two slots, claims 0 to 3 are out although only -1 is consumed. */
  lemma GoingBackOverclaims()
    ensures var steps := [Claim] + [Claim] + [Consume(1)] + [Claim] + [Consume(-1)] + [Claim];
      && !Monotone(steps, 2)
      && After(steps, 2).claimed == [0, 1, 2, 3] && After(steps, 2).gating == -1 && Remaining(After(steps, 2), 2) == -2
  {
    var a := [Claim] + [Claim];
    AfterNext([], 2, Claim);
    assert [] + [Claim] == [Claim];
    AfterNext([Claim], 2, Claim);
    AfterNext(a, 2, Consume(1));
    AfterNext(a + [Consume(1)], 2, Claim);
    AfterNext(a + [Consume(1)] + [Claim], 2, Consume(-1));
    AfterNext(a + [Consume(1)] + [Claim] + [Consume(-1)], 2, Claim);
  }

  // ---------- Waiting ----------

  /** Try to claim; as long as that fails, let the consumer move to the next of `progress` and try again. */
  function Retried(s: State, n: nat, progress: seq<int>): State
    decreases |progress|
  {
    if s.next + 1 - n <= s.cached then Apply(s, n, Claim)
    else if progress == [] then s
    else
      var t := Apply(Apply(s, n, Consume(progress[0])), n, Claim);
      if t.next != s.next then t else Retried(t, n, progress[1..])
  }

  /** Waiting takes exactly one claim, as soon as the consumer is seen to have made room, and none before. */
  lemma {:induction false} RetriedClaimsOnce(s: State, n: nat, progress: seq<int>)
    ensures var t, wrapPoint := Retried(s, n, progress), s.next + 1 - n;
      var room := wrapPoint <= s.cached || exists i :: 0 <= i < |progress| && wrapPoint <= progress[i];
      && t.next == s.next + (if room then 1 else 0)
      && t.claimed == s.claimed + (if room then [s.next + 1] else [])
      && t.cursor == s.cursor
    decreases |progress|
  {
    if s.next + 1 - n > s.cached && progress != [] {
      var t := Apply(Apply(s, n, Consume(progress[0])), n, Claim);
      if t.next == s.next {
        RetriedClaimsOnce(t, n, progress[1..]);
        forall i | 0 <= i < |progress| && s.next + 1 - n <= progress[i]
          ensures exists j :: 0 <= j < |progress| - 1 && s.next + 1 - n <= progress[1..][j]
        {
          assert progress[1..][i - 1] == progress[i];
        }
      }
    }
  }

  /** Waiting reads the progress until the first reading that makes room, and the cache keeps the last one read. */
  lemma {:induction false} RetriedReads(s: State, n: nat, progress: seq<int>)
    ensures var t, wrapPoint := Retried(s, n, progress), s.next + 1 - n;
      if wrapPoint <= s.cached || progress == [] then t.cached == s.cached && t.gating == s.gating
      else exists i :: 0 <= i < |progress| && t.cached == t.gating == progress[i]
             && (forall j :: 0 <= j < i ==> progress[j] < wrapPoint) && (wrapPoint <= progress[i] || i == |progress| - 1)
    decreases |progress|
  {
    if s.next + 1 - n > s.cached && progress != [] {
      var wrapPoint, t := s.next + 1 - n, Apply(Apply(s, n, Consume(progress[0])), n, Claim);
      if t.next == s.next && |progress| > 1 {
        RetriedReads(t, n, progress[1..]);
        var r := Retried(t, n, progress[1..]);
        var i :| 0 <= i < |progress| - 1 && r.cached == r.gating == progress[1..][i]
          && (forall j :: 0 <= j < i ==> progress[1..][j] < wrapPoint) && (wrapPoint <= progress[1..][i] || i == |progress| - 2);
        forall j | 0 <= j < i + 1 ensures progress[j] < wrapPoint {
          if j > 0 { assert progress[j] == progress[1..][j - 1]; }
        }
        assert progress[i + 1] == progress[1..][i];
      } else {
        assert t.cached == t.gating == progress[0];
        if t.next == s.next {
          assert progress[1..] == [];
          assert Retried(t, n, []) == t;
        }
        assert Retried(s, n, progress) == t;
      }
    }
  }

  ghost predicate Rising(progress: seq<int>, from: int) {
    progress != [] ==> from <= progress[0] && Rising(progress[1..], progress[0])
  }

  /** What waiting does can be done by single steps, so that all that holds over runs holds with waiting calls too. */
  lemma {:induction false} WaitingIsTrying(steps: seq<Step>, n: nat, progress: seq<int>) returns (more: seq<Step>)
    requires Monotone(steps, n) && Rising(progress, After(steps, n).gating)
    ensures Monotone(steps + more, n) && After(steps + more, n) == Retried(After(steps, n), n, progress)
    decreases |progress|
  {
    hide After, Monotone;
    var s := After(steps, n);
    if s.next + 1 - n <= s.cached {
      more := [Claim];
      AfterNext(steps, n, Claim);
    } else if progress == [] {
      more := [];
      assert steps + more == steps;
    } else {
      AfterNext(steps, n, Consume(progress[0]));
      AfterNext(steps + [Consume(progress[0])], n, Claim);
      var longer := steps + [Consume(progress[0])] + [Claim];
      if After(longer, n).next != s.next {
        more := [Consume(progress[0]), Claim];
        assert steps + more == longer;
      } else {
        var rest := WaitingIsTrying(longer, n, progress[1..]);
        more := [Consume(progress[0]), Claim] + rest;
        assert steps + more == longer + rest;
      }
    }
  }

  // ---------- The sequencer ----------

  class Sequence {
    var value: int

    constructor (initial: int)
      ensures value == initial
    {
      value := initial;
    }
  }

  class SingleProducerSequencer {
    const size: nat
    var nextValue: int
    var cursor: int
    var cachedGating: int
    var gating: Sequence?
    ghost var claimed: seq<int>

    ghost function View(): State
      reads this, gating
    {
      State(nextValue, cursor, cachedGating, if gating == null then INITIAL_CURSOR else gating.value, claimed)
    }

    constructor (size: nat)
      ensures View() == Initial() && this.size == size && gating == null
    {
      this.size := size;
      nextValue, cursor, cachedGating, gating := INITIAL_CURSOR, INITIAL_CURSOR, INITIAL_CURSOR, null;
      claimed := [];
    }

    method MinGating() returns (g: int)
      ensures g == View().gating
    {
      if gating == null {
        return INITIAL_CURSOR;
      }
      return gating.value;
    }

    method AddGatingSequence(sequence: Sequence)
      modifies this
      ensures gating == sequence && View() == Apply(old(View()), size, Gate(sequence.value))
      ensures View() == old(View()).(gating := sequence.value, cached := sequence.value)
    {
      gating := sequence;
      cachedGating := MinGating();
    }

    method RemainingCapacity() returns (capacity: int)
      ensures capacity == Remaining(View(), size)
      ensures capacity == size - (nextValue - (if gating == null then INITIAL_CURSOR else gating.value))
    {
      var produced := nextValue;
      var consumed := MinGating();
      var used := produced - consumed;
      return size - used;
    }

    method TryNext() returns (rc: int, claim: int)
      modifies this
      ensures View() == Apply(old(View()), size, Claim) && gating == old(gating)
      ensures match Granted(old(View()), size)
        case None => rc == FULL
        case Some(c) => rc == OK && claim == c
      ensures var s, stale := old(View()), old(nextValue) + 1 - size > old(cachedGating);
        && (rc == FULL <==> stale && s.next + 1 - size > s.gating) && (rc != FULL ==> rc == OK && claim == s.next + 1)
        && View() == s.(
             cached := if stale then s.gating else s.cached, next := if rc == OK then claim else s.next,
             claimed := if rc == OK then s.claimed + [claim] else s.claimed)
    {
      var next := nextValue + 1;
      var wrapPoint := next - size;
      if wrapPoint > cachedGating {
        var g := MinGating();
        cachedGating := g;
        if wrapPoint > g {
          return FULL, 0;
        }
      }
      nextValue := next;
      claimed := claimed + [next];
      return OK, next;
    }

    method PublishUpTo(sequence: int)
      modifies this
      ensures View() == Apply(old(View()), size, Publish(sequence)) && gating == old(gating)
      ensures View() == old(View()).(cursor := sequence)
    {
      cursor := sequence;
    }

    /** What the readings show: the consumer's moves, if there is a consumer. */
    ghost function Readings(progress: seq<int>): seq<int>
      reads this
    {
      if gating == null then seq(|progress|, _ => INITIAL_CURSOR) else progress
    }

    /** Wait for room.  The consumer, if there is one, moves to `progress[i]` before reading `i`; nothing is returned if
        there is still no room at the last reading. */
    method Next(progress: seq<int>) returns (claim: Option<int>)
      modifies this, gating
      ensures gating == old(gating) && View() == Retried(old(View()), size, old(Readings(progress)))
      ensures claim == if View().next == old(View()).next then None else Some(View().next)
    {
      var next := nextValue + 1;
      var wrapPoint := next - size;
      if wrapPoint > cachedGating {
        var i := 0;
        ghost var readings := Readings(progress);
        while true
          invariant i <= |progress| && gating == old(gating) && nextValue == old(nextValue) && wrapPoint > cachedGating
          invariant Retried(View(), size, readings[i..]) == Retried(old(View()), size, readings)
          decreases |progress| - i
        {
          if i == |progress| {
            return None;
          }
          if gating != null {
            gating.value := progress[i];
          }
          var g := MinGating();
          cachedGating := g;
          assert readings[i..][1..] == readings[i + 1..];
          if wrapPoint <= g {
            break;
          }
          i := i + 1;
        }
      }
      nextValue := next;
      claimed := claimed + [next];
      return Some(next);
    }
  }
}
