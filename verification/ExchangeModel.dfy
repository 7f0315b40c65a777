/** The lease protocol of the exchange, one step for each call; every call runs under the one mutex.  Generations are
    32-bit and wrap. */
module ExchangeModel {
  import opened Results

  const NUM_PARTITIONS: nat := 16
  const QUEUE_CAPACITY: nat := 32
  const REGISTRY_CAPACITY: nat := 32

  type uint32 = x: int | 0 <= x < 0x1_0000_0000

  type Pid = p: nat | p < NUM_PARTITIONS

  datatype Lease = Lease(pid: int, gen: uint32)

  datatype State = State(
    ready: seq<Pid>,               // free partitions
    registry: map<int, Lease>,     // the lease of each worker
    gen: seq<uint32>,              // for each partition, the generation last granted
    closedGen: seq<uint32>)        // for each partition, the generation last closed

  datatype Call =
    | Acquire(worker: int)
    | Close(closed: Pid, named: uint32)
    | Release(worker: int, pid: int, gen: uint32)

  function Next(g: uint32): uint32 {
    (g + 1) % 0x1_0000_0000
  }

  function Initial(): State {
    State(seq(NUM_PARTITIONS, i => i), map[], seq(NUM_PARTITIONS, _ => 0), seq(NUM_PARTITIONS, _ => 0))
  }

  predicate Grants(s: State, worker: int) {
    worker !in s.registry && s.ready != []
  }

  predicate IsClosed(s: State, lease: Lease) {
    0 <= lease.pid < |s.closedGen| && s.closedGen[lease.pid] == lease.gen
  }

  /** What release answers. */
  function ReleaseCode(s: State, worker: int, pid: int, gen: uint32): int {
    if worker !in s.registry then -1
    else if IsClosed(s, s.registry[worker]) then 0
    else if s.registry[worker] != Lease(pid, gen) then -2
    else -3
  }

  function Apply(s: State, call: Call): State
    requires |s.gen| == |s.closedGen| == NUM_PARTITIONS
  {
    match call
    case Acquire(w) =>
      if Grants(s, w) then
        var p := s.ready[0];
        var g := Next(s.gen[p]);
        State(s.ready[1..], s.registry[w := Lease(p, g)], s.gen[p := g], s.closedGen[p := 0])
      else s
    case Close(p, g) => s.(closedGen := s.closedGen[p := g])
    case Release(w, pid, gen) =>
      if ReleaseCode(s, w, pid, gen) == 0 then
        var p := s.registry[w].pid;
        s.(ready := s.ready + [p], registry := s.registry - {w})
      else s
  }

  /** The state after a run of calls. */
  function After(calls: seq<Call>): (s: State)
    ensures |s.gen| == |s.closedGen| == NUM_PARTITIONS
  {
    if calls == [] then Initial() else var n := |calls| - 1; Apply(After(calls[..n]), calls[n])
  }

  // ---------- Conservation ----------

  predicate Held(s: State, p: Pid) {
    exists w :: w in s.registry && s.registry[w].pid == p
  }

  /** Each partition is free, once, or in exactly one worker's lease. */
  ghost predicate Inv(s: State) {
    && |s.gen| == |s.closedGen| == NUM_PARTITIONS
    && (forall i, j :: 0 <= i < j < |s.ready| ==> s.ready[i] != s.ready[j])
    && (forall w :: w in s.registry ==>
          && 0 <= s.registry[w].pid < NUM_PARTITIONS
          && s.registry[w].pid !in s.ready
          && s.registry[w].gen == s.gen[s.registry[w].pid])
    && (forall v, w :: v in s.registry && w in s.registry && v != w ==> s.registry[v].pid != s.registry[w].pid)
    && (forall p: Pid :: p in s.ready || Held(s, p))
    && |s.ready| + |s.registry| == NUM_PARTITIONS
  }

  lemma AcquireKeeps(s: State, worker: int)
    requires Inv(s)
    ensures Inv(Apply(s, Acquire(worker)))
  {
    var t := Apply(s, Acquire(worker));
    if Grants(s, worker) {
      assert s.ready == [s.ready[0]] + t.ready;
      forall p: Pid ensures p in t.ready || Held(t, p) {
        if p == s.ready[0] {
          assert t.registry[worker].pid == p;
        } else if Held(s, p) {
          var w :| w in s.registry && s.registry[w].pid == p;
          assert w in t.registry && t.registry[w].pid == p;
        }
      }
    }
  }

  lemma ReleaseKeeps(s: State, worker: int, pid: int, gen: uint32)
    requires Inv(s)
    ensures Inv(Apply(s, Release(worker, pid, gen)))
  {
    var t := Apply(s, Release(worker, pid, gen));
    if ReleaseCode(s, worker, pid, gen) == 0 {
      assert t.registry.Keys == s.registry.Keys - {worker};
      forall p: Pid ensures p in t.ready || Held(t, p) {
        if Held(s, p) {
          var w :| w in s.registry && s.registry[w].pid == p;
          assert w == worker || (w in t.registry && t.registry[w].pid == p);
        }
      }
    }
  }

  lemma CallKeeps(s: State, call: Call)
    requires Inv(s)
    ensures Inv(Apply(s, call))
  {
    match call
    case Acquire(w) => AcquireKeeps(s, w);
    case Close(p, g) => assert forall q: Pid :: Held(s, q) ==> Held(Apply(s, call), q);
    case Release(w, pid, gen) => ReleaseKeeps(s, w, pid, gen);
  }

  lemma {:induction false} RunKeeps(calls: seq<Call>)
    ensures Inv(After(calls))
  {
    if calls != [] {
      hide Inv, Apply;
      RunKeeps(calls[..|calls| - 1]);
      CallKeeps(After(calls[..|calls| - 1]), calls[|calls| - 1]);
    } else {
      forall p: Pid ensures p in Initial().ready { assert Initial().ready[p] == p; }
    }
  }

  /** Lease conservation, in every reachable state: a partition is free exactly when no lease names it, no two leases
      name the same one, and the containers have room for whatever any call puts into them. */
  lemma {:induction false} LeasesConserved(calls: seq<Call>, p: Pid)
    ensures var s := After(calls);
      && (p in s.ready <==> !Held(s, p))
      && multiset(s.ready)[p] <= 1
      && (forall v, w :: v in s.registry && w in s.registry && s.registry[v].pid == p == s.registry[w].pid ==> v == w)
      && |s.ready| <= NUM_PARTITIONS < QUEUE_CAPACITY && |s.registry| <= NUM_PARTITIONS < REGISTRY_CAPACITY
  {
    RunKeeps(calls);
    DistinctOnce(After(calls).ready, p);
  }

  lemma {:induction false} DistinctOnce(q: seq<Pid>, p: Pid)
    requires forall i, j :: 0 <= i < j < |q| ==> q[i] != q[j]
    ensures multiset(q)[p] <= 1
  {
    if q != [] {
      assert q == [q[0]] + q[1..];
      DistinctOnce(q[1..], p);
      if q[0] == p { assert p !in q[1..]; }
    }
  }

  // ---------- Generations ----------

  /** When the lease that `worker` holds after `calls` was granted. */
  ghost function GrantOf(calls: seq<Call>, worker: int): (n: nat)
    requires worker in After(calls).registry
    ensures n < |calls|
  {
    var n := |calls| - 1;
    if worker in After(calls[..n]).registry then GrantOf(calls[..n], worker) else n
  }

  /** The generation that the last close of `p` names, if there was one. */
  ghost function LastClosed(calls: seq<Call>, p: Pid): Option<uint32> {
    if calls == [] then None
    else
      var c := calls[|calls| - 1];
      if c.Close? && c.closed == p then Some(c.named) else LastClosed(calls[..|calls| - 1], p)
  }

  predicate IsLastClose(calls: seq<Call>, i: int, p: Pid) {
    && 0 <= i < |calls| && calls[i].Close? && calls[i].closed == p
    && forall j :: i < j < |calls| ==> !(calls[j].Close? && calls[j].closed == p)
  }

  lemma {:induction false} LastClosedMeans(calls: seq<Call>, p: Pid)
    ensures LastClosed(calls, p) == None <==> forall i :: 0 <= i < |calls| ==> !(calls[i].Close? && calls[i].closed == p)
    ensures LastClosed(calls, p).Some? ==> exists i :: IsLastClose(calls, i, p) && calls[i].named == LastClosed(calls, p).value
  {
    if calls != [] {
      var n := |calls| - 1;
      LastClosedMeans(calls[..n], p);
      if calls[n].Close? && calls[n].closed == p {
        assert IsLastClose(calls, n, p);
      } else if LastClosed(calls, p).Some? {
        var i :| IsLastClose(calls[..n], i, p) && calls[..n][i].named == LastClosed(calls[..n], p).value;
        assert IsLastClose(calls, i, p);
      }
    }
  }

  /** Call `g` granted `lease` to `worker`. */
  ghost predicate GrantedAt(calls: seq<Call>, g: nat, worker: int, lease: Lease) {
    && g < |calls| && calls[g] == Acquire(worker) && Grants(After(calls[..g]), worker)
    && worker in After(calls[..g + 1]).registry && lease == After(calls[..g + 1]).registry[worker]
  }

  lemma HeldStep(s: State, call: Call, worker: int)
    requires Inv(s) && worker in Apply(s, call).registry
    ensures var t := Apply(s, call);
      var lease := t.registry[worker];
      && 0 <= lease.pid < NUM_PARTITIONS
      && (worker in s.registry ==>
            && lease == s.registry[worker]
            && t.closedGen[lease.pid] == if call.Close? && call.closed == lease.pid then call.named else s.closedGen[lease.pid])
      && (worker !in s.registry ==> call == Acquire(worker) && Grants(s, worker) && t.closedGen[lease.pid] == 0)
  {}

  lemma {:induction false} SameGrant(calls: seq<Call>, call: Call, g: nat, worker: int, lease: Lease)
    requires GrantedAt(calls, g, worker, lease)
    ensures GrantedAt(calls + [call], g, worker, lease)
  {
    var longer := calls + [call];
    assert longer[..g] == calls[..g] && longer[..g + 1] == calls[..g + 1];
  }

  lemma {:induction false} LastClosedNext(calls: seq<Call>, call: Call, from: nat, p: Pid)
    requires from <= |calls|
    ensures LastClosed((calls + [call])[from..], p) ==
      if call.Close? && call.closed == p then Some(call.named) else LastClosed(calls[from..], p)
  {
    assert (calls + [call])[from..] == calls[from..] + [call];
    assert (calls[from..] + [call])[..|calls| - from] == calls[from..];
  }

  /** A lease stays as it was granted, and the closed generation of its partition is what the closes since then say. */
  lemma {:induction false} LeaseIsFrozen(calls: seq<Call>, worker: int)
    requires worker in After(calls).registry
    ensures var g := GrantOf(calls, worker);
      var lease := After(calls).registry[worker];
      && GrantedAt(calls, g, worker, lease)
      && 0 <= lease.pid < NUM_PARTITIONS
      && After(calls).closedGen[lease.pid] == match LastClosed(calls[g + 1..], lease.pid) case Some(named) => named case None => 0
    decreases |calls|
  {
    hide Inv, Apply, Grants, LastClosed, GrantedAt;
    var n := |calls| - 1;
    var before, call := calls[..n], calls[n];
    assert calls == before + [call];
    RunKeeps(before);
    HeldStep(After(before), call, worker);
    if worker in After(before).registry {
      LeaseIsFrozen(before, worker);
      SameGrant(before, call, GrantOf(before, worker), worker, After(before).registry[worker]);
      LastClosedNext(before, call, GrantOf(before, worker) + 1, After(before).registry[worker].pid);
    } else {
      NewGrant(before, worker);
      NothingClosed(After(calls).registry[worker].pid);
      assert calls[n + 1..] == [];
    }
  }

  lemma NothingClosed(p: Pid)
    ensures LastClosed([], p) == None
  {}

  lemma {:induction false} NewGrant(before: seq<Call>, worker: int)
    requires Grants(After(before), worker) && worker in After(before + [Acquire(worker)]).registry
    ensures GrantedAt(before + [Acquire(worker)], |before|, worker, After(before + [Acquire(worker)]).registry[worker])
  {
    hide After, Grants;
    var calls := before + [Acquire(worker)];
    assert calls[..|before|] == before && calls[..|before| + 1] == calls;
  }

  /** A lease is reclaimed if and only if the last close of its partition since it was granted names its generation.
      The one exception is a lease whose generation has wrapped to zero: it counts as closed until some close names
      another generation.  What the caller says about the lease does not matter for this. */
  lemma {:induction false} ReclaimedExactly(calls: seq<Call>, worker: int, pid: int, gen: uint32)
    requires worker in After(calls).registry
    ensures var s, since := After(calls), calls[GrantOf(calls, worker) + 1..];
      var lease := s.registry[worker];
      && 0 <= lease.pid < NUM_PARTITIONS
      && (ReleaseCode(s, worker, pid, gen) == 0 <==>
            || LastClosed(since, lease.pid) == Some(lease.gen)
            || (lease.gen == 0 && LastClosed(since, lease.pid) == None))
      && (ReleaseCode(s, worker, pid, gen) == 0 ==>
            var t := After(calls + [Release(worker, pid, gen)]);
            t.registry == s.registry - {worker} && t.ready == s.ready + [lease.pid])
      && (ReleaseCode(s, worker, pid, gen) != 0 ==> After(calls + [Release(worker, pid, gen)]) == s)
  {
    hide After, LastClosed, GrantOf, GrantedAt;
    LeaseIsFrozen(calls, worker);
    RunKeeps(calls);
    AfterNext(calls, Release(worker, pid, gen));
  }

  /** How often partition `p` was granted. */
  ghost function TimesGranted(calls: seq<Call>, p: Pid): nat {
    if calls == [] then 0
    else
      var n := |calls| - 1;
      var s := After(calls[..n]);
      TimesGranted(calls[..n], p)
      + if calls[n].Acquire? && Grants(s, calls[n].worker) && s.ready[0] == p then 1 else 0
  }

  lemma {:induction false} GenerationCounts(calls: seq<Call>, p: Pid)
    ensures After(calls).gen[p] == TimesGranted(calls, p) % 0x1_0000_0000
  {
    if calls != [] {
      var n := |calls| - 1;
      GenerationCounts(calls[..n], p);
      NextCounts(TimesGranted(calls[..n], p));
    }
  }

  lemma NextCounts(n: nat)
    ensures (n % 0x1_0000_0000 + 1) % 0x1_0000_0000 == (n + 1) % 0x1_0000_0000
  {}

  /** There is a close of exactly this partition and generation from call `from` on. */
  ghost predicate ClosedFrom(calls: seq<Call>, from: nat, p: Pid, gen: uint32) {
    exists c :: from <= c < |calls| && calls[c] == Close(p, gen)
  }

  /** As long as a partition has been granted fewer than 2^32 times, its leases are reclaimed only after a close that
      names exactly their partition and generation and was made after the grant. */
  lemma {:induction false} NoStaleReclaim(calls: seq<Call>, worker: int, pid: int, gen: uint32)
    requires worker in After(calls).registry
    requires ReleaseCode(After(calls), worker, pid, gen) == 0
    requires var p := After(calls).registry[worker].pid; 0 <= p < NUM_PARTITIONS ==> TimesGranted(calls, p) < 0x1_0000_0000
    ensures var lease, g := After(calls).registry[worker], GrantOf(calls, worker);
      && 0 <= lease.pid < NUM_PARTITIONS
      && ClosedFrom(calls, g + 1, lease.pid, lease.gen)
  {
    var lease, g := After(calls).registry[worker], GrantOf(calls, worker);
    hide Inv, After, LastClosed, ReleaseCode, GrantOf, TimesGranted, ClosedFrom;
    ReclaimedExactly(calls, worker, pid, gen);
    GrantedOnce(calls, worker);
    NotWrapped(TimesGranted(calls, lease.pid));
    CloseFound(calls, g + 1, lease.pid, lease.gen);
  }

  lemma NotWrapped(n: nat)
    requires 0 < n < 0x1_0000_0000
    ensures n % 0x1_0000_0000 != 0
  {}

  lemma {:induction false} CloseFound(calls: seq<Call>, from: nat, p: Pid, gen: uint32)
    requires from <= |calls| && LastClosed(calls[from..], p) == Some(gen)
    ensures ClosedFrom(calls, from, p, gen)
  {
    LastClosedMeans(calls[from..], p);
    var i :| IsLastClose(calls[from..], i, p) && calls[from..][i].named == gen;
    assert calls[from + i] == Close(p, gen);
  }

  /** A partition that is out has been granted. */
  lemma {:induction false} GrantedOnce(calls: seq<Call>, worker: int)
    requires worker in After(calls).registry
    ensures var lease := After(calls).registry[worker];
      && 0 <= lease.pid < NUM_PARTITIONS && TimesGranted(calls, lease.pid) > 0
      && lease.gen == After(calls).gen[lease.pid] == TimesGranted(calls, lease.pid) % 0x1_0000_0000
  {
    RunKeeps(calls);
    GenerationCounts(calls, After(calls).registry[worker].pid);
    var n := |calls| - 1;
    RunKeeps(calls[..n]);
    HeldStep(After(calls[..n]), calls[n], worker);
    if worker in After(calls[..n]).registry { GrantedOnce(calls[..n], worker); }
  }

  /** A close for another generation keeps any lease from being released, whether it had been closed before or not, until
      a close for its own follows. */
  lemma {:induction false} StaleCloseReopens(calls: seq<Call>, worker: int, named: uint32, pid: int, gen: uint32)
    requires worker in After(calls).registry && named != After(calls).registry[worker].gen
    ensures var lease := After(calls).registry[worker];
      && 0 <= lease.pid < NUM_PARTITIONS
      && var stale, closed := calls + [Close(lease.pid, named)], calls + [Close(lease.pid, named)] + [Close(lease.pid, lease.gen)];
         && After(stale).registry == After(calls).registry
         && ReleaseCode(After(stale), worker, pid, gen) == (if lease == Lease(pid, gen) then -3 else -2)
         && ReleaseCode(After(closed), worker, pid, gen) == 0
  {
    hide After;
    RunKeeps(calls);
    var lease := After(calls).registry[worker];
    AfterNext(calls, Close(lease.pid, named));
    AfterNext(calls + [Close(lease.pid, named)], Close(lease.pid, lease.gen));
  }

  /** So a stale close can undo a close: the lease of worker 7 is closed, and then no longer. */
  lemma {:induction false} StaleCloseExample()
    ensures var calls := [] + [Acquire(7)] + [Close(0, 1)];
      && ReleaseCode(After(calls), 7, 0, 1) == 0
      && ReleaseCode(After(calls + [Close(0, 5)]), 7, 0, 1) == -3
  {
    AfterNext([], Acquire(7));
    AfterNext([] + [Acquire(7)], Close(0, 1));
    AfterNext([] + [Acquire(7)] + [Close(0, 1)], Close(0, 5));
  }

  lemma {:induction false} AfterNext(calls: seq<Call>, call: Call)
    ensures After(calls + [call]) == Apply(After(calls), call)
  {
    assert (calls + [call])[..|calls|] == calls;
  }

  /** Workers 0 to 14 take the first partitions and keep them; then worker 15 takes and gives back the last, `n` times. */
  ghost function Takers(k: nat): seq<Call> {
    if k == 0 then [] else Takers(k - 1) + [Acquire(k - 1)]
  }

  ghost function Rounds(n: nat): seq<Call> {
    if n == 0 then Takers(15)
    else
      var g := n % 0x1_0000_0000;
      Rounds(n - 1) + [Acquire(15)] + [Close(15, g)] + [Release(15, 15, g)]
  }

  lemma TakeNext(s: State, k: nat)
    requires k < 15 && s.ready == Initial().ready[k..] && (forall w :: w in s.registry ==> w < k)
    requires |s.gen| == |s.closedGen| == NUM_PARTITIONS
    ensures var t := Apply(s, Acquire(k));
      t.ready == Initial().ready[k + 1..] && (forall w :: w in t.registry ==> w < k + 1) && t.gen[15] == s.gen[15]
  {
    assert s.ready[0] == k;
  }

  lemma {:induction false} TakersTake(k: nat)
    requires k <= 15
    ensures var s := After(Takers(k));
      s.ready == Initial().ready[k..] && (forall w :: w in s.registry ==> w < k) && s.gen[15] == 0
  {
    if k > 0 {
      TakersTake(k - 1);
      hide Apply, After;
      TakeNext(After(Takers(k - 1)), k - 1);
      AfterNext(Takers(k - 1), Acquire(k - 1));
    }
  }

  /** One round of taking, closing and giving back. */
  lemma {:induction false} OneRound(calls: seq<Call>, g: uint32)
    requires var s := After(calls); s.ready == [15] && 15 !in s.registry && g == Next(s.gen[15])
    ensures var s := After(calls + [Acquire(15)] + [Close(15, g)] + [Release(15, 15, g)]);
      s.ready == [15] && 15 !in s.registry && s.gen[15] == g
  {
    hide After, Next;
    AfterNext(calls, Acquire(15));
    AfterNext(calls + [Acquire(15)], Close(15, g));
    AfterNext(calls + [Acquire(15)] + [Close(15, g)], Release(15, 15, g));
  }

  lemma {:induction false} RoundsCount(n: nat)
    ensures var s := After(Rounds(n)); s.ready == [15] && 15 !in s.registry && s.gen[15] == n % 0x1_0000_0000
  {
    hide After;
    if n == 0 {
      TakersTake(15);
      assert Initial().ready[15..] == [15];
    } else {
      RoundsCount(n - 1);
      NextCounts(n - 1);
      OneRound(Rounds(n - 1), n % 0x1_0000_0000);
    }
  }

  /** A run in which a lease is reclaimed that was never closed: after 2^32 grants of a partition its generation is zero,
      which is what the grant itself writes as closed. */
  lemma WrappedLeaseIsClosed(pid: int, gen: uint32)
    ensures var calls := Rounds(0xFFFF_FFFF) + [Acquire(15)];
      && After(calls).registry.Keys == After(Rounds(0xFFFF_FFFF)).registry.Keys + {15}
      && After(calls).registry[15] == Lease(15, 0)
      && ReleaseCode(After(calls), 15, pid, gen) == 0
  {
    hide After, Rounds;
    RoundsCount(0xFFFF_FFFF);
    AfterNext(Rounds(0xFFFF_FFFF), Acquire(15));
  }

  // ---------- Fairness ----------

  /** The partition that a call grants, and the one that it gives back. */
  function GrantedBy(s: State, c: Call): seq<int> {
    if c.Acquire? && Grants(s, c.worker) then [s.ready[0]] else []
  }

  function GivenBackBy(s: State, c: Call): seq<int> {
    if c.Release? && ReleaseCode(s, c.worker, c.pid, c.gen) == 0 then [s.registry[c.worker].pid] else []
  }

  /** All partitions that have been granted, and all that have been given back, in order. */
  ghost function Granted(calls: seq<Call>): seq<int> {
    if calls == [] then []
    else var n := |calls| - 1; Granted(calls[..n]) + GrantedBy(After(calls[..n]), calls[n])
  }

  ghost function GivenBack(calls: seq<Call>): seq<int> {
    if calls == [] then []
    else var n := |calls| - 1; GivenBack(calls[..n]) + GivenBackBy(After(calls[..n]), calls[n])
  }

  /** Partitions are granted in turn: first the initial ones in their order, then each in the order in which it was given
      back. */
  lemma {:induction false} GrantedInTurn(calls: seq<Call>)
    ensures Granted(calls) + After(calls).ready == seq(NUM_PARTITIONS, i => i) + GivenBack(calls)
  {
    if calls == [] {
      AllReady();
    } else {
      hide Apply, GrantedBy, GivenBackBy;
      var n := |calls| - 1;
      var s, c := After(calls[..n]), calls[n];
      var first: seq<int> := seq(NUM_PARTITIONS, i => i);
      GrantedInTurn(calls[..n]);
      TurnStep(s, c);
      Regroup(Granted(calls[..n]), GrantedBy(s, c), Apply(s, c).ready, s.ready, GivenBackBy(s, c), first, GivenBack(calls[..n]));
    }
  }

  lemma AllReady()
    ensures Granted([]) + After([]).ready == seq<int>(NUM_PARTITIONS, i => i) + GivenBack([])
  {}

  lemma Regroup(a: seq<int>, g: seq<int>, r': seq<int>, r: seq<int>, b: seq<int>, first: seq<int>, back: seq<int>)
    requires a + r == first + back && g + r' == r + b
    ensures a + g + r' == first + (back + b)
  {
    assert a + g + r' == a + (g + r') == a + r + b;
  }

  /** A call takes from the front of the queue of free partitions, and puts at its end. */
  lemma TurnStep(s: State, c: Call)
    requires |s.gen| == |s.closedGen| == NUM_PARTITIONS
    ensures GrantedBy(s, c) + Apply(s, c).ready == s.ready + GivenBackBy(s, c)
  {}
}
