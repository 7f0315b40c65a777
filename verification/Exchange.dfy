/** The exchange as an object.  Its calls run under one mutex each, and every one of them is proved to make a call of
    `ExchangeModel`; so every state of an exchange is one of those that the model reaches. */
module Exchanges {
  import opened ExchangeModel
  import opened Results

  /** The open lease of each worker. */
  class Dispatcher {
    var registry: map<int, Lease>

    constructor ()
      ensures registry == map[]
    {
      registry := map[];
    }

    method TryGet(worker: int) returns (out: Option<Lease>)
      ensures out == if worker in registry then Some(registry[worker]) else None
    {
      if worker !in registry {
        return None;
      }
      return Some(registry[worker]);
    }

    method SetOpen(worker: int, lease: Lease) returns (rc: int)
      modifies this
      ensures old(worker in registry) ==> rc == -1
      ensures old(worker !in registry) ==> rc == if old(|registry|) < REGISTRY_CAPACITY then 0 else -4
      ensures registry == if rc == 0 then old(registry)[worker := lease] else old(registry)
    {
      if worker in registry {
        return -1;
      }
      if |registry| >= REGISTRY_CAPACITY {
        return -4;
      }
      registry := registry[worker := lease];
      return 0;
    }

    method EraseOpen(worker: int) returns (rc: int, out: Lease)
      modifies this
      ensures rc == if old(worker in registry) then 0 else -1
      ensures rc == 0 ==> out == old(registry)[worker] && registry == old(registry) - {worker}
      ensures rc != 0 ==> registry == old(registry)
    {
      out := Lease(-1, 0);
      if worker !in registry {
        return -1, out;
      }
      out := registry[worker];
      registry := registry - {worker};
      rc := 0;
    }
  }

  class Exchange {
    const gen: array<uint32>
    const closedGen: array<uint32>
    const dispatcher: Dispatcher
    var ready: seq<Pid>

    /** All calls made so far. */
    ghost var calls: seq<Call>

    ghost function View(): State
      reads this, gen, closedGen, dispatcher
    {
      State(ready, dispatcher.registry, gen[..], closedGen[..])
    }

    ghost predicate Valid()
      reads this, gen, closedGen, dispatcher
    {
      gen != closedGen && gen.Length == closedGen.Length == NUM_PARTITIONS && View() == After(calls)
    }

    /** All partitions are free. */
    constructor ()
      ensures Valid() && calls == [] && fresh(gen) && fresh(closedGen) && fresh(dispatcher)
    {
      gen := new uint32[NUM_PARTITIONS](_ => 0);
      closedGen := new uint32[NUM_PARTITIONS](_ => 0);
      dispatcher := new Dispatcher();
      ready, calls := [], [];
      new;
      for p := 0 to NUM_PARTITIONS
        invariant ready == seq(p, i requires 0 <= i < NUM_PARTITIONS => i) && calls == []
        invariant gen[..] == closedGen[..] == seq(NUM_PARTITIONS, _ => 0) && dispatcher.registry == map[]
      {
        var rc := PushReady(p);
        assert rc == 0;
      }
    }

    method PushReady(p: Pid) returns (rc: int)
      modifies this`ready
      ensures rc == 0 <==> old(|ready|) < QUEUE_CAPACITY
      ensures ready == if rc == 0 then old(ready) + [p] else old(ready)
    {
      if |ready| >= QUEUE_CAPACITY {
        return -1;
      }
      ready := ready + [p];
      return 0;
    }

    lemma Sound()
      requires Valid()
      ensures Inv(View())
    {
      RunKeeps(calls);
    }

    method IsClosedLease(pid: Pid, generation: uint32) returns (b: bool)
      requires Valid()
      ensures b == IsClosed(View(), Lease(pid, generation))
    {
      return closedGen[pid] == generation;
    }

    method CloseLease(pid: Pid, generation: uint32)
      requires Valid()
      modifies this`calls, closedGen
      ensures Valid() && calls == old(calls) + [Close(pid, generation)]
      ensures View() == old(View()).(closedGen := old(closedGen[..])[pid := generation])
    {
      AfterNext(calls, Close(pid, generation));
      closedGen[pid] := generation;
      calls := calls + [Close(pid, generation)];
      assert View().closedGen == old(View()).closedGen[pid := generation];
    }

    /** A free partition under a new generation; nothing for a worker that holds a lease, or when none is free. */
    method AcquireLease(worker: int) returns (r: Option<Lease>)
      requires Valid()
      modifies this, gen, closedGen, dispatcher
      ensures Valid() && calls == old(calls) + [Acquire(worker)]
      ensures r == if Grants(old(View()), worker) then Some(View().registry[worker]) else None
      ensures r.Some? <==> old(worker !in dispatcher.registry && ready != [])
      ensures r.None? ==> View() == old(View())
      ensures r.Some? ==>
        var s, p := old(View()), old(ready)[0];
        && r == Some(Lease(p, (s.gen[p] as int + 1) % 0x1_0000_0000))
        && View() == State(s.ready[1..], s.registry[worker := r.value], s.gen[p := r.value.gen], s.closedGen[p := 0])
    {
      hide After;
      ghost var was := View();
      Sound();
      AfterNext(calls, Acquire(worker));
      calls := calls + [Acquire(worker)];
      var open := dispatcher.TryGet(worker);
      if open.Some? {
        return None;
      }
      if ready == [] {
        return None;
      }
      var pid := ready[0];
      ready := ready[1..];
      gen[pid] := Next(gen[pid]);
      closedGen[pid] := 0;
      var lease := Lease(pid, gen[pid]);
      var rc := dispatcher.SetOpen(worker, lease);
      assert rc == 0;
      assert View() == Apply(was, Acquire(worker));
      return Some(lease);
    }

    /** Give back the worker's lease if it has been closed, whatever the caller believes about it. */
    method ReleaseLease(worker: int, pid: int, generation: uint32) returns (rc: int)
      requires Valid()
      modifies this, dispatcher
      ensures Valid() && calls == old(calls) + [Release(worker, pid, generation)]
      ensures rc == ReleaseCode(old(View()), worker, pid, generation)
      ensures old(worker !in dispatcher.registry) ==> rc == -1
      ensures old(worker in dispatcher.registry) ==>
        var lease := old(dispatcher.registry)[worker];
        && 0 <= lease.pid < NUM_PARTITIONS
        && rc == (if old(View()).closedGen[lease.pid] == lease.gen then 0
                  else if lease.pid != pid || lease.gen != generation then -2 else -3)
        && (rc == 0 ==>
              View() == old(View()).(ready := old(ready) + [lease.pid], registry := old(dispatcher.registry) - {worker}))
      ensures rc != 0 ==> View() == old(View())
    {
      hide After;
      ghost var was := View();
      Sound();
      AfterNext(calls, Release(worker, pid, generation));
      calls := calls + [Release(worker, pid, generation)];
      var open := dispatcher.TryGet(worker);
      if open.None? {
        return -1;
      }
      var lease := open.value;
      if lease.pid != pid || lease.gen != generation {
        var closed := closedGen[lease.pid] == lease.gen;
        if !closed {
          return -2;
        }
      }
      if closedGen[lease.pid] != lease.gen {
        return -3;
      }
      var erased;
      rc, erased := dispatcher.EraseOpen(worker);
      if rc != 0 {
        return rc;
      }
      assert erased == lease;
      var pushed := PushReady(lease.pid);
      assert pushed == 0;
      return 0;
    }
  }
}
