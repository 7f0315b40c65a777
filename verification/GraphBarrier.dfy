/** The superstep barrier of the exchange.  A thread inside the call is either past the loads that come before the lock,
    with the number of parties it read, or waiting under the superstep it observed. */
module GraphBarrier {

  datatype Place = Loaded(observed: nat, parties: nat) | Waiting(observed: nat)

  datatype Arrival = Arrival(thread: int, superstep: nat)

  datatype State = State(
    mode: bool,                  // graph mode; never switched off
    superstep: nat,
    parties: nat,
    arrived: nat,
    epoch: nat,
    places: map<int, Place>,     // the threads inside the call
    arrivals: set<Arrival>)      // all arrivals so far

  datatype Step =
    | Enter(thread: int, observed: nat)
    | Arrive(thread: int)
    | Wake(thread: int)
    | SetParties(requested: nat)
    | EnableMode
    | BeginEpoch

  function Initial(): State {
    State(false, 0, 0, 0, 0, map[], {})
  }

  predicate Enabled(s: State, step: Step) {
    match step
    case Enter(t, _) => t !in s.places
    case Arrive(t) => t in s.places && s.places[t].Loaded?
    case Wake(t) => t in s.places && s.places[t].Waiting? && s.superstep != s.places[t].observed
    case SetParties(_) => true
    case EnableMode => true
    case BeginEpoch => true
  }

  /** The arrival of a thread that finds the superstep it observed: the last one moves everyone on. */
  function Arrived(s: State, thread: int, observed: nat, parties: nat): State {
    var t := s.(arrivals := s.arrivals + {Arrival(thread, observed)});
    if s.arrived + 1 >= parties then t.(arrived := 0, superstep := observed + 1, places := s.places - {thread})
    else t.(arrived := s.arrived + 1, places := s.places[thread := Waiting(observed)])
  }

  function Apply(s: State, step: Step): State
    requires Enabled(s, step)
  {
    match step
    case Enter(t, observed) =>
      if !s.mode || s.parties == 0 then s else s.(places := s.places[t := Loaded(observed, s.parties)])
    case Arrive(t) =>
      if s.superstep != s.places[t].observed then s.(places := s.places - {t})
      else Arrived(s, t, s.places[t].observed, s.places[t].parties)
    case Wake(t) => s.(places := s.places - {t})
    case SetParties(n) => s.(parties := n % 0x1_0000_0000)
    case EnableMode => s.(mode := true)
    case BeginEpoch => if s.mode then s else s.(mode := true, superstep := 0, arrived := 0, epoch := s.epoch + 1)
  }

  function WaitingAt(s: State, superstep: nat): set<int> {
    set t | t in s.places && s.places[t] == Waiting(superstep)
  }

  function ArrivedAt(s: State, superstep: nat): set<int> {
    set a | a in s.arrivals && a.superstep == superstep :: a.thread
  }

  // ---------- Whatever the parties ----------

  /** The count is the number of threads waiting under the current superstep, and they are those that arrived at it. */
  ghost predicate Inv(s: State) {
    && s.arrived == |WaitingAt(s, s.superstep)|
    && WaitingAt(s, s.superstep) == ArrivedAt(s, s.superstep)
    && (forall t :: t in s.places && s.places[t].Waiting? ==> s.places[t].observed <= s.superstep)
    && (forall a :: a in s.arrivals ==> a.superstep <= s.superstep)
    && (!s.mode ==> s.places == map[] && s.arrivals == {} && s.superstep == 0)
  }

  /** The last arrival leaves nobody at the new superstep. */
  lemma LastArrivalKeeps(s: State, thread: int)
    requires Inv(s) && Enabled(s, Arrive(thread)) && Apply(s, Arrive(thread)).superstep != s.superstep
    ensures Inv(Apply(s, Arrive(thread)))
  {
    var t := Apply(s, Arrive(thread));
    forall w | w in t.places && t.places[w].Waiting? ensures t.places[w].observed < t.superstep {
      assert w in s.places && t.places[w] == s.places[w];
    }
    forall a | a in t.arrivals ensures a.superstep < t.superstep {}
    assert WaitingAt(t, t.superstep) == {};
    assert ArrivedAt(t, t.superstep) == {};
  }

  lemma ArriveKeeps(s: State, thread: int)
    requires Inv(s) && Enabled(s, Arrive(thread))
    ensures Inv(Apply(s, Arrive(thread)))
  {
    var t, observed := Apply(s, Arrive(thread)), s.places[thread].observed;
    if t.superstep != s.superstep {
      LastArrivalKeeps(s, thread);
    } else if s.superstep != observed {
      assert WaitingAt(t, t.superstep) == WaitingAt(s, s.superstep);
    } else {
      assert Arrival(thread, observed) in t.arrivals;
      assert WaitingAt(t, t.superstep) == WaitingAt(s, s.superstep) + {thread};
      assert ArrivedAt(t, t.superstep) == ArrivedAt(s, s.superstep) + {thread};
    }
  }

  lemma StepKeeps(s: State, step: Step)
    requires Inv(s) && Enabled(s, step)
    ensures Inv(Apply(s, step))
  {
    var t := Apply(s, step);
    if step.Arrive? {
      ArriveKeeps(s, step.thread);
    } else if !step.BeginEpoch? || s.mode {
      assert WaitingAt(t, t.superstep) == WaitingAt(s, s.superstep);
      assert ArrivedAt(t, t.superstep) == ArrivedAt(s, s.superstep);
    }
  }

  // ---------- Whole runs ----------

  ghost predicate Possible(steps: seq<Step>)
    decreases |steps|, 0
  {
    steps != [] ==> var n := |steps| - 1; Possible(steps[..n]) && Enabled(After(steps[..n]), steps[n])
  }

  ghost function After(steps: seq<Step>): State
    requires Possible(steps)
    decreases |steps|, 1
  {
    if steps == [] then Initial() else var n := |steps| - 1; Apply(After(steps[..n]), steps[n])
  }

  lemma {:induction false} AfterNext(steps: seq<Step>, step: Step)
    requires Possible(steps) && Enabled(After(steps), step)
    ensures Possible(steps + [step]) && After(steps + [step]) == Apply(After(steps), step)
  {
    assert (steps + [step])[..|steps|] == steps;
  }

  lemma {:induction false} RunKeeps(steps: seq<Step>)
    requires Possible(steps)
    ensures Inv(After(steps))
  {
    if steps != [] {
      hide Inv, Apply;
      var n := |steps| - 1;
      RunKeeps(steps[..n]);
      StepKeeps(After(steps[..n]), steps[n]);
    }
  }

  // ---------- Rounds ----------

  /** `step` is an arrival at superstep `r` that counts. */
  predicate Joins(s: State, step: Step, r: nat) {
    step.Arrive? && Enabled(s, step) && s.places[step.thread].observed == r == s.superstep
  }

  /** For each arrival at superstep `r`, in order, the number of parties that the thread had read. */
  ghost function Quotas(steps: seq<Step>, r: nat): seq<nat>
    requires Possible(steps)
  {
    if steps == [] then []
    else
      var n := |steps| - 1;
      var s := After(steps[..n]);
      Quotas(steps[..n], r) + if Joins(s, steps[n], r) then [s.places[steps[n].thread].parties] else []
  }

  /** A thread arrives at a superstep once. */
  lemma OneMore(s: State, thread: int)
    requires Inv(s) && Enabled(s, Arrive(thread)) && s.places[thread].observed == s.superstep
    ensures var t := Apply(s, Arrive(thread));
      && ArrivedAt(t, s.superstep) == WaitingAt(s, s.superstep) + {thread}
      && |ArrivedAt(t, s.superstep)| == s.arrived + 1
  {
    var t := Apply(s, Arrive(thread));
    assert Arrival(thread, s.superstep) in t.arrivals;
    assert ArrivedAt(t, s.superstep) == ArrivedAt(s, s.superstep) + {thread};
    assert thread !in WaitingAt(s, s.superstep);
  }

  /** As many have arrived at `r` as there are quotas; all but the last fell short of their quota; and round `r` is over
      exactly when the last did not. */
  ghost predicate Meets(s: State, quotas: seq<nat>, r: nat) {
    && |ArrivedAt(s, r)| == |quotas|
    && (forall i :: 0 <= i < |quotas| - 1 ==> i + 1 < quotas[i])
    && (s.superstep < r ==> quotas == [])
    && (r < s.superstep <==> quotas != [] && quotas[|quotas| - 1] <= |quotas|)
  }

  lemma JoinMeets(s: State, step: Step, quotas: seq<nat>, r: nat)
    requires Inv(s) && Joins(s, step, r) && Meets(s, quotas, r)
    ensures Meets(Apply(s, step), quotas + [s.places[step.thread].parties], r)
  {
    OneMore(s, step.thread);
  }

  lemma OtherMeets(s: State, step: Step, quotas: seq<nat>, r: nat)
    requires Inv(s) && Enabled(s, step) && !Joins(s, step, r) && Meets(s, quotas, r)
    ensures Meets(Apply(s, step), quotas, r)
  {
    assert ArrivedAt(Apply(s, step), r) == ArrivedAt(s, r);
  }

  /** In every run, however the number of parties changes: a round ends with the first arrival that finds as many
      arrived as it had read parties, and not before. */
  lemma {:induction false} RoundsEndExactly(steps: seq<Step>, r: nat)
    requires Possible(steps)
    ensures Meets(After(steps), Quotas(steps, r), r)
  {
    hide Inv, Meets, Apply, Joins;
    if steps == [] {
      NobodyMeets(r);
    } else {
      var n := |steps| - 1;
      var s := After(steps[..n]);
      RunKeeps(steps[..n]);
      RoundsEndExactly(steps[..n], r);
      if Joins(s, steps[n], r) {
        JoinMeets(s, steps[n], Quotas(steps[..n], r), r);
      } else {
        OtherMeets(s, steps[n], Quotas(steps[..n], r), r);
        assert Quotas(steps, r) == Quotas(steps[..n], r);
      }
    }
  }

  lemma NobodyMeets(r: nat)
    ensures Meets(Initial(), [], r)
  {
    assert ArrivedAt(Initial(), r) == {};
  }

  /** A round that is over has waited for `n` threads if and only if no arrival before the `n`-th had read a number of
      parties that was reached with it. */
  lemma {:induction false} WaitsForExactly(steps: seq<Step>, r: nat, n: nat)
    requires Possible(steps) && r < After(steps).superstep
    ensures var q := Quotas(steps, r);
      |ArrivedAt(After(steps), r)| >= n <==> forall i :: 0 <= i < |q| && i + 1 < n ==> i + 1 < q[i]
  {
    hide After, Possible, Quotas;
    RoundsEndExactly(steps, r);
    var q := Quotas(steps, r);
    if |q| < n { assert q[|q| - 1] <= |q|; }
  }

  /** A round ends with fewer threads than are configured if and only if the thread that arrives had read a number of
      parties that is reached with it, and that is below the configured one. */
  lemma {:induction false} EndsShortExactly(steps: seq<Step>, thread: int)
    requires Possible(steps) && Joins(After(steps), Arrive(thread), After(steps).superstep)
    ensures var s := After(steps);
      var t, arrivals := Apply(s, Arrive(thread)), s.arrived + 1;
      && s.arrived == |WaitingAt(s, s.superstep)|
      && arrivals == |ArrivedAt(t, s.superstep)|
      && t.superstep == s.superstep + (if s.places[thread].parties <= arrivals then 1 else 0)
      && (s.superstep < t.superstep && |ArrivedAt(t, s.superstep)| < t.parties <==>
            s.places[thread].parties <= arrivals < s.parties)
  {
    hide After, Possible;
    RunKeeps(steps);
    OneMore(After(steps), thread);
  }

  /** A waiting thread can go on exactly when some arrival at its superstep, the last one, has met its own quota. */
  lemma {:induction false} ReleasedExactly(steps: seq<Step>, thread: int)
    requires Possible(steps) && thread in After(steps).places && After(steps).places[thread].Waiting?
    ensures var s := After(steps);
      var q := Quotas(steps, s.places[thread].observed);
      && |ArrivedAt(s, s.places[thread].observed)| == |q|
      && (Enabled(s, Wake(thread)) <==> q != [] && q[|q| - 1] <= |q|)
  {
    hide After, Possible, Quotas;
    RunKeeps(steps);
    RoundsEndExactly(steps, After(steps).places[thread].observed);
  }

  // ---------- With one number of parties ----------

  /** All threads that arrived at `r` had read `parties`. */
  ghost predicate Agreed(steps: seq<Step>, r: nat, parties: nat)
    requires Possible(steps)
  {
    forall i :: 0 <= i < |Quotas(steps, r)| ==> Quotas(steps, r)[i] == parties
  }

  /** If those that arrive at one superstep agree, whatever is configured before and after, the round is over
      exactly when all parties have arrived, and never joined by more. */
  lemma {:induction false} RoundOfAll(steps: seq<Step>, r: nat, parties: nat)
    requires Possible(steps) && parties > 0 && Agreed(steps, r, parties)
    ensures var s := After(steps);
      && |ArrivedAt(s, r)| <= parties
      && (r < s.superstep <==> |ArrivedAt(s, r)| == parties)
      && (r == s.superstep ==> s.arrived == |WaitingAt(s, r)| == |ArrivedAt(s, r)| < parties)
  {
    hide After, Possible, Quotas;
    RunKeeps(steps);
    RoundsEndExactly(steps, r);
    var q := Quotas(steps, r);
    if |q| > 1 { assert |q| - 1 < q[|q| - 2]; }
  }

  /** Nothing but `parties` has been configured. */
  predicate Fixed(step: Step, parties: nat) {
    step.SetParties? ==> step.requested % 0x1_0000_0000 == parties
  }

  ghost predicate AllRead(s: State, parties: nat) {
    && s.parties in {0, parties}
    && forall t :: t in s.places && s.places[t].Loaded? ==> s.places[t].parties == parties
  }

  lemma {:induction false} FixedAgreed(steps: seq<Step>, r: nat, parties: nat)
    requires Possible(steps) && forall i :: 0 <= i < |steps| ==> Fixed(steps[i], parties)
    ensures AllRead(After(steps), parties) && Agreed(steps, r, parties)
  {
    if steps != [] {
      var n := |steps| - 1;
      assert forall i :: 0 <= i < n ==> steps[..n][i] == steps[i];
      FixedAgreed(steps[..n], r, parties);
      assert Fixed(steps[n], parties);
    }
  }

  /** With one number of parties configured, in every run: fewer than the parties are ever waiting, all rounds that are
      over were joined by all parties, and a waiting thread can go on exactly when all have arrived at its superstep. */
  lemma {:induction false} ReleasedByAll(steps: seq<Step>, parties: nat)
    requires Possible(steps) && parties > 0 && forall i :: 0 <= i < |steps| ==> Fixed(steps[i], parties)
    ensures var s := After(steps);
      && s.arrived == |WaitingAt(s, s.superstep)| < parties
      && (forall r: nat :: r < s.superstep <==> |ArrivedAt(s, r)| == parties)
      && (forall t :: t in s.places && s.places[t].Waiting? ==>
            (Enabled(s, Wake(t)) <==> |ArrivedAt(s, s.places[t].observed)| == parties))
  {
    hide After, Possible, Quotas;
    RunKeeps(steps);
    var s := After(steps);
    forall r: nat ensures r < s.superstep <==> |ArrivedAt(s, r)| == parties {
      FixedAgreed(steps, r, parties);
      RoundOfAll(steps, r, parties);
    }
    FixedAgreed(steps, s.superstep, parties);
    RoundOfAll(steps, s.superstep, parties);
  }

  /** The superstep moves by one, when the last party has arrived at it, and by nothing else. */
  lemma {:induction false} OneStepEachRound(steps: seq<Step>, parties: nat, step: Step)
    requires Possible(steps) && parties > 0 && forall i :: 0 <= i < |steps| ==> Fixed(steps[i], parties)
    requires Enabled(After(steps), step)
    ensures var s, t := After(steps), Apply(After(steps), step);
      var last := step.Arrive? && s.places[step.thread].observed == s.superstep && s.arrived == parties - 1;
      && t.superstep == s.superstep + (if last then 1 else 0)
      && (last ==> t.arrived == 0 && ArrivedAt(t, s.superstep) == WaitingAt(s, s.superstep) + {step.thread})
  {
    hide After, Possible, Quotas;
    RunKeeps(steps);
    ReleasedByAll(steps, parties);
    FixedAgreed(steps, 0, parties);
    var s := After(steps);
    if step.Arrive? && s.places[step.thread].observed == s.superstep { OneMore(s, step.thread); }
  }

  /** Where the threads do not agree a round can end short: here thread 1 read one party before there were three, and passes alone. */
  lemma PartiesMustBeFixed()
    ensures var steps := [EnableMode] + [SetParties(1)] + [Enter(1, 0)] + [SetParties(3)] + [Arrive(1)];
      && Possible(steps)
      && After(steps).parties == 3 && After(steps).superstep == 1 && |ArrivedAt(After(steps), 0)| == 1
  {
    AfterNext([], EnableMode);
    AfterNext([] + [EnableMode], SetParties(1));
    assert [] + [EnableMode] == [EnableMode];
    AfterNext([EnableMode] + [SetParties(1)], Enter(1, 0));
    AfterNext([EnableMode] + [SetParties(1)] + [Enter(1, 0)], SetParties(3));
    AfterNext([EnableMode] + [SetParties(1)] + [Enter(1, 0)] + [SetParties(3)], Arrive(1));
    var steps := [EnableMode] + [SetParties(1)] + [Enter(1, 0)] + [SetParties(3)] + [Arrive(1)];
    assert After(steps).arrivals == {Arrival(1, 0)};
    assert ArrivedAt(After(steps), 0) == {1};
  }

  // ---------- The barrier ----------

  /** The fields of the exchange that the barrier uses.  A call is cut where it takes, leaves or gives up the lock. */
  class Barrier {
    var mode: bool
    var superstep: nat
    var parties: nat
    var arrived: nat
    var epoch: nat
    ghost var places: map<int, Place>
    ghost var arrivals: set<Arrival>
    ghost var steps: seq<Step>

    ghost function View(): State
      reads this
    {
      State(mode, superstep, parties, arrived, epoch, places, arrivals)
    }

    ghost predicate Valid()
      reads this
    {
      Possible(steps) && View() == After(steps)
    }

    constructor ()
      ensures Valid() && steps == []
    {
      mode, superstep, parties, arrived, epoch := false, 0, 0, 0, 0;
      places, arrivals, steps := map[], {}, [];
    }

    method SetGraphBarrierParties(requested: nat)
      requires Valid()
      modifies this
      ensures Valid() && steps == old(steps) + [SetParties(requested)]
      ensures View() == old(View()).(parties := requested % 0x1_0000_0000)
    {
      AfterNext(steps, SetParties(requested));
      parties := requested % 0x1_0000_0000;
      steps := steps + [SetParties(requested)];
    }

    method EnableGraphMode()
      requires Valid()
      modifies this
      ensures Valid() && steps == old(steps) + [EnableMode]
      ensures View() == old(View()).(mode := true)
    {
      AfterNext(steps, EnableMode);
      mode := true;
      steps := steps + [EnableMode];
    }

    method BeginGraphEpoch()
      requires Valid()
      modifies this
      ensures Valid() && steps == old(steps) + [BeginEpoch]
      ensures View() ==
        if old(mode) then old(View())
        else old(View()).(mode := true, superstep := 0, arrived := 0, epoch := old(epoch) + 1)
    {
      AfterNext(steps, BeginEpoch);
      var wasEnabled := mode;
      mode := true;
      if !wasEnabled {
        superstep, arrived, epoch := 0, 0, epoch + 1;
      }
      steps := steps + [BeginEpoch];
    }

    /** From the call to the lock: the number of parties, or nothing to wait for. */
    method LoadParties(ghost thread: int, observed: nat) returns (loaded: nat)
      requires Valid() && thread !in places
      modifies this
      ensures Valid() && steps == old(steps) + [Enter(thread, observed)]
      ensures loaded != 0 <==> thread in places
      ensures loaded != 0 ==> places[thread] == Loaded(observed, loaded)
      ensures loaded == if old(mode) then old(parties) else 0
      ensures View() == old(View()).(places := places)
      ensures places == if loaded == 0 then old(places) else old(places)[thread := Loaded(observed, loaded)]
    {
      AfterNext(steps, Enter(thread, observed));
      steps := steps + [Enter(thread, observed)];
      if !mode {
        return 0;
      }
      loaded := parties;
      if loaded == 0 {
        return 0;
      }
      places := places[thread := Loaded(observed, loaded)];
    }

    /** From the lock to the wait, or to the end of the call. */
    method ArriveAt(ghost thread: int, observed: nat, loaded: nat) returns (waits: bool)
      requires Valid() && thread in places && places[thread] == Loaded(observed, loaded)
      modifies this
      ensures Valid() && steps == old(steps) + [Arrive(thread)]
      ensures waits <==> thread in places && places[thread] == Waiting(observed)
      ensures !waits ==> thread !in places
      ensures waits <==> old(superstep) == observed && old(arrived) + 1 < loaded
      ensures var s, late, last := old(View()), old(superstep) != observed, old(arrived) + 1 >= loaded;
        View() == s.(
          arrivals := if late then s.arrivals else s.arrivals + {Arrival(thread, observed)},
          arrived := if late then s.arrived else if last then 0 else s.arrived + 1,
          superstep := if !late && last then s.superstep + 1 else s.superstep,
          places := if waits then s.places[thread := Waiting(observed)] else s.places - {thread})
    {
      AfterNext(steps, Arrive(thread));
      steps := steps + [Arrive(thread)];
      if superstep != observed {
        places := places - {thread};
        return false;
      }
      arrivals := arrivals + {Arrival(thread, observed)};
      arrived := arrived + 1;
      if arrived >= loaded {
        arrived := 0;
        superstep := observed + 1;
        places := places - {thread};
        return false;
      }
      places := places[thread := Waiting(observed)];
      return true;
    }

    /** The wait looks at the superstep, under the lock. */
    method WakeUp(ghost thread: int, observed: nat) returns (done: bool)
      requires Valid() && thread in places && places[thread] == Waiting(observed)
      modifies this
      ensures Valid()
      ensures done <==> old(superstep) != observed
      ensures steps == if done then old(steps) + [Wake(thread)] else old(steps)
      ensures View() == if done then old(View()).(places := old(places) - {thread}) else old(View())
    {
      if superstep == observed {
        return false;
      }
      AfterNext(steps, Wake(thread));
      steps := steps + [Wake(thread)];
      places := places - {thread};
      return true;
    }
  }
}
