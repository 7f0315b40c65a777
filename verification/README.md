# Yellowstone: event delivery, verified in Dafny

Yellowstone is an event system: publishers fan events out into bounded, coalescing partitions, one for each subscriber;
consumers drain the partitions; a deadline scheduler holds events back until they are due. This project models its four
live components and two of its older protocols, and proves what they promise.

| files | component |
|---|---|
| `Orders`, `Results` | strict weak orders; the outcomes of calls that throw |
| `PairingTree`, `PairingPotential`, `HeapHistory`, `PairingHeap` | the meldable pairing heap on raw nodes |
| `SchedulerModel`, `Scheduler` | the deadline scheduler with its timing thread |
| `PartitionModel`, `Partition`, `PartitionLedger` | the bounded, coalescing queue of one subscriber |
| `EventBusModel`, `Subscribers`, `EventBus` | fan-out into all partitions under concurrent consumers |
| `Forwarding` | scheduler and bus together |
| `ExchangeModel`, `Exchange` | the lease protocol that hands partitions to workers |
| `GraphBarrier` | the superstep barrier |
| `Sequencer` | the single-producer sequencer with its cached gating value |

Three patterns recur.

*Objects against functions.* What the program changes in place is a class here, with the same fields and loops. Each
method is proved against a function on plain values (a tree for the linked nodes, one list for the partition's map of
lists and index, a state for the scheduler), and the promises are theorems about those functions.

*Step machines.* Where threads interleave, a step is one region under a lock or one atomic access. An invariant is shown
to survive every step, hence to hold after every run. The bus, the exchange and the barrier carry their history as ghost
state, and their class invariant says that they are in a state that the machine reaches by that history, so theorems about
runs are theorems about the objects. The scheduler's methods each make exactly one enabled step of its machine, whose
invariant is part of the class invariant. Likewise a heap object carries its history, so that the amortised bound is a
theorem about the comparisons that the object has cost.

*Exact conditions.* Where the code keeps a promise only under a condition, that condition is proved to be exact, and a
lemma exhibits a run in which the promise fails without it:

- A lease is reclaimed if and only if the last close since its grant names it, or its 32-bit generation has wrapped to
  zero and there was no close at all (`ReclaimedExactly`, `WrappedLeaseIsClosed`). A later stale close undoes a close
  (`StaleCloseReopens`, `StaleCloseExample`).
- A request ends before its deadline if and only if the last time the wall clock is set while the request is in flight, it
  is set below the deadline; what the clock does at any other time does not matter (`EarlyExactly`, `PublishedOnTime`,
  `SetBackIsEarly`). A deadline in nanoseconds is cut down to clock ticks (`TimePointPrecision`).
- A round of the barrier ends with the first arrival that finds as many arrived as it had read parties; it ends short of
  the configured parties if and only if that reading is out of date and has been reached (`RoundsEndExactly`,
  `WaitsForExactly`, `EndsShortExactly`, `PartiesMustBeFixed`). Where those that arrive at one superstep have read the same
  number, all of them are waited for (`RoundOfAll`, `ReleasedByAll`).
- The sequencer's cache decides as a fresh reading would, except exactly when the consumer has gone back behind what the
  cache covers (`CacheIsExact`, `GoingBackOverclaims`). No more claims than slots are ahead of the consumer, all the time,
  if and only if no claim is made in that state and the consumer itself never moves behind the slots that are out
  (`WithinExactly`); a consumer that does not go back meets this (`ClaimsAreSafe`).

## The heap

A node has four links; a ghost tree in child/sibling form says what the reachable nodes stand for (`Linked`). The
two-pass combine, the cut of a node out of its siblings, and the non-recursive destruction, which rotates first children
in front of their parents, are proved on the links. The cost bound uses, as potential, the product over all nodes of the
size of their subtree in the child/sibling view; everything is in natural numbers, with powers of two in place of
logarithms. The comparator is taken to be a strict weak order, as `std::priority_queue` asks.

## The scheduler, the partition and the bus

The order theorem of the scheduler covers every interleaving of new requests, overflow retries, backoff, stop and restart,
and a clock that moves arbitrarily. A stop makes the thread leave within three steps and loses nothing; a start resumes. The partition's map of levels and its index refine one list; the ledger follows every
push to the one event it ends up in. In the bus a subscription is kept as the history of its partition, so that the
ledger's theorem holds of every subscriber; the partitions themselves are the objects of `Partition`, kept apart from one
another. In `Forwarding`
scheduler and bus run together, along with consumers and other publishers: a forwarded request has been published by one
call, once into each target, and the calls that were refused before it inserted nothing.

## Model

| member | source | states |
|---|---|---|
| `PairingHeaps.PairingHeap.Top` | include/yellowstone/collections/pairing_heap.inl:96-105 | the empty heap is out of range; otherwise the answer is the value of a live handle that no live value outranks |
| `PairingHeaps.PairingHeap.Emplace` | include/yellowstone/collections/pairing_heap.inl:119-138 | a new handle is added to the map of live handles, all others keep their values, the size grows by one, and the root changes only if the new value outranks it |
| `PairingHeaps.PairingHeap.Pop` | include/yellowstone/collections/pairing_heap.inl:140-156 | empty: out of range; otherwise exactly the root leaves and is freed, the first of its children that no other outranks follows it, and there is one comparison fewer than children |
| `PairingHeaps.PairingHeap.ExtractTop` | include/yellowstone/collections/pairing_heap.inl:158-170 | returns a value that none outranks and removes its handle alone |
| `PairingHeaps.PairingHeap.MeldWith` | include/yellowstone/collections/pairing_heap.inl:172-185 | the live handles of both heaps with their values, and none in the other; the other root comes out on top only if it outranks this one; melding with itself changes nothing |
| `PairingHeaps.PairingHeap.IncreasePriority` | include/yellowstone/collections/pairing_heap.inl:187-222 | an empty handle and a lower value are refused; otherwise only that handle's value changes and the heap order holds again |
| `PairingHeaps.PairingHeap.Reposition` | include/yellowstone/collections/pairing_heap.inl:208-221 | wherever the raised node stands (root, first child, in the middle or last), the links end up consistent and describe the raised heap |
| `PairingHeaps.PairingHeap.DetachFromParent` | include/yellowstone/collections/pairing_heap.inl:348-375 | exactly the links of the node and of its neighbours change, in each of the four cases |
| `PairingHeaps.Unhook` | include/yellowstone/collections/pairing_heap.inl:348-375 | with those links changed, the rest of the heap and the cut subtree are two consistent structures |
| `PairingHeaps.PairingHeap.MeldNodes` | include/yellowstone/collections/pairing_heap.inl:243-278 | two single trees on disjoint nodes become the melded tree, with a root free of links |
| `PairingHeaps.PairingHeap.CombineChildren` | include/yellowstone/collections/pairing_heap.inl:280-346 | any well-formed sibling list becomes the one tree that `Combine` describes, with a root free of links; for `k` children, `k - 1` comparisons |
| `PairingHeaps.PairingHeap.PairRoots` | include/yellowstone/collections/pairing_heap.inl:288-323 | the first pass leaves the pairs as a well-formed stack in the sibling links, on the same nodes |
| `PairingHeaps.PairingHeap.MeldRoots` | include/yellowstone/collections/pairing_heap.inl:325-345 | the second pass takes that stack apart and melds it from right to left |
| `PairingHeaps.PairingHeap.DestroyTree` | include/yellowstone/collections/pairing_heap.inl:377-408 | terminates after `2n - 1` rounds for a heap of `n` nodes, frees every node once, in postorder, and reads no freed node |
| `PairingHeaps.PairingHeap.LiftChild` | include/yellowstone/collections/pairing_heap.inl:386-401 | a rotation of the traversal chain: nothing live is lost |
| `PairingHeaps.PairingHeap.Clear` | include/yellowstone/collections/pairing_heap.inl:224-230 | the heap is empty and every handle's node has been freed |
| `PairingHeaps.PairingHeap.Amortised` | include/yellowstone/collections/pairing_heap.inl:243-346 | the comparator calls that an actual heap object has cost over its whole life are at most three logarithms for each emplacement, pop and raise, and none for melds |
| `PairingTree.PassesCombine` | include/yellowstone/collections/pairing_heap.inl:288-345 | the two loops over a reversed stack compute the recursive pairing of adjacent roots, melded from the right |
| `PairingTree.CombineEntries` | include/yellowstone/collections/pairing_heap.inl:280-346 | combining keeps every node and its value |
| `PairingTree.CombineOrdered` | include/yellowstone/collections/pairing_heap.inl:280-346 | combining heap-ordered trees yields a heap-ordered tree |
| `PairingTree.CombineTop` | include/yellowstone/collections/pairing_heap.inl:280-346 | of any list of trees, the first root that no other outranks comes out on top |
| `PairingTree.WinnerIsFirst` | include/yellowstone/collections/pairing_heap.inl:256-261 | that root outranks all before it and is outranked by none behind it, so ties go to the left |
| `PairingTree.PopKeeps` | include/yellowstone/collections/pairing_heap.inl:140-156 | popping a heap leaves a heap of all entries but the root's |
| `PairingTree.TopIsGreatest` | include/yellowstone/collections/pairing_heap.hpp:33-35 | in a heap no entry outranks the root |
| `PairingTree.RaiseEntries` | include/yellowstone/collections/pairing_heap.inl:208-221 | cutting and melding changes the raised value and nothing else |
| `PairingTree.RaiseIsHeap` | include/yellowstone/collections/pairing_heap.inl:202-221 | a value not lower in priority leaves a heap, although the order test looks at the parent alone |
| `PairingTree.DrainIsPermutation` | include/yellowstone/collections/pairing_heap.inl:140-156 | popping until empty yields every entry exactly once |
| `PairingTree.DrainIsSorted` | include/yellowstone/collections/pairing_heap.hpp:33-35 | and never one before an entry that outranks it |
| `PairingTree.PostorderOnce` | include/yellowstone/collections/pairing_heap.inl:377-408 | the order of destruction names every node exactly once |
| `PairingTree.LiftPostorder` | include/yellowstone/collections/pairing_heap.inl:386-401 | lifting a child does not change that order |
| `HeapHistory.HistoryIsHeap` | include/yellowstone/collections/pairing_heap.inl:119-230 | after every sequence of operations, melds of whole histories included, the structure is one heap |
| `HeapHistory.HistoryRefinesMap` | include/yellowstone/collections/pairing_heap.hpp:37-39 | every operation, whatever came before, acts on the map from live handles to values as the abstract priority queue does; surviving handles keep their meaning |
| `HeapHistory.HistorySize` | include/yellowstone/collections/pairing_heap.hpp:108-111 | the size is the number of live handles |
| `HeapHistory.AmortisedComparisons` | include/yellowstone/collections/pairing_heap.inl:243-346 | over every history with `n` emplacements, two to the number of comparisons is at most `(2n)` to the charges: 1 for an emplacement, 3 for a pop or a raise, 2 for a meld of two heaps into which something was put |
| `HeapHistory.MeldsAreFree` | include/yellowstone/collections/pairing_heap.hpp:126-132 | melds cost nothing when emplacements are charged 3 as well: their number does not appear in the bound |
| `PairingPotential.EmplacePotential` | include/yellowstone/collections/pairing_heap.inl:119-138 | a push into `n` nodes multiplies the potential by exactly `n + 1` |
| `PairingPotential.CombinePotential` | include/yellowstone/collections/pairing_heap.inl:280-346 | for `k` roots and `m` nodes, `2^k` times the new potential is at most `4 m^3` times the old |
| `PairingPotential.PopPotential` | include/yellowstone/collections/pairing_heap.inl:140-156 | the same for a pop, gaining the factor of the removed root's size |
| `PairingPotential.RaisePotential` | include/yellowstone/collections/pairing_heap.inl:187-222 | raising a priority among `n` nodes multiplies the potential by at most `n` |
| `SchedulerModel.EarlierDeadlineIsOrder` | include/yellowstone/scheduler.inl:34-46 | the comparator is a strict weak order |
| `SchedulerModel.TimePointPrecision` | include/yellowstone/scheduler.inl:48-60 | a stored time point is the last tick not after the nanoseconds asked for; a clock that has reached it is less than one tick early, and is not early exactly when the nanoseconds are whole ticks |
| `SchedulerModel.ExtractsObserved` | include/yellowstone/scheduler.inl:330-360 | the request extracted is the one that was observed, and it is due, though the wait looks only for a smaller root |
| `SchedulerModel.RootChangedExactly` | include/yellowstone/scheduler.inl:285-304 | in every reachable wait, the test says changed exactly if the observed request is no longer the first |
| `SchedulerModel.ThreadMoves` | include/yellowstone/scheduler.inl:313-423 | from where the timing thread is, where any step of it leads and what it leaves alone |
| `SchedulerModel.ThreadCanMove` | include/yellowstone/scheduler.inl:313-423 | the thread is never stuck: it has a step unless it waits for work and there is none, or for a deadline that has not come |
| `SchedulerModel.StepKeeps` | include/yellowstone/scheduler.inl:147-424 | conservation, order, deadlines, observation, counters and flags survive every step of callers, clock and timing thread |
| `SchedulerModel.OverflowKeeps` | include/yellowstone/scheduler.inl:394-410 | a request that finds a partition full goes back without being lost, duplicated or overtaken |
| `SchedulerModel.OverflowBacksOff` | include/yellowstone/scheduler.inl:394-410 | after an overflow, whatever others do, the only step of the thread is the end of the backoff |
| `SchedulerModel.ForwardedInOrder` | include/yellowstone/scheduler.inl:306-424 | in every run: accepted first and due no later implies forwarded or failed first |
| `SchedulerModel.RequestsConserved` | include/yellowstone/scheduler.inl:147-241 | each accepted request is in exactly one of pending, finished and in flight, and finished once; the counters add up; nothing is in flight once stopped |
| `SchedulerModel.StopEnds` | include/yellowstone/scheduler.inl:225-241 | in every run a completed stop leaves no thread, nothing running or accepting, all requests where they were, and a scheduler that can be started |
| `SchedulerModel.RestartResumes` | include/yellowstone/scheduler.inl:195-223 | starting after a completed stop: running and accepting, with the same requests pending |
| `SchedulerModel.RefusedUntilStart` | include/yellowstone/scheduler.inl:228-231 | once requests are refused, none is accepted until a thread has been started again |
| `SchedulerModel.StopLeaves` | include/yellowstone/scheduler.inl:313-361 | asked to stop, the thread extracts nothing more, takes at most three steps, and always has one until it has left its loop |
| `SchedulerModel.ExtractedOnTime` | include/yellowstone/scheduler.inl:330-360 | whatever the clock does, it had reached the stored deadline when a request was extracted |
| `SchedulerModel.EarlyExactly` | include/yellowstone/scheduler.inl:330-423 | for each request that has left, in every run: its end is early if and only if the last tick of its last flight, if any, is below its deadline |
| `SchedulerModel.FlightLasts` | include/yellowstone/scheduler.inl:358-363 | from extraction to the end of a publication the same request is in flight, whatever else happens |
| `SchedulerModel.PublishedOnTime` | include/yellowstone/scheduler.inl:358-423 | over every run: nothing is early if and only if no flight ends with the clock set below the deadline |
| `SchedulerModel.SetBackIsEarly` | include/yellowstone/scheduler.inl:358-392 | a run with a clock set back in which a request for time 5 is forwarded at time 0 |
| `Schedulers.Scheduler.Make` | include/yellowstone/scheduler.inl:8-26 | a retry delay that is not positive is an invalid argument, a thread that cannot be created a system error; otherwise the new scheduler has been started |
| `Schedulers.Scheduler.Schedule` | include/yellowstone/scheduler.inl:147-193 | refused when not accepting; otherwise the next id and insertion order, and the request as asked for is accepted and pending |
| `Schedulers.Scheduler.ScheduleAtUnixNanoseconds` | include/yellowstone/scheduler.inl:79-101 | timestamps that are not positive are refused before anything else; otherwise the accepted request carries what was asked for, and its deadline is the last tick not after the nanoseconds |
| `Schedulers.Scheduler.Start` | include/yellowstone/scheduler.inl:195-223 | nothing when running; undone and reported when the thread cannot be created |
| `Schedulers.Scheduler.Join` | include/yellowstone/scheduler.inl:233-241 | the end of a stop: no thread, not running, ready to be started again |
| `Schedulers.Scheduler.TopIsRoot` | include/yellowstone/scheduler.inl:34-46 | the heap's root is the earliest pending request, first come first served among equals |
| `Schedulers.Scheduler.RootHasChanged` | include/yellowstone/scheduler.inl:285-304 | looking at the root alone decides whether any pending request comes before the observed one |
| `Schedulers.Scheduler.LoopAgain` | include/yellowstone/scheduler.inl:313-332 | leaves, waits for work, or observes the earliest request |
| `Schedulers.Scheduler.WakeAtDeadline` | include/yellowstone/scheduler.inl:334-361 | stop wins over an interruption, which wins over extraction; only the earliest request is extracted, when due |
| `Schedulers.Scheduler.PublicationOverflows` | include/yellowstone/scheduler.inl:394-410 | a request that found a partition full is pending again under its own deadline and insertion order, and the thread backs off |
| `Schedulers.Scheduler.PublicationEnds` | include/yellowstone/scheduler.inl:387-422 | a request that has left for good, forwarded or failed, is counted once |
| `PartitionModel.PushKeepsShape` | include/yellowstone/partition.inl:56-83 | keys stay unique, supersteps stay ordered, the capacity is kept, and what was not refused is there |
| `PartitionModel.PushDoes` | include/yellowstone/partition.inl:56-83 | entry by entry: a push of a key that is there replaces its payload by the merger's answer to the old and the new one, in this order; otherwise it is refused exactly if the capacity is reached, and else goes behind all entries up to its superstep |
| `PartitionModel.PopsKeepAcceptance` | include/yellowstone/partition.inl:48-54 | what could be accepted can still be accepted after any number of pops |
| `PartitionModel.AcceptanceIsExact` | include/yellowstone/partition.inl:48-72 | a push is refused if and only if the check would have said so |
| `PartitionModel.SlotUnique` | include/yellowstone/partition.inl:74-76 | the end of the level of a superstep is the one place that keeps the list ordered |
| `Partitions.Partition.PushEvent` | include/yellowstone/partition.inl:56-83 | map of levels, index and size counter together do that to the one list; no level is empty, and the index leads to live positions of its keys |
| `Partitions.Partition.MergeInto` | include/yellowstone/partition.inl:63-67 | where the index points, and only there, the payload becomes the merger's answer to the stored and the incoming one |
| `Partitions.Partition.Append` | include/yellowstone/partition.inl:74-78 | appending to a level is inserting at the right place of the whole list |
| `Partitions.Partition.PopEvent` | include/yellowstone/partition.inl:85-109 | the first event of the lowest level is the first of the whole list, and exactly it leaves |
| `Partitions.Partition.CanAcceptEvent` | include/yellowstone/partition.inl:48-54 | answers for the list what the index and counter say |
| `Partitions.MakePartition` | include/yellowstone/partition.inl:10-30 | refused exactly when there is no capacity or no merger |
| `Partitions.FlattenInserts` | include/yellowstone/partition.inl:74-76 | appending to one list of an ordered map of lists, in terms of the whole |
| `Partitions.FlattenPops` | include/yellowstone/partition.inl:94-106 | taking from the first list, and dropping it when empty, in terms of the whole |
| `PartitionLedger.LedgerHolds` | include/yellowstone/partition.inl:56-109 | after every history each accepted push is in exactly one pending or popped event, and that event has the id, superstep and sequence number of its first push and the left fold of the merger over the payloads of the pushes of its key since the key was last absent, in push order |
| `PartitionLedger.LatestWins` | include/yellowstone/event_bus.inl:54-60 | with the merger that is used when none is given, every event, pending or popped, carries the payload of the last push behind it |
| `PartitionLedger.FoldNext` | include/yellowstone/partition.inl:63-66 | one more push of a key: the merger is given what there is so far and the new payload; id, superstep and sequence number stay |
| `PartitionLedger.AcceptedOnce` | include/yellowstone/partition.inl:56-109 | after every history an accepted push is behind exactly one entry, popped or pending, and that is of its key |
| `PartitionLedger.StepKeepsLedger` | include/yellowstone/partition.inl:61-108 | each push and pop keeps the ledger |
| `EventBusModel.InsertFindsRoom` | include/yellowstone/event_bus.inl:185-199 | in every invariant state the second pass finds room, whatever consumers have popped meanwhile |
| `EventBusModel.ActionKeeps` | include/yellowstone/event_bus.inl:69-235 | the invariant survives every action of publishers, consumers and membership changes |
| `EventBusModel.ActionKeepsAccepting` | include/yellowstone/event_bus.inl:185-199 | no partition ever refuses a push of the bus |
| `EventBusModel.AllOrNothing` | include/yellowstone/event_bus.inl:163-202 | after every run: a refused event was pushed into no partition; a completed one into as many as reported, and into exactly its targets, in each of which it is accepted and behind exactly one entry; no call ever found a checked partition full |
| `EventBusModel.RoomyIsNotRefused` | include/yellowstone/event_bus.inl:175-181 | no action of anyone refuses a call whose targets all have room, or takes the room away |
| `EventBusModel.RoomyCallCompletes` | include/yellowstone/event_bus.inl:175-201 | over every run: a call whose targets have room when it begins can end only by completing |
| `EventBusModel.ActionKeepsCount` | include/yellowstone/event_bus.inl:192-195 | the coalesced count is the number of targets in which the push met an entry of its key |
| `EventBusModel.HandledInOrder` | include/yellowstone/event_bus.inl:339-351 | over every run each subscriber handles a superstep in publication order, and its queue is strictly ordered by superstep and sequence number |
| `EventBusModel.RunIsFifo` | include/yellowstone/partition.inl:56-109 | for one partition, pops and coalescing pushes keep each superstep in the order of the sequence numbers, received and queued entries taken together |
| `Subscribers.SlotTable.PushAt` | include/yellowstone/event_bus.inl:185-187 | a push into one subscriber's partition object changes what that partition holds and no other |
| `Subscribers.SlotTable.PopAt` | include/yellowstone/event_bus.inl:339-342 | a pop from one partition object takes the first event of its list and leaves all others alone |
| `Subscribers.SlotTable.Fill` | include/yellowstone/event_bus.inl:91-103 | a new subscriber gets an empty partition that shares nothing with the others |
| `EventBuses.EventBus.Publish` | include/yellowstone/event_bus.inl:163-202 | reports an overflow and the event is in no partition's history, or reports the number of subscribers and the event has been accepted once by each partition, whatever others pop, start or stop meanwhile; always succeeds if all had room; the sequence number is spent either way |
| `EventBuses.EventBus.PublishOne` | include/yellowstone/event_bus.inl:204-235 | unknown subscribers are out of range and spend no number; past the check exactly one partition is reached, once, and no other; before it, none |
| `EventBuses.EventBus.Deliver` | include/yellowstone/event_bus.inl:183-201 | the loop never meets a full partition and counts every target once |
| `EventBuses.EventBus.Preflight` | include/yellowstone/event_bus.inl:175-181 | succeeds only after every target has been seen to have room |
| `EventBuses.EventBus.Consume` | include/yellowstone/partition.inl:119-139 | the subscriber receives the first event of its queue and no other queue changes; neither the call under way nor the room it counts on is disturbed |
| `EventBuses.EventBus.Subscribe` | include/yellowstone/event_bus.inl:69-106 | the refusals in their order; otherwise the first free slot gets an empty partition, and no other slot changes |
| `EventBuses.EventBus.Unsubscribe` | include/yellowstone/event_bus.inl:109-128 | refused while running or when there is no such subscriber; otherwise that slot alone is freed |
| `EventBuses.MakeBus` | include/yellowstone/event_bus.inl:39-61 | zero capacity is an invalid argument; without a merger the later payload replaces the earlier |
| `Forwarding.ForwardedOnce` | include/yellowstone/scheduler.inl:363-410 | over every run of scheduler, bus, consumers and other publishers: a forwarded request has exactly one completed call, which carries what was scheduled and was accepted once by each target; all other calls for it were refused and inserted nothing |
| `Forwarding.NothingSentYet` | include/yellowstone/scheduler.inl:394-422 | a request that is pending, first or again, has inserted nothing; nor has one that failed, which takes a subscriber that does not exist |
| `Forwarding.StepKeeps` | include/yellowstone/scheduler.inl:358-423 | every step of the composed system keeps scheduler, bus, and what has been done for each request in agreement |
| `ExchangeModel.LeasesConserved` | source/exchange.cc:168-283 | in every reachable state a partition is free exactly when no lease names it, at most once, and in at most one lease; the containers never fill |
| `ExchangeModel.GrantedInTurn` | source/exchange.cc:126-134 | over every run partitions are granted in turn: first all in their order, then each in the order in which it was given back |
| `ExchangeModel.CallKeeps` | source/exchange.cc:143-283 | every call keeps that |
| `ExchangeModel.LeaseIsFrozen` | source/exchange.cc:200-221 | a lease stays as granted, and the closed generation of its partition is the last one named since, or zero |
| `ExchangeModel.ReclaimedExactly` | source/exchange.cc:242-282 | released if and only if the last close since the grant names its partition and generation, or it wrapped to zero and nothing was closed since; the caller's own claim does not matter, and a failed release changes nothing |
| `ExchangeModel.NoStaleReclaim` | source/exchange.cc:136-156 | with fewer than 2^32 grants of the partition there was a close of exactly this partition and generation after the grant |
| `ExchangeModel.GenerationCounts` | source/exchange.cc:202-207 | the generation is the number of grants, modulo 2^32 |
| `ExchangeModel.WrappedLeaseIsClosed` | source/exchange.cc:202-213 | a run of 2^32 grants whose last lease can be released without having been closed |
| `ExchangeModel.StaleCloseReopens` | source/exchange.cc:143-156 | for any held lease: after a close that names another generation it cannot be released, until a close names its own |
| `ExchangeModel.StaleCloseExample` | source/exchange.cc:143-156 | a run in which a closed lease is no longer releasable |
| `Exchanges.Exchange.AcquireLease` | source/exchange.cc:168-222 | nothing for a worker with a lease or when none is free; otherwise a free partition under a new generation; registration cannot fail |
| `Exchanges.Exchange.ReleaseLease` | source/exchange.cc:224-283 | the four answers of the call; erasing and queueing cannot fail, and the erased lease is the one read |
| `Exchanges.Exchange.CloseLease` | source/exchange.cc:143-156 | records the generation for that partition alone |
| `Exchanges.Exchange.IsClosedLease` | source/exchange.cc:136-141 | whether the closed generation is the one asked about |
| `Exchanges.Exchange.constructor` | source/exchange.cc:126-134 | all partitions are queued, in order; no push fails |
| `Exchanges.Dispatcher.SetOpen` | source/exchange.cc:67-89 | refuses a second lease and a full registry, and then changes nothing |
| `GraphBarrier.ReleasedByAll` | source/exchange.cc:298-321 | with one number of parties configured, in every reachable state: the count is the number of threads waiting and below the parties, a superstep is over exactly when all parties have arrived at it, and waiting threads can go on exactly then |
| `GraphBarrier.RoundsEndExactly` | source/exchange.cc:298-316 | in every run, however the parties change: a round ends with the first arrival that finds as many arrived as it had read parties, and not before |
| `GraphBarrier.WaitsForExactly` | source/exchange.cc:306-316 | a round that is over has waited for `n` threads if and only if no arrival before the `n`-th met what it had read |
| `GraphBarrier.EndsShortExactly` | source/exchange.cc:292-316 | an arrival ends the round short of the configured parties if and only if the number it had read is reached and is below the configured one |
| `GraphBarrier.ReleasedExactly` | source/exchange.cc:318-321 | a waiting thread can go on exactly when the last arrival at its superstep met what it had read |
| `GraphBarrier.RoundOfAll` | source/exchange.cc:298-321 | if those that arrive at one superstep had read the same number, whatever is configured before and after, the round is over exactly when all have arrived |
| `GraphBarrier.OneStepEachRound` | source/exchange.cc:306-316 | the superstep rises by one when the last party arrives, and never otherwise |
| `GraphBarrier.StepKeeps` | source/exchange.cc:285-322 | whatever the parties, the count is the number of threads waiting at the current superstep, and they are those that arrived at it |
| `GraphBarrier.PartiesMustBeFixed` | include/yellowstone/exchange.hpp:224-227 | a run in which one thread passes alone although three parties are configured |
| `GraphBarrier.Barrier.LoadParties` | source/exchange.cc:285-296 | nothing to wait for when graph mode is off or no parties are configured; otherwise the number configured now |
| `GraphBarrier.Barrier.SetGraphBarrierParties` | include/yellowstone/exchange.hpp:224-227 | the number of parties, cut down to 32 bits |
| `GraphBarrier.Barrier.ArriveAt` | source/exchange.cc:298-318 | from the lock to the wait or the end of the call, as one step of the machine |
| `GraphBarrier.Barrier.BeginGraphEpoch` | include/yellowstone/exchange.hpp:237-246 | resets superstep and count, and counts an epoch, only on the first call |
| `Sequencer.CacheIsExact` | include/yellowstone/sequencer.inl:53-73 | the cached gating value gives the uncached answer except exactly when progress has fallen below the wrap point that the cache still covers |
| `Sequencer.ClaimsAreSafe` | include/yellowstone/sequencer.inl:44-73 | over every run with monotone progress: cached equals uncached, a claim succeeds exactly when the remaining capacity is positive, at most `N` claims are ahead of the consumer, claims have no gaps, and those not yet consumed have distinct slots |
| `Sequencer.CapacityIsExact` | include/yellowstone/sequencer.inl:44-73 | the remaining capacity is exactly the number of further claims that succeed while the consumer stands still, in order, and the next one is refused |
| `Sequencer.WithinExactly` | include/yellowstone/sequencer.inl:31-73 | over any run, at most `N` claims are ahead of the consumer all the time if and only if each step is allowed: claims unless the cache is stale at the wrap point, moves of the consumer unless behind the slots that are out |
| `Sequencer.RetriedClaimsOnce` | include/yellowstone/sequencer.inl:75-97 | waiting takes exactly one claim, if and when the consumer is seen to have made room |
| `Sequencer.RetriedReads` | include/yellowstone/sequencer.inl:81-92 | waiting reads until the first reading that makes room, and the cache keeps the last one |
| `Sequencer.WaitingIsTrying` | include/yellowstone/sequencer.inl:75-97 | a waiting call can be replaced by single tries, so that what holds over runs holds with it too |
| `Sequencer.GoingBackOverclaims` | include/yellowstone/sequencer.inl:59-69 | a run in which a consumer that goes back makes four claims share two slots |
| `Sequencer.SingleProducerSequencer.TryNext` | include/yellowstone/sequencer.inl:53-73 | the whole new state and the answer, in terms of the claim granted |
| `Sequencer.SingleProducerSequencer.Next` | include/yellowstone/sequencer.inl:75-97 | the loop does what trying again and again does, with a consumer or without |
| `Sequencer.SingleProducerSequencer.PublishUpTo` | include/yellowstone/sequencer.inl:99-103 | moves the cursor and nothing else |
| `Sequencer.SingleProducerSequencer.RemainingCapacity` | include/yellowstone/sequencer.inl:44-51 | the size less the claims that the consumer, not the cache, is behind |
| `Sequencer.SingleProducerSequencer.AddGatingSequence` | include/yellowstone/sequencer.inl:31-36 | attaches a consumer and refreshes the cache |

## Left out

- EventBuses.EventBus.Publish: a merger that throws, and would interrupt the fan-out, is not modelled; all or nothing is about capacity.
- Forwarding.NothingSentYet: so it says nothing of a publication that fails by such an exception.
- EventBuses.EventBus.Consume: the wait with a timeout is reduced to the pop that ends it, and the handler that runs after it is left out.
- SchedulerModel.EarlyExactly: the end of a request is where the thread has come back from publishing it; nothing is said about how long waits take.
- Sequencer.SingleProducerSequencer.Next: the consumer's progress during the wait is a finite sequence of readings; that the wait ends is not claimed.
- GraphBarrier.Barrier.ArriveAt: the call is cut at the lock and at the wait; `LoadParties`, `ArriveAt` and `WakeUp` are separate methods, and the mutual exclusion between them is the lock's.
- Liveness: that waits are woken, that `stop` returns, that a waiting claim or thread eventually goes on.
- Wrap-around of 64-bit counters (ids, insertion orders, sequence numbers, supersteps, sizes, sequencer values); the 32-bit generation and the 32-bit number of parties do wrap here.
- The ready queue and the registry of the exchange are plain containers with their capacities; `queue.hpp` and `unordered_map.hpp` are not part of this model. The asserted calls of the exchange are taken as executed, as in a build with assertions.
- Memory orderings and data races: each locked region and each atomic access is one step.
- Allocation failure, and exceptions thrown by comparators, by payload copies and by mergers; the comparator and the merger are total functions.
- Moves, swaps and range constructors of the heap; error handlers and logging; the hash of partition keys (the index is a mathematical map).
- The worker manager that runs the consumers; the bus lets any consumer pop at any time, which covers it.
- The older `context`, `worker`, `command` and `observer` sources, the graph partition queue, and the Python bindings.
