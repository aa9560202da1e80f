# Order book engine: verified model

This project models the single-instrument limit order book engine and proves
that it does what the repository's own reference model says. The engine is
kept in its imperative form: a pool of slots with generation-tagged handles, an
open-addressed ID index, intrusive doubly-linked queues threaded through the
pool, sorted level arrays with cached aggregates, two reserve/commit outboxes,
and on top of them the transaction that validates, accepts, plans, preflights,
reserves, executes and commits. Every method is proved against an operation on
values (a queue, a map, a book of levels and orders), and the theorems are
about those.

The main results:

- **The engine is the reference model.** Each command leaves the engine in
  exactly the state, and returns exactly the result, that the reference step
  gives (`MatchingEngine.Process`), for whole runs of commands and consumer
  reads (`Replay.Replay`). The reference model is written out twice: as
  functions (module `Reference`) and as the imperative program over ordered
  maps, proved equal (module `ReferenceModel`). The differential harness that
  runs both side by side can never report a difference, neither one's debug
  check can ever fail, and the check of conservation and priority from the
  outside never finds a violation (`DifferentialHarness.Step`). There is no exception for
  the pool running out of generations or epochs: the command sequence runs out
  first, and that is part of the engine's invariant (`Young` in `Engine`).
- **Nothing after preflight can fail.** Each `std::abort` path of an operation is
  an `assert false`, so that it verifies means that it is unreachable: the plan
  made by looking at the book predicts what executing it does to the index, the
  links, the arrays and the pool. Preflight accepts exactly when the reference
  decides that the order can be carried out.
- **The representation is right.** The ID table is a finite map for any hash
  function, through backward-shift deletion; queue operations on links are
  sequence operations; index, live slots and reachable nodes stay in bijection;
  aggregates are sums; element 0 of a level array is the best price.
- **A step is what the laws say.** Module `Laws` states what a command does
  without the book's levels and without the reference step, on the orders of the
  two sides as they can be seen, with every bound written as a number: which
  commands get a sequence and what each of the others is told, what a control
  changes and announces, which resting orders are filled and by how much, when
  the 256 fills, the book, the counters or the outbox refuse an order, where the
  remainder rests and that all others stay, and when an increase in place is
  refused. The reference step obeys the laws, so the engine does
  (`MatchingEngine.Process`), and no other state or result does
  (`Lawfulness.LawsAreTheStep`): the laws and the step are the same relation.
- **Guarantees over every run**: gap-free engine sequences across both
  outboxes and gap-free match IDs, a book that is never crossed, an automatic
  halt that always commits, commands that take effect wholly or not at all,
  IDs that stay unique, price-time priority, queues in the order in which their
  orders last gained their places, and conservation of quantity order by order;
  command sequences 1, 2, 3 and on, statuses that are the whole history of the
  phase, and a resting order that can always be cancelled. In the pool, slots
  are reused first in, first out, no handle is issued twice and a stale one stays
  stale; in the outbox, consumers see whole committed batches in order.

## Layout

| file | what is in it |
|---|---|
| Domain, Ring, Sequencing | identifiers, commands and results; checked arithmetic; ring cursors; the two counters |
| Pool, PoolRuns | the slot allocator, its value-level state, and its runs |
| ActiveIndex | the ID table as a map |
| Outbox, OutboxRuns | the reserve/commit ring as a queue, and its interleavings |
| Book | levels and orders as values, and their operations |
| Linked, Layout, Storage | links and records as values, the whole layout, and the storage class |
| Reference, Matching, Planning | the reference step; what matching does; plan and preflight |
| Runs, Identity, Conservation, TimePriority | guarantees over runs; unique IDs; conservation and priority; time order of the queues |
| Views, Fills | a side as the sequence of its orders; how much of an order they fill |
| Laws, Lawfulness | the laws of a step, and that they determine it; that the reference step obeys them |
| Places, Sessions, Operations | what the laws mean order by order; sessions and numbering over runs; the storage's operations and queries on the orders that rest |
| Engine | the matching engine |
| ReferenceModel, Replay, PropertyCheck, Differential | the imperative reference model; whole runs; the check from outside; both side by side |

Quantities, prices, identifiers and sequences are naturals bounded by the
64-bit (32-bit for instruments) maximum, zero being the invalid value, and each
overflow check of the source is written out. `x & mask` on a ring is modelled
without division and proved to be the remainder. The hash of the ID table is a
parameter. A reference the source returns into a slot is read with `Get` and
written with `Put`. Where a C++ function is long, the Dafny method calls named
parts of it; together they take the same branches in the same order.

## Model

| member | source | states |
|---|---|---|
| Domain.CheckedAdd | include/lob/domain/types.hpp:133-144 | the sum, an overflow, or an invalid operand, each exactly when it is one |
| Domain.CheckedSubtract | include/lob/domain/types.hpp:146-160 | the difference, zero, an underflow, or an invalid operand, each exactly when it is one |
| Ring.AtIsRemainder | include/lob/egress/lossless_outbox.hpp:102-111 | the cursor steps are the masked additions of the source |
| Sequencing.SequenceState.AcceptCommand | include/lob/domain/sequencing.hpp:46-54 | the next command sequence, or nothing changed at the maximum |
| Sequencing.SequenceState.CommitEventBatch | include/lob/domain/sequencing.hpp:58-75 | the whole range is checked before the counter moves; an empty batch moves nothing |
| Pool.FixedObjectPool.constructor | include/lob/memory/fixed_object_pool.hpp:93-98 | all slots free in ascending order, generation zero, epoch one |
| Pool.FixedObjectPool.Acquire | include/lob/memory/fixed_object_pool.hpp:107-131 | takes the oldest free slot and raises its generation; otherwise says why and changes nothing |
| Pool.FixedObjectPool.Get | include/lob/memory/fixed_object_pool.hpp:133-145 | yields the value exactly for a handle of the current acquisition in the current epoch |
| Pool.FixedObjectPool.Put | include/lob/memory/fixed_object_pool.hpp:133-138 | writing through the returned pointer changes that slot's value only |
| Pool.FixedObjectPool.Release | include/lob/memory/fixed_object_pool.hpp:147-161 | a valid handle's slot goes to the back of the free queue; an invalid handle changes nothing |
| Pool.FixedObjectPool.Reset | include/lob/memory/fixed_object_pool.hpp:163-172 | empties the pool under a new epoch, or is refused at the last epoch |
| Pool.FixedObjectPool.NextAcquireStatus | include/lob/memory/fixed_object_pool.hpp:180-189 | what the next acquisition will answer |
| Pool.FixedObjectPool.AcquireStatusAfterRelease | include/lob/memory/fixed_object_pool.hpp:190-202 | what an acquisition would answer once the named slot is released |
| Pool.FixedObjectPool.ValidHandle | include/lob/memory/fixed_object_pool.hpp:300-305 | the handle test is membership in the live handles |
| Pool.FixedObjectPool.InitializeEmptyState | include/lob/memory/fixed_object_pool.hpp:322-333 | every slot vacant at generation zero, the ring in ascending order |
| Pool.FixedObjectPool.PositionIsFree | include/lob/memory/fixed_object_pool.hpp:308-319 | the cursor comparison says whether a position is in the free window |
| Pool.FixedObjectPool.ValidateInvariants | include/lob/memory/fixed_object_pool.hpp:223-263 | the debug check always passes |
| Pool.AcquireRepresents | include/lob/memory/fixed_object_pool.hpp:107-131 | taking the head slot keeps ring, slots and counts in agreement with the free queue |
| Pool.ReleaseRepresents | include/lob/memory/fixed_object_pool.hpp:147-161 | giving a slot back keeps them in agreement |
| Pool.CountsFit | include/lob/memory/fixed_object_pool.hpp:234-252 | as many slots are occupied as there are valid handles, and with the free ones they make up the capacity |
| PoolRuns.StepKeeps | include/lob/memory/fixed_object_pool.hpp:107-172 | any operation keeps the history of issued handles consistent and revives none |
| PoolRuns.HandlesStayFresh | include/lob/memory/fixed_object_pool.hpp:93-98 | in every run from construction no handle is issued twice and a slot has at most one valid handle |
| PoolRuns.StaleStaysStale | include/lob/memory/fixed_object_pool.hpp:300-305 | a handle invalidated by release or reset never becomes valid again |
| PoolRuns.PredictionHolds | include/lob/memory/fixed_object_pool.hpp:190-202 | the one-step prediction is right after releasing that slot and any others, in any order after it |
| PoolRuns.SlotsTakeTurns | include/lob/memory/fixed_object_pool.hpp:107-161 | in every run slots are taken in the order they were given back, each with its next generation, and an acquisition is refused exactly when all are held or that slot's generations are used up |
| PoolRuns.Drive | include/lob/memory/fixed_object_pool.hpp:107-172 | the pool, driven through any operations, ends as the run does and issues the handles the run issues |
| ActiveIndex.ActiveOrderIndex.constructor | src/order_book_storage.cpp:26-35 | an empty table of a power of two, at least twice the entries |
| ActiveIndex.ActiveOrderIndex.FindPosition | src/order_book_storage.cpp:48-62 | the probe finds the key's entry exactly when the map has the key |
| ActiveIndex.ActiveOrderIndex.Find | src/order_book_storage.cpp:64-74 | map lookup |
| ActiveIndex.ActiveOrderIndex.Probe | src/order_book_storage.cpp:76-95 | walks to the key, if the map has it, else to the first vacancy of its path |
| ActiveIndex.ActiveOrderIndex.Insert | src/order_book_storage.cpp:76-95 | adds the pair at the first vacancy of the key's path, or changes nothing; exact conditions |
| ActiveIndex.ActiveOrderIndex.Erase | src/order_book_storage.cpp:97-116 | removes the key and only the key, for any hash, without aborting and with termination |
| ActiveIndex.ActiveOrderIndex.MoveBack | src/order_book_storage.cpp:106-114 | reinserting a displaced entry never fails, loses nothing, and the repair reaches one bucket further |
| ActiveIndex.ActiveOrderIndex.Clear | src/order_book_storage.cpp:118-123 | the empty map |
| ActiveIndex.ActiveOrderIndex.ValidateInvariants | src/order_book_storage.cpp:139-157 | the debug check always passes |
| ActiveIndex.LandsBefore | src/order_book_storage.cpp:106-114 | a displaced entry lands in its old bucket or in a vacancy between the gap and it, never past it |
| ActiveIndex.RepairStep | src/order_book_storage.cpp:106-114 | after the reinsertion only entries still to be moved can be unreachable |
| ActiveIndex.RepairEnds | src/order_book_storage.cpp:106-114 | at the end of the cluster every entry is reachable again |
| Outbox.LosslessOutbox.constructor | include/lob/egress/lossless_outbox.hpp:80-83 | an empty outbox of the given power of two |
| Outbox.LosslessOutbox.Reserve | include/lob/egress/lossless_outbox.hpp:91-100 | one reservation at a time, if the free capacity suffices |
| Outbox.LosslessOutbox.TryPop | include/lob/egress/lossless_outbox.hpp:102-111 | takes the oldest committed record, reservation or not |
| Outbox.LosslessOutbox.TryPeek | include/lob/egress/lossless_outbox.hpp:113-120 | shows the oldest committed record |
| Outbox.LosslessOutbox.AvailableCapacity | include/lob/egress/lossless_outbox.hpp:125-127 | capacity less committed and reserved records |
| Outbox.LosslessOutbox.Size | include/lob/egress/lossless_outbox.hpp:123 | number of committed records not yet consumed |
| Outbox.LosslessOutbox.CommitReservation | include/lob/egress/lossless_outbox.hpp:156-167 | appends the staged batch to the queue |
| Outbox.LosslessOutbox.AbortReservation | include/lob/egress/lossless_outbox.hpp:169-178 | drops the staged batch |
| Outbox.LosslessOutbox.ValidateInvariants | include/lob/egress/lossless_outbox.hpp:129-140 | the debug check always passes |
| Outbox.Reservation.Write | include/lob/egress/lossless_outbox.hpp:37-45 | stages a record without touching committed ones, up to the reserved count |
| Outbox.Reservation.Commit | include/lob/egress/lossless_outbox.hpp:47-55 | commits exactly a fully written reservation |
| Outbox.Reservation.Abort | include/lob/egress/lossless_outbox.hpp:57-65 | gives the reservation up |
| OutboxRuns.ConsumersSeeCommittedBatches | include/lob/egress/lossless_outbox.hpp:91-178 | under any interleaving, consumed plus pending records are the committed batches in order |
| OutboxRuns.WritesAreInvisible | include/lob/egress/lossless_outbox.hpp:37-45 | writes into a reservation change nothing a consumer can see |
| OutboxRuns.AbortLeavesNoTrace | include/lob/egress/lossless_outbox.hpp:169-178 | reserve, writes and abort, with pops in between, equal the pops alone |
| OutboxRuns.Drive | include/lob/egress/lossless_outbox.hpp:37-178 | the ring, driven through any operations and the reservation it gave out, ends as the run of the queue does, with what was consumed and committed on the way |
| Linked.AppendChains | src/order_book_storage.cpp:271-290 | appending on the links is appending to the queue |
| Linked.UnlinkChains | src/order_book_storage.cpp:292-319 | unlinking at head, middle, tail or sole position is removal, the others in order |
| Layout.InsertIntoRep | src/order_book_storage.cpp:321-374 | the layout after insertion into an existing level represents the book after it |
| Layout.InsertNewRep | src/order_book_storage.cpp:321-374 | the same for a level created by the insertion |
| Layout.EraseRep | src/order_book_storage.cpp:376-410 | the same for taking an order out, with its level if it was the last |
| Layout.SetLeavesRep | src/order_book_storage.cpp:446-491 | the same for new leaves |
| Layout.MoveToBackRep | src/order_book_storage.cpp:493-514 | the same for requeueing a node, whose identity stays |
| Layout.IndexIsIds | src/order_book_storage.cpp:669-751 | the index holds exactly the IDs reachable through the levels |
| Layout.IdsUnique | src/order_book_storage.cpp:669-751 | a represented book has no ID twice |
| Storage.OrderBookStorage.constructor | src/order_book_storage.cpp:160-172 | empty storage with the clamped limits |
| Storage.OrderBookStorage.FindLevelPosition | src/order_book_storage.cpp:194-210 | binary search finds the insertion point |
| Storage.OrderBookStorage.FindLevel | src/order_book_storage.cpp:212-236 | finds the level exactly when the price has one |
| Storage.OrderBookStorage.CreateLevel | src/order_book_storage.cpp:238-256 | shifts up and opens an empty level where the price belongs |
| Storage.OrderBookStorage.EraseLevel | src/order_book_storage.cpp:258-269 | shifts down over the level, the others unchanged |
| Storage.OrderBookStorage.AppendToLevel | src/order_book_storage.cpp:271-290 | the records and ends after appending |
| Storage.OrderBookStorage.UnlinkFromLevel | src/order_book_storage.cpp:292-319 | the records and ends after unlinking |
| Storage.OrderBookStorage.InsertResting | src/order_book_storage.cpp:321-374 | inserts at the back of its level, or the first failing condition and nothing changed |
| Storage.OrderBookStorage.RemoveLink | src/order_book_storage.cpp:376-410 | erases the order; cannot fail for an indexed link |
| Storage.OrderBookStorage.RemoveResting | src/order_book_storage.cpp:412-416 | erases the order or reports it missing |
| Storage.OrderBookStorage.ReduceRestingBy | src/order_book_storage.cpp:418-444 | reduces the leaves, removes the order at zero, rejects what exceeds it |
| Storage.OrderBookStorage.UpdateRestingLeaves | src/order_book_storage.cpp:446-491 | sets the leaves in place unless the aggregate would overflow; the order keeps its node, and so does every other |
| Storage.OrderBookStorage.MoveRestingToBack | src/order_book_storage.cpp:493-514 | moves the order behind the others of its price; the order keeps its node, and so does every other |
| Storage.OrderBookStorage.CanInsertAfterRemoving | src/order_book_storage.cpp:516-528 | whether the slot the next insertion gets can still be acquired |
| Storage.OrderBookStorage.CanClear | src/order_book_storage.cpp:530-532 | whether the pool has an epoch left |
| Storage.OrderBookStorage.Clear | src/order_book_storage.cpp:534-545 | the empty book |
| Storage.OrderBookStorage.ActiveOrderCount | src/order_book_storage.cpp:551-553 | number of orders in the book |
| Storage.OrderBookStorage.LevelsCounted | src/order_book_storage.cpp:555-560 | the level count of a side is the number of its levels, zero for neither side |
| Storage.OrderBookStorage.FindOrder | src/order_book_storage.cpp:595-604 | the order's view, or none |
| Storage.OrderBookStorage.BestPrice | src/order_book_storage.cpp:606-614 | the first level's price |
| Storage.OrderBookStorage.LevelEntry | src/order_book_storage.cpp:616-624 | price, total and count of a level |
| Storage.OrderBookStorage.Depth | src/order_book_storage.cpp:626-637 | one entry per level, best first, with its total and count |
| Storage.OrderBookStorage.OrdersAtLevel | src/order_book_storage.cpp:639-667 | the level's orders, first in first out |
| Storage.OrderBookStorage.VisitOrdersByPriority | include/lob/storage/order_book_storage.hpp:107-135 | the visitor sees the side in price-time priority until it stops |
| Storage.OrderBookStorage.ValidateInvariants | src/order_book_storage.cpp:669-751 | the debug check always passes |
| Storage.OrderBookStorage.FullPool | src/order_book_storage.cpp:516-528 | without a free slot the book is at its order capacity |
| Matching.TakeIsPriorityPrefix | src/matching_engine.cpp:338-390 | the fills are the greedy prefix of the crossing orders; what is left of the side stays in order |
| Matching.MatchedEffect | tests/phase1_reference_model.cpp:432-472 | what taking does to counts, totals and best prices |
| Matching.FilledEffect | src/matching_engine.cpp:496-527 | a carried-out order keeps the book well formed and uncrossed and conserves quantity |
| Matching.RequantifyIs | tests/phase1_reference_model.cpp:346-357 | erasing and reinserting a grown order is moving it to the back |
| Planning.PlanIsTake | src/matching_engine.cpp:338-390 | the plan made without touching the book has the reference's fills and remainder |
| Planning.TakeUnfolds | src/matching_engine.cpp:496-527 | each planned fill names the order in front by then and leads to the planned end |
| Planning.FirstFullIsFirst | src/matching_engine.cpp:409-429 | with a remainder to rest, the first fill is the one that frees the slot |
| Planning.IdIsFree | src/matching_engine.cpp:496-527 | the remainder's ID is free when it is inserted |
| Planning.RoomAfterErase | src/matching_engine.cpp:431-485 | level room after removing the replaced order, from what the levels say before |
| Matching.TakeEffect | tests/phase1_reference_model.cpp:440-464 | taking keeps the side well formed, balances quantity against the fills, never improves the best price, and within the fill limit stops only when nothing crosses |
| Views.EraseFlat | src/order_book_storage.cpp:376-410 | taking an order out leaves the other orders of its side as they were, in order |
| Views.InsertFlat | src/order_book_storage.cpp:321-374 | an inserted order stands behind everything priced as well and before everything priced worse; nothing else moves |
| Views.SetLeavesFlat | src/order_book_storage.cpp:446-491 | new leaves change that order's leaves and nothing else |
| Views.RoomSeen | src/order_book_storage.cpp:321-374 | whether an order has room at a price, told by the orders of the side: their total at that price, or the number of their prices |
| Views.FlatDetermines | tests/phase1_reference_model.cpp:652-687 | a side's orders in priority order determine its levels |
| Fills.TakeServes | src/matching_engine.cpp:338-390 | taking is cut exactly when more than 256 orders are within the limit and the first 256 hold less than the quantity; otherwise it fills the smaller of the quantity and what they hold, from the front |
| Laws.LawsDetermine | src/matching_engine.cpp:46-265 | two states and results that obey the laws of a command are the same |
| Lawfulness.ControlsAreLawful | src/matching_engine.cpp:211-265 | exactly the five transitions there are, each with its phase, status, reason and free status slots; a close empties the book; what every other control is told |
| Lawfulness.NewIsAdmitted | src/matching_engine.cpp:267-292 | which new orders get a sequence, and exactly when each refusal is given to the others |
| Lawfulness.CancelIsAdmitted | src/matching_engine.cpp:294-311 | the same for cancels, which a halt does not refuse |
| Lawfulness.AmendIsAdmitted | src/matching_engine.cpp:313-336 | the same for amendments |
| Lawfulness.DecideSeen | src/matching_engine.cpp:392-494 | an order is refused exactly when it exceeds the bound of fills, of orders, of levels, of a level's total or of the counters, else the outbox is too full, else it is accepted |
| Lawfulness.OrderIsLawful | src/matching_engine.cpp:46-97 | an admitted order is dropped, halts the engine, or is carried out: its reports, what it leaves of the other side and where it rests |
| Lawfulness.CancelIsLawful | src/matching_engine.cpp:99-126 | a cancelled order is gone and nothing else moves |
| Lawfulness.InPlaceIsLawful | src/matching_engine.cpp:143-172 | an amendment at the resting price is refused exactly when it grows beyond what the other orders at the price leave of 64 bits; else it changes this order only |
| Lawfulness.ApplyIsLawful | src/matching_engine.cpp:46-265 | every step obeys the laws |
| Lawfulness.LawsAreTheStep | tests/phase1_reference_model.cpp:235-515 | a state and a result obey the laws of a command if and only if they are the reference step's |
| Lawfulness.AlwaysLawful | src/matching_engine.cpp:46-265 | in every reachable state every command is answered by the laws |
| Places.FillBound | include/lob/matching/matching_engine.hpp:18 | an order that the first 256 of more than 256 orders within its limit do not fill is dropped; every accepted one fills the smaller of its quantity and what is within its limit |
| Places.OrderRests | src/matching_engine.cpp:520-526 | what is left of an accepted order rests on its side at its limit, behind all others at that price; the other orders of its side are unchanged |
| Places.OthersKeepTheirPlaces | src/matching_engine.cpp:496-527 | every other order that still rests has its side and its price, and no more leaves than before |
| Places.AmendedInPlaceRests | src/order_book_storage.cpp:446-491 | when an amendment at the resting price is refused, and else where the order stands with its new leaves |
| Places.RestingCanBeCancelled | src/matching_engine.cpp:294-311 | in every reachable state, halted or not, an order that rests can be cancelled while command sequences last, and then rests no more |
| Sessions.StatusesTellThePhase | src/matching_engine.cpp:607-656 | over any run the statuses lead from the active start through transitions there are to the current phase, without a gap |
| Sessions.OnlyActiveTrades | src/matching_engine.cpp:267-336 | only a new order or an amendment sent to an active engine is matched, and the engine stays active |
| Sessions.CommandsAreNumbered | include/lob/domain/sequencing.hpp:46-54 | over any run the sequences given out are 1, 2, 3 and on, in order |
| Operations.InsertMeans | src/order_book_storage.cpp:321-374 | an insertion queues the order and leaves the other side alone |
| Operations.InsertingMeans | src/order_book_storage.cpp:321-374 | each answer of an insertion, exactly when it is given |
| Operations.ReduceMeans | src/order_book_storage.cpp:418-444 | each answer of a reduction, and its effect on the two sides |
| Operations.UpdateMeans | src/order_book_storage.cpp:446-491 | each answer of a change of leaves, and its effect on the two sides |
| Operations.MoveToBackMeans | src/order_book_storage.cpp:493-514 | a requeued order stands behind all others at its price, and nothing else moves |
| Operations.ObservationAgrees | tests/phase1_reference_model.cpp:652-687 | counts, best prices, levels and depth agree with the orders observed |
| Engine.MatchingEngine.constructor | src/matching_engine.cpp:38-44 | the reference model's initial state |
| Engine.MatchingEngine.ValidateNewOrder | src/matching_engine.cpp:267-292 | the first rejection that applies |
| Engine.MatchingEngine.ValidateCancelOrder | src/matching_engine.cpp:294-311 | the first rejection that applies |
| Engine.MatchingEngine.ValidateAmendOrder | src/matching_engine.cpp:313-336 | the first rejection that applies |
| Engine.MatchingEngine.PlanOrder | src/matching_engine.cpp:338-390 | the plan as a fold over the opposite side in priority order |
| Engine.MatchingEngine.PreflightSlot | src/matching_engine.cpp:409-429 | whether the slot freed first, or already free, can be taken |
| Engine.MatchingEngine.PreflightLevel | src/matching_engine.cpp:431-485 | whether the destination level has room once the replaced order is gone |
| Engine.MatchingEngine.PreflightPlan | src/matching_engine.cpp:392-494 | accepts exactly when the reference can carry the order out and the slot can be taken |
| Engine.DecideIs | src/matching_engine.cpp:392-494 | preflight's arithmetic and the reference's decision are the same |
| Engine.RoomWithoutReplaced | src/matching_engine.cpp:431-485 | the level arithmetic of a replacing amendment is exact |
| Engine.MatchingEngine.ApplyFill | src/matching_engine.cpp:505-518 | one fill reduces the front order; none of its checks can fail |
| Engine.MatchingEngine.ApplyFills | src/matching_engine.cpp:505-518 | all fills together leave what the reference leaves |
| Engine.MatchingEngine.ExecutePlan | src/matching_engine.cpp:496-527 | removal, fills and insertion give the reference's book; no step can fail |
| Engine.MatchingEngine.CommitReports | src/matching_engine.cpp:529-579 | the reports appear in the outbox as one batch, numbered without a gap |
| Engine.MatchingEngine.CommitLifecycleTransition | src/matching_engine.cpp:607-656 | the reference's transition, or refused with nothing changed |
| Engine.MatchingEngine.FailClosedOutboxFull | src/matching_engine.cpp:658-668 | the automatic halt always commits |
| Engine.MatchingEngine.RunOrder | src/matching_engine.cpp:65-97 | an accepted aggressive order ends as in the reference |
| Engine.MatchingEngine.SlotComes | src/matching_engine.cpp:409-429 | a plan that fits the book finds a pool slot |
| Engine.MatchingEngine.ProcessNew | src/matching_engine.cpp:46-97 | state and result are the reference's |
| Engine.MatchingEngine.ProcessCancel | src/matching_engine.cpp:99-126 | state and result are the reference's |
| Engine.MatchingEngine.AmendInPlace | src/matching_engine.cpp:143-172 | a reduction keeps its place, an increase goes to the back, an overflow changes nothing |
| Engine.MatchingEngine.ProcessAmend | src/matching_engine.cpp:128-209 | state and result are the reference's |
| Engine.MatchingEngine.ProcessLifecycle | src/matching_engine.cpp:211-265 | state and result are the reference's |
| Engine.MatchingEngine.Process | src/matching_engine.cpp:46-265 | state and result are the reference's for every command, without exception, and obey the laws |
| Engine.MatchingEngine.TryConsumeExecutionReport | src/matching_engine.cpp:715-718 | takes the oldest report |
| Engine.MatchingEngine.TryConsumeStatus | src/matching_engine.cpp:732-734 | takes the oldest status |
| Engine.MatchingEngine.ValidateInvariants | src/matching_engine.cpp:775-791 | the debug check always passes |
| Engine.StaysYoung | include/lob/memory/fixed_object_pool.hpp:180-189 | one acquisition per accepted command keeps every generation below the command sequence |
| Runs.ApplyKeepsWf | src/matching_engine.cpp:775-791 | every command keeps the state well formed: uncrossed, within limits, with status headroom while active |
| Runs.ApplyPublishes | src/matching_engine.cpp:529-656 | a command commits nothing, or reports numbered on from both counters, or one status with the next engine sequence |
| Runs.GapFree | src/matching_engine.cpp:529-656 | over any run the engine sequences 1..last are shared out between reports and statuses, each stream increasing, and match IDs are 1..last in order |
| Runs.NeverCrossed | src/matching_engine.cpp:788-790 | in every reachable state the best bid is below the best ask |
| Runs.HaltAlwaysCommits | src/matching_engine.cpp:607-668 | an active engine always has a free status slot, and a full execution outbox always ends in the halt |
| Runs.Atomicity | src/matching_engine.cpp:46-209 | a command is rejected without trace, counted and dropped, halted closed with exactly one status, or carried out; with unique IDs there is no other outcome |
| Identity.ApplyUnique | tests/phase1_reference_model.cpp:560-588 | no command puts an ID into the book twice |
| Conservation.Conservation | tests/phase1_reference_model_test.cpp:164-242 | for every accepted order command, each resting order loses exactly what was reported against it, the aggressor keeps what was not filled, and the book's total balances |
| Conservation.Priority | tests/phase1_reference_model_test.cpp:164-242 | the reports follow price-time priority at resting prices, and a remainder means nothing that crosses is left |
| Conservation.TakeHeld | tests/phase1_reference_model.cpp:440-464 | in taking, each order loses exactly the fills that name it |
| Conservation.AlwaysUnique | tests/phase1_reference_model.cpp:736-758 | IDs are unique in every reachable state |
| Conservation.AlwaysAtomic | src/matching_engine.cpp:46-209 | in every reachable state those four outcomes are all there are |
| TimePriority.ApplyInOrder | src/order_book_storage.cpp:446-514 | a command keeps every queue in the order in which its orders last gained their places, its own order last if it gained one |
| TimePriority.QueuesAreInTimeOrder | src/order_book_storage.cpp:446-514 | so is every queue in every reachable state, through partial fills, reductions, increases and changes of price |
| PropertyCheck.FindOrder | tests/phase1_reference_model_test.cpp:148-162 | the order as it can be seen, bids before asks |
| PropertyCheck.SeenIsView | tests/phase1_reference_model_test.cpp:148-162 | what can be seen of an order is its view in the book |
| PropertyCheck.VerifyReports | tests/phase1_reference_model_test.cpp:195-214 | passes exactly when each report is the next crossing order's, for the smaller of what is left and what rests |
| PropertyCheck.VerifyConservationAndPriority | tests/phase1_reference_model_test.cpp:164-242 | finds no violation exactly when reports, remainder and resting reductions all fit |
| PropertyCheck.AlwaysVerified | tests/phase1_reference_model_test.cpp:164-242 | it never finds one, for any command in any state with unique IDs |
| ReferenceModel.MapsAdd | src/order_book_storage.cpp:238-256 | a level opened in the array is a new key of the ordered map |
| ReferenceModel.MapsDrop | src/order_book_storage.cpp:258-269 | a level erased from the array is a key dropped from the map |
| ReferenceModel.MapsSet | tests/phase1_reference_model.cpp:560-609 | a level rewritten in the array is a value replaced in the map |
| ReferenceModel.Aggregate | tests/phase1_reference_model.cpp:59-72 | the sum of a level, or invalid exactly when it does not fit 64 bits |
| ReferenceModel.LocateIn | tests/phase1_reference_model.cpp:517-534 | the first order with the ID in map order |
| ReferenceModel.TakeLevels | tests/phase1_reference_model.cpp:440-464 | the loop over the ordered map takes what the function takes |
| ReferenceModel.ReferenceModel.AddOrder | tests/phase1_reference_model.cpp:560-588 | inserts, or the first failing condition |
| ReferenceModel.ReferenceModel.EraseOrder | tests/phase1_reference_model.cpp:590-609 | takes the order out, with its level if it was the last |
| ReferenceModel.ReferenceModel.MakeReports | tests/phase1_reference_model.cpp:497-506 | the loop over the planned fills makes the reports of the functional step |
| ReferenceModel.ReferenceModel.RunAggressive | tests/phase1_reference_model.cpp:426-515 | working on a copy and swapping it in is the functional step |
| ReferenceModel.ReferenceModel.StepNew | tests/phase1_reference_model.cpp:252-276 | the functional step |
| ReferenceModel.ReferenceModel.StepCancel | tests/phase1_reference_model.cpp:278-299 | the functional step |
| ReferenceModel.ReferenceModel.StepAmend | tests/phase1_reference_model.cpp:301-361 | the functional step; erase and reinsert never fail |
| ReferenceModel.ReferenceModel.StepLifecycle | tests/phase1_reference_model.cpp:363-424 | the functional step |
| ReferenceModel.ReferenceModel.HaltClosed | tests/phase1_reference_model.cpp:629-639 | the automatic halt; its abort is unreachable |
| ReferenceModel.ReferenceModel.ValidateInvariants | tests/phase1_reference_model.cpp:718-759 | the model's own check always passes |
| ReferenceModel.ReferenceModel.ObservableStateNow | tests/phase1_reference_model.cpp:652-687 | counters, best prices, depth and every queue of the state |
| ReferenceModel.ReferenceModel.DrainExecutionReports | tests/phase1_reference_model.cpp:689-693 | hands out and clears the pending reports |
| ReferenceModel.ReferenceModel.DrainStatuses | tests/phase1_reference_model.cpp:695-699 | hands out and clears the pending statuses |
| Replay.Replay | tests/phase1_reference_model_test.cpp:322-394 | over any run, results, state and everything consumed are the reference model's |
| Replay.ReplayFromStart | src/matching_engine.cpp:38-44 | the same from construction, for any hash function |
| Differential.EngineState | tests/phase1_reference_model_test.cpp:82-108 | the engine shows the observable state of its view |
| Differential.DrainReports | tests/phase1_reference_model_test.cpp:110-119 | consuming until empty yields all pending reports in order |
| Differential.DrainStatuses | tests/phase1_reference_model_test.cpp:121-130 | consuming until empty yields all pending statuses in order |
| Differential.DifferentialHarness.Step | tests/phase1_reference_model_test.cpp:322-394 | no command can make engine and reference model differ in result, state or outboxes, fail either one's check, or violate conservation or priority |
| Differential.DifferentialHarness.CompareOutboxes | tests/phase1_reference_model_test.cpp:351-362 | both outboxes drain to the same records |
| Differential.DifferentialHarness.ReplayTrace | tests/phase1_reference_model_test.cpp:322-394 | no trace can |

## Left out

- Object lifetime in the pool (placement construction, alignment, destructors): slot contents are an optional value.
- Pool.FixedObjectPool.ValidHandle: does not compare the owner pointer that a handle of the source carries, because the links stored in order records carry none and the storage always supplies its own pool; a handle here belongs to the one pool it is used with.
- The bit mixing of the ID table's hash: nothing proved depends on it, so the hash is an arbitrary function.
- The visitor of `visit_orders_by_priority` is a C++ closure with captured variables; here it is a function on an accumulator.
- The instrument identifier inside views and logical orders: it always equals the storage's own.
- The status scope, a field with one value; diagnostics and byte totals.
- Clamping of the default limits is modelled, the default values are not; an outbox capacity the constructor aborts on is a precondition.
- A reservation destroyed without commit or abort: its destructor aborts it, which is what `Reservation.Abort` does.
- The ordered map of the reference model is a Dafny map whose keys are visited best price first; iterators and their invalidation are not modelled.
- The side and price the reference model repeats inside each order: they are those of the order's level.
- The trace text format, the command generator and file loading around the reference model, and the harness's transcript.
- Benchmarks, reports, allocation counting and the Python tools.
- Market-data recovery, which the repository's documentation describes but has no code for.
- Concurrency: the engine is synchronous and has one writer.
