/**
  The matching engine: validate, accept, plan, preflight, reserve, execute,
  commit. Every command is proved to do exactly what the reference step does;
  the order pool runs out of neither generations nor epochs before the command
  sequence ends.
 */
module Engine {
  import opened Domain
  import opened Ring
  import opened Pool
  import opened ActiveIndex
  import opened Book
  import opened Storage
  import opened Outbox
  import opened Sequencing
  import opened Reference
  import opened Matching
  import opened Planning
  import opened Runs
  import Laws
  import Lawfulness
  import Layout
  import Linked

  /** Every slot of the pool can be taken once more. */
  ghost predicate GenerationsBelow<T>(p: PoolState<T>, n: nat) {
    forall i :: 0 <= i < |p.gens| ==> p.gens[i] < n
  }

  /**
    Each accepted command takes at most one slot, and a close, which resets
    the pool, can only follow another one after the open in between. So the
    command sequence runs out before any generation or epoch does.
   */
  ghost predicate Young<T>(p: PoolState<T>, commands: nat, phase: InstrumentState) {
    && GenerationsBelow(p, commands + 1)
    && 2 * p.epoch <= 2 + commands + (if phase.Closed? then 1 else 0)
  }

  lemma StartsYoung<T>(limits: Limits, p: PoolState<T>)
    requires limits.statusCapacity >= MINIMUM_STATUS_OUTBOX_CAPACITY && p == Fresh(|p.gens|, U64_MAX, U64_MAX, 1)
    ensures WfState(Start(limits)) && Young(p, 0, Active)
  {
  }

  lemma StaysYoung<T>(p: PoolState<T>, q: PoolState<T>, commands: nat, phase: InstrumentState)
    requires Young(p, commands, Active) && GenerationsBelow(p, commands) && OneOlder(p, q)
    ensures Young(q, commands, phase)
  {
  }

  /** The resting order an amendment replaces has its ID and is on its side. */
  ghost predicate Replaces(book: Book, order: LogicalOrder, replaced: Option<RestingOrderView>) {
    if replaced.Some? then
      && Has(book, order.orderId)
      && ViewOf(book, order.orderId) == replaced
      && replaced.value.orderId == order.orderId
      && replaced.value.side == order.side
    else
      !Has(book, order.orderId)
  }

  /** The plan can be carried out; only the outbox may still be full. */
  predicate Fits(decision: OrderBookResult) {
    decision == Accepted || decision == LosslessOutboxFull
  }

  /** The reference's decision, in the terms preflight computes with. */
  lemma DecideIs(s: State, order: LogicalOrder, replaced: Option<RestingOrderView>)
    requires WfState(s) && UniqueIds(s.book) && ValidOrder(order) && Replaces(s.book, order, replaced)
    ensures var plan := PlanOf(order, Levels(s.book, Opposite(order.side)));
            var t := TakenBy(s.book, order, ReplacedId(replaced));
            && plan.fills == t.planned && plan.remainder == t.remainder
            && plan.capacityExhausted == !t.withinCapacity
            && CountBook(MatchedBook(s.book, order, ReplacedId(replaced)))
               + plan.fullyFilled + (if replaced.Some? then 1 else 0) == CountBook(s.book)
            && (Decide(s, order, ReplacedId(replaced)) == CapacityExhausted || Fits(Decide(s, order, ReplacedId(replaced))))
            && (plan.capacityExhausted ==> Decide(s, order, ReplacedId(replaced)) == CapacityExhausted)
            && (plan.fills == [] ==> plan.fullyFilled == 0)
            && (!plan.capacityExhausted ==>
                  (Fits(Decide(s, order, ReplacedId(replaced))) <==>
                     && (plan.remainder != 0 ==>
                           && CountBook(s.book) - plan.fullyFilled - (if replaced.Some? then 1 else 0)
                              + 1 <= s.limits.activeOrders
                           && HasRoom(order.side, Levels(Candidate(s.book, ReplacedId(replaced)), order.side),
                                      order.limitPrice, plan.remainder, s.limits.levelsPerSide))
                     && SequencesFit(s, |plan.fills|)))
  {
    var candidate, opposite := Candidate(s.book, ReplacedId(replaced)), Opposite(order.side);
    if replaced.Some? {
      EraseOneSide(s.book, order.orderId);
    }
    assert Levels(candidate, opposite) == Levels(s.book, opposite);
    PlanIsTake(order.side, order.limitPrice, Levels(s.book, opposite), MatchPlan([], 0, order.quantity, false));
    IdIsFree(s.book, order, ReplacedId(replaced));
    TakeEffect(order.side, order.limitPrice, Levels(s.book, opposite), order.quantity, []);
    TakeUnfolds(order.side, order.limitPrice, Levels(s.book, opposite), order.quantity, [],
                TakenBy(s.book, order, ReplacedId(replaced)));
  }

  /** What executing a plan starts from and ends in. */
  lemma ExecutionFacts(book: Book, order: LogicalOrder, replaced: Option<RestingOrderView>)
    requires WfBook(book) && UniqueIds(book) && ValidOrder(order) && Replaces(book, order, replaced)
    ensures var t, candidate := TakenBy(book, order, ReplacedId(replaced)), Candidate(book, ReplacedId(replaced));
            var plan := PlanOf(order, Levels(book, Opposite(order.side)));
            && Levels(candidate, Opposite(order.side)) == Levels(book, Opposite(order.side))
            && MatchedBook(book, order, ReplacedId(replaced)) == WithLevels(candidate, Opposite(order.side), t.levels)
            && !Has(MatchedBook(book, order, ReplacedId(replaced)), order.orderId)
            && (plan.remainder != 0 && plan.fills != [] ==>
                  FirstFull(book, plan.fills) == Some(plan.fills[0].restingOrderId))
            && (plan.fills == [] ==> FirstFull(book, plan.fills) == None)
            && RemoveStatus(book, order.orderId) == (if replaced.Some? then Accepted else OrderNotFound)
  {
    if replaced.Some? {
      EraseOneSide(book, order.orderId);
    }
    IdIsFree(book, order, ReplacedId(replaced));
    FirstFullIsFirst(book, order);
  }

  lemma ReplacesSide(book: Book, order: LogicalOrder, replaced: Option<RestingOrderView>)
    requires Replaces(book, order, replaced)
    ensures ReplacesOwnSide(book, order.side, ReplacedId(replaced))
  {
  }

  /** Between halting and publishing only the outbox decides. */
  lemma DecideOutbox(s: State, order: LogicalOrder, replaced: Option<RestingOrderView>)
    requires WfState(s) && s.phase.Active? && IsSide(order.side) && Fits(Decide(s, order, ReplacedId(replaced)))
    ensures var n := |TakenBy(s.book, order, ReplacedId(replaced)).planned|;
            && (Decide(s, order, ReplacedId(replaced)) == Accepted <==> n <= s.limits.executionCapacity - |s.reports|)
            && SequencesFit(s, n)
            && (n > 0 ==> s.lastEngine < U64_MAX)
            && |s.reports| <= s.limits.executionCapacity
  {
  }

  /** A free slot serves whatever is removed first. */
  lemma SlotForAny(p: PoolState<Linked.OrderRecord>, index: map<OrderId, Handle>, id: OrderId)
    ensures CanTakeSlot(p, index, None) ==> CanTakeSlot(p, index, Some(id))
  {
  }

  lemma SameLeaves(book: Book, id: OrderId)
    requires Has(book, id)
    ensures SetLeaves(book, id, LeavesOf(book, id)) == book && ViewOf(book, id).value.leaves == LeavesOf(book, id)
  {
    var at := Locate(book, id).value;
    SetLeavesSame(book, at);
  }

  function ReplacedId(replaced: Option<RestingOrderView>): Option<OrderId> {
    if replaced.Some? then Some(replaced.value.orderId) else None
  }

  /** The replaced order's level, as the book and as the level query give it. */
  lemma RoomWithoutReplaced(book: Book, id: OrderId, price: PriceTicks, leaves: Quantity, capacity: nat)
    requires WfBook(book) && Has(book, id)
    ensures var view := ViewOf(book, id).value;
            var levels := Levels(book, view.side);
            var p := LowerBound(view.side, levels, view.price);
            && HasLevel(view.side, levels, view.price) && p < |levels|
            && 1 <= |levels[p].orders| && IsValid(view.leaves)
            && (|levels[p].orders| > 1 ==> view.leaves < Sum(levels[p].orders))
            && var gone, same := |levels[p].orders| == 1, view.price == price;
            HasRoom(view.side, Levels(Erase(book, id), view.side), price, leaves, capacity) <==>
            if HasLevel(view.side, levels, price) && !(same && gone) then
              Sum(levels[LowerBound(view.side, levels, price)].orders)
                - (if same then view.leaves else 0) + leaves <= U64_MAX
            else
              |levels| - (if gone then 1 else 0) < capacity
  {
    var at := Locate(book, id).value;
    var levels := Levels(book, at.side);
    PriceFound(at.side, levels, at.level);
    assert WfLevel(levels[at.level]);
    WfWithout(levels[at.level], at.index);
    RoomAfterErase(at.side, levels, at.level, at.index, price, leaves, capacity);
  }

  /** The first order that executing the plan removes. */
  function FirstRemoved(book: Book, plan: MatchPlan, replaced: Option<RestingOrderView>): Option<OrderId> {
    if replaced.Some? then Some(replaced.value.orderId) else FirstFull(book, plan.fills)
  }

  class MatchingEngine {
    const storage: OrderBookStorage
    const executionOutbox: LosslessOutbox<ExecutionReport>
    const statusOutbox: LosslessOutbox<SystemStatus>
    const sequences: SequenceState
    var lastMatchId: MatchId
    var instrumentState: InstrumentState

    ghost const Own: set<object> :=
      {this, sequences, executionOutbox, executionOutbox.slots, statusOutbox, statusOutbox.slots}

    ghost const Footprint: set<object> := Own + storage.Footprint

    /** The engine as its callers see it. */
    ghost function View(): State
      reads this, sequences, storage, executionOutbox, statusOutbox
    {
      State(Limits(storage.instrumentId, storage.activeOrderCapacity, storage.priceLevelCapacityPerSide,
                   executionOutbox.slots.Length, statusOutbox.slots.Length),
            instrumentState, sequences.lastCommand, sequences.lastEngine, lastMatchId,
            storage.book, executionOutbox.state.queue, statusOutbox.state.queue)
    }

    /** The parts are consistent and share no memory; no reservation is outstanding. */
    ghost predicate Sound()
      reads Footprint
    {
      && Own !! storage.Footprint
      && storage.Valid()
      && executionOutbox.Valid() && !executionOutbox.state.active
      && statusOutbox.Valid() && !statusOutbox.state.active
    }

    ghost predicate Consistent()
      reads Footprint
    {
      Sound() && WfState(View())
    }

    /** No slot and no epoch has been used more often than there were commands to use it. */
    ghost predicate Valid()
      reads Footprint
    {
      Consistent() && Young(storage.pool.state, sequences.lastCommand, instrumentState)
    }

    constructor (instrumentId: InstrumentId, activeOrders: nat, priceLevelsPerSide: nat,
                 executionReports: nat, statusEvents: nat, hash: Hash)
      requires IsPowerOfTwo(executionReports) && IsPowerOfTwo(statusEvents)
      requires statusEvents >= MINIMUM_STATUS_OUTBOX_CAPACITY
      ensures Valid() && fresh(Footprint)
      ensures View() == Start(Limits(instrumentId, Min(activeOrders, 131072), Min(priceLevelsPerSide, 4096),
                                     executionReports, statusEvents))
    {
      hide OrderBookStorage.Valid, LosslessOutbox.Valid, WfState, GenerationsBelow;
      var book := new OrderBookStorage(instrumentId, activeOrders, priceLevelsPerSide, hash);
      var reports := new LosslessOutbox<ExecutionReport>(executionReports);
      var statuses := new LosslessOutbox<SystemStatus>(statusEvents);
      var counters := new SequenceState();
      assert {counters, reports, reports.slots, statuses, statuses.slots} !! book.Footprint;
      storage, executionOutbox, statusOutbox, sequences := book, reports, statuses, counters;
      lastMatchId := 0;
      instrumentState := Active;
      new;
      StartsYoung(View().limits, storage.pool.state);
    }

    // Validation.

    method ValidateNewOrder(o: NewOrder) returns (result: OrderBookResult)
      requires Consistent()
      ensures ValidateNew(View(), o) ==
              if result == Accepted && sequences.lastCommand == U64_MAX then CapacityExhausted else result
    {
      hide OrderBookStorage.Valid, LosslessOutbox.Valid, WfState;
      if !IsValid(storage.instrumentId) || o.instrumentId != storage.instrumentId {
        return InvalidInstrument;
      }
      if instrumentState == Halted {
        return MarketHalted;
      }
      if instrumentState != Active {
        return InstrumentUnavailable;
      }
      var known := storage.FindOrder(o.orderId);
      if !IsValid(o.orderId) || known.Some? {
        return DuplicateOrderId;
      }
      if o.side != Buy && o.side != Sell {
        return InvalidSide;
      }
      if !IsValid(o.limitPrice) {
        return InvalidPrice;
      }
      if !IsValid(o.quantity) {
        return InvalidQuantity;
      }
      return Accepted;
    }

    method ValidateCancelOrder(o: CancelOrder) returns (result: OrderBookResult)
      requires Consistent()
      ensures ValidateCancel(View(), o) ==
              if result == Accepted && sequences.lastCommand == U64_MAX then CapacityExhausted else result
    {
      hide OrderBookStorage.Valid, LosslessOutbox.Valid, WfState;
      if !IsValid(storage.instrumentId) || o.instrumentId != storage.instrumentId {
        return InvalidInstrument;
      }
      if instrumentState == Closed {
        return InstrumentUnavailable;
      }
      var known := storage.FindOrder(o.orderId);
      if !IsValid(o.orderId) || known.None? {
        return OrderNotFound;
      }
      return Accepted;
    }

    method ValidateAmendOrder(o: AmendOrder, resting: Option<RestingOrderView>) returns (result: OrderBookResult)
      requires Consistent() && resting == ViewOf(storage.book, o.orderId)
      ensures ValidateAmend(View(), o) ==
              if result == Accepted && sequences.lastCommand == U64_MAX then CapacityExhausted else result
    {
      hide OrderBookStorage.Valid, LosslessOutbox.Valid, WfState;
      if !IsValid(storage.instrumentId) || o.instrumentId != storage.instrumentId {
        return InvalidInstrument;
      }
      if instrumentState == Halted {
        return MarketHalted;
      }
      if instrumentState != Active {
        return InstrumentUnavailable;
      }
      if !IsValid(o.orderId) || resting.None? {
        return OrderNotFound;
      }
      if !IsValid(o.newPrice) {
        return InvalidPrice;
      }
      if !IsValid(o.newLeaves) {
        return InvalidAmendment;
      }
      return Accepted;
    }

    // Planning and preflight.

    method PlanOrder(order: LogicalOrder) returns (plan: MatchPlan)
      requires Consistent() && IsSide(order.side)
      ensures plan == PlanOf(order, Levels(storage.book, Opposite(order.side)))
    {
      hide OrderBookStorage.Valid, LosslessOutbox.Valid, WfState;
      plan := storage.VisitOrdersByPriority(Opposite(order.side), Visitor(order.side, order.limitPrice),
                                            MatchPlan([], 0, order.quantity, false));
    }

    /** The slot for the remainder, freed by the first planned removal if the pool is full. */
    method PreflightSlot(plan: MatchPlan, replaced: Option<RestingOrderView>) returns (fits: bool)
      requires Consistent() && FillsPresent(storage.book, plan.fills)
      ensures fits <==> storage.Insertable(FirstRemoved(storage.book, plan, replaced))
    {
      hide OrderBookStorage.Valid, LosslessOutbox.Valid, WfState, Locate;
      var first: Option<OrderId> := None;
      if replaced.Some? {
        first := Some(replaced.value.orderId);
      } else {
        var index := 0;
        while index < |plan.fills|
          invariant 0 <= index <= |plan.fills|
          invariant first == None && FirstFull(storage.book, plan.fills) == FirstFull(storage.book, plan.fills[index..])
        {
          var fill := plan.fills[index];
          var resting := storage.FindOrder(fill.restingOrderId);
          if resting.None? {
            assert false;
          }
          assert plan.fills[index..][0] == fill && plan.fills[index..][1..] == plan.fills[index + 1..];
          if resting.value.leaves == fill.quantity {
            first := Some(fill.restingOrderId);
            break;
          }
          index := index + 1;
        }
      }
      fits := storage.CanInsertAfterRemoving(first);
    }

    /** Whether the destination level has room once the replaced order is gone. */
    method PreflightLevel(order: LogicalOrder, remainder: Quantity, replaced: Option<RestingOrderView>) returns (fits: bool)
      requires Consistent() && ValidOrder(order) && IsValid(remainder)
      requires replaced.Some? ==>
                 && Has(storage.book, replaced.value.orderId)
                 && ViewOf(storage.book, replaced.value.orderId) == replaced
                 && replaced.value.side == order.side
      ensures fits <==> HasRoom(order.side, Levels(Candidate(storage.book, ReplacedId(replaced)), order.side),
                                order.limitPrice, remainder, storage.priceLevelCapacityPerSide)
    {
      hide OrderBookStorage.Valid, LosslessOutbox.Valid, WfState, Locate, LowerBound, Sum, HasLevel, EraseAt;
      Unique();
      storage.LevelsCounted(order.side);
      var count := storage.PriceLevelCount(order.side);
      var oldLevelRemoved := false;
      if replaced.Some? {
        RoomWithoutReplaced(storage.book, replaced.value.orderId, order.limitPrice, remainder,
                            storage.priceLevelCapacityPerSide);
        var oldLevel := storage.LevelEntry(replaced.value.side, replaced.value.price);
        if oldLevel.None? || oldLevel.value.orderCount == 0 || replaced.value.side != order.side {
          assert false;
        }
        if oldLevel.value.orderCount == 1 {
          if count == 0 {
            assert false;
          }
          count := count - 1;
          oldLevelRemoved := true;
        }
      }
      var destination := storage.LevelEntry(order.side, order.limitPrice);
      var replacementIsDestination := replaced.Some? && replaced.value.price == order.limitPrice;
      var destinationStays := destination.Some? && !(replacementIsDestination && oldLevelRemoved);
      if !destinationStays {
        count := count + 1;
      }
      if count > storage.priceLevelCapacityPerSide {
        return false;
      }
      if destinationStays {
        var aggregate := destination.value.aggregate;
        if replacementIsDestination {
          var without := CheckedSubtract(aggregate, replaced.value.leaves);
          if !without.Success? {
            assert false;
          }
          aggregate := without.value;
        }
        if IsValid(aggregate) && !CheckedAdd(aggregate, remainder).Success? {
          return false;
        }
      }
      fits := true;
    }

    method PreflightPlan(order: LogicalOrder, plan: MatchPlan, replaced: Option<RestingOrderView>)
      returns (result: OrderBookResult)
      requires Consistent() && instrumentState.Active? && ValidOrder(order)
      requires plan == PlanOf(order, Levels(storage.book, Opposite(order.side))) && !plan.capacityExhausted
      requires Replaces(storage.book, order, replaced)
      ensures result == Accepted || result == CapacityExhausted
      ensures result == Accepted <==>
              && Fits(Decide(View(), order, ReplacedId(replaced)))
              && (plan.remainder != 0 ==> storage.Insertable(FirstRemoved(storage.book, plan, replaced)))
    {
      hide OrderBookStorage.Valid, LosslessOutbox.Valid, WfState, Locate, HasRoom, PlanOf, Decide, Take;
      Unique();
      PlanPresent(storage.book, order);
      DecideIs(View(), order, replaced);
      OrdersCounted();
      var replacedCount := if replaced.Some? then 1 else 0;
      var active := storage.ActiveOrderCount();
      if plan.fullyFilled + replacedCount > active {
        assert false;
      }
      var finalActive := active - plan.fullyFilled - replacedCount + (if IsValid(plan.remainder) then 1 else 0);
      if finalActive > storage.activeOrderCapacity {
        return CapacityExhausted;
      }
      if IsValid(plan.remainder) {
        var slot := PreflightSlot(plan, replaced);
        if !slot {
          return CapacityExhausted;
        }
        var level := PreflightLevel(order, plan.remainder, replaced);
        if !level {
          return CapacityExhausted;
        }
      }
      if |plan.fills| > U64_MAX - sequences.lastEngine || |plan.fills| > U64_MAX - lastMatchId {
        return CapacityExhausted;
      }
      result := Accepted;
    }

    lemma OrdersCounted()
      requires Consistent()
      ensures CountBook(storage.book) <= storage.activeOrderCapacity
    {
      hide WfState, LosslessOutbox.Valid, Layout.Rep;
    }

    // Execution.

    /** One planned fill; the order it names is in front of its side by now. */
    method ApplyFill(side: Side, fill: PlannedFill)
      requires storage.Valid() && IsSide(side)
      requires var levels := Levels(storage.book, Opposite(side));
               && levels != [] && levels[0].orders != []
               && fill.restingOrderId == levels[0].orders[0].id && fill.restingPrice == levels[0].price
               && 1 <= fill.quantity <= levels[0].orders[0].leaves
      modifies storage.Footprint
      ensures storage.Valid()
      ensures storage.book == WithLevels(old(storage.book), Opposite(side),
                                         AfterFill(Levels(old(storage.book), Opposite(side)), fill.quantity))
      ensures fill.quantity == Levels(old(storage.book), Opposite(side))[0].orders[0].leaves ==>
              old(storage.Insertable(Some(fill.restingOrderId))) ==> storage.Insertable(None)
      ensures SameAge(old(storage.pool.state), storage.pool.state)
    {
      hide OrderBookStorage.Valid, Locate, AfterFill, ReduceStatus, Reduce, CanTakeSlot;
      storage.WellFormed();
      ReduceFront(storage.book, Opposite(side), fill.quantity);
      var resting := storage.FindOrder(fill.restingOrderId);
      if resting.None? || resting.value.side != Opposite(side) || resting.value.price != fill.restingPrice ||
         resting.value.leaves < fill.quantity {
        assert false;
      }
      var reduced := storage.ReduceRestingBy(fill.restingOrderId, fill.quantity);
      if reduced != Accepted {
        assert false;
      }
    }

    /** There is a slot for the remainder, now or once the first fill has freed it. */
    ghost predicate SlotSoon(fills: seq<PlannedFill>)
      reads storage.pool, storage.orders
    {
      storage.Insertable(None) || (fills != [] && storage.Insertable(Some(fills[0].restingOrderId)))
    }

    /** Applies the fills in order, and so takes what the reference takes. */
    method ApplyFills(order: LogicalOrder, fills: seq<PlannedFill>, ghost t: Taken)
      requires storage.Valid() && IsSide(order.side) && WfBook(storage.book)
      requires t == Take(order.side, order.limitPrice, Levels(storage.book, Opposite(order.side)), order.quantity, [])
      requires fills == t.planned
      requires t.remainder != 0 ==> SlotSoon(fills)
      modifies storage.Footprint
      ensures storage.Valid()
      ensures storage.book == WithLevels(old(storage.book), Opposite(order.side), t.levels)
      ensures t.remainder != 0 ==> storage.Insertable(None)
      ensures SameAge(old(storage.pool.state), storage.pool.state)
    {
      hide OrderBookStorage.Valid, Locate, AfterFill, CanTakeSlot, Take, WfLevel, Sorted;
      ghost var opposite, limit := Opposite(order.side), order.limitPrice;
      ghost var start := storage.book;
      ghost var remainder: Quantity := order.quantity;
      var index := 0;
      TakeUnfolds(order.side, limit, Levels(start, opposite), remainder, [], t);
      assert fills[..0] == [];
      while index < |fills|
        invariant 0 <= index <= |fills|
        invariant storage.Valid() && WfSide(opposite, Levels(storage.book, opposite))
        invariant t == Take(order.side, limit, Levels(storage.book, opposite), remainder, fills[..index])
        invariant storage.book == WithLevels(start, opposite, Levels(storage.book, opposite))
        invariant t.remainder != 0 ==> storage.Insertable(None) || (index == 0 && SlotSoon(fills))
        invariant SameAge(old(storage.pool.state), storage.pool.state)
      {
        ghost var levels, planned := Levels(storage.book, opposite), fills[..index];
        TakeUnfolds(order.side, limit, levels, remainder, planned, t);
        if t.remainder != 0 {
          RestMeansFull(order.side, limit, levels, remainder, planned, t);
          SlotForAny(storage.pool.state, storage.orders.contents, fills[index].restingOrderId);
        }
        ApplyFill(order.side, fills[index]);
        assert fills[..index + 1] == planned + [fills[index]];
        remainder := remainder - fills[index].quantity;
        index := index + 1;
      }
      assert fills[..index] == fills;
      TakeUnfolds(order.side, limit, Levels(storage.book, opposite), remainder, fills, t);
    }

    /** Carries out a plan that passed preflight; nothing in it can fail. */
    method ExecutePlan(order: LogicalOrder, plan: MatchPlan, replaced: Option<RestingOrderView>)
      requires storage.Valid() && WfState(View()) && instrumentState.Active? && ValidOrder(order) && IsValid(storage.instrumentId)
      requires plan == PlanOf(order, Levels(storage.book, Opposite(order.side))) && !plan.capacityExhausted
      requires Replaces(storage.book, order, replaced)
      requires Fits(Decide(View(), order, ReplacedId(replaced)))
      requires plan.remainder != 0 ==> storage.Insertable(FirstRemoved(storage.book, plan, replaced))
      modifies storage.Footprint
      ensures storage.Valid()
      ensures storage.book == FilledBook(old(storage.book), order, ReplacedId(replaced))
      ensures OneOlder(old(storage.pool.state), storage.pool.state)
    {
      hide OrderBookStorage.Valid, LosslessOutbox.Valid, WfState, Locate, HasRoom, PlanOf, Decide, Take, CanTakeSlot,
        FirstFull, Has, ViewOf, Erase, EraseAt;
      storage.WellFormed();
      ghost var s, t := View(), TakenBy(storage.book, order, ReplacedId(replaced));
      DecideIs(s, order, replaced);
      ExecutionFacts(s.book, order, replaced);
      if replaced.Some? {
        var removed := storage.RemoveResting(replaced.value.orderId);
        if removed != Accepted {
          assert false;
        }
      }
      storage.WellFormed();
      ApplyFills(order, plan.fills, t);
      if IsValid(plan.remainder) {
        var inserted := storage.InsertResting(order.orderId, storage.instrumentId, order.side, order.limitPrice, plan.remainder);
        if inserted != Accepted {
          assert false;
        }
      }
    }

    // Publication.

    /** Writes one report for each fill into the reservation, then commits counters and batch. */
    method CommitReports(aggressor: OrderId, fills: seq<PlannedFill>, reservation: Reservation<ExecutionReport>)
      returns (reports: seq<ExecutionReport>)
      requires executionOutbox.Valid() && reservation.outbox == executionOutbox && reservation.Owns()
      requires executionOutbox.state == executionOutbox.state.Reserve(|fills|)
      requires executionOutbox.state.staged == [] && reservation.count == |fills|
      requires SequencesFit(View(), |fills|)
      modifies this`lastMatchId, sequences`lastEngine
      modifies executionOutbox, executionOutbox.slots, reservation
      ensures executionOutbox.Valid()
      ensures reports == Reports(old(View()), aggressor, fills)
      ensures executionOutbox.state == old(executionOutbox.state).(
                queue := old(executionOutbox.state.queue) + reports, active := false, reserved := 0)
      ensures sequences.lastEngine == old(sequences.lastEngine) + |fills|
      ensures lastMatchId == old(lastMatchId) + |fills|
    {
      hide LosslessOutbox.Valid;
      ghost var s, reserved := View(), executionOutbox.state;
      ghost var all := Reports(s, aggressor, fills);
      reports := [];
      var index := 0;
      while index < |fills|
        invariant 0 <= index == |reports| <= |fills|
        invariant reports == all[..index]
        invariant executionOutbox.Valid() && reservation.outbox == executionOutbox && reservation.Owns()
        invariant reservation.written == index
        invariant executionOutbox.state == reserved.(staged := reports)
        invariant lastMatchId == s.lastMatch && sequences.lastEngine == s.lastEngine
      {
        var fill := fills[index];
        var report := ExecutionReport(lastMatchId + index + 1, storage.instrumentId, aggressor, fill.restingOrderId,
                                      fill.restingPrice, fill.quantity, sequences.lastEngine + index + 1);
        reports := reports + [report];
        var written := reservation.Write(report);
        if !written {
          assert false;
        }
        index := index + 1;
      }
      assert reports == all;
      var batch := sequences.CommitEventBatch(|fills|);
      if batch.Exhausted? {
        assert false;
      }
      if |fills| != 0 {
        if batch.first != reports[0].engineSequence || batch.last != reports[|fills| - 1].engineSequence {
          assert false;
        }
        lastMatchId := lastMatchId + |fills|;
      }
      var committed := reservation.Commit();
      if !committed {
        assert false;
      }
    }

    // Lifecycle.

    /** The control transaction: preflight, then publish. */
    method CommitLifecycleTransition(t: Transition) returns (result: OrderBookResult)
      requires Consistent()
      modifies Footprint
      ensures Sound()
      ensures |old(statusOutbox.state.queue)| <= statusOutbox.slots.Length
      ensures (View(), result) ==
              if t.reset && old(EpochWornOut()) then (old(View()), CapacityExhausted)
              else CommitTransition(old(View()), t)
      ensures storage.pool.state ==
              if t.reset && result == Accepted then AfterReset(old(storage.pool.state)) else old(storage.pool.state)
    {
      hide OrderBookStorage.Valid, LosslessOutbox.Valid, WfState;
      statusOutbox.Facts();
      StatusesFit();
      if t.reset && !storage.CanClear() {
        return CapacityExhausted;
      }
      var required := if t.preserveHeadroom then 2 else 1;
      if statusOutbox.AvailableCapacity() < required {
        return StatusOutboxFull;
      }
      if sequences.lastEngine == U64_MAX {
        return CapacityExhausted;
      }
      PublishTransition(t);
      result := Accepted;
    }

    /** Writes the status into a reservation, where consumers do not see it yet. */
    method StageStatus(status: SystemStatus) returns (reservation: Reservation<SystemStatus>)
      requires statusOutbox.Valid() && !statusOutbox.state.active
      requires |statusOutbox.state.queue| < statusOutbox.slots.Length
      modifies statusOutbox, statusOutbox.slots
      ensures statusOutbox.Valid() && fresh(reservation)
      ensures reservation.outbox == statusOutbox && reservation.Owns() && reservation.written == reservation.count
      ensures statusOutbox.state == old(statusOutbox.state).(active := true, reserved := 1, staged := [status])
    {
      hide LosslessOutbox.Valid;
      statusOutbox.Facts();
      reservation := statusOutbox.Reserve(1);
      if reservation.outbox == null {
        assert false;
      }
      var written := reservation.Write(status);
      if !written {
        assert false;
      }
    }

    /** Takes the engine sequence the staged status carries, and commits it. */
    method CommitStatus(reservation: Reservation<SystemStatus>, engineSequence: EngineSequence)
      requires statusOutbox.Valid() && reservation.outbox == statusOutbox && reservation.Owns()
      requires reservation.written == reservation.count
      requires engineSequence == sequences.lastEngine + 1
      modifies sequences`lastEngine, statusOutbox, reservation
      ensures statusOutbox.Valid() && statusOutbox.state == old(statusOutbox.state).Commit()
      ensures sequences.lastEngine == engineSequence
    {
      hide LosslessOutbox.Valid;
      var batch := sequences.CommitEventBatch(1);
      var committed := reservation.Commit();
      if batch != Assigned(engineSequence, engineSequence, 1) || !committed {
        assert false;
      }
    }

    /** Reserves, writes the status, changes state and commits; nothing in it can fail. */
    method PublishTransition(t: Transition)
      requires Sound() && sequences.lastEngine < U64_MAX
      requires |statusOutbox.state.queue| < statusOutbox.slots.Length
      requires t.reset ==> storage.CanClear()
      modifies Footprint
      ensures Sound()
      ensures instrumentState == t.next
      ensures sequences.lastEngine == old(sequences.lastEngine) + 1
      ensures sequences.lastCommand == old(sequences.lastCommand) && lastMatchId == old(lastMatchId)
      ensures storage.book == if t.reset then EMPTY else old(storage.book)
      ensures storage.pool.state == if t.reset then AfterReset(old(storage.pool.state)) else old(storage.pool.state)
      ensures executionOutbox.state == old(executionOutbox.state)
      ensures statusOutbox.state.queue == old(statusOutbox.state.queue) +
              [SystemStatus(storage.instrumentId, old(instrumentState), t.next, t.kind, t.reason, sequences.lastEngine)]
    {
      hide OrderBookStorage.Valid, LosslessOutbox.Valid;
      var engineSequence := sequences.lastEngine + 1;
      var reservation := StageStatus(
        SystemStatus(storage.instrumentId, instrumentState, t.next, t.kind, t.reason, engineSequence));
      if t.reset {
        storage.Clear();
      }
      instrumentState := t.next;
      CommitStatus(reservation, engineSequence);
    }

    lemma StatusesFit()
      requires Consistent()
      ensures |statusOutbox.state.queue| <= statusOutbox.slots.Length
    {
    }

    /** The pool's epoch is used up, so the book cannot be cleared. */
    ghost predicate EpochWornOut()
      requires storage.Valid()
      reads storage.Footprint
    {
      !storage.CanClear()
    }

    method FailClosedOutboxFull()
      requires Consistent() && instrumentState.Active? && sequences.lastEngine < U64_MAX
      modifies Footprint
      ensures Consistent()
      ensures View() == FailClosed(old(View()))
      ensures storage.pool.state == old(storage.pool.state)
    {
      hide OrderBookStorage.Valid, LosslessOutbox.Valid;
      var committed := CommitLifecycleTransition(Transition(Halted, StateTransition, OutboxFull, false, false));
      if committed != Accepted {
        assert false;
      }
    }

    /** Executes the plan and commits its reports into the reservation; nothing in it can fail. */
    method CarryOut(order: LogicalOrder, plan: MatchPlan, replaced: Option<RestingOrderView>,
                    reservation: Reservation<ExecutionReport>)
      returns (reports: seq<ExecutionReport>)
      requires Own !! storage.Footprint && storage.Valid() && WfState(View()) && instrumentState.Active?
      requires statusOutbox.Valid() && !statusOutbox.state.active
      requires ValidOrder(order) && IsValid(storage.instrumentId)
      requires plan == PlanOf(order, Levels(storage.book, Opposite(order.side))) && !plan.capacityExhausted
      requires Replaces(storage.book, order, replaced)
      requires Fits(Decide(View(), order, ReplacedId(replaced)))
      requires plan.remainder != 0 ==> storage.Insertable(FirstRemoved(storage.book, plan, replaced))
      requires executionOutbox.Valid() && reservation.outbox == executionOutbox && reservation.Owns()
      requires executionOutbox.state == executionOutbox.state.Reserve(|plan.fills|)
      requires executionOutbox.state.staged == [] && reservation.count == |plan.fills|
      requires SequencesFit(View(), |plan.fills|)
      requires reservation !in Footprint
      modifies Footprint, reservation
      ensures Sound()
      ensures reports == Reports(old(View()), order.orderId, plan.fills)
      ensures View() == Publish(old(View()), order.orderId, plan.fills,
                                FilledBook(old(storage.book), order, ReplacedId(replaced)))
      ensures OneOlder(old(storage.pool.state), storage.pool.state)
    {
      hide OrderBookStorage.Valid, LosslessOutbox.Valid, WfState, Locate, PlanOf, Take, Replaces, Has, ViewOf,
        FirstFull, CanTakeSlot, FilledBook, Decide;
      ExecutePlan(order, plan, replaced);
      reports := CommitReports(order.orderId, plan.fills, reservation);
    }

    /** Reserve, execute and commit a plan that passed preflight, or halt when the outbox is full. */
    method PublishPlan(order: LogicalOrder, plan: MatchPlan, replaced: Option<RestingOrderView>) returns (result: StepResult)
      requires Consistent() && instrumentState.Active? && ValidOrder(order) && IsValid(storage.instrumentId)
      requires plan == PlanOf(order, Levels(storage.book, Opposite(order.side))) && !plan.capacityExhausted
      requires Replaces(storage.book, order, replaced)
      requires Fits(Decide(View(), order, ReplacedId(replaced)))
      requires plan.remainder != 0 ==> storage.Insertable(FirstRemoved(storage.book, plan, replaced))
      modifies Footprint
      ensures Consistent()
      ensures (View(), result) == ExecuteAggressive(old(View()), order, ReplacedId(replaced))
      ensures OneOlder(old(storage.pool.state), storage.pool.state)
    {
      hide OrderBookStorage.Valid, LosslessOutbox.Valid, WfState, Locate, PlanOf, Take, Replaces, Has, ViewOf,
        FirstFull, CanTakeSlot, FilledBook, Decide;
      ghost var s := View();
      Unique();
      executionOutbox.Facts();
      DecideIs(s, order, replaced);
      DecideOutbox(s, order, replaced);
      ReplacesSide(s.book, order, replaced);
      ExecuteKeepsWf(s, order, ReplacedId(replaced));
      var reservation := executionOutbox.Reserve(|plan.fills|);
      if reservation.outbox == null {
        FailClosedOutboxFull();
        result := StepResult(LosslessOutboxFull, sequences.lastCommand, []);
        return;
      }
      var reports := CarryOut(order, plan, replaced, reservation);
      result := StepResult(Accepted, sequences.lastCommand, reports);
    }

    /** As long as every slot can be taken once more, a plan that fits finds its slot. */
    lemma SlotComes(order: LogicalOrder, plan: MatchPlan, replaced: Option<RestingOrderView>)
      requires Consistent() && ValidOrder(order) && Replaces(storage.book, order, replaced)
      requires plan == PlanOf(order, Levels(storage.book, Opposite(order.side))) && !plan.capacityExhausted
      requires plan.remainder != 0 && Fits(Decide(View(), order, ReplacedId(replaced)))
      requires GenerationsBelow(storage.pool.state, U64_MAX)
      ensures storage.Insertable(FirstRemoved(storage.book, plan, replaced))
    {
      hide OrderBookStorage.Valid, LosslessOutbox.Valid, PlanOf, Decide, Take, FirstFull, HasRoom, CanTakeSlot, Locate;
      Unique();
      DecideIs(View(), order, replaced);
      ExecutionFacts(storage.book, order, replaced);
      PlanPresent(storage.book, order);
      if storage.pool.state.free == [] {
        storage.FullPool();
      }
      storage.SlotsLast(FirstRemoved(storage.book, plan, replaced));
    }

    /** Plan, preflight, and publish. */
    method RunOrder(order: LogicalOrder, replaced: Option<RestingOrderView>) returns (result: StepResult)
      requires Consistent() && instrumentState.Active? && ValidOrder(order) && IsValid(storage.instrumentId)
      requires Replaces(storage.book, order, replaced)
      requires GenerationsBelow(storage.pool.state, U64_MAX)
      modifies Footprint
      ensures Consistent()
      ensures (View(), result) == ExecuteAggressive(old(View()), order, ReplacedId(replaced))
      ensures OneOlder(old(storage.pool.state), storage.pool.state)
      ensures sequences.lastCommand == old(sequences.lastCommand)
    {
      hide OrderBookStorage.Valid, LosslessOutbox.Valid, WfState, Locate, PlanOf, Take, Has, ViewOf,
        FirstFull, CanTakeSlot, FilledBook, Decide, HasRoom, MatchedBook, TakenBy;
      Unique();
      DecideIs(View(), order, replaced);
      var plan := PlanOrder(order);
      if plan.capacityExhausted {
        return StepResult(CapacityExhausted, sequences.lastCommand, []);
      }
      if plan.remainder != 0 && Fits(Decide(View(), order, ReplacedId(replaced))) {
        SlotComes(order, plan, replaced);
      }
      var preflight := PreflightPlan(order, plan, replaced);
      if preflight != Accepted {
        return StepResult(preflight, sequences.lastCommand, []);
      }
      result := PublishPlan(order, plan, replaced);
    }

    // Commands.

    method TakeCommandSequence()
      requires Valid() && sequences.lastCommand < U64_MAX
      modifies sequences`lastCommand
      ensures Valid()
      ensures View() == AcceptCommand(old(View()))
      ensures GenerationsBelow(storage.pool.state, sequences.lastCommand)
      ensures sequences.lastCommand == old(sequences.lastCommand) + 1
    {
      hide OrderBookStorage.Valid, LosslessOutbox.Valid;
      var sequence := sequences.AcceptCommand();
      if sequence.None? {
        assert false;
      }
    }

    method ProcessNew(o: NewOrder) returns (result: StepResult)
      requires Valid()
      modifies Footprint
      ensures Valid()
      ensures (View(), result) == Apply(old(View()), New(o))
    {
      hide OrderBookStorage.Valid, LosslessOutbox.Valid, WfState, Locate, PlanOf, Take, ViewOf, Young,
        CanTakeSlot, FilledBook, ExecuteAggressive;
      var validation := ValidateNewOrder(o);
      if validation != Accepted {
        return Rejected(validation);
      }
      if sequences.lastCommand == U64_MAX {
        return Rejected(CapacityExhausted);
      }
      TakeCommandSequence();
      ghost var pool := storage.pool.state;
      result := RunOrder(LogicalNew(o), None);
      StaysYoung(pool, storage.pool.state, sequences.lastCommand, instrumentState);
    }

    method ProcessCancel(o: CancelOrder) returns (result: StepResult)
      requires Valid()
      modifies Footprint
      ensures Valid()
      ensures (View(), result) == Apply(old(View()), Cancel(o))
    {
      hide OrderBookStorage.Valid, LosslessOutbox.Valid, WfState, Locate, ViewOf;
      CancelKeepsWf(View(), o);
      var validation := ValidateCancelOrder(o);
      if validation != Accepted {
        return Rejected(validation);
      }
      if sequences.lastCommand == U64_MAX {
        return Rejected(CapacityExhausted);
      }
      TakeCommandSequence();
      var removed := storage.RemoveResting(o.orderId);
      if removed != Accepted {
        assert false;
      }
      var batch := sequences.CommitEventBatch(0);
      if batch != Assigned(0, 0, 0) {
        assert false;
      }
      result := StepResult(Accepted, sequences.lastCommand, []);
    }

    /** Amends an order at its price; an increase also sends it to the back of its queue. */
    method AmendInPlace(o: AmendOrder, resting: RestingOrderView) returns (result: OrderBookResult)
      requires Sound() && WfBook(storage.book) && ViewOf(storage.book, o.orderId) == Some(resting) && IsValid(o.newLeaves)
      modifies storage.Footprint, sequences`lastEngine
      ensures Sound()
      ensures result == if LeavesFit(old(storage.book), o.orderId, o.newLeaves) then Accepted else CapacityExhausted
      ensures storage.book ==
              if result == Accepted then Requantify(old(storage.book), o.orderId, o.newLeaves) else old(storage.book)
      ensures o.newLeaves <= resting.leaves ==> result == Accepted
      ensures sequences.lastEngine == old(sequences.lastEngine)
      ensures SameAge(old(storage.pool.state), storage.pool.state)
    {
      hide OrderBookStorage.Valid, LosslessOutbox.Valid, LeavesFit, Requantify, MoveToBack, Locate;
      SameLeaves(storage.book, o.orderId);
      if o.newLeaves <= resting.leaves {
        ReductionFits(storage.book, o.orderId, o.newLeaves);
      }
      if LeavesFit(storage.book, o.orderId, o.newLeaves) {
        RequantifyIs(storage.book, o.orderId, o.newLeaves);
        LocateAfterSetLeaves(storage.book, o.orderId, o.newLeaves);
      }
      if o.newLeaves != resting.leaves {
        result := storage.UpdateRestingLeaves(o.orderId, o.newLeaves);
        if result == CapacityExhausted {
          return;
        }
        if result != Accepted {
          assert false;
        }
        if o.newLeaves > resting.leaves {
          var moved := storage.MoveRestingToBack(o.orderId);
          if moved != Accepted {
            assert false;
          }
        }
      }
      var batch := sequences.CommitEventBatch(0);
      if batch != Assigned(0, 0, 0) {
        assert false;
      }
      result := Accepted;
    }

    method ProcessAmend(o: AmendOrder) returns (result: StepResult)
      requires Valid()
      modifies Footprint
      ensures Valid()
      ensures (View(), result) == Apply(old(View()), Amend(o))
    {
      hide OrderBookStorage.Valid, LosslessOutbox.Valid, WfState, Locate, PlanOf, Take, Young,
        CanTakeSlot, FilledBook, ExecuteAggressive, Requantify, LeavesFit;
      AmendKeepsWf(View(), o);
      var resting := storage.FindOrder(o.orderId);
      var validation := ValidateAmendOrder(o, resting);
      if validation != Accepted {
        return Rejected(validation);
      }
      if sequences.lastCommand == U64_MAX {
        return Rejected(CapacityExhausted);
      }
      Unique();
      TakeCommandSequence();
      ghost var pool := storage.pool.state;
      if o.newPrice == resting.value.price {
        var amended := AmendInPlace(o, resting.value);
        StaysYoung(pool, storage.pool.state, sequences.lastCommand, instrumentState);
        return StepResult(amended, sequences.lastCommand, []);
      }
      result := RunOrder(LogicalOrder(o.orderId, resting.value.side, o.newPrice, o.newLeaves), resting);
      StaysYoung(pool, storage.pool.state, sequences.lastCommand, instrumentState);
    }

    method ProcessLifecycle(c: LifecycleCommand) returns (result: StepResult)
      requires Valid()
      modifies Footprint
      ensures Valid()
      ensures (View(), result) == Apply(old(View()), Lifecycle(c))
    {
      hide OrderBookStorage.Valid, LosslessOutbox.Valid, WfState;
      ApplyKeepsWf(View(), Lifecycle(c));
      if !IsValid(storage.instrumentId) || c.instrumentId != storage.instrumentId {
        return Rejected(InvalidInstrument);
      }
      var transition := TransitionOf(instrumentState, c.kind);
      if transition.None? {
        return Rejected(InvalidStateTransition);
      }
      if sequences.lastCommand == U64_MAX {
        return Rejected(CapacityExhausted);
      }
      TakeCommandSequence();
      if transition.value.reset {
        storage.EpochLasts();
      }
      var committed := CommitLifecycleTransition(transition.value);
      result := StepResult(committed, sequences.lastCommand, []);
    }

    lemma Obeys(c: Command)
      requires Valid()
      ensures WfState(View())
      ensures var (u, r) := Apply(View(), c); Laws.Lawful(View(), c, u, r)
    {
      hide OrderBookStorage.Valid, LosslessOutbox.Valid, Young;
      Unique();
      Lawfulness.ApplyIsLawful(View(), c);
    }

    /** The command overloads behind one name. */
    method Process(c: Command) returns (result: StepResult)
      requires Valid()
      modifies Footprint
      ensures Valid()
      ensures (View(), result) == Apply(old(View()), c)
      ensures Laws.Lawful(old(View()), c, View(), result)
    {
      hide Consistent, Young, ApplyNew, ApplyCancel, ApplyAmend, ApplyLifecycle, Laws.Lawful;
      Obeys(c);
      match c
      case New(o) => result := ProcessNew(o);
      case Cancel(o) => result := ProcessCancel(o);
      case Amend(o) => result := ProcessAmend(o);
      case Lifecycle(l) => result := ProcessLifecycle(l);
    }

    // The consumers' side.

    method TryConsumeExecutionReport() returns (report: Option<ExecutionReport>)
      requires Valid()
      modifies executionOutbox
      ensures Valid()
      ensures report == if old(View()).reports == [] then None else Some(old(View()).reports[0])
      ensures View() == if report.None? then old(View()) else old(View()).(reports := old(View()).reports[1..])
    {
      hide OrderBookStorage.Valid, LosslessOutbox.Valid, WfBook;
      report := executionOutbox.TryPop();
    }

    method TryConsumeStatus() returns (status: Option<SystemStatus>)
      requires Valid()
      modifies statusOutbox
      ensures Valid()
      ensures status == if old(View()).statuses == [] then None else Some(old(View()).statuses[0])
      ensures View() == if status.None? then old(View()) else old(View()).(statuses := old(View()).statuses[1..])
    {
      hide OrderBookStorage.Valid, LosslessOutbox.Valid, WfBook;
      status := statusOutbox.TryPop();
    }

    /** The check a debug build makes after every command: it cannot fail. */
    method ValidateInvariants() returns (ok: bool)
      requires Valid()
      ensures ok
    {
      hide OrderBookStorage.Valid, LosslessOutbox.Valid, Young, WfBook;
      executionOutbox.Facts();
      statusOutbox.Facts();
      var storageFine := storage.ValidateInvariants();
      var executionFine := executionOutbox.ValidateInvariants();
      var statusFine := statusOutbox.ValidateInvariants();
      var count := storage.ActiveOrderCount();
      var bid := storage.BestPrice(Buy);
      var ask := storage.BestPrice(Sell);
      ok := storageFine && executionFine && statusFine
            && (instrumentState == Active ==> statusOutbox.AvailableCapacity() != 0)
            && (instrumentState == Closed ==> count == 0)
            && (bid.Some? && ask.Some? ==> bid.value < ask.value);
    }

    lemma Outboxes()
      requires Valid()
      ensures executionOutbox.Valid() && statusOutbox.Valid()
    {
    }

    lemma Unique()
      requires Consistent()
      ensures UniqueIds(storage.book) && WfBook(storage.book)
    {
      hide WfState, LosslessOutbox.Valid;
      Layout.IdsUnique(storage.StoreOf());
    }
  }
}
