/**
  What one accepted command does to every resting order's quantity, and in
  which order resting orders were matched.
 */
module Conservation {
  import opened Domain
  import opened Book
  import opened Reference
  import opened Matching
  import opened Planning
  import opened Runs
  import opened Identity

  // The quantity a book holds for one ID.

  function Share(o: Order, id: OrderId): nat {
    if o.id == id then o.leaves else 0
  }

  function HeldIn(orders: seq<Order>, id: OrderId): nat {
    if orders == [] then 0 else Share(orders[0], id) + HeldIn(orders[1..], id)
  }

  function Held(levels: seq<Level>, id: OrderId): nat {
    if levels == [] then 0 else HeldIn(levels[0].orders, id) + Held(levels[1..], id)
  }

  function HeldBy(book: Book, id: OrderId): nat {
    Held(book.bids, id) + Held(book.asks, id)
  }

  lemma {:induction false} HeldInConcat(a: seq<Order>, b: seq<Order>, id: OrderId)
    ensures HeldIn(a + b, id) == HeldIn(a, id) + HeldIn(b, id)
  {
    if a == [] {
      assert a + b == b;
    } else {
      HeldInConcat(a[1..], b, id);
      assert (a + b)[1..] == a[1..] + b;
    }
  }

  lemma HeldInWithout(orders: seq<Order>, j: nat, id: OrderId)
    requires j < |orders|
    ensures HeldIn(Without(orders, j), id) == HeldIn(orders, id) - Share(orders[j], id)
  {
    if j == 0 {
      assert Without(orders, 0) == orders[1..];
    } else {
      HeldInWithout(orders[1..], j - 1, id);
      assert Without(orders, j)[1..] == Without(orders[1..], j - 1);
    }
  }

  lemma {:induction false} HeldConcat(a: seq<Level>, b: seq<Level>, id: OrderId)
    ensures Held(a + b, id) == Held(a, id) + Held(b, id)
  {
    if a == [] {
      assert a + b == b;
    } else {
      HeldConcat(a[1..], b, id);
      assert (a + b)[1..] == a[1..] + b;
    }
  }

  lemma HeldUpdate(levels: seq<Level>, i: nat, level: Level, id: OrderId)
    requires i < |levels|
    ensures Held(levels[i := level], id) == Held(levels, id) - HeldIn(levels[i].orders, id) + HeldIn(level.orders, id)
  {
    assert levels == levels[..i] + ([levels[i]] + levels[i + 1..]);
    assert levels[i := level] == levels[..i] + ([level] + levels[i + 1..]);
    HeldConcat(levels[..i], [levels[i]] + levels[i + 1..], id);
    HeldConcat(levels[..i], [level] + levels[i + 1..], id);
  }

  lemma HeldErase(levels: seq<Level>, i: nat, j: nat, id: OrderId)
    requires InRange(levels, i, j)
    ensures Held(EraseAt(levels, i, j), id) == Held(levels, id) - Share(levels[i].orders[j], id)
  {
    HeldInWithout(levels[i].orders, j, id);
    if |levels[i].orders| == 1 {
      assert levels == levels[..i] + ([levels[i]] + levels[i + 1..]);
      HeldConcat(levels[..i], [levels[i]] + levels[i + 1..], id);
      HeldConcat(levels[..i], levels[i + 1..], id);
    } else {
      HeldUpdate(levels, i, levels[i].(orders := Without(levels[i].orders, j)), id);
    }
  }

  lemma HeldSetLeaves(levels: seq<Level>, i: nat, j: nat, leaves: Quantity, id: OrderId)
    requires InRange(levels, i, j)
    ensures var o := levels[i].orders[j];
            Held(SetLeavesAt(levels, i, j, leaves), id) ==
            Held(levels, id) - Share(o, id) + Share(o.(leaves := leaves), id)
  {
    var orders, o := levels[i].orders, levels[i].orders[j];
    var changed := orders[j := o.(leaves := leaves)];
    assert Without(changed, j) == Without(orders, j);
    HeldInWithout(orders, j, id);
    HeldInWithout(changed, j, id);
    HeldUpdate(levels, i, levels[i].(orders := changed), id);
  }

  lemma HeldInsert(side: Side, levels: seq<Level>, price: PriceTicks, o: Order, id: OrderId)
    ensures Held(InsertOrder(side, levels, price, o), id) == Held(levels, id) + Share(o, id)
  {
    var p := LowerBound(side, levels, price);
    if HasLevel(side, levels, price) {
      HeldInConcat(levels[p].orders, [o], id);
      HeldUpdate(levels, p, Level(price, levels[p].orders + [o]), id);
    } else {
      assert levels == levels[..p] + levels[p..];
      HeldConcat(levels[..p], levels[p..], id);
      var added := [Level(price, [o])];
      assert HeldIn(added[0].orders, id) == Share(o, id);
      HeldConcat(levels[..p], added, id);
      HeldConcat(levels[..p] + added, levels[p..], id);
    }
  }

  /** What is held for an ID that is nowhere is nothing. */
  lemma HeldNothing(levels: seq<Level>, id: OrderId)
    requires !HasId(levels, id)
    ensures Held(levels, id) == 0
  {
    if levels == [] {
    } else {
      forall j: nat | j < |levels[0].orders| ensures levels[0].orders[j].id != id {
        assert InRange(levels, 0, j);
      }
      HeldInNothing(levels[0].orders, id);
      HeldNothing(levels[1..], id);
    }
  }

  lemma {:induction false} HeldInNothing(orders: seq<Order>, id: OrderId)
    requires forall j :: 0 <= j < |orders| ==> orders[j].id != id
    ensures HeldIn(orders, id) == 0
  {
    if orders == [] {
    } else {
      HeldInNothing(orders[1..], id);
    }
  }

  /** With unique IDs, the leaves of an order are all the book holds for its ID. */
  lemma HeldIsLeaves(book: Book, id: OrderId)
    requires UniqueIds(book)
    ensures HeldBy(book, id) == LeavesOf(book, id)
  {
    HasIsHasId(book, id);
    if Has(book, id) {
      var at, erased := Locate(book, id).value, Erase(book, id);
      HeldErase(Levels(book, at.side), at.level, at.index, id);
      ErasedIsGone(book, id);
      HasIsHasId(erased, id);
      HeldNothing(erased.bids, id);
      HeldNothing(erased.asks, id);
    } else {
      HeldNothing(book.bids, id);
      HeldNothing(book.asks, id);
    }
  }

  // Matching.

  /** How much of the fills is against one resting order. */
  function FilledFor(fills: seq<PlannedFill>, id: OrderId): nat {
    if fills == [] then 0
    else
      var last := fills[|fills| - 1];
      FilledFor(fills[..|fills| - 1], id) + (if last.restingOrderId == id then last.quantity else 0)
  }

  lemma HeldAfterFill(levels: seq<Level>, quantity: Quantity, id: OrderId)
    requires levels != [] && levels[0].orders != [] && quantity <= levels[0].orders[0].leaves
    ensures Held(AfterFill(levels, quantity), id) ==
            Held(levels, id) - (if levels[0].orders[0].id == id then quantity else 0)
  {
    if quantity == levels[0].orders[0].leaves {
      HeldErase(levels, 0, 0, id);
    } else {
      HeldSetLeaves(levels, 0, 0, levels[0].orders[0].leaves - quantity, id);
    }
  }

  /** Each fill is the exact reduction of the order it names. */
  lemma {:induction false} TakeHeld(side: Side, limit: PriceTicks, levels: seq<Level>, remainder: Quantity,
                                    planned: seq<PlannedFill>, id: OrderId)
    requires WfSide(Opposite(side), levels)
    ensures var t := Take(side, limit, levels, remainder, planned);
            Held(t.levels, id) + FilledFor(t.planned, id) == Held(levels, id) + FilledFor(planned, id)
    decreases remainder
  {
    if !Continues(side, limit, levels, remainder) || |planned| >= MAXIMUM_FILLS_PER_COMMAND {
    } else {
      FrontIsWf(Opposite(side), levels);
      var fill := FrontFill(levels, remainder);
      AfterFillWf(Opposite(side), levels, fill.quantity);
      HeldAfterFill(levels, fill.quantity, id);
      assert (planned + [fill])[..|planned|] == planned;
      hide WfSide, AfterFill, Held;
      TakeHeld(side, limit, AfterFill(levels, fill.quantity), remainder - fill.quantity, planned + [fill], id);
    }
  }

  lemma CandidateHeld(book: Book, replaced: Option<OrderId>, id: OrderId)
    requires UniqueIds(book)
    ensures HeldBy(Candidate(book, replaced), id) == if replaced == Some(id) then 0 else HeldBy(book, id)
  {
    if replaced.Some? && Has(book, replaced.value) {
      var at := Locate(book, replaced.value).value;
      HeldErase(Levels(book, at.side), at.level, at.index, id);
    }
    if replaced == Some(id) {
      HeldIsLeaves(book, id);
    }
  }

  lemma FilledHeld(book: Book, order: LogicalOrder, replaced: Option<OrderId>, id: OrderId)
    requires WfBook(book) && UniqueIds(book) && IsSide(order.side)
    ensures var t := TakenBy(book, order, replaced);
            HeldBy(FilledBook(book, order, replaced), id) + FilledFor(t.planned, id) ==
            (if replaced == Some(id) then 0 else HeldBy(book, id)) + (if id == order.orderId then t.remainder else 0)
    ensures replaced == Some(id) || HeldBy(book, id) == 0 ==> FilledFor(TakenBy(book, order, replaced).planned, id) == 0
  {
    var candidate, opposite := Candidate(book, replaced), Opposite(order.side);
    var t, matched := TakenBy(book, order, replaced), MatchedBook(book, order, replaced);
    CandidateHeld(book, replaced, id);
    TakeHeld(order.side, order.limitPrice, Levels(candidate, opposite), order.quantity, [], id);
    HeldInsert(order.side, Levels(matched, order.side), order.limitPrice, Order(order.orderId, t.remainder), id);
    hide Held, Take, InsertOrder;
  }

  // Accepted commands.

  function FillsOf(reports: seq<ExecutionReport>): (fills: seq<PlannedFill>)
    ensures |fills| == |reports|
    ensures forall k :: 0 <= k < |fills| ==>
              fills[k] == PlannedFill(reports[k].restingOrderId, reports[k].matchPrice, reports[k].matchQuantity)
  {
    seq(|reports|, k requires 0 <= k < |reports| =>
      PlannedFill(reports[k].restingOrderId, reports[k].matchPrice, reports[k].matchQuantity))
  }

  /**
    The books before and after, settled. The order a command is about ends up
    with what was asked for less what was filled; every other order loses
    exactly what was reported against it; and the book as a whole holds what
    it held, without the order's old leaves, plus the quantity asked for, less
    every fill on both of its sides.
   */
  ghost predicate Settles(before: Book, after: Book, fills: seq<PlannedFill>, id: OrderId, quantity: nat) {
    && FillTotal(fills) <= quantity
    && FilledFor(fills, id) == 0
    && LeavesOf(after, id) == quantity - FillTotal(fills)
    && (forall other :: other != id ==> LeavesOf(after, other) == LeavesOf(before, other) - FilledFor(fills, other))
    && TotalBook(after) + 2 * FillTotal(fills) == TotalBook(before) - LeavesOf(before, id) + quantity
  }

  lemma FilledSettles(s: State, order: LogicalOrder, replaced: Option<OrderId>)
    requires WfState(s) && UniqueIds(s.book) && s.phase.Active? && ValidOrder(order)
    requires if replaced.Some? then replaced.value == order.orderId && ReplacesOwnSide(s.book, order.side, replaced)
             else !Has(s.book, order.orderId)
    requires Decide(s, order, replaced) == Accepted
    ensures Settles(s.book, FilledBook(s.book, order, replaced), TakenBy(s.book, order, replaced).planned,
                    order.orderId, order.quantity)
  {
    var after, t := FilledBook(s.book, order, replaced), TakenBy(s.book, order, replaced);
    FilledEffect(s, order, replaced);
    FilledUnique(s.book, order, replaced);
    hide FilledBook, TakenBy, UniqueIds, HeldBy, TotalBook, Decide, WfState;
    forall id
      ensures LeavesOf(after, id) + FilledFor(t.planned, id) ==
              (if replaced == Some(id) then 0 else LeavesOf(s.book, id)) + (if id == order.orderId then t.remainder else 0)
      ensures replaced == Some(id) || LeavesOf(s.book, id) == 0 ==> FilledFor(t.planned, id) == 0
    {
      FilledHeld(s.book, order, replaced, id);
      HeldIsLeaves(s.book, id);
      HeldIsLeaves(after, id);
    }
  }

  lemma ExecuteSettles(s: State, order: LogicalOrder, replaced: Option<OrderId>)
    requires WfState(s) && UniqueIds(s.book) && s.phase.Active? && ValidOrder(order)
    requires if replaced.Some? then replaced.value == order.orderId && ReplacesOwnSide(s.book, order.side, replaced)
             else !Has(s.book, order.orderId)
    ensures var (u, r) := ExecuteAggressive(s, order, replaced);
            r.result == Accepted ==>
            && FillsOf(r.reports) == TakenBy(s.book, order, replaced).planned
            && Settles(s.book, u.book, FillsOf(r.reports), order.orderId, order.quantity)
  {
    if Decide(s, order, replaced) == Accepted {
      DecideFits(s, order, replaced);
      FilledSettles(s, order, replaced);
      assert FillsOf(Reports(s, order.orderId, TakenBy(s.book, order, replaced).planned))
             == TakenBy(s.book, order, replaced).planned;
    }
    hide Decide, FilledBook, TakenBy, Settles, UniqueIds, WfState;
  }

  lemma CancelledLeaves(book: Book, id: OrderId, other: OrderId)
    requires UniqueIds(book)
    ensures LeavesOf(Erase(book, id), other) == if other == id then 0 else LeavesOf(book, other)
  {
    hide Erase, LeavesOf, Locate, HeldBy, UniqueIds;
    EraseUnique(book, id);
    CandidateHeld(book, Some(id), other);
    HeldIsLeaves(book, other);
    HeldIsLeaves(Erase(book, id), other);
  }

  lemma CancelSettles(book: Book, id: OrderId)
    requires WfBook(book) && UniqueIds(book) && Has(book, id)
    ensures Settles(book, Erase(book, id), [], id, 0)
  {
    hide Erase, UniqueIds, TotalBook, LeavesOf, WfBook, Locate;
    EraseOneSide(book, id);
    forall other ensures LeavesOf(Erase(book, id), other) == if other == id then 0 else LeavesOf(book, other) {
      CancelledLeaves(book, id, other);
    }
  }

  lemma SetLeavesHeld(book: Book, id: OrderId, leaves: Quantity, other: OrderId)
    requires UniqueIds(book) && Has(book, id)
    ensures HeldBy(SetLeaves(book, id, leaves), other) == if other == id then leaves else HeldBy(book, other)
  {
    var at := Locate(book, id).value;
    HeldSetLeaves(Levels(book, at.side), at.level, at.index, leaves, other);
    HeldIsLeaves(book, id);
  }

  lemma InsertHeld(book: Book, side: Side, price: PriceTicks, o: Order, other: OrderId)
    ensures HeldBy(Insert(book, side, price, o), other) == HeldBy(book, other) + Share(o, other)
  {
    HeldInsert(side, Levels(book, side), price, o, other);
  }

  lemma RequantifiedLeaves(book: Book, id: OrderId, leaves: Quantity, other: OrderId)
    requires UniqueIds(book) && Has(book, id)
    ensures LeavesOf(Requantify(book, id, leaves), other) == if other == id then leaves else LeavesOf(book, other)
  {
    var view, after, changed := ViewOf(book, id).value, Requantify(book, id, leaves), SetLeaves(book, id, leaves);
    hide UniqueIds, Locate, SetLeaves, Insert, Erase, HeldBy, LeavesOf;
    RequantifyUnique(book, id, leaves);
    SetLeavesHeld(book, id, leaves, other);
    CandidateHeld(changed, Some(id), other);
    InsertHeld(Erase(changed, id), view.side, view.price, Order(id, leaves), other);
    HeldIsLeaves(book, other);
    HeldIsLeaves(after, other);
  }

  lemma RequantifySettles(book: Book, id: OrderId, leaves: Quantity)
    requires WfBook(book) && UniqueIds(book) && Has(book, id) && IsValid(leaves) && LeavesFit(book, id, leaves)
    ensures Settles(book, Requantify(book, id, leaves), [], id, leaves)
  {
    hide UniqueIds, TotalBook, Requantify, LeavesOf, LeavesFit, WfBook;
    RequantifyEffect(book, id, leaves);
    forall other ensures LeavesOf(Requantify(book, id, leaves), other) == if other == id then leaves else LeavesOf(book, other) {
      RequantifiedLeaves(book, id, leaves, other);
    }
  }

  /** The quantity a command asks to be working or filled afterwards. */
  function Asked(c: Command): nat {
    match c
    case New(o) => o.quantity
    case Amend(o) => o.newLeaves
    case _ => 0
  }

  function Target(c: Command): OrderId
    requires !c.Lifecycle?
  {
    match c
    case New(o) => o.orderId
    case Cancel(o) => o.orderId
    case Amend(o) => o.orderId
  }

  /** Conservation of quantity, for every accepted order command. */
  lemma Conservation(s: State, c: Command)
    requires WfState(s) && UniqueIds(s.book) && !c.Lifecycle?
    ensures var (u, r) := Apply(s, c);
            r.result == Accepted ==> Settles(s.book, u.book, FillsOf(r.reports), Target(c), Asked(c))
  {
    hide Settles, UniqueIds, ExecuteAggressive, Requantify, LeavesFit, Erase, WfBook;
    assert FillsOf([]) == [];
    match c
    case New(o) =>
      if ValidateNew(s, o) == Accepted {
        ExecuteSettles(AcceptCommand(s), LogicalNew(o), None);
      }
    case Cancel(o) =>
      if ValidateCancel(s, o) == Accepted {
        CancelSettles(s.book, o.orderId);
      }
    case Amend(o) =>
      if ValidateAmend(s, o) == Accepted {
        if o.newPrice != ViewOf(s.book, o.orderId).value.price {
          ExecuteSettles(AcceptCommand(s), LogicalAmend(s, o), Some(o.orderId));
        } else {
          if o.newLeaves <= LeavesOf(s.book, o.orderId) {
            ReductionFits(s.book, o.orderId, o.newLeaves);
          }
          if LeavesFit(s.book, o.orderId, o.newLeaves) {
            RequantifySettles(s.book, o.orderId, o.newLeaves);
          }
        }
      }
  }

  /**
    The fills are the opposite side's orders in price-time priority, each at
    the resting price and full but for the last; what they leave is what rests
    there afterwards, in its old order; and if any of the order is left, there
    is nothing left that it crosses.
   */
  ghost predicate InPriority(before: Book, after: Book, order: LogicalOrder, fills: seq<PlannedFill>) {
    var opposite := Opposite(order.side);
    var views := Flat(opposite, Levels(before, opposite));
    && PriorityPrefix(order.side, order.limitPrice, views, fills)
    && Flat(opposite, Levels(after, opposite)) == Remaining(views, fills)
    && (FillTotal(fills) < order.quantity ==>
          && AllFull(views, fills)
          && (|fills| == |views| || !Crosses(order.side, order.limitPrice, views[|fills|].price)))
  }

  lemma FilledInPriority(book: Book, order: LogicalOrder, replaced: Option<OrderId>)
    requires WfBook(book) && IsSide(order.side) && ReplacesOwnSide(book, order.side, replaced)
    ensures var t, opposite := TakenBy(book, order, replaced), Opposite(order.side);
            && Levels(FilledBook(book, order, replaced), opposite) == t.levels
            && TookByPriority(order.side, order.limitPrice, Flat(opposite, Levels(book, opposite)), [], t)
  {
    if replaced.Some? {
      EraseOneSide(book, replaced.value);
    }
    hide TookByPriority, Take, WfBook;
    TakeIsPriorityPrefix(order.side, order.limitPrice, Levels(Candidate(book, replaced), Opposite(order.side)),
                         order.quantity, []);
  }

  lemma ExecuteInPriority(s: State, order: LogicalOrder, replaced: Option<OrderId>)
    requires WfState(s) && s.phase.Active? && ValidOrder(order) && ReplacesOwnSide(s.book, order.side, replaced)
    ensures var (u, r) := ExecuteAggressive(s, order, replaced);
            r.result == Accepted ==> InPriority(s.book, u.book, order, FillsOf(r.reports))
  {
    if Decide(s, order, replaced) == Accepted {
      var t := TakenBy(s.book, order, replaced);
      DecideFits(s, order, replaced);
      FilledEffect(s, order, replaced);
      FilledInPriority(s.book, order, replaced);
      hide Flat, PriorityPrefix, TakenBy, FilledBook, Decide, WfState, TotalBook;
      assert FillsOf(Reports(s, order.orderId, t.planned)) == t.planned;
      assert t.planned[0..] == t.planned;
    }
  }

  /** The order a command sends against the other side of the book, if it sends one. */
  function Aggressive(s: State, c: Command): Option<LogicalOrder> {
    match c
    case New(o) => Some(LogicalNew(o))
    case Amend(o) =>
      if Has(s.book, o.orderId) && ViewOf(s.book, o.orderId).value.price != o.newPrice then Some(LogicalAmend(s, o))
      else None
    case _ => None
  }

  /** Price-time priority, for every accepted new order and every accepted change of price. */
  lemma Priority(s: State, c: Command)
    requires WfState(s) && Aggressive(s, c).Some?
    ensures var (u, r) := Apply(s, c);
            r.result == Accepted ==> InPriority(s.book, u.book, Aggressive(s, c).value, FillsOf(r.reports))
  {
    hide InPriority, ExecuteAggressive, WfBook;
    match c
    case New(o) =>
      if ValidateNew(s, o) == Accepted {
        ExecuteInPriority(AcceptCommand(s), LogicalNew(o), None);
      }
    case Amend(o) =>
      if ValidateAmend(s, o) == Accepted {
        ExecuteInPriority(AcceptCommand(s), LogicalAmend(s, o), Some(o.orderId));
      }
  }

  /** In every reachable state the resting orders' IDs are unique, as Conservation asks. */
  lemma {:induction false} RunUnique(j: Journal, events: seq<Event>)
    requires WfState(j.state) && UniqueIds(j.state.book)
    ensures UniqueIds(Run(j, events).state.book)
    decreases |events|
  {
    hide UniqueIds, WfState, Apply;
    if events == [] {
    } else {
      if events[0].Submit? {
        ApplyUnique(j.state, events[0].command);
      }
      NextKeepsWf(j, events[0]);
      RunUnique(Next(j, events[0]), events[1..]);
    }
  }

  lemma AlwaysUnique(limits: Limits, events: seq<Event>)
    requires limits.statusCapacity >= MINIMUM_STATUS_OUTBOX_CAPACITY
    ensures UniqueIds(Run(Opening(limits), events).state.book)
  {
    EmptyUnique();
    RunUnique(Opening(limits), events);
  }

  /**
    In every reachable state a command is rejected without trace, counted and
    dropped, halted closed, or carried out; there is no fifth outcome.
   */
  lemma AlwaysAtomic(limits: Limits, events: seq<Event>, c: Command)
    requires limits.statusCapacity >= MINIMUM_STATUS_OUTBOX_CAPACITY
    ensures var s := Run(Opening(limits), events).state;
            var (u, r) := Apply(s, c);
            Atomic(s, u, r) && (r.commandSequence != 0 ==> r.result in OUTCOMES)
  {
    hide Apply, UniqueIds, WfState;
    AlwaysUnique(limits, events);
    Atomicity(Run(Opening(limits), events).state, c);
  }
}
