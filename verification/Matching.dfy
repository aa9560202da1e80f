/**
  What matching does to the book: price-time priority, conservation of
  quantity, and that the two sides never cross.
 */
module Matching {
  import opened Domain
  import opened Book
  import opened Reference

  function FillTotal(fills: seq<PlannedFill>): nat {
    if fills == [] then 0 else FillTotal(fills[..|fills| - 1]) + fills[|fills| - 1].quantity
  }

  lemma AfterFillCounts(levels: seq<Level>, quantity: Quantity)
    requires levels != [] && levels[0].orders != [] && quantity <= levels[0].orders[0].leaves
    ensures var after := AfterFill(levels, quantity);
            && Total(after) == Total(levels) - quantity
            && Count(after) == Count(levels) - (if quantity == levels[0].orders[0].leaves then 1 else 0)
            && |after| <= |levels|
  {
    var orders := levels[0].orders;
    if quantity == orders[0].leaves {
      CountErase(levels, 0, 0);
    } else {
      SumSet(orders, 0, orders[0].leaves - quantity);
      CountUpdate(levels, 0, levels[0].(orders := orders[0 := orders[0].(leaves := orders[0].leaves - quantity)]));
    }
  }

  /** The best price can only get worse for the other side's orders. */
  ghost predicate NoBetterThan(side: Side, after: seq<Level>, levels: seq<Level>) {
    after != [] ==> levels != [] && !Before(side, after[0].price, levels[0].price)
  }

  lemma EraseNoBetter(side: Side, levels: seq<Level>, i: nat, j: nat)
    requires WfSide(side, levels) && InRange(levels, i, j)
    ensures NoBetterThan(side, EraseAt(levels, i, j), levels)
    ensures |EraseAt(levels, i, j)| <= |levels|
  {
  }

  lemma AfterFillNoBetter(side: Side, levels: seq<Level>, quantity: Quantity)
    requires WfSide(side, levels) && levels != [] && levels[0].orders != [] && quantity <= levels[0].orders[0].leaves
    ensures NoBetterThan(side, AfterFill(levels, quantity), levels)
  {
  }

  /** What taking leaves behind, and what it cost. */
  lemma {:induction false} TakeEffect(side: Side, limit: PriceTicks, levels: seq<Level>, remainder: Quantity, planned: seq<PlannedFill>)
    requires WfSide(Opposite(side), levels)
    ensures var t := Take(side, limit, levels, remainder, planned);
            && WfSide(Opposite(side), t.levels)
            && |t.levels| <= |levels| && Count(t.levels) <= Count(levels)
            && NoBetterThan(Opposite(side), t.levels, levels)
            && planned <= t.planned
            && t.remainder <= remainder
            && Total(t.levels) == Total(levels) - (remainder - t.remainder)
            && FillTotal(t.planned) == FillTotal(planned) + (remainder - t.remainder)
            && (t.withinCapacity ==> !Continues(side, limit, t.levels, t.remainder))
            && (|planned| <= MAXIMUM_FILLS_PER_COMMAND ==> |t.planned| <= MAXIMUM_FILLS_PER_COMMAND)
    decreases remainder
  {
    if !Continues(side, limit, levels, remainder) || |planned| >= MAXIMUM_FILLS_PER_COMMAND {
    } else {
      FrontIsWf(Opposite(side), levels);
      var fill := FrontFill(levels, remainder);
      AfterFillWf(Opposite(side), levels, fill.quantity);
      AfterFillCounts(levels, fill.quantity);
      AfterFillNoBetter(Opposite(side), levels, fill.quantity);
      assert (planned + [fill])[..|planned|] == planned;
      hide WfSide, AfterFill;
      TakeEffect(side, limit, AfterFill(levels, fill.quantity), remainder - fill.quantity, planned + [fill]);
    }
  }

  /** The fills take the views from the front, at their prices, all but the last of them whole. */
  ghost predicate PriorityPrefix(side: Side, limit: PriceTicks, views: seq<RestingOrderView>, fills: seq<PlannedFill>) {
    && |fills| <= |views|
    && (forall k :: 0 <= k < |fills| ==>
          && fills[k].restingOrderId == views[k].orderId
          && fills[k].restingPrice == views[k].price
          && Crosses(side, limit, views[k].price)
          && 1 <= fills[k].quantity <= views[k].leaves)
    && (forall k :: 0 <= k < |fills| - 1 ==> fills[k].quantity == views[k].leaves)
  }

  /** A resting order after it gave up part of its leaves. */
  function Less(view: RestingOrderView, quantity: Quantity): RestingOrderView
    requires quantity <= view.leaves
  {
    view.(leaves := view.leaves - quantity)
  }

  lemma PartialFlat(side: Side, levels: seq<Level>, quantity: Quantity)
    requires levels != [] && levels[0].orders != [] && quantity < levels[0].orders[0].leaves
    ensures Flat(side, levels) != [] && quantity <= Flat(side, levels)[0].leaves
    ensures Flat(side, AfterFill(levels, quantity)) == [Less(Flat(side, levels)[0], quantity)] + Flat(side, levels)[1..]
  {
  }

  lemma FullFlat(side: Side, levels: seq<Level>)
    requires levels != [] && levels[0].orders != []
    ensures Flat(side, levels) != [] && Flat(side, EraseAt(levels, 0, 0)) == Flat(side, levels)[1..]
  {
    var price, orders, rest := levels[0].price, levels[0].orders, levels[1..];
    var erased, here := EraseAt(levels, 0, 0), FlatOrders(side, price, orders);
    assert (here + Flat(side, rest))[1..] == here[1..] + Flat(side, rest);
    assert FlatOrders(side, price, orders[1..]) == here[1..];
    if |orders| == 1 {
      assert erased == rest && here[1..] == [];
      assert here[1..] + Flat(side, rest) == Flat(side, rest);
    } else {
      assert Without(orders, 0) == orders[1..];
      assert erased[0] == Level(price, orders[1..]) && erased[1..] == rest;
    }
  }

  lemma FlatAfterFill(side: Side, levels: seq<Level>, quantity: Quantity)
    requires levels != [] && levels[0].orders != []
    requires 1 <= quantity <= levels[0].orders[0].leaves
    ensures Flat(side, levels) != []
    ensures Flat(side, levels)[0] ==
            RestingOrderView(levels[0].orders[0].id, side, levels[0].price, levels[0].orders[0].leaves)
    ensures quantity == levels[0].orders[0].leaves ==>
            Flat(side, AfterFill(levels, quantity)) == Flat(side, levels)[1..]
    ensures quantity < levels[0].orders[0].leaves ==>
            Flat(side, AfterFill(levels, quantity)) == [Less(Flat(side, levels)[0], quantity)] + Flat(side, levels)[1..]
  {
    if quantity == levels[0].orders[0].leaves {
      FullFlat(side, levels);
    } else {
      PartialFlat(side, levels, quantity);
    }
  }

  lemma FlatEmpty(side: Side, levels: seq<Level>)
    requires WfSide(side, levels)
    ensures Flat(side, levels) == [] <==> levels == []
    ensures levels != [] ==> Flat(side, levels)[0].price == levels[0].price
  {
  }

  /** Fills that took every view they touched whole. */
  ghost predicate AllFull(views: seq<RestingOrderView>, fills: seq<PlannedFill>) {
    |fills| <= |views| && forall k :: 0 <= k < |fills| ==> fills[k].quantity == views[k].leaves
  }

  /** The orders left: those not reached, behind what is left of the last one if it was filled in part. */
  function Remaining(views: seq<RestingOrderView>, fills: seq<PlannedFill>): seq<RestingOrderView>
    requires |fills| <= |views|
    requires forall k :: 0 <= k < |fills| ==> fills[k].quantity <= views[k].leaves
  {
    var n := |fills|;
    if n == 0 || fills[n - 1].quantity == views[n - 1].leaves then views[n..]
    else [Less(views[n - 1], fills[n - 1].quantity)] + views[n..]
  }

  /** What taking did to the opposite side's orders in priority order. */
  ghost predicate TookByPriority(side: Side, limit: PriceTicks, views: seq<RestingOrderView>,
                                 planned: seq<PlannedFill>, t: Taken) {
    && planned <= t.planned
    && var fills := t.planned[|planned|..];
    && PriorityPrefix(side, limit, views, fills)
    && Flat(Opposite(side), t.levels) == Remaining(views, fills)
    && (t.remainder != 0 ==>
          && AllFull(views, fills)
          && (t.withinCapacity ==> |fills| == |views| || !Crosses(side, limit, views[|fills|].price)))
  }

  lemma TookOneMore(side: Side, limit: PriceTicks, views: seq<RestingOrderView>, fill: PlannedFill,
                    planned: seq<PlannedFill>, t: Taken)
    requires views != [] && Crosses(side, limit, views[0].price)
    requires fill == PlannedFill(views[0].orderId, views[0].price, views[0].leaves) && IsValid(views[0].leaves)
    requires TookByPriority(side, limit, views[1..], planned + [fill], t)
    ensures TookByPriority(side, limit, views, planned, t)
  {
  }

  lemma TookNothing(side: Side, limit: PriceTicks, levels: seq<Level>, planned: seq<PlannedFill>, t: Taken)
    requires WfSide(Opposite(side), levels)
    requires t.levels == levels && t.planned == planned
    requires t.remainder != 0 && t.withinCapacity ==> levels == [] || !Crosses(side, limit, levels[0].price)
    ensures TookByPriority(side, limit, Flat(Opposite(side), levels), planned, t)
  {
  }

  lemma TookPart(side: Side, limit: PriceTicks, levels: seq<Level>, quantity: Quantity, planned: seq<PlannedFill>, t: Taken)
    requires WfSide(Opposite(side), levels) && levels != [] && levels[0].orders != []
    requires Crosses(side, limit, levels[0].price) && 1 <= quantity < levels[0].orders[0].leaves
    requires t.levels == AfterFill(levels, quantity) && t.remainder == 0
    requires t.planned == planned + [PlannedFill(levels[0].orders[0].id, levels[0].price, quantity)]
    ensures TookByPriority(side, limit, Flat(Opposite(side), levels), planned, t)
  {
    FlatAfterFill(Opposite(side), levels, quantity);
    assert t.planned[|planned|..] == [PlannedFill(levels[0].orders[0].id, levels[0].price, quantity)];
    hide Flat, WfSide, AfterFill;
  }

  /**
    Price-time priority. The fills are a prefix of the opposite side in
    priority order, at the resting prices, all but the last of them full; what
    stays resting is everything behind them, in the same order; and when some
    of the aggressive order is left over, the last fill is full too and nothing
    that crosses is left behind it.
   */
  lemma {:induction false} TakeIsPriorityPrefix(side: Side, limit: PriceTicks, levels: seq<Level>, remainder: Quantity,
                                                planned: seq<PlannedFill>)
    requires WfSide(Opposite(side), levels)
    ensures TookByPriority(side, limit, Flat(Opposite(side), levels), planned,
                           Take(side, limit, levels, remainder, planned))
    decreases remainder
  {
    hide TookByPriority, Flat, AfterFill;
    var opposite, t := Opposite(side), Take(side, limit, levels, remainder, planned);
    if Continues(side, limit, levels, remainder) && |planned| < MAXIMUM_FILLS_PER_COMMAND {
      FrontIsWf(opposite, levels);
      var fill := FrontFill(levels, remainder);
      AfterFillWf(opposite, levels, fill.quantity);
      if fill.quantity == levels[0].orders[0].leaves {
        FlatAfterFill(opposite, levels, fill.quantity);
        hide WfSide;
        TakeIsPriorityPrefix(side, limit, AfterFill(levels, fill.quantity), remainder - fill.quantity, planned + [fill]);
        TookOneMore(side, limit, Flat(opposite, levels), fill, planned, t);
      } else {
        var left := AfterFill(levels, fill.quantity);
        assert Take(side, limit, left, 0, planned + [fill]) == Taken(left, 0, planned + [fill], true);
        TookPart(side, limit, levels, fill.quantity, planned, t);
      }
    } else {
      TookNothing(side, limit, levels, planned, t);
    }
  }

  // The effect of a whole aggressive order.

  lemma InsertBest(side: Side, levels: seq<Level>, price: PriceTicks, o: Order)
    ensures var after := InsertOrder(side, levels, price, o);
            && after != []
            && (after[0].price == price || (levels != [] && after[0].price == levels[0].price))
            && |after| <= |levels| + 1
            && (HasLevel(side, levels, price) ==> |after| == |levels|)
  {
  }

  lemma EraseOneSide(book: Book, id: OrderId)
    requires WfBook(book) && Has(book, id)
    ensures var erased, side := Erase(book, id), Locate(book, id).value.side;
            && WfBook(erased)
            && CountBook(erased) == CountBook(book) - 1
            && TotalBook(erased) == TotalBook(book) - LeavesOf(book, id)
            && Levels(erased, Opposite(side)) == Levels(book, Opposite(side))
            && NoBetterThan(side, Levels(erased, side), Levels(book, side))
            && |Levels(erased, side)| <= |Levels(book, side)|
  {
    var at := Locate(book, id).value;
    CountErase(Levels(book, at.side), at.level, at.index);
    EraseNoBetter(at.side, Levels(book, at.side), at.level, at.index);
    EraseKeepsWf(book, id);
  }

  /** Leaves the replaced order had; nothing when no order is replaced. */
  function ReplacedLeaves(book: Book, replaced: Option<OrderId>): Quantity {
    if replaced.Some? then LeavesOf(book, replaced.value) else 0
  }

  /** A replaced order rests on the side its amendment is for. */
  ghost predicate ReplacesOwnSide(book: Book, side: Side, replaced: Option<OrderId>) {
    replaced.Some? ==> Has(book, replaced.value) && Locate(book, replaced.value).value.side == side
  }

  lemma MatchedEffect(book: Book, order: LogicalOrder, replaced: Option<OrderId>)
    requires WfBook(book) && IsSide(order.side) && ReplacesOwnSide(book, order.side, replaced)
    ensures var t, matched := TakenBy(book, order, replaced), MatchedBook(book, order, replaced);
            var side, opposite := order.side, Opposite(order.side);
            && WfBook(matched)
            && CountBook(matched) <= CountBook(book)
            && TotalBook(matched) == TotalBook(book) - ReplacedLeaves(book, replaced) - (order.quantity - t.remainder)
            && t.remainder <= order.quantity && FillTotal(t.planned) == order.quantity - t.remainder
            && |t.planned| <= MAXIMUM_FILLS_PER_COMMAND
            && Levels(matched, opposite) == t.levels
            && NoBetterThan(opposite, t.levels, Levels(book, opposite))
            && NoBetterThan(side, Levels(matched, side), Levels(book, side))
            && |t.levels| <= |Levels(book, opposite)| && |Levels(matched, side)| <= |Levels(book, side)|
            && (t.withinCapacity ==> !Continues(side, order.limitPrice, t.levels, t.remainder))
  {
    if replaced.Some? {
      EraseOneSide(book, replaced.value);
    }
    TakeEffect(order.side, order.limitPrice, Levels(Candidate(book, replaced), Opposite(order.side)), order.quantity, []);
  }

  /** The rested remainder is priced short of everything left on the other side. */
  lemma StaysUncrossed(book: Book, matched: Book, side: Side, price: PriceTicks, o: Order)
    requires Uncrossed(book) && IsSide(side)
    requires NoBetterThan(Buy, matched.bids, book.bids) && NoBetterThan(Sell, matched.asks, book.asks)
    ensures Uncrossed(matched)
    ensures !Continues(side, price, Levels(matched, Opposite(side)), 1) ==> Uncrossed(Insert(matched, side, price, o))
  {
  }

  ghost predicate ValidOrder(order: LogicalOrder) {
    IsSide(order.side) && IsValid(order.orderId) && IsValid(order.limitPrice) && IsValid(order.quantity)
  }

  /** Everything about the book an accepted aggressive order leaves behind. */
  lemma FilledEffect(s: State, order: LogicalOrder, replaced: Option<OrderId>)
    requires WfState(s) && s.phase.Active? && ValidOrder(order) && ReplacesOwnSide(s.book, order.side, replaced)
    requires Decide(s, order, replaced) == Accepted
    ensures var t, after := TakenBy(s.book, order, replaced), FilledBook(s.book, order, replaced);
            && WfState(s.(book := after))
            && t.withinCapacity
            && |t.planned| <= MAXIMUM_FILLS_PER_COMMAND
            && t.remainder <= order.quantity && FillTotal(t.planned) == order.quantity - t.remainder
            && TotalBook(after) + 2 * FillTotal(t.planned) ==
               TotalBook(s.book) - ReplacedLeaves(s.book, replaced) + order.quantity
  {
    hide TakenBy, MatchedBook, WfBook, Uncrossed, HasRoom, CountBook, TotalBook, NoBetterThan, InsertOrder, Has;
    var t, matched := TakenBy(s.book, order, replaced), MatchedBook(s.book, order, replaced);
    var o := Order(order.orderId, t.remainder);
    MatchedEffect(s.book, order, replaced);
    StaysUncrossed(s.book, matched, order.side, order.limitPrice, o);
    if t.remainder != 0 {
      InsertKeepsBounds(s.limits, matched, order.side, order.limitPrice, o);
    }
  }

  lemma ExecuteKeepsWf(s: State, order: LogicalOrder, replaced: Option<OrderId>)
    requires WfState(s) && s.phase.Active? && ValidOrder(order) && ReplacesOwnSide(s.book, order.side, replaced)
    ensures WfState(ExecuteAggressive(s, order, replaced).0)
  {
    if Decide(s, order, replaced) == Accepted {
      FilledEffect(s, order, replaced);
    }
    hide WfBook, Uncrossed, CountBook, FilledBook;
  }

  lemma InsertKeepsBounds(limits: Limits, book: Book, side: Side, price: PriceTicks, o: Order)
    requires WfBook(book) && IsSide(side) && IsValid(price) && IsValid(o.id) && IsValid(o.leaves)
    requires InsertStatus(limits, book, o.id, side, price, o.leaves) == Accepted
    requires |book.bids| <= limits.levelsPerSide && |book.asks| <= limits.levelsPerSide
    ensures var after := Insert(book, side, price, o);
            && WfBook(after)
            && CountBook(after) == CountBook(book) + 1 <= limits.activeOrders
            && TotalBook(after) == TotalBook(book) + o.leaves
            && |after.bids| <= limits.levelsPerSide && |after.asks| <= limits.levelsPerSide
  {
    InsertOrderWf(side, Levels(book, side), price, o, limits.levelsPerSide);
    CountInsert(side, Levels(book, side), price, o);
    InsertBest(side, Levels(book, side), price, o);
  }

  // Amending in place.

  /** Taking an order out and putting it back is requeueing it. */
  lemma ReinsertIsRequeue(side: Side, levels: seq<Level>, i: nat, j: nat)
    requires WfSide(side, levels) && InRange(levels, i, j)
    ensures InsertOrder(side, EraseAt(levels, i, j), levels[i].price, levels[i].orders[j]) == MoveToBackAt(levels, i, j)
  {
    var orders := levels[i].orders;
    if |orders| == 1 {
      ReopenedLevel(side, levels, i);
      hide WfSide, LowerBound, Opened;
      assert Without(orders, j) + [orders[j]] == orders;
    } else {
      var kept := levels[i].(orders := Without(orders, j));
      SamePlace(side, levels, i, kept);
      hide WfSide, LowerBound, Opened, Without;
      UpdatedTwice(levels, i, kept, levels[i].(orders := Without(orders, j) + [orders[j]]));
    }
  }

  lemma UpdatedTwice<T>(s: seq<T>, i: nat, v: T, w: T)
    requires i < |s|
    ensures s[i := v][i := w] == s[i := w]
  {
  }

  lemma SamePlace(side: Side, levels: seq<Level>, i: nat, level: Level)
    requires WfSide(side, levels) && i < |levels| && level.price == levels[i].price
    ensures LowerBound(side, levels[i := level], level.price) == i
  {
    LowerBoundUnique(side, levels[i := level], level.price, i);
  }

  lemma ReopenedLevel(side: Side, levels: seq<Level>, i: nat)
    requires WfSide(side, levels) && i < |levels|
    ensures var without, price := Without(levels, i), levels[i].price;
            && LowerBound(side, without, price) == i
            && !HasLevel(side, without, price)
            && Opened(without, i, levels[i]) == levels
  {
    WfRemove(side, levels, i);
    LowerBoundUnique(side, Without(levels, i), levels[i].price, i);
  }

  /** Searching by ID sees only the IDs. */
  lemma {:induction false} FindSameIds(a: seq<Order>, b: seq<Order>, id: OrderId)
    requires |a| == |b| && forall j :: 0 <= j < |a| ==> a[j].id == b[j].id
    ensures FindIn(a, id) == FindIn(b, id)
  {
    if a == [] {
    } else {
      FindSameIds(a[1..], b[1..], id);
    }
  }

  lemma SetLeavesKeepsPlace(levels: seq<Level>, i: nat, j: nat, leaves: Quantity, id: OrderId)
    requires InRange(levels, i, j)
    ensures FindInLevels(SetLeavesAt(levels, i, j, leaves), id) == FindInLevels(levels, id)
  {
    var changed := SetLeavesAt(levels, i, j, leaves);
    FindSameIds(levels[0].orders, changed[0].orders, id);
    if i == 0 {
      assert changed[1..] == levels[1..];
    } else {
      assert changed[1..] == SetLeavesAt(levels[1..], i - 1, j, leaves);
      SetLeavesKeepsPlace(levels[1..], i - 1, j, leaves, id);
    }
  }

  lemma LocateAfterSetLeaves(book: Book, id: OrderId, leaves: Quantity)
    ensures Locate(SetLeaves(book, id, leaves), id) == Locate(book, id)
  {
    if Has(book, id) {
      var at := Locate(book, id).value;
      SetLeavesKeepsPlace(Levels(book, at.side), at.level, at.index, leaves, id);
    }
  }

  lemma SetLeavesWf(book: Book, id: OrderId, leaves: Quantity)
    requires WfBook(book) && Has(book, id) && IsValid(leaves) && LeavesFit(book, id, leaves)
    ensures WfBook(SetLeaves(book, id, leaves))
  {
    var at := Locate(book, id).value;
    SetLeavesAtWf(at.side, Levels(book, at.side), at.level, at.index, leaves);
  }

  /** Amending in place: new leaves, and to the back of the queue when they grew. */
  lemma RequantifyIs(book: Book, id: OrderId, leaves: Quantity)
    requires WfBook(book) && Has(book, id) && IsValid(leaves) && LeavesFit(book, id, leaves)
    ensures Requantify(book, id, leaves) ==
            if leaves > ViewOf(book, id).value.leaves then MoveToBack(SetLeaves(book, id, leaves), id)
            else SetLeaves(book, id, leaves)
  {
    var at, changed := Locate(book, id).value, SetLeaves(book, id, leaves);
    SetLeavesWf(book, id, leaves);
    LocateAfterSetLeaves(book, id, leaves);
    ReinsertIsRequeue(at.side, Levels(changed, at.side), at.level, at.index);
  }

  /** A reduction always fits. */
  lemma ReductionFits(book: Book, id: OrderId, leaves: Quantity)
    requires WfBook(book) && Has(book, id) && leaves <= LeavesOf(book, id)
    ensures LeavesFit(book, id, leaves)
  {
  }

  /** Prices, level counts and order counts are as before. */
  ghost predicate SameShape(levels: seq<Level>, after: seq<Level>) {
    && |after| == |levels| && Count(after) == Count(levels)
    && forall i :: 0 <= i < |levels| ==> after[i].price == levels[i].price
  }

  lemma SetLeavesEffect(book: Book, id: OrderId, leaves: Quantity)
    requires WfBook(book) && Has(book, id) && IsValid(leaves) && LeavesFit(book, id, leaves)
    ensures var after := SetLeaves(book, id, leaves);
            && WfBook(after)
            && SameShape(book.bids, after.bids) && SameShape(book.asks, after.asks)
            && TotalBook(after) == TotalBook(book) - LeavesOf(book, id) + leaves
  {
    var at := Locate(book, id).value;
    var level := Levels(book, at.side)[at.level];
    SetLeavesWf(book, id, leaves);
    SumSet(level.orders, at.index, leaves);
    CountUpdate(Levels(book, at.side), at.level,
                level.(orders := level.orders[at.index := level.orders[at.index].(leaves := leaves)]));
  }

  lemma MoveToBackEffect(book: Book, id: OrderId)
    requires WfBook(book)
    ensures var after := MoveToBack(book, id);
            && WfBook(after)
            && SameShape(book.bids, after.bids) && SameShape(book.asks, after.asks)
            && TotalBook(after) == TotalBook(book)
  {
    if Has(book, id) {
      var at := Locate(book, id).value;
      var level := Levels(book, at.side)[at.level];
      var requeued := level.(orders := Without(level.orders, at.index) + [level.orders[at.index]]);
      assert WfLevel(level);
      WfRequeue(level, at.index);
      WfReplace(at.side, Levels(book, at.side), at.level, requeued);
      CountUpdate(Levels(book, at.side), at.level, requeued);
    }
  }

  lemma RequantifyEffect(book: Book, id: OrderId, leaves: Quantity)
    requires WfBook(book) && Has(book, id) && IsValid(leaves) && LeavesFit(book, id, leaves)
    ensures var after := Requantify(book, id, leaves);
            && WfBook(after)
            && SameShape(book.bids, after.bids) && SameShape(book.asks, after.asks)
            && TotalBook(after) == TotalBook(book) - LeavesOf(book, id) + leaves
  {
    hide WfBook, Has, LeavesFit, SetLeaves, MoveToBack, TotalBook, Requantify;
    RequantifyIs(book, id, leaves);
    SetLeavesEffect(book, id, leaves);
    MoveToBackEffect(SetLeaves(book, id, leaves), id);
  }
}
