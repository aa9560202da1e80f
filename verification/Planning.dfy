/**
  The engine's plan and its preflight: traversing the book without touching
  it predicts exactly what executing the fills does to it.
 */
module Planning {
  import opened Domain
  import opened Book
  import opened Reference
  import opened Matching

  datatype MatchPlan = MatchPlan(
    fills: seq<PlannedFill>,
    fullyFilled: nat,
    remainder: Quantity,
    capacityExhausted: bool)

  /** What the plan does with one resting order; the flag says whether to go on. */
  function PlanVisit(side: Side, limit: PriceTicks, p: MatchPlan, resting: RestingOrderView): (MatchPlan, bool) {
    if !Crosses(side, limit, resting.price) then (p, false)
    else if |p.fills| == MAXIMUM_FILLS_PER_COMMAND then (p.(capacityExhausted := true), false)
    else
      var quantity := if p.remainder < resting.leaves then p.remainder else resting.leaves;
      if !IsValid(quantity) then (p.(capacityExhausted := true), false)
      else
        var filled := p.(fills := p.fills + [PlannedFill(resting.orderId, resting.price, quantity)],
                         fullyFilled := p.fullyFilled + (if quantity == resting.leaves then 1 else 0));
        match CheckedSubtract(p.remainder, quantity)
        case Zero => (filled.(remainder := 0), false)
        case Success(left) => (filled.(remainder := left), true)
        case _ => (filled.(capacityExhausted := true), false)
  }

  function Visitor(side: Side, limit: PriceTicks): (MatchPlan, RestingOrderView) -> (MatchPlan, bool) {
    (p, resting) => PlanVisit(side, limit, p, resting)
  }

  function PlanOf(order: LogicalOrder, opposite: seq<Level>): MatchPlan {
    FoldUntil(Visitor(order.side, order.limitPrice), MatchPlan([], 0, order.quantity, false),
              Flat(Opposite(order.side), opposite))
  }

  /** A plan q made from p says what taking says. */
  ghost predicate Agrees(p: MatchPlan, q: MatchPlan, levels: seq<Level>, t: Taken) {
    && q.fills == t.planned
    && q.remainder == t.remainder
    && q.capacityExhausted == !t.withinCapacity
    && q.fullyFilled + Count(t.levels) == p.fullyFilled + Count(levels)
  }

  /** Visiting an order that crosses plans one more fill, and goes on while a remainder is left. */
  lemma VisitFills(side: Side, limit: PriceTicks, p: MatchPlan, resting: RestingOrderView)
    requires IsValid(p.remainder) && !p.capacityExhausted && |p.fills| < MAXIMUM_FILLS_PER_COMMAND
    requires Crosses(side, limit, resting.price) && IsValid(resting.leaves)
    ensures var quantity := if p.remainder < resting.leaves then p.remainder else resting.leaves;
            Visitor(side, limit)(p, resting) ==
            (MatchPlan(p.fills + [PlannedFill(resting.orderId, resting.price, quantity)],
                       p.fullyFilled + (if quantity == resting.leaves then 1 else 0),
                       p.remainder - quantity, false),
             p.remainder != quantity)
  {
  }

  lemma VisitStops(side: Side, limit: PriceTicks, p: MatchPlan, resting: RestingOrderView)
    requires !Crosses(side, limit, resting.price) || |p.fills| == MAXIMUM_FILLS_PER_COMMAND
    ensures Visitor(side, limit)(p, resting) ==
            (p.(capacityExhausted := p.capacityExhausted || Crosses(side, limit, resting.price)), false)
  {
  }

  /** Planning without touching the book and taking from a copy of it come to the same fills. */
  lemma {:induction false} PlanIsTake(side: Side, limit: PriceTicks, levels: seq<Level>, p: MatchPlan)
    requires WfSide(Opposite(side), levels)
    requires IsValid(p.remainder) && !p.capacityExhausted && |p.fills| <= MAXIMUM_FILLS_PER_COMMAND
    ensures Agrees(p, FoldUntil(Visitor(side, limit), p, Flat(Opposite(side), levels)), levels,
                   Take(side, limit, levels, p.remainder, p.fills))
    decreases p.remainder
  {
    hide Visitor, PlanVisit, CheckedSubtract, Flat, AfterFill, Count;
    var opposite, visitor, views := Opposite(side), Visitor(side, limit), Flat(Opposite(side), levels);
    FlatEmpty(opposite, levels);
    if levels == [] {
    } else {
      FrontIsWf(opposite, levels);
      FlatFront(opposite, levels);
      if Continues(side, limit, levels, p.remainder) && |p.fills| < MAXIMUM_FILLS_PER_COMMAND {
        var fill := FrontFill(levels, p.remainder);
        VisitFills(side, limit, p, views[0]);
        AfterFillWf(opposite, levels, fill.quantity);
        AfterFillCounts(levels, fill.quantity);
        FlatAfterFill(opposite, levels, fill.quantity);
        var (next, more) := visitor(p, views[0]);
        var left := AfterFill(levels, fill.quantity);
        hide WfSide;
        if more {
          PlanIsTake(side, limit, left, next);
        } else {
          assert Take(side, limit, left, 0, p.fills + [fill]) == Taken(left, 0, p.fills + [fill], true);
        }
      } else {
        VisitStops(side, limit, p, views[0]);
      }
    }
  }

  lemma FlatFront(side: Side, levels: seq<Level>)
    requires levels != [] && levels[0].orders != []
    ensures Flat(side, levels) != []
    ensures Flat(side, levels)[0] ==
            RestingOrderView(levels[0].orders[0].id, side, levels[0].price, levels[0].orders[0].leaves)
  {
  }

  // Executing the fills one by one.

  /** One planned fill is a reduction of the order now in front, and leads to the same end. */
  lemma TakeUnfolds(side: Side, limit: PriceTicks, levels: seq<Level>, remainder: Quantity, planned: seq<PlannedFill>, t: Taken)
    requires WfSide(Opposite(side), levels)
    requires t == Take(side, limit, levels, remainder, planned)
    ensures planned <= t.planned
    ensures |planned| == |t.planned| ==> t.levels == levels && t.remainder == remainder
    ensures |planned| < |t.planned| ==>
            && levels != [] && levels[0].orders != []
            && var fill := FrontFill(levels, remainder);
            && t.planned[|planned|] == fill
            && 1 <= fill.quantity <= levels[0].orders[0].leaves && fill.quantity <= remainder
            && WfSide(Opposite(side), AfterFill(levels, fill.quantity))
            && t == Take(side, limit, AfterFill(levels, fill.quantity), remainder - fill.quantity, planned + [fill])
  {
    TakeEffect(side, limit, levels, remainder, planned);
    if Continues(side, limit, levels, remainder) && |planned| < MAXIMUM_FILLS_PER_COMMAND {
      FrontIsWf(Opposite(side), levels);
      var fill := FrontFill(levels, remainder);
      AfterFillWf(Opposite(side), levels, fill.quantity);
      TakeEffect(side, limit, AfterFill(levels, fill.quantity), remainder - fill.quantity, planned + [fill]);
      hide WfSide, AfterFill;
    }
  }

  /** Reducing the front order by its ID changes only the front of that side. */
  lemma ReduceFront(book: Book, side: Side, quantity: Quantity)
    requires IsSide(side) && UniqueIds(book) && WfSide(side, Levels(book, side)) && Levels(book, side) != []
    requires Levels(book, side)[0].orders != [] && 1 <= quantity <= Levels(book, side)[0].orders[0].leaves
    ensures var levels := Levels(book, side);
            var id := levels[0].orders[0].id;
            && Locate(book, id) == Some(Location(side, 0, 0))
            && LeavesOf(book, id) == levels[0].orders[0].leaves
            && ReduceStatus(book, id, quantity) == Accepted
            && ViewOf(book, id) == Some(RestingOrderView(id, side, levels[0].price, levels[0].orders[0].leaves))
            && Reduce(book, id, quantity) == WithLevels(book, side, AfterFill(levels, quantity))
  {
    var at := Location(side, 0, 0);
    assert Holds(book, at, Levels(book, side)[0].orders[0].id);
    LocateUnique(book, at, Levels(book, side)[0].orders[0].id);
  }

  /** When a remainder is left, every fill empties the order it reduces. */
  lemma RestMeansFull(side: Side, limit: PriceTicks, levels: seq<Level>, remainder: Quantity, planned: seq<PlannedFill>, t: Taken)
    requires WfSide(Opposite(side), levels)
    requires t == Take(side, limit, levels, remainder, planned) && t.remainder != 0
    requires |planned| < |t.planned|
    ensures levels != [] && levels[0].orders != []
    ensures t.planned[|planned|].quantity == levels[0].orders[0].leaves
    ensures t.planned[|planned|].restingOrderId == levels[0].orders[0].id
  {
    TakeUnfolds(side, limit, levels, remainder, planned, t);
    var fill := FrontFill(levels, remainder);
    TakeEffect(side, limit, AfterFill(levels, fill.quantity), remainder - fill.quantity, planned + [fill]);
  }

  /** Every planned fill names an order of that side. */
  lemma {:induction false} FillsAreKnown(side: Side, limit: PriceTicks, levels: seq<Level>, remainder: Quantity,
                                         planned: seq<PlannedFill>, k: nat)
    requires WfSide(Opposite(side), levels)
    requires |planned| <= k < |Take(side, limit, levels, remainder, planned).planned|
    ensures HasId(levels, Take(side, limit, levels, remainder, planned).planned[k].restingOrderId)
    decreases remainder
  {
    var t := Take(side, limit, levels, remainder, planned);
    TakeUnfolds(side, limit, levels, remainder, planned, t);
    var fill := FrontFill(levels, remainder);
    if k == |planned| {
      assert InRange(levels, 0, 0);
    } else {
      hide AfterFill, HasId;
      FilledIds(levels, fill.quantity, t.planned[k].restingOrderId);
      FillsAreKnown(side, limit, AfterFill(levels, fill.quantity), remainder - fill.quantity, planned + [fill], k);
    }
  }

  // Preflight.

  /** The first fill that empties the order it names. */
  function FirstFull(book: Book, fills: seq<PlannedFill>): Option<OrderId> {
    if fills == [] then None
    else if LeavesOf(book, fills[0].restingOrderId) == fills[0].quantity then Some(fills[0].restingOrderId)
    else FirstFull(book, fills[1..])
  }

  ghost predicate FillsPresent(book: Book, fills: seq<PlannedFill>) {
    forall k :: 0 <= k < |fills| ==> Has(book, fills[k].restingOrderId)
  }

  lemma PlanPresent(book: Book, order: LogicalOrder)
    requires WfBook(book) && ValidOrder(order)
    ensures FillsPresent(book, PlanOf(order, Levels(book, Opposite(order.side))).fills)
  {
    var levels := Levels(book, Opposite(order.side));
    var plan := PlanOf(order, levels);
    PlanIsTake(order.side, order.limitPrice, levels, MatchPlan([], 0, order.quantity, false));
    forall k | 0 <= k < |plan.fills| ensures Has(book, plan.fills[k].restingOrderId) {
      FillsAreKnown(order.side, order.limitPrice, levels, order.quantity, [], k);
      HasIsHasId(book, plan.fills[k].restingOrderId);
    }
  }

  /** With a remainder left, the first fill is the one that empties its order. */
  lemma FirstFullIsFirst(book: Book, order: LogicalOrder)
    requires UniqueIds(book) && WfBook(book) && ValidOrder(order)
    ensures var plan := PlanOf(order, Levels(book, Opposite(order.side)));
            plan.remainder != 0 && plan.fills != [] ==>
            FirstFull(book, plan.fills) == Some(plan.fills[0].restingOrderId)
  {
    var levels := Levels(book, Opposite(order.side));
    var plan, t := PlanOf(order, levels), Take(order.side, order.limitPrice, levels, order.quantity, []);
    PlanIsTake(order.side, order.limitPrice, levels, MatchPlan([], 0, order.quantity, false));
    if plan.remainder != 0 && plan.fills != [] {
      RestMeansFull(order.side, order.limitPrice, levels, order.quantity, [], t);
      TakeUnfolds(order.side, order.limitPrice, levels, order.quantity, [], t);
      ReduceFront(book, Opposite(order.side), plan.fills[0].quantity);
    }
  }

  /** Positions after an order was taken out, and before. */
  lemma ErasedPlace(levels: seq<Level>, i: nat, j: nat, a: nat, b: nat) returns (c: nat, d: nat)
    requires InRange(levels, i, j) && InRange(EraseAt(levels, i, j), a, b)
    ensures InRange(levels, c, d) && (c, d) != (i, j)
    ensures levels[c].orders[d] == EraseAt(levels, i, j)[a].orders[b]
  {
    if |levels[i].orders| == 1 {
      c, d := if a < i then a else a + 1, b;
    } else {
      c, d := a, if a == i && b >= j then b + 1 else b;
    }
  }

  ghost predicate HasId(levels: seq<Level>, id: OrderId) {
    exists i: nat, j: nat :: InRange(levels, i, j) && levels[i].orders[j].id == id
  }

  lemma FilledIds(levels: seq<Level>, quantity: Quantity, id: OrderId)
    requires levels != [] && levels[0].orders != [] && quantity <= levels[0].orders[0].leaves
    ensures HasId(AfterFill(levels, quantity), id) ==> HasId(levels, id)
  {
  }

  /** Taking brings no ID into the book. */
  lemma {:induction false} TakenIds(side: Side, limit: PriceTicks, levels: seq<Level>, remainder: Quantity,
                                    planned: seq<PlannedFill>, id: OrderId)
    requires WfSide(Opposite(side), levels)
    ensures HasId(Take(side, limit, levels, remainder, planned).levels, id) ==> HasId(levels, id)
    decreases remainder
  {
    if !Continues(side, limit, levels, remainder) || |planned| >= MAXIMUM_FILLS_PER_COMMAND {
    } else {
      FrontIsWf(Opposite(side), levels);
      var fill := FrontFill(levels, remainder);
      AfterFillWf(Opposite(side), levels, fill.quantity);
      FilledIds(levels, fill.quantity, id);
      hide WfSide, AfterFill, HasId;
      TakenIds(side, limit, AfterFill(levels, fill.quantity), remainder - fill.quantity, planned + [fill], id);
    }
  }

  lemma HasIsHasId(book: Book, id: OrderId)
    ensures Has(book, id) <==> HasId(book.bids, id) || HasId(book.asks, id)
  {
  }

  /** An erased ID is gone: it was there once. */
  lemma ErasedIsGone(book: Book, id: OrderId)
    requires UniqueIds(book)
    ensures !Has(Erase(book, id), id)
  {
    var erased := Erase(book, id);
    if Has(book, id) && Has(erased, id) {
      var at, still := Locate(book, id).value, Locate(erased, id).value;
      if still.side == at.side {
        var c, d := ErasedPlace(Levels(book, at.side), at.level, at.index, still.level, still.index);
        assert Holds(book, Location(at.side, c, d), id);
      } else {
        assert Holds(book, still, id);
      }
    }
  }

  /** The incoming order's ID is free by the time its remainder is inserted. */
  lemma IdIsFree(book: Book, order: LogicalOrder, replaced: Option<OrderId>)
    requires WfBook(book) && UniqueIds(book) && IsSide(order.side)
    requires replaced == Some(order.orderId) || (replaced == None && !Has(book, order.orderId))
    ensures !Has(MatchedBook(book, order, replaced), order.orderId)
  {
    var candidate, opposite := Candidate(book, replaced), Opposite(order.side);
    ErasedIsGone(book, order.orderId);
    HasIsHasId(candidate, order.orderId);
    HasIsHasId(MatchedBook(book, order, replaced), order.orderId);
    TakenIds(order.side, order.limitPrice, Levels(candidate, opposite), order.quantity, [], order.orderId);
  }

  lemma LowerBoundMoves(side: Side, levels: seq<Level>, i: nat, price: PriceTicks)
    requires Sorted(side, levels) && i < |levels|
    ensures Sorted(side, Without(levels, i))
    ensures var p := LowerBound(side, levels, price);
            LowerBound(side, Without(levels, i), price) == if p <= i then p else p - 1
  {
    var p, without := LowerBound(side, levels, price), Without(levels, i);
    var q := if p <= i then p else p - 1;
    LowerBoundSplits(side, levels, price);
    assert Sorted(side, without);
    hide LowerBound, Sorted;
    forall k | 0 <= k < |without| ensures Before(side, without[k].price, price) <==> k < q {
      assert without[k] == levels[if k < i then k else k + 1];
    }
    LowerBoundUnique(side, without, price, q);
  }

  lemma LowerBoundWithout(side: Side, levels: seq<Level>, i: nat, price: PriceTicks)
    requires Sorted(side, levels) && i < |levels|
    ensures Sorted(side, Without(levels, i))
    ensures HasLevel(side, Without(levels, i), price) <==> HasLevel(side, levels, price) && levels[i].price != price
    ensures HasLevel(side, Without(levels, i), price) ==>
              Without(levels, i)[LowerBound(side, Without(levels, i), price)] == levels[LowerBound(side, levels, price)]
  {
    var p := LowerBound(side, levels, price);
    LowerBoundSplits(side, levels, price);
    LowerBoundMoves(side, levels, i, price);
    hide LowerBound;
    assert p < |levels| ==> !Before(side, levels[p].price, price);
    assert i + 1 < |levels| ==> Before(side, levels[i].price, levels[i + 1].price);
    assert p < |levels| && p != i ==> levels[p].price != levels[i].price;
    hide Sorted;
  }

  lemma LowerBoundReplaced(side: Side, levels: seq<Level>, i: nat, level: Level, price: PriceTicks)
    requires Sorted(side, levels) && i < |levels| && level.price == levels[i].price
    ensures LowerBound(side, levels[i := level], price) == LowerBound(side, levels, price)
    ensures HasLevel(side, levels[i := level], price) <==> HasLevel(side, levels, price)
    ensures HasLevel(side, levels, price) ==> (LowerBound(side, levels, price) == i <==> levels[i].price == price)
  {
    LowerBoundSplits(side, levels, price);
    LowerBoundUnique(side, levels[i := level], price, LowerBound(side, levels, price));
    PriceFound(side, levels, i);
  }

  /** Room after an order was taken out, from what the book says before. */
  lemma RoomAfterErase(side: Side, levels: seq<Level>, i: nat, j: nat, price: PriceTicks, leaves: Quantity, capacity: nat)
    requires WfSide(side, levels) && InRange(levels, i, j)
    ensures var gone := |levels[i].orders| == 1;
            var same := levels[i].price == price;
            HasRoom(side, EraseAt(levels, i, j), price, leaves, capacity) <==>
            if HasLevel(side, levels, price) && !(same && gone) then
              Sum(levels[LowerBound(side, levels, price)].orders)
                - (if same then levels[i].orders[j].leaves else 0) + leaves <= U64_MAX
            else
              |levels| - (if gone then 1 else 0) < capacity
  {
    hide LowerBound, Sorted, Sum;
    LowerBoundWithout(side, levels, i, price);
    LowerBoundReplaced(side, levels, i, levels[i].(orders := Without(levels[i].orders, j)), price);
    SumWithout(levels[i].orders, j);
  }
}
