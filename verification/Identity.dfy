/** No two resting orders ever share an ID, whatever the reference model is told to do. */
module Identity {
  import opened Domain
  import opened Book
  import opened Reference
  import opened Matching
  import opened Planning

  /** Where an order was before the one at (i, j) was taken out. */
  function BeforeErase(levels: seq<Level>, i: nat, j: nat, side: Side, at: Location): Location
    requires InRange(levels, i, j)
  {
    if at.side != side then at
    else if |levels[i].orders| == 1 then at.(level := if at.level < i then at.level else at.level + 1)
    else at.(index := if at.level == i && at.index >= j then at.index + 1 else at.index)
  }

  lemma HeldBefore(book: Book, side: Side, i: nat, j: nat, at: Location, id: OrderId)
    requires IsSide(side) && InRange(Levels(book, side), i, j)
    requires Holds(WithLevels(book, side, EraseAt(Levels(book, side), i, j)), at, id)
    ensures Holds(book, BeforeErase(Levels(book, side), i, j, side, at), id)
  {
  }

  lemma EraseAtUnique(book: Book, side: Side, i: nat, j: nat)
    requires UniqueIds(book) && IsSide(side) && InRange(Levels(book, side), i, j)
    ensures UniqueIds(WithLevels(book, side, EraseAt(Levels(book, side), i, j)))
  {
    var after := WithLevels(book, side, EraseAt(Levels(book, side), i, j));
    forall a, b, id | Holds(after, a, id) && Holds(after, b, id) ensures a == b {
      HeldBefore(book, side, i, j, a, id);
      HeldBefore(book, side, i, j, b, id);
      hide Holds, EraseAt;
    }
  }

  lemma SetLeavesAtUnique(book: Book, side: Side, i: nat, j: nat, leaves: Quantity)
    requires UniqueIds(book) && IsSide(side) && InRange(Levels(book, side), i, j)
    ensures UniqueIds(WithLevels(book, side, SetLeavesAt(Levels(book, side), i, j, leaves)))
  {
    var after := WithLevels(book, side, SetLeavesAt(Levels(book, side), i, j, leaves));
    forall a, b, id | Holds(after, a, id) && Holds(after, b, id) ensures a == b {
      assert Holds(book, a, id) && Holds(book, b, id);
    }
  }

  lemma EraseUnique(book: Book, id: OrderId)
    requires UniqueIds(book)
    ensures UniqueIds(Erase(book, id))
  {
    if Has(book, id) {
      var at := Locate(book, id).value;
      EraseAtUnique(book, at.side, at.level, at.index);
    }
  }

  /** An inserted order is in one place, and the others where they were, but for the new level. */
  lemma InsertedPlace(book: Book, side: Side, price: PriceTicks, o: Order, at: Location, id: OrderId)
    returns (before: Location)
    requires IsSide(side) && !Has(book, o.id) && Holds(Insert(book, side, price, o), at, id)
    ensures var p, found := LowerBound(side, Levels(book, side), price), HasLevel(side, Levels(book, side), price);
            if id == o.id then
              at == Location(side, p, if found then |Levels(book, side)[p].orders| else 0)
            else
              && Holds(book, before, id)
              && before == (if found || at.side != side || at.level <= p then at else at.(level := at.level - 1))
              && (!found && at.side == side ==> at.level != p)
  {
    var p, found := LowerBound(side, Levels(book, side), price), HasLevel(side, Levels(book, side), price);
    before := if found || at.side != side || at.level <= p then at else at.(level := at.level - 1);
    assert !Holds(book, before, o.id);
  }

  lemma InsertUnique(book: Book, side: Side, price: PriceTicks, o: Order)
    requires UniqueIds(book) && IsSide(side) && !Has(book, o.id)
    ensures UniqueIds(Insert(book, side, price, o))
  {
    var after := Insert(book, side, price, o);
    forall a, b, id | Holds(after, a, id) && Holds(after, b, id) ensures a == b {
      var a' := InsertedPlace(book, side, price, o, a, id);
      var b' := InsertedPlace(book, side, price, o, b, id);
    }
  }

  lemma AfterFillUnique(book: Book, side: Side, quantity: Quantity)
    requires UniqueIds(book) && IsSide(side) && InRange(Levels(book, side), 0, 0)
    requires quantity <= Levels(book, side)[0].orders[0].leaves
    ensures UniqueIds(WithLevels(book, side, AfterFill(Levels(book, side), quantity)))
  {
    if quantity == Levels(book, side)[0].orders[0].leaves {
      EraseAtUnique(book, side, 0, 0);
    } else {
      SetLeavesAtUnique(book, side, 0, 0, Levels(book, side)[0].orders[0].leaves - quantity);
    }
  }

  lemma {:induction false} TakeUnique(book: Book, side: Side, limit: PriceTicks, remainder: Quantity, planned: seq<PlannedFill>)
    requires UniqueIds(book) && IsSide(side) && WfSide(Opposite(side), Levels(book, Opposite(side)))
    ensures UniqueIds(WithLevels(book, Opposite(side),
                                 Take(side, limit, Levels(book, Opposite(side)), remainder, planned).levels))
    decreases remainder
  {
    var opposite, levels := Opposite(side), Levels(book, Opposite(side));
    if !Continues(side, limit, levels, remainder) || |planned| >= MAXIMUM_FILLS_PER_COMMAND {
    } else {
      FrontIsWf(opposite, levels);
      var fill := FrontFill(levels, remainder);
      AfterFillWf(opposite, levels, fill.quantity);
      AfterFillUnique(book, opposite, fill.quantity);
      hide UniqueIds, WfSide, AfterFill;
      TakeUnique(WithLevels(book, opposite, AfterFill(levels, fill.quantity)), side, limit,
                 remainder - fill.quantity, planned + [fill]);
    }
  }

  lemma FilledUnique(book: Book, order: LogicalOrder, replaced: Option<OrderId>)
    requires WfBook(book) && UniqueIds(book) && IsSide(order.side)
    requires replaced == Some(order.orderId) || (replaced == None && !Has(book, order.orderId))
    ensures UniqueIds(FilledBook(book, order, replaced))
  {
    var t, candidate := TakenBy(book, order, replaced), Candidate(book, replaced);
    EraseUnique(book, order.orderId);
    IdIsFree(book, order, replaced);
    hide UniqueIds, Take, Insert, Has;
    TakeUnique(candidate, order.side, order.limitPrice, order.quantity, []);
    if t.remainder != 0 {
      InsertUnique(MatchedBook(book, order, replaced), order.side, order.limitPrice, Order(order.orderId, t.remainder));
    }
  }

  lemma RequantifyUnique(book: Book, id: OrderId, leaves: Quantity)
    requires UniqueIds(book) && Has(book, id)
    ensures UniqueIds(Requantify(book, id, leaves))
    ensures UniqueIds(SetLeaves(book, id, leaves)) && !Has(Erase(SetLeaves(book, id, leaves), id), id)
  {
    var at, view := Locate(book, id).value, ViewOf(book, id).value;
    var changed := SetLeaves(book, id, leaves);
    SetLeavesAtUnique(book, at.side, at.level, at.index, leaves);
    EraseUnique(changed, id);
    ErasedIsGone(changed, id);
    InsertUnique(Erase(changed, id), view.side, view.price, Order(id, leaves));
  }

  lemma ExecuteUnique(s: State, order: LogicalOrder, replaced: Option<OrderId>)
    requires WfState(s) && UniqueIds(s.book) && s.phase.Active? && IsSide(order.side)
    requires replaced == Some(order.orderId) || (replaced == None && !Has(s.book, order.orderId))
    ensures UniqueIds(ExecuteAggressive(s, order, replaced).0.book)
  {
    FilledUnique(s.book, order, replaced);
    hide UniqueIds, FilledBook, TakenBy, MatchedBook;
  }

  lemma ApplyUnique(s: State, c: Command)
    requires WfState(s) && UniqueIds(s.book)
    ensures UniqueIds(Apply(s, c).0.book)
  {
    hide UniqueIds, ExecuteAggressive, Requantify, LeavesFit, WfBook;
    match c
    case New(o) =>
      if ValidateNew(s, o) == Accepted {
        ExecuteUnique(AcceptCommand(s), LogicalNew(o), None);
      }
    case Cancel(o) => EraseUnique(s.book, o.orderId);
    case Amend(o) =>
      if ValidateAmend(s, o) == Accepted {
        ExecuteUnique(AcceptCommand(s), LogicalAmend(s, o), Some(o.orderId));
        RequantifyUnique(s.book, o.orderId, o.newLeaves);
      }
    case Lifecycle(l) =>
      assert UniqueIds(EMPTY) by { EmptyUnique(); }
  }

  lemma EmptyUnique()
    ensures UniqueIds(EMPTY)
  {
  }

  // The views of a book.

  /** The place of the k-th order of a side. */
  function PlaceOfView(levels: seq<Level>, k: nat): (p: (nat, nat))
    requires k < Count(levels)
    ensures InRange(levels, p.0, p.1)
  {
    if k < |levels[0].orders| then (0, k)
    else
      var (i, j) := PlaceOfView(levels[1..], k - |levels[0].orders|);
      (i + 1, j)
  }

  lemma {:induction false} FlatCount(side: Side, levels: seq<Level>)
    ensures |Flat(side, levels)| == Count(levels)
  {
    if levels == [] {
    } else {
      FlatCount(side, levels[1..]);
    }
  }

  lemma ViewAtPlace(side: Side, levels: seq<Level>, k: nat)
    requires k < Count(levels)
    ensures |Flat(side, levels)| == Count(levels)
    ensures var (i, j) := PlaceOfView(levels, k); Flat(side, levels)[k].orderId == levels[i].orders[j].id
    decreases |levels|
  {
    FlatCount(side, levels);
    if k < |levels[0].orders| {
    } else {
      ViewAtPlace(side, levels[1..], k - |levels[0].orders|);
    }
  }

  lemma PlacesDiffer(levels: seq<Level>, a: nat, b: nat)
    requires a < b < Count(levels)
    ensures PlaceOfView(levels, a) != PlaceOfView(levels, b)
  {
    if a < |levels[0].orders| {
    } else {
      PlacesDiffer(levels[1..], a - |levels[0].orders|, b - |levels[0].orders|);
    }
  }

  /** The views of a side name different orders. */
  lemma ViewsDiffer(book: Book, side: Side, a: nat, b: nat)
    requires UniqueIds(book) && IsSide(side) && a < b < |Flat(side, Levels(book, side))|
    ensures Flat(side, Levels(book, side))[a].orderId != Flat(side, Levels(book, side))[b].orderId
  {
    var levels := Levels(book, side);
    FlatCount(side, levels);
    ViewAtPlace(side, levels, a);
    ViewAtPlace(side, levels, b);
    PlacesDiffer(levels, a, b);
    var (i, j) := PlaceOfView(levels, a);
    var (k, l) := PlaceOfView(levels, b);
    assert Holds(book, Location(side, i, j), levels[i].orders[j].id);
    assert Holds(book, Location(side, k, l), levels[k].orders[l].id);
  }

  ghost predicate DistinctIds(views: seq<RestingOrderView>) {
    forall a, b :: 0 <= a < b < |views| ==> views[a].orderId != views[b].orderId
  }

  /** No ID is seen twice, on one side or across them. */
  lemma AllViewsDiffer(book: Book)
    requires UniqueIds(book)
    ensures DistinctIds(Flat(Buy, book.bids) + Flat(Sell, book.asks))
  {
    var bids, asks := Flat(Buy, book.bids), Flat(Sell, book.asks);
    var views: seq<RestingOrderView> := bids + asks;
    FlatCount(Buy, book.bids);
    FlatCount(Sell, book.asks);
    forall a, b | 0 <= a < b < |views| ensures views[a].orderId != views[b].orderId {
      if b < |bids| {
        ViewsDiffer(book, Buy, a, b);
      } else if a >= |bids| {
        ViewsDiffer(book, Sell, a - |bids|, b - |bids|);
      } else {
        ViewAtPlace(Buy, book.bids, a);
        ViewAtPlace(Sell, book.asks, b - |bids|);
        var (i, j) := PlaceOfView(book.bids, a);
        var (k, l) := PlaceOfView(book.asks, b - |bids|);
        assert Holds(book, Location(Buy, i, j), book.bids[i].orders[j].id);
        assert Holds(book, Location(Sell, k, l), book.asks[k].orders[l].id);
      }
    }
  }
}
