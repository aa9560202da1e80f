/**
  What the storage's operations mean for the orders that rest: each is told by
  the views of the two sides, and its answer by conditions on them.
 */
module Operations {
  import opened Domain
  import opened Book
  import opened Reference
  import opened Matching
  import opened Planning
  import opened Identity
  import opened Storage
  import opened Views
  import opened Laws
  import opened Lawfulness
  import opened Places

  /** An inserted order is queued behind what is priced as well; the other side is untouched. */
  lemma InsertMeans(book: Book, side: Side, price: PriceTicks, o: Order)
    requires WfBook(book) && IsSide(side)
    ensures var after := Insert(book, side, price, o);
            && Queued(side, SideOf(book, side), RestingOrderView(o.id, side, price, o.leaves), SideOf(after, side))
            && SideOf(after, Opposite(side)) == SideOf(book, Opposite(side))
  {
    InsertFlat(side, Levels(book, side), price, o);
  }

  /** An order is reduced by at most its leaves, in place, and taken out when nothing is left of it. */
  lemma ReduceMeans(book: Book, id: OrderId, reduction: Quantity)
    requires WfBook(book) && UniqueIds(book)
    ensures var view, status, after := ViewOf(book, id), ReduceStatus(book, id, reduction), Reduce(book, id, reduction);
            && (status == OrderNotFound <==> !Rests(book, id))
            && (status == InvalidQuantity <==> Rests(book, id) && (reduction == 0 || reduction > view.value.leaves))
            && (status == Accepted <==> Rests(book, id) && 1 <= reduction <= view.value.leaves)
            && (status == Accepted ==>
                  && SideOf(after, Opposite(view.value.side)) == SideOf(book, Opposite(view.value.side))
                  && SideOf(after, view.value.side) ==
                     if reduction == view.value.leaves then Others(SideOf(book, view.value.side), id)
                     else Releaved(SideOf(book, view.value.side), id, view.value.leaves - reduction))
  {
    HasIsRests(book, id);
    hide UniqueIds, Rests, SideOf, Flat;
    if Has(book, id) {
      SetLeavesSides(book, id, if reduction <= LeavesOf(book, id) then LeavesOf(book, id) - reduction else 0);
      EraseSides(book, id);
    }
  }

  lemma SetLeavesSides(book: Book, id: OrderId, leaves: Quantity)
    requires UniqueIds(book) && Has(book, id)
    ensures var side, after := ViewOf(book, id).value.side, SetLeaves(book, id, leaves);
            && SideOf(after, side) == Releaved(SideOf(book, side), id, leaves)
            && SideOf(after, Opposite(side)) == SideOf(book, Opposite(side))
  {
    SetLeavesSeen(book, id, leaves);
  }

  lemma EraseSides(book: Book, id: OrderId)
    requires WfBook(book) && UniqueIds(book) && Has(book, id)
    ensures var side, after := ViewOf(book, id).value.side, Erase(book, id);
            && SideOf(after, side) == Others(SideOf(book, side), id)
            && SideOf(after, Opposite(side)) == SideOf(book, Opposite(side))
  {
    ErasedSeen(book, id, ViewOf(book, id).value.side);
    EraseOneSide(book, id);
  }

  /** New leaves are set in place, unless they are zero or the other orders at the price leave no room for them. */
  lemma UpdateMeans(book: Book, id: OrderId, leaves: Quantity)
    requires WfBook(book) && UniqueIds(book)
    ensures var view, status, after := ViewOf(book, id), UpdateStatus(book, id, leaves), SetLeaves(book, id, leaves);
            && (status == OrderNotFound <==> !Rests(book, id))
            && (status == InvalidQuantity <==> Rests(book, id) && leaves == 0)
            && (status == CapacityExhausted <==> Rests(book, id) && leaves >= 1 && Overflows(book, view.value, leaves))
            && (status == Accepted <==> Rests(book, id) && leaves >= 1 && !Overflows(book, view.value, leaves))
            && (status == Accepted ==>
                  && SideOf(after, view.value.side) == Releaved(SideOf(book, view.value.side), id, leaves)
                  && SideOf(after, Opposite(view.value.side)) == SideOf(book, Opposite(view.value.side)))
  {
    HasIsRests(book, id);
    hide WfBook, UniqueIds, Rests, SideOf, Overflows, LeavesFit;
    if Has(book, id) {
      SetLeavesSides(book, id, leaves);
      FitSeen(book, id, leaves);
      if leaves <= LeavesOf(book, id) {
        ReductionFits(book, id, leaves);
      }
    }
  }

  /** A requeued order stands behind all others at its price; nothing else moves. */
  lemma MoveToBackMeans(book: Book, id: OrderId)
    requires WfBook(book) && UniqueIds(book) && Has(book, id)
    ensures var view, after := ViewOf(book, id).value, MoveToBack(book, id);
            && Queued(view.side, Others(SideOf(book, view.side), id), view, SideOf(after, view.side))
            && SideOf(after, Opposite(view.side)) == SideOf(book, Opposite(view.side))
  {
    var at := Locate(book, id).value;
    var levels := Levels(book, at.side);
    WellSided(book, at.side);
    ReinsertIsRequeue(at.side, levels, at.level, at.index);
    EraseOneSide(book, id);
    hide UniqueIds, Queued, Flat, EraseAt, InsertOrder, MoveToBackAt, WfBook, WfSide;
    EraseSides(book, id);
    InsertMeans(Erase(book, id), at.side, levels[at.level].price, OrderAt(book, at));
  }

  /** Each answer of an insertion, exactly when it is given. */
  lemma InsertingMeans(storage: OrderBookStorage, id: OrderId, instrument: InstrumentId, side: Side, price: PriceTicks,
                       leaves: Quantity)
    requires storage.Valid()
    ensures var status := storage.InsertStatus(id, instrument, side, price, leaves);
            var book, p := storage.book, storage.pool.state;
            var ours := storage.instrumentId >= 1 && instrument == storage.instrumentId;
            var unused, sided := id >= 1 && !Rests(book, id), side == Buy || side == Sell;
            var views := SideOf(book, side);
            var valid := ours && unused && sided && price >= 1 && leaves >= 1;
            var slot := p.free != [] && p.free[0] < |p.gens| && p.gens[p.free[0]] != p.maxGeneration;
            var room := if price in PricesOf(views) then
                          SumOf(Select(AtPrice(price), views)) + leaves <= 0xFFFF_FFFF_FFFF_FFFF
                        else
                          |PricesOf(views)| < storage.priceLevelCapacityPerSide;
            var full := |SideOf(book, Buy)| + |SideOf(book, Sell)| >= storage.activeOrderCapacity;
            && (status == InvalidInstrument <==> !ours)
            && (status == DuplicateOrderId <==> ours && !unused)
            && (status == InvalidSide <==> ours && unused && !sided)
            && (status == InvalidPrice <==> ours && unused && sided && price == 0)
            && (status == InvalidQuantity <==> ours && unused && sided && price >= 1 && leaves == 0)
            && (status == CapacityExhausted <==> valid && (full || !slot || !room))
            && (status == Accepted <==> valid && !full && slot && room)
  {
    hide OrderBookStorage.Valid, Rests, SideOf, HasRoom, UniqueIds, WfBook, PricesOf, CountBook, Locate;
    storage.WellFormed();
    HasIsRests(storage.book, id);
    CountSeen(storage.book, Buy);
    if IsSide(side) {
      RoomOn(storage.book, side, price, leaves, storage.priceLevelCapacityPerSide);
    }
  }

  lemma RoomOn(book: Book, side: Side, price: PriceTicks, leaves: Quantity, levelCapacity: nat)
    requires WfBook(book) && IsSide(side)
    ensures var views := SideOf(book, side);
            HasRoom(side, Levels(book, side), price, leaves, levelCapacity) <==>
            if price in PricesOf(views) then SumOf(Select(AtPrice(price), views)) + leaves <= U64_MAX
            else |PricesOf(views)| < levelCapacity
  {
    WellSided(book, side);
    RoomSeen(side, Levels(book, side), price, leaves, levelCapacity);
  }

  // Queries.

  /** A side's depth, best price and level count say what its orders say. */
  ghost predicate SideAgrees(side: Side, views: seq<RestingOrderView>, best: Option<PriceTicks>, levels: nat,
                             depth: seq<DepthEntry>) {
    && best == (if views == [] then None else Some(views[0].price))
    && levels == |depth| == |PricesOf(views)|
    && (forall i, j :: 0 <= i < j < |depth| ==>
          if side.Buy? then depth[i].price > depth[j].price else depth[i].price < depth[j].price)
    && (forall i :: 0 <= i < |depth| ==>
          && depth[i].aggregate == SumOf(Select(AtPrice(depth[i].price), views))
          && depth[i].orderCount == |Select(AtPrice(depth[i].price), views)| >= 1)
  }

  lemma DepthAgrees(side: Side, levels: seq<Level>, depth: seq<DepthEntry>)
    requires IsSide(side) && WfSide(side, levels) && IsDepth(depth, levels)
    ensures SideAgrees(side, Flat(side, levels), BestOf(levels), |levels|, depth)
  {
    FlatEmpty(side, levels);
    LevelsSeen(side, levels);
    forall i | 0 <= i < |depth|
      ensures depth[i].aggregate == SumOf(Select(AtPrice(depth[i].price), Flat(side, levels)))
      ensures depth[i].orderCount == |Select(AtPrice(depth[i].price), Flat(side, levels))| >= 1
    {
      assert WfLevel(levels[i]);
      LevelSeen(side, levels, i);
      SumOfOrders(side, levels[i].price, levels[i].orders);
    }
  }

  /** All that can be seen of a state agrees with the orders that can be seen. */
  lemma ObservationAgrees(s: State)
    requires WfBook(s.book)
    ensures var o := Observe(s);
            && o.phase == s.phase && o.lastCommand == s.lastCommand && o.lastEngine == s.lastEngine
            && o.lastMatch == s.lastMatch
            && o.bidOrders == SideOf(s.book, Buy) && o.askOrders == SideOf(s.book, Sell)
            && o.activeOrders == |o.bidOrders| + |o.askOrders|
            && SideAgrees(Buy, o.bidOrders, o.bestBid, o.bidLevels, o.bids)
            && SideAgrees(Sell, o.askOrders, o.bestAsk, o.askLevels, o.asks)
  {
    hide SideAgrees, Flat;
    AllSummable(s.book);
    CountSeen(s.book, Buy);
    DepthAgrees(Buy, s.book.bids, DepthOf(s.book.bids));
    DepthAgrees(Sell, s.book.asks, DepthOf(s.book.asks));
  }
}
