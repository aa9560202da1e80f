/**
  The reference model as the repository writes it: ordered maps of levels, a
  candidate copied from the model, and a swap or nothing at the end. It is
  proved to step like the functions of module Reference.
 */
module ReferenceModel {
  import opened Domain
  import opened Book
  import opened Reference
  import opened Matching
  import opened Planning
  import opened Runs
  import opened Identity

  type LevelMap = map<PriceTicks, seq<Order>>

  ghost predicate PricedAt(levels: seq<Level>, price: PriceTicks) {
    exists i :: 0 <= i < |levels| && levels[i].price == price
  }

  /** Every level is in the map under its price. */
  ghost predicate AllIn(m: LevelMap, levels: seq<Level>) {
    forall i :: 0 <= i < |levels| ==> levels[i].price in m && m[levels[i].price] == levels[i].orders
  }

  /** Iterating over the ordered map yields the levels. */
  ghost predicate Maps(side: Side, m: LevelMap, levels: seq<Level>) {
    && Sorted(side, levels)
    && |m| == |levels|
    && AllIn(m, levels)
    && (forall p :: p in m ==> PricedAt(levels, p))
  }

  predicate Leads(side: Side, m: LevelMap, price: PriceTicks) {
    forall p :: p in m ==> p == price || Before(side, price, p)
  }

  /** The first key in iteration order is the best price. */
  lemma MapsFirst(side: Side, m: LevelMap, levels: seq<Level>)
    requires Maps(side, m, levels)
    ensures levels == [] <==> m == map[]
    ensures levels != [] ==> levels[0].price in m && m[levels[0].price] == levels[0].orders
    ensures levels != [] ==> Without(levels, 0) == levels[1..]
  {
  }

  lemma MapsBegin(side: Side, m: LevelMap, levels: seq<Level>)
    requires Maps(side, m, levels) && m != map[]
    ensures levels != [] && levels[0].price in m && m[levels[0].price] == levels[0].orders
    ensures Leads(side, m, levels[0].price)
    ensures forall p :: p in m && Leads(side, m, p) ==> p == levels[0].price
  {
  }

  lemma MapsFind(side: Side, m: LevelMap, levels: seq<Level>, price: PriceTicks)
    requires Maps(side, m, levels)
    ensures price in m <==> HasLevel(side, levels, price)
    ensures price in m ==> m[price] == levels[LowerBound(side, levels, price)].orders
  {
    if price in m {
      var i :| 0 <= i < |levels| && levels[i].price == price;
      PriceFound(side, levels, i);
    }
  }

  lemma MapsSet(side: Side, m: LevelMap, levels: seq<Level>, i: nat, orders: seq<Order>)
    requires Maps(side, m, levels) && i < |levels|
    ensures levels[i].price in m && m[levels[i].price] == levels[i].orders
    ensures Maps(side, m[levels[i].price := orders], levels[i := levels[i].(orders := orders)])
  {
    var price, changed := levels[i].price, levels[i := levels[i].(orders := orders)];
    assert Sorted(side, changed);
    assert forall k :: 0 <= k < |levels| && levels[k].price == price ==> k == i;
    hide Sorted;
    assert m.Keys == m[price := orders].Keys;
    forall p | PricedAt(levels, p) ensures PricedAt(changed, p) {
      var k :| 0 <= k < |levels| && levels[k].price == p;
      assert changed[k].price == p;
    }
  }

  lemma PricedWithout(levels: seq<Level>, i: nat, price: PriceTicks)
    requires i < |levels| && PricedAt(levels, price) && price != levels[i].price
    ensures PricedAt(Without(levels, i), price)
  {
    var k :| 0 <= k < |levels| && levels[k].price == price;
    assert Without(levels, i)[if k < i then k else k - 1].price == price;
  }

  lemma SortedWithout(side: Side, m: LevelMap, levels: seq<Level>, i: nat)
    requires Sorted(side, levels) && i < |levels| && AllIn(m, levels)
    ensures Sorted(side, Without(levels, i)) && AllIn(m - {levels[i].price}, Without(levels, i))
  {
  }

  lemma MapsDrop(side: Side, m: LevelMap, levels: seq<Level>, i: nat)
    requires Maps(side, m, levels) && i < |levels|
    ensures Maps(side, m - {levels[i].price}, Without(levels, i))
  {
    var price := levels[i].price;
    assert m.Keys == (m - {price}).Keys + {price};
    SortedWithout(side, m, levels, i);
    forall p | p in m - {price} ensures PricedAt(Without(levels, i), p) {
      PricedWithout(levels, i, p);
    }
    hide Sorted, AllIn, PricedAt;
  }

  lemma SortedOpened(side: Side, m: LevelMap, levels: seq<Level>, level: Level)
    requires Sorted(side, levels) && IsSide(side) && AllIn(m, levels)
    requires !HasLevel(side, levels, level.price) && level.price !in m
    ensures var added := Opened(levels, LowerBound(side, levels, level.price), level);
            Sorted(side, added) && AllIn(m[level.price := level.orders], added)
  {
    LowerBoundSplits(side, levels, level.price);
    PriceMissing(side, levels, level.price);
    hide HasLevel, LowerBound;
  }

  lemma PricedOpened(levels: seq<Level>, at: nat, level: Level, price: PriceTicks)
    requires at <= |levels| && (PricedAt(levels, price) || price == level.price)
    ensures PricedAt(Opened(levels, at, level), price)
  {
    if price == level.price {
      assert Opened(levels, at, level)[at].price == price;
    } else {
      var k :| 0 <= k < |levels| && levels[k].price == price;
      assert Opened(levels, at, level)[if k < at then k else k + 1].price == price;
    }
  }

  lemma MapsAdd(side: Side, m: LevelMap, levels: seq<Level>, level: Level)
    requires Maps(side, m, levels) && IsSide(side) && level.price !in m
    ensures Maps(side, m[level.price := level.orders],
                 Opened(levels, LowerBound(side, levels, level.price), level))
  {
    var at := LowerBound(side, levels, level.price);
    MapsFind(side, m, levels, level.price);
    SortedOpened(side, m, levels, level);
    forall p | p in m[level.price := level.orders] ensures PricedAt(Opened(levels, at, level), p) {
      PricedOpened(levels, at, level, p);
    }
    hide HasLevel, LowerBound, Sorted, AllIn, PricedAt;
  }

  // Loops over single levels and whole sides.

  lemma {:induction false} FindInIs(orders: seq<Order>, id: OrderId, index: nat)
    requires index < |orders| && orders[index].id == id
    requires forall j :: 0 <= j < index ==> orders[j].id != id
    ensures FindIn(orders, id) == Some(index)
  {
    if index == 0 {
    } else {
      FindInIs(orders[1..], id, index - 1);
    }
  }

  /** The sum of the leaves, unless it does not fit into 64 bits. */
  method Aggregate(orders: seq<Order>) returns (total: Quantity, valid: bool)
    ensures valid <==> Sum(orders) <= U64_MAX
    ensures valid ==> total == Sum(orders)
  {
    total := 0;
    var index := 0;
    while index < |orders|
      invariant 0 <= index <= |orders|
      invariant total + Sum(orders[index..]) == Sum(orders)
    {
      assert orders[index..][1..] == orders[index + 1..];
      if orders[index].leaves > U64_MAX - total {
        return 0, false;
      }
      total := total + orders[index].leaves;
      index := index + 1;
    }
    valid := true;
  }

  /** The key a sorted traversal starts with. */
  method Begin(side: Side, m: LevelMap, ghost levels: seq<Level>) returns (price: PriceTicks)
    requires Maps(side, m, levels) && m != map[]
    ensures levels != [] && price == levels[0].price && price in m && m[price] == levels[0].orders
  {
    hide Maps, Leads;
    MapsBegin(side, m, levels);
    price :| price in m && Leads(side, m, price);
  }

  lemma FindSkips(levels: seq<Level>, k: nat, id: OrderId)
    requires k < |levels| && forall j :: 0 <= j < |levels[k].orders| ==> levels[k].orders[j].id != id
    ensures FindInLevels(levels[k..], id) ==
            match FindInLevels(levels[k + 1..], id)
            case Some(p) => Some((p.0 + 1, p.1))
            case None => None
  {
  }

  lemma FindHits(levels: seq<Level>, k: nat, id: OrderId, index: nat)
    requires k < |levels| && index < |levels[k].orders| && levels[k].orders[index].id == id
    requires forall j :: 0 <= j < index ==> levels[k].orders[j].id != id
    ensures FindInLevels(levels[k..], id) == Some((0, index))
  {
    FindInIs(levels[k].orders, id, index);
  }

  /** The map without its first key maps the levels behind the first. */
  lemma MapsRest(side: Side, m: LevelMap, levels: seq<Level>, k: nat)
    requires k < |levels| && Maps(side, m, levels[k..])
    ensures Maps(side, m - {levels[k].price}, levels[k + 1..])
  {
  }

  lemma MapsNone(side: Side, levels: seq<Level>, k: nat)
    requires k <= |levels| && Maps(side, map[], levels[k..])
    ensures levels[k..] == []
  {
  }

  method LocateIn(side: Side, m: LevelMap, id: OrderId, ghost levels: seq<Level>) returns (r: Option<(PriceTicks, nat)>)
    requires Maps(side, m, levels)
    ensures r == match FindInLevels(levels, id)
                 case Some(p) => Some((levels[p.0].price, p.1))
                 case None => None
  {
    hide Maps, FindInLevels, FindIn;
    var left := m;
    ghost var k := 0;
    assert levels[0..] == levels;
    while left != map[]
      invariant 0 <= k <= |levels| && Maps(side, left, levels[k..])
      invariant FindInLevels(levels, id) ==
                match FindInLevels(levels[k..], id)
                case Some(p) => Some((p.0 + k, p.1))
                case None => None
      decreases |levels| - k
    {
      var price := Begin(side, left, levels[k..]);
      var orders := left[price];
      var index := 0;
      while index < |orders|
        invariant 0 <= index <= |orders|
        invariant forall j :: 0 <= j < index ==> orders[j].id != id
      {
        if orders[index].id == id {
          FindHits(levels, k, id, index);
          return Some((price, index));
        }
        index := index + 1;
      }
      FindSkips(levels, k, id);
      MapsRest(side, left, levels, k);
      left := left - {price};
      k := k + 1;
    }
    MapsNone(side, levels, k);
    FindNone(id);
    r := None;
  }

  lemma FindNone(id: OrderId)
    ensures FindInLevels([], id) == None
  {
  }

  method CountIn(side: Side, m: LevelMap, ghost levels: seq<Level>) returns (count: nat)
    requires Maps(side, m, levels)
    ensures count == Count(levels)
  {
    hide Maps;
    count := 0;
    var left := m;
    ghost var k := 0;
    assert levels[0..] == levels;
    while left != map[]
      invariant 0 <= k <= |levels| && Maps(side, left, levels[k..])
      invariant count + Count(levels[k..]) == Count(levels)
      decreases |levels| - k
    {
      var price := Begin(side, left, levels[k..]);
      count := count + |left[price]|;
      assert levels[k..][1..] == levels[k + 1..];
      MapsRest(side, left, levels, k);
      left := left - {price};
      k := k + 1;
    }
    MapsNone(side, levels, k);
  }

  lemma TakeStep(side: Side, limit: PriceTicks, levels: seq<Level>, remainder: Quantity, planned: seq<PlannedFill>)
    requires WfSide(Opposite(side), levels) && Continues(side, limit, levels, remainder)
    requires |planned| < MAXIMUM_FILLS_PER_COMMAND && levels[0].orders != []
    ensures var fill := FrontFill(levels, remainder);
            && 1 <= fill.quantity <= levels[0].orders[0].leaves
            && WfSide(Opposite(side), AfterFill(levels, fill.quantity))
            && Take(side, limit, levels, remainder, planned) ==
               Take(side, limit, AfterFill(levels, fill.quantity), remainder - fill.quantity, planned + [fill])
  {
    FrontIsWf(Opposite(side), levels);
    AfterFillWf(Opposite(side), levels, FrontFill(levels, remainder).quantity);
    hide WfSide, AfterFill;
  }

  lemma TakeStops(side: Side, limit: PriceTicks, levels: seq<Level>, remainder: Quantity, planned: seq<PlannedFill>)
    requires WfSide(Opposite(side), levels)
    ensures !Continues(side, limit, levels, remainder) ==>
              Take(side, limit, levels, remainder, planned) == Taken(levels, remainder, planned, true)
    ensures Continues(side, limit, levels, remainder) && |planned| >= MAXIMUM_FILLS_PER_COMMAND ==>
              Take(side, limit, levels, remainder, planned) == Taken(levels, remainder, planned, false)
  {
  }

  /** The map after the front order gave up a quantity. */
  lemma MapsAfterFill(side: Side, m: LevelMap, levels: seq<Level>, quantity: Quantity)
    requires Maps(side, m, levels) && levels != [] && levels[0].orders != [] && quantity <= levels[0].orders[0].leaves
    ensures var price, orders := levels[0].price, levels[0].orders;
            var changed :=
              if quantity == orders[0].leaves then (if |orders| == 1 then m - {price} else m[price := orders[1..]])
              else m[price := orders[0 := orders[0].(leaves := orders[0].leaves - quantity)]];
            Maps(side, changed, AfterFill(levels, quantity))
  {
    hide Maps;
    var orders := levels[0].orders;
    if quantity < orders[0].leaves {
      MapsSet(side, m, levels, 0, orders[0 := orders[0].(leaves := orders[0].leaves - quantity)]);
    } else if |orders| == 1 {
      MapsDrop(side, m, levels, 0);
    } else {
      assert Without(orders, 0) == orders[1..];
      MapsSet(side, m, levels, 0, orders[1..]);
    }
  }

  /** Takes from the best level while prices cross; false when the fills run out first. */
  method TakeLevels(side: Side, limit: PriceTicks, m: LevelMap, quantity: Quantity, ghost start: seq<Level>)
    returns (left: LevelMap, remainder: Quantity, planned: seq<PlannedFill>, within: bool)
    requires IsSide(side) && WfSide(Opposite(side), start) && Maps(Opposite(side), m, start)
    ensures var t := Take(side, limit, start, quantity, []);
            && remainder == t.remainder && planned == t.planned && within == t.withinCapacity
            && Maps(Opposite(side), left, t.levels)
  {
    hide Maps, WfSide, Take, AfterFill;
    ghost var opposite, levels := Opposite(side), start;
    left, remainder, planned, within := m, quantity, [], true;
    while remainder != 0 && left != map[]
      invariant Maps(opposite, left, levels) && WfSide(opposite, levels)
      invariant |planned| <= MAXIMUM_FILLS_PER_COMMAND
      invariant Take(side, limit, levels, remainder, planned) == Take(side, limit, start, quantity, [])
      decreases remainder
    {
      var price := Begin(Opposite(side), left, levels);
      if !Crosses(side, limit, price) {
        TakeStops(side, limit, levels, remainder, planned);
        return;
      }
      if |planned| == MAXIMUM_FILLS_PER_COMMAND {
        within := false;
        TakeStops(side, limit, levels, remainder, planned);
        return;
      }
      FrontIsWf(opposite, levels);
      var orders := left[price];
      var fill := if remainder < orders[0].leaves then remainder else orders[0].leaves;
      TakeStep(side, limit, levels, remainder, planned);
      MapsAfterFill(opposite, left, levels, fill);
      planned := planned + [PlannedFill(orders[0].id, price, fill)];
      remainder := remainder - fill;
      if fill == orders[0].leaves {
        left := if |orders| == 1 then left - {price} else left[price := orders[1..]];
      } else {
        left := left[price := orders[0 := orders[0].(leaves := orders[0].leaves - fill)]];
      }
      levels := AfterFill(levels, fill);
    }
    TakeStops(side, limit, levels, remainder, planned);
    MapsFirst(opposite, left, levels);
  }

  lemma MapsBeginAll(bids: LevelMap, asks: LevelMap, book: Book)
    requires Maps(Buy, bids, book.bids) && Maps(Sell, asks, book.asks)
    ensures book.bids == [] <==> bids == map[]
    ensures book.asks == [] <==> asks == map[]
  {
  }

  lemma MapsEmpty()
    ensures Maps(Buy, map[], []) && Maps(Sell, map[], [])
  {
  }

  lemma LeavesSeen(book: Book, id: OrderId)
    ensures Has(book, id) ==> ViewOf(book, id).value.leaves == LeavesOf(book, id)
  {
  }

  lemma SpaceLeft(s: State)
    requires WfState(s)
    ensures WfBook(s.book) && |s.reports| <= s.limits.executionCapacity
    ensures |s.statuses| <= s.limits.statusCapacity
    ensures s.phase.Active? ==> |s.statuses| < s.limits.statusCapacity
  {
  }

  lemma CandidateSide(book: Book, replaced: Option<OrderId>, side: Side)
    requires WfBook(book) && IsSide(side)
    ensures WfSide(side, Levels(Candidate(book, replaced), side))
  {
  }

  /** An order taken out to be put back with more leaves still fits. */
  lemma ReinsertFits(s: State, id: OrderId, leaves: Quantity)
    requires WfState(s) && UniqueIds(s.book) && Has(s.book, id) && IsValid(leaves) && LeavesFit(s.book, id, leaves)
    ensures var changed, view := SetLeaves(s.book, id, leaves), ViewOf(s.book, id).value;
            && Has(changed, id)
            && InsertStatus(s.limits, Erase(changed, id), id, view.side, view.price, leaves) == Accepted
  {
    var at, changed := Locate(s.book, id).value, SetLeaves(s.book, id, leaves);
    RequantifyUnique(s.book, id, leaves);
    LocateAfterSetLeaves(s.book, id, leaves);
    SetLeavesEffect(s.book, id, leaves);
    EraseOneSide(changed, id);
    var levels := Levels(changed, at.side);
    assert WfLevel(levels[at.level]);
    RoomAfterErase(at.side, levels, at.level, at.index, levels[at.level].price, leaves, s.limits.levelsPerSide);
    PriceFound(at.side, levels, at.level);
  }

  lemma MapsSize(side: Side, m: LevelMap, levels: seq<Level>)
    requires Maps(side, m, levels)
    ensures |m| == |levels|
  {
  }

  function Seen(views: seq<RestingOrderView>): set<OrderId> {
    set v | v in views :: v.orderId
  }

  lemma SeenNext(done: seq<RestingOrderView>, view: RestingOrderView, more: seq<RestingOrderView>)
    requires DistinctIds(done + ([view] + more))
    ensures view.orderId !in Seen(done) && Seen(done + [view]) == Seen(done) + {view.orderId}
  {
    var views := done + ([view] + more);
    assert views[|done|] == view;
    forall v | v in done ensures v.orderId != view.orderId {
      var k: nat :| k < |done| && done[k] == v;
      assert views[k] == v;
    }
  }

  lemma LevelFits(side: Side, levels: seq<Level>, i: nat)
    requires WfSide(side, levels) && i < |levels|
    ensures IsValid(levels[i].price) && levels[i].orders != [] && Sum(levels[i].orders) <= U64_MAX
    ensures forall j :: 0 <= j < |levels[i].orders| ==>
              IsValid(levels[i].orders[j].id) && IsValid(levels[i].orders[j].leaves)
  {
    assert WfLevel(levels[i]);
  }

  class ReferenceModel {
    const limits: Limits
    var phase: InstrumentState
    var lastCommand: CommandSequence
    var lastEngine: EngineSequence
    var lastMatch: MatchId
    var bids: LevelMap
    var asks: LevelMap
    var executionOutbox: seq<ExecutionReport>
    var statusOutbox: seq<SystemStatus>
    ghost var book: Book

    ghost function View(): State
      reads this
    {
      State(limits, phase, lastCommand, lastEngine, lastMatch, book, executionOutbox, statusOutbox)
    }

    /** The maps are the book's. */
    ghost predicate Mapped()
      reads this
    {
      Maps(Buy, bids, book.bids) && Maps(Sell, asks, book.asks)
    }

    ghost predicate Valid()
      reads this
    {
      Mapped() && WfState(View()) && UniqueIds(book)
    }

    lemma Facts()
      requires Valid()
      ensures WfState(View()) && WfBook(book) && UniqueIds(book)
    {
    }

    constructor (limits: Limits)
      requires limits.statusCapacity >= MINIMUM_STATUS_OUTBOX_CAPACITY
      ensures Valid() && View() == Start(limits)
    {
      this.limits := limits;
      phase, lastCommand, lastEngine, lastMatch := Active, 0, 0, 0;
      bids, asks, executionOutbox, statusOutbox := map[], map[], [], [];
      book := EMPTY;
    }

    constructor Copy(other: ReferenceModel)
      ensures View() == other.View() && bids == other.bids && asks == other.asks
    {
      limits := other.limits;
      phase, lastCommand, lastEngine, lastMatch := other.phase, other.lastCommand, other.lastEngine, other.lastMatch;
      bids, asks, executionOutbox, statusOutbox := other.bids, other.asks, other.executionOutbox, other.statusOutbox;
      book := other.book;
    }

    /** The candidate takes this model's place. */
    method Adopt(candidate: ReferenceModel)
      requires candidate.limits == limits
      modifies this
      ensures View() == candidate.View() && bids == candidate.bids && asks == candidate.asks
    {
      phase, lastCommand, lastEngine, lastMatch :=
        candidate.phase, candidate.lastCommand, candidate.lastEngine, candidate.lastMatch;
      bids, asks, executionOutbox, statusOutbox :=
        candidate.bids, candidate.asks, candidate.executionOutbox, candidate.statusOutbox;
      book := candidate.book;
    }

    function LevelsOf(side: Side): LevelMap
      reads this
    {
      if side.Buy? then bids else asks
    }

    method SetLevels(side: Side, levels: LevelMap, ghost after: seq<Level>)
      requires IsSide(side) && Mapped() && Maps(side, levels, after)
      modifies this`bids, this`asks, this`book
      ensures Mapped() && book == WithLevels(old(book), side, after)
    {
      hide Maps;
      if side.Buy? {
        bids := levels;
      } else {
        asks := levels;
      }
      book := WithLevels(book, side, after);
    }

    /** Scans the bids, then the asks. */
    method LocateOrder(id: OrderId) returns (r: Option<(Side, PriceTicks, nat)>)
      requires Mapped()
      ensures r == match Locate(book, id)
                   case Some(at) => Some((at.side, PriceAt(book, at), at.index))
                   case None => None
    {
      hide Maps;
      var found := LocateIn(Buy, bids, id, book.bids);
      if found.Some? {
        return Some((Buy, found.value.0, found.value.1));
      }
      found := LocateIn(Sell, asks, id, book.asks);
      if found.Some? {
        return Some((Sell, found.value.0, found.value.1));
      }
      r := None;
    }

    method FindOrder(id: OrderId) returns (r: Option<RestingOrderView>)
      requires Mapped()
      ensures r == ViewOf(book, id)
    {
      hide Maps;
      var at := LocateOrder(id);
      if at.None? {
        return None;
      }
      ghost var place := Locate(book, id).value;
      MapsSet(place.side, LevelsOf(place.side), Levels(book, place.side), place.level, []);
      var order := LevelsOf(at.value.0)[at.value.1][at.value.2];
      r := Some(RestingOrderView(order.id, at.value.0, at.value.1, order.leaves));
    }

    method EraseOrder(id: OrderId) returns (erased: bool)
      requires Mapped()
      modifies this`bids, this`asks, this`book
      ensures Mapped() && book == Erase(old(book), id)
      ensures erased <==> Has(old(book), id)
    {
      hide Maps;
      var at := LocateOrder(id);
      if at.None? {
        return false;
      }
      ghost var place := Locate(book, id).value;
      var side, price, index := at.value.0, at.value.1, at.value.2;
      var m := LevelsOf(side);
      ghost var levels := Levels(book, side);
      MapsSet(side, m, levels, place.level, Without(levels[place.level].orders, place.index));
      MapsDrop(side, m, levels, place.level);
      var orders := m[price][..index] + m[price][index + 1..];
      SetLevels(side, if orders == [] then m - {price} else m[price := orders], EraseAt(levels, place.level, place.index));
      erased := true;
    }

    /** Overwrites an order's leaves where it rests. */
    method AssignLeaves(id: OrderId, leaves: Quantity)
      requires Mapped() && Has(book, id)
      modifies this`bids, this`asks, this`book
      ensures Mapped() && book == SetLeaves(old(book), id, leaves)
    {
      hide Maps;
      var at := LocateOrder(id);
      ghost var place := Locate(book, id).value;
      var side, price, index := at.value.0, at.value.1, at.value.2;
      var m := LevelsOf(side);
      ghost var levels := Levels(book, side);
      ghost var orders := levels[place.level].orders;
      MapsSet(side, m, levels, place.level, orders[place.index := orders[place.index].(leaves := leaves)]);
      SetLevels(side, m[price := m[price][index := m[price][index].(leaves := leaves)]],
                SetLeavesAt(levels, place.level, place.index, leaves));
    }

    method ActiveOrderCount() returns (count: nat)
      requires Mapped()
      ensures count == CountBook(book)
    {
      var b := CountIn(Buy, bids, book.bids);
      var a := CountIn(Sell, asks, book.asks);
      count := b + a;
    }

    method AddOrder(id: OrderId, side: Side, price: PriceTicks, leaves: Quantity) returns (result: OrderBookResult)
      requires Mapped() && IsSide(side)
      modifies this`bids, this`asks, this`book
      ensures Mapped()
      ensures result == InsertStatus(limits, old(book), id, side, price, leaves)
      ensures book == if result == Accepted then Insert(old(book), side, price, Order(id, leaves)) else old(book)
    {
      hide Maps, LowerBound, Sum;
      var known := FindOrder(id);
      if known.Some? {
        return DuplicateOrderId;
      }
      var count := ActiveOrderCount();
      if count >= limits.activeOrders {
        return CapacityExhausted;
      }
      var m, order := LevelsOf(side), Order(id, leaves);
      ghost var levels := Levels(book, side);
      ghost var p := LowerBound(side, levels, price);
      MapsFind(side, m, levels, price);
      MapsSize(side, m, levels);
      if price !in m {
        if |m| >= limits.levelsPerSide {
          return CapacityExhausted;
        }
        MapsAdd(side, m, levels, Level(price, [order]));
        SetLevels(side, m[price := [order]], InsertOrder(side, levels, price, order));
      } else {
        var current, valid := Aggregate(m[price]);
        if !valid || leaves > U64_MAX - current {
          return CapacityExhausted;
        }
        MapsSet(side, m, levels, p, m[price] + [order]);
        SetLevels(side, m[price := m[price] + [order]], InsertOrder(side, levels, price, order));
      }
      result := Accepted;
    }

    // Commands.

    method AppendStatusEvent(next: InstrumentState, kind: StatusEventKind, reason: StatusReason)
      requires lastEngine < U64_MAX
      modifies this`lastEngine, this`statusOutbox
      ensures View() == AppendStatus(old(View()), next, kind, reason).(phase := phase)
    {
      lastEngine := lastEngine + 1;
      statusOutbox := statusOutbox + [SystemStatus(limits.instrument, phase, next, kind, reason, lastEngine)];
    }

    method HaltClosed()
      requires phase.Active? && |statusOutbox| < limits.statusCapacity && lastEngine < U64_MAX
      modifies this`lastEngine, this`statusOutbox, this`phase
      ensures View() == FailClosed(old(View()))
    {
      if phase != Active || |statusOutbox| >= limits.statusCapacity || lastEngine == U64_MAX {
        assert false;
      }
      AppendStatusEvent(Halted, StateTransition, OutboxFull);
      phase := Halted;
    }

    method MakeReports(aggressor: OrderId, planned: seq<PlannedFill>) returns (reports: seq<ExecutionReport>)
      requires SequencesFit(View(), |planned|)
      ensures reports == Reports(View(), aggressor, planned)
    {
      reports := [];
      var index := 0;
      while index < |planned|
        invariant 0 <= index == |reports| <= |planned|
        invariant reports == Reports(View(), aggressor, planned)[..index]
      {
        var fill := planned[index];
        reports := reports + [ExecutionReport(lastMatch + index + 1, limits.instrument, aggressor, fill.restingOrderId,
                                              fill.restingPrice, fill.quantity, lastEngine + index + 1)];
        index := index + 1;
      }
    }

    /** A copy of the model without the replaced order, matched against the new one. */
    method MatchCandidate(order: LogicalOrder, replaced: Option<OrderId>)
      returns (candidate: ReferenceModel, remainder: Quantity, planned: seq<PlannedFill>, within: bool)
      requires Mapped() && WfBook(book) && IsSide(order.side)
      requires replaced.Some? ==> Has(book, replaced.value)
      ensures fresh(candidate) && candidate.Mapped() && candidate.limits == limits
      ensures candidate.View() == View().(book := MatchedBook(book, order, replaced))
      ensures var t := TakenBy(book, order, replaced);
              remainder == t.remainder && planned == t.planned && within == t.withinCapacity
    {
      hide Maps, WfBook, Take, Has, Erase;
      candidate := new ReferenceModel.Copy(this);
      if replaced.Some? {
        var erased := candidate.EraseOrder(replaced.value);
        if !erased {
          assert false;
        }
      }
      var opposite := Opposite(order.side);
      var left;
      CandidateSide(book, replaced, opposite);
      left, remainder, planned, within := TakeLevels(
        order.side, order.limitPrice, candidate.LevelsOf(opposite), order.quantity, Levels(candidate.book, opposite));
      candidate.SetLevels(opposite, left, TakenBy(book, order, replaced).levels);
    }

    /** Publishes the planned fills and lets the candidate replace the model. */
    method SwapIn(candidate: ReferenceModel, aggressor: OrderId, planned: seq<PlannedFill>)
      returns (reports: seq<ExecutionReport>)
      requires SequencesFit(View(), |planned|) && candidate.Mapped() && candidate != this
      requires candidate.View() == View().(book := candidate.book)
      modifies this, candidate
      ensures Mapped() && reports == Reports(old(View()), aggressor, planned)
      ensures View() == Publish(old(View()), aggressor, planned, old(candidate.book))
    {
      hide Maps;
      reports := MakeReports(aggressor, planned);
      candidate.lastEngine := candidate.lastEngine + |planned|;
      candidate.lastMatch := candidate.lastMatch + |planned|;
      candidate.executionOutbox := candidate.executionOutbox + reports;
      Adopt(candidate);
    }

    /** Works on a copy, which replaces the model or is dropped. */
    method RunAggressive(order: LogicalOrder, replaced: Option<OrderId>) returns (result: StepResult)
      requires Valid() && phase.Active? && ValidOrder(order) && ReplacesOwnSide(book, order.side, replaced)
      requires replaced == Some(order.orderId) || (replaced == None && !Has(book, order.orderId))
      modifies this
      ensures Valid()
      ensures (View(), result) == ExecuteAggressive(old(View()), order, replaced)
    {
      hide Maps, WfState, TakenBy, MatchedBook, UniqueIds, Has, HasRoom, Insert, CountBook;
      ghost var s := View();
      SpaceLeft(s);
      ExecuteKeepsWf(s, order, replaced);
      ExecuteUnique(s, order, replaced);
      var candidate, remainder, planned, within := MatchCandidate(order, replaced);
      if !within {
        return StepResult(CapacityExhausted, lastCommand, []);
      }
      if remainder != 0 {
        var inserted := candidate.AddOrder(order.orderId, order.side, order.limitPrice, remainder);
        if inserted != Accepted {
          return StepResult(inserted, lastCommand, []);
        }
      }
      if |planned| > U64_MAX - lastEngine || |planned| > U64_MAX - lastMatch {
        return StepResult(CapacityExhausted, lastCommand, []);
      }
      if |planned| > limits.executionCapacity - |executionOutbox| {
        HaltClosed();
        return StepResult(LosslessOutboxFull, lastCommand, []);
      }
      var reports := SwapIn(candidate, order.orderId, planned);
      result := StepResult(Accepted, lastCommand, reports);
    }

    method TakeCommand()
      requires lastCommand < U64_MAX
      modifies this`lastCommand
      ensures View() == AcceptCommand(old(View()))
    {
      lastCommand := lastCommand + 1;
    }

    method StepNew(o: NewOrder) returns (result: StepResult)
      requires Valid()
      modifies this
      ensures Valid()
      ensures (View(), result) == Apply(old(View()), New(o))
    {
      hide Maps, Locate, UniqueIds, ExecuteAggressive, WfBook, Uncrossed, CountBook;
      var known := FindOrder(o.orderId);
      if !IsValid(limits.instrument) || o.instrumentId != limits.instrument {
        return Rejected(InvalidInstrument);
      } else if phase == Halted {
        return Rejected(MarketHalted);
      } else if phase != Active {
        return Rejected(InstrumentUnavailable);
      } else if !IsValid(o.orderId) || known.Some? {
        return Rejected(DuplicateOrderId);
      } else if o.side != Buy && o.side != Sell {
        return Rejected(InvalidSide);
      } else if !IsValid(o.limitPrice) {
        return Rejected(InvalidPrice);
      } else if !IsValid(o.quantity) {
        return Rejected(InvalidQuantity);
      } else if lastCommand == U64_MAX {
        return Rejected(CapacityExhausted);
      }
      TakeCommand();
      result := RunAggressive(LogicalNew(o), None);
    }

    method StepCancel(o: CancelOrder) returns (result: StepResult)
      requires Valid()
      modifies this
      ensures Valid()
      ensures (View(), result) == Apply(old(View()), Cancel(o))
    {
      hide Maps, Locate, UniqueIds, Erase, WfState;
      ApplyKeepsWf(View(), Cancel(o));
      ApplyUnique(View(), Cancel(o));
      var known := FindOrder(o.orderId);
      if !IsValid(limits.instrument) || o.instrumentId != limits.instrument {
        return Rejected(InvalidInstrument);
      } else if phase == Closed {
        return Rejected(InstrumentUnavailable);
      } else if !IsValid(o.orderId) || known.None? {
        return Rejected(OrderNotFound);
      } else if lastCommand == U64_MAX {
        return Rejected(CapacityExhausted);
      }
      TakeCommand();
      var erased := EraseOrder(o.orderId);
      if !erased {
        assert false;
      }
      result := StepResult(Accepted, lastCommand, []);
    }

    /** Whether the order's level can take the increase. */
    method IncreaseFits(side: Side, price: PriceTicks, id: OrderId, oldLeaves: Quantity, newLeaves: Quantity)
      returns (fits: bool)
      requires Mapped() && WfBook(book) && Has(book, id)
      requires ViewOf(book, id).value.side == side && ViewOf(book, id).value.price == price
      requires oldLeaves == LeavesOf(book, id) < newLeaves
      ensures fits <==> LeavesFit(book, id, newLeaves)
    {
      hide Maps;
      ghost var at := Locate(book, id).value;
      var m := LevelsOf(side);
      MapsSet(side, m, Levels(book, side), at.level, []);
      var aggregate, valid := Aggregate(m[price]);
      fits := valid && newLeaves - oldLeaves <= U64_MAX - aggregate;
    }

    /** Assigns the leaves; an increase is taken out and put back. */
    method Requantifies(o: AmendOrder, resting: RestingOrderView)
      requires Mapped() && WfState(View()) && UniqueIds(book) && ViewOf(book, o.orderId) == Some(resting)
      requires IsValid(o.newLeaves) && LeavesFit(book, o.orderId, o.newLeaves)
      modifies this`bids, this`asks, this`book
      ensures Mapped() && book == Requantify(old(book), o.orderId, o.newLeaves)
    {
      hide Maps, UniqueIds, Locate, WfBook, Uncrossed, LeavesFit, SetLeaves, Insert, Erase, HasRoom, CountBook, InsertOrder;
      ReinsertFits(View(), o.orderId, o.newLeaves);
      AssignLeaves(o.orderId, o.newLeaves);
      if o.newLeaves > resting.leaves {
        var erased := EraseOrder(o.orderId);
        if !erased {
          assert false;
        }
        var inserted := AddOrder(o.orderId, resting.side, resting.price, o.newLeaves);
        if inserted != Accepted {
          assert false;
        }
      }
    }

    method StepAmend(o: AmendOrder) returns (result: StepResult)
      requires Valid()
      modifies this
      ensures Valid()
      ensures (View(), result) == Apply(old(View()), Amend(o))
    {
      hide Maps, UniqueIds, ExecuteAggressive, WfBook, Uncrossed, CountBook, LeavesFit, Requantify, Locate;
      ApplyKeepsWf(View(), Amend(o));
      ApplyUnique(View(), Amend(o));
      var resting := FindOrder(o.orderId);
      if !IsValid(limits.instrument) || o.instrumentId != limits.instrument {
        return Rejected(InvalidInstrument);
      } else if phase == Halted {
        return Rejected(MarketHalted);
      } else if phase != Active {
        return Rejected(InstrumentUnavailable);
      } else if !IsValid(o.orderId) || resting.None? {
        return Rejected(OrderNotFound);
      } else if !IsValid(o.newPrice) {
        return Rejected(InvalidPrice);
      } else if !IsValid(o.newLeaves) {
        return Rejected(InvalidAmendment);
      } else if lastCommand == U64_MAX {
        return Rejected(CapacityExhausted);
      }
      LeavesSeen(book, o.orderId);
      TakeCommand();
      if o.newPrice != resting.value.price {
        result := RunAggressive(LogicalOrder(o.orderId, resting.value.side, o.newPrice, o.newLeaves), Some(o.orderId));
        return;
      }
      if o.newLeaves > resting.value.leaves {
        var fits := IncreaseFits(resting.value.side, resting.value.price, o.orderId, resting.value.leaves, o.newLeaves);
        if !fits {
          return StepResult(CapacityExhausted, lastCommand, []);
        }
      } else {
        ReductionFits(book, o.orderId, o.newLeaves);
      }
      Requantifies(o, resting.value);
      result := StepResult(Accepted, lastCommand, []);
    }

    /** The transition of the table, as the chain of conditions spells it. */
    method TransitionFor(k: LifecycleKind) returns (t: Option<Transition>)
      ensures t == TransitionOf(phase, k)
    {
      var next, kind, reason, reset, preserveHeadroom := Active, StateTransition, TradingHalt, false, false;
      if k == Halt && phase == Active {
        next, reason := Halted, TradingHalt;
      } else if k == Resume && phase == Halted {
        next, reason, preserveHeadroom := Active, TradingResume, true;
      } else if k == Close && (phase == Active || phase == Halted) {
        next, kind, reason, reset := Closed, Reset, EndOfDay, true;
      } else if k == Open && phase == Closed {
        next, reason, preserveHeadroom := Active, SessionOpen, true;
      } else {
        return None;
      }
      t := Some(Transition(next, kind, reason, reset, preserveHeadroom));
    }

    method PassTransition(t: Transition) returns (result: OrderBookResult)
      requires Mapped() && |statusOutbox| <= limits.statusCapacity
      modifies this
      ensures Mapped()
      ensures (View(), result) == CommitTransition(old(View()), t)
    {
      hide Maps;
      MapsEmpty();
      var required := if t.preserveHeadroom then 2 else 1;
      if limits.statusCapacity - |statusOutbox| < required {
        return StatusOutboxFull;
      }
      if lastEngine == U64_MAX {
        return CapacityExhausted;
      }
      AppendStatusEvent(t.next, t.kind, t.reason);
      phase := t.next;
      if t.reset {
        bids, asks := map[], map[];
        book := EMPTY;
      }
      result := Accepted;
    }

    method StepLifecycle(c: LifecycleCommand) returns (result: StepResult)
      requires Valid()
      modifies this
      ensures Valid()
      ensures (View(), result) == Apply(old(View()), Lifecycle(c))
    {
      hide Maps, UniqueIds, WfState, TransitionOf, CommitTransition;
      ApplyKeepsWf(View(), Lifecycle(c));
      ApplyUnique(View(), Lifecycle(c));
      SpaceLeft(View());
      if !IsValid(limits.instrument) || c.instrumentId != limits.instrument {
        return Rejected(InvalidInstrument);
      }
      var transition := TransitionFor(c.kind);
      if transition.None? {
        return Rejected(InvalidStateTransition);
      }
      if lastCommand == U64_MAX {
        return Rejected(CapacityExhausted);
      }
      TakeCommand();
      var passed := PassTransition(transition.value);
      result := StepResult(passed, lastCommand, []);
    }

    method Step(c: Command) returns (result: StepResult)
      requires Valid()
      modifies this
      ensures Valid()
      ensures (View(), result) == Apply(old(View()), c)
    {
      hide Valid, ApplyNew, ApplyCancel, ApplyAmend, ApplyLifecycle;
      match c
      case New(o) => result := StepNew(o);
      case Cancel(o) => result := StepCancel(o);
      case Amend(o) => result := StepAmend(o);
      case Lifecycle(l) => result := StepLifecycle(l);
    }

    /** The orders of a level are valid, with IDs not met before. */
    method ValidateOrders(side: Side, price: PriceTicks, orders: seq<Order>, ids: set<OrderId>,
                          ghost done: seq<RestingOrderView>, ghost more: seq<RestingOrderView>)
      returns (ok: bool, met: set<OrderId>)
      requires DistinctIds(done + (FlatOrders(side, price, orders) + more)) && ids == Seen(done)
      requires forall j :: 0 <= j < |orders| ==> IsValid(orders[j].id) && IsValid(orders[j].leaves)
      ensures ok && met == Seen(done + FlatOrders(side, price, orders))
    {
      hide DistinctIds, Seen;
      ghost var all, whole := done + (FlatOrders(side, price, orders) + more), FlatOrders(side, price, orders);
      ok, met := true, ids;
      assert done + whole[..0] == done;
      var index := 0;
      while index < |orders| && ok
        invariant ok && 0 <= index <= |orders| && met == Seen(done + whole[..index])
      {
        ghost var seen, behind := done + whole[..index], whole[index + 1..] + more;
        assert all == seen + ([whole[index]] + behind);
        assert seen + [whole[index]] == done + whole[..index + 1];
        SeenNext(seen, whole[index], behind);
        ok := IsValid(orders[index].id) && IsValid(orders[index].leaves) && orders[index].id !in met;
        met := met + {orders[index].id};
        index := index + 1;
      }
      assert whole[..index] == whole;
    }

    /** The levels of a side hold valid orders with IDs not met before. */
    method ValidateSide(side: Side, ids: set<OrderId>, ghost done: seq<RestingOrderView>, ghost rest: seq<RestingOrderView>)
      returns (ok: bool, met: set<OrderId>)
      requires Mapped() && IsSide(side) && WfSide(side, Levels(book, side))
      requires DistinctIds(done + (Flat(side, Levels(book, side)) + rest)) && ids == Seen(done)
      ensures ok && met == Seen(done + Flat(side, Levels(book, side)))
    {
      hide Maps, WfSide, Sum, Flat, FlatOrders, DistinctIds, Seen;
      ghost var levels, seen, k := Levels(book, side), done, 0;
      ghost var all := done + (Flat(side, levels) + rest);
      ok, met := true, ids;
      var left := LevelsOf(side);
      assert levels[0..] == levels;
      while left != map[] && ok
        invariant ok && 0 <= k <= |levels| && Maps(side, left, levels[k..])
        invariant seen + Flat(side, levels[k..]) == done + Flat(side, levels)
        invariant seen + (Flat(side, levels[k..]) + rest) == all && met == Seen(seen)
        decreases |levels| - k
      {
        var price := Begin(side, left, levels[k..]);
        LevelFits(side, levels, k);
        var orders := left[price];
        var total, valid := Aggregate(orders);
        ghost var here, behind := FlatOrders(side, price, orders), Flat(side, levels[k + 1..]);
        FlatCons(side, levels, k);
        assert levels[k].orders[0..] == orders;
        assert here + behind + rest == here + (behind + rest);
        var fine;
        fine, met := ValidateOrders(side, price, orders, met, seen, behind + rest);
        assert seen + (here + behind) == seen + here + behind;
        assert seen + (here + (behind + rest)) == seen + here + (behind + rest);
        seen := seen + here;
        ok := IsValid(price) && orders != [] && valid && fine;
        MapsRest(side, left, levels, k);
        left := left - {price};
        k := k + 1;
      }
      MapsNone(side, levels, k);
      FlatEnd(side, levels);
      assert seen + Flat(side, levels[k..]) == seen;
    }

    /** The model's own check passes whenever no command is under way. */
    method ValidateInvariants() returns (ok: bool)
      requires Valid()
      ensures ok
    {
      hide Maps, UniqueIds, WfSide, DistinctIds;
      AllViewsDiffer(book);
      MapsSize(Buy, bids, book.bids);
      MapsSize(Sell, asks, book.asks);
      MapsBeginAll(bids, asks, book);
      var count := ActiveOrderCount();
      ok := count <= limits.activeOrders && |bids| <= limits.levelsPerSide && |asks| <= limits.levelsPerSide
            && |executionOutbox| <= limits.executionCapacity && |statusOutbox| <= limits.statusCapacity
            && (phase == Active ==> |statusOutbox| != limits.statusCapacity) && (phase == Closed ==> count == 0);
      if bids != map[] && asks != map[] && phase == Active {
        var bid := Begin(Buy, bids, book.bids);
        var ask := Begin(Sell, asks, book.asks);
        ok := ok && bid < ask;
      }
      ghost var bidViews, askViews := Flat(Buy, book.bids), Flat(Sell, book.asks);
      assert [] + (bidViews + askViews) == bidViews + askViews;
      assert [] + bidViews == bidViews && askViews + [] == askViews;
      var bidsFine, met := ValidateSide(Buy, {}, [], askViews);
      var asksFine, allMet := ValidateSide(Sell, met, bidViews, []);
      ok := ok && bidsFine && asksFine;
    }

    /** The levels of a side, and their orders, in priority order. */
    method ObserveSide(side: Side) returns (depth: seq<DepthEntry>, orders: seq<RestingOrderView>)
      requires Mapped() && IsSide(side) && Summable(Levels(book, side))
      ensures depth == DepthOf(Levels(book, side)) && orders == Flat(side, Levels(book, side))
    {
      hide Maps, Sum;
      ghost var levels := Levels(book, side);
      depth, orders := [], [];
      var left := LevelsOf(side);
      assert levels[0..] == levels;
      while left != map[]
        invariant |depth| <= |levels| && Maps(side, left, levels[|depth|..])
        invariant depth == DepthOf(levels)[..|depth|]
        invariant orders + Flat(side, levels[|depth|..]) == Flat(side, levels)
        decreases |levels| - |depth|
      {
        ghost var k := |depth|;
        var price := Begin(side, left, levels[k..]);
        var level := left[price];
        var total, valid := Aggregate(level);
        if !valid {
          assert false;
        }
        assert levels[k..][1..] == levels[k + 1..];
        MapsRest(side, left, levels, k);
        depth := depth + [DepthEntry(price, total, |level|)];
        var here := ViewsOf(side, price, level);
        orders := orders + here;
        left := left - {price};
      }
      MapsNone(side, levels, |depth|);
    }

    method ViewsOf(side: Side, price: PriceTicks, level: seq<Order>) returns (views: seq<RestingOrderView>)
      ensures views == FlatOrders(side, price, level)
    {
      views := [];
      var index := 0;
      while index < |level|
        invariant 0 <= index == |views| <= |level|
        invariant views == FlatOrders(side, price, level)[..index]
      {
        views := views + [RestingOrderView(level[index].id, side, price, level[index].leaves)];
        index := index + 1;
      }
    }

    method ObservableStateNow() returns (r: ObservableState)
      requires Valid()
      ensures WfBook(book) && r == Observe(View())
    {
      hide Maps, UniqueIds;
      AllSummable(book);
      var count := ActiveOrderCount();
      var bidDepth, bidOrders := ObserveSide(Buy);
      var askDepth, askOrders := ObserveSide(Sell);
      MapsBeginAll(bids, asks, book);
      var bestBid, bestAsk := None, None;
      if bids != map[] {
        var price := Begin(Buy, bids, book.bids);
        bestBid := Some(price);
      }
      if asks != map[] {
        var price := Begin(Sell, asks, book.asks);
        bestAsk := Some(price);
      }
      MapsSize(Buy, bids, book.bids);
      MapsSize(Sell, asks, book.asks);
      r := ObservableState(phase, lastCommand, lastEngine, lastMatch, count, |bids|, |asks|, bestBid, bestAsk,
                           bidDepth, askDepth, bidOrders, askOrders);
    }

    method DrainExecutionReports() returns (drained: seq<ExecutionReport>)
      requires Valid()
      modifies this`executionOutbox
      ensures Valid() && drained == old(View()).reports && View() == old(View()).(reports := [])
    {
      drained := executionOutbox;
      executionOutbox := [];
    }

    method DrainStatuses() returns (drained: seq<SystemStatus>)
      requires Valid()
      modifies this`statusOutbox
      ensures Valid() && drained == old(View()).statuses && View() == old(View()).(statuses := [])
    {
      drained := statusOutbox;
      statusOutbox := [];
    }
  }
}
