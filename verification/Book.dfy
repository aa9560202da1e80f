/**
  The book as its users see it: per side, price levels in priority order, each
  holding its orders first in, first out.
 */
module Book {
  import opened Domain

  datatype Order = Order(id: OrderId, leaves: Quantity)

  datatype Level = Level(price: PriceTicks, orders: seq<Order>)

  datatype Book = Book(bids: seq<Level>, asks: seq<Level>)

  datatype RestingOrderView = RestingOrderView(
    orderId: OrderId,
    side: Side,
    price: PriceTicks,
    leaves: Quantity)

  datatype DepthEntry = DepthEntry(price: PriceTicks, aggregate: Quantity, orderCount: nat)

  const EMPTY := Book([], [])

  function Levels(book: Book, side: Side): seq<Level> {
    if side.Buy? then book.bids else book.asks
  }

  /** A side that is neither has no levels. */
  function SideLevels(book: Book, side: Side): seq<Level> {
    if IsSide(side) then Levels(book, side) else []
  }

  function WithLevels(book: Book, side: Side, levels: seq<Level>): Book {
    if side.Buy? then book.(bids := levels) else book.(asks := levels)
  }

  function Opposite(side: Side): Side {
    if side.Buy? then Sell else Buy
  }

  /** Bids are ranked by descending price, asks by ascending price. */
  predicate Before(side: Side, p: PriceTicks, q: PriceTicks) {
    if side.Buy? then p > q else p < q
  }

  function Sum(orders: seq<Order>): nat {
    if orders == [] then 0 else orders[0].leaves + Sum(orders[1..])
  }

  ghost predicate WfLevel(level: Level) {
    && IsValid(level.price)
    && level.orders != []
    && Sum(level.orders) <= U64_MAX
    && forall j :: 0 <= j < |level.orders| ==> IsValid(level.orders[j].id) && IsValid(level.orders[j].leaves)
  }

  ghost predicate Sorted(side: Side, levels: seq<Level>) {
    forall i, j :: 0 <= i < j < |levels| ==> Before(side, levels[i].price, levels[j].price)
  }

  ghost predicate WfSide(side: Side, levels: seq<Level>) {
    && Sorted(side, levels)
    && forall i :: 0 <= i < |levels| ==> WfLevel(levels[i])
  }

  ghost predicate WfBook(book: Book) {
    WfSide(Buy, book.bids) && WfSide(Sell, book.asks)
  }

  /** The sequence with v put before position p. */
  function Opened<T>(s: seq<T>, p: nat, v: T): seq<T>
    requires p <= |s|
  {
    s[..p] + [v] + s[p..]
  }

  /** How many levels rank before price: where price is, or would be put. */
  function LowerBound(side: Side, levels: seq<Level>, price: PriceTicks): (r: nat)
    ensures r <= |levels|
  {
    if levels == [] || !Before(side, levels[0].price, price) then 0
    else 1 + LowerBound(side, levels[1..], price)
  }

  predicate HasLevel(side: Side, levels: seq<Level>, price: PriceTicks) {
    var p := LowerBound(side, levels, price);
    p < |levels| && levels[p].price == price
  }

  /** Appends to the level of that price, creating it when it is missing. */
  function InsertOrder(side: Side, levels: seq<Level>, price: PriceTicks, order: Order): seq<Level> {
    var p := LowerBound(side, levels, price);
    if HasLevel(side, levels, price) then
      levels[p := Level(price, levels[p].orders + [order])]
    else
      Opened(levels, p, Level(price, [order]))
  }

  /** Whether an order fits into the level of that price, or a level can be made for it. */
  predicate HasRoom(side: Side, levels: seq<Level>, price: PriceTicks, leaves: Quantity, levelCapacity: nat) {
    if HasLevel(side, levels, price) then
      Sum(levels[LowerBound(side, levels, price)].orders) + leaves <= U64_MAX
    else
      |levels| < levelCapacity
  }

  function Without<T>(s: seq<T>, j: nat): seq<T>
    requires j < |s|
  {
    s[..j] + s[j + 1..]
  }

  ghost predicate InRange(levels: seq<Level>, i: nat, j: nat) {
    i < |levels| && j < |levels[i].orders|
  }

  /** Takes an order out; a level that becomes empty goes with it. */
  function EraseAt(levels: seq<Level>, i: nat, j: nat): seq<Level>
    requires InRange(levels, i, j)
  {
    if |levels[i].orders| == 1 then Without(levels, i)
    else levels[i := levels[i].(orders := Without(levels[i].orders, j))]
  }

  function SetLeavesAt(levels: seq<Level>, i: nat, j: nat, leaves: Quantity): seq<Level>
    requires InRange(levels, i, j)
  {
    levels[i := levels[i].(orders := levels[i].orders[j := levels[i].orders[j].(leaves := leaves)])]
  }

  function MoveToBackAt(levels: seq<Level>, i: nat, j: nat): seq<Level>
    requires InRange(levels, i, j)
  {
    levels[i := levels[i].(orders := Without(levels[i].orders, j) + [levels[i].orders[j]])]
  }

  /** A place in the book. */
  datatype Location = Location(side: Side, level: nat, index: nat)

  ghost predicate In(book: Book, at: Location) {
    IsSide(at.side) && InRange(Levels(book, at.side), at.level, at.index)
  }

  function OrderAt(book: Book, at: Location): Order
    requires In(book, at)
  {
    Levels(book, at.side)[at.level].orders[at.index]
  }

  function PriceAt(book: Book, at: Location): PriceTicks
    requires In(book, at)
  {
    Levels(book, at.side)[at.level].price
  }

  ghost predicate Holds(book: Book, at: Location, id: OrderId) {
    In(book, at) && OrderAt(book, at).id == id
  }

  ghost predicate UniqueIds(book: Book) {
    forall a, b, id :: Holds(book, a, id) && Holds(book, b, id) ==> a == b
  }

  /** The first position of the id in a level, searching front to back. */
  function FindIn(orders: seq<Order>, id: OrderId): (r: Option<nat>)
    ensures r.Some? ==> r.value < |orders| && orders[r.value].id == id
    ensures r.None? ==> forall j :: 0 <= j < |orders| ==> orders[j].id != id
  {
    if orders == [] then None
    else if orders[0].id == id then Some(0)
    else
      match FindIn(orders[1..], id)
      case Some(j) => Some(j + 1)
      case None => None
  }

  function FindInLevels(levels: seq<Level>, id: OrderId): (r: Option<(nat, nat)>)
    ensures r.Some? ==> InRange(levels, r.value.0, r.value.1) && levels[r.value.0].orders[r.value.1].id == id
    ensures r.None? ==> forall i: nat, j: nat :: InRange(levels, i, j) ==> levels[i].orders[j].id != id
  {
    if levels == [] then None
    else
      match FindIn(levels[0].orders, id)
      case Some(j) => Some((0, j))
      case None =>
        match FindInLevels(levels[1..], id)
        case Some(p) => Some((p.0 + 1, p.1))
        case None => (
          assert forall i: nat, j: nat :: InRange(levels, i, j) && i > 0 ==>
            levels[i] == levels[1..][i - 1] && InRange(levels[1..], i - 1, j);
          None)
  }

  /** Scans the bids, then the asks. */
  function Locate(book: Book, id: OrderId): (r: Option<Location>)
    ensures r.Some? ==> Holds(book, r.value, id)
    ensures r.None? ==> forall at :: !Holds(book, at, id)
  {
    match FindInLevels(book.bids, id)
    case Some(p) => Some(Location(Buy, p.0, p.1))
    case None =>
      match FindInLevels(book.asks, id)
      case Some(p) => Some(Location(Sell, p.0, p.1))
      case None => None
  }

  lemma LocateUnique(book: Book, at: Location, id: OrderId)
    requires UniqueIds(book) && Holds(book, at, id)
    ensures Locate(book, id) == Some(at)
  {
  }

  function ViewAt(book: Book, at: Location): RestingOrderView
    requires In(book, at)
  {
    RestingOrderView(OrderAt(book, at).id, at.side, PriceAt(book, at), OrderAt(book, at).leaves)
  }

  function FlatOrders(side: Side, price: PriceTicks, orders: seq<Order>): (r: seq<RestingOrderView>)
    ensures |r| == |orders|
    ensures forall j :: 0 <= j < |r| ==> r[j] == RestingOrderView(orders[j].id, side, price, orders[j].leaves)
  {
    seq(|orders|, j requires 0 <= j < |orders| => RestingOrderView(orders[j].id, side, price, orders[j].leaves))
  }

  /** All resting orders of a side in priority order: by price, then first in first out. */
  function Flat(side: Side, levels: seq<Level>): seq<RestingOrderView> {
    if levels == [] then [] else FlatOrders(side, levels[0].price, levels[0].orders) + Flat(side, levels[1..])
  }

  /** A fold over the views that ends when the visitor returns false. */
  function FoldUntil<A>(visitor: (A, RestingOrderView) -> (A, bool), acc: A, views: seq<RestingOrderView>): A {
    if views == [] then acc
    else
      var (next, more) := visitor(acc, views[0]);
      if more then FoldUntil(visitor, next, views[1..]) else next
  }

  function ViewOf(book: Book, id: OrderId): Option<RestingOrderView> {
    match Locate(book, id)
    case Some(at) => Some(ViewAt(book, at))
    case None => None
  }

  // The book's operations by order ID.

  function Insert(book: Book, side: Side, price: PriceTicks, order: Order): Book {
    WithLevels(book, side, InsertOrder(side, Levels(book, side), price, order))
  }

  function Erase(book: Book, id: OrderId): Book {
    match Locate(book, id)
    case Some(at) => WithLevels(book, at.side, EraseAt(Levels(book, at.side), at.level, at.index))
    case None => book
  }

  function SetLeaves(book: Book, id: OrderId, leaves: Quantity): Book {
    match Locate(book, id)
    case Some(at) => WithLevels(book, at.side, SetLeavesAt(Levels(book, at.side), at.level, at.index, leaves))
    case None => book
  }

  /** Takes an executed quantity off an order, and the order out when none is left. */
  function Reduce(book: Book, id: OrderId, reduction: Quantity): Book {
    match Locate(book, id)
    case Some(at) =>
      var leaves := OrderAt(book, at).leaves;
      if reduction >= leaves then Erase(book, id) else SetLeaves(book, id, leaves - reduction)
    case None => book
  }

  function MoveToBack(book: Book, id: OrderId): Book {
    match Locate(book, id)
    case Some(at) => WithLevels(book, at.side, MoveToBackAt(Levels(book, at.side), at.level, at.index))
    case None => book
  }

  predicate Has(book: Book, id: OrderId) {
    Locate(book, id).Some?
  }

  /** Remaining leaves of an order; zero when there is no such order. */
  function LeavesOf(book: Book, id: OrderId): Quantity {
    match Locate(book, id)
    case Some(at) => OrderAt(book, at).leaves
    case None => 0
  }

  function RemoveStatus(book: Book, id: OrderId): OrderBookResult {
    if Has(book, id) then Accepted else OrderNotFound
  }

  function ReduceStatus(book: Book, id: OrderId, reduction: Quantity): OrderBookResult {
    if !Has(book, id) then OrderNotFound
    else if !IsValid(reduction) || reduction > LeavesOf(book, id) then InvalidQuantity
    else Accepted
  }

  /** Whether the order's level can carry the new leaves. */
  predicate LeavesFit(book: Book, id: OrderId, leaves: Quantity) {
    match Locate(book, id)
    case Some(at) =>
      Sum(Levels(book, at.side)[at.level].orders) - OrderAt(book, at).leaves + leaves <= U64_MAX
    case None => true
  }

  function UpdateStatus(book: Book, id: OrderId, leaves: Quantity): OrderBookResult {
    if !Has(book, id) then OrderNotFound
    else if !IsValid(leaves) then InvalidQuantity
    else if !LeavesFit(book, id, leaves) then CapacityExhausted
    else Accepted
  }

  function Count(levels: seq<Level>): nat {
    if levels == [] then 0 else |levels[0].orders| + Count(levels[1..])
  }

  function CountBook(book: Book): nat {
    Count(book.bids) + Count(book.asks)
  }

  function Total(levels: seq<Level>): nat {
    if levels == [] then 0 else Sum(levels[0].orders) + Total(levels[1..])
  }

  function TotalBook(book: Book): nat {
    Total(book.bids) + Total(book.asks)
  }

  /** Every bid is priced strictly below every ask. */
  ghost predicate Uncrossed(book: Book) {
    book.bids != [] && book.asks != [] ==> book.bids[0].price < book.asks[0].price
  }

  /** One entry for each level, with its total and its number of orders. */
  ghost predicate IsDepth(entries: seq<DepthEntry>, levels: seq<Level>) {
    && |entries| == |levels|
    && forall i :: 0 <= i < |entries| ==>
         && entries[i].price == levels[i].price
         && entries[i].aggregate == Sum(levels[i].orders)
         && entries[i].orderCount == |levels[i].orders|
  }

  // Lemmas.

  lemma {:induction false} LowerBoundSplits(side: Side, levels: seq<Level>, price: PriceTicks)
    requires Sorted(side, levels)
    ensures var p := LowerBound(side, levels, price);
            && (forall i :: 0 <= i < p ==> Before(side, levels[i].price, price))
            && (forall i :: p <= i < |levels| ==> !Before(side, levels[i].price, price))
  {
    if levels == [] || !Before(side, levels[0].price, price) {
    } else {
      LowerBoundSplits(side, levels[1..], price);
    }
  }

  /** The split point is unique, so binary search finds the same position. */
  lemma LowerBoundUnique(side: Side, levels: seq<Level>, price: PriceTicks, p: nat)
    requires Sorted(side, levels) && p <= |levels|
    requires forall i :: 0 <= i < p ==> Before(side, levels[i].price, price)
    requires forall i :: p <= i < |levels| ==> !Before(side, levels[i].price, price)
    ensures LowerBound(side, levels, price) == p
  {
    LowerBoundSplits(side, levels, price);
    var q := LowerBound(side, levels, price);
    assert p < |levels| ==> (Before(side, levels[p].price, price) <==> p < q);
    assert q < |levels| ==> (Before(side, levels[q].price, price) <==> q < p);
  }

  lemma {:induction false} SumConcat(a: seq<Order>, b: seq<Order>)
    ensures Sum(a + b) == Sum(a) + Sum(b)
  {
    if a == [] {
      assert a + b == b;
    } else {
      SumConcat(a[1..], b);
      assert (a + b)[1..] == a[1..] + b;
    }
  }

  lemma SumWithout(orders: seq<Order>, j: nat)
    requires j < |orders|
    ensures Sum(Without(orders, j)) == Sum(orders) - orders[j].leaves
  {
    if j == 0 {
      assert Without(orders, 0) == orders[1..];
    } else {
      SumWithout(orders[1..], j - 1);
      assert Without(orders, j)[1..] == Without(orders[1..], j - 1);
    }
  }

  lemma SumSet(orders: seq<Order>, j: nat, leaves: Quantity)
    requires j < |orders|
    ensures Sum(orders[j := orders[j].(leaves := leaves)]) == Sum(orders) - orders[j].leaves + leaves
  {
    var changed := orders[j := orders[j].(leaves := leaves)];
    assert Without(changed, j) == Without(orders, j);
    SumWithout(orders, j);
    SumWithout(changed, j);
  }

  lemma {:induction false} CountConcat(a: seq<Level>, b: seq<Level>)
    ensures Count(a + b) == Count(a) + Count(b)
    ensures Total(a + b) == Total(a) + Total(b)
  {
    if a == [] {
      assert a + b == b;
    } else {
      CountConcat(a[1..], b);
      assert (a + b)[1..] == a[1..] + b;
    }
  }

  /** Replacing one level changes the counts by that level's difference. */
  lemma CountUpdate(levels: seq<Level>, i: nat, level: Level)
    requires i < |levels|
    ensures Count(levels[i := level]) == Count(levels) - |levels[i].orders| + |level.orders|
    ensures Total(levels[i := level]) == Total(levels) - Sum(levels[i].orders) + Sum(level.orders)
  {
    assert levels == levels[..i] + ([levels[i]] + levels[i + 1..]);
    assert levels[i := level] == levels[..i] + ([level] + levels[i + 1..]);
    CountConcat(levels[..i], [levels[i]] + levels[i + 1..]);
    CountConcat(levels[..i], [level] + levels[i + 1..]);
  }

  lemma CountErase(levels: seq<Level>, i: nat, j: nat)
    requires InRange(levels, i, j)
    ensures Count(EraseAt(levels, i, j)) == Count(levels) - 1
    ensures Total(EraseAt(levels, i, j)) == Total(levels) - levels[i].orders[j].leaves
  {
    SumWithout(levels[i].orders, j);
    if |levels[i].orders| == 1 {
      assert levels == levels[..i] + ([levels[i]] + levels[i + 1..]);
      CountConcat(levels[..i], [levels[i]] + levels[i + 1..]);
      CountConcat(levels[..i], levels[i + 1..]);
    } else {
      CountUpdate(levels, i, levels[i].(orders := Without(levels[i].orders, j)));
    }
  }

  lemma CountInsert(side: Side, levels: seq<Level>, price: PriceTicks, order: Order)
    ensures Count(InsertOrder(side, levels, price, order)) == Count(levels) + 1
    ensures Total(InsertOrder(side, levels, price, order)) == Total(levels) + order.leaves
  {
    var p := LowerBound(side, levels, price);
    if HasLevel(side, levels, price) {
      SumConcat(levels[p].orders, [order]);
      CountUpdate(levels, p, Level(price, levels[p].orders + [order]));
    } else {
      assert levels == levels[..p] + levels[p..];
      CountConcat(levels[..p], levels[p..]);
      var added := [Level(price, [order])];
      assert Sum(added[0].orders) == order.leaves;
      CountConcat(levels[..p], added);
      CountConcat(levels[..p] + added, levels[p..]);
    }
  }

  // Well-formedness of changed levels and sides.

  lemma WfReplace(side: Side, levels: seq<Level>, i: nat, level': Level)
    requires WfSide(side, levels) && i < |levels|
    requires WfLevel(level') && level'.price == levels[i].price
    ensures WfSide(side, levels[i := level'])
  {
  }

  lemma WfSetLeaves(level: Level, j: nat, leaves: Quantity)
    requires WfLevel(level) && j < |level.orders| && IsValid(leaves)
    requires Sum(level.orders) - level.orders[j].leaves + leaves <= U64_MAX
    ensures WfLevel(level.(orders := level.orders[j := level.orders[j].(leaves := leaves)]))
    ensures Sum(level.orders[j := level.orders[j].(leaves := leaves)]) ==
            Sum(level.orders) - level.orders[j].leaves + leaves
  {
    SumSet(level.orders, j, leaves);
  }

  lemma WfRequeue(level: Level, j: nat)
    requires WfLevel(level) && j < |level.orders|
    ensures WfLevel(level.(orders := Without(level.orders, j) + [level.orders[j]]))
    ensures Sum(Without(level.orders, j) + [level.orders[j]]) == Sum(level.orders)
  {
    SumWithout(level.orders, j);
    SumConcat(Without(level.orders, j), [level.orders[j]]);
    assert Sum([level.orders[j]]) == level.orders[j].leaves;
  }

  lemma WfWithout(level: Level, j: nat)
    requires WfLevel(level) && j < |level.orders|
    ensures Sum(Without(level.orders, j)) == Sum(level.orders) - level.orders[j].leaves
    ensures Sum(level.orders) == level.orders[j].leaves <==> |level.orders| == 1
    ensures |level.orders| > 1 ==> WfLevel(level.(orders := Without(level.orders, j)))
  {
    SumWithout(level.orders, j);
    if |level.orders| > 1 {
      assert IsValid(Without(level.orders, j)[0].leaves);
    } else {
      assert Without(level.orders, j) == [];
    }
  }

  lemma WfRemove(side: Side, levels: seq<Level>, i: nat)
    requires WfSide(side, levels) && i < |levels|
    ensures WfSide(side, Without(levels, i))
  {
  }

  lemma WfAppend(level: Level, o: Order)
    requires WfLevel(level) && IsValid(o.id) && IsValid(o.leaves)
    requires Sum(level.orders) + o.leaves <= U64_MAX
    ensures WfLevel(level.(orders := level.orders + [o]))
    ensures Sum(level.orders + [o]) == Sum(level.orders) + o.leaves
  {
    SumConcat(level.orders, [o]);
    assert Sum([o]) == o.leaves;
  }

  lemma WfInsert(side: Side, levels: seq<Level>, p: nat, level: Level)
    requires WfSide(side, levels) && p <= |levels| && WfLevel(level)
    requires forall i :: 0 <= i < p ==> Before(side, levels[i].price, level.price)
    requires forall i :: p <= i < |levels| ==> Before(side, level.price, levels[i].price)
    ensures WfSide(side, Opened(levels, p, level))
  {
  }

  lemma SingleLevel(price: PriceTicks, o: Order)
    requires IsValid(price) && IsValid(o.id) && IsValid(o.leaves)
    ensures Sum([o]) == o.leaves && WfLevel(Level(price, [o]))
  {
  }

  lemma PriceFound(side: Side, levels: seq<Level>, i: nat)
    requires Sorted(side, levels) && i < |levels|
    ensures LowerBound(side, levels, levels[i].price) == i
  {
    LowerBoundUnique(side, levels, levels[i].price, i);
  }

  /** When binary search does not find the price, it is strictly between its neighbours. */
  lemma PriceMissing(side: Side, levels: seq<Level>, price: PriceTicks)
    requires Sorted(side, levels) && IsSide(side) && !HasLevel(side, levels, price)
    ensures var p := LowerBound(side, levels, price);
            forall i :: p <= i < |levels| ==> Before(side, price, levels[i].price)
    ensures forall i :: 0 <= i < |levels| ==> levels[i].price != price
  {
    LowerBoundSplits(side, levels, price);
    var p := LowerBound(side, levels, price);
    assert p < |levels| ==> Before(side, price, levels[p].price);
  }

  lemma EraseAtWf(side: Side, levels: seq<Level>, i: nat, j: nat)
    requires WfSide(side, levels) && InRange(levels, i, j)
    ensures WfSide(side, EraseAt(levels, i, j))
  {
    assert WfLevel(levels[i]);
    WfWithout(levels[i], j);
    if |levels[i].orders| == 1 {
      WfRemove(side, levels, i);
    } else {
      WfReplace(side, levels, i, levels[i].(orders := Without(levels[i].orders, j)));
    }
  }

  lemma SetLeavesAtWf(side: Side, levels: seq<Level>, i: nat, j: nat, leaves: Quantity)
    requires WfSide(side, levels) && InRange(levels, i, j) && IsValid(leaves)
    requires Sum(levels[i].orders) - levels[i].orders[j].leaves + leaves <= U64_MAX
    ensures WfSide(side, SetLeavesAt(levels, i, j, leaves))
  {
    assert WfLevel(levels[i]);
    WfSetLeaves(levels[i], j, leaves);
    WfReplace(side, levels, i, levels[i].(orders := levels[i].orders[j := levels[i].orders[j].(leaves := leaves)]));
  }

  lemma InsertOrderWf(side: Side, levels: seq<Level>, price: PriceTicks, o: Order, levelCapacity: nat)
    requires WfSide(side, levels) && IsSide(side)
    requires IsValid(price) && IsValid(o.id) && IsValid(o.leaves)
    requires HasRoom(side, levels, price, o.leaves, levelCapacity)
    ensures WfSide(side, InsertOrder(side, levels, price, o))
  {
    var p := LowerBound(side, levels, price);
    if HasLevel(side, levels, price) {
      assert WfLevel(levels[p]);
      WfAppend(levels[p], o);
      WfReplace(side, levels, p, Level(price, levels[p].orders + [o]));
    } else {
      LowerBoundSplits(side, levels, price);
      PriceMissing(side, levels, price);
      SingleLevel(price, o);
      WfInsert(side, levels, p, Level(price, [o]));
    }
  }

  // Walking a side in priority order.

  lemma FlatCons(side: Side, levels: seq<Level>, i: nat)
    requires i < |levels|
    ensures Flat(side, levels[i..]) ==
            FlatOrders(side, levels[i].price, levels[i].orders[0..]) + Flat(side, levels[i + 1..])
  {
  }

  lemma FlatStep(side: Side, price: PriceTicks, queue: seq<Order>, j: nat, rest: seq<RestingOrderView>)
    requires j < |queue|
    ensures var views := FlatOrders(side, price, queue[j..]) + rest;
            && views != []
            && views[0] == RestingOrderView(queue[j].id, side, price, queue[j].leaves)
            && views[1..] == FlatOrders(side, price, queue[j + 1..]) + rest
  {
  }

  lemma FlatDone(side: Side, price: PriceTicks, queue: seq<Order>, rest: seq<RestingOrderView>)
    ensures FlatOrders(side, price, queue[|queue|..]) + rest == rest
  {
  }

  lemma FlatEnd(side: Side, levels: seq<Level>)
    ensures Flat(side, levels[|levels|..]) == []
  {
  }
}
