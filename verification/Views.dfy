/**
  A side of the book as the sequence of its orders' views, and what each change
  of the levels does to that sequence. Comparisons of prices are written out
  for buyers and sellers.
 */
module Views {
  import opened Domain
  import opened Book
  import opened Reference
  import opened Matching

  function SumOf(views: seq<RestingOrderView>): nat {
    if views == [] then 0 else views[0].leaves + SumOf(views[1..])
  }

  /** The views that satisfy a condition, in order. */
  function Select(keep: RestingOrderView -> bool, views: seq<RestingOrderView>): seq<RestingOrderView> {
    if views == [] then []
    else (if keep(views[0]) then [views[0]] else []) + Select(keep, views[1..])
  }

  function NotOf(id: OrderId): RestingOrderView -> bool {
    (v: RestingOrderView) => v.orderId != id
  }

  function AtPrice(price: PriceTicks): RestingOrderView -> bool {
    (v: RestingOrderView) => v.price == price
  }

  /** A resting order a buyer at that limit would pay for, or a seller sell to. */
  function WithinLimit(side: Side, limit: PriceTicks): RestingOrderView -> bool {
    (v: RestingOrderView) => if side.Buy? then v.price <= limit else v.price >= limit
  }

  /** All orders of a side but one. */
  function Others(views: seq<RestingOrderView>, id: OrderId): seq<RestingOrderView> {
    Select(NotOf(id), views)
  }

  function PricesOf(views: seq<RestingOrderView>): set<PriceTicks> {
    set v | v in views :: v.price
  }

  /** Best price first: the highest bid, the lowest ask. */
  ghost predicate Ranked(side: Side, views: seq<RestingOrderView>) {
    forall a, b :: 0 <= a < b < |views| ==>
      if side.Buy? then views[a].price >= views[b].price else views[a].price <= views[b].price
  }

  /** The view was put behind everything priced as well or better, and before everything priced worse. */
  ghost predicate QueuedAt(side: Side, views: seq<RestingOrderView>, v: RestingOrderView,
                           after: seq<RestingOrderView>, k: nat) {
    && k <= |views|
    && after == views[..k] + [v] + views[k..]
    && (forall a :: 0 <= a < k ==> if side.Buy? then views[a].price >= v.price else views[a].price <= v.price)
    && (forall a :: k <= a < |views| ==> if side.Buy? then views[a].price < v.price else views[a].price > v.price)
  }

  ghost predicate Queued(side: Side, views: seq<RestingOrderView>, v: RestingOrderView, after: seq<RestingOrderView>) {
    exists k: nat :: QueuedAt(side, views, v, after, k)
  }

  /** There is one place for a view in a side. */
  lemma QueuedOnce(side: Side, views: seq<RestingOrderView>, v: RestingOrderView,
                   a: seq<RestingOrderView>, b: seq<RestingOrderView>)
    requires Queued(side, views, v, a) && Queued(side, views, v, b)
    ensures a == b
  {
    var k: nat :| QueuedAt(side, views, v, a, k);
    var l: nat :| QueuedAt(side, views, v, b, l);
    NoLater(side, views, v, a, b, k, l);
    NoLater(side, views, v, b, a, l, k);
  }

  lemma NoLater(side: Side, views: seq<RestingOrderView>, v: RestingOrderView,
                a: seq<RestingOrderView>, b: seq<RestingOrderView>, k: nat, l: nat)
    requires QueuedAt(side, views, v, a, k) && QueuedAt(side, views, v, b, l)
    ensures k <= l
  {
    if l < |views| {
      assert if side.Buy? then views[l].price < v.price else views[l].price > v.price;
    }
  }

  /** The same views, one of them with other leaves. */
  function Releaved(views: seq<RestingOrderView>, id: OrderId, leaves: Quantity): (r: seq<RestingOrderView>)
    ensures |r| == |views|
    ensures forall k :: 0 <= k < |r| ==>
              r[k] == if views[k].orderId == id then views[k].(leaves := leaves) else views[k]
  {
    seq(|views|, k requires 0 <= k < |views| =>
      if views[k].orderId == id then views[k].(leaves := leaves) else views[k])
  }

  // Selecting.

  lemma {:induction false} SelectConcat(keep: RestingOrderView -> bool, a: seq<RestingOrderView>, b: seq<RestingOrderView>)
    ensures Select(keep, a + b) == Select(keep, a) + Select(keep, b)
  {
    if a == [] {
      assert a + b == b;
    } else {
      SelectConcat(keep, a[1..], b);
      assert (a + b)[1..] == a[1..] + b && (a + b)[0] == a[0];
    }
  }

  lemma {:induction false} SelectAll(keep: RestingOrderView -> bool, views: seq<RestingOrderView>)
    requires forall k :: 0 <= k < |views| ==> keep(views[k])
    ensures Select(keep, views) == views
  {
    if views == [] {
    } else {
      SelectAll(keep, views[1..]);
    }
  }

  lemma {:induction false} SelectNone(keep: RestingOrderView -> bool, views: seq<RestingOrderView>)
    requires forall k :: 0 <= k < |views| ==> !keep(views[k])
    ensures Select(keep, views) == []
  {
    if views == [] {
    } else {
      SelectNone(keep, views[1..]);
    }
  }

  /** Of views that satisfy the condition up to some point and not from there on, the front is selected. */
  lemma SelectPrefix(keep: RestingOrderView -> bool, views: seq<RestingOrderView>, n: nat)
    requires n <= |views|
    requires forall k :: 0 <= k < n ==> keep(views[k])
    requires forall k :: n <= k < |views| ==> !keep(views[k])
    ensures Select(keep, views) == views[..n]
  {
    assert views == views[..n] + views[n..];
    SelectConcat(keep, views[..n], views[n..]);
    SelectAll(keep, views[..n]);
    SelectNone(keep, views[n..]);
  }

  lemma {:induction false} SelectWithout(keep: RestingOrderView -> bool, front: seq<RestingOrderView>, v: RestingOrderView,
                                         back: seq<RestingOrderView>)
    requires !keep(v)
    requires forall k :: 0 <= k < |front| ==> keep(front[k])
    requires forall k :: 0 <= k < |back| ==> keep(back[k])
    ensures Select(keep, front + [v] + back) == front + back
  {
    SelectConcat(keep, front + [v], back);
    SelectConcat(keep, front, [v]);
    SelectAll(keep, front);
    SelectAll(keep, back);
    SelectNone(keep, [v]);
  }

  // Flattened levels.

  lemma {:induction false} FlatConcat(side: Side, a: seq<Level>, b: seq<Level>)
    ensures Flat(side, a + b) == Flat(side, a) + Flat(side, b)
  {
    if a == [] {
      assert a + b == b;
    } else {
      FlatConcat(side, a[1..], b);
      assert (a + b)[1..] == a[1..] + b && (a + b)[0] == a[0];
      var here, rest := FlatOrders(side, a[0].price, a[0].orders), Flat(side, a[1..]);
      assert here + (rest + Flat(side, b)) == here + rest + Flat(side, b);
    }
  }

  lemma FlatOne(side: Side, level: Level)
    ensures Flat(side, [level]) == FlatOrders(side, level.price, level.orders)
  {
    assert Flat(side, [level][1..]) == [];
  }

  /** A side around one of its levels. */
  lemma FlatAround(side: Side, levels: seq<Level>, i: nat, level: Level)
    requires i < |levels|
    ensures Flat(side, levels[i := level]) ==
            Flat(side, levels[..i]) + FlatOrders(side, level.price, level.orders) + Flat(side, levels[i + 1..])
  {
    assert levels[i := level] == levels[..i] + ([level] + levels[i + 1..]);
    FlatConcat(side, levels[..i], [level] + levels[i + 1..]);
    FlatConcat(side, [level], levels[i + 1..]);
    FlatOne(side, level);
  }

  /** Every view is of an order in the levels. */
  lemma ViewPlace(side: Side, levels: seq<Level>, k: nat) returns (i: nat, j: nat)
    requires k < |Flat(side, levels)|
    ensures InRange(levels, i, j)
    ensures Flat(side, levels)[k] ==
            RestingOrderView(levels[i].orders[j].id, side, levels[i].price, levels[i].orders[j].leaves)
  {
    if k < |levels[0].orders| {
      i, j := 0, k;
    } else {
      i, j := ViewPlace(side, levels[1..], k - |levels[0].orders|);
      i := i + 1;
    }
  }

  lemma FlatRanked(side: Side, levels: seq<Level>)
    requires IsSide(side) && WfSide(side, levels)
    ensures Ranked(side, Flat(side, levels))
  {
    if levels == [] {
    } else {
      FlatRanked(side, levels[1..]);
      var here, rest := FlatOrders(side, levels[0].price, levels[0].orders), Flat(side, levels[1..]);
      forall b | 0 <= b < |rest|
        ensures if side.Buy? then levels[0].price > rest[b].price else levels[0].price < rest[b].price
      {
        var i, j := ViewPlace(side, levels[1..], b);
      }
    }
  }

  // Taking an order out.

  ghost predicate OnlyAt(levels: seq<Level>, i: nat, j: nat) {
    && InRange(levels, i, j)
    && forall a: nat, b: nat :: InRange(levels, a, b) && (a, b) != (i, j) ==>
         levels[a].orders[b].id != levels[i].orders[j].id
  }

  lemma OnlyInTail(levels: seq<Level>, i: nat, j: nat)
    requires OnlyAt(levels, i, j) && i > 0
    ensures OnlyAt(levels[1..], i - 1, j)
    ensures forall b :: 0 <= b < |levels[0].orders| ==> levels[0].orders[b].id != levels[i].orders[j].id
  {
    forall a: nat, b: nat | InRange(levels[1..], a, b) && (a, b) != (i - 1, j)
      ensures levels[1..][a].orders[b].id != levels[i].orders[j].id
    {
      assert InRange(levels, a + 1, b);
    }
    forall b: nat | b < |levels[0].orders| ensures levels[0].orders[b].id != levels[i].orders[j].id {
      assert InRange(levels, 0, b);
    }
  }

  lemma NoneOf(side: Side, levels: seq<Level>, id: OrderId)
    requires forall a: nat, b: nat :: InRange(levels, a, b) ==> levels[a].orders[b].id != id
    ensures Others(Flat(side, levels), id) == Flat(side, levels)
  {
    forall k: nat | k < |Flat(side, levels)| ensures NotOf(id)(Flat(side, levels)[k]) {
      var i, j := ViewPlace(side, levels, k);
    }
    SelectAll(NotOf(id), Flat(side, levels));
  }

  lemma EraseInFront(side: Side, levels: seq<Level>, j: nat)
    requires OnlyAt(levels, 0, j)
    ensures Flat(side, EraseAt(levels, 0, j)) == Others(Flat(side, levels), levels[0].orders[j].id)
  {
    var price, orders, rest, id := levels[0].price, levels[0].orders, levels[1..], levels[0].orders[j].id;
    var here := FlatOrders(side, price, orders);
    forall a: nat, b: nat | InRange(rest, a, b) ensures rest[a].orders[b].id != id {
      assert InRange(levels, a + 1, b);
    }
    NoneOf(side, rest, id);
    SelectConcat(NotOf(id), here, Flat(side, rest));
    forall b: nat | b < |orders| && b != j ensures NotOf(id)(here[b]) {
      assert InRange(levels, 0, b);
    }
    SelectWithout(NotOf(id), here[..j], here[j], here[j + 1..]);
    assert here == here[..j] + [here[j]] + here[j + 1..];
    assert FlatOrders(side, price, Without(orders, j)) == Without(here, j);
    if |orders| == 1 {
      assert EraseAt(levels, 0, j) == rest;
      assert Without(here, j) + Flat(side, rest) == Flat(side, rest);
    } else {
      FlatAround(side, levels, 0, levels[0].(orders := Without(orders, j)));
      assert Flat(side, levels[..0]) == [];
    }
  }

  lemma EraseInTail(levels: seq<Level>, i: nat, j: nat)
    requires InRange(levels, i, j) && i > 0
    ensures InRange(levels[1..], i - 1, j) && EraseAt(levels, i, j) == [levels[0]] + EraseAt(levels[1..], i - 1, j)
  {
  }

  /** Taking an order out leaves the others as they were. */
  lemma {:induction false} EraseFlat(side: Side, levels: seq<Level>, i: nat, j: nat)
    requires OnlyAt(levels, i, j)
    ensures Flat(side, EraseAt(levels, i, j)) == Others(Flat(side, levels), levels[i].orders[j].id)
    decreases i
  {
    if i == 0 {
      EraseInFront(side, levels, j);
    } else {
      var id, here := levels[i].orders[j].id, FlatOrders(side, levels[0].price, levels[0].orders);
      OnlyInTail(levels, i, j);
      EraseInTail(levels, i, j);
      SelectConcat(NotOf(id), here, Flat(side, levels[1..]));
      SelectAll(NotOf(id), here);
      EraseFlat(side, levels[1..], i - 1, j);
      hide EraseAt, OnlyAt, Select;
    }
  }

  // Putting an order in.

  lemma InsertFlatAt(side: Side, levels: seq<Level>, q: nat, price: PriceTicks,
                     after: seq<RestingOrderView>, v: RestingOrderView)
    requires IsSide(side) && q <= |levels| && v.price == price
    requires forall i :: 0 <= i < q ==> !Before(side, price, levels[i].price)
    requires forall i :: q <= i < |levels| ==> Before(side, price, levels[i].price)
    requires after == Flat(side, levels[..q]) + [v] + Flat(side, levels[q..])
    ensures Queued(side, Flat(side, levels), v, after)
  {
    var views, k := Flat(side, levels), |Flat(side, levels[..q])|;
    assert levels == levels[..q] + levels[q..];
    FlatConcat(side, levels[..q], levels[q..]);
    assert views[..k] == Flat(side, levels[..q]) && views[k..] == Flat(side, levels[q..]);
    forall a | 0 <= a < k ensures !Before(side, price, views[a].price) {
      var i, j := ViewPlace(side, levels[..q], a);
    }
    forall a | k <= a < |views| ensures Before(side, price, views[a].price) {
      var i, j := ViewPlace(side, levels[q..], a - k);
    }
    assert QueuedAt(side, views, v, after, k);
  }

  lemma {:induction false} InsertFlatFound(side: Side, levels: seq<Level>, price: PriceTicks, o: Order)
    requires IsSide(side) && WfSide(side, levels) && HasLevel(side, levels, price)
    ensures Queued(side, Flat(side, levels), RestingOrderView(o.id, side, price, o.leaves),
                   Flat(side, InsertOrder(side, levels, price, o)))
  {
    var p := LowerBound(side, levels, price);
    LowerBoundSplits(side, levels, price);
    hide LowerBound, Queued, Flat;
    AppendedFlat(side, levels, p, o);
    InsertFlatAt(side, levels, p + 1, price, Flat(side, InsertOrder(side, levels, price, o)),
                 RestingOrderView(o.id, side, price, o.leaves));
  }

  lemma {:induction false} InsertFlatMissing(side: Side, levels: seq<Level>, price: PriceTicks, o: Order)
    requires IsSide(side) && WfSide(side, levels) && !HasLevel(side, levels, price)
    ensures Queued(side, Flat(side, levels), RestingOrderView(o.id, side, price, o.leaves),
                   Flat(side, InsertOrder(side, levels, price, o)))
  {
    var p := LowerBound(side, levels, price);
    LowerBoundSplits(side, levels, price);
    PriceMissing(side, levels, price);
    hide LowerBound, Queued, Flat, Opened;
    OpenedFlat(side, levels, p, Level(price, [o]));
    InsertFlatAt(side, levels, p, price, Flat(side, InsertOrder(side, levels, price, o)),
                 RestingOrderView(o.id, side, price, o.leaves));
  }

  /** An inserted order stands behind everything priced as well, and nothing else moves. */
  lemma InsertFlat(side: Side, levels: seq<Level>, price: PriceTicks, o: Order)
    requires IsSide(side) && WfSide(side, levels)
    ensures Queued(side, Flat(side, levels), RestingOrderView(o.id, side, price, o.leaves),
                   Flat(side, InsertOrder(side, levels, price, o)))
  {
    hide Queued, Flat, InsertOrder, HasLevel, WfSide;
    if HasLevel(side, levels, price) {
      InsertFlatFound(side, levels, price, o);
    } else {
      InsertFlatMissing(side, levels, price, o);
    }
  }

  lemma AppendedFlat(side: Side, levels: seq<Level>, p: nat, o: Order)
    requires p < |levels|
    ensures Flat(side, levels[p := Level(levels[p].price, levels[p].orders + [o])]) ==
            Flat(side, levels[..p + 1]) + [RestingOrderView(o.id, side, levels[p].price, o.leaves)]
            + Flat(side, levels[p + 1..])
  {
    var price, orders := levels[p].price, levels[p].orders;
    FlatAround(side, levels, p, Level(price, orders + [o]));
    assert FlatOrders(side, price, orders + [o]) ==
           FlatOrders(side, price, orders) + [RestingOrderView(o.id, side, price, o.leaves)];
    assert levels[..p + 1] == levels[..p] + [levels[p]];
    FlatConcat(side, levels[..p], [levels[p]]);
    FlatOne(side, levels[p]);
  }

  lemma OpenedFlat(side: Side, levels: seq<Level>, p: nat, level: Level)
    requires p <= |levels|
    ensures Flat(side, Opened(levels, p, level)) ==
            Flat(side, levels[..p]) + FlatOrders(side, level.price, level.orders) + Flat(side, levels[p..])
  {
    FlatConcat(side, levels[..p] + [level], levels[p..]);
    FlatConcat(side, levels[..p], [level]);
    FlatOne(side, level);
  }

  // New leaves.

  lemma ReleavedConcat(a: seq<RestingOrderView>, b: seq<RestingOrderView>, id: OrderId, leaves: Quantity)
    ensures Releaved(a + b, id, leaves) == Releaved(a, id, leaves) + Releaved(b, id, leaves)
  {
  }

  lemma {:induction false} SetLeavesFlat(side: Side, levels: seq<Level>, i: nat, j: nat, leaves: Quantity)
    requires OnlyAt(levels, i, j)
    ensures Flat(side, SetLeavesAt(levels, i, j, leaves)) == Releaved(Flat(side, levels), levels[i].orders[j].id, leaves)
    decreases i
  {
    var price, orders, id := levels[0].price, levels[0].orders, levels[i].orders[j].id;
    var changed, here, rest := SetLeavesAt(levels, i, j, leaves), FlatOrders(side, price, orders), Flat(side, levels[1..]);
    ReleavedConcat(here, rest, id, leaves);
    if i == 0 {
      assert changed[1..] == levels[1..];
      forall a: nat, b: nat | InRange(levels[1..], a, b) ensures levels[1..][a].orders[b].id != id {
        assert InRange(levels, a + 1, b);
      }
      NothingReleaved(side, levels[1..], id, leaves);
      forall b: nat | b < |orders| && b != j ensures orders[b].id != id {
        assert InRange(levels, 0, b);
      }
      assert FlatOrders(side, price, changed[0].orders) == Releaved(here, id, leaves);
    } else {
      OnlyInTail(levels, i, j);
      SetLeavesFlat(side, levels[1..], i - 1, j, leaves);
      assert changed[1..] == SetLeavesAt(levels[1..], i - 1, j, leaves);
      assert Releaved(here, id, leaves) == here;
    }
  }

  lemma NothingReleaved(side: Side, levels: seq<Level>, id: OrderId, leaves: Quantity)
    requires forall a: nat, b: nat :: InRange(levels, a, b) ==> levels[a].orders[b].id != id
    ensures Releaved(Flat(side, levels), id, leaves) == Flat(side, levels)
  {
    var views := Flat(side, levels);
    forall k: nat | k < |views| ensures views[k].orderId != id {
      var i, j := ViewPlace(side, levels, k);
    }
  }

  /** Whatever leaves an order is given before it is taken out. */
  lemma OthersReleaved(views: seq<RestingOrderView>, id: OrderId, leaves: Quantity)
    ensures Others(Releaved(views, id, leaves), id) == Others(views, id)
  {
    if views == [] {
    } else {
      var changed := Releaved(views, id, leaves);
      assert changed[1..] == Releaved(views[1..], id, leaves);
      OthersReleaved(views[1..], id, leaves);
      assert NotOf(id)(changed[0]) ==> changed[0] == views[0];
      assert NotOf(id)(changed[0]) <==> NotOf(id)(views[0]);
    }
  }

  // Room.

  lemma {:induction false} SumOfOrders(side: Side, price: PriceTicks, orders: seq<Order>)
    ensures SumOf(FlatOrders(side, price, orders)) == Sum(orders)
  {
    if orders == [] {
    } else {
      SumOfOrders(side, price, orders[1..]);
      assert FlatOrders(side, price, orders)[1..] == FlatOrders(side, price, orders[1..]);
    }
  }

  /** The orders at a level's price are the level's. */
  lemma LevelSeen(side: Side, levels: seq<Level>, p: nat)
    requires IsSide(side) && WfSide(side, levels) && p < |levels|
    ensures Select(AtPrice(levels[p].price), Flat(side, levels)) == FlatOrders(side, levels[p].price, levels[p].orders)
  {
    var keep, level := AtPrice(levels[p].price), levels[p];
    var here := FlatOrders(side, level.price, level.orders);
    FlatAround(side, levels, p, level);
    assert levels[p := level] == levels;
    forall i | 0 <= i < |levels| && i != p ensures levels[i].price != level.price {
      assert Before(side, levels[if i < p then i else p].price, levels[if i < p then p else i].price);
    }
    NotPriced(side, levels[..p], level.price);
    NotPriced(side, levels[p + 1..], level.price);
    SelectAll(keep, here);
    SelectConcat(keep, Flat(side, levels[..p]) + here, Flat(side, levels[p + 1..]));
    SelectConcat(keep, Flat(side, levels[..p]), here);
  }

  lemma NotPriced(side: Side, levels: seq<Level>, price: PriceTicks)
    requires forall i :: 0 <= i < |levels| ==> levels[i].price != price
    ensures Select(AtPrice(price), Flat(side, levels)) == []
  {
    forall k: nat | k < |Flat(side, levels)| ensures !AtPrice(price)(Flat(side, levels)[k]) {
      var i, j := ViewPlace(side, levels, k);
    }
    SelectNone(AtPrice(price), Flat(side, levels));
  }

  lemma LevelsSeen(side: Side, levels: seq<Level>)
    requires IsSide(side) && WfSide(side, levels)
    ensures |PricesOf(Flat(side, levels))| == |levels|
  {
    if levels == [] {
    } else {
      LevelsSeen(side, levels[1..]);
      var here, rest := FlatOrders(side, levels[0].price, levels[0].orders), Flat(side, levels[1..]);
      assert WfLevel(levels[0]);
      assert here[0] in Flat(side, levels);
      forall k: nat | k < |rest| ensures rest[k].price != levels[0].price {
        var i, j := ViewPlace(side, levels[1..], k);
      }
      assert PricesOf(Flat(side, levels)) == {levels[0].price} + PricesOf(rest);
    }
  }

  /** Whether an order has room at a price, from the side's orders alone. */
  lemma RoomSeen(side: Side, levels: seq<Level>, price: PriceTicks, leaves: Quantity, levelCapacity: nat)
    requires IsSide(side) && WfSide(side, levels)
    ensures var views := Flat(side, levels);
            HasRoom(side, levels, price, leaves, levelCapacity) <==>
            if price in PricesOf(views) then SumOf(Select(AtPrice(price), views)) + leaves <= U64_MAX
            else |PricesOf(views)| < levelCapacity
  {
    var p, views := LowerBound(side, levels, price), Flat(side, levels);
    LevelsSeen(side, levels);
    if HasLevel(side, levels, price) {
      LevelSeen(side, levels, p);
      SumOfOrders(side, price, levels[p].orders);
      assert WfLevel(levels[p]);
      SelectedPrice(views, price);
    } else {
      PriceMissing(side, levels, price);
      forall k: nat | k < |views| ensures views[k].price != price {
        var i, j := ViewPlace(side, levels, k);
      }
    }
  }

  lemma SelectedPrice(views: seq<RestingOrderView>, price: PriceTicks)
    requires Select(AtPrice(price), views) != []
    ensures price in PricesOf(views)
  {
    if !AtPrice(price)(views[0]) {
      SelectedPrice(views[1..], price);
    }
  }

  // A side is determined by its views.

  lemma {:induction false} FlatDetermines(side: Side, a: seq<Level>, b: seq<Level>)
    requires IsSide(side) && WfSide(side, a) && WfSide(side, b) && Flat(side, a) == Flat(side, b)
    ensures a == b
    decreases |a|
  {
    FlatEmpty(side, a);
    FlatEmpty(side, b);
    if a == [] {
    } else {
      FrontDetermined(side, a, b);
      FlatDetermines(side, a[1..], b[1..]);
      assert a == [a[0]] + a[1..] && b == [b[0]] + b[1..];
    }
  }

  lemma FrontNoLonger(side: Side, a: seq<Level>, b: seq<Level>)
    requires IsSide(side) && WfSide(side, a) && WfSide(side, b) && Flat(side, a) == Flat(side, b) && a != [] && b != []
    ensures a[0].price == b[0].price && |a[0].orders| <= |b[0].orders|
  {
    var n, views := |b[0].orders|, Flat(side, a);
    assert WfLevel(a[0]) && WfLevel(b[0]);
    assert views[0].price == a[0].price && views[0].price == b[0].price;
    if n < |a[0].orders| {
      assert views[n].price == a[0].price;
      assert views[n] == Flat(side, b[1..])[0];
      var i, j := ViewPlace(side, b[1..], 0);
      assert false;
    }
  }

  lemma FrontDetermined(side: Side, a: seq<Level>, b: seq<Level>)
    requires IsSide(side) && WfSide(side, a) && WfSide(side, b) && Flat(side, a) == Flat(side, b) && a != [] && b != []
    ensures a[0] == b[0] && Flat(side, a[1..]) == Flat(side, b[1..])
  {
    FrontNoLonger(side, a, b);
    FrontNoLonger(side, b, a);
    var n, views, other := |a[0].orders|, Flat(side, a), Flat(side, b);
    assert views[n..] == Flat(side, a[1..]) && other[n..] == Flat(side, b[1..]);
    forall j | 0 <= j < n ensures a[0].orders[j] == b[0].orders[j] {
      assert views[j] == other[j];
    }
  }
}
