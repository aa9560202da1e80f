/**
  The whole memory layout of a book and what each storage operation does to
  it. Layouts are values here; class OrderBookStorage holds one.
 */
module Layout {
  import opened Domain
  import opened Pool
  import opened Book
  import opened Linked

  /** A level record describes a level of the book. */
  ghost predicate LevelRep(a: PriceLevel, level: Level, side: Side, n: Nodes) {
    && a.price == level.price
    && a.aggregate == Sum(level.orders)
    && Chained(a, level.orders, side, n)
  }

  ghost predicate SideRep(arr: seq<PriceLevel>, levels: seq<Level>, side: Side, n: Nodes) {
    && |arr| == |levels|
    && forall i :: 0 <= i < |levels| ==> LevelRep(arr[i], levels[i], side, n)
  }

  /** A book and the memory that holds it. */
  datatype Store = Store(book: Book, bids: seq<PriceLevel>, asks: seq<PriceLevel>, nodes: Nodes)

  function Arr(s: Store, side: Side): seq<PriceLevel> {
    if side.Buy? then s.bids else s.asks
  }

  /** The store with one side's levels, in book and array, and the nodes replaced. */
  function WithSide(s: Store, side: Side, levels: seq<Level>, arr: seq<PriceLevel>, nodes: Nodes): Store {
    if side.Buy? then Store(WithLevels(s.book, side, levels), arr, s.asks, nodes)
    else Store(WithLevels(s.book, side, levels), s.bids, arr, nodes)
  }

  ghost predicate Rep(s: Store) {
    && WfBook(s.book)
    && Bijective(s.nodes)
    && SideRep(s.bids, s.book.bids, Buy, s.nodes)
    && SideRep(s.asks, s.book.asks, Sell, s.nodes)
    && |s.nodes.index| == CountBook(s.book)
  }

  /** Every queue but one is untouched. */
  ghost predicate AgreeElsewhere(n: Nodes, n': Nodes, side: Side, price: PriceTicks) {
    && n'.instrument == n.instrument
    && forall h :: h in n.live && !InQueue(n.live, h, side, price) ==>
         && h in n'.live
         && n'.live[h] == n.live[h]
         && n.live[h].orderId in n'.index
         && n'.index[n.live[h].orderId] == h
  }

  lemma RecordFrame(a: PriceLevel, level: Level, side: Side, n: Nodes, n': Nodes, side': Side, price': PriceTicks, j: nat)
    requires LevelRep(a, level, side, n) && Bijective(n) && j < |level.orders|
    requires AgreeElsewhere(n, n', side', price') && (side != side' || level.price != price')
    ensures level.orders[j].id in n.index && level.orders[j].id in n'.index
    ensures n'.index[level.orders[j].id] == n.index[level.orders[j].id]
    ensures n.index[level.orders[j].id] in n.live && n.index[level.orders[j].id] in n'.live
    ensures n'.live[n.index[level.orders[j].id]] == n.live[n.index[level.orders[j].id]]
  {
  }

  /** Two node states give a queue's orders the same links and records. */
  ghost predicate SameNodes(orders: seq<Order>, n: Nodes, n': Nodes) {
    && n'.instrument == n.instrument
    && forall j :: 0 <= j < |orders| ==>
         && orders[j].id in n.index && orders[j].id in n'.index
         && n'.index[orders[j].id] == n.index[orders[j].id]
         && n.index[orders[j].id] in n.live && n.index[orders[j].id] in n'.live
         && n'.live[n.index[orders[j].id]] == n.live[n.index[orders[j].id]]
  }

  lemma SameNodesChained(a: PriceLevel, orders: seq<Order>, side: Side, n: Nodes, n': Nodes)
    requires SameNodes(orders, n, n') && Chained(a, orders, side, n)
    ensures Chained(a, orders, side, n')
  {
  }

  lemma LevelFrame(a: PriceLevel, level: Level, side: Side, n: Nodes, n': Nodes, side': Side, price': PriceTicks)
    requires LevelRep(a, level, side, n) && Bijective(n)
    requires AgreeElsewhere(n, n', side', price') && (side != side' || level.price != price')
    ensures LevelRep(a, level, side, n')
  {
    forall j | 0 <= j < |level.orders|
      ensures level.orders[j].id in n.index && level.orders[j].id in n'.index
      ensures n'.index[level.orders[j].id] == n.index[level.orders[j].id]
      ensures n.index[level.orders[j].id] in n.live && n.index[level.orders[j].id] in n'.live
      ensures n'.live[n.index[level.orders[j].id]] == n.live[n.index[level.orders[j].id]]
    {
      RecordFrame(a, level, side, n, n', side', price', j);
    }
    assert SameNodes(level.orders, n, n') by { hide Bijective, LevelRep; }
    hide SameNodes, Bijective, Chained;
    SameNodesChained(a, level.orders, side, n, n');
  }

  lemma OtherSide(arr: seq<PriceLevel>, levels: seq<Level>, side: Side, n: Nodes, n': Nodes, side': Side, price': PriceTicks)
    requires SideRep(arr, levels, side, n) && Bijective(n)
    requires AgreeElsewhere(n, n', side', price') && side != side'
    ensures SideRep(arr, levels, side, n')
  {
    forall i | 0 <= i < |levels| ensures LevelRep(arr[i], levels[i], side, n') {
      LevelFrame(arr[i], levels[i], side, n, n', side', price');
    }
  }

  lemma ReplaceLevel(arr: seq<PriceLevel>, levels: seq<Level>, side: Side, n: Nodes, n': Nodes,
                     i: nat, a: PriceLevel, level: Level)
    requires SideRep(arr, levels, side, n) && Bijective(n) && Sorted(side, levels)
    requires i < |levels| && AgreeElsewhere(n, n', side, levels[i].price)
    requires LevelRep(a, level, side, n') && level.price == levels[i].price
    ensures SideRep(arr[i := a], levels[i := level], side, n')
  {
    forall k | 0 <= k < |levels| && k != i ensures LevelRep(arr[k], levels[k], side, n') {
      assert levels[k].price != levels[i].price;
      LevelFrame(arr[k], levels[k], side, n, n', side, levels[i].price);
    }
  }

  lemma RemoveLevel(arr: seq<PriceLevel>, levels: seq<Level>, side: Side, n: Nodes, n': Nodes, i: nat)
    requires SideRep(arr, levels, side, n) && Bijective(n) && Sorted(side, levels)
    requires i < |levels| && AgreeElsewhere(n, n', side, levels[i].price)
    ensures SideRep(Without(arr, i), Without(levels, i), side, n')
  {
    forall k | 0 <= k < |levels| && k != i ensures LevelRep(arr[k], levels[k], side, n') {
      assert levels[k].price != levels[i].price;
      LevelFrame(arr[k], levels[k], side, n, n', side, levels[i].price);
    }
  }

  lemma AddLevel(arr: seq<PriceLevel>, levels: seq<Level>, side: Side, n: Nodes, n': Nodes,
                 p: nat, a: PriceLevel, level: Level)
    requires SideRep(arr, levels, side, n) && Bijective(n) && p <= |levels|
    requires AgreeElsewhere(n, n', side, level.price)
    requires forall i :: 0 <= i < |levels| ==> levels[i].price != level.price
    requires LevelRep(a, level, side, n')
    ensures SideRep(Opened(arr, p, a), Opened(levels, p, level), side, n')
  {
    forall k | 0 <= k < |levels| ensures LevelRep(arr[k], levels[k], side, n') {
      LevelFrame(arr[k], levels[k], side, n, n', side, level.price);
    }
  }

  // IDs: unique, and exactly those of the index.

  lemma RecordOf(s: Store, at: Location)
    requires Rep(s) && In(s.book, at)
    ensures var o := OrderAt(s.book, at);
            && o.id in s.nodes.index && s.nodes.index[o.id] in s.nodes.live
            && s.nodes.live[s.nodes.index[o.id]] ==
               RecordAt(Levels(s.book, at.side)[at.level].orders, at.index, at.side, PriceAt(s.book, at), s.nodes)
  {
  }

  lemma IdsUnique(s: Store)
    requires Rep(s)
    ensures UniqueIds(s.book)
  {
    forall a, b, id | Holds(s.book, a, id) && Holds(s.book, b, id)
      ensures a == b
    {
      RecordOf(s, a);
      RecordOf(s, b);
      assert LevelRep(Arr(s, a.side)[a.level], Levels(s.book, a.side)[a.level], a.side, s.nodes);
    }
  }

  function IdSet(orders: seq<Order>): set<OrderId> {
    set o | o in orders :: o.id
  }

  function AllIds(levels: seq<Level>): set<OrderId> {
    if levels == [] then {} else IdSet(levels[0].orders) + AllIds(levels[1..])
  }

  lemma IdSetSize(orders: seq<Order>)
    requires Distinct(orders)
    ensures |IdSet(orders)| == |orders|
  {
    if orders == [] {
    } else {
      assert Distinct(orders[1..]);
      IdSetSize(orders[1..]);
      assert IdSet(orders) == {orders[0].id} + IdSet(orders[1..]);
      assert orders[0].id !in IdSet(orders[1..]);
    }
  }

  lemma {:induction false} AllIdsMembers(levels: seq<Level>, id: OrderId)
    ensures id in AllIds(levels) <==> exists i: nat, j: nat :: InRange(levels, i, j) && levels[i].orders[j].id == id
  {
    if levels == [] {
    } else {
      AllIdsMembers(levels[1..], id);
    }
  }

  lemma FindId(levels: seq<Level>, id: OrderId) returns (i: nat, j: nat)
    requires id in AllIds(levels)
    ensures InRange(levels, i, j) && levels[i].orders[j].id == id
  {
    AllIdsMembers(levels, id);
    i, j :| InRange(levels, i, j) && levels[i].orders[j].id == id;
  }

  /** Counting levels apart is counting IDs when no ID appears twice. */
  lemma AllIdsSize(levels: seq<Level>, arr: seq<PriceLevel>, side: Side, n: Nodes)
    requires SideRep(arr, levels, side, n) && Sorted(side, levels)
    ensures |AllIds(levels)| == Count(levels)
  {
    if levels == [] {
    } else {
      assert LevelRep(arr[0], levels[0], side, n);
      IdSetSize(levels[0].orders);
      assert SideRep(arr[1..], levels[1..], side, n);
      AllIdsSize(levels[1..], arr[1..], side, n);
      forall id | id in IdSet(levels[0].orders) ensures id !in AllIds(levels[1..]) {
        AllIdsMembers(levels[1..], id);
        SideIdPrices(arr, levels, side, n);
      }
      assert IdSet(levels[0].orders) !! AllIds(levels[1..]);
    }
  }

  /** An ID's record names the price of every level the ID appears in. */
  lemma SideIdPrices(arr: seq<PriceLevel>, levels: seq<Level>, side: Side, n: Nodes)
    requires SideRep(arr, levels, side, n)
    ensures forall i: nat, j: nat :: InRange(levels, i, j) ==>
              && levels[i].orders[j].id in n.index
              && n.index[levels[i].orders[j].id] in n.live
              && n.live[n.index[levels[i].orders[j].id]].price == levels[i].price
              && n.live[n.index[levels[i].orders[j].id]].side == side
  {
  }

  lemma IdKnown(arr: seq<PriceLevel>, levels: seq<Level>, side: Side, n: Nodes, id: OrderId)
    requires SideRep(arr, levels, side, n) && id in AllIds(levels)
    ensures id in n.index && n.index[id] in n.live && n.live[n.index[id]].side == side
  {
    var i, j := FindId(levels, id);
    SideIdPrices(arr, levels, side, n);
    hide SideRep, AllIds;
  }

  /** The index holds exactly the IDs of the book. */
  lemma IndexIsIds(s: Store)
    requires Rep(s)
    ensures s.nodes.index.Keys == AllIds(s.book.bids) + AllIds(s.book.asks)
  {
    AllIdsSize(s.book.bids, s.bids, Buy, s.nodes);
    AllIdsSize(s.book.asks, s.asks, Sell, s.nodes);
    hide AllIds, Count, SideRep, WfBook, Bijective;
    forall id | id in AllIds(s.book.bids)
      ensures id in s.nodes.index.Keys && id !in AllIds(s.book.asks)
    {
      IdKnown(s.bids, s.book.bids, Buy, s.nodes, id);
      if id in AllIds(s.book.asks) {
        IdKnown(s.asks, s.book.asks, Sell, s.nodes, id);
      }
    }
    forall id | id in AllIds(s.book.asks) ensures id in s.nodes.index.Keys {
      IdKnown(s.asks, s.book.asks, Sell, s.nodes, id);
    }
    SameSizeSubset(AllIds(s.book.bids) + AllIds(s.book.asks), s.nodes.index.Keys);
  }

  lemma SameSizeSubset<T>(a: set<T>, b: set<T>)
    requires a <= b && |a| == |b|
    ensures a == b
  {
    if a != b {
      var x :| x in b && x !in a;
      assert a <= b - {x};
      SubsetSize(a, b - {x});
    }
  }

  lemma SubsetSize<T>(a: set<T>, b: set<T>)
    requires a <= b
    ensures |a| <= |b|
  {
    assert b == a + (b - a);
  }

  lemma Present(s: Store, id: OrderId) returns (at: Location)
    requires Rep(s) && id in s.nodes.index
    ensures Holds(s.book, at, id)
  {
    hide Rep, AllIds;
    IndexIsIds(s);
    if id in AllIds(s.book.bids) {
      var i, j := FindId(s.book.bids, id);
      at := Location(Buy, i, j);
    } else {
      var i, j := FindId(s.book.asks, id);
      at := Location(Sell, i, j);
    }
  }

  /** Where an indexed order sits: the level of its record's side and price. */
  lemma PlaceOf(s: Store, id: OrderId) returns (at: Location)
    requires Rep(s) && id in s.nodes.index
    ensures Locate(s.book, id) == Some(at) && Holds(s.book, at, id)
    ensures s.nodes.index[id] in s.nodes.live
    ensures at.side == s.nodes.live[s.nodes.index[id]].side
    ensures s.nodes.live[s.nodes.index[id]].price == PriceAt(s.book, at)
    ensures LowerBound(at.side, Levels(s.book, at.side), s.nodes.live[s.nodes.index[id]].price) == at.level
    ensures s.nodes.live[s.nodes.index[id]] ==
            RecordAt(Levels(s.book, at.side)[at.level].orders, at.index, at.side, PriceAt(s.book, at), s.nodes)
  {
    at := Present(s, id);
    IdsUnique(s);
    LocateUnique(s.book, at, id);
    RecordOf(s, at);
    PriceFound(at.side, Levels(s.book, at.side), at.level);
    hide Rep, UniqueIds;
  }

  /** What it takes for a change of one side to keep the whole layout. */
  lemma SideChanged(s: Store, side: Side, price: PriceTicks, levels': seq<Level>, arr': seq<PriceLevel>, n': Nodes)
    requires Rep(s) && IsSide(side) && AgreeElsewhere(s.nodes, n', side, price)
    requires Bijective(n') && WfSide(side, levels') && SideRep(arr', levels', side, n')
    requires |n'.index| == |s.nodes.index| + Count(levels') - Count(Levels(s.book, side))
    ensures Rep(WithSide(s, side, levels', arr', n'))
  {
    OtherSide(Arr(s, Opposite(side)), Levels(s.book, Opposite(side)), Opposite(side), s.nodes, n', side, price);
  }

  /** A level whose queue changed while its price, side and place did not. */
  lemma LevelChanged(s: Store, side: Side, i: nat, a': PriceLevel, level': Level, n': Nodes)
    requires Rep(s) && IsSide(side) && i < |Levels(s.book, side)|
    requires AgreeElsewhere(s.nodes, n', side, Levels(s.book, side)[i].price)
    requires Bijective(n') && LevelRep(a', level', side, n') && WfLevel(level')
    requires level'.price == Levels(s.book, side)[i].price
    requires |n'.index| == |s.nodes.index| + |level'.orders| - |Levels(s.book, side)[i].orders|
    ensures i < |Arr(s, side)|
    ensures Rep(WithSide(s, side, Levels(s.book, side)[i := level'], Arr(s, side)[i := a'], n'))
  {
    hide Bijective, AgreeElsewhere, LevelRep, WfLevel, Sorted;
    var levels := Levels(s.book, side);
    CountUpdate(levels, i, level');
    ReplaceLevel(Arr(s, side), levels, side, s.nodes, n', i, a', level');
    WfReplace(side, levels, i, level');
    SideChanged(s, side, level'.price, levels[i := level'], Arr(s, side)[i := a'], n');
  }

  function PutLeaves(n: Nodes, link: Handle, leaves: Quantity): Nodes
    requires link in n.live
  {
    n.(live := n.live[link := n.live[link].(leaves := leaves)])
  }

  lemma PutLeavesBijective(n: Nodes, link: Handle, leaves: Quantity)
    requires Bijective(n) && link in n.live
    ensures Bijective(PutLeaves(n, link, leaves))
    ensures AgreeElsewhere(n, PutLeaves(n, link, leaves), n.live[link].side, n.live[link].price)
  {
    assert PutLeaves(n, link, leaves).live.Keys == n.live.Keys;
  }

  lemma PutLeavesRecord(a: PriceLevel, orders: seq<Order>, side: Side, n: Nodes, j: nat, leaves: Quantity, k: nat)
    requires Bijective(n) && Chained(a, orders, side, n) && j < |orders| && k < |orders|
    requires orders[j].id in n.index && n.index[orders[j].id] in n.live
    ensures var orders' := orders[j := orders[j].(leaves := leaves)];
            var n' := PutLeaves(n, n.index[orders[j].id], leaves);
            && orders[k].id in n.index
            && n.index[orders[k].id] in n'.live
            && n'.live[n.index[orders[k].id]] == RecordAt(orders', k, side, a.price, n')
  {
    NeighboursOf(a, orders, side, n, j);
    NeighboursOf(a, orders, side, n, k);
    hide Bijective, Chained;
  }

  lemma PutLeavesThreaded(a: PriceLevel, orders: seq<Order>, side: Side, n: Nodes, j: nat, leaves: Quantity)
    requires Bijective(n) && Chained(a, orders, side, n) && j < |orders|
    requires orders[j].id in n.index && n.index[orders[j].id] in n.live
    ensures Threaded(orders[j := orders[j].(leaves := leaves)], side, a.price, PutLeaves(n, n.index[orders[j].id], leaves))
  {
    hide Bijective, RecordAt, Chained, PutLeaves;
    var orders', n' := orders[j := orders[j].(leaves := leaves)], PutLeaves(n, n.index[orders[j].id], leaves);
    forall k | 0 <= k < |orders|
      ensures orders[k].id in n.index && n.index[orders[k].id] in n'.live
      ensures n'.live[n.index[orders[k].id]] == RecordAt(orders', k, side, a.price, n')
    {
      PutLeavesRecord(a, orders, side, n, j, leaves, k);
    }
    assert n'.index == n.index by { IndexKept(n, n.index[orders[j].id], leaves); }
  }

  lemma IndexKept(n: Nodes, link: Handle, leaves: Quantity)
    requires link in n.live
    ensures PutLeaves(n, link, leaves).index == n.index
  {
  }

  /** Links and distinctness depend on the IDs alone. */
  lemma SameIds(orders: seq<Order>, orders': seq<Order>, index: map<OrderId, Handle>)
    requires |orders'| == |orders|
    requires forall k :: 0 <= k < |orders| ==> orders'[k].id == orders[k].id
    ensures Distinct(orders) ==> Distinct(orders')
    ensures LinkAt(orders', 0, index) == LinkAt(orders, 0, index)
    ensures LinkAt(orders', |orders| - 1, index) == LinkAt(orders, |orders| - 1, index)
  {
  }

  lemma PutLeavesChained(a: PriceLevel, orders: seq<Order>, side: Side, n: Nodes, j: nat, leaves: Quantity)
    requires Bijective(n) && Chained(a, orders, side, n) && j < |orders|
    requires orders[j].id in n.index && n.index[orders[j].id] in n.live
    ensures Chained(a, orders[j := orders[j].(leaves := leaves)], side, PutLeaves(n, n.index[orders[j].id], leaves))
  {
    hide Bijective, Threaded, Distinct, LinkAt;
    PutLeavesThreaded(a, orders, side, n, j, leaves);
    SameIds(orders, orders[j := orders[j].(leaves := leaves)], n.index);
  }

  /** The level record after the j-th order's leaves changed. */
  function Requantified(a: PriceLevel, orders: seq<Order>, j: nat, leaves: Quantity): PriceLevel
    requires j < |orders| && a.aggregate == Sum(orders) && Sum(orders) - orders[j].leaves + leaves <= U64_MAX
  {
    SumWithout(orders, j);
    a.(aggregate := a.aggregate - orders[j].leaves + leaves)
  }

  /** Writing new leaves into an order and its level's aggregate. */
  lemma SetLeavesRep(s: Store, at: Location, leaves: Quantity)
    requires Rep(s) && In(s.book, at) && IsValid(leaves)
    requires Sum(Levels(s.book, at.side)[at.level].orders) - OrderAt(s.book, at).leaves + leaves <= U64_MAX
    ensures s.nodes.index[OrderAt(s.book, at).id] in s.nodes.live
    ensures at.level < |Arr(s, at.side)|
    ensures Arr(s, at.side)[at.level].aggregate == Sum(Levels(s.book, at.side)[at.level].orders)
    ensures Rep(WithSide(s, at.side,
                         SetLeavesAt(Levels(s.book, at.side), at.level, at.index, leaves),
                         Arr(s, at.side)[at.level := Requantified(Arr(s, at.side)[at.level],
                           Levels(s.book, at.side)[at.level].orders, at.index, leaves)],
                         PutLeaves(s.nodes, s.nodes.index[OrderAt(s.book, at).id], leaves)))
  {
    RecordOf(s, at);
    var level, link := Levels(s.book, at.side)[at.level], s.nodes.index[OrderAt(s.book, at).id];
    var a := Arr(s, at.side)[at.level];
    assert LevelRep(a, level, at.side, s.nodes);
    var level' := level.(orders := level.orders[at.index := level.orders[at.index].(leaves := leaves)]);
    PutLeavesChained(a, level.orders, at.side, s.nodes, at.index, leaves);
    PutLeavesBijective(s.nodes, link, leaves);
    assert WfLevel(level);
    WfSetLeaves(level, at.index, leaves);
    hide Bijective, Chained, WfBook, WfLevel, Sum, AgreeElsewhere, PutLeaves;
    LevelChanged(s, at.side, at.level, Requantified(a, level.orders, at.index, leaves), level', PutLeaves(s.nodes, link, leaves));
  }

  // Moving an order to the back of its queue.

  lemma RelinkedAgrees(n: Nodes, live': map<Handle, OrderRecord>, side: Side, price: PriceTicks)
    requires Bijective(n) && Relinked(n.live, live', side, price)
    ensures Bijective(n.(live := live'))
    ensures AgreeElsewhere(n, n.(live := live'), side, price)
  {
  }

  lemma AgreeTransitive(n: Nodes, n': Nodes, n'': Nodes, side: Side, price: PriceTicks)
    requires AgreeElsewhere(n, n', side, price) && AgreeElsewhere(n', n'', side, price)
    ensures AgreeElsewhere(n, n'', side, price)
  {
  }

  /** Unlinks the j-th order of a queue. */
  function UnlinkNodes(n: Nodes, link: Handle): Nodes
    requires link in n.live
  {
    n.(live := UnlinkLive(n.live, link))
  }

  function AppendNodes(n: Nodes, tail: Handle, link: Handle): Nodes {
    n.(live := AppendLive(n.live, tail, link))
  }

  lemma UnlinkLevel(a: PriceLevel, orders: seq<Order>, side: Side, n: Nodes, j: nat)
    requires Bijective(n) && Chained(a, orders, side, n) && j < |orders|
    requires orders[j].id in n.index && n.index[orders[j].id] in n.live
    ensures var link := n.index[orders[j].id];
            && Bijective(UnlinkNodes(n, link))
            && AgreeElsewhere(n, UnlinkNodes(n, link), side, a.price)
            && Chained(Unlinked(a, n.live[link]), Without(orders, j), side, UnlinkNodes(n, link))
            && link in UnlinkNodes(n, link).live
            && UnlinkNodes(n, link).live[link] == n.live[link].(previous := NULL_HANDLE, next := NULL_HANDLE)
  {
    UnlinkChains(a, orders, side, n, j);
    LinksOf(a, orders, side, n, j);
    NeighboursOf(a, orders, side, n, j);
    var link := n.index[orders[j].id];
    UnlinkRelinks(n.live, link, side, a.price);
    RelinkedAgrees(n, UnlinkLive(n.live, link), side, a.price);
    hide Chained, Bijective, AgreeElsewhere, Relinked, Without;
  }

  lemma AppendLevel(a: PriceLevel, orders: seq<Order>, side: Side, n: Nodes, o: Order)
    requires Bijective(n) && Chained(a, orders, side, n)
    requires o.id in n.index && (forall j :: 0 <= j < |orders| ==> orders[j].id != o.id)
    requires n.index[o.id] in n.live
    requires var r := n.live[n.index[o.id]];
             r.instrumentId == n.instrument && r.side == side && r.price == a.price && r.leaves == o.leaves
    ensures var link := n.index[o.id];
            && Bijective(AppendNodes(n, a.tail, link))
            && AgreeElsewhere(n, AppendNodes(n, a.tail, link), side, a.price)
            && Chained(Appended(a, link), orders + [o], side, AppendNodes(n, a.tail, link))
  {
    AppendChains(a, orders, side, n, o);
    AppendRelinks(a, orders, side, n, o.id);
    hide Chained, Relinked;
    RelinkedAgrees(n, AppendLive(n.live, a.tail, n.index[o.id]), side, a.price);
    hide Bijective, AgreeElsewhere;
  }

  /** The nodes after an order was requeued at the back of its level a. */
  function RequeueNodes(n: Nodes, a: PriceLevel, link: Handle): Nodes
    requires link in n.live && a.orderCount > 0
  {
    AppendNodes(UnlinkNodes(n, link), Unlinked(a, n.live[link]).tail, link)
  }

  function RequeueLevel(n: Nodes, a: PriceLevel, link: Handle): PriceLevel
    requires link in n.live && a.orderCount > 0
  {
    Appended(Unlinked(a, n.live[link]), link)
  }

  lemma RequeueChains(a: PriceLevel, orders: seq<Order>, side: Side, n: Nodes, j: nat)
    requires Bijective(n) && Chained(a, orders, side, n) && j < |orders|
    requires orders[j].id in n.index && n.index[orders[j].id] in n.live
    ensures var link, n' := n.index[orders[j].id], RequeueNodes(n, a, n.index[orders[j].id]);
            && Bijective(n') && AgreeElsewhere(n, n', side, a.price)
            && Chained(RequeueLevel(n, a, link), Without(orders, j) + [orders[j]], side, n')
  {
    var link := n.index[orders[j].id];
    UnlinkLevel(a, orders, side, n, j);
    assert n.live[link] == RecordAt(orders, j, side, a.price, n);
    assert forall k :: 0 <= k < |orders| - 1 ==> Without(orders, j)[k].id != orders[j].id;
    hide Chained, Bijective, AgreeElsewhere, UnlinkLive, Without;
    AppendLevel(Unlinked(a, n.live[link]), Without(orders, j), side, UnlinkNodes(n, link), orders[j]);
    AgreeTransitive(n, UnlinkNodes(n, link), RequeueNodes(n, a, link), side, a.price);
  }

  lemma MoveToBackRep(s: Store, at: Location)
    requires Rep(s) && In(s.book, at)
    ensures OrderAt(s.book, at).id in s.nodes.index
    ensures s.nodes.index[OrderAt(s.book, at).id] in s.nodes.live
    ensures at.level < |Arr(s, at.side)| && Arr(s, at.side)[at.level].orderCount > 0
    ensures var link, a := s.nodes.index[OrderAt(s.book, at).id], Arr(s, at.side)[at.level];
            Rep(WithSide(s, at.side,
                         MoveToBackAt(Levels(s.book, at.side), at.level, at.index),
                         Arr(s, at.side)[at.level := RequeueLevel(s.nodes, a, link)],
                         RequeueNodes(s.nodes, a, link)))
  {
    RecordOf(s, at);
    var level, link := Levels(s.book, at.side)[at.level], s.nodes.index[OrderAt(s.book, at).id];
    var a := Arr(s, at.side)[at.level];
    assert LevelRep(a, level, at.side, s.nodes);
    assert WfLevel(level);
    WfRequeue(level, at.index);
    RequeueChains(a, level.orders, at.side, s.nodes, at.index);
    hide Bijective, Chained, WfBook, WfLevel, Sum, AgreeElsewhere, AppendLive, UnlinkLive, Without;
    LevelChanged(s, at.side, at.level, RequeueLevel(s.nodes, a, link),
                 level.(orders := Without(level.orders, at.index) + [level.orders[at.index]]),
                 RequeueNodes(s.nodes, a, link));
  }

  /** Everything the storage relies on about an indexed order and its level. */
  lemma NodeFacts(s: Store, id: OrderId) returns (at: Location)
    requires Rep(s) && id in s.nodes.index
    ensures Locate(s.book, id) == Some(at) && Holds(s.book, at, id)
    ensures HasLevel(at.side, Levels(s.book, at.side), PriceAt(s.book, at))
    ensures LowerBound(at.side, Levels(s.book, at.side), PriceAt(s.book, at)) == at.level < |Arr(s, at.side)|
    ensures !s.nodes.index[id].IsInvalid() && s.nodes.index[id] in s.nodes.live
    ensures var r := s.nodes.live[s.nodes.index[id]];
            && r.orderId == id && r.side == at.side && r.price == PriceAt(s.book, at)
            && r.leaves == OrderAt(s.book, at).leaves
            && IsValid(r.leaves) && IsValid(r.price)
            && (!r.previous.IsInvalid() ==> r.previous in s.nodes.live && r.previous != s.nodes.index[id])
            && (!r.next.IsInvalid() ==> r.next in s.nodes.live && r.next != s.nodes.index[id])
            && var a := Arr(s, at.side)[at.level];
            && a.orderCount > 0 && r.leaves <= a.aggregate
            && (a.aggregate == r.leaves <==> a.orderCount == 1)
            && a.aggregate == Sum(Levels(s.book, at.side)[at.level].orders)
            && (a.tail == s.nodes.index[id] <==> at.index == |Levels(s.book, at.side)[at.level].orders| - 1)
  {
    at := PlaceOf(s, id);
    LevelFacts(s, at);
    var a, level := Arr(s, at.side)[at.level], Levels(s.book, at.side)[at.level];
    LinksOf(a, level.orders, at.side, s.nodes, at.index);
    NeighboursOf(a, level.orders, at.side, s.nodes, at.index);
    hide Rep, LowerBound, Bijective;
    WfWithout(level, at.index);
  }

  // Taking an order out of the book.

  /** The nodes after an order was unlinked, unindexed and released. */
  function DropNodes(n: Nodes, id: OrderId, link: Handle): Nodes
    requires link in n.live
  {
    Nodes(n.instrument, n.index - {id}, UnlinkLive(n.live, link) - {link})
  }

  lemma DropBijective(n: Nodes, id: OrderId)
    requires Bijective(n) && id in n.index && n.index[id] in n.live
    ensures var n' := Nodes(n.instrument, n.index - {id}, n.live - {n.index[id]});
            && Bijective(n')
            && |n'.index| == |n.index| - 1
            && AgreeElsewhere(n, n', n.live[n.index[id]].side, n.live[n.index[id]].price)
  {
    var n' := Nodes(n.instrument, n.index - {id}, n.live - {n.index[id]});
    assert n'.index.Keys == n.index.Keys - {id};
    assert n'.live.Keys == n.live.Keys - {n.index[id]};
    assert |n'.index.Keys| == |n.index.Keys| - 1;
    assert |n'.live.Keys| == |n.live.Keys| - 1;
  }

  /** Dropping an order that is in no queue leaves this queue chained. */
  lemma DropChained(a: PriceLevel, orders: seq<Order>, side: Side, n: Nodes, id: OrderId)
    requires Bijective(n) && Chained(a, orders, side, n) && id in n.index && n.index[id] in n.live
    requires forall k :: 0 <= k < |orders| ==> orders[k].id != id
    ensures Chained(a, orders, side, Nodes(n.instrument, n.index - {id}, n.live - {n.index[id]}))
  {
    var n' := Nodes(n.instrument, n.index - {id}, n.live - {n.index[id]});
    forall k | 0 <= k < |orders|
      ensures orders[k].id in n.index && n.index[orders[k].id] in n.live && n.index[orders[k].id] != n.index[id]
    {
      NeighboursOf(a, orders, side, n, k);
      assert n.live[n.index[orders[k].id]].orderId != n.live[n.index[id]].orderId;
    }
    hide Bijective, Chained;
    SameNodesChained(a, orders, side, n, n');
  }

  lemma DropLevel(a: PriceLevel, orders: seq<Order>, side: Side, n: Nodes, j: nat)
    requires Bijective(n) && Chained(a, orders, side, n) && j < |orders|
    requires orders[j].id in n.index && n.index[orders[j].id] in n.live
    ensures var link, n' := n.index[orders[j].id], DropNodes(n, orders[j].id, n.index[orders[j].id]);
            && Bijective(n') && AgreeElsewhere(n, n', side, a.price)
            && |n'.index| == |n.index| - 1
            && Chained(Unlinked(a, n.live[link]), Without(orders, j), side, n')
  {
    var id, link := orders[j].id, n.index[orders[j].id];
    UnlinkLevel(a, orders, side, n, j);
    assert n.live[link] == RecordAt(orders, j, side, a.price, n);
    assert forall k :: 0 <= k < |orders| - 1 ==> Without(orders, j)[k].id != id;
    hide Chained, Bijective, AgreeElsewhere, UnlinkLive, Without;
    DropBijective(UnlinkNodes(n, link), id);
    DropChained(Unlinked(a, n.live[link]), Without(orders, j), side, UnlinkNodes(n, link), id);
    AgreeTransitive(n, UnlinkNodes(n, link), DropNodes(n, id, link), side, a.price);
  }

  /** The level record after its j-th order was taken out. */
  function Reduced(a: PriceLevel, r: OrderRecord): PriceLevel
    requires a.orderCount > 0 && r.leaves <= a.aggregate
  {
    Unlinked(a, r).(aggregate := a.aggregate - r.leaves)
  }

  /** One side's level records after an order was taken out of level i. */
  function ErasedArr(arr: seq<PriceLevel>, i: nat, r: OrderRecord): seq<PriceLevel>
    requires i < |arr| && arr[i].orderCount > 0 && r.leaves <= arr[i].aggregate
  {
    if arr[i].aggregate == r.leaves then Without(arr, i) else arr[i := Reduced(arr[i], r)]
  }

  /** What a level says about the order at one of its positions. */
  lemma LevelFacts(s: Store, at: Location)
    requires Rep(s) && In(s.book, at)
    ensures at.level < |Arr(s, at.side)| == |Levels(s.book, at.side)|
    ensures LevelRep(Arr(s, at.side)[at.level], Levels(s.book, at.side)[at.level], at.side, s.nodes)
    ensures WfLevel(Levels(s.book, at.side)[at.level])
    ensures OrderAt(s.book, at).id in s.nodes.index
    ensures s.nodes.index[OrderAt(s.book, at).id] in s.nodes.live
    ensures s.nodes.live[s.nodes.index[OrderAt(s.book, at).id]].leaves == OrderAt(s.book, at).leaves
    ensures OrderAt(s.book, at).leaves <= Arr(s, at.side)[at.level].aggregate
    ensures Arr(s, at.side)[at.level].orderCount > 0
  {
    RecordOf(s, at);
    SumWithout(Levels(s.book, at.side)[at.level].orders, at.index);
  }

  lemma EraseRep(s: Store, at: Location)
    requires Rep(s) && In(s.book, at)
    requires at.level < |Arr(s, at.side)| && Arr(s, at.side)[at.level].orderCount > 0
    requires OrderAt(s.book, at).id in s.nodes.index && s.nodes.index[OrderAt(s.book, at).id] in s.nodes.live
    requires s.nodes.live[s.nodes.index[OrderAt(s.book, at).id]].leaves <= Arr(s, at.side)[at.level].aggregate
    ensures var id := OrderAt(s.book, at).id;
            var link := s.nodes.index[id];
            Rep(WithSide(s, at.side,
                         EraseAt(Levels(s.book, at.side), at.level, at.index),
                         ErasedArr(Arr(s, at.side), at.level, s.nodes.live[link]),
                         DropNodes(s.nodes, id, link)))
  {
    var levels, arr := Levels(s.book, at.side), Arr(s, at.side);
    var level, id := levels[at.level], OrderAt(s.book, at).id;
    var link := s.nodes.index[id];
    var n' := DropNodes(s.nodes, id, link);
    LevelFacts(s, at);
    WfWithout(level, at.index);
    hide WfLevel, Sum;
    DropLevel(arr[at.level], level.orders, at.side, s.nodes, at.index);
    hide Bijective, Chained, AgreeElsewhere, DropNodes, Unlinked;
    if |level.orders| == 1 {
      CountErase(levels, at.level, at.index);
      WfRemove(at.side, levels, at.level);
      RemoveLevel(arr, levels, at.side, s.nodes, n', at.level);
      hide Sorted, LevelRep;
      SideChanged(s, at.side, level.price, Without(levels, at.level), Without(arr, at.level), n');
    } else {
      LevelChanged(s, at.side, at.level, Reduced(arr[at.level], s.nodes.live[link]),
                   level.(orders := Without(level.orders, at.index)), n');
    }
  }

  // Putting an order into the book.

  function NewRecord(n: Nodes, side: Side, price: PriceTicks, o: Order): OrderRecord {
    OrderRecord(o.id, n.instrument, side, price, o.leaves, NULL_HANDLE, NULL_HANDLE)
  }

  /** The nodes after an order was acquired and indexed, but not yet queued. */
  function AddNodes(n: Nodes, side: Side, price: PriceTicks, o: Order, link: Handle): Nodes {
    Nodes(n.instrument, n.index[o.id := link], n.live[link := NewRecord(n, side, price, o)])
  }

  lemma AddBijective(n: Nodes, side: Side, price: PriceTicks, o: Order, link: Handle)
    requires Bijective(n) && o.id !in n.index && link !in n.live && !link.IsInvalid()
    ensures var n' := AddNodes(n, side, price, o, link);
            && Bijective(n')
            && |n'.index| == |n.index| + 1
            && AgreeElsewhere(n, n', side, price)
  {
    MapGrows(n.index, o.id, link);
    MapGrows(n.live, link, NewRecord(n, side, price, o));
  }

  lemma MapGrows<K, V>(m: map<K, V>, k: K, v: V)
    requires k !in m
    ensures |m[k := v]| == |m| + 1
  {
  }

  lemma AddChained(a: PriceLevel, orders: seq<Order>, side: Side, n: Nodes, side': Side, price': PriceTicks, o: Order, link: Handle)
    requires Bijective(n) && Chained(a, orders, side, n)
    requires o.id !in n.index && link !in n.live
    ensures Chained(a, orders, side, AddNodes(n, side', price', o, link))
    ensures forall k :: 0 <= k < |orders| ==> orders[k].id != o.id
  {
    var n' := AddNodes(n, side', price', o, link);
    assert SameNodes(orders, n, n') by { hide Distinct, RecordAt; }
    assert forall k :: 0 <= k < |orders| ==> orders[k].id in n.index;
    hide Bijective, SameNodes, Chained;
    SameNodesChained(a, orders, side, n, n');
  }

  /** The nodes after an order was inserted behind the tail of level a. */
  function InsertNodes(n: Nodes, side: Side, a: PriceLevel, o: Order, link: Handle): Nodes {
    AppendNodes(AddNodes(n, side, a.price, o, link), a.tail, link)
  }

  lemma InsertChains(a: PriceLevel, orders: seq<Order>, side: Side, n: Nodes, o: Order, link: Handle)
    requires Bijective(n) && Chained(a, orders, side, n)
    requires o.id !in n.index && link !in n.live && !link.IsInvalid()
    ensures var n' := InsertNodes(n, side, a, o, link);
            && Bijective(n') && AgreeElsewhere(n, n', side, a.price)
            && |n'.index| == |n.index| + 1
            && Chained(Appended(a, link), orders + [o], side, n')
  {
    AddBijective(n, side, a.price, o, link);
    AddChained(a, orders, side, n, side, a.price, o, link);
    var n1 := AddNodes(n, side, a.price, o, link);
    assert n1.live[n1.index[o.id]] == NewRecord(n, side, a.price, o);
    hide Chained, Bijective, AgreeElsewhere;
    AppendLevel(a, orders, side, n1, o);
    AgreeTransitive(n, n1, InsertNodes(n, side, a, o, link), side, a.price);
  }

  /** A level record with no orders, as create_level leaves it. */
  function EmptyLevel(price: PriceTicks): PriceLevel {
    PriceLevel(price, 0, 0, NULL_HANDLE, NULL_HANDLE)
  }

  function InsertedLevel(a: PriceLevel, o: Order, link: Handle): PriceLevel
    requires a.aggregate + o.leaves <= U64_MAX
  {
    Appended(a, link).(aggregate := a.aggregate + o.leaves)
  }

  lemma ChainedAnyAggregate(a: PriceLevel, orders: seq<Order>, side: Side, n: Nodes, aggregate: Quantity)
    requires Chained(a, orders, side, n)
    ensures Chained(a.(aggregate := aggregate), orders, side, n)
  {
  }

  lemma EmptyChained(price: PriceTicks, side: Side, n: Nodes)
    ensures Chained(EmptyLevel(price), [], side, n)
  {
  }

  lemma LevelRecord(s: Store, side: Side, p: nat)
    requires Rep(s) && IsSide(side) && p < |Levels(s.book, side)|
    ensures p < |Arr(s, side)|
    ensures LevelRep(Arr(s, side)[p], Levels(s.book, side)[p], side, s.nodes)
    ensures WfLevel(Levels(s.book, side)[p])
  {
  }

  /** Inserting into a level that exists. */
  lemma InsertIntoRep(s: Store, side: Side, price: PriceTicks, o: Order, link: Handle)
    requires Rep(s) && IsSide(side) && HasLevel(side, Levels(s.book, side), price)
    requires o.id !in s.nodes.index && link !in s.nodes.live && !link.IsInvalid()
    requires IsValid(o.id) && IsValid(o.leaves)
    requires Sum(Levels(s.book, side)[LowerBound(side, Levels(s.book, side), price)].orders) + o.leaves <= U64_MAX
    ensures var p := LowerBound(side, Levels(s.book, side), price);
            && p < |Arr(s, side)|
            && var a := Arr(s, side)[p];
            && a.aggregate == Sum(Levels(s.book, side)[p].orders)
            && Rep(WithSide(s, side, InsertOrder(side, Levels(s.book, side), price, o),
                            Arr(s, side)[p := InsertedLevel(a, o, link)],
                            InsertNodes(s.nodes, side, a, o, link)))
  {
    var levels, arr := Levels(s.book, side), Arr(s, side);
    var p := LowerBound(side, levels, price);
    hide Bijective, Chained, AgreeElsewhere, InsertNodes, WfLevel, Sum, Sorted, LowerBound, SideRep, WfBook;
    LevelRecord(s, side, p);
    InsertChains(arr[p], levels[p].orders, side, s.nodes, o, link);
    WfAppend(levels[p], o);
    ChainedAnyAggregate(Appended(arr[p], link), levels[p].orders + [o], side,
                        InsertNodes(s.nodes, side, arr[p], o, link), arr[p].aggregate + o.leaves);
    LevelChanged(s, side, p, InsertedLevel(arr[p], o, link), Level(price, levels[p].orders + [o]),
                 InsertNodes(s.nodes, side, arr[p], o, link));
  }

  /** Inserting into a new level, put where binary search says. */
  lemma InsertNewRep(s: Store, side: Side, price: PriceTicks, o: Order, link: Handle)
    requires Rep(s) && IsSide(side) && !HasLevel(side, Levels(s.book, side), price)
    requires o.id !in s.nodes.index && link !in s.nodes.live && !link.IsInvalid()
    requires IsValid(o.id) && IsValid(o.leaves) && IsValid(price)
    ensures var p := LowerBound(side, Levels(s.book, side), price);
            var arr := Arr(s, side);
            && p <= |arr|
            && Rep(WithSide(s, side, InsertOrder(side, Levels(s.book, side), price, o),
                            Opened(arr, p, InsertedLevel(EmptyLevel(price), o, link)),
                            InsertNodes(s.nodes, side, EmptyLevel(price), o, link)))
  {
    var levels, arr := Levels(s.book, side), Arr(s, side);
    var p := LowerBound(side, levels, price);
    var a, level := InsertedLevel(EmptyLevel(price), o, link), Level(price, [o]);
    var n' := InsertNodes(s.nodes, side, EmptyLevel(price), o, link);
    hide Bijective, AgreeElsewhere, InsertNodes, SideRep, Sum, Count, Chained;
    LowerBoundSplits(side, levels, price);
    PriceMissing(side, levels, price);
    hide LowerBound, Sorted;
    EmptyChained(price, side, s.nodes);
    InsertChains(EmptyLevel(price), [], side, s.nodes, o, link);
    assert [] + [o] == [o];
    SingleLevel(price, o);
    CountInsert(side, levels, price, o);
    WfInsert(side, levels, p, level);
    ChainedAnyAggregate(Appended(EmptyLevel(price), link), [o], side, n', o.leaves);
    hide WfLevel;
    AddLevel(arr, levels, side, s.nodes, n', p, a, level);
    SideChanged(s, side, price, Opened(levels, p, level), Opened(arr, p, a), n');
  }

}
