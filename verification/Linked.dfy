/**
  How the book is laid out in memory: an ID index, pool records threaded into
  one doubly-linked list per price level, and a level array per side. Each
  operation on the layout is shown to be the operation of the same name on the
  book.
 */
module Linked {
  import opened Domain
  import opened Pool
  import opened Book

  datatype OrderRecord = OrderRecord(
    orderId: OrderId,
    instrumentId: InstrumentId,
    side: Side,
    price: PriceTicks,
    leaves: Quantity,
    previous: Handle,
    next: Handle)

  datatype PriceLevel = PriceLevel(
    price: PriceTicks,
    aggregate: Quantity,
    orderCount: nat,
    head: Handle,
    tail: Handle)

  /** The index and the pool's live records. */
  datatype Nodes = Nodes(
    instrument: InstrumentId,
    index: map<OrderId, Handle>,
    live: map<Handle, OrderRecord>)

  /** Index entries and live records are in bijection. */
  ghost predicate Bijective(n: Nodes) {
    && (forall id :: id in n.index ==>
          && !n.index[id].IsInvalid()
          && n.index[id] in n.live
          && n.live[n.index[id]].orderId == id)
    && (forall h :: h in n.live ==>
          n.live[h].orderId in n.index && n.index[n.live[h].orderId] == h)
    && |n.index| == |n.live|
  }

  /** The link of the j-th order of a queue, or the null link outside it. */
  function LinkAt(orders: seq<Order>, j: int, index: map<OrderId, Handle>): Handle {
    if 0 <= j < |orders| && orders[j].id in index then index[orders[j].id] else NULL_HANDLE
  }

  function RecordAt(orders: seq<Order>, j: nat, side: Side, price: PriceTicks, n: Nodes): OrderRecord
    requires j < |orders|
  {
    OrderRecord(orders[j].id, n.instrument, side, price, orders[j].leaves,
                LinkAt(orders, j - 1, n.index), LinkAt(orders, j + 1, n.index))
  }

  ghost predicate Distinct(orders: seq<Order>) {
    forall j, k :: 0 <= j < k < |orders| ==> orders[j].id != orders[k].id
  }

  /** Following the links from head visits the orders, front to back. */
  ghost predicate Threaded(orders: seq<Order>, side: Side, price: PriceTicks, n: Nodes) {
    forall j :: 0 <= j < |orders| ==>
      && orders[j].id in n.index
      && n.index[orders[j].id] in n.live
      && n.live[n.index[orders[j].id]] == RecordAt(orders, j, side, price, n)
  }

  ghost predicate Chained(level: PriceLevel, orders: seq<Order>, side: Side, n: Nodes) {
    && level.orderCount == |orders|
    && level.head == LinkAt(orders, 0, n.index)
    && level.tail == LinkAt(orders, |orders| - 1, n.index)
    && Distinct(orders)
    && Threaded(orders, side, level.price, n)
  }

  // The two list operations, on the level's ends and on the records.

  function Appended(level: PriceLevel, link: Handle): PriceLevel {
    level.(head := if level.tail.IsInvalid() then link else level.head,
           tail := link,
           orderCount := level.orderCount + 1)
  }

  /** The records after link is appended behind tail. */
  function AppendLive(live: map<Handle, OrderRecord>, tail: Handle, link: Handle): map<Handle, OrderRecord> {
    map h | h in live ::
      live[h].(previous := if h == link then tail else live[h].previous,
               next := if h == tail && !tail.IsInvalid() then link
                       else if h == link then NULL_HANDLE
                       else live[h].next)
  }

  function Unlinked(level: PriceLevel, r: OrderRecord): PriceLevel
    requires level.orderCount > 0
  {
    level.(head := if r.previous.IsInvalid() then r.next else level.head,
           tail := if r.next.IsInvalid() then r.previous else level.tail,
           orderCount := level.orderCount - 1)
  }

  /** The records after link is taken out and its neighbours joined. */
  function UnlinkLive(live: map<Handle, OrderRecord>, link: Handle): map<Handle, OrderRecord>
    requires link in live
  {
    var r := live[link];
    map h | h in live ::
      if h == link then
        live[h].(previous := NULL_HANDLE, next := NULL_HANDLE)
      else
        live[h].(previous := if h == r.next && !r.next.IsInvalid() then r.previous else live[h].previous,
                 next := if h == r.previous && !r.previous.IsInvalid() then r.next else live[h].next)
  }

  /** The records after h's forward link was rewritten; a null h changes nothing. */
  function WithNext(live: map<Handle, OrderRecord>, h: Handle, next: Handle): map<Handle, OrderRecord>
    requires !h.IsInvalid() ==> h in live
  {
    if h.IsInvalid() then live else live[h := live[h].(next := next)]
  }

  function WithPrevious(live: map<Handle, OrderRecord>, h: Handle, previous: Handle): map<Handle, OrderRecord>
    requires !h.IsInvalid() ==> h in live
  {
    if h.IsInvalid() then live else live[h := live[h].(previous := previous)]
  }

  /** Joining the neighbours and clearing the links takes the record out. */
  lemma UnlinkSteps(live: map<Handle, OrderRecord>, link: Handle)
    requires link in live
    requires !live[link].previous.IsInvalid() ==> live[link].previous in live && live[link].previous != link
    requires !live[link].next.IsInvalid() ==> live[link].next in live && live[link].next != link
    ensures var r := live[link];
            var joined := WithPrevious(WithNext(live, r.previous, r.next), r.next, r.previous);
            joined[link := r.(previous := NULL_HANDLE, next := NULL_HANDLE)] == UnlinkLive(live, link)
  {
  }

  /** Only links changed, and only within the queue of one side and price. */
  ghost predicate Relinked(live: map<Handle, OrderRecord>, live': map<Handle, OrderRecord>,
                           side: Side, price: PriceTicks) {
    && live'.Keys == live.Keys
    && (forall h :: h in live ==>
          live'[h] == live[h].(previous := live'[h].previous, next := live'[h].next))
    && (forall h :: h in live && !(live[h].side == side && live[h].price == price) ==> live'[h] == live[h])
  }

  lemma RelinkBijective(n: Nodes, live': map<Handle, OrderRecord>, side: Side, price: PriceTicks)
    requires Bijective(n) && Relinked(n.live, live', side, price)
    ensures Bijective(n.(live := live'))
  {
  }

  /** Neighbours in a list are distinct records of the same queue. */
  lemma NeighboursOf(level: PriceLevel, orders: seq<Order>, side: Side, n: Nodes, j: nat)
    requires Bijective(n) && Chained(level, orders, side, n) && j < |orders|
    ensures n.index[orders[j].id] in n.live
    ensures forall k :: 0 <= k < |orders| && k != j ==> n.index[orders[k].id] != n.index[orders[j].id]
    ensures forall k :: 0 <= k < |orders| ==>
              !n.index[orders[k].id].IsInvalid() && n.index[orders[k].id] in n.live
              && n.live[n.index[orders[k].id]].side == side && n.live[n.index[orders[k].id]].price == level.price
    ensures n.live[n.index[orders[j].id]] == RecordAt(orders, j, side, level.price, n)
  {
  }

  lemma AppendRelinks(level: PriceLevel, orders: seq<Order>, side: Side, n: Nodes, id: OrderId)
    requires Bijective(n) && Chained(level, orders, side, n) && id in n.index
    requires n.live[n.index[id]].side == side && n.live[n.index[id]].price == level.price
    requires forall j :: 0 <= j < |orders| ==> orders[j].id != id
    ensures level.tail.IsInvalid() <==> orders == []
    ensures !level.tail.IsInvalid() ==> level.tail in n.live && level.tail != n.index[id]
    ensures Relinked(n.live, AppendLive(n.live, level.tail, n.index[id]), side, level.price)
  {
  }

  /** Appending to the list appends to the queue. */
  lemma AppendChains(level: PriceLevel, orders: seq<Order>, side: Side, n: Nodes, o: Order)
    requires Bijective(n) && Chained(level, orders, side, n)
    requires o.id in n.index && (forall j :: 0 <= j < |orders| ==> orders[j].id != o.id)
    requires var r := n.live[n.index[o.id]];
             r.instrumentId == n.instrument && r.side == side && r.price == level.price && r.leaves == o.leaves
    ensures !level.tail.IsInvalid() ==> level.tail in n.live
    ensures var n' := n.(live := AppendLive(n.live, level.tail, n.index[o.id]));
            && Bijective(n')
            && Chained(Appended(level, n.index[o.id]), orders + [o], side, n')
  {
    AppendRelinks(level, orders, side, n, o.id);
    var live' := AppendLive(n.live, level.tail, n.index[o.id]);
    RelinkBijective(n, live', side, level.price);
    hide Relinked;
    var n', orders' := n.(live := live'), orders + [o];
    assert n.live[n.index[o.id]].orderId == o.id;
    forall j | 0 <= j < |orders'|
      ensures orders'[j].id in n'.index && n'.index[orders'[j].id] in n'.live
      ensures n'.live[n'.index[orders'[j].id]] == RecordAt(orders', j, side, level.price, n')
    {
      if j + 1 < |orders| {
        NeighboursOf(level, orders, side, n, j);
      }
    }
  }

  /** The links stored in an order's record are those of its neighbours in the queue. */
  lemma LinksOf(level: PriceLevel, orders: seq<Order>, side: Side, n: Nodes, j: nat)
    requires Bijective(n) && Chained(level, orders, side, n) && j < |orders|
    ensures var link := n.index[orders[j].id];
            && link in n.live
            && (n.live[link].previous.IsInvalid() <==> j == 0)
            && (n.live[link].next.IsInvalid() <==> j == |orders| - 1)
            && (j > 0 ==> n.live[link].previous == n.index[orders[j - 1].id] && n.live[link].previous in n.live)
            && (j < |orders| - 1 ==> n.live[link].next == n.index[orders[j + 1].id] && n.live[link].next in n.live)
  {
  }

  /** A record of the queue of that side and price. */
  ghost predicate InQueue(live: map<Handle, OrderRecord>, h: Handle, side: Side, price: PriceTicks) {
    h in live && live[h].side == side && live[h].price == price
  }

  lemma UnlinkRelinks(live: map<Handle, OrderRecord>, link: Handle, side: Side, price: PriceTicks)
    requires InQueue(live, link, side, price)
    requires live[link].previous.IsInvalid() || InQueue(live, live[link].previous, side, price)
    requires live[link].next.IsInvalid() || InQueue(live, live[link].next, side, price)
    ensures Relinked(live, UnlinkLive(live, link), side, price)
  {
  }

  /** What unlinking does to the record of every other order of the queue. */
  lemma UnlinkedRecords(level: PriceLevel, orders: seq<Order>, side: Side, n: Nodes, j: nat, k: nat)
    requires Bijective(n) && Chained(level, orders, side, n) && j < |orders| && k < |orders| && k != j
    requires n.index[orders[j].id] in n.live
    ensures var r := RecordAt(orders, k, side, level.price, n);
            var live' := UnlinkLive(n.live, n.index[orders[j].id]);
            && n.index[orders[k].id] in live'
            && live'[n.index[orders[k].id]] ==
               if k + 1 == j then r.(next := LinkAt(orders, j + 1, n.index))
               else if k == j + 1 then r.(previous := LinkAt(orders, j - 1, n.index))
               else r
  {
    NeighboursOf(level, orders, side, n, j);
    NeighboursOf(level, orders, side, n, k);
    hide Distinct;
    LinksOf(level, orders, side, n, j);
  }

  lemma DistinctWithout(orders: seq<Order>, j: nat)
    requires Distinct(orders) && j < |orders|
    ensures Distinct(Without(orders, j))
  {
  }

  /** Positions and neighbours in a queue that lost its j-th order. */
  lemma WithoutLinks(orders: seq<Order>, j: nat, i: nat, index: map<OrderId, Handle>)
    requires j < |orders| && i < |orders| - 1
    ensures var k := if i < j then i else i + 1;
            && Without(orders, j)[i] == orders[k]
            && LinkAt(Without(orders, j), i - 1, index) ==
               (if k == j + 1 then LinkAt(orders, j - 1, index) else LinkAt(orders, k - 1, index))
            && LinkAt(Without(orders, j), i + 1, index) ==
               (if k + 1 == j then LinkAt(orders, j + 1, index) else LinkAt(orders, k + 1, index))
  {
  }

  lemma UnlinkThreads(level: PriceLevel, orders: seq<Order>, side: Side, n: Nodes, j: nat)
    requires Bijective(n) && Chained(level, orders, side, n) && j < |orders|
    requires n.index[orders[j].id] in n.live
    ensures Threaded(Without(orders, j), side, level.price,
                     n.(live := UnlinkLive(n.live, n.index[orders[j].id])))
  {
    var n' := n.(live := UnlinkLive(n.live, n.index[orders[j].id]));
    var orders' := Without(orders, j);
    forall i | 0 <= i < |orders'|
      ensures orders'[i].id in n'.index && n'.index[orders'[i].id] in n'.live
      ensures n'.live[n'.index[orders'[i].id]] == RecordAt(orders', i, side, level.price, n')
    {
      var k := if i < j then i else i + 1;
      WithoutLinks(orders, j, i, n.index);
      NeighboursOf(level, orders, side, n, k);
      UnlinkedRecords(level, orders, side, n, j, k);
      assert orders[k].id in n.index;
      hide UnlinkLive, Bijective, Chained, LinkAt, Without;
    }
  }

  lemma UnlinkEnds(level: PriceLevel, orders: seq<Order>, side: Side, n: Nodes, j: nat)
    requires Bijective(n) && Chained(level, orders, side, n) && j < |orders|
    ensures n.index[orders[j].id] in n.live
    ensures var level' := Unlinked(level, n.live[n.index[orders[j].id]]);
            && level'.head == LinkAt(Without(orders, j), 0, n.index)
            && level'.tail == LinkAt(Without(orders, j), |orders| - 2, n.index)
  {
  }

  lemma QueueRelinks(level: PriceLevel, orders: seq<Order>, side: Side, n: Nodes, j: nat)
    requires Bijective(n) && Chained(level, orders, side, n) && j < |orders|
    ensures orders[j].id in n.index && n.index[orders[j].id] in n.live
    ensures Relinked(n.live, UnlinkLive(n.live, n.index[orders[j].id]), side, level.price)
  {
    LinksOf(level, orders, side, n, j);
    NeighboursOf(level, orders, side, n, j);
    hide Bijective, Chained, Relinked, UnlinkLive, LinkAt;
    UnlinkRelinks(n.live, n.index[orders[j].id], side, level.price);
  }

  /** Unlinking anywhere in the list removes that order from the queue. */
  lemma {:induction false} UnlinkChains(level: PriceLevel, orders: seq<Order>, side: Side, n: Nodes, j: nat)
    requires Bijective(n) && Chained(level, orders, side, n) && j < |orders|
    ensures var link := n.index[orders[j].id];
            && link in n.live
            && var n' := n.(live := UnlinkLive(n.live, link));
            && Bijective(n')
            && Chained(Unlinked(level, n.live[link]), Without(orders, j), side, n')
  {
    QueueRelinks(level, orders, side, n, j);
    hide Relinked, UnlinkLive, Bijective, Threaded, Distinct, LinkAt;
    RelinkBijective(n, UnlinkLive(n.live, n.index[orders[j].id]), side, level.price);
    UnlinkEnds(level, orders, side, n, j);
    UnlinkThreads(level, orders, side, n, j);
    DistinctWithout(orders, j);
  }
}
