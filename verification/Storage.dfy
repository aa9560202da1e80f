/**
  Pool-backed storage of one instrument's resting orders. Every method is
  proved against the operation of the same meaning on the abstract book.
 */
module Storage {
  import opened Domain
  import opened Pool
  import opened ActiveIndex
  import opened Book
  import opened Linked
  import opened Layout

  /** A walk of a level starts at its first order. */
  lemma WalkStarts(s: Store, side: Side, i: nat)
    requires Rep(s) && IsSide(side) && i < |Levels(s.book, side)|
    ensures i < |Arr(s, side)|
    ensures Arr(s, side)[i].head == LinkAt(Levels(s.book, side)[i].orders, 0, s.nodes.index)
    ensures !Arr(s, side)[i].head.IsInvalid() && Levels(s.book, side)[i].orders != []
  {
  }

  /** Each record names its order and leads to the next one, the last to none. */
  lemma WalkStep(s: Store, side: Side, i: nat, j: nat)
    requires Rep(s) && IsSide(side) && i < |Levels(s.book, side)| && j < |Levels(s.book, side)[i].orders|
    ensures var queue, link := Levels(s.book, side)[i].orders, LinkAt(Levels(s.book, side)[i].orders, j, s.nodes.index);
            && link in s.nodes.live
            && var r := s.nodes.live[link];
            && r.orderId == queue[j].id && r.side == side && r.price == Levels(s.book, side)[i].price
            && r.leaves == queue[j].leaves
            && r.next == LinkAt(queue, j + 1, s.nodes.index)
            && (r.next.IsInvalid() <==> j + 1 == |queue|)
  {
  }

  /** What the debug check asks of a node besides what WalkStep says. */
  lemma NodeFits(s: Store, side: Side, i: nat, j: nat)
    requires Rep(s) && IsSide(side) && i < |Levels(s.book, side)| && j < |Levels(s.book, side)[i].orders|
    ensures var queue := Levels(s.book, side)[i].orders;
            var link := LinkAt(queue, j, s.nodes.index);
            && !link.IsInvalid() && link in s.nodes.live
            && s.nodes.live[link].previous == LinkAt(queue, j - 1, s.nodes.index)
            && s.nodes.live[link].instrumentId == s.nodes.instrument
            && queue[j].id in s.nodes.index && s.nodes.index[queue[j].id] == link
            && IsValid(queue[j].id) && IsValid(queue[j].leaves)
            && j < |s.nodes.index|
  {
    LevelRecord(s, side, i);
    assert WfLevel(Levels(s.book, side)[i]);
    CountsWithin(Levels(s.book, side), i);
  }

  lemma LevelFits(s: Store, side: Side, i: nat)
    requires Rep(s) && IsSide(side) && i < |Levels(s.book, side)|
    ensures i < |Arr(s, side)| && Levels(s.book, side)[i].orders != []
    ensures var a, queue := Arr(s, side)[i], Levels(s.book, side)[i].orders;
            && IsValid(a.price) && a.aggregate == Sum(queue) <= U64_MAX
            && a.head == LinkAt(queue, 0, s.nodes.index) && !a.head.IsInvalid()
            && a.tail == LinkAt(queue, |queue| - 1, s.nodes.index) && !a.tail.IsInvalid()
            && LinkAt(queue, -1, s.nodes.index) == NULL_HANDLE
  {
  }

  lemma CountsWithin(levels: seq<Level>, i: nat)
    requires i < |levels|
    ensures |levels[i].orders| <= Count(levels)
  {
    if i == 0 {
    } else {
      CountsWithin(levels[1..], i - 1);
    }
  }

  lemma SumStep(queue: seq<Order>, j: nat)
    requires j < |queue|
    ensures Sum(queue[j..]) == queue[j].leaves + Sum(queue[j + 1..])
  {
  }

  lemma SumEnd(queue: seq<Order>)
    ensures Sum(queue[|queue|..]) == 0
  {
  }

  lemma CountStep(levels: seq<Level>, i: nat)
    requires i < |levels|
    ensures Count(levels[i..]) == |levels[i].orders| + Count(levels[i + 1..])
  {
  }

  lemma CountEnd(levels: seq<Level>)
    ensures Count(levels[|levels|..]) == 0
  {
  }

  lemma EmptyRep(s: Store)
    requires s.book == EMPTY && s.bids == [] && s.asks == [] && s.nodes.index == map[] && s.nodes.live == map[]
    ensures Rep(s)
  {
  }

  lemma CountSetLeaves(book: Book, id: OrderId, leaves: Quantity)
    ensures CountBook(SetLeaves(book, id, leaves)) == CountBook(book)
  {
    match Locate(book, id)
    case Some(at) =>
      var levels := Levels(book, at.side);
      CountUpdate(levels, at.level, levels[at.level].(orders :=
        levels[at.level].orders[at.index := levels[at.level].orders[at.index].(leaves := leaves)]));
    case None =>
  }

  lemma SetLeavesSame(book: Book, at: Location)
    requires In(book, at) && Locate(book, OrderAt(book, at).id) == Some(at)
    ensures SetLeaves(book, OrderAt(book, at).id, OrderAt(book, at).leaves) == book
  {
    var levels := Levels(book, at.side);
    assert levels[at.level].orders[at.index := OrderAt(book, at)] == levels[at.level].orders;
    assert levels[at.level := levels[at.level]] == levels;
  }

  /** Requeueing the last order changes nothing. */
  lemma LastStays(book: Book, at: Location)
    requires In(book, at) && Locate(book, OrderAt(book, at).id) == Some(at)
    requires at.index == |Levels(book, at.side)[at.level].orders| - 1
    ensures MoveToBack(book, OrderAt(book, at).id) == book
  {
    var levels := Levels(book, at.side);
    var orders := levels[at.level].orders;
    assert Without(orders, at.index) + [orders[at.index]] == orders;
    assert levels[at.level := levels[at.level]] == levels;
  }

  lemma CountMoveToBack(book: Book, id: OrderId)
    ensures CountBook(MoveToBack(book, id)) == CountBook(book)
  {
    match Locate(book, id)
    case Some(at) =>
      var levels := Levels(book, at.side);
      var orders := levels[at.level].orders;
      CountUpdate(levels, at.level, levels[at.level].(orders := Without(orders, at.index) + [orders[at.index]]));
    case None =>
  }

  /** After unlinking, the level's tail is live or null, as appending needs. */
  lemma RequeueTail(s: Store, at: Location)
    requires Rep(s) && In(s.book, at)
    ensures var link := s.nodes.index[OrderAt(s.book, at).id];
            && link in s.nodes.live && at.level < |Arr(s, at.side)|
            && Arr(s, at.side)[at.level].orderCount > 0
            && var tail := Unlinked(Arr(s, at.side)[at.level], s.nodes.live[link]).tail;
            !tail.IsInvalid() ==> tail in s.nodes.live
  {
    LevelFacts(s, at);
    LevelEnds(s, at.side, at.level);
    LinksOf(Arr(s, at.side)[at.level], Levels(s.book, at.side)[at.level].orders, at.side, s.nodes, at.index);
  }

  lemma LinkLive(s: Store, id: OrderId)
    requires Rep(s) && id in s.nodes.index
    ensures s.nodes.index[id] in s.nodes.live
  {
  }

  /**
    The slot the next insertion takes can still advance its generation; if the
    pool is full that is the slot of the first order to be removed.
   */
  ghost predicate CanTakeSlot<T>(p: PoolState<T>, index: map<OrderId, Handle>, first: Option<OrderId>) {
    if p.free != [] then
      p.free[0] < |p.gens| && p.gens[p.free[0]] != p.maxGeneration
    else
      first.Some? && first.value in index && index[first.value].generation != p.maxGeneration
  }

  /** After the first removal the prediction has come true. */
  lemma SlotFreed<T>(p: PoolState<T>, p': PoolState<T>, index: map<OrderId, Handle>, index': map<OrderId, Handle>, id: OrderId)
    requires id in index && index[id].index < |p.gens| && index[id].generation == p.gens[index[id].index]
    requires p'.free == p.free + [index[id].index] && p'.gens == p.gens && p'.maxGeneration == p.maxGeneration
    ensures CanTakeSlot(p, index, Some(id)) ==> CanTakeSlot(p', index', None)
  {
  }

  /** An ID is indexed exactly when the book has an order with it. */
  lemma IndexIsBook(s: Store, id: OrderId)
    requires Rep(s)
    ensures id in s.nodes.index <==> Locate(s.book, id).Some?
  {
    if id in s.nodes.index {
      var at := PlaceOf(s, id);
    } else if Locate(s.book, id).Some? {
      RecordOf(s, Locate(s.book, id).value);
    }
  }

  /** The ends of a level's queue are live, or null when it is empty. */
  lemma LevelEnds(s: Store, side: Side, i: nat)
    requires Rep(s) && IsSide(side) && i < |Levels(s.book, side)|
    ensures i < |Arr(s, side)|
    ensures Arr(s, side)[i].price == Levels(s.book, side)[i].price
    ensures Arr(s, side)[i].aggregate == Sum(Levels(s.book, side)[i].orders)
    ensures !Arr(s, side)[i].tail.IsInvalid() ==> Arr(s, side)[i].tail in s.nodes.live
    ensures !Arr(s, side)[i].head.IsInvalid() ==> Arr(s, side)[i].head in s.nodes.live
  {
  }

  lemma CountBookInsert(book: Book, side: Side, price: PriceTicks, o: Order)
    ensures CountBook(Insert(book, side, price, o)) == CountBook(book) + 1
  {
    CountInsert(side, Levels(book, side), price, o);
  }

  lemma StoreCounts(s: Store)
    requires Rep(s)
    ensures |s.nodes.index| == |s.nodes.live| == CountBook(s.book)
  {
  }

  lemma OpenedFrom<T>(s: seq<T>, t: seq<T>, p: nat)
    requires p <= |s| && |t| == |s| + 1
    requires forall k :: 0 <= k < p ==> t[k] == s[k]
    requires forall k :: p < k <= |s| ==> t[k] == s[k - 1]
    ensures t == Opened(s, p, t[p])
  {
  }

  lemma OpenedUpdate<T>(s: seq<T>, p: nat, v: T, w: T)
    requires p <= |s|
    ensures Opened(s, p, v)[p := w] == Opened(s, p, w)
  {
  }

  function Max(a: nat, b: nat): nat {
    if a < b then b else a
  }

  function Min(a: nat, b: nat): nat {
    if a < b then a else b
  }

  /** Backing arrays are never empty. */
  function PhysicalCapacity(logical: nat): nat {
    if logical < 1 then 1 else logical
  }

  ghost predicate SamePrices(arr: seq<PriceLevel>, levels: seq<Level>) {
    |arr| == |levels| && forall i :: 0 <= i < |arr| ==> arr[i].price == levels[i].price
  }

  lemma SidePrices(s: Store, side: Side)
    requires Rep(s) && IsSide(side)
    ensures SamePrices(Arr(s, side), Levels(s.book, side)) && Sorted(side, Levels(s.book, side))
  {
  }

  lemma SideFacts(s: Store, side: Side)
    requires Rep(s) && IsSide(side)
    ensures |Arr(s, side)| == |Levels(s.book, side)| && Sorted(side, Levels(s.book, side))
    ensures forall i :: 0 <= i < |Levels(s.book, side)| ==>
              && Arr(s, side)[i].price == Levels(s.book, side)[i].price
              && Arr(s, side)[i].aggregate == Sum(Levels(s.book, side)[i].orders) >= 1
              && Arr(s, side)[i].orderCount == |Levels(s.book, side)[i].orders| >= 1
  {
  }

  class OrderBookStorage {
    const instrumentId: InstrumentId
    const activeOrderCapacity: nat
    const priceLevelCapacityPerSide: nat
    const pool: FixedObjectPool<OrderRecord>
    const orders: ActiveOrderIndex
    const bids: array<PriceLevel>
    const asks: array<PriceLevel>
    var bidLevelCount: nat
    var askLevelCount: nat
    var bidLevelHighWater: nat
    var askLevelHighWater: nat
    ghost var book: Book

    ghost const Footprint: set<object> :=
      {this, pool, pool.slots, pool.freeIndices, orders, orders.entries, bids, asks}

    /** Arrays of the right size, none of them shared. */
    ghost predicate Shape()
      reads this
    {
      && bids != asks
      && bids.Length == asks.Length >= priceLevelCapacityPerSide
      && bidLevelCount <= priceLevelCapacityPerSide
      && askLevelCount <= priceLevelCapacityPerSide
      && bidLevelCount <= bidLevelHighWater
      && askLevelCount <= askLevelHighWater
    }

    function Array(side: Side): array<PriceLevel> {
      if side.Buy? then bids else asks
    }

    function PriceLevelCount(side: Side): nat
      reads this
    {
      if side.Buy? then bidLevelCount
      else if side.Sell? then askLevelCount
      else 0
    }

    function LevelHighWater(side: Side): nat
      reads this
    {
      if side.Buy? then bidLevelHighWater else askLevelHighWater
    }

    ghost function StoreOf(): Store
      requires Shape()
      reads Footprint
    {
      Store(book, bids[..bidLevelCount], asks[..askLevelCount],
            Nodes(instrumentId, orders.contents, pool.state.live))
    }

    ghost predicate Valid()
      reads Footprint
    {
      && Shape()
      && pool.Valid()
      && orders.Valid()
      && pool.maxGeneration == pool.maxEpoch == U64_MAX
      && pool.slots.Length >= activeOrderCapacity
      && orders.entries.Length >= 2 * activeOrderCapacity
      && CountBook(book) <= activeOrderCapacity
      && Rep(StoreOf())
    }

    constructor (instrumentId: InstrumentId, activeOrders: nat, priceLevelsPerSide: nat, hash: Hash)
      ensures Valid() && fresh(Footprint)
      ensures book == EMPTY
      ensures pool.state == Fresh(pool.slots.Length, U64_MAX, U64_MAX, 1)
      ensures this.instrumentId == instrumentId
      ensures activeOrderCapacity == Min(activeOrders, 131072)
      ensures priceLevelCapacityPerSide == Min(priceLevelsPerSide, 4096)
    {
      hide Rep, FixedObjectPool.Valid, ActiveOrderIndex.Valid;
      this.instrumentId := instrumentId;
      activeOrderCapacity := Min(activeOrders, MAXIMUM_ACTIVE_ORDERS);
      priceLevelCapacityPerSide := Min(priceLevelsPerSide, MAXIMUM_PRICE_LEVELS_PER_SIDE);
      pool := new FixedObjectPool<OrderRecord>(
        PhysicalCapacity(Min(activeOrders, MAXIMUM_ACTIVE_ORDERS)), U64_MAX, U64_MAX);
      orders := new ActiveOrderIndex(Min(activeOrders, MAXIMUM_ACTIVE_ORDERS), hash);
      var physicalLevels := PhysicalCapacity(Min(priceLevelsPerSide, MAXIMUM_PRICE_LEVELS_PER_SIDE));
      bids := new PriceLevel[physicalLevels](_ => EmptyLevel(0));
      asks := new PriceLevel[physicalLevels](_ => EmptyLevel(0));
      bidLevelCount, askLevelCount := 0, 0;
      bidLevelHighWater, askLevelHighWater := 0, 0;
      book := EMPTY;
      new;
      EmptyRep(StoreOf());
    }

    // Price levels.

    method FindLevelPosition(levels: array<PriceLevel>, count: nat, side: Side, price: PriceTicks,
                             ghost sideLevels: seq<Level>)
      returns (position: nat)
      requires count <= levels.Length && SamePrices(levels[..count], sideLevels)
      requires Sorted(side, sideLevels)
      ensures position == LowerBound(side, sideLevels, price)
    {
      var first, last := 0, count;
      while first < last
        invariant 0 <= first <= last <= count
        invariant forall i :: 0 <= i < first ==> Before(side, sideLevels[i].price, price)
        invariant forall i :: last <= i < count ==> !Before(side, sideLevels[i].price, price)
      {
        var middle := first + (last - first) / 2;
        if Before(side, levels[middle].price, price) {
          first := middle + 1;
        } else {
          last := middle;
        }
      }
      LowerBoundUnique(side, sideLevels, price, first);
      position := first;
    }

    method SearchLevel(levels: array<PriceLevel>, count: nat, side: Side, price: PriceTicks,
                       ghost sideLevels: seq<Level>)
      returns (r: Option<nat>)
      requires count <= levels.Length && SamePrices(levels[..count], sideLevels)
      requires Sorted(side, sideLevels)
      ensures r == if HasLevel(side, sideLevels, price) then Some(LowerBound(side, sideLevels, price)) else None
    {
      hide Sorted, LowerBound;
      var position := FindLevelPosition(levels, count, side, price, sideLevels);
      assert position < count ==> levels[..count][position].price == sideLevels[position].price;
      return if position < count && levels[position].price == price then Some(position) else None;
    }

    /** The position of the level, where the source returns a pointer to it. */
    method FindLevel(side: Side, price: PriceTicks) returns (r: Option<nat>)
      requires Valid()
      ensures !IsSide(side) ==> r == None
      ensures IsSide(side) ==>
              r == if HasLevel(side, Levels(book, side), price)
                   then Some(LowerBound(side, Levels(book, side), price)) else None
    {
      hide Rep, FixedObjectPool.Valid, ActiveOrderIndex.Valid, Sorted, LowerBound, SamePrices, HasLevel;
      if !IsSide(side) {
        return None;
      }
      SidePrices(StoreOf(), side);
      r := SearchLevel(Array(side), PriceLevelCount(side), side, price, Levels(book, side));
    }

    /** Moves the levels from position on one place up. */
    method ShiftUp(levels: array<PriceLevel>, position: nat, count: nat)
      requires position <= count < levels.Length
      modifies levels
      ensures forall k :: 0 <= k < position ==> levels[k] == old(levels[k])
      ensures forall k :: position < k <= count ==> levels[k] == old(levels[k - 1])
    {
      var index := count;
      while index > position
        invariant position <= index <= count
        invariant forall k :: 0 <= k <= index && k < count ==> levels[k] == old(levels[k])
        invariant forall k :: index < k <= count ==> levels[k] == old(levels[k - 1])
      {
        levels[index] := levels[index - 1];
        index := index - 1;
      }
    }

    /** Moves the levels behind position one place down, over it. */
    method ShiftDown(levels: array<PriceLevel>, position: nat, count: nat)
      requires position < count <= levels.Length
      modifies levels
      ensures forall k :: 0 <= k < position ==> levels[k] == old(levels[k])
      ensures forall k :: position <= k < count - 1 ==> levels[k] == old(levels[k + 1])
    {
      var index := position + 1;
      while index < count
        invariant position + 1 <= index <= count
        invariant forall k :: 0 <= k < position || index <= k < count ==> levels[k] == old(levels[k])
        invariant forall k :: position <= k < index - 1 ==> levels[k] == old(levels[k + 1])
      {
        levels[index - 1] := levels[index];
        index := index + 1;
      }
    }

    /** Opens an empty level where the price belongs. */
    method CreateLevel(side: Side, price: PriceTicks, ghost sideLevels: seq<Level>) returns (position: nat)
      requires Shape() && IsSide(side) && PriceLevelCount(side) < priceLevelCapacityPerSide
      requires Sorted(side, sideLevels)
      requires SamePrices(Array(side)[..PriceLevelCount(side)], sideLevels)
      modifies Array(side), this`bidLevelCount, this`askLevelCount
      modifies this`bidLevelHighWater, this`askLevelHighWater
      ensures Shape()
      ensures PriceLevelCount(side) == old(PriceLevelCount(side)) + 1
      ensures PriceLevelCount(Opposite(side)) == old(PriceLevelCount(Opposite(side)))
      ensures LevelHighWater(side) == Max(old(LevelHighWater(side)), PriceLevelCount(side))
      ensures LevelHighWater(Opposite(side)) == old(LevelHighWater(Opposite(side)))
      ensures position == LowerBound(side, sideLevels, price) <= old(PriceLevelCount(side))
      ensures Array(side)[position] == EmptyLevel(price)
      ensures Array(side)[..PriceLevelCount(side)] ==
              Opened(old(Array(side)[..PriceLevelCount(side)]), position, EmptyLevel(price))
    {
      hide Sorted, LowerBound;
      var levels, count := Array(side), PriceLevelCount(side);
      if count >= priceLevelCapacityPerSide {
        assert false;
      }
      ghost var before := levels[..count];
      position := FindLevelPosition(levels, count, side, price, sideLevels);
      assert position <= count by { LowerBoundSplits(side, sideLevels, price); }
      ShiftUp(levels, position, count);
      levels[position] := EmptyLevel(price);
      OpenedFrom(before, levels[..count + 1], position);
      if side.Buy? {
        bidLevelCount := bidLevelCount + 1;
        bidLevelHighWater := Max(bidLevelHighWater, bidLevelCount);
      } else {
        askLevelCount := askLevelCount + 1;
        askLevelHighWater := Max(askLevelHighWater, askLevelCount);
      }
    }

    method EraseLevel(side: Side, position: nat)
      requires Shape() && position < PriceLevelCount(side)
      modifies Array(side), this`bidLevelCount, this`askLevelCount
      ensures Shape()
      ensures PriceLevelCount(side) == old(PriceLevelCount(side)) - 1
      ensures PriceLevelCount(Opposite(side)) == old(PriceLevelCount(Opposite(side)))
      ensures Array(side)[..PriceLevelCount(side)] == Without(old(Array(side)[..PriceLevelCount(side)]), position)
    {
      var levels, count := Array(side), PriceLevelCount(side);
      if position >= count {
        assert false;
      }
      ghost var before := levels[..count];
      ShiftDown(levels, position, count);
      if side.Buy? {
        bidLevelCount := bidLevelCount - 1;
      } else {
        askLevelCount := askLevelCount - 1;
      }
      levels[count - 1] := EmptyLevel(0);
      assert levels[..count - 1] == Without(before, position);
    }

    // Intrusive queues.

    method AppendToLevel(levels: array<PriceLevel>, position: nat, link: Handle)
      requires pool.Valid() && position < levels.Length
      requires link in pool.state.live
      requires !levels[position].tail.IsInvalid() ==> levels[position].tail in pool.state.live
      modifies levels, pool, pool.slots
      ensures pool.Valid()
      ensures pool.state == old(pool.state).(
                live := AppendLive(old(pool.state.live), old(levels[position]).tail, link))
      ensures levels[..] == old(levels[..])[position := Appended(old(levels[position]), link)]
    {
      hide FixedObjectPool.Valid;
      ghost var live, before := pool.state.live, levels[..];
      var tail := levels[position].tail;
      var order := pool.Get(link);
      if order.None? {
        assert false;
      }
      pool.Put(link, order.value.(previous := tail, next := NULL_HANDLE));
      if tail.IsInvalid() {
        levels[position] := levels[position].(head := link);
      } else {
        var last := pool.Get(tail);
        if last.None? {
          assert false;
        }
        pool.Put(tail, last.value.(next := link));
      }
      levels[position] := levels[position].(tail := link, orderCount := levels[position].orderCount + 1);
      assert pool.state.live == AppendLive(live, tail, link);
    }

    /** Points what is before the record past it. */
    method JoinPrevious(levels: array<PriceLevel>, position: nat, r: OrderRecord)
      requires pool.Valid() && position < levels.Length
      requires !r.previous.IsInvalid() ==> r.previous in pool.state.live
      modifies levels, pool, pool.slots
      ensures pool.Valid()
      ensures pool.state == old(pool.state).(live := WithNext(old(pool.state.live), r.previous, r.next))
      ensures levels[..] == old(levels[..])[position := old(levels[position]).(
                head := if r.previous.IsInvalid() then r.next else old(levels[position]).head)]
    {
      hide FixedObjectPool.Valid;
      if r.previous.IsInvalid() {
        levels[position] := levels[position].(head := r.next);
      } else {
        var previous := pool.Get(r.previous);
        if previous.None? {
          assert false;
        }
        pool.Put(r.previous, previous.value.(next := r.next));
      }
    }

    /** Points what is behind the record before it. */
    method JoinNext(levels: array<PriceLevel>, position: nat, r: OrderRecord)
      requires pool.Valid() && position < levels.Length
      requires !r.next.IsInvalid() ==> r.next in pool.state.live
      modifies levels, pool, pool.slots
      ensures pool.Valid()
      ensures pool.state == old(pool.state).(live := WithPrevious(old(pool.state.live), r.next, r.previous))
      ensures levels[..] == old(levels[..])[position := old(levels[position]).(
                tail := if r.next.IsInvalid() then r.previous else old(levels[position]).tail)]
    {
      hide FixedObjectPool.Valid;
      if r.next.IsInvalid() {
        levels[position] := levels[position].(tail := r.previous);
      } else {
        var next := pool.Get(r.next);
        if next.None? {
          assert false;
        }
        pool.Put(r.next, next.value.(previous := r.previous));
      }
    }

    method UnlinkFromLevel(levels: array<PriceLevel>, position: nat, link: Handle)
      requires pool.Valid() && position < levels.Length && levels[position].orderCount > 0
      requires link in pool.state.live
      requires var r := pool.state.live[link];
               && (!r.previous.IsInvalid() ==> r.previous in pool.state.live && r.previous != link)
               && (!r.next.IsInvalid() ==> r.next in pool.state.live && r.next != link)
      modifies levels, pool, pool.slots
      ensures pool.Valid()
      ensures pool.state == old(pool.state).(live := UnlinkLive(old(pool.state.live), link))
      ensures levels[..] == old(levels[..])[position :=
                Unlinked(old(levels[position]), old(pool.state.live[link]))]
    {
      hide FixedObjectPool.Valid, UnlinkLive;
      var order := pool.Get(link);
      if order.None? || levels[position].orderCount == 0 {
        assert false;
      }
      var r := order.value;
      UnlinkSteps(pool.state.live, link);
      JoinPrevious(levels, position, r);
      JoinNext(levels, position, r);
      pool.Put(link, r.(previous := NULL_HANDLE, next := NULL_HANDLE));
      levels[position] := levels[position].(orderCount := levels[position].orderCount - 1);
    }

    // The operations on resting orders.

    /** CanTakeSlot for this storage. */
    ghost predicate Insertable(first: Option<OrderId>)
      reads pool, orders
    {
      CanTakeSlot(pool.state, orders.contents, first)
    }

    ghost function InsertStatus(id: OrderId, instrument: InstrumentId, side: Side, price: PriceTicks, leaves: Quantity): OrderBookResult
      requires Valid()
      reads Footprint
    {
      if !IsValid(instrumentId) || instrument != instrumentId then InvalidInstrument
      else if !IsValid(id) || Has(book, id) then DuplicateOrderId
      else if !IsSide(side) then InvalidSide
      else if !IsValid(price) then InvalidPrice
      else if !IsValid(leaves) then InvalidQuantity
      else if CountBook(book) >= activeOrderCapacity || !Insertable(None) then CapacityExhausted
      else if !HasRoom(side, Levels(book, side), price, leaves, priceLevelCapacityPerSide) then CapacityExhausted
      else Accepted
    }

    /** The level the order goes to, if there is one, and the aggregate it will have, if that fits. */
    method FindRoom(side: Side, price: PriceTicks, leaves: Quantity)
      returns (destination: Option<nat>, aggregate: Option<Quantity>)
      requires Valid() && IsSide(side) && IsValid(leaves)
      ensures destination == if HasLevel(side, Levels(book, side), price)
                             then Some(LowerBound(side, Levels(book, side), price)) else None
      ensures aggregate.Some? <==> HasRoom(side, Levels(book, side), price, leaves, priceLevelCapacityPerSide)
      ensures aggregate.Some? && destination.Some? ==>
                aggregate.value == Sum(Levels(book, side)[destination.value].orders) + leaves
    {
      hide Rep, FixedObjectPool.Valid, ActiveOrderIndex.Valid, Sum, Sorted, LowerBound;
      destination := FindLevel(side, price);
      SideFacts(StoreOf(), side);
      if destination.None? {
        return None, if PriceLevelCount(side) >= priceLevelCapacityPerSide then None else Some(leaves);
      }
      var sum := CheckedAdd(Array(side)[destination.value].aggregate, leaves);
      return destination, if sum.Success? then Some(sum.value) else None;
    }

    method InsertResting(id: OrderId, instrument: InstrumentId, side: Side, price: PriceTicks, leaves: Quantity)
      returns (result: OrderBookResult)
      requires Valid()
      modifies Footprint
      ensures Valid()
      ensures result == old(InsertStatus(id, instrument, side, price, leaves))
      ensures book == if result.Accepted? then Insert(old(book), side, price, Order(id, leaves)) else old(book)
      ensures !result.Accepted? ==> pool.state == old(pool.state) && orders.contents == old(orders.contents)
      ensures OneOlder(old(pool.state), pool.state)
    {
      hide Rep, FixedObjectPool.Valid, ActiveOrderIndex.Valid, Sum, Sorted, LowerBound, Locate;
      if !IsValid(instrumentId) || instrument != instrumentId {
        return InvalidInstrument;
      }
      var known := orders.Find(id);
      IndexIsBook(StoreOf(), id);
      if !IsValid(id) || known.Some? {
        return DuplicateOrderId;
      }
      if !IsSide(side) {
        return InvalidSide;
      }
      if !IsValid(price) {
        return InvalidPrice;
      }
      if !IsValid(leaves) {
        return InvalidQuantity;
      }
      StoreCounts(StoreOf());
      if pool.state.free != [] {
        pool.FreeHead();
      }
      var status := pool.NextAcquireStatus();
      if orders.Size() >= activeOrderCapacity || !status.Acquired? {
        return CapacityExhausted;
      }
      var destination, aggregate := FindRoom(side, price, leaves);
      if aggregate.None? {
        return CapacityExhausted;
      }
      if destination.None? {
        PlaceInNewLevel(id, side, price, leaves);
      } else {
        PlaceInLevel(id, side, price, leaves, destination.value, aggregate.value);
      }
      result := Accepted;
    }

    /** Takes a pool slot for the order and indexes it; neither can fail any more. */
    method AcquireNode(id: OrderId, side: Side, price: PriceTicks, leaves: Quantity) returns (link: Handle)
      requires pool.Valid() && orders.Valid()
      requires Insertable(None)
      requires IsValid(id) && id !in orders.contents && 2 * |orders.contents| < orders.entries.Length
      modifies pool, pool.slots, orders, orders.entries
      ensures pool.Valid() && orders.Valid()
      ensures !link.IsInvalid() && link !in old(pool.state).live
      ensures pool.state == AfterAcquire(old(pool.state),
                OrderRecord(id, instrumentId, side, price, leaves, NULL_HANDLE, NULL_HANDLE))
      ensures pool.state.live == old(pool.state).live[link :=
                OrderRecord(id, instrumentId, side, price, leaves, NULL_HANDLE, NULL_HANDLE)]
      ensures orders.contents == old(orders.contents)[id := link]
      ensures OneOlder(old(pool.state), pool.state)
    {
      hide FixedObjectPool.Valid, Exact, AllReachable, Probed, Occupied;
      pool.FreeHead();
      var status;
      status, link := pool.Acquire(
        OrderRecord(id, instrumentId, side, price, leaves, NULL_HANDLE, NULL_HANDLE));
      if !status.Acquired? {
        assert false;
      }
      var inserted;
      ghost var at;
      inserted, at := orders.Insert(id, link);
      if !inserted {
        assert false;
      }
    }

    /** Appends the acquired node to its level and writes the level's new aggregate. */
    method QueueNode(levels: array<PriceLevel>, position: nat, link: Handle, aggregate: Quantity)
      requires pool.Valid() && position < levels.Length
      requires link in pool.state.live
      requires !levels[position].tail.IsInvalid() ==> levels[position].tail in pool.state.live
      modifies levels, pool, pool.slots
      ensures pool.Valid()
      ensures pool.state == old(pool.state).(
                live := AppendLive(old(pool.state.live), old(levels[position]).tail, link))
      ensures levels[..] == old(levels[..])[position :=
                Appended(old(levels[position]), link).(aggregate := aggregate)]
    {
      hide FixedObjectPool.Valid;
      AppendToLevel(levels, position, link);
      levels[position] := levels[position].(aggregate := aggregate);
    }

    /** Creates a level for the acquired node, its only order. */
    method QueueNewLevel(side: Side, price: PriceTicks, link: Handle, aggregate: Quantity, ghost sideLevels: seq<Level>)
      returns (position: nat)
      requires Shape() && pool.Valid() && link in pool.state.live
      requires IsSide(side) && PriceLevelCount(side) < priceLevelCapacityPerSide
      requires Sorted(side, sideLevels)
      requires SamePrices(Array(side)[..PriceLevelCount(side)], sideLevels)
      modifies Array(side), this`bidLevelCount, this`askLevelCount, this`bidLevelHighWater, this`askLevelHighWater
      modifies pool, pool.slots
      ensures Shape() && pool.Valid()
      ensures PriceLevelCount(side) == old(PriceLevelCount(side)) + 1
      ensures PriceLevelCount(Opposite(side)) == old(PriceLevelCount(Opposite(side)))
      ensures position == LowerBound(side, sideLevels, price) <= old(PriceLevelCount(side))
      ensures pool.state == old(pool.state).(live := AppendLive(old(pool.state.live), NULL_HANDLE, link))
      ensures var before := old(Array(side)[..PriceLevelCount(side)]);
              Array(side)[..PriceLevelCount(side)] ==
              Opened(before, position, Appended(EmptyLevel(price), link).(aggregate := aggregate))
    {
      hide FixedObjectPool.Valid, Sorted, LowerBound, AppendLive, SamePrices;
      position := CreateLevel(side, price, sideLevels);
      ghost var created := Array(side)[..PriceLevelCount(side)];
      QueueNode(Array(side), position, link, aggregate);
      OpenedUpdate(old(Array(side)[..PriceLevelCount(side)]), position, EmptyLevel(price),
                   Appended(EmptyLevel(price), link).(aggregate := aggregate));
      assert Array(side)[..PriceLevelCount(side)] ==
             created[position := Appended(EmptyLevel(price), link).(aggregate := aggregate)];
    }

    method PlaceInLevel(id: OrderId, side: Side, price: PriceTicks, leaves: Quantity, position: nat, aggregate: Quantity)
      requires Valid() && InsertStatus(id, instrumentId, side, price, leaves).Accepted?
      requires position < |Levels(book, side)| && HasLevel(side, Levels(book, side), price)
      requires position == LowerBound(side, Levels(book, side), price)
      requires Levels(book, side)[position].price == price
      requires aggregate == Sum(Levels(book, side)[position].orders) + leaves
      modifies Footprint
      ensures Valid() && book == Insert(old(book), side, price, Order(id, leaves))
      ensures OneOlder(old(pool.state), pool.state)
    {
      hide Rep, FixedObjectPool.Valid, ActiveOrderIndex.Valid, Sum, Sorted, LowerBound, HasLevel;
      ghost var s, o := StoreOf(), Order(id, leaves);
      IndexIsBook(s, id);
      StoreCounts(s);
      LevelEnds(s, side, position);
      var link := AcquireNode(id, side, price, leaves);
      InsertIntoRep(s, side, price, o, link);
      QueueNode(Array(side), position, link, aggregate);
      book := Insert(book, side, price, o);
      CountBookInsert(s.book, side, price, o);
      ghost var a := Arr(s, side)[position];
      assert Array(side)[..PriceLevelCount(side)] == Arr(s, side)[position := InsertedLevel(a, o, link)];
      assert pool.state.live == InsertNodes(s.nodes, side, a, o, link).live;
      assert StoreOf() == WithSide(s, side, InsertOrder(side, Levels(s.book, side), price, o),
                                   Arr(s, side)[position := InsertedLevel(a, o, link)],
                                   InsertNodes(s.nodes, side, a, o, link));
    }

    /** Takes a node for the order and opens a level that holds just it. */
    method OpenLevel(side: Side, price: PriceTicks, o: Order, ghost s: Store) returns (link: Handle)
      requires Shape() && pool.Valid() && orders.Valid() && Insertable(None)
      requires IsSide(side) && PriceLevelCount(side) < priceLevelCapacityPerSide
      requires s == StoreOf() && Sorted(side, Levels(s.book, side)) && SamePrices(Arr(s, side), Levels(s.book, side))
      requires IsValid(o.id) && o.id !in orders.contents && 2 * |orders.contents| < orders.entries.Length
      modifies Array(side), this`bidLevelCount, this`askLevelCount, this`bidLevelHighWater, this`askLevelHighWater
      modifies pool, pool.slots, orders, orders.entries
      ensures Shape() && pool.Valid() && orders.Valid()
      ensures !link.IsInvalid() && link !in s.nodes.live
      ensures LowerBound(side, Levels(s.book, side), price) <= |Arr(s, side)|
      ensures StoreOf().nodes == InsertNodes(s.nodes, side, EmptyLevel(price), o, link)
      ensures Arr(StoreOf(), side) == Opened(Arr(s, side), LowerBound(side, Levels(s.book, side), price),
                                             InsertedLevel(EmptyLevel(price), o, link))
      ensures Arr(StoreOf(), Opposite(side)) == Arr(s, Opposite(side))
      ensures OneOlder(old(pool.state), pool.state)
    {
      hide FixedObjectPool.Valid, ActiveOrderIndex.Valid, Sorted, LowerBound, SamePrices, Opened, CanTakeSlot;
      link := AcquireNode(o.id, side, price, o.leaves);
      var position := QueueNewLevel(side, price, link, o.leaves, Levels(s.book, side));
    }

    method PlaceInNewLevel(id: OrderId, side: Side, price: PriceTicks, leaves: Quantity)
      requires Valid() && InsertStatus(id, instrumentId, side, price, leaves).Accepted?
      requires !HasLevel(side, Levels(book, side), price)
      modifies Footprint
      ensures Valid() && book == Insert(old(book), side, price, Order(id, leaves))
      ensures OneOlder(old(pool.state), pool.state)
    {
      hide Rep, FixedObjectPool.Valid, ActiveOrderIndex.Valid, Sum, Sorted, LowerBound, HasLevel, SamePrices,
        InsertNodes, InsertOrder, Opened, CanTakeSlot;
      ghost var s, o := StoreOf(), Order(id, leaves);
      IndexIsBook(s, id);
      StoreCounts(s);
      SidePrices(s, side);
      ghost var position := LowerBound(side, Levels(s.book, side), price);
      var link := OpenLevel(side, price, Order(id, leaves), s);
      book := Insert(book, side, price, o);
      InsertNewRep(s, side, price, o, link);
      CountBookInsert(s.book, side, price, o);
      assert StoreOf() == WithSide(s, side, InsertOrder(side, Levels(s.book, side), price, o),
                                   Opened(Arr(s, side), position, InsertedLevel(EmptyLevel(price), o, link)),
                                   InsertNodes(s.nodes, side, EmptyLevel(price), o, link));
    }

    /** Unthreads a node, drops it from the index and gives its slot back. */
    method DetachNode(levels: array<PriceLevel>, position: nat, id: OrderId, link: Handle)
      requires pool.Valid() && orders.Valid() && position < levels.Length && levels[position].orderCount > 0
      requires id in orders.contents && link in pool.state.live
      requires var r := pool.state.live[link];
               && (!r.previous.IsInvalid() ==> r.previous in pool.state.live && r.previous != link)
               && (!r.next.IsInvalid() ==> r.next in pool.state.live && r.next != link)
      modifies levels, pool, pool.slots, pool.freeIndices, orders, orders.entries
      ensures pool.Valid() && orders.Valid()
      ensures orders.contents == old(orders.contents) - {id}
      ensures pool.state.live == UnlinkLive(old(pool.state.live), link) - {link}
      ensures pool.state.free == old(pool.state.free) + [link.index]
      ensures SameAge(old(pool.state), pool.state) && pool.state.maxGeneration == old(pool.state.maxGeneration)
      ensures levels[..] == old(levels[..])[position :=
                Unlinked(old(levels[position]), old(pool.state.live[link]))]
    {
      hide FixedObjectPool.Valid, ActiveOrderIndex.Valid;
      UnlinkFromLevel(levels, position, link);
      var erased := orders.Erase(id);
      if !erased {
        assert false;
      }
      var released := pool.Release(link);
      if !released {
        assert false;
      }
    }

    method RemoveLink(id: OrderId, link: Handle) returns (result: OrderBookResult)
      requires Valid() && id in orders.contents && link == orders.contents[id]
      modifies Footprint
      ensures Valid()
      ensures result.Accepted? && book == Erase(old(book), id)
      ensures old(Insertable(Some(id))) ==> Insertable(None)
      ensures SameAge(old(pool.state), pool.state)
    {
      hide Rep, FixedObjectPool.Valid, ActiveOrderIndex.Valid, Sum, Sorted, LowerBound, HasLevel;
      ghost var s := StoreOf();
      ghost var at := NodeFacts(s, id);
      var found := pool.Get(link);
      if found.None? {
        assert false;
      }
      var order := found.value;
      var level := FindLevel(order.side, order.price);
      if level.None? {
        assert false;
      }
      var aggregate := CheckedSubtract(Array(order.side)[level.value].aggregate, order.leaves);
      if !aggregate.Success? && !aggregate.Zero? {
        assert false;
      }
      TakeOut(id, link, order.side, level.value, aggregate);
      result := Accepted;
    }

    /** Detaches the node and closes or rewrites its level. */
    method TakeFromLevel(id: OrderId, link: Handle, side: Side, position: nat, aggregate: CheckedQuantity,
                         ghost arr: seq<PriceLevel>, ghost r: OrderRecord)
      requires Shape() && pool.Valid() && orders.Valid()
      requires arr == Array(side)[..PriceLevelCount(side)] && position < |arr|
      requires id in orders.contents && link in pool.state.live && r == pool.state.live[link]
      requires !r.previous.IsInvalid() ==> r.previous in pool.state.live && r.previous != link
      requires !r.next.IsInvalid() ==> r.next in pool.state.live && r.next != link
      requires arr[position].orderCount > 0 && IsValid(r.leaves) && r.leaves <= arr[position].aggregate
      requires arr[position].aggregate == r.leaves ==> arr[position].orderCount == 1
      requires aggregate == CheckedSubtract(arr[position].aggregate, r.leaves)
      modifies Array(side), pool, pool.slots, pool.freeIndices, orders, orders.entries
      modifies this`bidLevelCount, this`askLevelCount
      ensures Shape() && pool.Valid() && orders.Valid()
      ensures orders.contents == old(orders.contents) - {id}
      ensures pool.state.live == UnlinkLive(old(pool.state.live), link) - {link}
      ensures pool.state.free == old(pool.state.free) + [link.index]
      ensures SameAge(old(pool.state), pool.state) && pool.state.maxGeneration == old(pool.state.maxGeneration)
      ensures Array(side)[..PriceLevelCount(side)] ==
              ErasedArr(arr, position, r)
      ensures PriceLevelCount(Opposite(side)) == old(PriceLevelCount(Opposite(side)))
    {
      hide FixedObjectPool.Valid, ActiveOrderIndex.Valid, UnlinkLive;
      var levels := Array(side);
      DetachNode(levels, position, id, link);
      if aggregate.Zero? {
        if levels[position].orderCount != 0 {
          assert false;
        }
        EraseLevel(side, position);
      } else {
        levels[position] := levels[position].(aggregate := aggregate.value);
      }
    }

    /** The part of remove_link that cannot fail. */
    method TakeOut(id: OrderId, link: Handle, side: Side, position: nat, aggregate: CheckedQuantity)
      requires Valid() && id in orders.contents && link == orders.contents[id] && link in pool.state.live
      requires Locate(book, id).Some? && side == Locate(book, id).value.side
      requires position == Locate(book, id).value.level < PriceLevelCount(side)
      requires aggregate == CheckedSubtract(Array(side)[position].aggregate, pool.state.live[link].leaves)
      modifies Footprint
      ensures Valid() && book == Erase(old(book), id)
      ensures old(Insertable(Some(id))) ==> Insertable(None)
      ensures SameAge(old(pool.state), pool.state)
    {
      hide Rep, FixedObjectPool.Valid, ActiveOrderIndex.Valid, Sum, Sorted, LowerBound, HasLevel, UnlinkLive;
      ghost var s := StoreOf();
      ghost var at := NodeFacts(s, id);
      pool.LiveHandle(link);
      TakeFromLevel(id, link, side, position, aggregate, Arr(s, side), s.nodes.live[link]);
      hide ErasedArr, EraseAt, CanTakeSlot;
      SlotFreed(old(pool.state), pool.state, s.nodes.index, orders.contents, id);
      book := Erase(book, id);
      EraseRep(s, at);
      CountErase(Levels(s.book, side), at.level, at.index);
      assert StoreOf() == WithSide(s, side, EraseAt(Levels(s.book, side), at.level, at.index),
                                   ErasedArr(Arr(s, side), position, s.nodes.live[link]),
                                   DropNodes(s.nodes, id, link));
    }

    method RemoveResting(id: OrderId) returns (result: OrderBookResult)
      requires Valid()
      modifies Footprint
      ensures Valid()
      ensures result == RemoveStatus(old(book), id)
      ensures book == Erase(old(book), id)
      ensures result.Accepted? && old(Insertable(Some(id))) ==> Insertable(None)
      ensures SameAge(old(pool.state), pool.state)
    {
      hide Rep, FixedObjectPool.Valid, ActiveOrderIndex.Valid;
      IndexIsBook(StoreOf(), id);
      var link := orders.Find(id);
      if link.None? {
        return OrderNotFound;
      }
      result := RemoveLink(id, link.value);
    }

    /** Writes new leaves and the new aggregate of the order's level. */
    method WriteLeaves(id: OrderId, link: Handle, side: Side, position: nat, leaves: Quantity, aggregate: Quantity)
      requires Valid() && id in orders.contents && link == orders.contents[id]
      requires Locate(book, id).Some? && side == Locate(book, id).value.side
      requires position == Locate(book, id).value.level
      requires IsValid(leaves)
      requires aggregate == Sum(Levels(book, side)[position].orders)
                            - OrderAt(book, Locate(book, id).value).leaves + leaves
      modifies Footprint
      ensures Valid() && book == SetLeaves(old(book), id, leaves)
      ensures orders.contents == old(orders.contents)
      ensures pool.state == old(pool.state).(live := pool.state.live)
    {
      hide Rep, FixedObjectPool.Valid, ActiveOrderIndex.Valid, Sum, Sorted, LowerBound, HasLevel;
      ghost var s := StoreOf();
      ghost var at := NodeFacts(s, id);
      SetLeavesRep(s, at, leaves);
      var found := pool.Get(link);
      if found.None? {
        assert false;
      }
      pool.Put(link, found.value.(leaves := leaves));
      var levels := Array(side);
      levels[position] := levels[position].(aggregate := aggregate);
      ghost var arr' := Arr(s, side)[position :=
        Requantified(Arr(s, side)[position], Levels(s.book, side)[position].orders, at.index, leaves)];
      assert levels[..PriceLevelCount(side)] == arr';
      book := SetLeaves(book, id, leaves);
      CountSetLeaves(s.book, id, leaves);
      assert StoreOf() == WithSide(s, side, SetLeavesAt(Levels(s.book, side), at.level, at.index, leaves),
                                   arr', PutLeaves(s.nodes, link, leaves));
    }

    method ReduceRestingBy(id: OrderId, reduction: Quantity) returns (result: OrderBookResult)
      requires Valid()
      modifies Footprint
      ensures Valid()
      ensures result == ReduceStatus(old(book), id, reduction)
      ensures book == if result.Accepted? then Reduce(old(book), id, reduction) else old(book)
      ensures result.Accepted? && reduction == LeavesOf(old(book), id) ==>
              old(Insertable(Some(id))) ==> Insertable(None)
      ensures result.Accepted? && reduction < LeavesOf(old(book), id) ==>
              orders.contents == old(orders.contents) && pool.state == old(pool.state).(live := pool.state.live)
      ensures SameAge(old(pool.state), pool.state)
    {
      hide Rep, FixedObjectPool.Valid, ActiveOrderIndex.Valid, Sum, Sorted, LowerBound, HasLevel;
      IndexIsBook(StoreOf(), id);
      var link := orders.Find(id);
      if link.None? {
        return OrderNotFound;
      }
      ghost var at := NodeFacts(StoreOf(), id);
      var order := pool.Get(link.value);
      if order.None? {
        assert false;
      }
      var leaves := order.value.leaves;
      if !IsValid(reduction) || reduction > leaves {
        return InvalidQuantity;
      }
      if reduction == leaves {
        result := RemoveLink(id, link.value);
        return;
      }
      var newLeaves := CheckedSubtract(leaves, reduction);
      var level := FindLevel(order.value.side, order.value.price);
      if !newLeaves.Success? || level.None? {
        assert false;
      }
      var aggregate := CheckedSubtract(Array(order.value.side)[level.value].aggregate, reduction);
      if !aggregate.Success? {
        assert false;
      }
      WriteLeaves(id, link.value, order.value.side, level.value, newLeaves.value, aggregate.value);
      result := Accepted;
    }

    method UpdateRestingLeaves(id: OrderId, newLeaves: Quantity) returns (result: OrderBookResult)
      requires Valid()
      modifies Footprint
      ensures Valid()
      ensures result == UpdateStatus(old(book), id, newLeaves)
      ensures book == if result.Accepted? then SetLeaves(old(book), id, newLeaves) else old(book)
      ensures orders.contents == old(orders.contents)
      ensures pool.state == old(pool.state).(live := pool.state.live)
    {
      hide Rep, FixedObjectPool.Valid, ActiveOrderIndex.Valid, Sum, Sorted, LowerBound, HasLevel;
      IndexIsBook(StoreOf(), id);
      var link := orders.Find(id);
      if link.None? {
        return OrderNotFound;
      }
      ghost var at := NodeFacts(StoreOf(), id);
      var order := pool.Get(link.value);
      if order.None? {
        assert false;
      }
      var leaves := order.value.leaves;
      if !IsValid(newLeaves) {
        return InvalidQuantity;
      }
      if newLeaves == leaves {
        SetLeavesSame(book, at);
        return Accepted;
      }
      var level := FindLevel(order.value.side, order.value.price);
      if level.None? {
        assert false;
      }
      var before := Array(order.value.side)[level.value].aggregate;
      var aggregate;
      if newLeaves < leaves {
        var reduction := CheckedSubtract(leaves, newLeaves);
        if !reduction.Success? {
          assert false;
        }
        aggregate := CheckedSubtract(before, reduction.value);
        if !aggregate.Success? {
          assert false;
        }
      } else {
        var increase := CheckedSubtract(newLeaves, leaves);
        if !increase.Success? {
          assert false;
        }
        aggregate := CheckedAdd(before, increase.value);
        if !aggregate.Success? {
          return CapacityExhausted;
        }
      }
      WriteLeaves(id, link.value, order.value.side, level.value, newLeaves, aggregate.value);
      result := Accepted;
    }

    method MoveRestingToBack(id: OrderId) returns (result: OrderBookResult)
      requires Valid()
      modifies Footprint
      ensures Valid()
      ensures result == RemoveStatus(old(book), id)
      ensures book == MoveToBack(old(book), id)
      ensures orders.contents == old(orders.contents)
      ensures pool.state == old(pool.state).(live := pool.state.live)
    {
      hide Rep, FixedObjectPool.Valid, ActiveOrderIndex.Valid, Sum, Sorted, LowerBound, HasLevel;
      IndexIsBook(StoreOf(), id);
      var link := orders.Find(id);
      if link.None? {
        return OrderNotFound;
      }
      ghost var at := NodeFacts(StoreOf(), id);
      var order := pool.Get(link.value);
      if order.None? {
        assert false;
      }
      var level := FindLevel(order.value.side, order.value.price);
      if level.None? {
        assert false;
      }
      result := Accepted;
      if Array(order.value.side)[level.value].tail == link.value {
        LastStays(book, at);
        return;
      }
      Requeue(id, link.value, order.value.side, level.value);
    }

    /** Unlinks the same node and appends it again. */
    method Requeue(id: OrderId, link: Handle, side: Side, position: nat)
      requires Valid() && id in orders.contents && link == orders.contents[id]
      requires Locate(book, id).Some? && side == Locate(book, id).value.side
      requires position == Locate(book, id).value.level
      modifies Footprint
      ensures Valid() && book == MoveToBack(old(book), id)
      ensures orders.contents == old(orders.contents)
      ensures pool.state == old(pool.state).(live := pool.state.live)
    {
      hide Rep, FixedObjectPool.Valid, ActiveOrderIndex.Valid, Sum, Sorted, LowerBound, HasLevel;
      ghost var s := StoreOf();
      ghost var at := NodeFacts(s, id);
      MoveToBackRep(s, at);
      ghost var a := Arr(s, side)[position];
      RequeueTail(s, at);
      var levels := Array(side);
      UnlinkFromLevel(levels, position, link);
      AppendToLevel(levels, position, link);
      ghost var arr' := Arr(s, side)[position := RequeueLevel(s.nodes, a, link)];
      assert levels[..PriceLevelCount(side)] == arr';
      book := MoveToBack(book, id);
      CountMoveToBack(s.book, id);
      assert StoreOf() == WithSide(s, side, MoveToBackAt(Levels(s.book, side), at.level, at.index),
                                   arr', RequeueNodes(s.nodes, a, link));
    }

    method CanInsertAfterRemoving(first: Option<OrderId>) returns (r: bool)
      requires Valid()
      ensures r <==> Insertable(first)
    {
      hide Rep, ActiveOrderIndex.Valid, FixedObjectPool.Valid;
      if pool.HasFree() {
        pool.FreeHead();
        var status := pool.NextAcquireStatus();
        return status.Acquired?;
      }
      if first.None? {
        return false;
      }
      var link := orders.Find(first.value);
      if link.None? {
        return false;
      }
      LinkLive(StoreOf(), first.value);
      pool.LiveHandle(link.value);
      var status := pool.AcquireStatusAfterRelease(link.value);
      return status.Acquired?;
    }

    predicate CanClear()
      requires Valid()
      reads Footprint
      ensures CanClear() <==> pool.state.epoch < pool.maxEpoch
    {
      pool.CanReset()
    }

    method Clear()
      requires Valid() && CanClear()
      modifies Footprint
      ensures Valid() && book == EMPTY
      ensures pool.state == AfterReset(old(pool.state))
    {
      hide Rep, FixedObjectPool.Valid, ActiveOrderIndex.Valid;
      if !CanClear() {
        assert false;
      }
      orders.Clear();
      bidLevelCount := 0;
      askLevelCount := 0;
      var done := pool.Reset();
      if !done {
        assert false;
      }
      book := EMPTY;
      EmptyRep(StoreOf());
    }

    // The debug check.

    /** One level: its record, its links in both directions, and its aggregate. */
    method ValidateLevel(side: Side, position: nat) returns (ok: bool, orderCount: nat)
      requires Valid() && IsSide(side) && position < |Levels(book, side)|
      ensures ok && orderCount == |Levels(book, side)[position].orders|
    {
      hide Rep, FixedObjectPool.Valid, ActiveOrderIndex.Valid, Sum, Sorted, LinkAt;
      ghost var s, queue := StoreOf(), Levels(book, side)[position].orders;
      SideFacts(s, side);
      LevelFits(s, side, position);
      var level := Array(side)[position];
      ok := IsValid(level.price) && IsValid(level.aggregate) && level.orderCount != 0
            && !level.head.IsInvalid() && !level.tail.IsInvalid();
      orderCount := 0;
      var aggregate: Quantity, previous, link := 0, NULL_HANDLE, level.head;
      assert queue[0..] == queue;
      while !link.IsInvalid() && ok
        invariant ok && 0 <= orderCount <= |queue|
        invariant link == LinkAt(queue, orderCount, orders.contents)
        invariant previous == LinkAt(queue, orderCount - 1, orders.contents)
        invariant link.IsInvalid() <==> orderCount == |queue|
        invariant aggregate + Sum(queue[orderCount..]) == Sum(queue)
        decreases |queue| - orderCount
      {
        WalkStep(s, side, position, orderCount);
        NodeFits(s, side, position, orderCount);
        SumStep(queue, orderCount);
        var order := pool.Get(link);
        if order.None? {
          assert false;
        }
        var r := order.value;
        var indexed := orders.Find(r.orderId);
        ok := r.previous == previous && IsValid(r.orderId) && r.instrumentId == instrumentId
              && r.side == side && r.price == level.price && IsValid(r.leaves)
              && r.leaves <= U64_MAX - aggregate && indexed == Some(link) && orderCount + 1 <= orders.Size();
        aggregate := aggregate + r.leaves;
        orderCount := orderCount + 1;
        previous := link;
        link := r.next;
      }
      SumEnd(queue);
      ok := ok && previous == level.tail && orderCount == level.orderCount && aggregate == level.aggregate;
    }

    method ValidateSide(side: Side) returns (ok: bool, reachable: nat)
      requires Valid() && IsSide(side)
      ensures ok && reachable == Count(Levels(book, side))
    {
      hide Rep, FixedObjectPool.Valid, ActiveOrderIndex.Valid, Sum, Count;
      ghost var levels := Levels(book, side);
      SideFacts(StoreOf(), side);
      ok, reachable := true, 0;
      var index := 0;
      assert levels[0..] == levels;
      while index < PriceLevelCount(side) && ok
        invariant ok && 0 <= index <= PriceLevelCount(side)
        invariant reachable + Count(levels[index..]) == Count(levels)
      {
        CountStep(levels, index);
        var fine, count := ValidateLevel(side, index);
        ok := fine && (index != 0 ==> Before(side, Array(side)[index - 1].price, Array(side)[index].price));
        reachable := reachable + count;
        index := index + 1;
      }
      CountEnd(levels);
    }

    /** The debug check passes whenever no operation is under way. */
    method ValidateInvariants() returns (ok: bool)
      requires Valid()
      ensures ok
    {
      hide Rep, ActiveOrderIndex.Valid, FixedObjectPool.Valid;
      StoreCounts(StoreOf());
      pool.Counts();
      var indexFine := orders.ValidateInvariants();
      var poolFine := pool.ValidateInvariants();
      ok := orders.Size() <= activeOrderCapacity && bidLevelCount <= priceLevelCapacityPerSide
            && askLevelCount <= priceLevelCapacityPerSide && pool.usedCount == orders.Size()
            && pool.usedCount + pool.freeCount == pool.slots.Length && pool.highWaterCount >= pool.usedCount
            && bidLevelHighWater >= bidLevelCount && askLevelHighWater >= askLevelCount
            && indexFine && poolFine;
      var bidsFine, bidOrders := ValidateSide(Buy);
      var asksFine, askOrders := ValidateSide(Sell);
      ok := ok && bidsFine && asksFine && bidOrders + askOrders == orders.Size();
    }

    // Queries.

    method FindOrder(id: OrderId) returns (view: Option<RestingOrderView>)
      requires Valid()
      ensures view == ViewOf(book, id)
    {
      hide Rep, FixedObjectPool.Valid, ActiveOrderIndex.Valid, Sum, Sorted, LowerBound, HasLevel;
      IndexIsBook(StoreOf(), id);
      var link := orders.Find(id);
      if link.None? {
        return None;
      }
      ghost var at := NodeFacts(StoreOf(), id);
      var order := pool.Get(link.value);
      if order.None? {
        return None;
      }
      return Some(RestingOrderView(order.value.orderId, order.value.side, order.value.price, order.value.leaves));
    }

    method BestPrice(side: Side) returns (price: Option<PriceTicks>)
      requires Valid() && IsSide(side)
      ensures price == if Levels(book, side) == [] then None else Some(Levels(book, side)[0].price)
    {
      hide Rep, FixedObjectPool.Valid, ActiveOrderIndex.Valid;
      SideFacts(StoreOf(), side);
      return if PriceLevelCount(side) == 0 then None else Some(Array(side)[0].price);
    }

    method LevelEntry(side: Side, price: PriceTicks) returns (entry: Option<DepthEntry>)
      requires Valid()
      ensures entry.Some? <==> HasLevel(side, SideLevels(book, side), price)
      ensures entry.Some? ==>
              var level := SideLevels(book, side)[LowerBound(side, SideLevels(book, side), price)];
              entry.value == DepthEntry(price, Sum(level.orders), |level.orders|)
    {
      hide Rep, FixedObjectPool.Valid, ActiveOrderIndex.Valid, Sum, Sorted, LowerBound;
      if !IsSide(side) {
        return None;
      }
      SideFacts(StoreOf(), side);
      var level := FindLevel(side, price);
      if level.None? {
        return None;
      }
      var found := Array(side)[level.value];
      return Some(DepthEntry(found.price, found.aggregate, found.orderCount));
    }

    /** The number of levels of a side; none for a side that is neither. */
    lemma LevelsCounted(side: Side)
      requires Valid()
      ensures PriceLevelCount(side) == |SideLevels(book, side)| <= priceLevelCapacityPerSide
    {
      hide FixedObjectPool.Valid, ActiveOrderIndex.Valid;
      if IsSide(side) {
        SideFacts(StoreOf(), side);
      }
      hide Rep;
    }

    lemma WellFormed()
      requires Valid()
      ensures UniqueIds(book) && WfBook(book)
    {
      IdsUnique(StoreOf());
    }

    /** With no free slot left, the book is at its order capacity. */
    lemma FullPool()
      requires Valid() && pool.state.free == []
      ensures CountBook(book) >= activeOrderCapacity
    {
      hide Rep, ActiveOrderIndex.Valid;
      StoreCounts(StoreOf());
    }

    lemma EpochLasts()
      requires Valid() && pool.state.epoch < U64_MAX
      ensures CanClear()
    {
    }

    /** While generations last, there is a slot if one is free or an order in the book goes first. */
    lemma SlotsLast(first: Option<OrderId>)
      requires Valid() && forall i :: 0 <= i < |pool.state.gens| ==> pool.state.gens[i] < U64_MAX
      requires pool.state.free != [] || (first.Some? && Has(book, first.value))
      ensures Insertable(first)
    {
      hide Rep, FixedObjectPool.Valid, ActiveOrderIndex.Valid, Locate;
      pool.Maxima();
      if pool.state.free != [] {
        pool.FreeHead();
      } else {
        IndexIsBook(StoreOf(), first.value);
        LinkLive(StoreOf(), first.value);
        pool.LiveHandle(orders.contents[first.value]);
      }
    }

    method ActiveOrderCount() returns (count: nat)
      requires Valid()
      ensures count == CountBook(book)
    {
      hide Rep, FixedObjectPool.Valid, ActiveOrderIndex.Valid;
      StoreCounts(StoreOf());
      count := orders.Size();
    }

    method Depth(side: Side) returns (entries: seq<DepthEntry>)
      requires Valid()
      ensures IsDepth(entries, SideLevels(book, side))
    {
      hide Rep, FixedObjectPool.Valid, ActiveOrderIndex.Valid, Sum, Sorted;
      entries := [];
      if !IsSide(side) {
        return;
      }
      SideFacts(StoreOf(), side);
      var index := 0;
      while index < PriceLevelCount(side)
        invariant 0 <= index <= PriceLevelCount(side)
        invariant IsDepth(entries, Levels(book, side)[..index])
      {
        var level := Array(side)[index];
        entries := entries + [DepthEntry(level.price, level.aggregate, level.orderCount)];
        index := index + 1;
      }
      assert Levels(book, side)[..index] == Levels(book, side);
    }

    method OrdersAtLevel(side: Side, price: PriceTicks) returns (views: seq<RestingOrderView>)
      requires Valid()
      ensures views == if HasLevel(side, SideLevels(book, side), price)
                       then FlatOrders(side, price, SideLevels(book, side)[LowerBound(side, SideLevels(book, side), price)].orders)
                       else []
    {
      hide Rep, FixedObjectPool.Valid, ActiveOrderIndex.Valid, Sum, Sorted, LowerBound, LinkAt;
      views := [];
      var level := FindLevel(side, price);
      if level.None? {
        return;
      }
      SideFacts(StoreOf(), side);
      ghost var queue := Levels(book, side)[level.value].orders;
      var link := Array(side)[level.value].head;
      WalkStarts(StoreOf(), side, level.value);
      while !link.IsInvalid()
        invariant |views| <= |queue| && views == FlatOrders(side, price, queue)[..|views|]
        invariant link == LinkAt(queue, |views|, orders.contents)
        invariant link.IsInvalid() <==> |views| == |queue|
        decreases |queue| - |views|
      {
        WalkStep(StoreOf(), side, level.value, |views|);
        var order := pool.Get(link);
        if order.None? {
          assert false;
        }
        views := views + [RestingOrderView(order.value.orderId, order.value.side, order.value.price, order.value.leaves)];
        link := order.value.next;
      }
    }

    /** Hands the visitor each order in priority order until it says stop. */
    method VisitOrdersByPriority<A>(side: Side, visitor: (A, RestingOrderView) -> (A, bool), start: A) returns (acc: A)
      requires Valid()
      ensures acc == FoldUntil(visitor, start, Flat(side, SideLevels(book, side)))
    {
      hide Rep, FixedObjectPool.Valid, ActiveOrderIndex.Valid, Sum, Sorted, Flat, FlatOrders, LinkAt;
      acc := start;
      if !IsSide(side) {
        FlatEnd(side, []);
        return;
      }
      ghost var s := StoreOf();
      ghost var levels := Levels(book, side);
      SideFacts(s, side);
      assert levels[0..] == levels;
      var levelIndex := 0;
      while levelIndex < PriceLevelCount(side)
        invariant 0 <= levelIndex <= |levels|
        invariant FoldUntil(visitor, start, Flat(side, levels)) == FoldUntil(visitor, acc, Flat(side, levels[levelIndex..]))
      {
        ghost var queue, price := levels[levelIndex].orders, levels[levelIndex].price;
        ghost var rest := Flat(side, levels[levelIndex + 1..]);
        ghost var j := 0;
        var link := Array(side)[levelIndex].head;
        WalkStarts(s, side, levelIndex);
        FlatCons(side, levels, levelIndex);
        while !link.IsInvalid()
          invariant 0 <= j <= |queue|
          invariant link == LinkAt(queue, j, orders.contents)
          invariant link.IsInvalid() <==> j == |queue|
          invariant FoldUntil(visitor, start, Flat(side, levels)) ==
                    FoldUntil(visitor, acc, FlatOrders(side, price, queue[j..]) + rest)
          decreases |queue| - j
        {
          WalkStep(s, side, levelIndex, j);
          var order := pool.Get(link);
          if order.None? {
            assert false;
          }
          var view := RestingOrderView(order.value.orderId, order.value.side, order.value.price, order.value.leaves);
          FlatStep(side, price, queue, j, rest);
          link := order.value.next;
          var (next, more) := visitor(acc, view);
          acc := next;
          if !more {
            return;
          }
          j := j + 1;
        }
        FlatDone(side, price, queue, rest);
        levelIndex := levelIndex + 1;
      }
      FlatEnd(side, levels);
    }
  }
}
