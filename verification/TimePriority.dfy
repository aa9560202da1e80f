/**
  Time priority over whole runs. Beside the journal it keeps, for each order,
  the command sequence at which the order last gained its place; along every
  queue of every reachable book these stamps increase.
 */
module TimePriority {
  import opened Domain
  import opened Book
  import opened Reference
  import opened Matching
  import opened Planning
  import opened Runs
  import opened Identity
  import opened Conservation

  type Stamps = map<OrderId, nat>

  ghost predicate QueueInOrder(orders: seq<Order>, stamps: Stamps, last: nat) {
    && (forall j :: 0 <= j < |orders| ==> orders[j].id in stamps && stamps[orders[j].id] <= last)
    && (forall j, k :: 0 <= j < k < |orders| ==> stamps[orders[j].id] < stamps[orders[k].id])
  }

  ghost predicate LevelsInOrder(levels: seq<Level>, stamps: Stamps, last: nat) {
    forall i :: 0 <= i < |levels| ==> QueueInOrder(levels[i].orders, stamps, last)
  }

  /** In every queue, whoever stands in front gained its place earlier. */
  ghost predicate BookInOrder(book: Book, stamps: Stamps, last: nat) {
    LevelsInOrder(book.bids, stamps, last) && LevelsInOrder(book.asks, stamps, last)
  }

  /** Whether the command puts its order at the back of a queue. */
  predicate GainsPlace(s: State, c: Command) {
    match c
    case New(_) => true
    case Amend(o) =>
      && Has(s.book, o.orderId)
      && var view := ViewOf(s.book, o.orderId).value;
      o.newPrice != view.price || o.newLeaves > view.leaves
    case _ => false
  }

  function Stamped(s: State, c: Command, stamps: Stamps): Stamps
    requires WfState(s)
  {
    if Apply(s, c).1.result == Accepted && GainsPlace(s, c) then stamps[Target(c) := s.lastCommand + 1] else stamps
  }

  // What each change of the book does to the order of its queues.

  lemma EraseInOrder(levels: seq<Level>, i: nat, j: nat, stamps: Stamps, last: nat)
    requires InRange(levels, i, j) && LevelsInOrder(levels, stamps, last)
    ensures LevelsInOrder(EraseAt(levels, i, j), stamps, last)
  {
    assert QueueInOrder(Without(levels[i].orders, j), stamps, last);
  }

  lemma SetLeavesInOrder(levels: seq<Level>, i: nat, j: nat, leaves: Quantity, stamps: Stamps, last: nat)
    requires InRange(levels, i, j) && LevelsInOrder(levels, stamps, last)
    ensures LevelsInOrder(SetLeavesAt(levels, i, j, leaves), stamps, last)
  {
  }

  lemma {:induction false} TakeInOrder(side: Side, limit: PriceTicks, levels: seq<Level>, remainder: Quantity,
                                       planned: seq<PlannedFill>, stamps: Stamps, last: nat)
    requires WfSide(Opposite(side), levels) && LevelsInOrder(levels, stamps, last)
    ensures LevelsInOrder(Take(side, limit, levels, remainder, planned).levels, stamps, last)
    decreases remainder
  {
    if !Continues(side, limit, levels, remainder) || |planned| >= MAXIMUM_FILLS_PER_COMMAND {
    } else {
      FrontIsWf(Opposite(side), levels);
      var fill := FrontFill(levels, remainder);
      AfterFillWf(Opposite(side), levels, fill.quantity);
      if fill.quantity == levels[0].orders[0].leaves {
        EraseInOrder(levels, 0, 0, stamps, last);
      } else {
        SetLeavesInOrder(levels, 0, 0, levels[0].orders[0].leaves - fill.quantity, stamps, last);
      }
      hide WfSide, LevelsInOrder;
      TakeInOrder(side, limit, AfterFill(levels, fill.quantity), remainder - fill.quantity, planned + [fill], stamps, last);
    }
  }

  /** A stamp for an order that is not in the levels changes nothing there. */
  lemma RestampInOrder(levels: seq<Level>, stamps: Stamps, last: nat, id: OrderId, now: nat)
    requires LevelsInOrder(levels, stamps, last) && !HasId(levels, id) && last <= now
    ensures LevelsInOrder(levels, stamps[id := now], now)
  {
    forall i, j: nat | 0 <= i < |levels| && j < |levels[i].orders| ensures levels[i].orders[j].id != id {
      assert InRange(levels, i, j);
    }
  }

  lemma AppendInOrder(orders: seq<Order>, o: Order, stamps: Stamps, last: nat, now: nat)
    requires QueueInOrder(orders, stamps, last) && last < now
    requires forall j :: 0 <= j < |orders| ==> orders[j].id != o.id
    ensures QueueInOrder(orders + [o], stamps[o.id := now], now)
  {
  }

  /** A new order is stamped last and stands last. */
  lemma InsertInOrder(side: Side, levels: seq<Level>, price: PriceTicks, o: Order, stamps: Stamps, last: nat, now: nat)
    requires LevelsInOrder(levels, stamps, last) && !HasId(levels, o.id) && last < now
    ensures LevelsInOrder(InsertOrder(side, levels, price, o), stamps[o.id := now], now)
  {
    var p := LowerBound(side, levels, price);
    hide LowerBound, QueueInOrder;
    RestampInOrder(levels, stamps, last, o.id, now);
    if HasLevel(side, levels, price) {
      forall j: nat | j < |levels[p].orders| ensures levels[p].orders[j].id != o.id {
        assert InRange(levels, p, j);
      }
      AppendInOrder(levels[p].orders, o, stamps, last, now);
    } else {
      NoneInOrder(stamps, last);
      AppendInOrder([], o, stamps, last, now);
      assert [] + [o] == [o];
    }
  }

  lemma NoneInOrder(stamps: Stamps, last: nat)
    ensures QueueInOrder([], stamps, last)
  {
  }

  lemma BookEraseInOrder(book: Book, id: OrderId, stamps: Stamps, last: nat)
    requires BookInOrder(book, stamps, last)
    ensures BookInOrder(Erase(book, id), stamps, last)
  {
    if Has(book, id) {
      var at := Locate(book, id).value;
      EraseInOrder(Levels(book, at.side), at.level, at.index, stamps, last);
    }
    hide LevelsInOrder;
  }

  lemma BookInsertInOrder(book: Book, side: Side, price: PriceTicks, o: Order, stamps: Stamps, last: nat, now: nat)
    requires BookInOrder(book, stamps, last) && IsSide(side) && !Has(book, o.id) && last < now
    ensures BookInOrder(Insert(book, side, price, o), stamps[o.id := now], now)
    ensures BookInOrder(book, stamps[o.id := now], now)
  {
    hide LevelsInOrder;
    HasIsHasId(book, o.id);
    RestampInOrder(book.bids, stamps, last, o.id, now);
    RestampInOrder(book.asks, stamps, last, o.id, now);
    InsertInOrder(side, Levels(book, side), price, o, stamps, last, now);
  }

  lemma FilledInOrder(book: Book, order: LogicalOrder, replaced: Option<OrderId>, stamps: Stamps, last: nat, now: nat)
    requires WfBook(book) && UniqueIds(book) && IsSide(order.side) && BookInOrder(book, stamps, last) && last < now
    requires replaced == Some(order.orderId) || (replaced == None && !Has(book, order.orderId))
    ensures BookInOrder(FilledBook(book, order, replaced), stamps[order.orderId := now], now)
  {
    var candidate, opposite := Candidate(book, replaced), Opposite(order.side);
    var t, matched := TakenBy(book, order, replaced), MatchedBook(book, order, replaced);
    BookEraseInOrder(book, order.orderId, stamps, last);
    IdIsFree(book, order, replaced);
    hide LevelsInOrder, Take, Has, UniqueIds;
    TakeInOrder(order.side, order.limitPrice, Levels(candidate, opposite), order.quantity, [], stamps, last);
    assert BookInOrder(matched, stamps, last);
    BookInsertInOrder(matched, order.side, order.limitPrice, Order(order.orderId, t.remainder), stamps, last, now);
  }

  lemma RequantifyInOrder(book: Book, id: OrderId, leaves: Quantity, stamps: Stamps, last: nat, now: nat)
    requires UniqueIds(book) && Has(book, id) && BookInOrder(book, stamps, last) && last < now
    ensures BookInOrder(Requantify(book, id, leaves),
                        if leaves > ViewOf(book, id).value.leaves then stamps[id := now] else stamps, now)
  {
    var at, view, changed := Locate(book, id).value, ViewOf(book, id).value, SetLeaves(book, id, leaves);
    SetLeavesInOrder(Levels(book, at.side), at.level, at.index, leaves, stamps, last);
    assert BookInOrder(changed, stamps, last);
    RequantifyUnique(book, id, leaves);
    hide LevelsInOrder, UniqueIds, Locate, Insert, Erase, SetLeaves;
    BookEraseInOrder(changed, id, stamps, last);
    BookInsertInOrder(Erase(changed, id), view.side, view.price, Order(id, leaves), stamps, last, now);
    LaterInOrder(changed, stamps, last, now);
  }

  lemma LaterInOrder(book: Book, stamps: Stamps, last: nat, now: nat)
    requires BookInOrder(book, stamps, last) && last <= now
    ensures BookInOrder(book, stamps, now)
  {
  }

  // One command.

  /** The book is replaced when the order is carried out, and only then. */
  lemma ExecuteBook(s: State, order: LogicalOrder, replaced: Option<OrderId>)
    requires WfState(s) && s.phase.Active? && IsSide(order.side)
    ensures var (u, r) := ExecuteAggressive(s, order, replaced);
            && u.lastCommand == s.lastCommand
            && u.book == if r.result == Accepted then FilledBook(s.book, order, replaced) else s.book
  {
    if Decide(s, order, replaced) == Accepted {
      DecideFits(s, order, replaced);
    } else if Decide(s, order, replaced) == LosslessOutboxFull {
      DecideFull(s, order, replaced);
    }
    hide FilledBook, TakenBy, WfState, Decide;
  }

  lemma ExecuteInOrder(s: State, order: LogicalOrder, replaced: Option<OrderId>, stamps: Stamps, last: nat)
    requires WfState(s) && UniqueIds(s.book) && s.phase.Active? && IsSide(order.side)
    requires replaced == Some(order.orderId) || (replaced == None && !Has(s.book, order.orderId))
    requires BookInOrder(s.book, stamps, last) && last < s.lastCommand
    ensures var (u, r) := ExecuteAggressive(s, order, replaced);
            && u.lastCommand == s.lastCommand
            && BookInOrder(u.book, if r.result == Accepted then stamps[order.orderId := s.lastCommand] else stamps, s.lastCommand)
  {
    ExecuteBook(s, order, replaced);
    FilledInOrder(s.book, order, replaced, stamps, last, s.lastCommand);
    LaterInOrder(s.book, stamps, last, s.lastCommand);
    hide ExecuteAggressive, BookInOrder, FilledBook, UniqueIds, WfState;
  }

  lemma AmendInOrder(s: State, o: AmendOrder, stamps: Stamps)
    requires WfState(s) && UniqueIds(s.book) && BookInOrder(s.book, stamps, s.lastCommand)
    requires ValidateAmend(s, o) == Accepted
    ensures var u := ApplyAmend(s, o).0; BookInOrder(u.book, Stamped(s, Amend(o), stamps), u.lastCommand)
  {
    hide BookInOrder, ExecuteAggressive, Requantify, UniqueIds, LeavesFit, WfBook;
    var view := ViewOf(s.book, o.orderId).value;
    if o.newPrice != view.price {
      ExecuteInOrder(AcceptCommand(s), LogicalAmend(s, o), Some(o.orderId), stamps, s.lastCommand);
    } else {
      RequantifyInOrder(s.book, o.orderId, o.newLeaves, stamps, s.lastCommand, s.lastCommand + 1);
      LaterInOrder(s.book, stamps, s.lastCommand, s.lastCommand + 1);
    }
  }

  lemma ApplyInOrder(s: State, c: Command, stamps: Stamps)
    requires WfState(s) && UniqueIds(s.book) && BookInOrder(s.book, stamps, s.lastCommand)
    ensures var u := Apply(s, c).0; BookInOrder(u.book, Stamped(s, c, stamps), u.lastCommand)
  {
    hide BookInOrder, ExecuteAggressive, Erase, UniqueIds, ApplyAmend, WfBook;
    LaterInOrder(s.book, stamps, s.lastCommand, s.lastCommand + 1);
    match c
    case New(o) =>
      if ValidateNew(s, o) == Accepted {
        ExecuteInOrder(AcceptCommand(s), LogicalNew(o), None, stamps, s.lastCommand);
      }
    case Cancel(o) =>
      BookEraseInOrder(s.book, o.orderId, stamps, s.lastCommand);
      LaterInOrder(Erase(s.book, o.orderId), stamps, s.lastCommand, s.lastCommand + 1);
    case Amend(o) =>
      if ValidateAmend(s, o) == Accepted {
        AmendInOrder(s, o, stamps);
      } else {
        RejectedAmend(s, o);
      }
    case Lifecycle(l) => EmptyInOrder(stamps, s.lastCommand + 1);
  }

  lemma RejectedAmend(s: State, o: AmendOrder)
    requires WfState(s) && ValidateAmend(s, o) != Accepted
    ensures ApplyAmend(s, o).0 == s && ApplyAmend(s, o).1.result != Accepted
  {
  }

  lemma EmptyInOrder(stamps: Stamps, last: nat)
    ensures BookInOrder(EMPTY, stamps, last)
  {
  }

  // Whole runs.

  function RunStamps(j: Journal, events: seq<Event>, stamps: Stamps): Stamps
    requires WfState(j.state)
    decreases |events|
  {
    hide WfState, Next, Stamped;
    if events == [] then stamps
    else
      NextKeepsWf(j, events[0]);
      var next := match events[0] case Submit(c) => Stamped(j.state, c, stamps) case _ => stamps;
      RunStamps(Next(j, events[0]), events[1..], next)
  }

  lemma {:induction false} RunInOrder(j: Journal, events: seq<Event>, stamps: Stamps)
    requires WfState(j.state) && UniqueIds(j.state.book) && BookInOrder(j.state.book, stamps, j.state.lastCommand)
    ensures var s := Run(j, events).state; BookInOrder(s.book, RunStamps(j, events, stamps), s.lastCommand)
    decreases |events|
  {
    hide WfState, UniqueIds, BookInOrder, Apply, Stamped;
    if events == [] {
    } else {
      var next := match events[0] case Submit(c) => Stamped(j.state, c, stamps) case _ => stamps;
      if events[0].Submit? {
        ApplyInOrder(j.state, events[0].command, stamps);
        ApplyUnique(j.state, events[0].command);
      }
      NextKeepsWf(j, events[0]);
      RunInOrder(Next(j, events[0]), events[1..], next);
    }
  }

  /**
    In every reachable state, through partial fills, reductions, increases and
    changes of price, each queue is in the order in which its orders last
    gained their places.
   */
  lemma QueuesAreInTimeOrder(limits: Limits, events: seq<Event>)
    requires limits.statusCapacity >= MINIMUM_STATUS_OUTBOX_CAPACITY
    ensures var s := Run(Opening(limits), events).state;
            BookInOrder(s.book, RunStamps(Opening(limits), events, map[]), s.lastCommand)
  {
    EmptyUnique();
    EmptyInOrder(map[], 0);
    RunInOrder(Opening(limits), events, map[]);
  }
}
