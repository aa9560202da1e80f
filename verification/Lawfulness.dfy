/**
  Every step of the reference model obeys the laws: controls, admission, the
  fill bound and every other bound, where orders rest, and what amending in
  place does.
 */
module Lawfulness {
  import opened Domain
  import opened Book
  import opened Reference
  import opened Matching
  import opened Planning
  import opened Runs
  import opened Identity
  import opened Conservation
  import opened TimePriority
  import opened Views
  import opened Fills
  import opened Laws

  // Controls.

  /** Which controls move the engine, where to, what they announce, and what the others are told. */
  lemma ControlsAreLawful(s: State, c: LifecycleCommand)
    requires WfState(s)
    ensures var (u, r) := Apply(s, Lifecycle(c)); ControlLaw(s, c, u, r)
  {
    hide WfBook, Uncrossed, CountBook;
  }

  // Admission.

  lemma HasIsRests(book: Book, id: OrderId)
    ensures Has(book, id) <==> Rests(book, id)
  {
    if Has(book, id) {
      assert Holds(book, Locate(book, id).value, id);
    }
  }

  /** A command with a sequence is not a refusal, and the other way round. */
  lemma ExecuteCounts(s: State, order: LogicalOrder, replaced: Option<OrderId>)
    requires WfState(s) && s.phase.Active? && IsSide(order.side)
    ensures ExecuteAggressive(s, order, replaced).1.commandSequence == s.lastCommand
  {
    hide WfBook, TakenBy, FilledBook, MatchedBook;
  }

  /** Which new orders are given a sequence, and what the others are told. */
  lemma NewIsAdmitted(s: State, o: NewOrder)
    requires WfState(s)
    ensures var (u, r) := Apply(s, New(o)); NewAdmission(s, o, u, r)
  {
    HasIsRests(s.book, o.orderId);
    hide WfBook, ExecuteAggressive, Rests, Locate, CountBook, Uncrossed;
    if ValidateNew(s, o) == Accepted {
      ExecuteCounts(AcceptCommand(s), LogicalNew(o), None);
    }
  }

  /** Which cancels are given a sequence, and what the others are told. */
  lemma CancelIsAdmitted(s: State, o: CancelOrder)
    requires WfState(s)
    ensures var (u, r) := Apply(s, Cancel(o)); CancelAdmission(s, o, u, r)
  {
    HasIsRests(s.book, o.orderId);
    hide WfBook, Erase, Rests, Locate, CountBook, Uncrossed;
  }

  /** Which amendments are given a sequence, and what the others are told. */
  lemma AmendIsAdmitted(s: State, o: AmendOrder)
    requires WfState(s)
    ensures var (u, r) := Apply(s, Amend(o)); AmendAdmission(s, o, u, r)
  {
    HasIsRests(s.book, o.orderId);
    hide WfBook, ExecuteAggressive, Requantify, LeavesFit, Rests, Locate, CountBook, Uncrossed;
    if ValidateAmend(s, o) == Accepted && o.newPrice != ViewOf(s.book, o.orderId).value.price {
      ExecuteCounts(AcceptCommand(s), LogicalAmend(s, o), Some(o.orderId));
    }
  }

  // Taking an order out.

  lemma UniqueOnlyAt(book: Book, at: Location)
    requires UniqueIds(book) && In(book, at)
    ensures OnlyAt(Levels(book, at.side), at.level, at.index)
  {
    var levels, id := Levels(book, at.side), OrderAt(book, at).id;
    forall a: nat, b: nat | InRange(levels, a, b) && (a, b) != (at.level, at.index) ensures levels[a].orders[b].id != id {
      assert Holds(book, at, id);
      assert levels[a].orders[b].id == id ==> Holds(book, Location(at.side, a, b), id);
    }
  }

  lemma AbsentSeen(book: Book, side: Side, id: OrderId)
    requires IsSide(side) && !HasId(Levels(book, side), id)
    ensures Others(SideOf(book, side), id) == SideOf(book, side)
  {
    NoneOf(side, Levels(book, side), id);
  }

  /** Without an order, both sides are the other orders as they were. */
  lemma ErasedSeen(book: Book, id: OrderId, side: Side)
    requires UniqueIds(book) && IsSide(side)
    ensures SideOf(Erase(book, id), side) == Others(SideOf(book, side), id)
  {
    HasIsHasId(book, id);
    if Has(book, id) && Locate(book, id).value.side == side {
      var at := Locate(book, id).value;
      UniqueOnlyAt(book, at);
      EraseFlat(side, Levels(book, side), at.level, at.index);
    } else {
      if HasId(Levels(book, side), id) {
        var i: nat, j: nat :| InRange(Levels(book, side), i, j) && Levels(book, side)[i].orders[j].id == id;
        assert Holds(book, Location(side, i, j), id);
        LocateUnique(book, Location(side, i, j), id);
        assert false;
      }
      AbsentSeen(book, side, id);
    }
  }

  // An aggressive order.

  /** The order is new, or replaces one on its own side. */
  ghost predicate Incoming(book: Book, order: LogicalOrder, replaced: Option<OrderId>) {
    if replaced.Some? then replaced.value == order.orderId && ReplacesOwnSide(book, order.side, replaced)
    else !Has(book, order.orderId)
  }

  lemma CandidateSeen(book: Book, order: LogicalOrder, replaced: Option<OrderId>)
    requires WfBook(book) && UniqueIds(book) && IsSide(order.side) && Incoming(book, order, replaced)
    ensures var candidate, opposite := Candidate(book, replaced), Opposite(order.side);
            && WfBook(candidate)
            && Levels(candidate, opposite) == Levels(book, opposite)
            && SideOf(candidate, order.side) == Others(SideOf(book, order.side), order.orderId)
  {
    if replaced.Some? {
      EraseOneSide(book, order.orderId);
      ErasedSeen(book, order.orderId, order.side);
    } else {
      HasIsHasId(book, order.orderId);
      AbsentSeen(book, order.side, order.orderId);
    }
  }

  /** Matching changes the other side only, as the orders within the limit say. */
  lemma MatchedSeen(book: Book, order: LogicalOrder, replaced: Option<OrderId>)
    requires WfBook(book) && UniqueIds(book) && IsSide(order.side) && Incoming(book, order, replaced)
    ensures var t, matched := TakenBy(book, order, replaced), MatchedBook(book, order, replaced);
            var opposite := Opposite(order.side);
            var views := SideOf(book, opposite);
            var reach := Select(WithinLimit(order.side, order.limitPrice), views);
            && SideOf(matched, order.side) == Others(SideOf(book, order.side), order.orderId)
            && SideOf(matched, opposite) == Flat(opposite, t.levels)
            && (t.withinCapacity <==> !Cut(reach, order.quantity))
            && (t.withinCapacity ==>
                  && Serves(reach, order.quantity, t.planned)
                  && t.remainder == order.quantity - Filled(reach, order.quantity)
                  && LeftBehind(views, Filled(reach, order.quantity), |t.planned|, SideOf(matched, opposite)))
  {
    hide WfBook, UniqueIds, Take, Flat, LeftBehind, Cut, Select;
    CandidateSeen(book, order, replaced);
    WellSided(book, Opposite(order.side));
    TakeServes(order.side, order.limitPrice, Levels(book, Opposite(order.side)), order.quantity);
  }

  lemma WellSided(book: Book, side: Side)
    requires WfBook(book)
    ensures WfSide(Opposite(side), Levels(book, Opposite(side)))
    ensures IsSide(side) ==> WfSide(side, Levels(book, side))
  {
  }

  lemma CountSeen(book: Book, side: Side)
    requires IsSide(side)
    ensures CountBook(book) == |SideOf(book, side)| + |SideOf(book, Opposite(side))|
  {
    FlatCount(Buy, book.bids);
    FlatCount(Sell, book.asks);
  }

  /** Everything within the limit is gone when some of the order is left. */
  lemma AllReachTaken(views: seq<RestingOrderView>, reach: seq<RestingOrderView>, quantity: Quantity, n: nat,
                      after: seq<RestingOrderView>)
    requires n == Needed(reach, quantity) && Filled(reach, quantity) < quantity
    requires |reach| <= |views| && views[..|reach|] == reach
    requires LeftBehind(views, Filled(reach, quantity), n, after)
    ensures |after| == |views| - |reach|
  {
    assert reach[..|reach|] == reach;
    SumGrows(reach, n, |reach|);
  }

  /** Whether the remainder is accepted is whether there is a place for it. */
  lemma InsertSeen(s: State, order: LogicalOrder, replaced: Option<OrderId>)
    requires WfState(s) && UniqueIds(s.book) && ValidOrder(order) && Incoming(s.book, order, replaced)
    requires var t := TakenBy(s.book, order, replaced); t.withinCapacity && t.remainder != 0
    ensures var t, matched := TakenBy(s.book, order, replaced), MatchedBook(s.book, order, replaced);
            InsertStatus(s.limits, matched, order.orderId, order.side, order.limitPrice, t.remainder) ==
            if PlaceFor(s, order, t.remainder) then Accepted else CapacityExhausted
  {
    hide UniqueIds, TakenBy, MatchedBook, Cut, LeftBehind, Ranked, Flat, HasRoom, Has, Locate, WfBook, Uncrossed,
      CountBook, Needed;
    var t, matched := TakenBy(s.book, order, replaced), MatchedBook(s.book, order, replaced);
    var views := SideOf(s.book, Opposite(order.side));
    MatchedSeen(s.book, order, replaced);
    MatchedEffect(s.book, order, replaced);
    IdIsFree(s.book, order, replaced);
    WellSided(matched, order.side);
    WellSided(s.book, order.side);
    RoomSeen(order.side, Levels(matched, order.side), order.limitPrice, t.remainder, s.limits.levelsPerSide);
    CountSeen(matched, order.side);
    FlatRanked(Opposite(order.side), Levels(s.book, Opposite(order.side)));
    ReachIsFront(order.side, order.limitPrice, views);
    AllReachTaken(views, Reach(s, order), order.quantity, |t.planned|, SideOf(matched, Opposite(order.side)));
  }

  /** How an order ends is what the bounds say. */
  lemma DecideSeen(s: State, order: LogicalOrder, replaced: Option<OrderId>)
    requires WfState(s) && UniqueIds(s.book) && ValidOrder(order) && Incoming(s.book, order, replaced)
    ensures Decide(s, order, replaced) ==
            if Exceeds(s, order) then CapacityExhausted
            else if |s.reports| + Needed(Reach(s, order), order.quantity) > s.limits.executionCapacity then
              LosslessOutboxFull
            else Accepted
  {
    hide UniqueIds, TakenBy, MatchedBook, Cut, LeftBehind, PlaceFor, InsertStatus, WfBook, Uncrossed, CountBook, Needed,
      Reach, Locate, Has;
    var t := TakenBy(s.book, order, replaced);
    MatchedSeen(s.book, order, replaced);
    assert Reach(s, order) == Select(WithinLimit(order.side, order.limitPrice), SideOf(s.book, Opposite(order.side))) by {
      ReachIs(s, order);
    }
    if t.withinCapacity && t.remainder != 0 {
      InsertSeen(s, order, replaced);
    }
  }

  lemma ReachIs(s: State, order: LogicalOrder)
    ensures Reach(s, order) == Select(WithinLimit(order.side, order.limitPrice), SideOf(s.book, Opposite(order.side)))
  {
  }

  /** The remainder is queued behind the other orders of its side. */
  lemma FilledSeen(s: State, order: LogicalOrder, replaced: Option<OrderId>)
    requires WfState(s) && UniqueIds(s.book) && ValidOrder(order) && Incoming(s.book, order, replaced)
    requires TakenBy(s.book, order, replaced).withinCapacity
    ensures Settled(s, order, s.(book := FilledBook(s.book, order, replaced)))
  {
    hide UniqueIds, TakenBy, MatchedBook, Cut, LeftBehind, Flat, InsertOrder, Queued, WfBook, Uncrossed, CountBook, Needed,
      Locate, Has, Select;
    var t, matched := TakenBy(s.book, order, replaced), MatchedBook(s.book, order, replaced);
    MatchedSeen(s.book, order, replaced);
    MatchedEffect(s.book, order, replaced);
    WellSided(matched, order.side);
    InsertFlat(order.side, Levels(matched, order.side), order.limitPrice, Order(order.orderId, t.remainder));
  }

  lemma ReportsSeen(s: State, order: LogicalOrder, planned: seq<PlannedFill>)
    requires Serves(Reach(s, order), order.quantity, planned) && SequencesFit(s, |planned|)
    ensures var reports := Reports(s, order.orderId, planned);
            forall k :: 0 <= k < |planned| ==> ReportOf(s, order, k, reports[k])
  {
    hide Reach, Needed;
  }

  /** An admitted new order, or an amendment to another price, from the command's own state. */
  lemma OrderIsLawful(s: State, order: LogicalOrder, replaced: Option<OrderId>)
    requires WfState(s) && UniqueIds(s.book) && ValidOrder(order) && Incoming(s.book, order, replaced)
    requires s.phase.Active? && s.lastCommand < U64_MAX
    ensures var (u, r) := ExecuteAggressive(AcceptCommand(s), order, replaced); OrderLaw(s, order, u, r)
  {
    var t := AcceptCommand(s);
    AcceptKeepsWf(s);
    AcceptedAlike(s, order);
    hide WfState, UniqueIds, Exceeds, Reach, Needed, Incoming, Decide, Carried, Dropped, HaltsClosed, ExecuteAggressive,
      ValidOrder;
    DecideSeen(t, order, replaced);
    match Decide(t, order, replaced)
    case Accepted =>
      DecideFits(t, order, replaced);
      CarriedSeen(s, order, replaced);
    case LosslessOutboxFull => HaltSeen(s, order, replaced);
    case CapacityExhausted => DropSeen(s, order, replaced);
  }

  lemma DropSeen(s: State, order: LogicalOrder, replaced: Option<OrderId>)
    requires s.phase.Active? && IsSide(order.side) && s.lastCommand < U64_MAX && WfState(AcceptCommand(s))
    requires Decide(AcceptCommand(s), order, replaced) == CapacityExhausted
    ensures var (u, r) := ExecuteAggressive(AcceptCommand(s), order, replaced); Dropped(s, u, r, CapacityExhausted)
  {
    hide WfState, TakenBy, FilledBook, Decide;
  }

  lemma HaltSeen(s: State, order: LogicalOrder, replaced: Option<OrderId>)
    requires s.phase.Active? && IsSide(order.side) && s.lastCommand < U64_MAX && WfState(AcceptCommand(s))
    requires Decide(AcceptCommand(s), order, replaced) == LosslessOutboxFull
    ensures var (u, r) := ExecuteAggressive(AcceptCommand(s), order, replaced);
            HaltsClosed(s, u) && r == StepResult(LosslessOutboxFull, u.lastCommand, [])
  {
    DecideFull(AcceptCommand(s), order, replaced);
    hide WfState, TakenBy, FilledBook, Decide;
  }

  lemma AcceptedAlike(s: State, order: LogicalOrder)
    requires s.lastCommand < U64_MAX
    ensures Exceeds(AcceptCommand(s), order) <==> Exceeds(s, order)
    ensures Reach(AcceptCommand(s), order) == Reach(s, order)
  {
  }

  /** How an accepted order changes the state. */
  lemma AcceptedChanges(s: State, order: LogicalOrder, replaced: Option<OrderId>)
    requires WfState(s) && s.phase.Active? && IsSide(order.side) && s.lastCommand < U64_MAX && WfState(AcceptCommand(s))
    requires Decide(AcceptCommand(s), order, replaced) == Accepted
    requires SequencesFit(s, |TakenBy(s.book, order, replaced).planned|)
    ensures var (u, r) := ExecuteAggressive(AcceptCommand(s), order, replaced);
            var planned := TakenBy(s.book, order, replaced).planned;
            && r == StepResult(Accepted, s.lastCommand + 1, Reports(s, order.orderId, planned))
            && u == s.(lastCommand := s.lastCommand + 1, lastEngine := s.lastEngine + |planned|,
                       lastMatch := s.lastMatch + |planned|, reports := s.reports + r.reports,
                       book := FilledBook(s.book, order, replaced))
  {
    var planned := TakenBy(s.book, order, replaced).planned;
    hide WfState, TakenBy, FilledBook, Decide;
    assert Reports(AcceptCommand(s), order.orderId, planned) == Reports(s, order.orderId, planned);
  }

  lemma CarriedSeen(s: State, order: LogicalOrder, replaced: Option<OrderId>)
    requires WfState(s) && UniqueIds(s.book) && ValidOrder(order) && Incoming(s.book, order, replaced)
    requires s.phase.Active? && s.lastCommand < U64_MAX && WfState(AcceptCommand(s))
    requires Decide(AcceptCommand(s), order, replaced) == Accepted
    requires SequencesFit(s, |TakenBy(s.book, order, replaced).planned|)
    ensures var (u, r) := ExecuteAggressive(AcceptCommand(s), order, replaced); Carried(s, order, u, r)
  {
    hide WfState, UniqueIds, Incoming, Decide, ExecuteAggressive, TakenBy, FilledBook, FillsReported, Settled;
    var t := AcceptCommand(s);
    var (u, r) := ExecuteAggressive(t, order, replaced);
    DecideWithin(t, order, replaced);
    AcceptedChanges(s, order, replaced);
    FilledSeen(s, order, replaced);
    SettledAlike(s, order, s.(book := u.book), u);
    PlannedSeen(s, order, replaced, u, r);
  }

  lemma SettledAlike(s: State, order: LogicalOrder, u: State, u': State)
    requires Settled(s, order, u) && u.book == u'.book
    ensures Settled(s, order, u')
  {
  }

  lemma PlannedSeen(s: State, order: LogicalOrder, replaced: Option<OrderId>, u: State, r: StepResult)
    requires WfState(s) && UniqueIds(s.book) && ValidOrder(order) && Incoming(s.book, order, replaced)
    requires var t := TakenBy(s.book, order, replaced);
             && t.withinCapacity && SequencesFit(s, |t.planned|)
             && r.reports == Reports(s, order.orderId, t.planned)
             && u.reports == s.reports + r.reports
             && u.lastEngine == s.lastEngine + |t.planned| && u.lastMatch == s.lastMatch + |t.planned|
    ensures FillsReported(s, order, u, r)
  {
    hide WfBook, Uncrossed, CountBook, UniqueIds, TakenBy, Incoming, Select, LeftBehind, MatchedBook, Needed, Flat, Cut;
    MatchedSeen(s.book, order, replaced);
    ReachIs(s, order);
    ReportsSeen(s, order, TakenBy(s.book, order, replaced).planned);
  }

  lemma DecideWithin(s: State, order: LogicalOrder, replaced: Option<OrderId>)
    requires WfState(s) && IsSide(order.side) && Decide(s, order, replaced) == Accepted
    ensures TakenBy(s.book, order, replaced).withinCapacity
  {
  }

  // Orders that stay on their side.

  /** A cancelled order is gone, and nothing else moves. */
  lemma CancelIsLawful(s: State, o: CancelOrder)
    requires WfState(s) && UniqueIds(s.book)
    ensures var (u, r) := Apply(s, Cancel(o)); r.commandSequence != 0 ==> CancelLaw(s, o.orderId, u, r)
  {
    hide WfBook, UniqueIds, Erase, SideOf, Has, CountBook, Uncrossed;
    ErasedSeen(s.book, o.orderId, Buy);
    ErasedSeen(s.book, o.orderId, Sell);
  }

  /** What the other orders at an order's price hold. */
  lemma RestOfLevel(side: Side, levels: seq<Level>, i: nat, j: nat)
    requires IsSide(side) && WfSide(side, levels) && OnlyAt(levels, i, j)
    ensures SumOf(Select(AtPrice(levels[i].price), Others(Flat(side, levels), levels[i].orders[j].id))) ==
            Sum(levels[i].orders) - levels[i].orders[j].leaves
  {
    var erased, price := EraseAt(levels, i, j), levels[i].price;
    EraseFlat(side, levels, i, j);
    SumWithout(levels[i].orders, j);
    if |levels[i].orders| == 1 {
      forall k | 0 <= k < |erased| ensures erased[k].price != price {
        assert erased[k] == levels[if k < i then k else k + 1];
      }
      NotPriced(side, erased, price);
    } else {
      EraseAtWf(side, levels, i, j);
      LevelSeen(side, erased, i);
      SumOfOrders(side, price, erased[i].orders);
    }
  }

  /** Leaves fit exactly when the other orders at the price leave them room. */
  lemma FitSeen(book: Book, id: OrderId, leaves: Quantity)
    requires WfBook(book) && UniqueIds(book) && Has(book, id)
    ensures var view := ViewOf(book, id).value;
            leaves > view.leaves && !LeavesFit(book, id, leaves) <==> Overflows(book, view, leaves)
  {
    var at := Locate(book, id).value;
    UniqueOnlyAt(book, at);
    WellSided(book, at.side);
    hide UniqueIds, WfSide, Flat, OnlyAt;
    RestOfLevel(at.side, Levels(book, at.side), at.level, at.index);
  }

  lemma SetLeavesSeen(book: Book, id: OrderId, leaves: Quantity)
    requires UniqueIds(book) && Has(book, id)
    ensures var side, after := Locate(book, id).value.side, SetLeaves(book, id, leaves);
            && SideOf(after, side) == Releaved(SideOf(book, side), id, leaves)
            && Levels(after, Opposite(side)) == Levels(book, Opposite(side))
  {
    var at := Locate(book, id).value;
    UniqueOnlyAt(book, at);
    SetLeavesFlat(at.side, Levels(book, at.side), at.level, at.index, leaves);
  }

  lemma RequantifySeen(book: Book, id: OrderId, leaves: Quantity)
    requires WfBook(book) && UniqueIds(book) && Has(book, id) && IsValid(leaves) && LeavesFit(book, id, leaves)
    ensures var view, after := ViewOf(book, id).value, Requantify(book, id, leaves);
            && SideOf(after, Opposite(view.side)) == SideOf(book, Opposite(view.side))
            && if leaves > view.leaves then
                 Queued(view.side, Others(SideOf(book, view.side), id), view.(leaves := leaves), SideOf(after, view.side))
               else
                 SideOf(after, view.side) == Releaved(SideOf(book, view.side), id, leaves)
  {
    var view, changed := ViewOf(book, id).value, SetLeaves(book, id, leaves);
    SetLeavesSeen(book, id, leaves);
    SetLeavesWf(book, id, leaves);
    LocateAfterSetLeaves(book, id, leaves);
    RequantifyUnique(book, id, leaves);
    hide UniqueIds, LeavesFit, SetLeaves, Flat, InsertOrder, Queued, WfBook;
    if leaves > view.leaves {
      EraseOneSide(changed, id);
      ErasedSeen(changed, id, view.side);
      OthersReleaved(SideOf(book, view.side), id, leaves);
      WellSided(Erase(changed, id), view.side);
      InsertFlat(view.side, Levels(Erase(changed, id), view.side), view.price, Order(id, leaves));
    }
  }

  /** An amendment at the resting price overflows its price level, or changes this order only. */
  lemma InPlaceIsLawful(s: State, o: AmendOrder)
    requires WfState(s) && UniqueIds(s.book) && ValidateAmend(s, o) == Accepted
    requires ViewOf(s.book, o.orderId).value.price == o.newPrice
    ensures var (u, r) := Apply(s, Amend(o)); InPlaceLaw(s, ViewOf(s.book, o.orderId).value, o.newLeaves, u, r)
  {
    hide UniqueIds, LeavesFit, Requantify, Overflows, SideOf, Queued, WfBook, Uncrossed, CountBook, ExecuteAggressive;
    FitSeen(s.book, o.orderId, o.newLeaves);
    if o.newLeaves <= LeavesOf(s.book, o.orderId) {
      ReductionFits(s.book, o.orderId, o.newLeaves);
    }
    if LeavesFit(s.book, o.orderId, o.newLeaves) {
      RequantifySeen(s.book, o.orderId, o.newLeaves);
    }
  }

  lemma AmendIsLawful(s: State, o: AmendOrder)
    requires WfState(s) && UniqueIds(s.book)
    ensures var (u, r) := Apply(s, Amend(o)); r.commandSequence != 0 ==> AmendLaw(s, o, u, r)
  {
    hide UniqueIds, LeavesFit, Requantify, InPlaceLaw, OrderLaw, WfBook, Uncrossed, CountBook, ExecuteAggressive;
    if ValidateAmend(s, o) == Accepted {
      if o.newPrice == ViewOf(s.book, o.orderId).value.price {
        InPlaceIsLawful(s, o);
      } else {
        OrderIsLawful(s, LogicalAmend(s, o), Some(o.orderId));
      }
    }
  }

  lemma NewIsLawful(s: State, o: NewOrder)
    requires WfState(s) && UniqueIds(s.book)
    ensures var (u, r) := Apply(s, New(o));
            r.commandSequence != 0 ==> OrderLaw(s, LogicalOrder(o.orderId, o.side, o.limitPrice, o.quantity), u, r)
  {
    hide UniqueIds, OrderLaw, WfBook, Uncrossed, CountBook, ExecuteAggressive;
    if ValidateNew(s, o) == Accepted {
      OrderIsLawful(s, LogicalNew(o), None);
    }
  }

  // Every step.

  /** The reference step obeys the laws, whatever the command. */
  lemma ApplyIsLawful(s: State, c: Command)
    requires WfState(s) && UniqueIds(s.book)
    ensures var (u, r) := Apply(s, c); Lawful(s, c, u, r)
  {
    hide Apply, UniqueIds, WfState, NewAdmission, CancelAdmission, AmendAdmission, OrderLaw, CancelLaw, AmendLaw, ControlLaw;
    match c
    case New(o) =>
      NewIsAdmitted(s, o);
      NewIsLawful(s, o);
    case Cancel(o) =>
      CancelIsAdmitted(s, o);
      CancelIsLawful(s, o);
    case Amend(o) =>
      AmendIsAdmitted(s, o);
      AmendIsLawful(s, o);
    case Lifecycle(l) => ControlsAreLawful(s, l);
  }

  /** So a step is the reference step exactly when it obeys the laws. */
  lemma LawsAreTheStep(s: State, c: Command, u: State, r: StepResult)
    requires WfState(s) && UniqueIds(s.book) && WfBook(u.book)
    ensures Lawful(s, c, u, r) <==> (u, r) == Apply(s, c)
  {
    hide Apply, Lawful, UniqueIds, WfState;
    ApplyIsLawful(s, c);
    assert WfBook(Apply(s, c).0.book) by {
      ApplyKeepsWf(s, c);
      WellFormedBook(Apply(s, c).0);
    }
    if Lawful(s, c, u, r) {
      LawsDetermine(s, c, u, r, Apply(s, c).0, Apply(s, c).1);
    }
  }

  lemma WellFormedBook(s: State)
    requires WfState(s)
    ensures WfBook(s.book)
  {
  }

  /** In every reachable state every command is answered by the laws. */
  lemma AlwaysLawful(limits: Limits, events: seq<Event>, c: Command)
    requires limits.statusCapacity >= MINIMUM_STATUS_OUTBOX_CAPACITY
    ensures var s := Run(Opening(limits), events).state;
            var (u, r) := Apply(s, c);
            Lawful(s, c, u, r)
  {
    hide Apply, Lawful, UniqueIds, WfState;
    AlwaysUnique(limits, events);
    ApplyIsLawful(Run(Opening(limits), events).state, c);
  }
}
