/**
  What the laws mean order by order: where the command's order rests, that all
  others stay where they were, how much is filled, and that an order that rests
  can be cancelled.
 */
module Places {
  import opened Domain
  import opened Book
  import opened Reference
  import opened Matching
  import opened Planning
  import opened Runs
  import opened Identity
  import opened Conservation
  import opened PropertyCheck
  import opened Views
  import opened Fills
  import opened Laws
  import opened Lawfulness

  // An order's view and the views of its side.

  lemma FlatHas(side: Side, levels: seq<Level>, i: nat, j: nat)
    requires InRange(levels, i, j)
    ensures RestingOrderView(levels[i].orders[j].id, side, levels[i].price, levels[i].orders[j].leaves) in Flat(side, levels)
  {
    if i == 0 {
      assert Flat(side, levels)[j] == FlatOrders(side, levels[0].price, levels[0].orders)[j];
    } else {
      FlatHas(side, levels[1..], i - 1, j);
    }
  }

  /** An order's view is among those of its side. */
  lemma ViewInSide(book: Book, id: OrderId)
    requires ViewOf(book, id).Some?
    ensures var v := ViewOf(book, id).value; IsSide(v.side) && v.orderId == id && v in SideOf(book, v.side)
  {
    var at := Locate(book, id).value;
    FlatHas(at.side, Levels(book, at.side), at.level, at.index);
  }

  /** A view of a side is the view of its order. */
  lemma SideHasView(book: Book, side: Side, v: RestingOrderView)
    requires UniqueIds(book) && IsSide(side) && v in SideOf(book, side)
    ensures ViewOf(book, v.orderId) == Some(v) && v.side == side
  {
    var k: nat :| k < |SideOf(book, side)| && SideOf(book, side)[k] == v;
    var i, j := ViewPlace(side, Levels(book, side), k);
    assert Holds(book, Location(side, i, j), v.orderId);
    LocateUnique(book, Location(side, i, j), v.orderId);
  }

  lemma {:induction false} SelectedIn(keep: RestingOrderView -> bool, views: seq<RestingOrderView>, v: RestingOrderView)
    ensures v in Select(keep, views) <==> v in views && keep(v)
  {
    if views == [] {
    } else {
      SelectedIn(keep, views[1..], v);
    }
  }

  // The other orders.

  /** A view with the same side and price, and no fewer leaves, was there before. */
  ghost predicate WasThere(views: seq<RestingOrderView>, v: RestingOrderView) {
    exists k :: 0 <= k < |views| && views[k].orderId == v.orderId && views[k].side == v.side
                && views[k].price == v.price && views[k].leaves >= v.leaves
  }

  lemma LeftWasThere(views: seq<RestingOrderView>, quantity: nat, n: nat, after: seq<RestingOrderView>, v: RestingOrderView)
    requires LeftBehind(views, quantity, n, after) && v in after && (n > 0 ==> SumOf(views[..n - 1]) <= quantity)
    ensures WasThere(views, v)
  {
    if SumOf(views[..n]) <= quantity || v != after[0] {
      assert v in views[n..];
      var k: nat :| k < |views[n..]| && views[n..][k] == v;
      assert views[n + k] == v;
    } else {
      SumStep(views, n - 1);
    }
  }

  lemma OtherWasThere(views: seq<RestingOrderView>, id: OrderId, v: RestingOrderView)
    requires v in Others(views, id)
    ensures WasThere(views, v)
  {
    SelectedIn(NotOf(id), views, v);
  }

  lemma QueuedWasThere(side: Side, views: seq<RestingOrderView>, id: OrderId, w: RestingOrderView,
                       after: seq<RestingOrderView>, v: RestingOrderView)
    requires Queued(side, Others(views, id), w, after) && v in after && v != w
    ensures WasThere(views, v)
  {
    OtherWasThere(views, id, v);
  }

  /** All orders but one that still rest are where they were. */
  ghost predicate StayPut(before: Book, after: Book, id: OrderId) {
    && (forall v :: v in SideOf(after, Buy) && v.orderId != id ==> WasThere(SideOf(before, Buy), v))
    && (forall v :: v in SideOf(after, Sell) && v.orderId != id ==> WasThere(SideOf(before, Sell), v))
  }

  lemma SameStays(book: Book, id: OrderId)
    ensures StayPut(book, book, id)
  {
    hide SideOf;
  }

  /** The last order needed is the only one that can be left in part. */
  lemma NeededFirst(s: State, order: LogicalOrder)
    requires WfBook(s.book) && IsSide(order.side)
    ensures var views, reach := SideOf(s.book, Opposite(order.side)), Reach(s, order);
            var n, filled := Needed(reach, order.quantity), Filled(reach, order.quantity);
            n <= |views| && (n > 0 ==> SumOf(views[..n - 1]) <= filled)
  {
    var opposite, reach := Opposite(order.side), Reach(s, order);
    var n, views := Needed(reach, order.quantity), SideOf(s.book, opposite);
    FlatRanked(opposite, Levels(s.book, opposite));
    ReachIsFront(order.side, order.limitPrice, views);
    if n > 0 {
      assert reach[..n - 1] == views[..n - 1];
      assert reach[..|reach|] == reach;
      SumGrows(reach, n - 1, |reach|);
    }
  }

  lemma SettledStays(s: State, order: LogicalOrder, u: State)
    requires WfBook(s.book) && IsSide(order.side) && Settled(s, order, u)
    ensures StayPut(s.book, u.book, order.orderId)
  {
    hide WfBook, SideOf, Reach, Needed, LeftBehind, Queued, WasThere, SumOf, Select;
    NeededFirst(s, order);
    var reach, opposite, id := Reach(s, order), Opposite(order.side), order.orderId;
    var n, filled := Needed(reach, order.quantity), Filled(reach, order.quantity);
    var views, left := SideOf(s.book, opposite), SideOf(u.book, opposite);
    forall v | v in left ensures WasThere(views, v) {
      LeftWasThere(views, filled, n, left, v);
    }
    var own, after := SideOf(s.book, order.side), SideOf(u.book, order.side);
    forall v | v in after && v.orderId != id ensures WasThere(own, v) {
      if filled == order.quantity {
        OtherWasThere(own, id, v);
      } else {
        QueuedWasThere(order.side, own, id,
                       RestingOrderView(id, order.side, order.limitPrice, order.quantity - filled), after, v);
      }
    }
  }

  lemma InPlaceStays(s: State, view: RestingOrderView, leaves: Quantity, u: State, r: StepResult)
    requires IsSide(view.side) && InPlaceLaw(s, view, leaves, u, r)
    ensures StayPut(s.book, u.book, view.orderId)
  {
    hide SideOf, Queued, WasThere, Select, Overflows;
    SameStays(s.book, view.orderId);
    if !Overflows(s.book, view, leaves) {
      var own, after, id := SideOf(s.book, view.side), SideOf(u.book, view.side), view.orderId;
      forall v | v in after && v.orderId != id ensures WasThere(own, v) {
        if leaves > view.leaves {
          QueuedWasThere(view.side, own, id, view.(leaves := leaves), after, v);
        } else {
          ReleavedWasThere(own, id, leaves, v);
        }
      }
    }
  }

  lemma ReleavedWasThere(views: seq<RestingOrderView>, id: OrderId, leaves: Quantity, v: RestingOrderView)
    requires v in Releaved(views, id, leaves) && v.orderId != id
    ensures WasThere(views, v)
  {
    var k: nat :| k < |views| && Releaved(views, id, leaves)[k] == v;
    assert views[k] == v;
  }

  lemma CancelStays(s: State, id: OrderId, u: State, r: StepResult)
    requires CancelLaw(s, id, u, r)
    ensures StayPut(s.book, u.book, id)
  {
    hide SideOf, WasThere;
    forall v | v in SideOf(u.book, Buy) ensures WasThere(SideOf(s.book, Buy), v) {
      OtherWasThere(SideOf(s.book, Buy), id, v);
    }
    forall v | v in SideOf(u.book, Sell) ensures WasThere(SideOf(s.book, Sell), v) {
      OtherWasThere(SideOf(s.book, Sell), id, v);
    }
  }

  lemma OrderStays(s: State, order: LogicalOrder, u: State, r: StepResult)
    requires WfBook(s.book) && IsSide(order.side) && OrderLaw(s, order, u, r)
    ensures StayPut(s.book, u.book, order.orderId)
  {
    hide WfBook, Settled, Exceeds, Needed, Reach, StayPut, FillsReported;
    SameStays(s.book, order.orderId);
    if Settled(s, order, u) {
      SettledStays(s, order, u);
    }
  }

  lemma LawfulStays(s: State, c: Command, u: State, r: StepResult)
    requires WfBook(s.book) && !c.Lifecycle? && Lawful(s, c, u, r)
    ensures StayPut(s.book, u.book, Target(c))
  {
    hide WfBook, OrderLaw, InPlaceLaw, CancelLaw, StayPut, Rests;
    SameStays(s.book, Target(c));
    if r.commandSequence != 0 {
      match c
      case New(o) => OrderStays(s, LogicalOrder(o.orderId, o.side, o.limitPrice, o.quantity), u, r);
      case Cancel(o) => CancelStays(s, o.orderId, u, r);
      case Amend(o) =>
        ViewInSide(s.book, o.orderId);
        var view := ViewOf(s.book, o.orderId).value;
        if view.price == o.newPrice {
          InPlaceStays(s, view, o.newLeaves, u, r);
        } else {
          OrderStays(s, LogicalOrder(o.orderId, view.side, o.newPrice, o.newLeaves), u, r);
        }
    }
  }

  /** Whatever happens to an order, every other one that still rests is on its side and at its price, with no more leaves. */
  lemma OthersKeepTheirPlaces(s: State, c: Command, other: OrderId)
    requires WfState(s) && UniqueIds(s.book) && !c.Lifecycle? && other != Target(c)
    ensures var before, after := ViewOf(s.book, other), ViewOf(Apply(s, c).0.book, other);
            after.Some? ==>
            && before.Some?
            && after.value == before.value.(leaves := after.value.leaves)
            && after.value.leaves <= before.value.leaves
  {
    hide Apply, Lawful, UniqueIds, WfBook, SideOf, Locate, Uncrossed, CountBook;
    var u := Apply(s, c).0;
    ApplyIsLawful(s, c);
    LawfulStays(s, c, u, Apply(s, c).1);
    if ViewOf(u.book, other).Some? {
      ViewInSide(u.book, other);
      var v := ViewOf(u.book, other).value;
      var views := SideOf(s.book, v.side);
      assert WasThere(views, v);
      var k :| 0 <= k < |views| && views[k].orderId == v.orderId && views[k].side == v.side
               && views[k].price == v.price && views[k].leaves >= v.leaves;
      SideHasView(s.book, v.side, views[k]);
    }
  }

  // The command's own order.

  /** A queued view is the last at its price, and nothing else at any price changes. */
  lemma QueuedIsLast(side: Side, views: seq<RestingOrderView>, v: RestingOrderView, after: seq<RestingOrderView>)
    requires Queued(side, views, v, after)
    ensures Select(AtPrice(v.price), after) == Select(AtPrice(v.price), views) + [v]
    ensures v in after
  {
    var k: nat :| QueuedAt(side, views, v, after, k);
    var keep, front, back := AtPrice(v.price), views[..k], views[k..];
    hide QueuedAt;
    assert after == front + [v] + back && views == front + back by { QueuedSplits(side, views, v, after, k); }
    assert Select(keep, back) == [] by {
      QueuedSplits(side, views, v, after, k);
      SelectNone(keep, back);
    }
    SelectConcat(keep, front + [v], back);
    SelectConcat(keep, front, [v]);
    SelectConcat(keep, front, back);
    SelectAll(keep, [v]);
  }

  lemma QueuedSplits(side: Side, views: seq<RestingOrderView>, v: RestingOrderView, after: seq<RestingOrderView>, k: nat)
    requires QueuedAt(side, views, v, after, k)
    ensures after == views[..k] + [v] + views[k..] && views == views[..k] + views[k..]
    ensures forall a :: 0 <= a < |views[k..]| ==> views[k..][a].price != v.price
  {
  }

  /** The view an order has once nothing more of it can be filled. */
  function RestView(order: LogicalOrder, filled: nat): RestingOrderView
    requires filled <= order.quantity
  {
    RestingOrderView(order.orderId, order.side, order.limitPrice, order.quantity - filled)
  }

  lemma OthersTwice(views: seq<RestingOrderView>, id: OrderId)
    ensures Others(Others(views, id), id) == Others(views, id)
  {
    forall k | 0 <= k < |Others(views, id)| ensures NotOf(id)(Others(views, id)[k]) {
      SelectedIn(NotOf(id), views, Others(views, id)[k]);
    }
    SelectAll(NotOf(id), Others(views, id));
  }

  /** Taking the queued view out again leaves what was there. */
  lemma QueuedAgain(side: Side, views: seq<RestingOrderView>, v: RestingOrderView, after: seq<RestingOrderView>)
    requires Queued(side, Others(views, v.orderId), v, after)
    ensures Others(after, v.orderId) == Others(views, v.orderId)
  {
    var id := v.orderId;
    var keep, others := NotOf(id), Others(views, id);
    var k: nat :| QueuedAt(side, others, v, after, k);
    QueuedSplits(side, others, v, after, k);
    hide QueuedAt;
    OthersTwice(views, id);
    SelectConcat(keep, others[..k] + [v], others[k..]);
    SelectConcat(keep, others[..k], [v]);
    SelectConcat(keep, others[..k], others[k..]);
    SelectNone(keep, [v]);
  }

  // How much is filled.

  lemma {:induction false} ReportedTotal(s: State, order: LogicalOrder, reports: seq<ExecutionReport>, k: nat)
    requires k <= |reports| == Needed(Reach(s, order), order.quantity)
    requires forall i :: 0 <= i < |reports| ==> ReportOf(s, order, i, reports[i])
    ensures var reach := Reach(s, order);
            FillTotal(FillsOf(reports)[..k]) ==
            if SumOf(reach[..k]) < order.quantity then SumOf(reach[..k]) else order.quantity
  {
    hide Reach, Needed;
    var fills := FillsOf(reports);
    if k == 0 {
    } else {
      ReportedTotal(s, order, reports, k - 1);
      assert fills[..k][..k - 1] == fills[..k - 1];
      assert ReportOf(s, order, k - 1, reports[k - 1]);
      SumStep(Reach(s, order), k - 1);
    }
  }

  lemma FillsReportedTotal(s: State, order: LogicalOrder, u: State, r: StepResult)
    requires FillsReported(s, order, u, r)
    ensures FillTotal(FillsOf(r.reports)) == Filled(Reach(s, order), order.quantity)
  {
    hide Reach, Needed, ReportOf;
    var reach, n := Reach(s, order), |r.reports|;
    ReportedTotal(s, order, r.reports, n);
    assert FillsOf(r.reports)[..n] == FillsOf(r.reports);
    assert reach[..|reach|] == reach;
    SumGrows(reach, n, |reach|);
  }

  /** What the law says of a command that goes against the other side. */
  lemma AggressiveLaw(s: State, c: Command)
    requires WfState(s) && UniqueIds(s.book) && Aggressive(s, c).Some?
    ensures var order, (u, r) := Aggressive(s, c).value, Apply(s, c);
            && (r.commandSequence != 0 ==> IsSide(order.side) && OrderLaw(s, order, u, r))
            && (r.commandSequence == 0 ==> r.result != Accepted)
  {
    hide Apply, UniqueIds, OrderLaw, InPlaceLaw, WfBook, Uncrossed, CountBook, SideOf, Locate;
    ApplyIsLawful(s, c);
    ApplyAtomic(s, c);
    if c.Amend? {
      ViewInSide(s.book, c.amendOrder.orderId);
    }
  }

  /**
    The fill bound, and everything short of it. An order that more than 256
    resting orders are within the limit of, the first 256 of them not enough for
    it, is dropped; every accepted one fills the smaller of its quantity and what
    is within its limit.
   */
  lemma FillBound(s: State, c: Command)
    requires WfState(s) && UniqueIds(s.book) && Aggressive(s, c).Some? && Apply(s, c).1.commandSequence != 0
    ensures var order, (u, r) := Aggressive(s, c).value, Apply(s, c);
            var reach := Reach(s, order);
            && (|reach| > 256 && SumOf(reach[..256]) < order.quantity ==> Dropped(s, u, r, CapacityExhausted))
            && (r.result == Accepted ==>
                  && |r.reports| <= 256
                  && FillTotal(FillsOf(r.reports)) == if SumOf(reach) < order.quantity then SumOf(reach) else order.quantity)
  {
    hide Apply, UniqueIds, WfState, Settled, Reach, Needed, Aggressive, FillsReported, PlaceFor;
    AggressiveLaw(s, c);
    var order := Aggressive(s, c).value;
    var (u, r) := Apply(s, c);
    if r.result == Accepted {
      FillsReportedTotal(s, order, u, r);
      AtMostTheBound(Reach(s, order), order.quantity);
      assert |r.reports| == Needed(Reach(s, order), order.quantity) by { ReportsNeeded(s, order, u, r); }
    }
  }

  lemma ReportsNeeded(s: State, order: LogicalOrder, u: State, r: StepResult)
    requires FillsReported(s, order, u, r)
    ensures |r.reports| == Needed(Reach(s, order), order.quantity)
  {
  }

  lemma AtMostTheBound(reach: seq<RestingOrderView>, quantity: nat)
    requires !Cut(reach, quantity)
    ensures Needed(reach, quantity) <= 256
  {
    hide Needed;
    if |reach| > 256 {
      var first := SumOf(reach[..256]);
    }
  }

  /** The order rests with what was not filled of it, on its side, at its limit, behind all others at that price. */
  ghost predicate InItsPlace(s: State, order: LogicalOrder, u: State) {
    var filled, side := Filled(Reach(s, order), order.quantity), order.side;
    var others := Others(SideOf(s.book, side), order.orderId);
    if filled == order.quantity then
      ViewOf(u.book, order.orderId) == None && SideOf(u.book, side) == others
    else
      && ViewOf(u.book, order.orderId) == Some(RestView(order, filled))
      && Select(AtPrice(order.limitPrice), SideOf(u.book, side)) ==
         Select(AtPrice(order.limitPrice), others) + [RestView(order, filled)]
      && Others(SideOf(u.book, side), order.orderId) == others
  }

  lemma SettledInPlace(s: State, order: LogicalOrder, u: State)
    requires UniqueIds(u.book) && IsSide(order.side) && Settled(s, order, u)
    requires Filled(Reach(s, order), order.quantity) == order.quantity ==> ViewOf(u.book, order.orderId) == None
    ensures InItsPlace(s, order, u)
  {
    hide UniqueIds, SideOf, Queued, LeftBehind, Select, Reach, Needed, Locate;
    var filled, others := Filled(Reach(s, order), order.quantity), Others(SideOf(s.book, order.side), order.orderId);
    if filled != order.quantity {
      QueuedIsLast(order.side, others, RestView(order, filled), SideOf(u.book, order.side));
      SideHasView(u.book, order.side, RestView(order, filled));
      QueuedAgain(order.side, SideOf(s.book, order.side), RestView(order, filled), SideOf(u.book, order.side));
    }
  }

  lemma AcceptedIsCarried(s: State, order: LogicalOrder, u: State, r: StepResult)
    requires OrderLaw(s, order, u, r) && r.result == Accepted
    ensures Settled(s, order, u) && FillsReported(s, order, u, r)
  {
    hide Exceeds, Needed, Reach;
  }

  /** An order without leaves does not rest. */
  lemma NothingRests(s: State, c: Command)
    requires WfState(s) && UniqueIds(s.book) && !c.Lifecycle? && Apply(s, c).1.result == Accepted
    requires FillTotal(FillsOf(Apply(s, c).1.reports)) == Asked(c)
    ensures ViewOf(Apply(s, c).0.book, Target(c)) == None
  {
    hide Apply, UniqueIds, WfState, FilledFor, TotalBook;
    var u := Apply(s, c).0;
    Conservation.Conservation(s, c);
    ApplyKeepsWf(s, c);
    WellFormedBook(u);
    LeavesAreSeen(u.book, Target(c));
  }

  /**
    An accepted new order, or amendment to another price, is in its place, and
    without it its side is as it was.
   */
  lemma OrderRests(s: State, c: Command)
    requires WfState(s) && UniqueIds(s.book) && Aggressive(s, c).Some? && Apply(s, c).1.result == Accepted
    ensures InItsPlace(s, Aggressive(s, c).value, Apply(s, c).0)
  {
    hide Apply, UniqueIds, WfState, Settled, Filled, Reach, Aggressive, ViewOf, FillsReported, OrderLaw, InItsPlace;
    var order, u := Aggressive(s, c).value, Apply(s, c).0;
    AggressiveLaw(s, c);
    AggressiveTargets(s, c);
    AcceptedIsCarried(s, order, u, Apply(s, c).1);
    FillsReportedTotal(s, order, u, Apply(s, c).1);
    ApplyUnique(s, c);
    if Filled(Reach(s, order), order.quantity) == order.quantity {
      NothingRests(s, c);
    }
    SettledInPlace(s, order, u);
  }

  lemma AggressiveTargets(s: State, c: Command)
    requires Aggressive(s, c).Some?
    ensures !c.Lifecycle? && Target(c) == Aggressive(s, c).value.orderId && Asked(c) == Aggressive(s, c).value.quantity
  {
  }

  /**
    An amendment at the resting price is refused exactly when the order grows
    beyond what the other orders at its price leave of 64 bits; otherwise the
    order has its new leaves at its old price, behind all others there if it grew
    and in its old place if not.
   */
  lemma AmendedInPlaceRests(s: State, o: AmendOrder)
    requires WfState(s) && UniqueIds(s.book) && Apply(s, Amend(o)).1.commandSequence != 0
    requires ViewOf(s.book, o.orderId).Some? && ViewOf(s.book, o.orderId).value.price == o.newPrice
    ensures var (u, r) := Apply(s, Amend(o));
            var view := ViewOf(s.book, o.orderId).value;
            var own, others := SideOf(s.book, view.side), Others(SideOf(s.book, view.side), o.orderId);
            var room := 0xFFFF_FFFF_FFFF_FFFF - SumOf(Select(AtPrice(view.price), others));
            && (r.result == CapacityExhausted <==> view.leaves < o.newLeaves && room < o.newLeaves)
            && (r.result == CapacityExhausted ==> Dropped(s, u, r, CapacityExhausted))
            && (r.result != CapacityExhausted ==>
                  && r.result == Accepted
                  && ViewOf(u.book, o.orderId) == Some(view.(leaves := o.newLeaves))
                  && Others(SideOf(u.book, view.side), o.orderId) == others
                  && if view.leaves < o.newLeaves then
                       Select(AtPrice(view.price), SideOf(u.book, view.side)) ==
                       Select(AtPrice(view.price), others) + [view.(leaves := o.newLeaves)]
                     else
                       SideOf(u.book, view.side) == Releaved(own, o.orderId, o.newLeaves))
  {
    hide Apply, UniqueIds, WfState, SideOf, Queued, Select, Locate;
    var view := ViewOf(s.book, o.orderId).value;
    var (u, r) := Apply(s, Amend(o));
    AmendIsLawful(s, o);
    ViewInSide(s.book, o.orderId);
    ApplyUnique(s, Amend(o));
    if r.result != CapacityExhausted {
      var own, changed := SideOf(s.book, view.side), view.(leaves := o.newLeaves);
      if view.leaves < o.newLeaves {
        QueuedIsLast(view.side, Others(own, o.orderId), changed, SideOf(u.book, view.side));
        QueuedAgain(view.side, own, changed, SideOf(u.book, view.side));
      } else {
        OthersReleaved(own, o.orderId, o.newLeaves);
        ReleavedHas(own, view, o.newLeaves);
      }
      SideHasView(u.book, view.side, changed);
    }
  }

  lemma ReleavedHas(views: seq<RestingOrderView>, view: RestingOrderView, leaves: Quantity)
    requires view in views
    ensures view.(leaves := leaves) in Releaved(views, view.orderId, leaves)
  {
    var k: nat :| k < |views| && views[k] == view;
    assert Releaved(views, view.orderId, leaves)[k] == view.(leaves := leaves);
  }

  // Over runs.

  lemma RestingIsValid(s: State, id: OrderId)
    requires WfState(s) && Rests(s.book, id)
    ensures id >= 1 && s.phase != Closed
  {
    var at :| Holds(s.book, at, id);
    WellSided(s.book, at.side);
    assert WfLevel(Levels(s.book, at.side)[at.level]);
  }

  lemma ErasedRestsNot(book: Book, id: OrderId)
    requires UniqueIds(book)
    ensures !Rests(Erase(book, id), id)
  {
    ErasedIsGone(book, id);
    HasIsRests(Erase(book, id), id);
  }

  /**
    In every reachable state, halted or not, an order that rests can be
    cancelled while there are command sequences left, and then it no longer rests.
   */
  lemma RestingCanBeCancelled(limits: Limits, events: seq<Event>, id: OrderId)
    requires limits.statusCapacity >= MINIMUM_STATUS_OUTBOX_CAPACITY && limits.instrument >= 1
    ensures var s := Run(Opening(limits), events).state;
            Rests(s.book, id) && s.lastCommand < 0xFFFF_FFFF_FFFF_FFFF ==>
            var (u, r) := Apply(s, Cancel(CancelOrder(id, limits.instrument)));
            r.result == Accepted && !Rests(u.book, id)
  {
    hide Run, Rests, WfState, UniqueIds, Apply, SideOf, Opening;
    var s := Run(Opening(limits), events).state;
    AlwaysUnique(limits, events);
    assert s.limits == limits by { RunKeepsLimits(limits, events); }
    if Rests(s.book, id) && s.lastCommand < 0xFFFF_FFFF_FFFF_FFFF {
      var o := CancelOrder(id, limits.instrument);
      RestingIsValid(s, id);
      CancelIsAdmitted(s, o);
      CancelIsLawful(s, o);
      CancelLeavesNone(s, o);
    }
  }

  lemma RunKeepsLimits(limits: Limits, events: seq<Event>)
    requires limits.statusCapacity >= MINIMUM_STATUS_OUTBOX_CAPACITY
    ensures Run(Opening(limits), events).state.limits == limits
  {
    hide Run, WfState;
  }

  lemma CancelLeavesNone(s: State, o: CancelOrder)
    requires WfState(s) && UniqueIds(s.book) && Apply(s, Cancel(o)).1.result == Accepted
    ensures !Rests(Apply(s, Cancel(o)).0.book, o.orderId)
  {
    hide WfState, UniqueIds, Rests, Erase;
    ErasedRestsNot(s.book, o.orderId);
  }
}
