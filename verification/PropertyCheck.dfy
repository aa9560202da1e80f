/**
  The check of conservation and priority that the differential harness makes
  from the outside: it sees the observable state before and after a command,
  and the command's result.
 */
module PropertyCheck {
  import opened Domain
  import opened Book
  import opened Reference
  import opened Matching
  import opened Planning
  import opened Runs
  import opened Identity
  import opened Conservation

  datatype Violation =
    | TargetMissing
    | InvalidReport
    | PriorityViolated
    | AggressorUnbalanced
    | ReductionExceedsLeaves
    | RestingOrderUnbalanced

  function FindView(views: seq<RestingOrderView>, id: OrderId): Option<RestingOrderView> {
    if views == [] then None
    else if views[0].orderId == id then Some(views[0])
    else FindView(views[1..], id)
  }

  /** The order as it can be seen: among the bids, else among the asks. */
  function FindSeen(o: ObservableState, id: OrderId): Option<RestingOrderView> {
    match FindView(o.bidOrders, id)
    case Some(view) => Some(view)
    case None => FindView(o.askOrders, id)
  }

  /** The views an order of that side and limit crosses. */
  function Crossing(side: Side, limit: PriceTicks, views: seq<RestingOrderView>): seq<RestingOrderView> {
    if views == [] then []
    else (if Crosses(side, limit, views[0].price) then [views[0]] else []) + Crossing(side, limit, views[1..])
  }

  function LimitOf(c: Command): PriceTicks
    requires c.New? || c.Amend?
  {
    if c.New? then c.newOrder.limitPrice else c.amendOrder.newPrice
  }

  function AggressiveSide(before: ObservableState, c: Command): Option<Side>
    requires c.New? || c.Amend?
  {
    if c.New? then Some(c.newOrder.side)
    else
      match FindSeen(before, c.amendOrder.orderId)
      case Some(view) => Some(view.side)
      case None => None
  }

  function Expected(before: ObservableState, side: Side, limit: PriceTicks): seq<RestingOrderView> {
    Crossing(side, limit, if side.Buy? then before.askOrders else before.bidOrders)
  }

  // What the check accepts.

  predicate ReportFits(report: ExecutionReport, expected: RestingOrderView, target: OrderId, remaining: nat) {
    && IsValid(report.matchQuantity)
    && report.aggressiveOrderId == target
    && report.restingOrderId == expected.orderId
    && report.matchPrice == expected.price
    && report.matchQuantity == if remaining < expected.leaves then remaining else expected.leaves
  }

  /** What of the quantity is left when k reports are accounted for. */
  function Left(quantity: nat, reports: seq<ExecutionReport>, k: nat): int
    requires k <= |reports|
  {
    quantity - FillTotal(FillsOf(reports)[..k])
  }

  /** Report k is the next of the expected fills. */
  predicate FitsAt(reports: seq<ExecutionReport>, expected: seq<RestingOrderView>, target: OrderId, quantity: nat, k: nat)
    requires k < |reports|
  {
    && k < |expected| && Left(quantity, reports, k) >= 0
    && ReportFits(reports[k], expected[k], target, Left(quantity, reports, k))
  }

  ghost predicate ReportsFit(reports: seq<ExecutionReport>, expected: seq<RestingOrderView>, target: OrderId, quantity: nat) {
    forall k :: 0 <= k < |reports| ==> FitsAt(reports, expected, target, quantity, k)
  }

  predicate RestingFits(before: ObservableState, after: ObservableState, report: ExecutionReport) {
    var old', new' := FindSeen(before, report.restingOrderId), FindSeen(after, report.restingOrderId);
    && old'.Some? && report.matchQuantity <= old'.value.leaves
    && if report.matchQuantity == old'.value.leaves then new'.None?
       else new'.Some? && new'.value.leaves == old'.value.leaves - report.matchQuantity
  }

  ghost predicate Verified(before: ObservableState, c: Command, r: StepResult, after: ObservableState) {
    r.result == Accepted && (c.New? || c.Amend?) ==>
      && AggressiveSide(before, c).Some?
      && ReportsFit(r.reports, Expected(before, AggressiveSide(before, c).value, LimitOf(c)), Target(c), Asked(c))
      && Left(Asked(c), r.reports, |r.reports|) ==
         (match FindSeen(after, Target(c)) case Some(view) => view.leaves case None => 0)
      && forall k :: 0 <= k < |r.reports| ==> RestingFits(before, after, r.reports[k])
  }

  lemma LeftAtFirst(quantity: nat, reports: seq<ExecutionReport>)
    ensures Left(quantity, reports, 0) == quantity
  {
  }

  lemma CrossingStep(side: Side, limit: PriceTicks, views: seq<RestingOrderView>, k: nat)
    requires k < |views|
    ensures Crossing(side, limit, views[k..]) ==
            (if Crosses(side, limit, views[k].price) then [views[k]] else []) + Crossing(side, limit, views[k + 1..])
  {
    assert views[k..][1..] == views[k + 1..];
  }

  lemma NoneCross(side: Side, limit: PriceTicks, views: seq<RestingOrderView>)
    ensures Crossing(side, limit, views[|views|..]) == []
  {
  }

  lemma LeftStep(quantity: nat, reports: seq<ExecutionReport>, k: nat)
    requires k < |reports|
    ensures Left(quantity, reports, k + 1) == Left(quantity, reports, k) - reports[k].matchQuantity
  {
    var fills := FillsOf(reports);
    assert fills[..k + 1][..k] == fills[..k];
  }

  // The check.

  method FindOrder(o: ObservableState, id: OrderId) returns (r: Option<RestingOrderView>)
    ensures r == FindSeen(o, id)
  {
    r := FindIf(o.bidOrders, id);
    if r.None? {
      r := FindIf(o.askOrders, id);
    }
  }

  method FindIf(views: seq<RestingOrderView>, id: OrderId) returns (r: Option<RestingOrderView>)
    ensures r == FindView(views, id)
  {
    var index := 0;
    assert views[0..] == views;
    while index < |views|
      invariant 0 <= index <= |views|
      invariant FindView(views, id) == FindView(views[index..], id)
    {
      if views[index].orderId == id {
        return Some(views[index]);
      }
      assert views[index..][1..] == views[index + 1..];
      index := index + 1;
    }
    r := None;
  }

  /** Keeps the views that cross. */
  method RemoveUncrossed(side: Side, limit: PriceTicks, views: seq<RestingOrderView>) returns (kept: seq<RestingOrderView>)
    ensures kept == Crossing(side, limit, views)
  {
    hide Crossing;
    kept := [];
    var index := 0;
    assert views[0..] == views;
    while index < |views|
      invariant 0 <= index <= |views|
      invariant kept + Crossing(side, limit, views[index..]) == Crossing(side, limit, views)
    {
      CrossingStep(side, limit, views, index);
      if Crosses(side, limit, views[index].price) {
        kept := kept + [views[index]];
      }
      index := index + 1;
    }
    NoneCross(side, limit, views);
  }

  method VerifyReports(reports: seq<ExecutionReport>, expected: seq<RestingOrderView>, target: OrderId, quantity: nat)
    returns (violation: Option<Violation>, filled: nat)
    ensures violation.None? <==> ReportsFit(reports, expected, target, quantity)
    ensures violation.None? ==> filled == quantity - Left(quantity, reports, |reports|)
  {
    hide Left;
    filled := 0;
    LeftAtFirst(quantity, reports);
    var remaining := quantity;
    var index := 0;
    while index < |reports|
      invariant 0 <= index <= |reports| && index <= |expected|
      invariant remaining == Left(quantity, reports, index) && filled == quantity - remaining
      invariant forall k :: 0 <= k < index ==> FitsAt(reports, expected, target, quantity, k)
    {
      var report := reports[index];
      if !IsValid(report.matchQuantity) || report.aggressiveOrderId != target || index >= |expected| {
        assert !FitsAt(reports, expected, target, quantity, index);
        return Some(InvalidReport), filled;
      }
      var expectedFill := if remaining < expected[index].leaves then remaining else expected[index].leaves;
      if report.restingOrderId != expected[index].orderId || report.matchPrice != expected[index].price ||
         report.matchQuantity != expectedFill {
        assert !FitsAt(reports, expected, target, quantity, index);
        return Some(PriorityViolated), filled;
      }
      LeftStep(quantity, reports, index);
      remaining := remaining - expectedFill;
      filled := filled + expectedFill;
      index := index + 1;
    }
    violation := None;
  }

  method VerifyConservationAndPriority(before: ObservableState, c: Command, r: StepResult, after: ObservableState)
    returns (violation: Option<Violation>)
    ensures violation.None? <==> Verified(before, c, r, after)
  {
    hide ReportsFit, RestingFits, Expected, FindSeen;
    if r.result != Accepted || (!c.New? && !c.Amend?) {
      return None;
    }
    var side := if c.New? then c.newOrder.side else Invalid;
    if c.Amend? {
      var target := FindOrder(before, c.amendOrder.orderId);
      if target.None? {
        return Some(TargetMissing);
      }
      side := target.value.side;
    }
    var expected := ExpectedResting(before, side, LimitOf(c));
    var filled;
    violation, filled := VerifyReports(r.reports, expected, Target(c), Asked(c));
    if violation.Some? {
      return;
    }
    var remainder := FindOrder(after, Target(c));
    var restingRemainder := if remainder.None? then 0 else remainder.value.leaves;
    if filled > Asked(c) || Asked(c) - filled != restingRemainder {
      return Some(AggressorUnbalanced);
    }
    violation := VerifyResting(before, after, r.reports);
  }

  method ExpectedResting(before: ObservableState, side: Side, limit: PriceTicks) returns (kept: seq<RestingOrderView>)
    ensures kept == Expected(before, side, limit)
  {
    kept := RemoveUncrossed(side, limit, if side.Buy? then before.askOrders else before.bidOrders);
  }

  method VerifyResting(before: ObservableState, after: ObservableState, reports: seq<ExecutionReport>)
    returns (violation: Option<Violation>)
    ensures violation.None? <==> forall k :: 0 <= k < |reports| ==> RestingFits(before, after, reports[k])
  {
    hide FindSeen;
    var index := 0;
    while index < |reports|
      invariant 0 <= index <= |reports|
      invariant forall k :: 0 <= k < index ==> RestingFits(before, after, reports[k])
    {
      var report := reports[index];
      var oldResting := FindOrder(before, report.restingOrderId);
      var newResting := FindOrder(after, report.restingOrderId);
      if oldResting.None? || report.matchQuantity > oldResting.value.leaves {
        return Some(ReductionExceedsLeaves);
      }
      var expectedLeaves := oldResting.value.leaves - report.matchQuantity;
      if (expectedLeaves == 0 && newResting.Some?) ||
         (expectedLeaves != 0 && (newResting.None? || newResting.value.leaves != expectedLeaves)) {
        return Some(RestingOrderUnbalanced);
      }
      index := index + 1;
    }
    violation := None;
  }

  // It never reports a violation.

  lemma {:induction false} FindViewConcat(a: seq<RestingOrderView>, b: seq<RestingOrderView>, id: OrderId)
    ensures FindView(a + b, id) == if FindView(a, id).Some? then FindView(a, id) else FindView(b, id)
  {
    if a == [] {
      assert a + b == b;
    } else {
      FindViewConcat(a[1..], b, id);
      assert (a + b)[1..] == a[1..] + b;
    }
  }

  lemma FindViewIn(side: Side, price: PriceTicks, orders: seq<Order>, id: OrderId)
    ensures FindView(FlatOrders(side, price, orders), id) ==
            match FindIn(orders, id)
            case Some(j) => Some(FlatOrders(side, price, orders)[j])
            case None => None
  {
    if orders == [] {
    } else {
      FindViewIn(side, price, orders[1..], id);
      assert FlatOrders(side, price, orders)[1..] == FlatOrders(side, price, orders[1..]);
    }
  }

  /** Searching the flattened side finds what searching the levels finds. */
  lemma FindViewFlat(side: Side, levels: seq<Level>, id: OrderId)
    ensures FindView(Flat(side, levels), id) ==
            match FindInLevels(levels, id)
            case Some(p) => Some(RestingOrderView(levels[p.0].orders[p.1].id, side, levels[p.0].price,
                                                  levels[p.0].orders[p.1].leaves))
            case None => None
  {
    if levels == [] {
    } else {
      FindViewIn(side, levels[0].price, levels[0].orders, id);
      FindViewConcat(FlatOrders(side, levels[0].price, levels[0].orders), Flat(side, levels[1..]), id);
      FindViewFlat(side, levels[1..], id);
    }
  }

  lemma SeenIsView(s: State, id: OrderId)
    requires WfBook(s.book)
    ensures FindSeen(Observe(s), id) == ViewOf(s.book, id)
  {
    FindViewFlat(Buy, s.book.bids, id);
    FindViewFlat(Sell, s.book.asks, id);
    hide Flat, FindView, FindInLevels;
  }

  /** Views that cross one after another from the front stay where they are. */
  lemma CrossingPrefix(side: Side, limit: PriceTicks, views: seq<RestingOrderView>, n: nat)
    requires n <= |views| && forall k :: 0 <= k < n ==> Crosses(side, limit, views[k].price)
    ensures n <= |Crossing(side, limit, views)|
    ensures forall k :: 0 <= k < n ==> Crossing(side, limit, views)[k] == views[k]
  {
    if n == 0 {
    } else {
      CrossingPrefix(side, limit, views[1..], n - 1);
      forall k | 0 <= k < n ensures Crossing(side, limit, views)[k] == views[k] {
        if k > 0 {
          assert views[1..][k - 1] == views[k];
        }
      }
    }
  }

  lemma {:induction false} TotalSplits(fills: seq<PlannedFill>, k: nat)
    requires k < |fills|
    ensures FillTotal(fills[..k]) + fills[k].quantity <= FillTotal(fills)
    ensures k == |fills| - 1 ==> FillTotal(fills[..k]) + fills[k].quantity == FillTotal(fills)
    decreases |fills|
  {
    var n := |fills| - 1;
    if k == n {
    } else {
      TotalSplits(fills[..n], k);
      assert fills[..n][..k] == fills[..k] && fills[..n][k] == fills[k];
    }
  }

  lemma {:induction false} FilledForCovers(fills: seq<PlannedFill>, k: nat)
    requires k < |fills|
    ensures FilledFor(fills, fills[k].restingOrderId) >= fills[k].quantity
    decreases |fills|
  {
    var n := |fills| - 1;
    if k == n {
    } else {
      FilledForCovers(fills[..n], k);
      assert fills[..n][k] == fills[k];
    }
  }

  lemma {:induction false} FilledForNone(fills: seq<PlannedFill>, id: OrderId)
    requires forall k :: 0 <= k < |fills| ==> fills[k].restingOrderId != id
    ensures FilledFor(fills, id) == 0
    decreases |fills|
  {
    if fills == [] {
    } else {
      FilledForNone(fills[..|fills| - 1], id);
    }
  }

  /** With one fill per resting order, that fill is all there is against it. */
  lemma {:induction false} FilledForOne(fills: seq<PlannedFill>, k: nat)
    requires k < |fills|
    requires forall a, b :: 0 <= a < b < |fills| ==> fills[a].restingOrderId != fills[b].restingOrderId
    ensures FilledFor(fills, fills[k].restingOrderId) == fills[k].quantity
    decreases |fills|
  {
    var n := |fills| - 1;
    if k == n {
      FilledForNone(fills[..n], fills[k].restingOrderId);
    } else {
      FilledForOne(fills[..n], k);
      assert fills[..n][k] == fills[k];
    }
  }

  /** Each fill in priority is the smaller of what is left and what rests. */
  lemma NextFill(side: Side, limit: PriceTicks, views: seq<RestingOrderView>, fills: seq<PlannedFill>, quantity: nat, k: nat)
    requires PriorityPrefix(side, limit, views, fills) && k < |fills|
    requires FillTotal(fills) <= quantity && (FillTotal(fills) < quantity ==> AllFull(views, fills))
    ensures var left := quantity - FillTotal(fills[..k]);
            left >= 0 && fills[k].quantity == if left < views[k].leaves then left else views[k].leaves
  {
    TotalSplits(fills, k);
  }

  lemma PriorityFits(before: State, side: Side, limit: PriceTicks, reports: seq<ExecutionReport>, target: OrderId, quantity: nat)
    requires WfBook(before.book) && IsSide(side)
    requires var views, fills := Flat(Opposite(side), Levels(before.book, Opposite(side))), FillsOf(reports);
             && PriorityPrefix(side, limit, views, fills)
             && FillTotal(fills) <= quantity && (FillTotal(fills) < quantity ==> AllFull(views, fills))
    requires forall k :: 0 <= k < |reports| ==> reports[k].aggressiveOrderId == target
    ensures ReportsFit(reports, Expected(Observe(before), side, limit), target, quantity)
  {
    var views, fills := Flat(Opposite(side), Levels(before.book, Opposite(side))), FillsOf(reports);
    var expected := Expected(Observe(before), side, limit);
    assert expected == Crossing(side, limit, views);
    CrossingPrefix(side, limit, views, |fills|);
    hide Crossing, Flat, Expected, Observe;
    forall k | 0 <= k < |reports| ensures FitsAt(reports, expected, target, quantity, k) {
      NextFill(side, limit, views, fills, quantity, k);
    }
  }

  /** What was reported against a resting order is what it lost. */
  lemma SettledFits(s: State, u: State, side: Side, limit: PriceTicks, reports: seq<ExecutionReport>,
                    target: OrderId, quantity: nat, k: nat)
    requires WfBook(s.book) && WfBook(u.book) && UniqueIds(s.book) && IsSide(side) && k < |reports|
    requires Settles(s.book, u.book, FillsOf(reports), target, quantity)
    requires PriorityPrefix(side, limit, Flat(Opposite(side), Levels(s.book, Opposite(side))), FillsOf(reports))
    ensures RestingFits(Observe(s), Observe(u), reports[k])
  {
    var fills, id := FillsOf(reports), reports[k].restingOrderId;
    forall a, b | 0 <= a < b < |fills| ensures fills[a].restingOrderId != fills[b].restingOrderId {
      ViewsDiffer(s.book, Opposite(side), a, b);
    }
    FilledForOne(fills, k);
    assert fills[k].quantity >= 1 && id != target;
    SeenIsView(s, id);
    SeenIsView(u, id);
    LeavesAreSeen(s.book, id);
    LeavesAreSeen(u.book, id);
    hide Flat, UniqueIds, WfBook, PriorityPrefix, Observe, FindSeen;
  }

  /** An order that rests has leaves, and an order that does not has none. */
  lemma LeavesAreSeen(book: Book, id: OrderId)
    requires WfBook(book)
    ensures LeavesOf(book, id) == (match ViewOf(book, id) case Some(view) => view.leaves case None => 0)
    ensures ViewOf(book, id).Some? ==> ViewOf(book, id).value.leaves >= 1
  {
    if Has(book, id) {
      var at := Locate(book, id).value;
      assert WfLevel(Levels(book, at.side)[at.level]);
    }
  }

  lemma ExecuteNames(s: State, order: LogicalOrder, replaced: Option<OrderId>)
    requires WfState(s) && s.phase.Active? && IsSide(order.side)
    ensures var r := ExecuteAggressive(s, order, replaced).1;
            forall k :: 0 <= k < |r.reports| ==> r.reports[k].aggressiveOrderId == order.orderId
  {
    if Decide(s, order, replaced) == Accepted {
      DecideFits(s, order, replaced);
    }
    hide Decide, TakenBy, FilledBook, WfState;
  }

  /** Reports name the order the command is about, and only an aggressive order has any. */
  lemma ReportsName(s: State, c: Command)
    requires WfState(s) && !c.Lifecycle?
    ensures var r := Apply(s, c).1;
            && (forall k :: 0 <= k < |r.reports| ==> r.reports[k].aggressiveOrderId == Target(c))
            && (Aggressive(s, c).None? ==> r.reports == [])
  {
    hide ExecuteAggressive, Requantify, LeavesFit, WfBook;
    match c
    case New(o) =>
      if ValidateNew(s, o) == Accepted {
        ExecuteNames(AcceptCommand(s), LogicalNew(o), None);
      }
    case Cancel(o) =>
    case Amend(o) =>
      if ValidateAmend(s, o) == Accepted && o.newPrice != ViewOf(s.book, o.orderId).value.price {
        ExecuteNames(AcceptCommand(s), LogicalAmend(s, o), Some(o.orderId));
      }
  }

  /** An accepted command's side and aggressive order, as they can be seen. */
  lemma AcceptedSide(s: State, c: Command)
    requires WfState(s) && (c.New? || c.Amend?) && Apply(s, c).1.result == Accepted
    ensures AggressiveSide(Observe(s), c).Some? && IsSide(AggressiveSide(Observe(s), c).value)
    ensures Aggressive(s, c).Some? ==>
              Aggressive(s, c).value == LogicalOrder(Target(c), AggressiveSide(Observe(s), c).value, LimitOf(c), Asked(c))
  {
    hide ExecuteAggressive, Requantify, LeavesFit, WfBook, Observe, FindSeen;
    if c.Amend? {
      SeenIsView(s, c.amendOrder.orderId);
      assert Has(s.book, c.amendOrder.orderId);
    }
  }

  lemma AggressorFits(s: State, u: State, reports: seq<ExecutionReport>, target: OrderId, quantity: nat)
    requires WfBook(u.book) && Settles(s.book, u.book, FillsOf(reports), target, quantity)
    ensures Left(quantity, reports, |reports|) ==
            (match FindSeen(Observe(u), target) case Some(view) => view.leaves case None => 0)
  {
    var fills := FillsOf(reports);
    assert fills[..|reports|] == fills;
    SeenIsView(u, target);
    LeavesAreSeen(u.book, target);
    hide Observe, FindSeen, WfBook, Locate;
  }

  /** Whatever the command and the state, the check finds nothing. */
  lemma AlwaysVerified(s: State, c: Command)
    requires WfState(s) && UniqueIds(s.book)
    ensures var (u, r) := Apply(s, c); WfBook(u.book) && Verified(Observe(s), c, r, Observe(u))
  {
    hide Apply, Observe, UniqueIds, Settles, InPriority, ReportsFit, RestingFits, Left, Aggressive, AggressiveSide,
      Expected, PriorityPrefix, AllFull, FillTotal, Flat, WfBook, FindSeen;
    var (u, r) := Apply(s, c);
    ApplyKeepsWf(s, c);
    if r.result == Accepted && (c.New? || c.Amend?) {
      AcceptedSide(s, c);
      Conservation.Conservation(s, c);
      ReportsName(s, c);
      AggressorFits(s, u, r.reports, Target(c), Asked(c));
      var side := AggressiveSide(Observe(s), c).value;
      if Aggressive(s, c).Some? {
        Priority(s, c);
        PriorityGives(s, u, Aggressive(s, c).value, r.reports);
        PriorityFits(s, side, LimitOf(c), r.reports, Target(c), Asked(c));
        forall k | 0 <= k < |r.reports| ensures RestingFits(Observe(s), Observe(u), r.reports[k]) {
          SettledFits(s, u, side, LimitOf(c), r.reports, Target(c), Asked(c), k);
        }
      } else {
        NothingFits(Expected(Observe(s), side, LimitOf(c)), Target(c), Asked(c));
      }
    }
  }

  lemma PriorityGives(s: State, u: State, order: LogicalOrder, reports: seq<ExecutionReport>)
    requires InPriority(s.book, u.book, order, FillsOf(reports))
    requires Settles(s.book, u.book, FillsOf(reports), order.orderId, order.quantity)
    ensures var views, fills := Flat(Opposite(order.side), Levels(s.book, Opposite(order.side))), FillsOf(reports);
            && PriorityPrefix(order.side, order.limitPrice, views, fills)
            && FillTotal(fills) <= order.quantity && (FillTotal(fills) < order.quantity ==> AllFull(views, fills))
  {
  }

  lemma NothingFits(expected: seq<RestingOrderView>, target: OrderId, quantity: nat)
    ensures ReportsFit([], expected, target, quantity)
  {
  }
}
