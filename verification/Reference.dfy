/**
  The reference model: one step of the engine, deliberately simple. A command
  works on a copy of the book, and the copy either replaces the book or is
  thrown away.
 */
module Reference {
  import opened Domain
  import opened Book

  datatype Limits = Limits(
    instrument: InstrumentId,
    activeOrders: nat,
    levelsPerSide: nat,
    executionCapacity: nat,
    statusCapacity: nat)

  datatype State = State(
    limits: Limits,
    phase: InstrumentState,
    lastCommand: CommandSequence,
    lastEngine: EngineSequence,
    lastMatch: MatchId,
    book: Book,
    reports: seq<ExecutionReport>,
    statuses: seq<SystemStatus>)

  /** What holds between commands. */
  ghost predicate WfState(s: State) {
    && WfBook(s.book)
    && CountBook(s.book) <= s.limits.activeOrders
    && |s.book.bids| <= s.limits.levelsPerSide
    && |s.book.asks| <= s.limits.levelsPerSide
    && |s.reports| <= s.limits.executionCapacity
    && |s.statuses| <= s.limits.statusCapacity
    && s.limits.statusCapacity >= MINIMUM_STATUS_OUTBOX_CAPACITY
    && (s.phase.Active? ==> |s.statuses| < s.limits.statusCapacity)
    && (s.phase.Closed? ==> s.book == EMPTY)
    && Uncrossed(s.book)
  }

  function Start(limits: Limits): State {
    State(limits, Active, 0, 0, 0, EMPTY, [], [])
  }

  // Matching.

  predicate Crosses(side: Side, limit: PriceTicks, resting: PriceTicks) {
    if side.Buy? then limit >= resting else limit <= resting
  }

  datatype PlannedFill = PlannedFill(restingOrderId: OrderId, restingPrice: PriceTicks, quantity: Quantity)

  /** A logical aggressive order: a new order, or an amended one at its new price. */
  datatype LogicalOrder = LogicalOrder(
    orderId: OrderId,
    side: Side,
    limitPrice: PriceTicks,
    quantity: Quantity)

  function FrontFill(levels: seq<Level>, remainder: Quantity): PlannedFill
    requires levels != [] && levels[0].orders != []
  {
    var front := levels[0].orders[0];
    PlannedFill(front.id, levels[0].price, if remainder < front.leaves then remainder else front.leaves)
  }

  /** The levels after the front order gave up a quantity. */
  function AfterFill(levels: seq<Level>, quantity: Quantity): seq<Level>
    requires levels != [] && levels[0].orders != [] && quantity <= levels[0].orders[0].leaves
  {
    if quantity == levels[0].orders[0].leaves then EraseAt(levels, 0, 0)
    else SetLeavesAt(levels, 0, 0, levels[0].orders[0].leaves - quantity)
  }

  datatype Taken = Taken(levels: seq<Level>, remainder: Quantity, planned: seq<PlannedFill>, withinCapacity: bool)

  predicate Continues(side: Side, limit: PriceTicks, levels: seq<Level>, remainder: Quantity) {
    remainder != 0 && levels != [] && Crosses(side, limit, levels[0].price)
  }

  /** Takes from the front of the opposite side while prices cross. */
  function Take(side: Side, limit: PriceTicks, levels: seq<Level>, remainder: Quantity, planned: seq<PlannedFill>): Taken
    requires WfSide(Opposite(side), levels)
    decreases remainder
  {
    if !Continues(side, limit, levels, remainder) then
      Taken(levels, remainder, planned, true)
    else if |planned| >= MAXIMUM_FILLS_PER_COMMAND then
      Taken(levels, remainder, planned, false)
    else
      FrontIsWf(Opposite(side), levels);
      var fill := FrontFill(levels, remainder);
      AfterFillWf(Opposite(side), levels, fill.quantity);
      Take(side, limit, AfterFill(levels, fill.quantity), remainder - fill.quantity, planned + [fill])
  }

  lemma FrontIsWf(side: Side, levels: seq<Level>)
    requires WfSide(side, levels) && levels != []
    ensures levels[0].orders != [] && IsValid(levels[0].orders[0].leaves) && IsValid(levels[0].price)
  {
  }

  lemma AfterFillWf(side: Side, levels: seq<Level>, quantity: Quantity)
    requires WfSide(side, levels) && levels != [] && levels[0].orders != []
    requires quantity <= levels[0].orders[0].leaves
    ensures WfSide(side, AfterFill(levels, quantity))
  {
    assert WfLevel(levels[0]);
    if quantity == levels[0].orders[0].leaves {
      EraseAtWf(side, levels, 0, 0);
    } else {
      SetLeavesAtWf(side, levels, 0, 0, levels[0].orders[0].leaves - quantity);
    }
  }

  // One aggressive order.

  lemma EraseKeepsWf(book: Book, id: OrderId)
    ensures WfBook(book) ==> WfBook(Erase(book, id))
  {
    if WfBook(book) && Has(book, id) {
      var at := Locate(book, id).value;
      EraseAtWf(at.side, Levels(book, at.side), at.level, at.index);
    }
  }

  /** The book without the order that an amendment replaces. */
  function Candidate(book: Book, replaced: Option<OrderId>): (r: Book)
    ensures WfBook(book) ==> WfBook(r)
  {
    match replaced
    case Some(id) =>
      EraseKeepsWf(book, id);
      Erase(book, id)
    case None => book
  }

  function TakenBy(book: Book, order: LogicalOrder, replaced: Option<OrderId>): Taken
    requires WfBook(book) && IsSide(order.side)
  {
    Take(order.side, order.limitPrice, Levels(Candidate(book, replaced), Opposite(order.side)), order.quantity, [])
  }

  /** The candidate book after the matched levels took their place. */
  function MatchedBook(book: Book, order: LogicalOrder, replaced: Option<OrderId>): Book
    requires WfBook(book) && IsSide(order.side)
  {
    WithLevels(Candidate(book, replaced), Opposite(order.side), TakenBy(book, order, replaced).levels)
  }

  function InsertStatus(limits: Limits, book: Book, id: OrderId, side: Side, price: PriceTicks, leaves: Quantity): OrderBookResult {
    if Has(book, id) then DuplicateOrderId
    else if CountBook(book) >= limits.activeOrders then CapacityExhausted
    else if !HasRoom(side, Levels(book, side), price, leaves, limits.levelsPerSide) then CapacityExhausted
    else Accepted
  }

  function Reports(s: State, aggressor: OrderId, planned: seq<PlannedFill>): (r: seq<ExecutionReport>)
    requires |planned| <= U64_MAX - s.lastEngine && |planned| <= U64_MAX - s.lastMatch
    ensures |r| == |planned|
    ensures forall k :: 0 <= k < |r| ==>
              r[k] == ExecutionReport(s.lastMatch + k + 1, s.limits.instrument, aggressor, planned[k].restingOrderId,
                                      planned[k].restingPrice, planned[k].quantity, s.lastEngine + k + 1)
  {
    seq(|planned|, k requires 0 <= k < |planned| =>
      ExecutionReport(s.lastMatch + k + 1, s.limits.instrument, aggressor, planned[k].restingOrderId,
                      planned[k].restingPrice, planned[k].quantity, s.lastEngine + k + 1))
  }

  function AppendStatus(s: State, phase: InstrumentState, kind: StatusEventKind, reason: StatusReason): State
    requires s.lastEngine < U64_MAX
  {
    s.(phase := phase,
       lastEngine := s.lastEngine + 1,
       statuses := s.statuses + [SystemStatus(s.limits.instrument, s.phase, phase, kind, reason, s.lastEngine + 1)])
  }

  /** The automatic halt; the source aborts unless this precondition holds. */
  function FailClosed(s: State): State
    requires s.phase.Active? && |s.statuses| < s.limits.statusCapacity && s.lastEngine < U64_MAX
  {
    AppendStatus(s, Halted, StateTransition, OutboxFull)
  }

  predicate SequencesFit(s: State, fills: nat) {
    fills <= U64_MAX - s.lastEngine && fills <= U64_MAX - s.lastMatch
  }

  function Final(s: State, result: OrderBookResult): StepResult {
    StepResult(result, s.lastCommand, [])
  }

  /** How an accepted aggressive order ends. */
  function Decide(s: State, order: LogicalOrder, replaced: Option<OrderId>): OrderBookResult
    requires WfState(s) && IsSide(order.side)
  {
    var t := TakenBy(s.book, order, replaced);
    var inserted :=
      if t.remainder == 0 then Accepted
      else InsertStatus(s.limits, MatchedBook(s.book, order, replaced), order.orderId, order.side, order.limitPrice, t.remainder);
    if !t.withinCapacity then CapacityExhausted
    else if inserted != Accepted then inserted
    else if !SequencesFit(s, |t.planned|) then CapacityExhausted
    else if |t.planned| > s.limits.executionCapacity - |s.reports| then LosslessOutboxFull
    else Accepted
  }

  /** The book once the fills are applied and the remainder rests. */
  function FilledBook(book: Book, order: LogicalOrder, replaced: Option<OrderId>): Book
    requires WfBook(book) && IsSide(order.side)
  {
    var remainder := TakenBy(book, order, replaced).remainder;
    var matched := MatchedBook(book, order, replaced);
    if remainder == 0 then matched
    else Insert(matched, order.side, order.limitPrice, Order(order.orderId, remainder))
  }

  /** Publishes the fills and puts the new book in place. */
  function Publish(s: State, aggressor: OrderId, planned: seq<PlannedFill>, book: Book): State
    requires SequencesFit(s, |planned|)
  {
    s.(book := book,
       lastEngine := s.lastEngine + |planned|,
       lastMatch := s.lastMatch + |planned|,
       reports := s.reports + Reports(s, aggressor, planned))
  }

  /** An accepted aggressive order; the command sequence has been assigned. */
  function ExecuteAggressive(s: State, order: LogicalOrder, replaced: Option<OrderId>): (State, StepResult)
    requires WfState(s) && s.phase.Active? && IsSide(order.side)
  {
    var planned := TakenBy(s.book, order, replaced).planned;
    match Decide(s, order, replaced)
    case Accepted =>
      (Publish(s, order.orderId, planned, FilledBook(s.book, order, replaced)),
       StepResult(Accepted, s.lastCommand, Reports(s, order.orderId, planned)))
    case LosslessOutboxFull => (FailClosed(s), Final(s, LosslessOutboxFull))
    case other => (s, Final(s, other))
  }

  // Commands.

  predicate KnowsInstrument(s: State, instrument: InstrumentId) {
    IsValid(s.limits.instrument) && instrument == s.limits.instrument
  }

  function ValidateNew(s: State, o: NewOrder): OrderBookResult {
    if !KnowsInstrument(s, o.instrumentId) then InvalidInstrument
    else if s.phase.Halted? then MarketHalted
    else if !s.phase.Active? then InstrumentUnavailable
    else if !IsValid(o.orderId) || Has(s.book, o.orderId) then DuplicateOrderId
    else if !IsSide(o.side) then InvalidSide
    else if !IsValid(o.limitPrice) then InvalidPrice
    else if !IsValid(o.quantity) then InvalidQuantity
    else if s.lastCommand == U64_MAX then CapacityExhausted
    else Accepted
  }

  function ValidateCancel(s: State, o: CancelOrder): OrderBookResult {
    if !KnowsInstrument(s, o.instrumentId) then InvalidInstrument
    else if s.phase.Closed? then InstrumentUnavailable
    else if !IsValid(o.orderId) || !Has(s.book, o.orderId) then OrderNotFound
    else if s.lastCommand == U64_MAX then CapacityExhausted
    else Accepted
  }

  function ValidateAmend(s: State, o: AmendOrder): OrderBookResult {
    if !KnowsInstrument(s, o.instrumentId) then InvalidInstrument
    else if s.phase.Halted? then MarketHalted
    else if !s.phase.Active? then InstrumentUnavailable
    else if !IsValid(o.orderId) || !Has(s.book, o.orderId) then OrderNotFound
    else if !IsValid(o.newPrice) then InvalidPrice
    else if !IsValid(o.newLeaves) then InvalidAmendment
    else if s.lastCommand == U64_MAX then CapacityExhausted
    else Accepted
  }

  function AcceptCommand(s: State): State
    requires s.lastCommand < U64_MAX
  {
    s.(lastCommand := s.lastCommand + 1)
  }

  function LogicalNew(o: NewOrder): LogicalOrder {
    LogicalOrder(o.orderId, o.side, o.limitPrice, o.quantity)
  }

  function ApplyNew(s: State, o: NewOrder): (State, StepResult)
    requires WfState(s)
  {
    if ValidateNew(s, o) != Accepted then (s, Rejected(ValidateNew(s, o)))
    else ExecuteAggressive(AcceptCommand(s), LogicalNew(o), None)
  }

  function ApplyCancel(s: State, o: CancelOrder): (State, StepResult) {
    if ValidateCancel(s, o) != Accepted then (s, Rejected(ValidateCancel(s, o)))
    else
      var t := AcceptCommand(s);
      (t.(book := Erase(s.book, o.orderId)), Final(t, Accepted))
  }

  /** An increase gives up its place: the order is taken out and put back. */
  function Requantify(book: Book, id: OrderId, leaves: Quantity): Book
    requires Has(book, id)
  {
    var view := ViewOf(book, id).value;
    var changed := SetLeaves(book, id, leaves);
    if leaves > view.leaves then Insert(Erase(changed, id), view.side, view.price, Order(id, leaves))
    else changed
  }

  function LogicalAmend(s: State, o: AmendOrder): LogicalOrder
    requires Has(s.book, o.orderId)
  {
    LogicalOrder(o.orderId, ViewOf(s.book, o.orderId).value.side, o.newPrice, o.newLeaves)
  }

  function ApplyAmend(s: State, o: AmendOrder): (State, StepResult)
    requires WfState(s)
  {
    if ValidateAmend(s, o) != Accepted then (s, Rejected(ValidateAmend(s, o)))
    else
      var t := AcceptCommand(s);
      var view := ViewOf(s.book, o.orderId).value;
      if o.newPrice != view.price then
        ExecuteAggressive(t, LogicalAmend(s, o), Some(o.orderId))
      else if o.newLeaves > view.leaves && !LeavesFit(s.book, o.orderId, o.newLeaves) then
        (t, Final(t, CapacityExhausted))
      else
        (t.(book := Requantify(s.book, o.orderId, o.newLeaves)), Final(t, Accepted))
  }

  /** A transition of the lifecycle table. */
  datatype Transition = Transition(
    next: InstrumentState,
    kind: StatusEventKind,
    reason: StatusReason,
    reset: bool,
    preserveHeadroom: bool)

  function TransitionOf(phase: InstrumentState, kind: LifecycleKind): Option<Transition> {
    match kind
    case Halt => if phase.Active? then Some(Transition(Halted, StateTransition, TradingHalt, false, false)) else None
    case Resume => if phase.Halted? then Some(Transition(Active, StateTransition, TradingResume, false, true)) else None
    case Close =>
      if phase.Active? || phase.Halted? then Some(Transition(Closed, Reset, EndOfDay, true, false)) else None
    case Open => if phase.Closed? then Some(Transition(Active, StateTransition, SessionOpen, false, true)) else None
  }

  function ValidateLifecycle(s: State, c: LifecycleCommand): OrderBookResult {
    if !KnowsInstrument(s, c.instrumentId) then InvalidInstrument
    else if TransitionOf(s.phase, c.kind).None? then InvalidStateTransition
    else if s.lastCommand == U64_MAX then CapacityExhausted
    else Accepted
  }

  function CommitTransition(s: State, t: Transition): (State, OrderBookResult)
    requires |s.statuses| <= s.limits.statusCapacity
  {
    if s.limits.statusCapacity - |s.statuses| < (if t.preserveHeadroom then 2 else 1) then (s, StatusOutboxFull)
    else if s.lastEngine == U64_MAX then (s, CapacityExhausted)
    else
      var u := AppendStatus(s, t.next, t.kind, t.reason);
      (if t.reset then u.(book := EMPTY) else u, Accepted)
  }

  function ApplyLifecycle(s: State, c: LifecycleCommand): (State, StepResult)
    requires WfState(s)
  {
    if ValidateLifecycle(s, c) != Accepted then (s, Rejected(ValidateLifecycle(s, c)))
    else
      var (u, result) := CommitTransition(AcceptCommand(s), TransitionOf(s.phase, c.kind).value);
      (u, Final(u, result))
  }

  /** One step of the reference model. */
  function Apply(s: State, c: Command): (State, StepResult)
    requires WfState(s)
  {
    match c
    case New(o) => ApplyNew(s, o)
    case Cancel(o) => ApplyCancel(s, o)
    case Amend(o) => ApplyAmend(s, o)
    case Lifecycle(l) => ApplyLifecycle(s, l)
  }

  // What can be seen from outside.

  datatype ObservableState = ObservableState(
    phase: InstrumentState,
    lastCommand: CommandSequence,
    lastEngine: EngineSequence,
    lastMatch: MatchId,
    activeOrders: nat,
    bidLevels: nat,
    askLevels: nat,
    bestBid: Option<PriceTicks>,
    bestAsk: Option<PriceTicks>,
    bids: seq<DepthEntry>,
    asks: seq<DepthEntry>,
    bidOrders: seq<RestingOrderView>,
    askOrders: seq<RestingOrderView>)

  ghost predicate Summable(levels: seq<Level>) {
    forall i :: 0 <= i < |levels| ==> Sum(levels[i].orders) <= U64_MAX
  }

  ghost function DepthOf(levels: seq<Level>): (r: seq<DepthEntry>)
    requires Summable(levels)
    ensures IsDepth(r, levels)
  {
    seq(|levels|, i requires 0 <= i < |levels| =>
      DepthEntry(levels[i].price, Sum(levels[i].orders), |levels[i].orders|))
  }

  function BestOf(levels: seq<Level>): Option<PriceTicks> {
    if levels == [] then None else Some(levels[0].price)
  }

  ghost function Observe(s: State): ObservableState
    requires WfBook(s.book)
  {
    AllSummable(s.book);
    ObservableState(s.phase, s.lastCommand, s.lastEngine, s.lastMatch, CountBook(s.book),
                    |s.book.bids|, |s.book.asks|, BestOf(s.book.bids), BestOf(s.book.asks),
                    DepthOf(s.book.bids), DepthOf(s.book.asks),
                    Flat(Buy, s.book.bids), Flat(Sell, s.book.asks))
  }

  lemma AllSummable(book: Book)
    requires WfBook(book)
    ensures Summable(book.bids) && Summable(book.asks)
  {
  }
}
