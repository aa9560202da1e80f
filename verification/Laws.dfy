/**
  The laws of a step. What a command does to an engine's state, told by the
  views of the book's two sides and by literal bounds, without the book's levels
  and without the reference step: a step that obeys them is the only one that does.
 */
module Laws {
  import opened Domain
  import opened Book
  import opened Reference
  import opened Runs
  import opened Identity
  import opened Views
  import opened Fills

  /** The orders of a side in priority order. */
  function SideOf(book: Book, side: Side): seq<RestingOrderView> {
    Flat(side, Levels(book, side))
  }

  ghost predicate Rests(book: Book, id: OrderId) {
    exists at :: Holds(book, at, id)
  }

  /** The command names the engine's instrument, and that is a valid one. */
  predicate Ours(s: State, instrument: InstrumentId) {
    s.limits.instrument >= 1 && instrument == s.limits.instrument
  }

  /** Rejected without trace. */
  ghost predicate Refused(s: State, u: State, r: StepResult, reason: OrderBookResult) {
    u == s && r == StepResult(reason, 0, [])
  }

  /** Given a sequence, and then dropped. */
  ghost predicate Dropped(s: State, u: State, r: StepResult, reason: OrderBookResult) {
    && u == s.(lastCommand := u.lastCommand) && u.lastCommand == s.lastCommand + 1
    && r == StepResult(reason, u.lastCommand, [])
  }

  // Controls.

  /** The five transitions there are. */
  predicate Legal(phase: InstrumentState, kind: LifecycleKind) {
    match kind
    case Halt => phase == Active
    case Resume => phase == Halted
    case Close => phase == Active || phase == Halted
    case Open => phase == Closed
  }

  /** The one status a transition appends, with the next engine sequence. */
  ghost predicate Announced(s: State, u: State, phase: InstrumentState, kind: StatusEventKind, reason: StatusReason) {
    && u.phase == phase
    && u.lastEngine == s.lastEngine + 1
    && u.statuses == s.statuses + [SystemStatus(s.limits.instrument, s.phase, phase, kind, reason, u.lastEngine)]
  }

  /** A transition carried out: its status, its phase, an empty book for a close, and nothing else. */
  ghost predicate Moved(s: State, kind: LifecycleKind, u: State) {
    && u == s.(phase := u.phase, book := u.book, lastCommand := u.lastCommand,
               lastEngine := u.lastEngine, statuses := u.statuses)
    && u.lastCommand == s.lastCommand + 1
    && match kind
       case Halt => Announced(s, u, Halted, StateTransition, TradingHalt) && u.book == s.book
       case Resume => Announced(s, u, Active, StateTransition, TradingResume) && u.book == s.book
       case Close => Announced(s, u, Closed, Reset, EndOfDay) && u.book == Book([], [])
       case Open => Announced(s, u, Active, StateTransition, SessionOpen) && u.book == s.book
  }

  /** Coming back to trading leaves one more status slot free than it takes. */
  ghost predicate StatusRoom(s: State, kind: LifecycleKind) {
    |s.statuses| + (if kind == Resume || kind == Open then 2 else 1) <= s.limits.statusCapacity
  }

  ghost predicate ControlLaw(s: State, c: LifecycleCommand, u: State, r: StepResult) {
    var ours, legal := Ours(s, c.instrumentId), Legal(s.phase, c.kind);
    && (r.commandSequence != 0 <==> ours && legal && s.lastCommand < 0xFFFF_FFFF_FFFF_FFFF)
    && (Refused(s, u, r, InvalidInstrument) <==> !ours)
    && (Refused(s, u, r, InvalidStateTransition) <==> ours && !legal)
    && (Refused(s, u, r, CapacityExhausted) <==> ours && legal && s.lastCommand == 0xFFFF_FFFF_FFFF_FFFF)
    && (r.commandSequence != 0 ==>
          if !StatusRoom(s, c.kind) then Dropped(s, u, r, StatusOutboxFull)
          else if s.lastEngine == 0xFFFF_FFFF_FFFF_FFFF then Dropped(s, u, r, CapacityExhausted)
          else Moved(s, c.kind, u) && r == StepResult(Accepted, u.lastCommand, []))
  }

  // Which orders are given a sequence.

  ghost predicate NewAdmission(s: State, o: NewOrder, u: State, r: StepResult) {
    var ours, trading := Ours(s, o.instrumentId), Ours(s, o.instrumentId) && s.phase == Active;
    var unused := o.orderId >= 1 && !Rests(s.book, o.orderId);
    var sided := o.side == Buy || o.side == Sell;
    var priced, sized := o.limitPrice >= 1, o.quantity >= 1;
    && (r.commandSequence != 0 <==>
          trading && unused && sided && priced && sized && s.lastCommand < 0xFFFF_FFFF_FFFF_FFFF)
    && (Refused(s, u, r, InvalidInstrument) <==> !ours)
    && (Refused(s, u, r, MarketHalted) <==> ours && s.phase == Halted)
    && (Refused(s, u, r, InstrumentUnavailable) <==> ours && s.phase == Closed)
    && (Refused(s, u, r, DuplicateOrderId) <==> trading && !unused)
    && (Refused(s, u, r, InvalidSide) <==> trading && unused && !sided)
    && (Refused(s, u, r, InvalidPrice) <==> trading && unused && sided && !priced)
    && (Refused(s, u, r, InvalidQuantity) <==> trading && unused && sided && priced && !sized)
    && (Refused(s, u, r, CapacityExhausted) <==>
          trading && unused && sided && priced && sized && s.lastCommand == 0xFFFF_FFFF_FFFF_FFFF)
  }

  ghost predicate CancelAdmission(s: State, o: CancelOrder, u: State, r: StepResult) {
    var ours, running := Ours(s, o.instrumentId), Ours(s, o.instrumentId) && s.phase != Closed;
    var known := o.orderId >= 1 && Rests(s.book, o.orderId);
    && (r.commandSequence != 0 <==> running && known && s.lastCommand < 0xFFFF_FFFF_FFFF_FFFF)
    && (Refused(s, u, r, InvalidInstrument) <==> !ours)
    && (Refused(s, u, r, InstrumentUnavailable) <==> ours && s.phase == Closed)
    && (Refused(s, u, r, OrderNotFound) <==> running && !known)
    && (Refused(s, u, r, CapacityExhausted) <==> running && known && s.lastCommand == 0xFFFF_FFFF_FFFF_FFFF)
  }

  ghost predicate AmendAdmission(s: State, o: AmendOrder, u: State, r: StepResult) {
    var ours, trading := Ours(s, o.instrumentId), Ours(s, o.instrumentId) && s.phase == Active;
    var known := o.orderId >= 1 && Rests(s.book, o.orderId);
    var priced, sized := o.newPrice >= 1, o.newLeaves >= 1;
    && (r.commandSequence != 0 <==> trading && known && priced && sized && s.lastCommand < 0xFFFF_FFFF_FFFF_FFFF)
    && (Refused(s, u, r, InvalidInstrument) <==> !ours)
    && (Refused(s, u, r, MarketHalted) <==> ours && s.phase == Halted)
    && (Refused(s, u, r, InstrumentUnavailable) <==> ours && s.phase == Closed)
    && (Refused(s, u, r, OrderNotFound) <==> trading && !known)
    && (Refused(s, u, r, InvalidPrice) <==> trading && known && !priced)
    && (Refused(s, u, r, InvalidAmendment) <==> trading && known && priced && !sized)
    && (Refused(s, u, r, CapacityExhausted) <==>
          trading && known && priced && sized && s.lastCommand == 0xFFFF_FFFF_FFFF_FFFF)
  }

  // What an order does that goes against the other side.

  /** The other side's orders priced within the order's limit. */
  function Reach(s: State, order: LogicalOrder): seq<RestingOrderView> {
    Select(WithinLimit(order.side, order.limitPrice), SideOf(s.book, Opposite(order.side)))
  }

  /** What those orders give it. */
  function Filled(reach: seq<RestingOrderView>, quantity: Quantity): Quantity {
    if SumOf(reach) < quantity then SumOf(reach) else quantity
  }

  /** Room for what is left of the order beside the other orders of its side. */
  ghost predicate PlaceFor(s: State, order: LogicalOrder, rest: nat) {
    var own := Others(SideOf(s.book, order.side), order.orderId);
    && |own| + |SideOf(s.book, Opposite(order.side))| - |Reach(s, order)| < s.limits.activeOrders
    && if order.limitPrice in PricesOf(own) then
         SumOf(Select(AtPrice(order.limitPrice), own)) + rest <= 0xFFFF_FFFF_FFFF_FFFF
       else
         |PricesOf(own)| < s.limits.levelsPerSide
  }

  /** The order exceeds a bound: of fills, of the book, or of the counters. */
  ghost predicate Exceeds(s: State, order: LogicalOrder) {
    var reach := Reach(s, order);
    var n, filled := Needed(reach, order.quantity), Filled(reach, order.quantity);
    || Cut(reach, order.quantity)
    || (filled < order.quantity && !PlaceFor(s, order, order.quantity - filled))
    || s.lastEngine + n > 0xFFFF_FFFF_FFFF_FFFF
    || s.lastMatch + n > 0xFFFF_FFFF_FFFF_FFFF
  }

  /** Report k: the next order within the limit, at its price, for the smaller of what it has and what is left. */
  ghost predicate ReportOf(s: State, order: LogicalOrder, k: nat, report: ExecutionReport)
    requires k < |Reach(s, order)|
  {
    var reach := Reach(s, order);
    var left := order.quantity - SumOf(reach[..k]);
    && report.matchId == s.lastMatch + k + 1
    && report.engineSequence == s.lastEngine + k + 1
    && report.instrumentId == s.limits.instrument
    && report.aggressiveOrderId == order.orderId
    && report.restingOrderId == reach[k].orderId
    && report.matchPrice == reach[k].price
    && report.matchQuantity == if left < reach[k].leaves then left else reach[k].leaves
  }

  ghost predicate FillsReported(s: State, order: LogicalOrder, u: State, r: StepResult) {
    var n := Needed(Reach(s, order), order.quantity);
    && |r.reports| == n
    && (forall k :: 0 <= k < n ==> ReportOf(s, order, k, r.reports[k]))
    && u.reports == s.reports + r.reports
    && u.lastEngine == s.lastEngine + n
    && u.lastMatch == s.lastMatch + n
  }

  /** Where the order and all others rest afterwards. */
  ghost predicate Settled(s: State, order: LogicalOrder, u: State) {
    var reach, own := Reach(s, order), Others(SideOf(s.book, order.side), order.orderId);
    var filled, opposite := Filled(reach, order.quantity), Opposite(order.side);
    && LeftBehind(SideOf(s.book, opposite), filled, Needed(reach, order.quantity), SideOf(u.book, opposite))
    && if filled == order.quantity then SideOf(u.book, order.side) == own
       else Queued(order.side, own,
                   RestingOrderView(order.orderId, order.side, order.limitPrice, order.quantity - filled),
                   SideOf(u.book, order.side))
  }

  ghost predicate Carried(s: State, order: LogicalOrder, u: State, r: StepResult) {
    && r.result == Accepted && r.commandSequence == u.lastCommand == s.lastCommand + 1
    && u == s.(lastCommand := u.lastCommand, lastEngine := u.lastEngine, lastMatch := u.lastMatch,
               book := u.book, reports := u.reports)
    && FillsReported(s, order, u, r)
    && Settled(s, order, u)
  }

  ghost predicate OrderLaw(s: State, order: LogicalOrder, u: State, r: StepResult) {
    if Exceeds(s, order) then Dropped(s, u, r, CapacityExhausted)
    else if |s.reports| + Needed(Reach(s, order), order.quantity) > s.limits.executionCapacity then
      HaltsClosed(s, u) && r == StepResult(LosslessOutboxFull, u.lastCommand, [])
    else Carried(s, order, u, r)
  }

  // Orders that stay on their side.

  ghost predicate OnlyBook(s: State, u: State, r: StepResult) {
    && u == s.(lastCommand := u.lastCommand, book := u.book) && u.lastCommand == s.lastCommand + 1
    && r == StepResult(Accepted, u.lastCommand, [])
  }

  ghost predicate CancelLaw(s: State, id: OrderId, u: State, r: StepResult) {
    && OnlyBook(s, u, r)
    && SideOf(u.book, Buy) == Others(SideOf(s.book, Buy), id)
    && SideOf(u.book, Sell) == Others(SideOf(s.book, Sell), id)
  }

  /** The other orders at the price have no room for the larger one. */
  ghost predicate Overflows(book: Book, view: RestingOrderView, leaves: nat) {
    && leaves > view.leaves
    && SumOf(Select(AtPrice(view.price), Others(SideOf(book, view.side), view.orderId))) + leaves > 0xFFFF_FFFF_FFFF_FFFF
  }

  /** New leaves at the same price: larger ones go to the back, others stay in place. */
  ghost predicate InPlaceLaw(s: State, view: RestingOrderView, leaves: Quantity, u: State, r: StepResult) {
    if Overflows(s.book, view, leaves) then Dropped(s, u, r, CapacityExhausted)
    else
      var own, opposite := SideOf(s.book, view.side), Opposite(view.side);
      && OnlyBook(s, u, r)
      && SideOf(u.book, opposite) == SideOf(s.book, opposite)
      && if leaves > view.leaves then
           Queued(view.side, Others(own, view.orderId), view.(leaves := leaves), SideOf(u.book, view.side))
         else
           SideOf(u.book, view.side) == Releaved(own, view.orderId, leaves)
  }

  ghost predicate AmendLaw(s: State, o: AmendOrder, u: State, r: StepResult) {
    match ViewOf(s.book, o.orderId)
    case Some(view) =>
      if view.price == o.newPrice then InPlaceLaw(s, view, o.newLeaves, u, r)
      else OrderLaw(s, LogicalOrder(o.orderId, view.side, o.newPrice, o.newLeaves), u, r)
    case None => false
  }

  /** All of it. */
  ghost predicate Lawful(s: State, c: Command, u: State, r: StepResult) {
    match c
    case New(o) =>
      && NewAdmission(s, o, u, r)
      && (r.commandSequence != 0 ==> OrderLaw(s, LogicalOrder(o.orderId, o.side, o.limitPrice, o.quantity), u, r))
    case Cancel(o) => CancelAdmission(s, o, u, r) && (r.commandSequence != 0 ==> CancelLaw(s, o.orderId, u, r))
    case Amend(o) => AmendAdmission(s, o, u, r) && (r.commandSequence != 0 ==> AmendLaw(s, o, u, r))
    case Lifecycle(l) => ControlLaw(s, l, u, r)
  }

  // The laws leave nothing open.

  lemma SidesDetermine(a: Book, b: Book)
    requires WfBook(a) && WfBook(b)
    requires SideOf(a, Buy) == SideOf(b, Buy) && SideOf(a, Sell) == SideOf(b, Sell)
    ensures a == b
  {
    FlatDetermines(Buy, a.bids, b.bids);
    FlatDetermines(Sell, a.asks, b.asks);
  }

  lemma CarriedOnce(s: State, order: LogicalOrder, u: State, r: StepResult, u': State, r': StepResult)
    requires IsSide(order.side) && WfBook(u.book) && WfBook(u'.book)
    requires Carried(s, order, u, r) && Carried(s, order, u', r')
    ensures u == u' && r == r'
  {
    hide WfBook, Needed, Cut, Select, SideOf, Reach;
    FillsOnce(s, order, u, r, u', r');
    SettledOnce(s, order, u, u');
    SidesDetermine(u.book, u'.book);
  }

  lemma FillsOnce(s: State, order: LogicalOrder, u: State, r: StepResult, u': State, r': StepResult)
    requires FillsReported(s, order, u, r) && FillsReported(s, order, u', r')
    ensures r.reports == r'.reports
  {
    hide Needed, Reach;
    forall k | 0 <= k < |r.reports| ensures r.reports[k] == r'.reports[k] {
      assert ReportOf(s, order, k, r.reports[k]) && ReportOf(s, order, k, r'.reports[k]);
    }
  }

  lemma SettledOnce(s: State, order: LogicalOrder, u: State, u': State)
    requires IsSide(order.side) && Settled(s, order, u) && Settled(s, order, u')
    ensures SideOf(u.book, Buy) == SideOf(u'.book, Buy) && SideOf(u.book, Sell) == SideOf(u'.book, Sell)
  {
    hide Needed, Reach, SideOf, LeftBehind, Queued;
    var reach, own, opposite := Reach(s, order), Others(SideOf(s.book, order.side), order.orderId), Opposite(order.side);
    var filled := Filled(reach, order.quantity);
    LeftOnce(SideOf(s.book, opposite), filled, Needed(reach, order.quantity),
             SideOf(u.book, opposite), SideOf(u'.book, opposite));
    if filled != order.quantity {
      QueuedOnce(order.side, own, RestingOrderView(order.orderId, order.side, order.limitPrice, order.quantity - filled),
                 SideOf(u.book, order.side), SideOf(u'.book, order.side));
    }
  }

  lemma LeftOnce(views: seq<RestingOrderView>, quantity: nat, n: nat, a: seq<RestingOrderView>, b: seq<RestingOrderView>)
    requires LeftBehind(views, quantity, n, a) && LeftBehind(views, quantity, n, b)
    ensures a == b
  {
    if SumOf(views[..n]) > quantity {
      assert a == [a[0]] + a[1..] && b == [b[0]] + b[1..];
    }
  }

  lemma InPlaceOnce(s: State, view: RestingOrderView, leaves: Quantity, u: State, r: StepResult, u': State, r': StepResult)
    requires IsSide(view.side) && WfBook(u.book) && WfBook(u'.book)
    requires InPlaceLaw(s, view, leaves, u, r) && InPlaceLaw(s, view, leaves, u', r')
    ensures u == u' && r == r'
  {
    hide WfBook, Overflows, SideOf, Queued;
    if !Overflows(s.book, view, leaves) {
      if leaves > view.leaves {
        QueuedOnce(view.side, Others(SideOf(s.book, view.side), view.orderId), view.(leaves := leaves),
                   SideOf(u.book, view.side), SideOf(u'.book, view.side));
      }
      SidesDetermine(u.book, u'.book);
    }
  }

  lemma OrderOnce(s: State, order: LogicalOrder, u: State, r: StepResult, u': State, r': StepResult)
    requires IsSide(order.side) && WfBook(u.book) && WfBook(u'.book)
    requires OrderLaw(s, order, u, r) && OrderLaw(s, order, u', r')
    ensures u == u' && r == r'
  {
    hide WfBook, Exceeds, Needed, Reach, Carried;
    if !Exceeds(s, order) && |s.reports| + Needed(Reach(s, order), order.quantity) <= s.limits.executionCapacity {
      CarriedOnce(s, order, u, r, u', r');
    }
  }

  lemma ControlOnce(s: State, c: LifecycleCommand, u: State, r: StepResult, u': State, r': StepResult)
    requires ControlLaw(s, c, u, r) && ControlLaw(s, c, u', r')
    ensures u == u' && r == r'
  {
  }

  /** Whatever state and result obey the laws of a command, they are the only ones. */
  lemma LawsDetermine(s: State, c: Command, u: State, r: StepResult, u': State, r': StepResult)
    requires WfBook(u.book) && WfBook(u'.book)
    requires Lawful(s, c, u, r) && Lawful(s, c, u', r')
    ensures u == u' && r == r'
  {
    hide WfBook, Rests, OrderLaw, InPlaceLaw, SideOf, ControlLaw, Locate;
    match c
    case New(o) =>
      if r.commandSequence != 0 {
        OrderOnce(s, LogicalOrder(o.orderId, o.side, o.limitPrice, o.quantity), u, r, u', r');
      }
    case Cancel(o) =>
      if r.commandSequence != 0 {
        SidesDetermine(u.book, u'.book);
      }
    case Amend(o) =>
      if r.commandSequence != 0 {
        AmendOnce(s, o, u, r, u', r');
      }
    case Lifecycle(l) => ControlOnce(s, l, u, r, u', r');
  }

  lemma AmendOnce(s: State, o: AmendOrder, u: State, r: StepResult, u': State, r': StepResult)
    requires WfBook(u.book) && WfBook(u'.book)
    requires AmendLaw(s, o, u, r) && AmendLaw(s, o, u', r')
    ensures u == u' && r == r'
  {
    hide WfBook, OrderLaw, InPlaceLaw;
    var view := ViewOf(s.book, o.orderId).value;
    if view.price == o.newPrice {
      InPlaceOnce(s, view, o.newLeaves, u, r, u', r');
    } else {
      OrderOnce(s, LogicalOrder(o.orderId, view.side, o.newPrice, o.newLeaves), u, r, u', r');
    }
  }
}
