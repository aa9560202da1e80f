/**
  Fixed-width domain values, commands, results and lossless events.

  Every domain value is a natural number bounded by the width of its C++
  representation; zero is the reserved, invalid value of each domain.
 */
module Domain {

  const U32_MAX: nat := 0xFFFF_FFFF
  const U64_MAX: nat := 0xFFFF_FFFF_FFFF_FFFF
  const I64_MAX: nat := 0x7FFF_FFFF_FFFF_FFFF

  type OrderId = x: nat | x <= U64_MAX
  type InstrumentId = x: nat | x <= U32_MAX
  type PriceTicks = x: nat | x <= I64_MAX
  type Quantity = x: nat | x <= U64_MAX
  type MatchId = x: nat | x <= U64_MAX
  type CommandSequence = x: nat | x <= U64_MAX
  type EngineSequence = x: nat | x <= U64_MAX

  predicate IsValid(value: nat) {
    value >= 1
  }

  datatype Option<+T> = None | Some(value: T)

  datatype Side = Invalid | Buy | Sell

  predicate IsSide(side: Side) {
    side.Buy? || side.Sell?
  }

  datatype InstrumentState = Active | Halted | Closed

  datatype OrderBookResult =
    | Accepted
    | OrderNotFound
    | DuplicateOrderId
    | InvalidInstrument
    | MarketHalted
    | InstrumentUnavailable
    | InvalidSide
    | InvalidPrice
    | InvalidQuantity
    | InvalidAmendment
    | CapacityExhausted
    | LosslessOutboxFull
    | InvalidStateTransition
    | StatusOutboxFull

  datatype StatusEventKind = StateTransition | Reset

  datatype StatusReason =
    | TradingHalt
    | TradingResume
    | EndOfDay
    | OutboxFull
    | SessionOpen

  datatype NewOrder = NewOrder(
    orderId: OrderId,
    instrumentId: InstrumentId,
    side: Side,
    limitPrice: PriceTicks,
    quantity: Quantity)

  datatype CancelOrder = CancelOrder(orderId: OrderId, instrumentId: InstrumentId)

  datatype AmendOrder = AmendOrder(
    orderId: OrderId,
    instrumentId: InstrumentId,
    newPrice: PriceTicks,
    newLeaves: Quantity)

  /** The four lifecycle controls; each carries only its instrument. */
  datatype LifecycleKind = Halt | Resume | Close | Open

  datatype LifecycleCommand = LifecycleCommand(kind: LifecycleKind, instrumentId: InstrumentId)

  datatype Command =
    | New(newOrder: NewOrder)
    | Cancel(cancelOrder: CancelOrder)
    | Amend(amendOrder: AmendOrder)
    | Lifecycle(lifecycle: LifecycleCommand)

  datatype ExecutionReport = ExecutionReport(
    matchId: MatchId,
    instrumentId: InstrumentId,
    aggressiveOrderId: OrderId,
    restingOrderId: OrderId,
    matchPrice: PriceTicks,
    matchQuantity: Quantity,
    engineSequence: EngineSequence)

  /** The status scope is always the instrument in the local engine. */
  datatype SystemStatus = SystemStatus(
    instrumentId: InstrumentId,
    previousState: InstrumentState,
    resultingState: InstrumentState,
    kind: StatusEventKind,
    reason: StatusReason,
    engineSequence: EngineSequence)

  /** What a caller of the engine receives; lifecycle results carry no reports. */
  datatype StepResult = StepResult(
    result: OrderBookResult,
    commandSequence: CommandSequence,
    reports: seq<ExecutionReport>)

  function Rejected(result: OrderBookResult): StepResult {
    StepResult(result, 0, [])
  }

  datatype CheckedQuantity =
    | Success(value: Quantity)
    | Zero
    | Overflow
    | Underflow
    | InvalidOperand

  function CheckedAdd(left: Quantity, right: Quantity): (r: CheckedQuantity)
    ensures r.Success? <==> left >= 1 && right >= 1 && left + right <= U64_MAX
    ensures r.Success? ==> r.value == left + right
    ensures r.InvalidOperand? <==> left == 0 || right == 0
    ensures r.Overflow? <==> left >= 1 && right >= 1 && left + right > U64_MAX
  {
    if !IsValid(left) || !IsValid(right) then InvalidOperand
    else if right > U64_MAX - left then Overflow
    else Success(left + right)
  }

  function CheckedSubtract(left: Quantity, right: Quantity): (r: CheckedQuantity)
    ensures r.Success? <==> left >= 1 && right >= 1 && right < left
    ensures r.Success? ==> r.value == left - right
    ensures r.Zero? <==> left >= 1 && left == right
    ensures r.InvalidOperand? <==> left == 0 || right == 0
    ensures r.Underflow? <==> 1 <= left < right
  {
    if !IsValid(left) || !IsValid(right) then InvalidOperand
    else if right > left then Underflow
    else if right == left then Zero
    else Success(left - right)
  }

  const MAXIMUM_ACTIVE_ORDERS: nat := 131072
  const MAXIMUM_PRICE_LEVELS_PER_SIDE: nat := 4096
  const MAXIMUM_FILLS_PER_COMMAND: nat := 256
  const MINIMUM_STATUS_OUTBOX_CAPACITY: nat := 2
}
