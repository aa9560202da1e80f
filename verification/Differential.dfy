/**
  The differential harness: one trace, run by the engine and by the reference
  model side by side. No trace can make them differ.
 */
module Differential {
  import opened Domain
  import opened Ring
  import opened ActiveIndex
  import opened Book
  import opened Reference
  import opened Storage
  import opened Engine
  import opened ReferenceModel
  import opened PropertyCheck
  import opened Outbox

  lemma FoundAt(side: Side, levels: seq<Level>, i: nat)
    requires Sorted(side, levels) && i < |levels|
    ensures HasLevel(side, levels, levels[i].price) && LowerBound(side, levels, levels[i].price) == i
    ensures Flat(side, levels[i..]) ==
            FlatOrders(side, levels[i].price, levels[i].orders) + Flat(side, levels[i + 1..])
  {
    PriceFound(side, levels, i);
    assert levels[i..][1..] == levels[i + 1..];
  }

  /** A side's orders, level by level. */
  method OrdersOf(engine: MatchingEngine, side: Side, depth: seq<DepthEntry>) returns (orders: seq<RestingOrderView>)
    requires engine.storage.Valid() && IsSide(side) && |depth| == |Levels(engine.storage.book, side)|
    requires Sorted(side, Levels(engine.storage.book, side))
    requires forall i :: 0 <= i < |depth| ==> depth[i].price == Levels(engine.storage.book, side)[i].price
    ensures orders == Flat(side, Levels(engine.storage.book, side))
  {
    hide OrderBookStorage.Valid, Sorted, LowerBound, Flat, HasLevel;
    ghost var levels := Levels(engine.storage.book, side);
    orders := [];
    var index := 0;
    assert levels[0..] == levels;
    while index < |depth|
      invariant 0 <= index <= |depth|
      invariant orders + Flat(side, levels[index..]) == Flat(side, levels)
    {
      FoundAt(side, levels, index);
      var here := engine.storage.OrdersAtLevel(side, depth[index].price);
      assert orders + (here + Flat(side, levels[index + 1..])) == orders + here + Flat(side, levels[index + 1..]);
      orders := orders + here;
      index := index + 1;
    }
    FlatEnd(side, levels);
  }

  method EngineState(engine: MatchingEngine) returns (r: ObservableState)
    requires engine.Valid()
    ensures WfBook(engine.storage.book) && r == Observe(engine.View())
  {
    hide OrderBookStorage.Valid, Young;
    var storage := engine.storage;
    storage.WellFormed();
    AllSummable(storage.book);
    storage.LevelsCounted(Buy);
    storage.LevelsCounted(Sell);
    var count := storage.ActiveOrderCount();
    var bestBid := storage.BestPrice(Buy);
    var bestAsk := storage.BestPrice(Sell);
    var bids := storage.Depth(Buy);
    var asks := storage.Depth(Sell);
    var bidOrders := OrdersOf(engine, Buy, bids);
    var askOrders := OrdersOf(engine, Sell, asks);
    r := ObservableState(engine.instrumentState, engine.sequences.lastCommand, engine.sequences.lastEngine,
                         engine.lastMatchId, count,
                         storage.PriceLevelCount(Buy), storage.PriceLevelCount(Sell), bestBid, bestAsk,
                         bids, asks, bidOrders, askOrders);
  }

  method DrainReports(engine: MatchingEngine) returns (reports: seq<ExecutionReport>)
    requires engine.Valid()
    modifies engine.executionOutbox
    ensures engine.Valid()
    ensures reports == old(engine.View()).reports && engine.View() == old(engine.View()).(reports := [])
  {
    hide MatchingEngine.Valid;
    reports := [];
    ghost var s := engine.View();
    while true
      invariant engine.Valid() && reports + engine.View().reports == s.reports
      invariant engine.View() == s.(reports := engine.View().reports)
      decreases |engine.View().reports|
    {
      var report := engine.TryConsumeExecutionReport();
      if report.None? {
        return;
      }
      reports := reports + [report.value];
    }
  }

  method DrainStatuses(engine: MatchingEngine) returns (statuses: seq<SystemStatus>)
    requires engine.Valid()
    modifies engine.statusOutbox
    ensures engine.Valid()
    ensures statuses == old(engine.View()).statuses && engine.View() == old(engine.View()).(statuses := [])
  {
    hide MatchingEngine.Valid;
    statuses := [];
    ghost var s := engine.View();
    while true
      invariant engine.Valid() && statuses + engine.View().statuses == s.statuses
      invariant engine.View() == s.(statuses := engine.View().statuses)
      decreases |engine.View().statuses|
    {
      var status := engine.TryConsumeStatus();
      if status.None? {
        return;
      }
      statuses := statuses + [status.value];
    }
  }

  class DifferentialHarness {
    const model: ReferenceModel
    const engine: MatchingEngine

    ghost const Footprint: set<object> := {model} + engine.Footprint

    ghost predicate Valid()
      reads Footprint
    {
      model !in engine.Footprint && engine.Valid() && model.Valid() && engine.View() == model.View()
    }

    constructor (instrumentId: InstrumentId, activeOrders: nat, priceLevelsPerSide: nat,
                 executionReports: nat, statusEvents: nat, hash: Hash)
      requires IsPowerOfTwo(executionReports) && IsPowerOfTwo(statusEvents)
      requires statusEvents >= MINIMUM_STATUS_OUTBOX_CAPACITY
      ensures Valid() && fresh(Footprint)
    {
      hide MatchingEngine.Valid, ReferenceModel.Valid;
      var built := new MatchingEngine(instrumentId, activeOrders, priceLevelsPerSide,
                                      executionReports, statusEvents, hash);
      var simple := new ReferenceModel(
        Limits(instrumentId, Min(activeOrders, MAXIMUM_ACTIVE_ORDERS),
               Min(priceLevelsPerSide, MAXIMUM_PRICE_LEVELS_PER_SIDE), executionReports, statusEvents));
      engine, model := built, simple;
    }

    /**
      Runs one command on both and compares everything that can be observed:
      results, states, both debug checks, how full the outboxes are, what is
      in them, and conservation and priority as seen from outside.
     */
    method Step(c: Command) returns (same: bool)
      requires Valid()
      modifies Footprint
      ensures Valid() && same
    {
      hide MatchingEngine.Valid, ReferenceModel.Valid, LosslessOutbox.Valid, Apply, Observe, Verified, WfState, WfBook, UniqueIds;
      model.Facts();
      AlwaysVerified(model.View(), c);
      var before := model.ObservableStateNow();
      var expected := model.Step(c);
      var actual := engine.Process(c);
      var expectedState := model.ObservableStateNow();
      var actualState := EngineState(engine);
      var engineFine := engine.ValidateInvariants();
      var modelFine := model.ValidateInvariants();
      engine.Outboxes();
      same := actual == expected && engineFine && modelFine && actualState == expectedState
              && engine.executionOutbox.Size() == |model.executionOutbox|
              && engine.statusOutbox.Size() == |model.statusOutbox|;
      var drainedSame := CompareOutboxes();
      var violation := VerifyConservationAndPriority(before, c, expected, expectedState);
      same := same && drainedSame && violation.None?;
    }

    /** Drains the outboxes of both and compares what came out. */
    method CompareOutboxes() returns (same: bool)
      requires Valid()
      modifies Footprint
      ensures Valid() && same
    {
      hide MatchingEngine.Valid, ReferenceModel.Valid;
      var actualReports := DrainReports(engine);
      var expectedReports := model.DrainExecutionReports();
      var actualStatuses := DrainStatuses(engine);
      var expectedStatuses := model.DrainStatuses();
      same := actualReports == expectedReports && actualStatuses == expectedStatuses;
    }

    method ReplayTrace(commands: seq<Command>) returns (same: bool)
      requires Valid()
      modifies Footprint
      ensures Valid() && same
    {
      hide Valid;
      same := true;
      var index := 0;
      while index < |commands| && same
        invariant 0 <= index <= |commands| && Valid() && same
      {
        same := Step(commands[index]);
        index := index + 1;
      }
    }
  }
}
