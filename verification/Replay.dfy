/**
  Whole runs: an engine and the reference model, given the same commands and
  the same reads of the outboxes, cannot be told apart.
 */
module Replay {
  import opened Domain
  import opened Ring
  import opened ActiveIndex
  import opened Reference
  import opened Runs
  import opened Storage
  import opened Engine

  /** Lets one event happen to the engine, and notes what its consumers took. */
  method Advance(engine: MatchingEngine, e: Event, ghost j: Journal)
    returns (results: seq<StepResult>, reports: seq<ExecutionReport>, statuses: seq<SystemStatus>)
    requires engine.Valid() && j.state == engine.View() && WfState(j.state)
    modifies engine.Footprint
    ensures engine.Valid()
    ensures Runs.Next(j, e) == Journal(engine.View(), j.consumedReports + reports, j.consumedStatuses + statuses)
    ensures results == ResultOf(j, e)
  {
    hide MatchingEngine.Valid, Apply, WfState;
    results, reports, statuses := [], [], [];
    match e
    case Submit(c) =>
      var result := engine.Process(c);
      results := [result];
    case ConsumeReport =>
      var report := engine.TryConsumeExecutionReport();
      if report.Some? {
        reports := [report.value];
      }
    case ConsumeStatus =>
      var status := engine.TryConsumeStatus();
      if status.Some? {
        statuses := [status.value];
      }
  }

  /** One event of a run, and the rest of it. */
  lemma RunUnfolds(j: Journal, events: seq<Event>)
    requires WfState(j.state) && events != []
    ensures WfState(Runs.Next(j, events[0]).state)
    ensures Run(j, events) == Run(Runs.Next(j, events[0]), events[1..])
    ensures Results(j, events) == ResultOf(j, events[0]) + Results(Runs.Next(j, events[0]), events[1..])
  {
    hide WfState, Runs.Next, ResultOf;
    NextKeepsWf(j, events[0]);
  }

  lemma RunEnds(j: Journal)
    requires WfState(j.state)
    ensures Run(j, []) == j && Results(j, []) == []
  {
  }

  /**
    Refinement over whole runs, from any reachable state. Whatever is
    submitted and consumed, the results, the state, and everything that came
    out of the outboxes are the reference model's.
   */
  method Replay(engine: MatchingEngine, events: seq<Event>, ghost j: Journal)
    returns (results: seq<StepResult>, reports: seq<ExecutionReport>, statuses: seq<SystemStatus>)
    requires engine.Valid() && j.state == engine.View() && WfState(j.state)
    modifies engine.Footprint
    ensures engine.Valid()
    ensures Run(j, events) == Journal(engine.View(), j.consumedReports + reports, j.consumedStatuses + statuses)
    ensures results == Results(j, events)
  {
    hide MatchingEngine.Valid, WfState, Runs.Next, ResultOf, Run, Results;
    results, reports, statuses := [], [], [];
    ghost var now := j;
    var index := 0;
    assert events[0..] == events;
    while index < |events|
      invariant 0 <= index <= |events|
      invariant engine.Valid() && WfState(now.state)
      invariant now == Journal(engine.View(), j.consumedReports + reports, j.consumedStatuses + statuses)
      invariant Run(j, events) == Run(now, events[index..])
      invariant Results(j, events) == results + Results(now, events[index..])
    {
      RunUnfolds(now, events[index..]);
      assert events[index..][1..] == events[index + 1..];
      var told, taken, heard := Advance(engine, events[index], now);
      now := Runs.Next(now, events[index]);
      results, reports, statuses := results + told, reports + taken, statuses + heard;
      index := index + 1;
    }
    assert events[index..] == [];
    RunEnds(now);
  }

  /** A run of a new engine, whatever the hash of its index. */
  method ReplayFromStart(instrumentId: InstrumentId, activeOrders: nat, priceLevelsPerSide: nat,
                         executionReports: nat, statusEvents: nat, hash: Hash, events: seq<Event>)
    returns (engine: MatchingEngine, results: seq<StepResult>,
             reports: seq<ExecutionReport>, statuses: seq<SystemStatus>)
    requires IsPowerOfTwo(executionReports) && IsPowerOfTwo(statusEvents)
    requires statusEvents >= MINIMUM_STATUS_OUTBOX_CAPACITY
    ensures engine.Valid() && fresh(engine.Footprint)
    ensures var opening := Opening(Limits(instrumentId, Min(activeOrders, 131072), Min(priceLevelsPerSide, 4096),
                                          executionReports, statusEvents));
            && Run(opening, events) == Journal(engine.View(), reports, statuses)
            && Results(opening, events) == results
  {
    hide MatchingEngine.Valid, JournalInv, Run, Results;
    engine := new MatchingEngine(instrumentId, activeOrders, priceLevelsPerSide, executionReports, statusEvents, hash);
    results, reports, statuses := Replay(engine, events, Opening(engine.View().limits));
  }
}
