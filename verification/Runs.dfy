/**
  Guarantees over whole runs: any sequence of commands and of reads by the
  consumers of the two outboxes.
 */
module Runs {
  import opened Domain
  import opened Book
  import opened Reference
  import opened Matching
  import opened Planning

  datatype Event =
    | Submit(command: Command)
    | ConsumeReport
    | ConsumeStatus

  /** The engine's state and everything its consumers have taken so far. */
  datatype Journal = Journal(
    state: State,
    consumedReports: seq<ExecutionReport>,
    consumedStatuses: seq<SystemStatus>)

  function AllReports(j: Journal): seq<ExecutionReport> {
    j.consumedReports + j.state.reports
  }

  function AllStatuses(j: Journal): seq<SystemStatus> {
    j.consumedStatuses + j.state.statuses
  }

  function Next(j: Journal, e: Event): Journal
    requires WfState(j.state)
  {
    var s := j.state;
    match e
    case Submit(c) => j.(state := Apply(s, c).0)
    case ConsumeReport =>
      if s.reports == [] then j
      else Journal(s.(reports := s.reports[1..]), j.consumedReports + [s.reports[0]], j.consumedStatuses)
    case ConsumeStatus =>
      if s.statuses == [] then j
      else Journal(s.(statuses := s.statuses[1..]), j.consumedReports, j.consumedStatuses + [s.statuses[0]])
  }

  // One step keeps the state well formed.

  lemma SameShapeKeepsWf(s: State, after: Book)
    requires WfState(s) && WfBook(after) && s.phase != Closed
    requires SameShape(s.book.bids, after.bids) && SameShape(s.book.asks, after.asks)
    ensures WfState(s.(book := after))
  {
  }

  lemma CancelKeepsWf(s: State, o: CancelOrder)
    requires WfState(s)
    ensures WfState(ApplyCancel(s, o).0)
  {
    if ValidateCancel(s, o) == Accepted {
      EraseOneSide(s.book, o.orderId);
      var side := Locate(s.book, o.orderId).value.side;
      StaysUncrossed(s.book, Erase(s.book, o.orderId), side, 1, Order(1, 1));
    }
  }

  lemma AmendKeepsWf(s: State, o: AmendOrder)
    requires WfState(s)
    ensures WfState(ApplyAmend(s, o).0)
  {
    if ValidateAmend(s, o) == Accepted {
      var view := ViewOf(s.book, o.orderId).value;
      if o.newPrice != view.price {
        ExecuteKeepsWf(AcceptCommand(s), LogicalAmend(s, o), Some(o.orderId));
      } else if LeavesFit(s.book, o.orderId, o.newLeaves) {
        RequantifyEffect(s.book, o.orderId, o.newLeaves);
        SameShapeKeepsWf(AcceptCommand(s), Requantify(s.book, o.orderId, o.newLeaves));
      } else {
        if o.newLeaves <= view.leaves {
          ReductionFits(s.book, o.orderId, o.newLeaves);
        }
      }
    }
  }

  lemma LifecycleKeepsWf(s: State, c: LifecycleCommand)
    requires WfState(s)
    ensures WfState(ApplyLifecycle(s, c).0)
  {
    hide WfBook;
    assert WfBook(EMPTY) by { EmptyWf(); }
  }

  lemma EmptyWf()
    ensures WfBook(EMPTY)
  {
  }

  lemma ApplyKeepsWf(s: State, c: Command)
    requires WfState(s)
    ensures WfState(Apply(s, c).0)
  {
    hide ExecuteAggressive, ApplyCancel, ApplyAmend, ApplyLifecycle, WfBook;
    match c
    case New(o) =>
      if ValidateNew(s, o) == Accepted {
        ExecuteKeepsWf(AcceptCommand(s), LogicalNew(o), None);
      }
    case Cancel(o) => CancelKeepsWf(s, o);
    case Amend(o) => AmendKeepsWf(s, o);
    case Lifecycle(l) => LifecycleKeepsWf(s, l);
  }

  // What one step publishes.

  /** Neither outbox nor the event counters moved. */
  ghost predicate Quiet(s: State, u: State) {
    u.reports == s.reports && u.statuses == s.statuses && u.lastEngine == s.lastEngine && u.lastMatch == s.lastMatch
  }

  /** Reports were appended, numbered on from both counters. */
  ghost predicate Reported(s: State, u: State) {
    && s.reports <= u.reports && u.statuses == s.statuses
    && var n := |u.reports| - |s.reports|;
    && u.lastEngine == s.lastEngine + n && u.lastMatch == s.lastMatch + n
    && forall k :: |s.reports| <= k < |u.reports| ==>
         && u.reports[k].engineSequence == s.lastEngine + (k - |s.reports|) + 1
         && u.reports[k].matchId == s.lastMatch + (k - |s.reports|) + 1
  }

  /** One status was appended, with the next engine sequence. */
  ghost predicate Notified(s: State, u: State) {
    && u.reports == s.reports && u.lastMatch == s.lastMatch
    && u.lastEngine == s.lastEngine + 1
    && |u.statuses| == |s.statuses| + 1 && s.statuses <= u.statuses
    && u.statuses[|s.statuses|].engineSequence == u.lastEngine
  }

  lemma ExecutePublishes(s: State, order: LogicalOrder, replaced: Option<OrderId>)
    requires WfState(s) && s.phase.Active? && IsSide(order.side)
    ensures var u := ExecuteAggressive(s, order, replaced).0;
            Quiet(s, u) || Reported(s, u) || Notified(s, u)
  {
  }

  lemma DecideFits(s: State, order: LogicalOrder, replaced: Option<OrderId>)
    requires WfState(s) && IsSide(order.side) && Decide(s, order, replaced) == Accepted
    ensures SequencesFit(s, |TakenBy(s.book, order, replaced).planned|)
  {
  }

  lemma DecideFull(s: State, order: LogicalOrder, replaced: Option<OrderId>)
    requires WfState(s) && s.phase.Active? && IsSide(order.side) && Decide(s, order, replaced) == LosslessOutboxFull
    ensures |s.statuses| < s.limits.statusCapacity && s.lastEngine < U64_MAX
  {
  }

  lemma ApplyPublishes(s: State, c: Command)
    requires WfState(s)
    ensures var u := Apply(s, c).0;
            Quiet(s, u) || Reported(s, u) || Notified(s, u)
  {
    hide Reported, ExecuteAggressive, TakenBy;
    match c
    case New(o) =>
      if ValidateNew(s, o) == Accepted {
        ExecutePublishes(AcceptCommand(s), LogicalNew(o), None);
        ReportedSame(s, AcceptCommand(s), Apply(s, c).0);
      }
    case Cancel(o) =>
    case Amend(o) =>
      if ValidateAmend(s, o) == Accepted && o.newPrice != ViewOf(s.book, o.orderId).value.price {
        ExecutePublishes(AcceptCommand(s), LogicalAmend(s, o), Some(o.orderId));
        ReportedSame(s, AcceptCommand(s), Apply(s, c).0);
      }
    case Lifecycle(l) =>
  }

  lemma ReportedSame(s: State, t: State, u: State)
    requires Quiet(s, t)
    ensures Reported(t, u) ==> Reported(s, u)
  {
  }

  // Gap-free sequencing.

  ghost predicate ReportNumbered(reports: seq<ExecutionReport>, n: nat) {
    exists k :: 0 <= k < |reports| && reports[k].engineSequence == n
  }

  ghost predicate StatusNumbered(statuses: seq<SystemStatus>, n: nat) {
    exists k :: 0 <= k < |statuses| && statuses[k].engineSequence == n
  }

  /** The engine sequences 1..last are shared out between the two streams, each increasing. */
  ghost predicate Partition(reports: seq<ExecutionReport>, statuses: seq<SystemStatus>, last: nat) {
    && (forall a, b :: 0 <= a < b < |reports| ==> reports[a].engineSequence < reports[b].engineSequence)
    && (forall a, b :: 0 <= a < b < |statuses| ==> statuses[a].engineSequence < statuses[b].engineSequence)
    && (forall k :: 0 <= k < |reports| ==> 1 <= reports[k].engineSequence <= last)
    && (forall k :: 0 <= k < |statuses| ==> 1 <= statuses[k].engineSequence <= last)
    && (forall a, b :: 0 <= a < |reports| && 0 <= b < |statuses| ==>
          reports[a].engineSequence != statuses[b].engineSequence)
    && (forall n :: 1 <= n <= last ==> ReportNumbered(reports, n) || StatusNumbered(statuses, n))
  }

  /** The match IDs are exactly 1..last, in order. */
  ghost predicate MatchesNumbered(reports: seq<ExecutionReport>, last: nat) {
    |reports| == last && forall k :: 0 <= k < |reports| ==> reports[k].matchId == k + 1
  }

  lemma PartitionReport(reports: seq<ExecutionReport>, statuses: seq<SystemStatus>, last: nat, report: ExecutionReport)
    requires Partition(reports, statuses, last) && report.engineSequence == last + 1
    ensures Partition(reports + [report], statuses, last + 1)
  {
    var more := reports + [report];
    assert more[|reports|] == report;
    forall n | 1 <= n <= last + 1
      ensures ReportNumbered(more, n) || StatusNumbered(statuses, n)
    {
      if n <= last && ReportNumbered(reports, n) {
        var k :| 0 <= k < |reports| && reports[k].engineSequence == n;
        assert more[k].engineSequence == n;
      }
    }
  }

  lemma PartitionStatus(reports: seq<ExecutionReport>, statuses: seq<SystemStatus>, last: nat, status: SystemStatus)
    requires Partition(reports, statuses, last) && status.engineSequence == last + 1
    ensures Partition(reports, statuses + [status], last + 1)
  {
    var more := statuses + [status];
    assert more[|statuses|] == status;
    forall n | 1 <= n <= last + 1
      ensures ReportNumbered(reports, n) || StatusNumbered(more, n)
    {
      if n <= last && StatusNumbered(statuses, n) {
        var k :| 0 <= k < |statuses| && statuses[k].engineSequence == n;
        assert more[k].engineSequence == n;
      }
    }
  }

  lemma {:induction false} PartitionReports(reports: seq<ExecutionReport>, statuses: seq<SystemStatus>, last: nat,
                                            batch: seq<ExecutionReport>)
    requires Partition(reports, statuses, last)
    requires forall k :: 0 <= k < |batch| ==> batch[k].engineSequence == last + k + 1
    ensures Partition(reports + batch, statuses, last + |batch|)
    decreases |batch|
  {
    hide Partition;
    if batch == [] {
      assert reports + batch == reports;
    } else {
      PartitionReport(reports, statuses, last, batch[0]);
      PartitionReports(reports + [batch[0]], statuses, last + 1, batch[1..]);
      assert reports + [batch[0]] + batch[1..] == reports + batch;
    }
  }

  /** The invariant of every run. */
  ghost predicate JournalInv(j: Journal) {
    && WfState(j.state)
    && Partition(AllReports(j), AllStatuses(j), j.state.lastEngine)
    && MatchesNumbered(AllReports(j), j.state.lastMatch)
  }

  lemma ReportedKeepsJournal(j: Journal, u: State)
    requires JournalInv(j) && WfState(u) && Reported(j.state, u)
    ensures JournalInv(j.(state := u))
  {
    var batch := u.reports[|j.state.reports|..];
    assert u.reports == j.state.reports + batch;
    assert j.consumedReports + u.reports == AllReports(j) + batch;
    hide WfState, Partition;
    PartitionReports(AllReports(j), AllStatuses(j), j.state.lastEngine, batch);
  }

  lemma NotifiedKeepsJournal(j: Journal, u: State)
    requires JournalInv(j) && WfState(u) && Notified(j.state, u)
    ensures JournalInv(j.(state := u))
  {
    var status := u.statuses[|j.state.statuses|];
    assert u.statuses == j.state.statuses + [status];
    assert j.consumedStatuses + u.statuses == AllStatuses(j) + [status];
    hide WfState, Partition, MatchesNumbered;
    PartitionStatus(AllReports(j), AllStatuses(j), j.state.lastEngine, status);
  }

  lemma SubmitKeepsJournal(j: Journal, c: Command)
    requires JournalInv(j)
    ensures JournalInv(Next(j, Submit(c)))
  {
    hide Apply, WfState, Partition, MatchesNumbered, Reported, Notified;
    var s, u := j.state, Apply(j.state, c).0;
    ApplyKeepsWf(s, c);
    ApplyPublishes(s, c);
    if Reported(s, u) {
      ReportedKeepsJournal(j, u);
    } else if Notified(s, u) {
      NotifiedKeepsJournal(j, u);
    }
  }

  lemma ConsumeKeepsJournal(j: Journal, e: Event)
    requires JournalInv(j) && !e.Submit?
    ensures JournalInv(Next(j, e))
    ensures AllReports(Next(j, e)) == AllReports(j) && AllStatuses(Next(j, e)) == AllStatuses(j)
  {
    var s := j.state;
    if e.ConsumeReport? && s.reports != [] {
      assert j.consumedReports + s.reports == j.consumedReports + [s.reports[0]] + s.reports[1..];
    } else if e.ConsumeStatus? && s.statuses != [] {
      assert j.consumedStatuses + s.statuses == j.consumedStatuses + [s.statuses[0]] + s.statuses[1..];
    }
    hide Partition, MatchesNumbered;
  }

  lemma NextKeepsJournal(j: Journal, e: Event)
    requires JournalInv(j)
    ensures JournalInv(Next(j, e))
  {
    hide JournalInv;
    match e
    case Submit(c) => SubmitKeepsJournal(j, c);
    case ConsumeReport => ConsumeKeepsJournal(j, e);
    case ConsumeStatus => ConsumeKeepsJournal(j, e);
  }

  lemma NextKeepsLimits(j: Journal, e: Event)
    requires WfState(j.state)
    ensures Next(j, e).state.limits == j.state.limits
  {
  }

  function Run(j: Journal, events: seq<Event>): (r: Journal)
    requires WfState(j.state)
    ensures WfState(r.state) && r.state.limits == j.state.limits
    decreases |events|
  {
    hide WfState, Next;
    if events == [] then j
    else
      NextKeepsWf(j, events[0]);
      NextKeepsLimits(j, events[0]);
      Run(Next(j, events[0]), events[1..])
  }

  lemma NextKeepsWf(j: Journal, e: Event)
    requires WfState(j.state)
    ensures WfState(Next(j, e).state)
  {
    if e.Submit? {
      ApplyKeepsWf(j.state, e.command);
    }
    hide WfBook;
  }

  lemma {:induction false} RunKeepsJournal(j: Journal, events: seq<Event>)
    requires JournalInv(j)
    ensures JournalInv(Run(j, events))
    decreases |events|
  {
    hide WfState, Partition, MatchesNumbered, Next;
    if events == [] {
    } else {
      NextKeepsJournal(j, events[0]);
      RunKeepsJournal(Next(j, events[0]), events[1..]);
    }
  }

  /** What the submitter of each command is told, in order. */
  function Results(j: Journal, events: seq<Event>): seq<StepResult>
    requires WfState(j.state)
    decreases |events|
  {
    hide WfState, Next, Apply;
    if events == [] then []
    else
      NextKeepsWf(j, events[0]);
      ResultOf(j, events[0]) + Results(Next(j, events[0]), events[1..])
  }

  function ResultOf(j: Journal, e: Event): seq<StepResult>
    requires WfState(j.state)
  {
    match e
    case Submit(c) => [Apply(j.state, c).1]
    case _ => []
  }

  /** A fresh engine with nothing consumed. */
  function Opening(limits: Limits): (j: Journal)
    requires limits.statusCapacity >= MINIMUM_STATUS_OUTBOX_CAPACITY
    ensures JournalInv(j)
  {
    Journal(Start(limits), [], [])
  }

  // The guarantees.

  /**
    Everything ever committed, consumed or pending, is numbered without a gap
    across both outboxes, and the match IDs without a gap across the reports.
   */
  lemma GapFree(limits: Limits, events: seq<Event>)
    requires limits.statusCapacity >= MINIMUM_STATUS_OUTBOX_CAPACITY
    ensures var j := Run(Opening(limits), events);
            && Partition(AllReports(j), AllStatuses(j), j.state.lastEngine)
            && MatchesNumbered(AllReports(j), j.state.lastMatch)
  {
    hide WfState, Partition, MatchesNumbered;
    RunKeepsJournal(Opening(limits), events);
  }

  /** In every reachable state, active or halted, the best bid is below the best ask. */
  lemma NeverCrossed(limits: Limits, events: seq<Event>)
    requires limits.statusCapacity >= MINIMUM_STATUS_OUTBOX_CAPACITY
    ensures var book := Run(Opening(limits), events).state.book;
            && WfBook(book)
            && (book.bids != [] && book.asks != [] ==> book.bids[0].price < book.asks[0].price)
  {
  }

  /**
    Whenever the execution outbox cannot take a batch, the automatic halt
    commits: an active engine always has a free status slot, and there is an
    engine sequence left because the batch it could not place had one.
   */
  lemma HaltAlwaysCommits(limits: Limits, events: seq<Event>, c: Command)
    requires limits.statusCapacity >= MINIMUM_STATUS_OUTBOX_CAPACITY
    ensures var s := Run(Opening(limits), events).state;
            && (s.phase.Active? ==> |s.statuses| < limits.statusCapacity)
            && (Apply(s, c).1.result == LosslessOutboxFull ==>
                  HaltsClosed(s, Apply(s, c).0))
  {
    hide Apply, HaltsClosed;
    Atomicity(Run(Opening(limits), events).state, c);
  }

  /** Exactly the automatic halt happened: one command, one status, one sequence, and nothing else. */
  ghost predicate HaltsClosed(s: State, u: State) {
    && s.phase.Active? && |s.statuses| < s.limits.statusCapacity
    && s.lastEngine < U64_MAX && s.lastCommand < U64_MAX
    && u == s.(phase := Halted,
               lastCommand := s.lastCommand + 1,
               lastEngine := s.lastEngine + 1,
               statuses := s.statuses + [SystemStatus(s.limits.instrument, Active, Halted, StateTransition,
                                                      OutboxFull, s.lastEngine + 1)])
  }

  /** Only the command sequence moved. */
  ghost predicate OnlyCommandCounted(s: State, u: State) {
    s.lastCommand < U64_MAX && u == s.(lastCommand := s.lastCommand + 1)
  }

  /** A command is rejected without trace, counted and dropped, halted closed, or carried out. */
  ghost predicate Atomic(s: State, u: State, r: StepResult) {
    && s.reports <= u.reports && r.reports == u.reports[|s.reports|..]
    && (r.commandSequence == 0 ==> u == s && r.result != Accepted)
    && (r.commandSequence != 0 ==> s.lastCommand < U64_MAX && r.commandSequence == u.lastCommand == s.lastCommand + 1)
    && (r.commandSequence != 0 && (r.result == CapacityExhausted || r.result == StatusOutboxFull) ==>
          OnlyCommandCounted(s, u))
    && (r.result == LosslessOutboxFull ==> HaltsClosed(s, u))
  }

  lemma ExecuteAtomic(s: State, order: LogicalOrder, replaced: Option<OrderId>)
    requires WfState(s) && s.phase.Active? && IsSide(order.side) && s.lastCommand < U64_MAX
    ensures var (u, r) := ExecuteAggressive(AcceptCommand(s), order, replaced); Atomic(s, u, r)
  {
    hide WfState, FilledBook, TakenBy;
    var t := AcceptCommand(s);
    assert WfState(t) by { AcceptKeepsWf(s); }
    if Decide(t, order, replaced) == Accepted {
      DecideFits(t, order, replaced);
    } else if Decide(t, order, replaced) == LosslessOutboxFull {
      DecideFull(t, order, replaced);
    }
    hide Decide;
  }

  lemma AcceptKeepsWf(s: State)
    requires WfState(s) && s.lastCommand < U64_MAX
    ensures WfState(AcceptCommand(s))
  {
  }

  /** The outcomes a command can have once it was given a sequence. */
  const OUTCOMES: set<OrderBookResult> := {Accepted, CapacityExhausted, StatusOutboxFull, LosslessOutboxFull}

  lemma ExecuteDecides(s: State, order: LogicalOrder, replaced: Option<OrderId>)
    requires WfState(s) && UniqueIds(s.book) && s.phase.Active? && IsSide(order.side)
    requires replaced == Some(order.orderId) || (replaced == None && !Has(s.book, order.orderId))
    ensures ExecuteAggressive(s, order, replaced).1.result in OUTCOMES
  {
    IdIsFree(s.book, order, replaced);
    hide TakenBy, MatchedBook, FilledBook, WfState, Has, HasRoom;
  }

  /** In a book without double IDs, no accepted command ends in a rejection. */
  lemma Decisive(s: State, c: Command)
    requires WfState(s) && UniqueIds(s.book)
    ensures var r := Apply(s, c).1; r.commandSequence != 0 ==> r.result in OUTCOMES
  {
    hide ExecuteAggressive, WfBook, UniqueIds;
    match c
    case New(o) =>
      if ValidateNew(s, o) == Accepted {
        ExecuteDecides(AcceptCommand(s), LogicalNew(o), None);
      }
    case Cancel(o) =>
    case Amend(o) =>
      if ValidateAmend(s, o) == Accepted && o.newPrice != ViewOf(s.book, o.orderId).value.price {
        ExecuteDecides(AcceptCommand(s), LogicalAmend(s, o), Some(o.orderId));
      }
    case Lifecycle(l) =>
  }

  lemma ApplyAtomic(s: State, c: Command)
    requires WfState(s)
    ensures var (u, r) := Apply(s, c); Atomic(s, u, r)
  {
    hide ExecuteAggressive, WfBook;
    match c
    case New(o) =>
      if ValidateNew(s, o) == Accepted {
        ExecuteAtomic(s, LogicalNew(o), None);
      }
    case Cancel(o) =>
    case Amend(o) =>
      if ValidateAmend(s, o) == Accepted && o.newPrice != ViewOf(s.book, o.orderId).value.price {
        ExecuteAtomic(s, LogicalAmend(s, o), Some(o.orderId));
      }
    case Lifecycle(l) =>
  }

  lemma Atomicity(s: State, c: Command)
    requires WfState(s)
    ensures var (u, r) := Apply(s, c);
            && Atomic(s, u, r)
            && (UniqueIds(s.book) && r.commandSequence != 0 ==> r.result in OUTCOMES)
  {
    hide Apply, Atomic, WfState, UniqueIds;
    ApplyAtomic(s, c);
    if UniqueIds(s.book) {
      Decisive(s, c);
    }
  }
}
