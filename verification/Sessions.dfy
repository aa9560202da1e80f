/**
  The trading sessions of an engine over whole runs: its statuses, consumed or
  pending, are the whole history of its phase, and only an active engine trades.
 */
module Sessions {
  import opened Domain
  import opened Book
  import opened Reference
  import opened Runs
  import opened Identity
  import opened Views
  import opened Fills
  import opened Laws
  import opened Lawfulness

  /** A transition there is, told with its kind and its reason. */
  predicate Possible(status: SystemStatus) {
    match (status.previousState, status.resultingState)
    case (Active, Halted) => status.kind == StateTransition && (status.reason == TradingHalt || status.reason == OutboxFull)
    case (Halted, Active) => status.kind == StateTransition && status.reason == TradingResume
    case (Active, Closed) => status.kind == Reset && status.reason == EndOfDay
    case (Halted, Closed) => status.kind == Reset && status.reason == EndOfDay
    case (Closed, Active) => status.kind == StateTransition && status.reason == SessionOpen
    case _ => false
  }

  /** Status k starts from where the one before it ended; the first, from an active engine. */
  predicate Follows(statuses: seq<SystemStatus>, k: nat)
    requires k < |statuses|
  {
    Possible(statuses[k]) && statuses[k].previousState == if k == 0 then Active else statuses[k - 1].resultingState
  }

  /** From an active start to the phase, without a gap. */
  ghost predicate History(statuses: seq<SystemStatus>, phase: InstrumentState) {
    && (forall k :: 0 <= k < |statuses| ==> Follows(statuses, k))
    && phase == if statuses == [] then Active else statuses[|statuses| - 1].resultingState
  }

  /** The phase moves with exactly one status, and statuses come with a move of the phase only. */
  ghost predicate PhaseStep(s: State, u: State) {
    || (u.phase == s.phase && u.statuses == s.statuses)
    || (|u.statuses| == |s.statuses| + 1 && s.statuses <= u.statuses
        && var status := u.statuses[|s.statuses|];
        Possible(status) && status.previousState == s.phase && status.resultingState == u.phase)
  }

  lemma OrderSteps(s: State, order: LogicalOrder, u: State, r: StepResult)
    requires OrderLaw(s, order, u, r)
    ensures PhaseStep(s, u)
    ensures r.reports != [] ==> u.phase == s.phase
  {
    hide Exceeds, Needed, Reach, FillsReported, Settled;
  }

  lemma ControlSteps(s: State, c: LifecycleCommand, u: State, r: StepResult)
    requires ControlLaw(s, c, u, r)
    ensures PhaseStep(s, u) && r.reports == []
  {
  }

  lemma LawfulSteps(s: State, c: Command, u: State, r: StepResult)
    requires Lawful(s, c, u, r)
    ensures PhaseStep(s, u)
    ensures r.reports != [] ==> (c.New? || c.Amend?) && s.phase == Active && u.phase == Active
  {
    hide OrderLaw, ControlLaw, PhaseStep, Overflows, Rests, SideOf, Locate;
    SameSteps(s, u);
    match c
    case New(o) =>
      if r.commandSequence != 0 {
        OrderSteps(s, LogicalOrder(o.orderId, o.side, o.limitPrice, o.quantity), u, r);
      }
    case Cancel(o) =>
    case Amend(o) =>
      if r.commandSequence != 0 {
        var view := ViewOf(s.book, o.orderId).value;
        if view.price != o.newPrice {
          OrderSteps(s, LogicalOrder(o.orderId, view.side, o.newPrice, o.newLeaves), u, r);
        }
      }
    case Lifecycle(l) => ControlSteps(s, l, u, r);
  }

  lemma SameSteps(s: State, u: State)
    ensures u.phase == s.phase && u.statuses == s.statuses ==> PhaseStep(s, u)
  {
  }

  /** Only an active engine trades, and it stays active doing so. */
  lemma OnlyActiveTrades(s: State, c: Command)
    requires WfState(s) && UniqueIds(s.book)
    ensures var (u, r) := Apply(s, c);
            r.reports != [] ==> (c.New? || c.Amend?) && s.phase == Active && u.phase == Active
  {
    hide Apply, Lawful, WfState, UniqueIds;
    ApplyIsLawful(s, c);
    LawfulSteps(s, c, Apply(s, c).0, Apply(s, c).1);
  }

  lemma HistoryGrows(consumed: seq<SystemStatus>, s: State, u: State)
    requires History(consumed + s.statuses, s.phase) && PhaseStep(s, u)
    ensures History(consumed + u.statuses, u.phase)
  {
    if u.phase == s.phase && u.statuses == s.statuses {
    } else {
      var all, more := consumed + s.statuses, consumed + u.statuses;
      assert u.statuses == s.statuses + [u.statuses[|s.statuses|]];
      assert more == all + [u.statuses[|s.statuses|]];
      forall k | 0 <= k < |more| ensures Follows(more, k) {
        if k < |all| {
          assert Follows(all, k);
        }
      }
    }
  }

  lemma NextKeepsHistory(j: Journal, e: Event)
    requires JournalInv(j) && UniqueIds(j.state.book) && History(AllStatuses(j), j.state.phase)
    ensures History(AllStatuses(Next(j, e)), Next(j, e).state.phase)
  {
    hide Apply, Lawful, JournalInv, UniqueIds, History, PhaseStep;
    if e.Submit? {
      InvIsWf(j);
      ApplyIsLawful(j.state, e.command);
      LawfulSteps(j.state, e.command, Apply(j.state, e.command).0, Apply(j.state, e.command).1);
      HistoryGrows(j.consumedStatuses, j.state, Apply(j.state, e.command).0);
    } else {
      ConsumeKeepsJournal(j, e);
    }
  }

  lemma NextKeepsUnique(j: Journal, e: Event)
    requires WfState(j.state) && UniqueIds(j.state.book)
    ensures UniqueIds(Next(j, e).state.book)
  {
    hide UniqueIds, WfState, Apply;
    if e.Submit? {
      ApplyUnique(j.state, e.command);
    }
  }

  lemma InvIsWf(j: Journal)
    requires JournalInv(j)
    ensures WfState(j.state)
  {
  }

  lemma {:induction false} RunKeepsHistory(j: Journal, events: seq<Event>)
    requires JournalInv(j) && UniqueIds(j.state.book) && History(AllStatuses(j), j.state.phase)
    ensures History(AllStatuses(Run(j, events)), Run(j, events).state.phase)
    decreases |events|
  {
    hide WfState, UniqueIds, History, Partition, MatchesNumbered, Next, AllStatuses;
    if events == [] {
    } else {
      NextKeepsJournal(j, events[0]);
      NextKeepsUnique(j, events[0]);
      NextKeepsHistory(j, events[0]);
      RunKeepsHistory(Next(j, events[0]), events[1..]);
    }
  }

  lemma OpeningHistory(limits: Limits)
    requires limits.statusCapacity >= MINIMUM_STATUS_OUTBOX_CAPACITY
    ensures var j := Opening(limits); UniqueIds(j.state.book) && History(AllStatuses(j), j.state.phase)
  {
    hide JournalInv;
    EmptyUnique();
  }

  /**
    In every run the statuses committed so far, consumed or pending, lead from
    the active start through transitions there are to the current phase, each
    starting where the one before it ended.
   */
  lemma StatusesTellThePhase(limits: Limits, events: seq<Event>)
    requires limits.statusCapacity >= MINIMUM_STATUS_OUTBOX_CAPACITY
    ensures var j := Run(Opening(limits), events); History(AllStatuses(j), j.state.phase)
  {
    hide JournalInv, UniqueIds, History, Run, WfState;
    OpeningHistory(limits);
    RunKeepsHistory(Opening(limits), events);
  }

  // Command sequences.

  /** The sequences the submitters were given, without the zeros of rejected commands. */
  function Given(results: seq<StepResult>): seq<CommandSequence> {
    if results == [] then []
    else (if results[0].commandSequence == 0 then [] else [results[0].commandSequence]) + Given(results[1..])
  }

  /** A command takes the next sequence, or none. */
  lemma NextSequence(j: Journal, e: Event)
    requires WfState(j.state)
    ensures var last, given := j.state.lastCommand, Given(ResultOf(j, e));
            && Next(j, e).state.lastCommand == last + |given|
            && |given| <= 1 && (given != [] ==> given[0] == last + 1)
  {
    if e.Submit? {
      ApplyAtomic(j.state, e.command);
    }
    hide Apply, WfState;
  }

  lemma {:induction false} GivenConcat(a: seq<StepResult>, b: seq<StepResult>)
    ensures Given(a + b) == Given(a) + Given(b)
  {
    if a == [] {
      assert a + b == b;
    } else {
      GivenConcat(a[1..], b);
      assert (a + b)[1..] == a[1..] + b && (a + b)[0] == a[0];
      var here := if a[0].commandSequence == 0 then [] else [a[0].commandSequence];
      assert here + (Given(a[1..]) + Given(b)) == here + Given(a[1..]) + Given(b);
    }
  }

  lemma {:induction false} RunNumbersCommands(j: Journal, events: seq<Event>)
    requires WfState(j.state)
    ensures var last, given := j.state.lastCommand, Given(Results(j, events));
            && Run(j, events).state.lastCommand == last + |given|
            && forall k :: 0 <= k < |given| ==> given[k] == last + k + 1
    decreases |events|
  {
    hide WfState, Next, ResultOf;
    if events == [] {
    } else {
      NextKeepsWf(j, events[0]);
      NextSequence(j, events[0]);
      RunNumbersCommands(Next(j, events[0]), events[1..]);
      GivenConcat(ResultOf(j, events[0]), Results(Next(j, events[0]), events[1..]));
    }
  }

  /** In every run the commands that were given a sequence got 1, 2, 3 and so on, in order. */
  lemma CommandsAreNumbered(limits: Limits, events: seq<Event>)
    requires limits.statusCapacity >= MINIMUM_STATUS_OUTBOX_CAPACITY
    ensures var given := Given(Results(Opening(limits), events));
            && Run(Opening(limits), events).state.lastCommand == |given|
            && forall k :: 0 <= k < |given| ==> given[k] == k + 1
  {
    hide WfState, Run, Results;
    RunNumbersCommands(Opening(limits), events);
  }
}
