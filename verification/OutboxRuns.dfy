/**
  Interleavings of reserve, write, commit, abort and pop: consumers see exactly
  the committed batches, whole and in order, and an abort leaves no trace.
 */
module OutboxRuns {
  import opened Domain
  import opened Outbox

  datatype Op<Record> =
    | OpReserve(count: nat)
    | OpWrite(record: Record)
    | OpCommit
    | OpAbort
    | OpPop

  /** The outbox with everything consumed from it and every batch committed to it. */
  datatype Trace<Record> = Trace(outbox: OutboxState<Record>, consumed: seq<Record>, committed: seq<seq<Record>>)

  function Step<Record>(t: Trace<Record>, op: Op<Record>): Trace<Record>
    requires t.outbox.Inv()
  {
    var o := t.outbox;
    match op
    case OpReserve(count) => if o.CanReserve(count) then t.(outbox := o.Reserve(count)) else t
    case OpWrite(record) => if o.active && |o.staged| < o.reserved then t.(outbox := o.Write(record)) else t
    case OpCommit =>
      if o.active && |o.staged| == o.reserved then
        t.(outbox := o.Commit(), committed := t.committed + [o.staged])
      else t
    case OpAbort => if o.active then t.(outbox := o.Abort()) else t
    case OpPop => if o.queue == [] then t else t.(outbox := o.Pop(), consumed := t.consumed + [o.queue[0]])
  }

  function Run<Record>(t: Trace<Record>, ops: seq<Op<Record>>): (r: Trace<Record>)
    requires t.outbox.Inv()
    ensures r.outbox.Inv() && r.outbox.capacity == t.outbox.capacity
    decreases |ops|
  {
    if ops == [] then t else Run(Step(t, ops[0]), ops[1..])
  }

  function Concat<Record>(batches: seq<seq<Record>>): seq<Record> {
    if batches == [] then [] else Concat(batches[..|batches| - 1]) + batches[|batches| - 1]
  }

  lemma ConcatAppend<Record>(batches: seq<seq<Record>>, batch: seq<Record>)
    ensures Concat(batches + [batch]) == Concat(batches) + batch
  {
  }

  /** Consumed and pending records together are the committed batches. */
  predicate Lossless<Record(==)>(t: Trace<Record>) {
    t.consumed + t.outbox.queue == Concat(t.committed)
  }

  lemma StepIsLossless<Record>(t: Trace<Record>, op: Op<Record>)
    requires t.outbox.Inv() && Lossless(t)
    ensures Lossless(Step(t, op))
  {
    var u := Step(t, op);
    if op.OpCommit? {
      ConcatAppend(t.committed, t.outbox.staged);
      assert t.consumed + (t.outbox.queue + t.outbox.staged) == t.consumed + t.outbox.queue + t.outbox.staged;
    } else if op.OpPop? && t.outbox.queue != [] {
      assert u.consumed + u.outbox.queue == t.consumed + t.outbox.queue;
    }
    hide Concat;
  }

  /** Nothing is lost, reordered, duplicated or overwritten, and no part of an uncommitted batch is visible. */
  lemma {:induction false} ConsumersSeeCommittedBatches<Record>(t: Trace<Record>, ops: seq<Op<Record>>)
    requires t.outbox.Inv() && Lossless(t)
    ensures Lossless(Run(t, ops))
    decreases |ops|
  {
    hide Lossless;
    if ops == [] {
    } else {
      StepIsLossless(t, ops[0]);
      ConsumersSeeCommittedBatches(Step(t, ops[0]), ops[1..]);
    }
  }

  predicate DuringReservation<Record>(ops: seq<Op<Record>>) {
    forall i :: 0 <= i < |ops| ==> ops[i].OpWrite? || ops[i].OpPop?
  }

  function OnlyPops<Record>(ops: seq<Op<Record>>): seq<Op<Record>> {
    if ops == [] then []
    else (if ops[0].OpPop? then [OpPop] else []) + OnlyPops(ops[1..])
  }

  lemma RunAppend<Record>(t: Trace<Record>, ops: seq<Op<Record>>, last: Op<Record>)
    requires t.outbox.Inv()
    ensures Run(t, ops + [last]) == Step(Run(t, ops), last)
    decreases |ops|
  {
    if ops == [] {
      assert (ops + [last])[1..] == [];
    } else {
      assert (ops + [last])[1..] == ops[1..] + [last];
      RunAppend(Step(t, ops[0]), ops[1..], last);
    }
  }

  /** With the reservation taken away again, two outboxes agree. */
  ghost predicate SameButReserved<Record>(t: Trace<Record>, u: Trace<Record>) {
    && t.outbox.active && !u.outbox.active
    && t.(outbox := t.outbox.Abort()) == u.(outbox := u.outbox.Abort())
  }

  lemma {:induction false} WritesAreInvisible<Record>(t: Trace<Record>, u: Trace<Record>, ops: seq<Op<Record>>)
    requires t.outbox.Inv() && u.outbox.Inv() && SameButReserved(t, u) && DuringReservation(ops)
    ensures SameButReserved(Run(t, ops), Run(u, OnlyPops(ops)))
    decreases |ops|
  {
    if ops == [] {
    } else {
      if ops[0].OpPop? {
        assert OnlyPops(ops)[1..] == OnlyPops(ops[1..]);
        WritesAreInvisible(Step(t, ops[0]), Step(u, OpPop), ops[1..]);
      } else {
        assert OnlyPops(ops) == OnlyPops(ops[1..]);
        WritesAreInvisible(Step(t, ops[0]), u, ops[1..]);
      }
    }
  }

  /** Reserving, writing anything and aborting, with pops in between, equals just the pops. */
  lemma AbortLeavesNoTrace<Record>(t: Trace<Record>, count: nat, ops: seq<Op<Record>>)
    requires t.outbox.Inv() && t.outbox.CanReserve(count) && DuringReservation(ops)
    ensures Run(Step(t, OpReserve(count)), ops + [OpAbort]) == Run(t, OnlyPops(ops))
  {
    WritesAreInvisible(Step(t, OpReserve(count)), t, ops);
    RunAppend(Step(t, OpReserve(count)), ops, OpAbort);
  }

  /** What a driver holds on to is the outbox's reservation, or none that matters. */
  ghost predicate Holds<Record(0)>(outbox: LosslessOutbox<Record>, held: Reservation<Record>)
    reads outbox, held
  {
    && (held.outbox == outbox || held.outbox == null)
    && (held.outbox == outbox <==> outbox.state.active)
    && held.Owns()
  }

  lemma RunUnfolds<Record>(t: Trace<Record>, ops: seq<Op<Record>>)
    requires t.outbox.Inv() && ops != []
    ensures Step(t, ops[0]).outbox.Inv() && Run(t, ops) == Run(Step(t, ops[0]), ops[1..])
  {
  }

  lemma RunEnds<Record>(t: Trace<Record>)
    requires t.outbox.Inv()
    ensures Run(t, []) == t
  {
  }

  /** One operation, through the reservation held. */
  method Perform<Record(0)>(outbox: LosslessOutbox<Record>, op: Op<Record>, held: Reservation<Record>,
                            staged: seq<Record>, ghost t: Trace<Record>)
    returns (popped: seq<Record>, done: seq<seq<Record>>, staged': seq<Record>, held': Reservation<Record>)
    requires outbox.Valid() && Holds(outbox, held) && t.outbox == outbox.state && t.outbox.Inv()
    requires staged == outbox.state.staged
    modifies outbox, outbox.slots, held
    ensures outbox.Valid() && Holds(outbox, held') && (held' == held || fresh(held'))
    ensures staged' == outbox.state.staged
    ensures Step(t, op) == Trace(outbox.state, t.consumed + popped, t.committed + done)
  {
    hide LosslessOutbox.Valid;
    outbox.ReservedCount();
    popped, done, staged', held' := [], [], staged, held;
    match op
    case OpReserve(count) =>
      var reservation := outbox.Reserve(count);
      if reservation.outbox != null {
        held' := reservation;
      }
    case OpWrite(record) =>
      var written := held.Write(record);
      if written {
        staged' := staged + [record];
      }
    case OpCommit =>
      var committed := held.Commit();
      if committed {
        done, staged' := [staged], [];
      }
    case OpAbort =>
      var aborted := held.Abort();
      if aborted {
        staged' := [];
      }
    case OpPop =>
      var record := outbox.TryPop();
      if record.Some? {
        popped := [record.value];
      }
      outbox.ReservedCount();
  }

  /**
    An outbox driven through any operations does what the run does. The staged
    records are those written since the reservation held at the end was made.
   */
  method Drive<Record(0)>(outbox: LosslessOutbox<Record>, ops: seq<Op<Record>>, ghost t: Trace<Record>)
    returns (consumed: seq<Record>, committed: seq<seq<Record>>, held: Reservation<Record>)
    requires outbox.Valid() && !outbox.state.active && t.outbox == outbox.state && t.outbox.Inv()
    modifies outbox, outbox.slots
    ensures outbox.Valid() && Holds(outbox, held)
    ensures Run(t, ops) == Trace(outbox.state, t.consumed + consumed, t.committed + committed)
  {
    hide LosslessOutbox.Valid, Step, Run;
    consumed, committed := [], [];
    held := new Reservation<Record>(null, 0, 0);
    var staged: seq<Record> := [];
    outbox.NothingStaged();
    ghost var now := t;
    var index := 0;
    assert ops[0..] == ops;
    while index < |ops|
      invariant 0 <= index <= |ops|
      invariant fresh(held) && outbox.Valid() && Holds(outbox, held)
      invariant staged == outbox.state.staged && now.outbox.Inv()
      invariant now == Trace(outbox.state, t.consumed + consumed, t.committed + committed)
      invariant Run(t, ops) == Run(now, ops[index..])
    {
      assert ops[index..][1..] == ops[index + 1..];
      RunUnfolds(now, ops[index..]);
      var popped, done;
      popped, done, staged, held := Perform(outbox, ops[index], held, staged, now);
      now := Step(now, ops[index]);
      consumed, committed := consumed + popped, committed + done;
      index := index + 1;
    }
    assert ops[index..] == [];
    RunEnds(now);
  }
}
