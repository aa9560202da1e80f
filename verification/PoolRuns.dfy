/**
  What the pool guarantees over whole runs of its operations: a handle is
  issued once, and a handle that stopped being valid never becomes valid again.
 */
module PoolRuns {
  import opened Domain
  import opened Pool

  datatype PoolOp<T> =
    | OpAcquire(value: T)
    | OpPut(handle: Handle, value: T)
    | OpRelease(handle: Handle)
    | OpReset

  /** The pool together with every handle it has issued. */
  datatype History<T> = History(pool: PoolState<T>, issued: set<Handle>)

  ghost function Step<T>(x: History<T>, op: PoolOp<T>): History<T>
    requires StateInv(x.pool)
  {
    match op
    case OpAcquire(v) =>
      if NextStatus(x.pool).Acquired? then
        History(AfterAcquire(x.pool, v), x.issued + {NextHandle(x.pool)})
      else x
    case OpPut(h, v) =>
      if h in x.pool.live then x.(pool := x.pool.(live := x.pool.live[h := v])) else x
    case OpRelease(h) =>
      if h in x.pool.live then x.(pool := AfterRelease(x.pool, h)) else x
    case OpReset =>
      if x.pool.epoch < x.pool.maxEpoch then x.(pool := AfterReset(x.pool)) else x
  }

  ghost function Run<T>(x: History<T>, ops: seq<PoolOp<T>>): (r: History<T>)
    requires StateInv(x.pool)
    ensures StateInv(r.pool)
    decreases |ops|
  {
    hide StateInv, Step;
    if ops == [] then x
    else
      StepKeepsInv(x, ops[0]);
      Run(Step(x, ops[0]), ops[1..])
  }

  lemma StepKeepsInv<T>(x: History<T>, op: PoolOp<T>)
    requires StateInv(x.pool)
    ensures StateInv(Step(x, op).pool)
  {
    match op
    case OpAcquire(v) =>
      if NextStatus(x.pool).Acquired? {
        AcquireKeepsInv(x.pool, v);
      }
    case OpPut(h, v) =>
      if h in x.pool.live {
        PutKeepsInv(x.pool, h, v);
      }
    case OpRelease(h) =>
      if h in x.pool.live {
        ReleaseKeepsInv(x.pool, h);
      }
    case OpReset => ResetKeepsInv(x.pool);
  }

  /** Every issued handle is of an earlier epoch, or not ahead of its slot. */
  ghost predicate HistoryInv<T>(x: History<T>) {
    && StateInv(x.pool)
    && (forall h :: h in x.issued ==>
          && h.index < |x.pool.gens|
          && h.generation >= 1
          && (h.epoch < x.pool.epoch
              || (h.epoch == x.pool.epoch && h.generation <= x.pool.gens[h.index])))
    && (forall h :: h in x.pool.live ==> h in x.issued)
  }

  /** One step keeps the history invariant, extends what was issued and revives nothing. */
  ghost predicate Keeps<T>(x: History<T>, y: History<T>) {
    && HistoryInv(y)
    && x.issued <= y.issued
    && (forall h :: h in x.issued && h !in x.pool.live ==> h !in y.pool.live)
  }

  lemma AcquireKeeps<T>(x: History<T>, v: T)
    requires HistoryInv(x)
    ensures Keeps(x, Step(x, OpAcquire(v)))
  {
    if NextStatus(x.pool).Acquired? {
      AcquireKeepsInv(x.pool, v);
    }
  }

  lemma ReleaseKeeps<T>(x: History<T>, h: Handle)
    requires HistoryInv(x)
    ensures Keeps(x, Step(x, OpRelease(h)))
  {
    if h in x.pool.live {
      ReleaseKeepsInv(x.pool, h);
    }
  }

  lemma PutKeeps<T>(x: History<T>, h: Handle, v: T)
    requires HistoryInv(x)
    ensures Keeps(x, Step(x, OpPut(h, v)))
  {
    if h in x.pool.live {
      PutKeepsInv(x.pool, h, v);
    }
  }

  lemma ResetKeeps<T>(x: History<T>)
    requires HistoryInv(x)
    ensures Keeps(x, Step(x, OpReset))
  {
    ResetKeepsInv(x.pool);
  }

  lemma StepKeeps<T>(x: History<T>, op: PoolOp<T>)
    requires HistoryInv(x)
    ensures Keeps(x, Step(x, op))
  {
    match op
    case OpAcquire(v) => AcquireKeeps(x, v);
    case OpPut(h, v) => PutKeeps(x, h, v);
    case OpRelease(h) => ReleaseKeeps(x, h);
    case OpReset => ResetKeeps(x);
  }

  lemma {:induction false} RunKeepsHistory<T>(x: History<T>, ops: seq<PoolOp<T>>)
    requires HistoryInv(x)
    ensures HistoryInv(Run(x, ops))
    decreases |ops|
  {
    hide StateInv, Step;
    if ops == [] {
    } else {
      StepKeeps(x, ops[0]);
      RunKeepsHistory(Step(x, ops[0]), ops[1..]);
    }
  }

  /**
    In every run from a new pool, the handle about to be issued was never
    issued before, and a slot has at most one valid handle.
   */
  lemma HandlesStayFresh<T>(capacity: nat, maxGeneration: nat, maxEpoch: nat, ops: seq<PoolOp<T>>)
    requires 1 <= capacity < INVALID_INDEX && 1 <= maxEpoch
    ensures var start := History(Fresh<T>(capacity, maxGeneration, maxEpoch, 1), {});
            && StateInv(start.pool)
            && var x := Run(start, ops);
            && (NextStatus(x.pool).Acquired? ==> NextHandle(x.pool) !in x.issued)
            && (forall g, h :: g in x.pool.live && h in x.pool.live && g.index == h.index ==> g == h)
  {
    var start := History(Fresh<T>(capacity, maxGeneration, maxEpoch, 1), {});
    RunKeepsHistory(start, ops);
    hide Run;
  }

  /** Once released or reset away, a handle stays invalid whatever follows. */
  lemma {:induction false} StaleStaysStale<T>(x: History<T>, ops: seq<PoolOp<T>>, h: Handle)
    requires HistoryInv(x)
    requires h in x.issued && h !in x.pool.live
    ensures h in Run(x, ops).issued && h !in Run(x, ops).pool.live
    decreases |ops|
  {
    hide StateInv, Step;
    RunKeepsHistory(x, ops);
    if ops == [] {
    } else {
      StepKeeps(x, ops[0]);
      StaleStaysStale(Step(x, ops[0]), ops[1..], h);
    }
  }

  /** Releases a whole list; a handle that is not valid changes nothing. */
  ghost function ReleaseAll<T>(s: PoolState<T>, handles: seq<Handle>): (r: PoolState<T>)
    requires StateInv(s)
    ensures StateInv(r)
    decreases |handles|
  {
    if handles == [] then s
    else if handles[0] in s.live then
      ReleaseKeepsInv(s, handles[0]);
      ReleaseAll(AfterRelease(s, handles[0]), handles[1..])
    else ReleaseAll(s, handles[1..])
  }

  /** Releases only add to the back of the free queue. */
  lemma {:induction false} ReleasesQueueUp<T>(s: PoolState<T>, handles: seq<Handle>)
    requires StateInv(s)
    ensures var r := ReleaseAll(s, handles);
            s.free <= r.free && s.gens == r.gens && r.maxGeneration == s.maxGeneration
    decreases |handles|
  {
    hide StateInv;
    if handles == [] {
    } else {
      if handles[0] in s.live {
        ReleaseKeepsInv(s, handles[0]);
        ReleasesQueueUp(AfterRelease(s, handles[0]), handles[1..]);
      } else {
        ReleasesQueueUp(s, handles[1..]);
      }
    }
  }

  /**
    The one-step prediction is right however many other slots are released
    after the first, which is why naming only the first removed order suffices.
   */
  lemma PredictionHolds<T>(s: PoolState<T>, first: Handle, others: seq<Handle>)
    requires StateInv(s) && first in s.live
    ensures NextStatus(ReleaseAll(s, [first] + others)) == StatusAfterRelease(s, first)
  {
    ReleaseKeepsInv(s, first);
    ReleasesQueueUp(AfterRelease(s, first), others);
    assert ([first] + others)[1..] == others;
  }

  // What is issued, when an acquisition is refused, and in which order slots are reused.

  /** Since the last reset: the slots taken and the slots given back, each in order. */
  datatype Traffic = Traffic(taken: seq<nat>, returned: seq<nat>)

  ghost function Track<T>(x: History<T>, op: PoolOp<T>, traffic: Traffic): Traffic
    requires StateInv(x.pool)
  {
    match op
    case OpAcquire(v) =>
      if NextStatus(x.pool).Acquired? then traffic.(taken := traffic.taken + [NextHandle(x.pool).index]) else traffic
    case OpPut(h, v) => traffic
    case OpRelease(h) => if h in x.pool.live then traffic.(returned := traffic.returned + [h.index]) else traffic
    case OpReset => if x.pool.epoch < x.pool.maxEpoch then Traffic([], []) else traffic
  }

  ghost function TrafficOf<T>(x: History<T>, ops: seq<PoolOp<T>>, traffic: Traffic): Traffic
    requires StateInv(x.pool)
    decreases |ops|
  {
    hide StateInv, Step, Track;
    if ops == [] then traffic
    else
      StepKeepsInv(x, ops[0]);
      TrafficOf(Step(x, ops[0]), ops[1..], Track(x, ops[0], traffic))
  }

  /** Of the current epoch, each slot's generations were issued from 1 up to the slot's own, and no others. */
  ghost predicate IssuedInOrder<T>(x: History<T>) {
    forall i: nat, g: nat :: i < |x.pool.gens| ==> (Handle(i, g, x.pool.epoch) in x.issued <==> 1 <= g <= x.pool.gens[i])
  }

  /** Slots 0, 1, 2 and so on and then those given back, in that order, are those taken and then the free ones. */
  ghost predicate FirstInFirstOut<T>(s: PoolState<T>, traffic: Traffic) {
    traffic.taken + s.free == seq(|s.gens|, i => i) + traffic.returned
  }

  lemma StepIssues<T>(x: History<T>, op: PoolOp<T>)
    requires HistoryInv(x) && IssuedInOrder(x)
    ensures IssuedInOrder(Step(x, op)) && |Step(x, op).pool.gens| == |x.pool.gens|
  {
  }

  lemma StepQueues<T>(x: History<T>, op: PoolOp<T>, traffic: Traffic)
    requires StateInv(x.pool) && FirstInFirstOut(x.pool, traffic)
    ensures FirstInFirstOut(Step(x, op).pool, Track(x, op, traffic))
  {
    var s := x.pool;
    match op
    case OpAcquire(v) =>
      if NextStatus(s).Acquired? {
        assert traffic.taken + [s.free[0]] + s.free[1..] == traffic.taken + s.free;
      }
    case OpPut(h, v) =>
    case OpRelease(h) =>
      assert traffic.taken + (s.free + [h.index]) == traffic.taken + s.free + [h.index];
    case OpReset =>
      assert [] + seq(|s.gens|, i => i) == seq(|s.gens|, i => i) + [];
  }

  lemma {:induction false} RunKeepsOrder<T>(x: History<T>, ops: seq<PoolOp<T>>, traffic: Traffic)
    requires HistoryInv(x) && IssuedInOrder(x) && FirstInFirstOut(x.pool, traffic)
    ensures IssuedInOrder(Run(x, ops)) && FirstInFirstOut(Run(x, ops).pool, TrafficOf(x, ops, traffic))
    ensures |Run(x, ops).pool.gens| == |x.pool.gens|
    decreases |ops|
  {
    hide StateInv, Step, Track, IssuedInOrder, FirstInFirstOut;
    if ops == [] {
    } else {
      StepKeeps(x, ops[0]);
      StepIssues(x, ops[0]);
      StepQueues(x, ops[0], traffic);
      RunKeepsOrder(Step(x, ops[0]), ops[1..], Track(x, ops[0], traffic));
    }
  }

  /**
    In every run from a new pool slots are taken in the order in which they
    were given back; each acquisition issues the slot's next generation; and
    one is refused exactly when as many handles are valid as there are slots, or
    the slot whose turn it is was issued at its last generation.
   */
  lemma SlotsTakeTurns<T>(capacity: nat, maxGeneration: nat, maxEpoch: nat, ops: seq<PoolOp<T>>)
    requires 1 <= capacity < INVALID_INDEX && 1 <= maxEpoch
    ensures var start := History(Fresh<T>(capacity, maxGeneration, maxEpoch, 1), {});
            && StateInv(start.pool)
            && var x, traffic := Run(start, ops), TrafficOf(start, ops, Traffic([], []));
            && traffic.taken + x.pool.free == seq(capacity, i => i) + traffic.returned
            && |x.pool.gens| == capacity
            && IssuedInOrder(x)
            && (NextStatus(x.pool) == Exhausted <==> |x.pool.live| == capacity)
            && (NextStatus(x.pool) == GenerationExhausted <==>
                  |x.pool.live| < capacity
                  && (maxGeneration == 0 || Handle(x.pool.free[0], maxGeneration, x.pool.epoch) in x.issued))
  {
    var start := History(Fresh<T>(capacity, maxGeneration, maxEpoch, 1), {});
    assert [] + seq(capacity, i => i) == seq(capacity, i => i) + [];
    RunKeepsOrder(start, ops, Traffic([], []));
    RunKeepsMaximum(start, ops);
    hide Run, TrafficOf;
    RefusalMeans(Run(start, ops));
  }

  lemma {:induction false} RunKeepsMaximum<T>(x: History<T>, ops: seq<PoolOp<T>>)
    requires StateInv(x.pool)
    ensures Run(x, ops).pool.maxGeneration == x.pool.maxGeneration
    decreases |ops|
  {
    hide StateInv;
    if ops == [] {
    } else {
      StepKeepsInv(x, ops[0]);
      RunKeepsMaximum(Step(x, ops[0]), ops[1..]);
    }
  }

  lemma RefusalMeans<T>(x: History<T>)
    requires StateInv(x.pool) && IssuedInOrder(x)
    ensures var s := x.pool;
            && (NextStatus(s) == Exhausted <==> |s.live| == |s.gens|)
            && (|s.live| < |s.gens| ==> s.free != [])
            && (NextStatus(s) == GenerationExhausted <==>
                  && |s.live| < |s.gens|
                  && (s.maxGeneration == 0 || Handle(s.free[0], s.maxGeneration, s.epoch) in x.issued))
  {
  }

  lemma RunUnfolds<T>(x: History<T>, ops: seq<PoolOp<T>>)
    requires StateInv(x.pool) && ops != []
    ensures StateInv(Step(x, ops[0]).pool) && Run(x, ops) == Run(Step(x, ops[0]), ops[1..])
  {
    hide StateInv, Step;
    StepKeepsInv(x, ops[0]);
  }

  lemma RunEnds<T>(x: History<T>)
    requires StateInv(x.pool)
    ensures Run(x, []) == x
  {
  }

  /** One operation on the pool; the handle it issued, if it issued one. */
  method Perform<T>(pool: FixedObjectPool<T>, op: PoolOp<T>, ghost x: History<T>) returns (issued: set<Handle>)
    requires pool.Valid() && x.pool == pool.state && StateInv(x.pool)
    modifies pool, pool.slots, pool.freeIndices
    ensures pool.Valid()
    ensures Step(x, op) == History(pool.state, x.issued + issued)
  {
    hide FixedObjectPool.Valid, StateInv;
    pool.Maxima();
    issued := {};
    match op
    case OpAcquire(v) =>
      var status, h := pool.Acquire(v);
      if status.Acquired? {
        issued := {h};
      }
    case OpPut(h, v) =>
      if pool.Get(h).Some? {
        pool.Put(h, v);
      }
    case OpRelease(h) =>
      var released := pool.Release(h);
    case OpReset =>
      var done := pool.Reset();
  }

  /** A pool driven through any operations does what the run does, and issues the handles it issues. */
  method Drive<T>(pool: FixedObjectPool<T>, ops: seq<PoolOp<T>>, ghost x: History<T>) returns (issued: set<Handle>)
    requires pool.Valid() && x.pool == pool.state && StateInv(x.pool)
    modifies pool, pool.slots, pool.freeIndices
    ensures pool.Valid()
    ensures Run(x, ops) == History(pool.state, x.issued + issued)
  {
    hide FixedObjectPool.Valid, StateInv, Step, Run;
    issued := {};
    ghost var now := x;
    var index := 0;
    assert ops[0..] == ops;
    while index < |ops|
      invariant 0 <= index <= |ops|
      invariant pool.Valid() && StateInv(now.pool)
      invariant now == History(pool.state, x.issued + issued)
      invariant Run(x, ops) == Run(now, ops[index..])
    {
      assert ops[index..][1..] == ops[index + 1..];
      RunUnfolds(now, ops[index..]);
      var more := Perform(pool, ops[index], now);
      now := Step(now, ops[index]);
      issued := issued + more;
      index := index + 1;
    }
    assert ops[index..] == [];
    RunEnds(now);
  }
}
