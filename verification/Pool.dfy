/**
  A slot allocator with a FIFO ring of free slots. Handles carry the slot's
  generation and the pool's epoch, so a handle that was released, or issued
  before a reset, is recognised as stale.

  PoolState is the pool as its callers see it; class FixedObjectPool is the
  representation and is proved to step exactly like it.
 */
module Pool {
  import opened Domain
  import opened Ring

  const INVALID_INDEX: nat := U32_MAX

  /** Zero generation, zero epoch and the largest index are reserved. */
  datatype Handle = Handle(index: nat, generation: nat, epoch: nat) {
    predicate IsInvalid() {
      index == INVALID_INDEX || generation == 0 || epoch == 0
    }
  }

  const NULL_HANDLE := Handle(INVALID_INDEX, 0, 0)

  datatype AcquireStatus = Acquired | Exhausted | GenerationExhausted

  /** gens[i] is slot i's generation, free the free slots in order of reuse. */
  datatype PoolState<T> = PoolState(
    maxGeneration: nat,
    maxEpoch: nat,
    gens: seq<nat>,
    free: seq<nat>,
    live: map<Handle, T>,
    epoch: nat)

  ghost predicate StateInv<T>(s: PoolState<T>) {
    && 1 <= |s.gens| < INVALID_INDEX
    && 1 <= s.epoch <= s.maxEpoch
    && (forall i :: 0 <= i < |s.gens| ==> s.gens[i] <= s.maxGeneration)
    && (forall k :: 0 <= k < |s.free| ==> s.free[k] < |s.gens|)
    && (forall k, l :: 0 <= k < l < |s.free| ==> s.free[k] != s.free[l])
    && (forall h :: h in s.live ==>
          h.index < |s.gens| && h.epoch == s.epoch && h.generation == s.gens[h.index] >= 1)
    && (forall k, h :: 0 <= k < |s.free| && h in s.live ==> s.free[k] != h.index)
    && |s.live| + |s.free| == |s.gens|
  }

  function NextStatus<T>(s: PoolState<T>): AcquireStatus
    requires forall k :: 0 <= k < |s.free| ==> s.free[k] < |s.gens|
  {
    if s.free == [] then Exhausted
    else if s.gens[s.free[0]] == s.maxGeneration then GenerationExhausted
    else Acquired
  }

  /** The handle the next acquisition issues. */
  ghost function NextHandle<T>(s: PoolState<T>): Handle
    requires s.free != [] && s.free[0] < |s.gens|
  {
    Handle(s.free[0], s.gens[s.free[0]] + 1, s.epoch)
  }

  ghost function AfterAcquire<T>(s: PoolState<T>, v: T): PoolState<T>
    requires s.free != [] && s.free[0] < |s.gens|
  {
    s.(gens := s.gens[s.free[0] := s.gens[s.free[0]] + 1],
       free := s.free[1..],
       live := s.live[NextHandle(s) := v])
  }

  ghost function AfterRelease<T>(s: PoolState<T>, h: Handle): PoolState<T> {
    s.(free := s.free + [h.index], live := s.live - {h})
  }

  /** Slots are reacquired in ascending order after construction or reset. */
  ghost function Fresh<T>(capacity: nat, maxGeneration: nat, maxEpoch: nat, epoch: nat): PoolState<T> {
    PoolState(maxGeneration, maxEpoch,
              seq(capacity, i => 0), seq(capacity, i => i), map[], epoch)
  }

  ghost function AfterReset<T>(s: PoolState<T>): PoolState<T> {
    Fresh(|s.gens|, s.maxGeneration, s.maxEpoch, s.epoch + 1)
  }

  /** What acquire would answer once first has been released. */
  function StatusAfterRelease<T>(s: PoolState<T>, first: Handle): AcquireStatus
    requires forall k :: 0 <= k < |s.free| ==> s.free[k] < |s.gens|
    requires forall h :: h in s.live ==> h.index < |s.gens|
  {
    if s.free != [] then NextStatus(s)
    else if first !in s.live then Exhausted
    else if s.gens[first.index] == s.maxGeneration then GenerationExhausted
    else Acquired
  }

  /** No slot was taken and nothing was reset. */
  ghost predicate SameAge<T>(s: PoolState<T>, t: PoolState<T>) {
    t.gens == s.gens && t.epoch == s.epoch
  }

  /** At most one acquisition happened, and no reset. */
  ghost predicate OneOlder<T>(s: PoolState<T>, t: PoolState<T>) {
    && |t.gens| == |s.gens| && t.epoch == s.epoch
    && forall i :: 0 <= i < |s.gens| ==> t.gens[i] <= s.gens[i] + 1
  }

  lemma AcquireKeepsInv<T>(s: PoolState<T>, v: T)
    requires StateInv(s) && NextStatus(s).Acquired?
    ensures StateInv(AfterAcquire(s, v))
    ensures NextHandle(s) !in s.live
  {
  }

  lemma ReleaseKeepsInv<T>(s: PoolState<T>, h: Handle)
    requires StateInv(s) && h in s.live
    ensures StateInv(AfterRelease(s, h))
  {
  }

  lemma PutKeepsInv<T>(s: PoolState<T>, h: Handle, v: T)
    requires StateInv(s) && h in s.live
    ensures StateInv(s.(live := s.live[h := v]))
    ensures |s.live[h := v]| == |s.live|
  {
  }

  lemma ResetKeepsInv<T>(s: PoolState<T>)
    requires StateInv(s)
    ensures s.epoch < s.maxEpoch ==> StateInv(AfterReset(s))
  {
  }

  /** Issued handles are never one of the reserved values, and never valid already. */
  lemma NextHandleUsable<T>(s: PoolState<T>)
    requires StateInv(s) && s.free != []
    ensures s.free[0] < |s.gens|
    ensures !NextHandle(s).IsInvalid() && NextHandle(s) !in s.live
  {
  }

  /** A slot's object is modelled as an optional value. */
  datatype Slot<T> = Slot(content: Option<T>, generation: nat, freePosition: nat)

  /** The pool's memory: slots and free ring of the same length, and the ring's cursor. */
  datatype Memory<T> = Memory(slots: seq<Slot<T>>, ring: seq<nat>, head: nat)

  ghost predicate RingHolds<T>(m: Memory<T>, free: seq<nat>)
    requires |m.ring| == |m.slots| && m.head < |m.slots| && |free| <= |m.slots|
  {
    forall k :: 0 <= k < |free| ==>
      && m.ring[At(m.head, k, |m.slots|)] == free[k]
      && free[k] < |m.slots|
      && m.slots[free[k]].content.None?
      && m.slots[free[k]].freePosition == At(m.head, k, |m.slots|)
  }

  ghost predicate VacantKnowsPlace<T>(m: Memory<T>, free: seq<nat>)
    requires |m.ring| == |m.slots| && m.head < |m.slots| && |free| <= |m.slots|
  {
    forall i :: 0 <= i < |m.slots| && m.slots[i].content.None? ==>
      && m.slots[i].freePosition < |m.slots|
      && Off(m.head, m.slots[i].freePosition, |m.slots|) < |free|
      && m.ring[m.slots[i].freePosition] == i
  }

  ghost predicate SlotsHold<T>(m: Memory<T>, s: PoolState<T>)
    requires |s.gens| == |m.slots|
  {
    && (forall i :: 0 <= i < |m.slots| ==> m.slots[i].generation == s.gens[i])
    && (forall i :: 0 <= i < |m.slots| && m.slots[i].content.Some? ==>
          && Handle(i, s.gens[i], s.epoch) in s.live
          && s.live[Handle(i, s.gens[i], s.epoch)] == m.slots[i].content.value
          && m.slots[i].freePosition == INVALID_INDEX)
    && (forall h :: h in s.live && h.index < |m.slots| ==> m.slots[h.index].content.Some?)
  }

  ghost predicate Represents<T>(m: Memory<T>, s: PoolState<T>) {
    && StateInv(s)
    && |s.gens| == |m.slots| == |m.ring|
    && m.head < |m.slots|
    && RingHolds(m, s.free)
    && VacantKnowsPlace(m, s.free)
    && SlotsHold(m, s)
  }

  /** The memory after taking the slot at the ring's head. */
  function TakeHead<T>(m: Memory<T>, i: nat, v: T, generation: nat): Memory<T>
    requires i < |m.slots| && m.head < |m.slots|
  {
    Memory(m.slots[i := Slot(Some(v), generation, INVALID_INDEX)], m.ring, Next(m.head, |m.slots|))
  }

  /** The memory after giving slot i back at ring position tail. */
  function GiveBack<T>(m: Memory<T>, i: nat, tail: nat): Memory<T>
    requires i < |m.slots| && tail < |m.ring|
  {
    Memory(m.slots[i := m.slots[i].(content := None, freePosition := tail)], m.ring[tail := i], m.head)
  }

  lemma TakeHeadRing<T>(m: Memory<T>, free: seq<nat>, v: T, generation: nat)
    requires |m.ring| == |m.slots| && m.head < |m.slots| && 0 < |free| <= |m.slots|
    requires RingHolds(m, free) && VacantKnowsPlace(m, free)
    requires forall k, l :: 0 <= k < l < |free| ==> free[k] != free[l]
    ensures free[0] == m.ring[m.head] < |m.slots|
    ensures RingHolds(TakeHead(m, free[0], v, generation), free[1..])
    ensures VacantKnowsPlace(TakeHead(m, free[0], v, generation), free[1..])
  {
  }

  lemma GiveBackRing<T>(m: Memory<T>, free: seq<nat>, i: nat)
    requires |m.ring| == |m.slots| && m.head < |m.slots| && |free| < |m.slots|
    requires RingHolds(m, free) && VacantKnowsPlace(m, free)
    requires i < |m.slots| && m.slots[i].content.Some?
    ensures RingHolds(GiveBack(m, i, At(m.head, |free|, |m.slots|)), free + [i])
    ensures VacantKnowsPlace(GiveBack(m, i, At(m.head, |free|, |m.slots|)), free + [i])
  {
  }

  lemma TakeHeadSlots<T>(m: Memory<T>, s: PoolState<T>, v: T)
    requires StateInv(s) && s.free != [] && |s.gens| == |m.slots| && m.head < |m.slots|
    requires SlotsHold(m, s)
    ensures SlotsHold(TakeHead(m, s.free[0], v, s.gens[s.free[0]] + 1), AfterAcquire(s, v))
  {
  }

  lemma GiveBackSlots<T>(m: Memory<T>, s: PoolState<T>, h: Handle, tail: nat)
    requires StateInv(s) && |s.gens| == |m.slots| && h in s.live && tail < |m.ring|
    requires SlotsHold(m, s)
    ensures SlotsHold(GiveBack(m, h.index, tail), AfterRelease(s, h))
  {
  }

  lemma AcquireRepresents<T>(m: Memory<T>, s: PoolState<T>, v: T)
    requires Represents(m, s) && NextStatus(s).Acquired?
    ensures m.ring[m.head] == s.free[0] < |m.slots|
    ensures m.slots[s.free[0]].generation == s.gens[s.free[0]]
    ensures Represents(TakeHead(m, s.free[0], v, s.gens[s.free[0]] + 1), AfterAcquire(s, v))
    ensures |AfterAcquire(s, v).live| == |s.live| + 1 <= |m.slots|
  {
    hide RingHolds, VacantKnowsPlace;
    TakeHeadRing(m, s.free, v, s.gens[s.free[0]] + 1);
    TakeHeadSlots(m, s, v);
    AcquireKeepsInv(s, v);
  }

  lemma ReleaseRepresents<T>(m: Memory<T>, s: PoolState<T>, h: Handle)
    requires Represents(m, s) && h in s.live
    ensures |s.free| < |m.slots| && h.index < |m.slots|
    ensures Represents(GiveBack(m, h.index, At(m.head, |s.free|, |m.slots|)), AfterRelease(s, h))
    ensures |AfterRelease(s, h).live| == |s.live| - 1
  {
    hide RingHolds, VacantKnowsPlace;
    assert s.live.Keys != {} by { assert h in s.live.Keys; }
    assert |s.live| == |s.live.Keys| && |s.free| < |m.slots|;
    assert m.slots[h.index].content.Some?;
    GiveBackRing(m, s.free, h.index);
    GiveBackSlots(m, s, h, At(m.head, |s.free|, |m.slots|));
    ReleaseKeepsInv(s, h);
  }

  lemma PutRepresents<T>(m: Memory<T>, s: PoolState<T>, h: Handle, v: T)
    requires Represents(m, s) && h in s.live
    ensures h.index < |m.slots| && |s.live[h := v]| == |s.live|
    ensures Represents(m.(slots := m.slots[h.index := m.slots[h.index].(content := Some(v))]),
                       s.(live := s.live[h := v]))
  {
    PutKeepsInv(s, h, v);
    hide StateInv;
  }

  lemma FreshRepresents<T>(m: Memory<T>, maxGeneration: nat, maxEpoch: nat, epoch: nat)
    requires |m.slots| == |m.ring| && 1 <= |m.slots| < INVALID_INDEX && m.head == 0
    requires 1 <= epoch <= maxEpoch
    requires forall k :: 0 <= k < |m.slots| ==> m.slots[k] == Slot(None, 0, k)
    requires forall k :: 0 <= k < |m.slots| ==> m.ring[k] == k
    ensures Represents(m, Fresh(|m.slots|, maxGeneration, maxEpoch, epoch))
  {
  }

  // What the debug check looks at.

  /** The occupied slots below k. */
  ghost function Filled<T>(slots: seq<Slot<T>>, k: nat): set<nat>
    requires k <= |slots|
  {
    set i: nat | i < k && slots[i].content.Some?
  }

  lemma FilledStep<T>(slots: seq<Slot<T>>, k: nat)
    requires k < |slots|
    ensures |Filled(slots, k + 1)| == |Filled(slots, k)| + (if slots[k].content.Some? then 1 else 0)
  {
    assert Filled(slots, k + 1) == Filled(slots, k) + (if slots[k].content.Some? then {k} else {});
  }

  ghost function Indices<T>(live: map<Handle, T>): set<nat> {
    set h | h in live :: h.index
  }

  /** Live handles are as many as the slots they name. */
  lemma {:induction false} IndicesCount<T>(live: map<Handle, T>)
    requires forall h, g :: h in live && g in live && h.index == g.index ==> h == g
    ensures |Indices(live)| == |live|
    decreases |live|
  {
    if live == map[] {
      assert Indices(live) == {};
    } else {
      var h :| h in live;
      assert live.Keys == (live - {h}).Keys + {h};
      assert Indices(live) == Indices(live - {h}) + {h.index};
      IndicesCount(live - {h});
    }
  }

  lemma CountsFit<T>(m: Memory<T>, s: PoolState<T>)
    requires Represents(m, s)
    ensures 1 <= |m.slots| < INVALID_INDEX && s.epoch >= 1
    ensures |s.live| + |s.free| == |m.slots|
    ensures |Filled(m.slots, |m.slots|)| == |s.live|
  {
    hide RingHolds, VacantKnowsPlace;
    forall i | i in Filled(m.slots, |m.slots|) ensures i in Indices(s.live) {
      assert Handle(i, s.gens[i], s.epoch) in s.live;
    }
    assert Filled(m.slots, |m.slots|) == Indices(s.live);
    IndicesCount(s.live);
  }

  lemma SlotFits<T>(m: Memory<T>, s: PoolState<T>, i: nat)
    requires Represents(m, s) && i < |m.slots|
    ensures m.slots[i].content.Some? ==> m.slots[i].freePosition == INVALID_INDEX && m.slots[i].generation >= 1
    ensures m.slots[i].content.None? ==>
              && m.slots[i].freePosition < |m.slots|
              && Off(m.head, m.slots[i].freePosition, |m.slots|) < |s.free|
              && m.ring[m.slots[i].freePosition] == i
  {
  }

  lemma RingFits<T>(m: Memory<T>, s: PoolState<T>, k: nat)
    requires Represents(m, s) && k < |s.free|
    ensures |s.free| <= |m.slots|
    ensures var position := At(m.head, k, |m.slots|);
            && m.ring[position] < |m.slots|
            && m.slots[m.ring[position]].content.None?
            && m.slots[m.ring[position]].freePosition == position
  {
  }

  class FixedObjectPool<T> {
    const maxGeneration: nat
    const maxEpoch: nat
    const slots: array<Slot<T>>
    const freeIndices: array<nat>
    var freeHead: nat
    var freeTail: nat
    var usedCount: nat
    var freeCount: nat
    var highWaterCount: nat
    var epoch: nat
    ghost var state: PoolState<T>

    ghost predicate Valid()
      reads this, slots, freeIndices
    {
      && Represents(Memory(slots[..], freeIndices[..], freeHead), state)
      && state.maxGeneration == maxGeneration
      && state.maxEpoch == maxEpoch
      && state.epoch == epoch
      && |state.free| == freeCount
      && |state.live| == usedCount <= highWaterCount <= slots.Length
      && freeTail == At(freeHead, freeCount, slots.Length)
    }

    constructor (capacity: nat, maxGeneration: nat, maxEpoch: nat)
      requires 1 <= capacity < INVALID_INDEX
      requires 1 <= maxEpoch
      ensures Valid() && fresh(slots) && fresh(freeIndices) && slots.Length == capacity
      ensures state == Fresh(capacity, maxGeneration, maxEpoch, 1)
    {
      this.maxGeneration := maxGeneration;
      this.maxEpoch := maxEpoch;
      slots := new Slot<T>[capacity](i => Slot(None, 0, i));
      freeIndices := new nat[capacity](i => i);
      freeHead, freeTail, usedCount, freeCount := 0, 0, 0, capacity;
      highWaterCount := 0;
      epoch := 1;
      state := Fresh(capacity, maxGeneration, maxEpoch, 1);
    }

    method NextAcquireStatus() returns (status: AcquireStatus)
      requires Valid()
      ensures status == NextStatus(state)
    {
      if freeCount == 0 {
        return Exhausted;
      }
      var index := freeIndices[freeHead];
      assert index == state.free[0] by { assert At(freeHead, 0, slots.Length) == freeHead; }
      return if slots[index].generation == maxGeneration then GenerationExhausted else Acquired;
    }

    method AcquireStatusAfterRelease(first: Handle) returns (status: AcquireStatus)
      requires Valid()
      ensures status == StatusAfterRelease(state, first)
    {
      if freeCount != 0 {
        status := NextAcquireStatus();
        return;
      }
      if !ValidHandle(first) {
        return Exhausted;
      }
      return if slots[first.index].generation == maxGeneration then GenerationExhausted else Acquired;
    }

    /** The handle test the source applies before it touches a slot. */
    predicate ValidHandle(h: Handle)
      requires Valid()
      reads this, slots, freeIndices
      ensures ValidHandle(h) <==> h in state.live
    {
      && h.epoch == epoch
      && h.index < slots.Length
      && h.generation != 0
      && slots[h.index].content.Some?
      && slots[h.index].generation == h.generation
    }

    predicate HasFree()
      requires Valid()
      reads this, slots, freeIndices
      ensures HasFree() <==> state.free != []
    {
      freeCount != 0
    }

    /** A valid handle carries its slot's current generation. */
    lemma LiveHandle(h: Handle)
      requires Valid() && h in state.live
      ensures h.index < |state.gens| && h.generation == state.gens[h.index]
    {
    }

    lemma Maxima()
      requires Valid()
      ensures state.maxGeneration == maxGeneration && state.maxEpoch == maxEpoch
      ensures 1 <= slots.Length == freeIndices.Length == |state.gens| < INVALID_INDEX
      ensures state.epoch == epoch <= maxEpoch
    {
    }

    lemma Counts()
      requires Valid()
      ensures usedCount == |state.live| <= highWaterCount && usedCount + freeCount == slots.Length
    {
    }

    lemma FreeHead()
      requires Valid() && state.free != []
      ensures state.free[0] < |state.gens|
    {
    }

    function Get(h: Handle): (r: Option<T>)
      requires Valid()
      reads this, slots, freeIndices
      ensures r == if h in state.live then Some(state.live[h]) else None
    {
      if ValidHandle(h) then slots[h.index].content else None
    }

    method Acquire(v: T) returns (status: AcquireStatus, h: Handle)
      requires Valid()
      modifies this, slots
      ensures Valid()
      ensures status == NextStatus(old(state))
      ensures status.Acquired? ==> h == NextHandle(old(state)) && state == AfterAcquire(old(state), v)
      ensures status.Acquired? ==> !h.IsInvalid() && h !in old(state).live
      ensures !status.Acquired? ==> h == NULL_HANDLE && state == old(state)
    {
      hide StateInv, RingHolds, VacantKnowsPlace, SlotsHold;
      status := NextAcquireStatus();
      if !status.Acquired? {
        h := NULL_HANDLE;
        return;
      }
      AcquireRepresents(Memory(slots[..], freeIndices[..], freeHead), state, v);
      NextHandleUsable(state);
      var index := freeIndices[freeHead];
      var generation := slots[index].generation + 1;
      slots[index] := Slot(Some(v), generation, INVALID_INDEX);
      freeHead := Next(freeHead, slots.Length);
      freeCount := freeCount - 1;
      usedCount := usedCount + 1;
      if usedCount > highWaterCount {
        highWaterCount := usedCount;
      }
      h := Handle(index, generation, epoch);
      state := AfterAcquire(state, v);
    }

    /** Writing through the pointer that get returned. */
    method Put(h: Handle, v: T)
      requires Valid() && h in state.live
      modifies this, slots
      ensures Valid()
      ensures state == old(state).(live := old(state).live[h := v])
    {
      hide StateInv, RingHolds, VacantKnowsPlace, SlotsHold;
      PutRepresents(Memory(slots[..], freeIndices[..], freeHead), state, h, v);
      slots[h.index] := slots[h.index].(content := Some(v));
      state := state.(live := state.live[h := v]);
    }

    method Release(h: Handle) returns (released: bool)
      requires Valid()
      modifies this, slots, freeIndices
      ensures Valid()
      ensures released <==> h in old(state).live
      ensures state == if released then AfterRelease(old(state), h) else old(state)
    {
      hide StateInv, RingHolds, VacantKnowsPlace, SlotsHold;
      if !ValidHandle(h) {
        return false;
      }
      ReleaseRepresents(Memory(slots[..], freeIndices[..], freeHead), state, h);
      freeIndices[freeTail] := h.index;
      slots[h.index] := slots[h.index].(content := None, freePosition := freeTail);
      freeTail := Next(freeTail, slots.Length);
      freeCount := freeCount + 1;
      usedCount := usedCount - 1;
      state := AfterRelease(state, h);
      released := true;
    }

    /** The free window of the ring, as two cursors and a count describe it. */
    predicate PositionIsFree(position: nat)
      requires Valid() && position < slots.Length
      reads this, slots, freeIndices
      ensures PositionIsFree(position) <==> Off(freeHead, position, slots.Length) < freeCount
    {
      if freeCount == slots.Length then true
      else if freeCount == 0 then false
      else if freeHead < freeTail then freeHead <= position < freeTail
      else position >= freeHead || position < freeTail
    }

    /** The debug check passes: slots and ring point at each other, and the counts add up. */
    method ValidateInvariants() returns (ok: bool)
      requires Valid()
      ensures ok
    {
      hide StateInv, RingHolds, VacantKnowsPlace, SlotsHold;
      ghost var m := Memory(slots[..], freeIndices[..], freeHead);
      CountsFit(m, state);
      ok := 0 < slots.Length < INVALID_INDEX && epoch != 0 && freeHead < slots.Length && freeTail < slots.Length
            && usedCount + freeCount == slots.Length && usedCount <= highWaterCount <= slots.Length
            && freeTail == At(freeHead, freeCount, slots.Length);
      var occupied, index := 0, 0;
      while index < slots.Length && ok
        invariant ok && 0 <= index <= slots.Length
        invariant occupied == |Filled(slots[..], index)|
      {
        SlotFits(m, state, index);
        FilledStep(slots[..], index);
        var slot := slots[index];
        if slot.content.Some? {
          ok := slot.freePosition == INVALID_INDEX && slot.generation != 0;
          occupied := occupied + 1;
        } else {
          ok := slot.freePosition < slots.Length && PositionIsFree(slot.freePosition)
                && freeIndices[slot.freePosition] == index;
        }
        index := index + 1;
      }
      ok := ok && occupied == usedCount;
      var offset := 0;
      while offset < freeCount && ok
        invariant ok && 0 <= offset <= freeCount
      {
        RingFits(m, state, offset);
        var position := At(freeHead, offset, slots.Length);
        var slot := freeIndices[position];
        ok := slot < slots.Length && slots[slot].content.None? && slots[slot].freePosition == position;
        offset := offset + 1;
      }
    }

    predicate CanReset()
      reads this
    {
      epoch != maxEpoch
    }

    /** Every slot free at generation zero, the ring in ascending order. */
    method InitializeEmptyState()
      requires slots.Length == freeIndices.Length
      modifies this`freeHead, this`freeTail, this`usedCount, this`freeCount, slots, freeIndices
      ensures forall k :: 0 <= k < slots.Length ==> slots[k] == Slot(None, 0, k) && freeIndices[k] == k
      ensures freeHead == freeTail == usedCount == 0 && freeCount == slots.Length
    {
      var i := 0;
      while i < slots.Length
        invariant 0 <= i <= slots.Length
        invariant forall k :: 0 <= k < i ==> slots[k] == Slot(None, 0, k) && freeIndices[k] == k
      {
        slots[i] := Slot(None, 0, i);
        freeIndices[i] := i;
        i := i + 1;
      }
      freeHead, freeTail, usedCount, freeCount := 0, 0, 0, slots.Length;
    }

    method Reset() returns (done: bool)
      requires Valid()
      modifies this, slots, freeIndices
      ensures Valid()
      ensures done <==> old(state).epoch < maxEpoch
      ensures state == if done then AfterReset(old(state)) else old(state)
    {
      hide StateInv, RingHolds, VacantKnowsPlace, SlotsHold;
      Maxima();
      if !CanReset() {
        return false;
      }
      epoch := epoch + 1;
      InitializeEmptyState();
      FreshRepresents(Memory(slots[..], freeIndices[..], 0), maxGeneration, maxEpoch, epoch);
      state := AfterReset(state);
      done := true;
    }
  }
}
