/**
  A fixed ring of committed records with one exact reservation at a time.

  OutboxState is what a user of the outbox sees; the ring of slots is proved
  to step exactly like it.
 */
module Outbox {
  import opened Domain
  import opened Ring

  /**
    queue holds the committed records not yet consumed, oldest first. While a
    reservation is active, reserved is its size and staged what has been
    written through it.
   */
  datatype OutboxState<Record> = OutboxState(
    capacity: nat,
    queue: seq<Record>,
    active: bool,
    reserved: nat,
    staged: seq<Record>)
  {
    predicate Inv() {
      && |queue| + reserved <= capacity
      && |staged| <= reserved
      && (!active ==> reserved == 0)
    }

    function Available(): nat
      requires Inv()
    {
      capacity - |queue| - reserved
    }

    predicate CanReserve(count: nat)
      requires Inv()
    {
      !active && count <= Available()
    }

    function Reserve(count: nat): OutboxState<Record> {
      this.(active := true, reserved := count)
    }

    function Write(record: Record): OutboxState<Record> {
      this.(staged := staged + [record])
    }

    function Commit(): OutboxState<Record> {
      OutboxState(capacity, queue + staged, false, 0, [])
    }

    function Abort(): OutboxState<Record> {
      OutboxState(capacity, queue, false, 0, [])
    }

    function Pop(): OutboxState<Record>
      requires queue != []
    {
      this.(queue := queue[1..])
    }
  }

  /** Starting at cursor read, the ring holds records in order. */
  ghost predicate RingHolds<Record>(slots: seq<Record>, read: nat, records: seq<Record>) {
    && read < |slots|
    && |records| <= |slots|
    && forall k :: 0 <= k < |records| ==> slots[At(read, k, |slots|)] == records[k]
  }

  lemma RingAppends<Record>(slots: seq<Record>, read: nat, records: seq<Record>, record: Record)
    requires RingHolds(slots, read, records) && |records| < |slots|
    ensures RingHolds(slots[At(read, |records|, |slots|) := record], read, records + [record])
  {
  }

  lemma RingDrops<Record>(slots: seq<Record>, read: nat, records: seq<Record>)
    requires RingHolds(slots, read, records) && records != []
    ensures slots[read] == records[0]
    ensures RingHolds(slots, Next(read, |slots|), records[1..])
  {
  }

  class LosslessOutbox<Record(0)> {
    const slots: array<Record>
    var readCursor: nat
    var writeCursor: nat
    var publishedCount: nat
    var reservationStart: nat
    var reservedCount: nat
    var reservationActive: bool
    ghost var state: OutboxState<Record>

    ghost predicate Valid()
      reads this, slots
    {
      && state.Inv()
      && IsPowerOfTwo(slots.Length)
      && state.capacity == slots.Length
      && |state.queue| == publishedCount
      && state.reserved == reservedCount
      && state.active == reservationActive
      && RingHolds(slots[..], readCursor, state.queue + state.staged)
      && writeCursor == At(readCursor, publishedCount, slots.Length)
      && (reservationActive ==> reservationStart == writeCursor)
    }

    constructor (capacity: nat)
      requires IsPowerOfTwo(capacity)
      ensures Valid() && fresh(slots)
      ensures state == OutboxState(capacity, [], false, 0, [])
    {
      slots := new Record[capacity];
      readCursor, writeCursor, publishedCount := 0, 0, 0;
      reservationStart, reservedCount, reservationActive := 0, 0, false;
      state := OutboxState(capacity, [], false, 0, []);
    }

    function AvailableCapacity(): (r: nat)
      requires Valid()
      reads this, slots
      ensures r == state.Available()
    {
      slots.Length - publishedCount - reservedCount
    }

    lemma Facts()
      requires Valid()
      ensures state.Inv() && state.capacity == slots.Length
    {
    }

    lemma NothingStaged()
      requires Valid() && !state.active
      ensures state.staged == []
    {
    }

    lemma ReservedCount()
      requires Valid()
      ensures state.reserved == reservedCount && state.active == reservationActive
    {
    }

    /** How many committed records wait. */
    function Size(): (r: nat)
      requires Valid()
      reads this, slots
      ensures r == |state.queue|
    {
      publishedCount
    }

    /** The debug check passes between any two operations. */
    method ValidateInvariants() returns (ok: bool)
      requires Valid()
      ensures ok
    {
      ok := IsPowerOfTwo(slots.Length) && readCursor < slots.Length && writeCursor < slots.Length
            && publishedCount <= slots.Length && reservedCount <= slots.Length - publishedCount
            && writeCursor == At(readCursor, publishedCount, slots.Length);
      ok := ok && (if reservationActive then reservationStart == writeCursor else reservedCount == 0);
    }

    method Reserve(count: nat) returns (reservation: Reservation<Record>)
      requires Valid()
      modifies this
      ensures Valid() && fresh(reservation)
      ensures reservation.outbox == if old(state).CanReserve(count) then this else null
      ensures reservation.outbox == this ==> reservation.Owns() && reservation.written == 0
      ensures reservation.count == if old(state).CanReserve(count) then count else 0
      ensures state == if old(state).CanReserve(count) then old(state).Reserve(count) else old(state)
      ensures !old(state).CanReserve(count) ==> unchanged(this)
    {
      if reservationActive || count > AvailableCapacity() {
        reservation := new Reservation<Record>(null, 0, 0);
        return;
      }
      reservationActive := true;
      reservationStart := writeCursor;
      reservedCount := count;
      state := state.Reserve(count);
      reservation := new Reservation<Record>(this, reservationStart, reservedCount);
    }

    method TryPop() returns (record: Option<Record>)
      requires Valid()
      modifies this
      ensures Valid()
      ensures record == if old(state).queue == [] then None else Some(old(state).queue[0])
      ensures state == if old(state).queue == [] then old(state) else old(state).Pop()
      ensures reservationActive == old(reservationActive)
      ensures reservationStart == old(reservationStart)
    {
      if publishedCount == 0 {
        return None;
      }
      ghost var records := state.queue + state.staged;
      RingDrops(slots[..], readCursor, records);
      assert records[1..] == state.queue[1..] + state.staged;
      record := Some(slots[readCursor]);
      readCursor := Next(readCursor, slots.Length);
      publishedCount := publishedCount - 1;
      state := state.Pop();
    }

    method TryPeek() returns (record: Option<Record>)
      requires Valid()
      ensures record == if state.queue == [] then None else Some(state.queue[0])
    {
      if publishedCount == 0 {
        return None;
      }
      RingDrops(slots[..], readCursor, state.queue + state.staged);
      record := Some(slots[readCursor]);
    }

    method CommitReservation(start: nat, count: nat) returns (done: bool)
      requires Valid()
      requires state.active ==> |state.staged| == state.reserved
      modifies this
      ensures Valid()
      ensures done <==> old(reservationActive && start == reservationStart && count == reservedCount)
      ensures state == if done then old(state).Commit() else old(state)
    {
      if !reservationActive || start != reservationStart || count != reservedCount {
        return false;
      }
      publishedCount := publishedCount + reservedCount;
      writeCursor := At(writeCursor, reservedCount, slots.Length);
      ClearReservation();
      assert state.queue + state.staged + [] == state.queue + state.staged;
      state := state.Commit();
      done := true;
    }

    method AbortReservation(start: nat, count: nat) returns (done: bool)
      requires Valid()
      modifies this
      ensures Valid()
      ensures done <==> old(reservationActive && start == reservationStart && count == reservedCount)
      ensures state == if done then old(state).Abort() else old(state)
    {
      if !reservationActive || start != reservationStart || count != reservedCount {
        return false;
      }
      ClearReservation();
      assert forall k :: 0 <= k < |state.queue| ==> (state.queue + state.staged)[k] == state.queue[k];
      state := state.Abort();
      assert state.queue + state.staged == state.queue;
      done := true;
    }

    method ClearReservation()
      modifies this`reservationActive, this`reservationStart, this`reservedCount
      ensures !reservationActive && reservedCount == 0
    {
      reservationActive := false;
      reservationStart := 0;
      reservedCount := 0;
    }
  }

  class Reservation<Record(0)> {
    var outbox: LosslessOutbox?<Record>
    const start: nat
    const count: nat
    var written: nat

    constructor (outbox: LosslessOutbox?<Record>, start: nat, count: nat)
      ensures this.outbox == outbox && this.start == start && this.count == count && written == 0
    {
      this.outbox, this.start, this.count, this.written := outbox, start, count, 0;
    }

    /** This is the reservation its outbox has outstanding. */
    ghost predicate Owns()
      reads this, outbox
    {
      outbox != null ==>
        && outbox.reservationActive
        && outbox.reservationStart == start
        && outbox.reservedCount == count
        && |outbox.state.staged| == written
    }

    method Write(record: Record) returns (done: bool)
      requires outbox != null ==> outbox.Valid() && Owns()
      modifies this`written
      modifies if outbox != null then {outbox, outbox.slots} else {}
      ensures done <==> outbox != null && old(written) < count
      ensures outbox != null ==> outbox.Valid() && Owns()
      ensures done ==> outbox.state == old(outbox.state).Write(record) && written == old(written) + 1
      ensures outbox != null && !done ==> outbox.state == old(outbox.state)
      ensures !done ==> written == old(written)
    {
      if outbox == null || written >= count {
        return false;
      }
      ghost var records := outbox.state.queue + outbox.state.staged;
      ghost var n := outbox.slots.Length;
      assert At(start, written, n) == At(outbox.readCursor, |records|, n);
      RingAppends(outbox.slots[..], outbox.readCursor, records, record);
      outbox.slots[At(start, written, outbox.slots.Length)] := record;
      written := written + 1;
      outbox.state := outbox.state.Write(record);
      assert outbox.state.queue + outbox.state.staged == records + [record];
      done := true;
    }

    method Commit() returns (done: bool)
      requires outbox != null ==> outbox.Valid() && Owns()
      modifies this`outbox
      modifies if outbox != null then {outbox} else {}
      ensures done <==> old(outbox) != null && written == count
      ensures done ==> outbox == null && old(outbox).Valid() && old(outbox).state == old(outbox.state).Commit()
      ensures !done ==> outbox == old(outbox)
      ensures !done && outbox != null ==> outbox.Valid() && Owns() && outbox.state == old(outbox.state)
    {
      if outbox == null || written != count {
        return false;
      }
      done := outbox.CommitReservation(start, count);
      outbox := null;
    }

    /** Also what the destructor does with a reservation that was not committed. */
    method Abort() returns (done: bool)
      requires outbox != null ==> outbox.Valid() && Owns()
      modifies this`outbox
      modifies if outbox != null then {outbox} else {}
      ensures done <==> old(outbox) != null
      ensures outbox == null
      ensures done ==> old(outbox).Valid() && old(outbox).state == old(outbox.state).Abort()
    {
      if outbox == null {
        return false;
      }
      done := outbox.AbortReservation(start, count);
      outbox := null;
    }
  }
}
