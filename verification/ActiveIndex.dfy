/**
  The active-ID table: open addressing with linear probing and backward-shift
  deletion, proved to be a finite map for every hash function.
 */
module ActiveIndex {
  import opened Domain
  import opened Ring
  import opened Pool

  datatype Entry = Vacant | Taken(orderId: OrderId, link: Handle)

  type Hash = OrderId -> nat

  function Home(hash: Hash, id: OrderId, n: nat): (r: nat)
    requires n >= 1
    ensures r < n
  {
    hash(id) % n
  }

  /** Number of occupied entries. */
  function Occupied(es: seq<Entry>): (r: nat)
    ensures r <= |es|
  {
    if es == [] then 0
    else (if es[0].Taken? then 1 else 0) + Occupied(es[1..])
  }

  lemma OccupiedUpdate(es: seq<Entry>, i: nat, e: Entry)
    requires i < |es|
    ensures Occupied(es[i := e]) ==
            Occupied(es) - (if es[i].Taken? then 1 else 0) + (if e.Taken? then 1 else 0)
  {
    if i > 0 {
      assert es[i := e][1..] == es[1..][i - 1 := e];
      OccupiedUpdate(es[1..], i - 1, e);
    } else {
      assert es[i := e][1..] == es[1..];
    }
  }

  lemma HasVacancy(es: seq<Entry>) returns (v: nat)
    requires Occupied(es) < |es|
    ensures v < |es| && es[v].Vacant?
  {
    if es[0].Vacant? {
      v := 0;
    } else {
      v := HasVacancy(es[1..]);
      v := v + 1;
    }
  }

  ghost predicate Stored(es: seq<Entry>, id: OrderId, link: Handle) {
    exists p :: 0 <= p < |es| && es[p] == Taken(id, link)
  }

  /** The occupied entries are exactly the pairs of m, each key once. */
  ghost predicate Exact(es: seq<Entry>, m: map<OrderId, Handle>) {
    && (forall p :: 0 <= p < |es| && es[p].Taken? ==>
          es[p].orderId in m && m[es[p].orderId] == es[p].link)
    && (forall p, q ::
          0 <= p < |es| && 0 <= q < |es| && es[p].Taken? && es[q].Taken? && p != q ==>
          es[p].orderId != es[q].orderId)
    && (forall id :: id in m ==> Stored(es, id, m[id]))
  }

  /** Position q lies before p on the probe path that starts at h. */
  predicate OnPath(h: nat, q: nat, p: nat, n: nat)
    requires h < n && q < n && p < n
  {
    Off(h, q, n) < Off(h, p, n)
  }

  /** A probe for the key at p meets no vacancy before p. */
  ghost predicate Reachable(hash: Hash, es: seq<Entry>, p: nat)
    requires p < |es| && es[p].Taken?
  {
    forall q :: 0 <= q < |es| && OnPath(Home(hash, es[p].orderId, |es|), q, p, |es|) ==> es[q].Taken?
  }

  ghost predicate AllReachable(hash: Hash, es: seq<Entry>) {
    forall p :: 0 <= p < |es| && es[p].Taken? ==> Reachable(hash, es, p)
  }

  /** Every entry before p on the path from home is occupied by another key. */
  ghost predicate Probed(es: seq<Entry>, home: nat, p: nat, id: OrderId)
    requires home < |es| && p < |es|
  {
    forall q :: 0 <= q < |es| && OnPath(home, q, p, |es|) ==> es[q].Taken? && es[q].orderId != id
  }

  /** A probe that reaches a vacancy, or goes round, has shown the key absent. */
  lemma ProbeMisses(hash: Hash, es: seq<Entry>, m: map<OrderId, Handle>, id: OrderId, p: nat)
    requires p < |es| && Exact(es, m) && AllReachable(hash, es)
    requires Probed(es, Home(hash, id, |es|), p, id)
    requires es[p].Vacant? || (es[p].orderId != id && Off(Home(hash, id, |es|), p, |es|) == |es| - 1)
    ensures id !in m
  {
  }

  lemma ProbeStarts(es: seq<Entry>, home: nat, id: OrderId)
    requires home < |es|
    ensures Probed(es, home, home, id)
  {
  }

  lemma ExactAt(es: seq<Entry>, m: map<OrderId, Handle>, p: nat)
    requires Exact(es, m) && p < |es| && es[p].Taken?
    ensures es[p].orderId in m && m[es[p].orderId] == es[p].link
  {
  }

  /** One more probe past an entry taken by another key. */
  lemma ProbeAdvances(es: seq<Entry>, home: nat, p: nat, id: OrderId)
    requires home < |es| && p < |es| && Off(home, p, |es|) + 1 < |es|
    requires Probed(es, home, p, id) && es[p].Taken? && es[p].orderId != id
    ensures Off(home, Next(p, |es|), |es|) == Off(home, p, |es|) + 1
    ensures Probed(es, home, Next(p, |es|), id)
  {
  }

  lemma ExactAdd(es: seq<Entry>, m: map<OrderId, Handle>, p: nat, id: OrderId, link: Handle)
    requires Exact(es, m) && p < |es| && es[p].Vacant? && id !in m
    ensures Exact(es[p := Taken(id, link)], m[id := link])
    ensures |m[id := link]| == |m| + 1
  {
    var es' := es[p := Taken(id, link)];
    var m' := m[id := link];
    forall i | i in m'
      ensures Stored(es', i, m'[i])
    {
      if i == id {
        assert es'[p] == Taken(id, link);
      } else {
        var q :| 0 <= q < |es| && es[q] == Taken(i, m[i]);
        assert es'[q] == es[q];
      }
    }
  }

  lemma ExactRemove(es: seq<Entry>, m: map<OrderId, Handle>, p: nat)
    requires Exact(es, m) && p < |es| && es[p].Taken?
    ensures Exact(es[p := Vacant], m - {es[p].orderId})
    ensures |m - {es[p].orderId}| == |m| - 1
  {
    var id := es[p].orderId;
    var es', m' := es[p := Vacant], m - {id};
    assert m'.Keys == m.Keys - {id};
    forall i | i in m'
      ensures Stored(es', i, m'[i])
    {
      assert Stored(es, i, m[i]);
      var q :| 0 <= q < |es| && es[q] == Taken(i, m[i]);
      assert es'[q] == es[q];
    }
  }

  lemma ReachableAdd(hash: Hash, es: seq<Entry>, p: nat, id: OrderId, link: Handle)
    requires p < |es| && es[p].Vacant? && AllReachable(hash, es)
    requires Probed(es, Home(hash, id, |es|), p, id)
    ensures AllReachable(hash, es[p := Taken(id, link)])
  {
  }

  /** The first vacancy at or after c, which is no further from g than v is. */
  lemma FirstVacancy(es: seq<Entry>, g: nat, c: nat, v: nat) returns (stop: nat)
    requires g < |es| && c < |es| && v < |es| && es[v].Vacant?
    requires Off(g, c, |es|) <= Off(g, v, |es|)
    ensures stop < |es| && es[stop].Vacant?
    ensures Off(g, c, |es|) <= Off(g, stop, |es|)
    ensures forall q :: 0 <= q < |es| && Off(g, c, |es|) <= Off(g, q, |es|) < Off(g, stop, |es|) ==> es[q].Taken?
    decreases Off(g, v, |es|) - Off(g, c, |es|)
  {
    if es[c].Vacant? {
      stop := c;
    } else {
      assert c != v;
      stop := FirstVacancy(es, g, Next(c, |es|), v);
      forall q | 0 <= q < |es| && Off(g, c, |es|) <= Off(g, q, |es|) < Off(g, stop, |es|)
        ensures es[q].Taken?
      {
        assert q != c ==> Off(g, Next(c, |es|), |es|) <= Off(g, q, |es|);
      }
    }
  }

  /**
    Where erase stands: g is the gap it opened, c the next entry to move and
    stop the vacancy that ends the cluster. Only entries still to be moved can
    have a vacancy on their probe path, and only one that erase left behind.
   */
  ghost predicate Repairing(hash: Hash, es: seq<Entry>, g: nat, c: nat, stop: nat) {
    && g < |es| && c < |es| && stop < |es|
    && 1 <= Off(g, c, |es|) <= Off(g, stop, |es|)
    && es[stop].Vacant?
    && Pending(es, g, c, stop)
    && forall p, q ::
         0 <= p < |es| && 0 <= q < |es| && Broken(hash, es, p, q) ==>
         Off(g, c, |es|) <= Off(g, p, |es|) < Off(g, stop, |es|) && Off(g, q, |es|) < Off(g, c, |es|)
  }

  /** The entries from c up to stop are all still there. */
  ghost predicate Pending(es: seq<Entry>, g: nat, c: nat, stop: nat)
    requires g < |es| && c < |es| && stop < |es|
  {
    forall q :: 0 <= q < |es| && Off(g, c, |es|) <= Off(g, q, |es|) < Off(g, stop, |es|) ==> es[q].Taken?
  }

  /** The vacancy q cuts the probe path of the entry at p. */
  ghost predicate Broken(hash: Hash, es: seq<Entry>, p: nat, q: nat)
    requires p < |es| && q < |es|
  {
    es[p].Taken? && es[q].Vacant? && OnPath(Home(hash, es[p].orderId, |es|), q, p, |es|)
  }

  lemma RepairStarts(hash: Hash, es: seq<Entry>, g: nat) returns (stop: nat)
    requires g < |es| && es[g].Taken? && AllReachable(hash, es)
    requires 2 * Occupied(es) <= |es|
    ensures Repairing(hash, es[g := Vacant], g, Next(g, |es|), stop)
  {
    var n := |es|;
    var v := HasVacancy(es);
    var es' := es[g := Vacant];
    stop := FirstVacancy(es', g, Next(g, n), v);
    forall p, q | 0 <= p < n && 0 <= q < n && Broken(hash, es', p, q)
      ensures 1 <= Off(g, p, n) < Off(g, stop, n) && Off(g, q, n) < 1
    {
      assert Reachable(hash, es, p);
      assert q == g;
      assert !OnPath(Home(hash, es[p].orderId, n), stop, p, n);
    }
  }

  /** The moved entry never lands past the position it came from. */
  lemma LandsBefore(hash: Hash, es: seq<Entry>, g: nat, c: nat, stop: nat, y: nat)
    requires Repairing(hash, es, g, c, stop) && es[c].Taken?
    requires y < |es| && es[c := Vacant][y].Vacant?
    requires Probed(es[c := Vacant], Home(hash, es[c].orderId, |es|), y, es[c].orderId)
    ensures y == c || (es[y].Vacant? && Off(g, y, |es|) < Off(g, c, |es|))
  {
    var home := Home(hash, es[c].orderId, |es|);
    assert !OnPath(home, c, y, |es|);
    assert y != c ==> Broken(hash, es, c, y);
  }

  /** A path cut by the moved entry's old place belongs to an entry still to be moved. */
  lemma CutAhead(hash: Hash, es: seq<Entry>, g: nat, c: nat, stop: nat, p: nat)
    requires Repairing(hash, es, g, c, stop) && es[c].Taken?
    requires p < |es| && p != c && es[p].Taken?
    requires OnPath(Home(hash, es[p].orderId, |es|), c, p, |es|)
    ensures Off(g, c, |es|) < Off(g, p, |es|) < Off(g, stop, |es|)
  {
    assert c != stop;
    assert !Broken(hash, es, p, stop);
  }

  lemma RepairStep(hash: Hash, es: seq<Entry>, g: nat, c: nat, stop: nat, y: nat)
    requires Repairing(hash, es, g, c, stop) && es[c].Taken?
    requires y < |es| && es[c := Vacant][y].Vacant?
    requires Probed(es[c := Vacant], Home(hash, es[c].orderId, |es|), y, es[c].orderId)
    ensures Repairing(hash, es[c := Vacant][y := es[c]], g, Next(c, |es|), stop)
  {
    var n, x, next := |es|, es[c], Next(c, |es|);
    LandsBefore(hash, es, g, c, stop, y);
    RepairOpen(hash, es, g, c, stop);
    var es' := es[c := Vacant][y := x];
    assert Pending(es', g, next, stop);
    forall p, q | 0 <= p < n && 0 <= q < n && Broken(hash, es', p, q)
      ensures Off(g, next, n) <= Off(g, p, n) < Off(g, stop, n) && Off(g, q, n) < Off(g, next, n)
    {
      assert p != y;
      assert es'[p] == es[p] && p != c;
      if q == c {
        CutAhead(hash, es, g, c, stop, p);
      } else {
        assert Broken(hash, es, p, q);
      }
    }
  }

  lemma RepairEnds(hash: Hash, es: seq<Entry>, g: nat, c: nat, stop: nat)
    requires Repairing(hash, es, g, c, stop) && es[c].Vacant?
    ensures AllReachable(hash, es)
  {
    forall p | 0 <= p < |es| && es[p].Taken?
      ensures Reachable(hash, es, p)
    {
      assert forall q :: 0 <= q < |es| ==> !Broken(hash, es, p, q);
    }
  }

  lemma RepairOpen(hash: Hash, es: seq<Entry>, g: nat, c: nat, stop: nat)
    requires Repairing(hash, es, g, c, stop) && es[c].Taken?
    ensures c != stop && Off(g, Next(c, |es|), |es|) == Off(g, c, |es|) + 1
  {
  }

  lemma VacancyAhead(es: seq<Entry>, home: nat, p: nat, v: nat, id: OrderId)
    requires home < |es| && p < |es| && v < |es| && es[v].Vacant? && es[p].Taken?
    requires Probed(es, home, p, id)
    ensures Off(home, p, |es|) < Off(home, v, |es|)
  {
  }

  lemma InsertLands(hash: Hash, es: seq<Entry>, m: map<OrderId, Handle>, p: nat, id: OrderId, link: Handle)
    requires Exact(es, m) && p < |es| && es[p].Vacant?
    requires Probed(es, Home(hash, id, |es|), p, id)
    requires AllReachable(hash, es) || id !in m
    ensures id !in m
    ensures Exact(es[p := Taken(id, link)], m[id := link])
    ensures |m[id := link]| == |m| + 1
    ensures AllReachable(hash, es) ==> AllReachable(hash, es[p := Taken(id, link)])
  {
    hide Exact, AllReachable, Probed;
    if AllReachable(hash, es) {
      ProbeMisses(hash, es, m, id, p);
      ReachableAdd(hash, es, p, id, link);
    }
    ExactAdd(es, m, p, id, link);
  }

  lemma OccupiedStep(es: seq<Entry>, i: nat)
    requires i < |es|
    ensures Occupied(es[i..]) == (if es[i].Taken? then 1 else 0) + Occupied(es[i + 1..])
  {
  }

  lemma OccupiedEnd(es: seq<Entry>)
    ensures Occupied(es[|es|..]) == 0
  {
  }

  lemma {:induction false} NoneOccupied(es: seq<Entry>)
    requires forall p :: 0 <= p < |es| ==> es[p].Vacant?
    ensures Occupied(es) == 0
  {
    if es == [] {
    } else {
      NoneOccupied(es[1..]);
    }
  }

  class ActiveOrderIndex {
    const hash: Hash
    const entries: array<Entry>
    var size: nat
    ghost var contents: map<OrderId, Handle>

    /** What holds even while erase is moving entries. */
    ghost predicate Sound()
      reads this, entries
    {
      && entries.Length >= 2 && IsPowerOfTwo(entries.Length)
      && size == Occupied(entries[..]) == |contents|
      && Exact(entries[..], contents)
      && (forall id :: id in contents ==> IsValid(id) && !contents[id].IsInvalid())
    }

    ghost predicate Valid()
      reads this, entries
    {
      && Sound()
      && size * 2 <= entries.Length
      && AllReachable(hash, entries[..])
    }

    lemma EvenLength()
      requires Sound()
      ensures entries.Length % 2 == 0
    {
    }

    function Size(): (r: nat)
      requires Valid()
      reads this, entries
      ensures r == |contents| && 2 * r <= entries.Length
    {
      size
    }

    constructor (maximumEntries: nat, hash: Hash)
      ensures Valid() && contents == map[] && this.hash == hash
      ensures fresh(entries) && entries.Length >= 2 * maximumEntries
    {
      var target := if maximumEntries * 2 < 2 then 2 else maximumEntries * 2;
      var capacity := 2;
      while capacity < target
        invariant 2 <= capacity && IsPowerOfTwo(capacity)
        decreases target - capacity
      {
        assert IsPowerOfTwo(capacity * 2) by { assert capacity * 2 / 2 == capacity; }
        capacity := capacity * 2;
      }
      this.hash := hash;
      entries := new Entry[capacity](_ => Vacant);
      size := 0;
      contents := map[];
      new;
      NoneOccupied(entries[..]);
    }

    /** The position of the key, or the capacity when it is absent. */
    method FindPosition(id: OrderId) returns (position: nat)
      requires Valid()
      ensures id in contents ==> position < entries.Length && entries[position] == Taken(id, contents[id])
      ensures id !in contents ==> position == entries.Length
    {
      hide Exact, AllReachable, Probed, IsPowerOfTwo;
      ghost var es := entries[..];
      ghost var home := Home(hash, id, entries.Length);
      ProbeStarts(es, home, id);
      position := Home(hash, id, entries.Length);
      var probe := 0;
      while probe < entries.Length
        invariant 0 <= probe <= entries.Length
        invariant position < entries.Length
        invariant probe < entries.Length ==> Off(home, position, entries.Length) == probe
        invariant probe < entries.Length ==> Probed(es, home, position, id)
        invariant probe == entries.Length ==> id !in contents
      {
        if entries[position].Vacant? {
          ProbeMisses(hash, es, contents, id, position);
          return entries.Length;
        }
        if entries[position].orderId == id {
          ExactAt(es, contents, position);
          return;
        }
        if probe + 1 == entries.Length {
          ProbeMisses(hash, es, contents, id, position);
        } else {
          ProbeAdvances(es, home, position, id);
        }
        position := Next(position, entries.Length);
        probe := probe + 1;
      }
      position := entries.Length;
    }

    method Find(id: OrderId) returns (link: Option<Handle>)
      requires Valid()
      ensures link == if id in contents then Some(contents[id]) else None
    {
      var position := FindPosition(id);
      if position == entries.Length {
        return None;
      }
      return Some(entries[position].link);
    }

    /** Fills the vacancy the key's probe path leads to. */
    method Occupy(at: nat, id: OrderId, link: Handle)
      requires Sound() && at < entries.Length && entries[at].Vacant?
      requires Probed(entries[..], Home(hash, id, entries.Length), at, id)
      requires AllReachable(hash, entries[..]) || id !in contents
      requires IsValid(id) && !link.IsInvalid()
      modifies this, entries
      ensures Sound() && id !in old(contents)
      ensures contents == old(contents)[id := link] && size == old(size) + 1
      ensures entries[..] == old(entries[..])[at := Taken(id, link)]
      ensures old(AllReachable(hash, entries[..])) ==> AllReachable(hash, entries[..])
    {
      hide Exact, AllReachable, Probed, Occupied, IsPowerOfTwo;
      OccupiedUpdate(entries[..], at, Taken(id, link));
      InsertLands(hash, entries[..], contents, at, id, link);
      entries[at] := Taken(id, link);
      size := size + 1;
      contents := contents[id := link];
    }

    /** Walks the key's probe path to the key, or to the first vacancy. */
    method Probe(id: OrderId, link: Handle) returns (known: bool, at: nat)
      requires Sound() && size * 2 < entries.Length
      requires AllReachable(hash, entries[..]) || id !in contents
      ensures at < entries.Length && (known <==> id in contents)
      ensures !known ==> entries[at].Vacant? && Probed(entries[..], Home(hash, id, entries.Length), at, id)
    {
      hide Exact, AllReachable, Probed, Occupied, IsPowerOfTwo;
      ghost var es := entries[..];
      ghost var home := Home(hash, id, entries.Length);
      ghost var vacancy := HasVacancy(es);
      ProbeStarts(es, home, id);
      at := Home(hash, id, entries.Length);
      var probe := 0;
      while probe < entries.Length
        invariant 0 <= probe <= Off(home, vacancy, entries.Length)
        invariant at < entries.Length && Off(home, at, entries.Length) == probe
        invariant Probed(es, home, at, id)
      {
        if entries[at].Vacant? {
          InsertLands(hash, es, contents, at, id, link);
          return false, at;
        }
        if entries[at].orderId == id {
          ExactAt(es, contents, at);
          return true, at;
        }
        VacancyAhead(es, home, at, vacancy, id);
        ProbeAdvances(es, home, at, id);
        at := Next(at, entries.Length);
        probe := probe + 1;
      }
      assert false;
    }

    /** Takes the first vacancy on the key's probe path; position is where. */
    method Insert(id: OrderId, link: Handle) returns (inserted: bool, ghost position: nat)
      requires Sound()
      requires AllReachable(hash, entries[..]) || id !in contents
      modifies this, entries
      ensures Sound()
      ensures inserted <==>
              IsValid(id) && !link.IsInvalid() && old(size) * 2 < entries.Length && id !in old(contents)
      ensures inserted ==>
              && contents == old(contents)[id := link]
              && size == old(size) + 1
              && position < entries.Length
              && old(entries[..])[position].Vacant?
              && Probed(old(entries[..]), Home(hash, id, entries.Length), position, id)
              && entries[..] == old(entries[..])[position := Taken(id, link)]
      ensures !inserted ==>
              contents == old(contents) && entries[..] == old(entries[..]) && size == old(size)
      ensures old(AllReachable(hash, entries[..])) ==> AllReachable(hash, entries[..])
      ensures old(Valid()) ==> Valid()
    {
      hide Exact, AllReachable, Probed, Occupied, IsPowerOfTwo, Off;
      EvenLength();
      if !IsValid(id) || link.IsInvalid() || size * 2 >= entries.Length {
        return false, 0;
      }
      var known, at := Probe(id, link);
      if known {
        return false, 0;
      }
      Occupy(at, id, link);
      return true, at;
    }

    /** Empties the key's bucket and moves the rest of its cluster back. */
    method Erase(id: OrderId) returns (erased: bool)
      requires Valid()
      modifies this, entries
      ensures Valid()
      ensures erased <==> id in old(contents)
      ensures contents == old(contents) - {id}
    {
      hide Exact, AllReachable, Occupied, Repairing, Probed, IsPowerOfTwo;
      var position: nat := FindPosition(id);
      if position == entries.Length {
        assert contents == contents - {id};
        return false;
      }
      ghost var gap := position;
      ghost var stop := RepairStarts(hash, entries[..], gap);
      Vacate(position);
      position := Next(position, entries.Length);
      while entries[position].Taken?
        invariant position < entries.Length && gap < entries.Length
        invariant Sound() && contents == old(contents) - {id}
        invariant size * 2 < entries.Length
        invariant Repairing(hash, entries[..], gap, position, stop)
        decreases entries.Length - Off(gap, position, entries.Length)
      {
        MoveBack(gap, position, stop);
        position := Next(position, entries.Length);
      }
      RepairEnds(hash, entries[..], gap, position, stop);
      erased := true;
    }

    /** Takes out the entry at position and inserts it again. */
    method MoveBack(ghost gap: nat, position: nat, ghost stop: nat)
      requires Sound() && size * 2 < entries.Length
      requires gap < entries.Length && position < entries.Length && entries[position].Taken?
      requires Repairing(hash, entries[..], gap, position, stop)
      modifies this, entries
      ensures Sound() && size == old(size) && contents == old(contents)
      ensures Repairing(hash, entries[..], gap, Next(position, entries.Length), stop)
      ensures Off(gap, Next(position, entries.Length), entries.Length) == Off(gap, position, entries.Length) + 1
    {
      hide Exact, AllReachable, Occupied, Repairing, Probed, IsPowerOfTwo;
      ghost var es := entries[..];
      var displaced := entries[position];
      RepairOpen(hash, es, gap, position, stop);
      ExactAt(es, contents, position);
      Vacate(position);
      var inserted;
      ghost var landed;
      inserted, landed := Insert(displaced.orderId, displaced.link);
      assert inserted;
      RepairStep(hash, es, gap, position, stop, landed);
    }

    /** Clears one occupied entry. */
    method Vacate(position: nat)
      requires Sound() && position < entries.Length && entries[position].Taken?
      modifies this, entries
      ensures Sound()
      ensures entries[..] == old(entries[..])[position := Vacant]
      ensures contents == old(contents) - {old(entries[position]).orderId}
      ensures size == old(size) - 1
    {
      hide Exact, Occupied, IsPowerOfTwo;
      OccupiedUpdate(entries[..], position, Vacant);
      ExactRemove(entries[..], contents, position);
      contents := contents - {entries[position].orderId};
      entries[position] := Vacant;
      size := size - 1;
    }

    /** The debug check passes: every entry is where a search for its key ends. */
    method ValidateInvariants() returns (ok: bool)
      requires Valid()
      ensures ok
    {
      hide AllReachable, Occupied, IsPowerOfTwo;
      ghost var es := entries[..];
      ok := entries.Length >= 2 && IsPowerOfTwo(entries.Length) && size * 2 <= entries.Length;
      var occupied, index := 0, 0;
      assert es[0..] == es;
      while index < entries.Length && ok
        invariant ok && 0 <= index <= entries.Length
        invariant occupied + Occupied(es[index..]) == Occupied(es)
      {
        OccupiedStep(es, index);
        if entries[index].Taken? {
          var position := FindPosition(entries[index].orderId);
          ok := IsValid(entries[index].orderId) && !entries[index].link.IsInvalid() && position == index;
          occupied := occupied + 1;
        }
        index := index + 1;
      }
      OccupiedEnd(es);
      ok := ok && occupied == size;
    }

    method Clear()
      requires Valid()
      modifies this, entries
      ensures Valid() && contents == map[]
    {
      var index := 0;
      while index < entries.Length
        modifies entries
        invariant 0 <= index <= entries.Length
        invariant forall p :: 0 <= p < index ==> entries[p].Vacant?
      {
        entries[index] := Vacant;
        index := index + 1;
      }
      size := 0;
      contents := map[];
      NoneOccupied(entries[..]);
    }
  }
}
