/** The hash tables from thread ids to implicit producers (`get_or_add_implicit_producer` in
    concurrentqueue.hpp), one call at a time. A table is filled by linear probing from the hash of the
    id; when it gets too full a larger one is put in front of it, and ids move over when they are
    looked up again. */
module ImplicitTable {
  import opened Basics
  import opened Index

  const INITIAL_SIZE: nat := 32

  datatype Slot<P> = Free | Taken(id: nat, producer: P)

  type Hash = nat -> nat

  // ----- Linear probing -----

  /** The slot `d` steps on from where the probe of `id` starts. A capacity is a power of two, so
      the mask is the remainder. */
  function At(hash: Hash, id: nat, d: nat, capacity: nat): (j: nat)
    requires d <= capacity && capacity > 0
    ensures j < capacity
  {
    var start := hash(id) % capacity;
    if start + d < capacity then start + d else start + d - capacity
  }

  /** How far slot `j` is from where the probe of `id` starts. */
  function Distance(hash: Hash, id: nat, j: nat, capacity: nat): (d: nat)
    requires j < capacity
    ensures d < capacity && At(hash, id, d, capacity) == j
  {
    var start := hash(id) % capacity;
    if start <= j then j - start else j + capacity - start
  }

  ghost predicate Has<P>(s: seq<Slot<P>>, id: nat)
  {
    exists j :: 0 <= j < |s| && s[j].Taken? && s[j].id == id
  }

  /** No id twice, and no free slot between where a probe starts and where the id is. */
  ghost predicate Probed<P>(s: seq<Slot<P>>, hash: Hash)
  {
    && |s| > 0
    && (forall i, j | 0 <= i < j < |s| && s[i].Taken? && s[j].Taken? :: s[i].id != s[j].id)
    && (forall j, d | 0 <= j < |s| && s[j].Taken? && 0 <= d < Distance(hash, s[j].id, j, |s|) ::
          s[At(hash, s[j].id, d, |s|)].Taken?)
  }

  /** The probe of `id` ends `d` steps on: at the id or at a free slot, after other ids. */
  ghost predicate EndsAt<P>(s: seq<Slot<P>>, hash: Hash, id: nat, d: nat)
    requires |s| > 0 && d < |s|
  {
    var end := s[At(hash, id, d, |s|)];
    && (end.Taken? ==> end.id == id)
    && (forall e | 0 <= e < d :: var slot := s[At(hash, id, e, |s|)]; slot.Taken? && slot.id != id)
  }

  /** A probe ends at the id exactly if the table has it. */
  lemma ProbeFinds<P>(s: seq<Slot<P>>, hash: Hash, id: nat, d: nat)
    requires Probed(s, hash) && d < |s| && EndsAt(s, hash, id, d)
    ensures Has(s, id) <==> s[At(hash, id, d, |s|)].Taken?
  {
    if Has(s, id) {
      var j :| 0 <= j < |s| && s[j].Taken? && s[j].id == id;
      var dj := Distance(hash, id, j, |s|);
      if d < dj {
        assert s[At(hash, s[j].id, d, |s|)].Taken?;
      }
    }
  }

  lemma AtInjective(hash: Hash, id: nat, capacity: nat)
    requires capacity > 0
    ensures forall d, e | 0 <= d < capacity && 0 <= e < capacity ::
              At(hash, id, d, capacity) == At(hash, id, e, capacity) ==> d == e
  {
  }

  /** Taking the free slot where the probe of a new id ends keeps every id within reach. */
  lemma ProbedAfterTaking<P>(s: seq<Slot<P>>, hash: Hash, id: nat, d: nat, p: P)
    requires Probed(s, hash) && d < |s| && EndsAt(s, hash, id, d) && s[At(hash, id, d, |s|)].Free?
    ensures Probed(s[At(hash, id, d, |s|) := Taken(id, p)], hash)
    ensures forall k :: Has(s[At(hash, id, d, |s|) := Taken(id, p)], k) <==> Has(s, k) || k == id
  {
    ProbeFinds(s, hash, id, d);
    var at := At(hash, id, d, |s|);
    var s' := s[at := Taken(id, p)];
    assert forall j | 0 <= j < |s| && s[j].Taken? :: s'[j] == s[j];
    assert forall j | 0 <= j < |s'| && s'[j].Taken? && j != at :: s[j].Taken? && s[j].id == s'[j].id;
    AtInjective(hash, id, |s|);
    forall k ensures Has(s', k) <==> Has(s, k) || k == id {
      if Has(s, k) {
        var j :| 0 <= j < |s| && s[j].Taken? && s[j].id == k;
        assert s'[j].Taken? && s'[j].id == k;
      }
      if k == id {
        assert s'[at].Taken? && s'[at].id == id;
      }
    }
  }

  function Occupied<P>(s: seq<Slot<P>>): (n: nat)
    ensures n <= |s|
  {
    if s == [] then 0 else Occupied(s[..|s| - 1]) + if s[|s| - 1].Taken? then 1 else 0
  }

  /** Different ids in the slots: no more slots are taken than there are ids. */
  lemma {:induction false} OccupiedAtMost<P>(s: seq<Slot<P>>, ids: set<nat>)
    requires forall i, j | 0 <= i < j < |s| && s[i].Taken? && s[j].Taken? :: s[i].id != s[j].id
    requires forall j | 0 <= j < |s| && s[j].Taken? :: s[j].id in ids
    ensures Occupied(s) <= |ids|
  {
    if s != [] {
      var last := s[|s| - 1];
      OccupiedAtMost(s[..|s| - 1], if last.Taken? then ids - {last.id} else ids);
    }
  }

  lemma {:induction false} FreeSlot<P>(s: seq<Slot<P>>)
    requires Occupied(s) < |s|
    ensures exists j :: 0 <= j < |s| && s[j].Free?
  {
    if s[|s| - 1].Taken? {
      FreeSlot(s[..|s| - 1]);
      var j :| 0 <= j < |s| - 1 && s[..|s| - 1][j].Free?;
      assert s[j].Free?;
    } else {
      assert s[|s| - 1].Free?;
    }
  }

  lemma {:induction false} OccupiedNone<P>(s: seq<Slot<P>>)
    requires forall j | 0 <= j < |s| :: s[j].Free?
    ensures Occupied(s) == 0
  {
    if s != [] {
      OccupiedNone(s[..|s| - 1]);
    }
  }

  lemma NextSlot(at: nat, capacity: nat)
    requires at < capacity
    ensures (at + 1) % capacity == if at + 1 == capacity then 0 else at + 1
  {
    if at + 1 == capacity {
      ModUnique(at + 1, capacity, 1, 0);
    } else {
      ModUnique(at + 1, capacity, 0, at + 1);
    }
  }

  /** A table of the producers in `owner`, with a free slot. */
  ghost predicate Serves<P>(s: seq<Slot<P>>, hash: Hash, owner: map<nat, P>)
  {
    && Probed(s, hash) && Occupied(s) < |s|
    && forall j | 0 <= j < |s| && s[j].Taken? :: s[j].id in owner && owner[s[j].id] == s[j].producer
  }

  /** The probing loop. It ends because some slot is free. */
  method Probe<P>(a: array<Slot<P>>, hash: Hash, id: nat, ghost owner: map<nat, P>) returns (at: nat)
    requires Serves(a[..], hash, owner)
    ensures at < a.Length && (Has(a[..], id) <==> a[at].Taken?)
    ensures a[at].Taken? ==> id in owner && a[at] == Taken(id, owner[id])
  {
    FreeSlot(a[..]);
    ghost var d: nat;
    ghost var free :| 0 <= free < a.Length && a[free].Free?;
    ghost var last := Distance(hash, id, free, a.Length);
    d := 0;
    at := hash(id) % a.Length;
    while true
      invariant d <= last && at == At(hash, id, d, a.Length)
      invariant forall e | 0 <= e < d :: var slot := a[At(hash, id, e, a.Length)]; slot.Taken? && slot.id != id
      decreases last - d
    {
      if a[at].Free? || a[at].id == id {
        break;
      }
      d := d + 1;
      NextSlot(at, a.Length);
      at := (at + 1) % a.Length;
    }
    ProbeFinds(a[..], hash, id, d);
    assert a[..][at] == a[at];
  }

  /** No table has more entries than there are producers. */
  lemma EntriesAtMostOwners<P>(s: seq<Slot<P>>, hash: Hash, owner: map<nat, P>)
    requires Serves(s, hash, owner)
    ensures Occupied(s) <= |owner|
  {
    OccupiedAtMost(s, owner.Keys);
    assert |owner.Keys| == |owner|;
  }

  /** The entry of an id that the table lacks, in a table with room for all producers. */
  lemma ServesAfterTaking<P>(s: seq<Slot<P>>, hash: Hash, owner: map<nat, P>, id: nat, d: nat)
    requires Serves(s, hash, owner) && id in owner && |owner| < |s|
    requires d < |s| && EndsAt(s, hash, id, d) && s[At(hash, id, d, |s|)].Free?
    ensures Serves(s[At(hash, id, d, |s|) := Taken(id, owner[id])], hash, owner)
    ensures forall k :: Has(s[At(hash, id, d, |s|) := Taken(id, owner[id])], k) <==> Has(s, k) || k == id
  {
    ProbedAfterTaking(s, hash, id, d, owner[id]);
    OccupiedAtMost(s[At(hash, id, d, |s|) := Taken(id, owner[id])], owner.Keys);
    assert |owner.Keys| == |owner|;
  }

  method FirstFree<P>(a: array<Slot<P>>, hash: Hash, id: nat, ghost owner: map<nat, P>) returns (at: nat, ghost d: nat)
    requires Serves(a[..], hash, owner) && !Has(a[..], id)
    ensures d < a.Length && at == At(hash, id, d, a.Length) && EndsAt(a[..], hash, id, d) && a[at].Free?
  {
    FreeSlot(a[..]);
    ghost var free :| 0 <= free < a.Length && a[free].Free?;
    ghost var last := Distance(hash, id, free, a.Length);
    d := 0;
    at := hash(id) % a.Length;
    while a[at].Taken?
      invariant d <= last && at == At(hash, id, d, a.Length)
      invariant forall e | 0 <= e < d :: a[At(hash, id, e, a.Length)].Taken?
      decreases last - d
    {
      d := d + 1;
      NextSlot(at, a.Length);
      at := (at + 1) % a.Length;
    }
    assert forall j | 0 <= j < a.Length && a[j].Taken? :: a[..][j].id != id;
  }

  /** The inserting loop, for an id that is not in the table. */
  method Place<P>(a: array<Slot<P>>, hash: Hash, id: nat, producer: P, ghost owner: map<nat, P>)
    requires Serves(a[..], hash, owner) && id in owner && owner[id] == producer && |owner| < a.Length
    requires !Has(a[..], id)
    modifies a
    ensures Serves(a[..], hash, owner)
    ensures forall k :: Has(a[..], k) <==> Has(old(a[..]), k) || k == id
  {
    hide Probed, Serves;
    var at, d := FirstFree(a, hash, id, owner);
    ServesAfterTaking(a[..], hash, owner, id, d);
    a[at] := Taken(id, producer);
    assert a[..] == old(a[..])[at := Taken(id, producer)];
  }

  /** More producers make no table wrong. */
  lemma ServesMore<P>(s: seq<Slot<P>>, hash: Hash, owner: map<nat, P>, id: nat, p: P)
    requires Serves(s, hash, owner) && id !in owner
    ensures Serves(s, hash, owner[id := p]) && !Has(s, id)
  {
  }

  ghost predicate Apart<P>(tables: seq<array<Slot<P>>>)
  {
    forall t, u | 0 <= t < u < |tables| :: tables[t] != tables[u]
  }

  ghost predicate AllServe<P>(tables: seq<array<Slot<P>>>, hash: Hash, owner: map<nat, P>)
    reads tables
  {
    forall t | 0 <= t < |tables| :: Serves(tables[t][..], hash, owner)
  }

  ghost predicate SomeHas<P>(tables: seq<array<Slot<P>>>, id: nat)
    reads tables
  {
    exists t :: 0 <= t < |tables| && Has(tables[t][..], id)
  }

  /** No two ids have the same producer. */
  ghost predicate Injective<P>(owner: map<nat, P>)
  {
    forall i, k | i in owner && k in owner && owner[i] == owner[k] :: i == k
  }

  /** Puts an entry into the table in use. */
  method PlaceInFirst<P>(tables: seq<array<Slot<P>>>, hash: Hash, id: nat, producer: P, ghost owner: map<nat, P>)
    requires tables != [] && Apart(tables) && AllServe(tables, hash, owner) && |owner| < tables[0].Length
    requires id in owner && owner[id] == producer && !Has(tables[0][..], id)
    modifies tables[0]
    ensures AllServe(tables, hash, owner) && Has(tables[0][..], id)
    ensures forall k :: old(SomeHas(tables, k)) || k == id ==> SomeHas(tables, k)
  {
    hide Serves, Has;
    Place(tables[0], hash, id, producer, owner);
    assert forall t | 1 <= t < |tables| :: tables[t] != tables[0] && tables[t][..] == old(tables[t][..]);
    forall k | old(SomeHas(tables, k)) || k == id ensures SomeHas(tables, k) {
      if k == id || old(Has(tables[0][..], k)) {
        assert Has(tables[0][..], k);
      } else {
        ghost var t :| 0 <= t < |tables| && old(Has(tables[t][..], k));
        assert Has(tables[t][..], k);
      }
    }
  }

  method LargerCapacity(capacity: nat, newCount: nat) returns (newCapacity: nat)
    requires exists e: nat :: capacity == Pow2(e)
    ensures newCapacity >= 2 * capacity && newCount < newCapacity / 2 && exists e: nat :: newCapacity == Pow2(e)
  {
    hide Pow2;
    newCapacity := 2 * capacity;
    ghost var e: nat :| capacity == Pow2(e);
    Pow2Doubles(e);
    e := e + 1;
    while newCount >= newCapacity / 2
      invariant newCapacity >= 2 * capacity && newCapacity > 0 && newCapacity == Pow2(e)
      decreases 2 * newCount + 2 - newCapacity
    {
      Pow2Doubles(e);
      newCapacity, e := 2 * newCapacity, e + 1;
    }
  }

  lemma PutInFront<P>(a: array<Slot<P>>, tables: seq<array<Slot<P>>>, hash: Hash, owner: map<nat, P>)
    requires Apart(tables) && a !in tables && AllServe(tables, hash, owner) && Serves(a[..], hash, owner)
    ensures Apart([a] + tables) && AllServe([a] + tables, hash, owner)
    ensures forall k :: SomeHas(tables, k) ==> SomeHas([a] + tables, k)
  {
    hide Serves, Has;
    var tables' := [a] + tables;
    assert forall t | 0 <= t < |tables| :: tables'[t + 1] == tables[t];
    forall k | SomeHas(tables, k) ensures SomeHas(tables', k) {
      var t :| 0 <= t < |tables| && Has(tables[t][..], k);
      assert Has(tables'[t + 1][..], k);
    }
  }

  lemma NoneHas<P>(s: seq<Slot<P>>)
    requires forall j | 0 <= j < |s| :: s[j].Free?
    ensures forall id :: !Has(s, id)
  {
  }

  lemma EmptyServes<P>(s: seq<Slot<P>>, hash: Hash, owner: map<nat, P>)
    requires |s| > 0 && forall j | 0 <= j < |s| :: s[j].Free?
    ensures Serves(s, hash, owner)
  {
    OccupiedNone(s);
  }

  class ImplicitProducers<P(==)> {
    const hash: Hash

    /** The table in use first, then the ones it replaced. */
    var tables: seq<array<Slot<P>>>

    /** `implicitProducerHashCount`. */
    var count: nat

    /** Every id that was given a producer. */
    ghost var owner: map<nat, P>

    /** With `pending` slots counted for producers that are not yet in a table. */
    ghost predicate Inv(pending: nat)
      reads this, tables
    {
      && tables != [] && count == |owner| + pending && |owner| < tables[0].Length / 2
      && (exists e: nat :: tables[0].Length == Pow2(e))
      && Apart(tables) && AllServe(tables, hash, owner)
      && (forall id | id in owner :: SomeHas(tables, id))
      && Injective(owner)
    }

    ghost predicate Valid()
      reads this, tables
    {
      Inv(0)
    }

    constructor (hash: Hash)
      ensures Valid() && owner == map[] && fresh(tables)
    {
      var a := new Slot<P>[INITIAL_SIZE](_ => Free);
      EmptyServes(a[..], hash, map[]);
      SmallPowers();
      hide Pow2;
      this.hash, tables, count, owner := hash, [a], 0, map[];
    }

    /** No table has more entries than the counter says, and the counter is below half the capacity
        of the table in use. */
    lemma EntriesAtMostCount(t: nat)
      requires Valid() && t < |tables|
      ensures Occupied(tables[t][..]) <= count < tables[0].Length / 2
    {
      EntriesAtMostOwners(tables[t][..], hash, owner);
    }

    /** Looks for the id in the table in use and then in older ones; an id found in an older one is
        put into the table in use as well. */
    method Find(id: nat) returns (r: Option<P>)
      requires Valid()
      modifies tables[0]
      ensures Valid()
      ensures r == if id in owner then Some(owner[id]) else None
      ensures id in owner <==> Has(tables[0][..], id)
      ensures id !in owner ==> tables[0][..] == old(tables[0][..])
    {
      hide Pow2, Serves, Has, Injective;
      var t := 0;
      while t < |tables|
        invariant 0 <= t <= |tables|
        invariant forall u | 0 <= u < t :: !Has(tables[u][..], id)
        invariant tables[0][..] == old(tables[0][..])
      {
        var at := Probe(tables[t], hash, id, owner);
        if tables[t][at].Taken? {
          var producer := tables[t][at].producer;
          if t != 0 {
            PlaceInFirst(tables, hash, id, producer, owner);
          }
          return Some(producer);
        }
        t := t + 1;
      }
      return None;
    }

    /** Puts a larger table in front. */
    method Grow(newCount: nat)
      requires Inv(1) && newCount == count
      modifies this`tables
      ensures Inv(1) && tables[1..] == old(tables) && fresh(tables[0]) && newCount < tables[0].Length / 2
      ensures forall id :: !Has(tables[0][..], id)
    {
      hide Serves, Pow2, Injective, Has, SomeHas;
      var newCapacity := LargerCapacity(tables[0].Length, newCount);
      var a := new Slot<P>[newCapacity](_ => Free);
      EmptyServes(a[..], hash, owner);
      NoneHas(a[..]);
      PutInFront(a, tables, hash, owner);
      tables := [a] + tables;
    }

    method Adopt(id: nat, producer: P)
      requires Inv(1) && id !in owner && producer !in owner.Values && |owner| + 1 < tables[0].Length / 2
      modifies this`owner, tables[0]
      ensures Valid() && owner == old(owner)[id := producer] && Has(tables[0][..], id)
    {
      hide Pow2, Serves, Has;
      forall t | 0 <= t < |tables|
        ensures Serves(tables[t][..], hash, owner[id := producer]) && !Has(tables[t][..], id)
      {
        ServesMore(tables[t][..], hash, owner, id, producer);
      }
      owner := owner[id := producer];
      PlaceInFirst(tables, hash, id, producer, owner);
    }

    /** Counts one more producer and makes the table large enough for it, or gives up. */
    method Reserve(canAllocate: bool, ghost id: nat) returns (ok: bool)
      requires Valid() && !Has(tables[0][..], id)
      modifies this`tables, this`count
      ensures ok <==> old(count + 1 < tables[0].Length / 2) || canAllocate
      ensures Inv(if ok then 1 else 0)
      ensures ok ==> |owner| + 1 < tables[0].Length / 2 && !Has(tables[0][..], id)
      ensures tables[0] == old(tables[0]) || fresh(tables[0])
    {
      hide Pow2, Serves, Has, SomeHas, Injective, Apart;
      count := count + 1;
      var newCount := count;
      if newCount >= tables[0].Length / 2 {
        if !canAllocate {
          count := count - 1;
          return false;
        }
        Grow(newCount);
      }
      assert newCount < tables[0].Length / 2 + tables[0].Length / 4;
      return true;
    }

    /** `get_or_add_implicit_producer`; `made` is the producer that a call for a new id creates. */
    method GetOrAdd(id: nat, canAllocate: bool, made: Option<P>) returns (r: Option<P>)
      requires Valid() && (made.Some? ==> made.value !in owner.Values)
      modifies this`tables, this`count, this`owner, tables[0]
      ensures Valid()
      ensures id in old(owner) ==> r == Some(old(owner)[id]) && owner == old(owner)
      ensures id !in old(owner) ==>
                r == if old(count + 1 >= tables[0].Length / 2) && !canAllocate then None else made
      ensures id !in old(owner) && r == None ==> owner == old(owner)
      ensures id !in old(owner) && r != None ==> owner == old(owner)[id := r.value]
      ensures r != None ==> Has(tables[0][..], id)
    {
      hide Pow2, Serves, Has, SomeHas, Injective, Apart;
      r := Find(id);
      if r != None {
        return;
      }
      var ok := Reserve(canAllocate, id);
      if !ok {
        return None;
      }
      if made == None {
        count := count - 1;
        return None;
      }
      Adopt(id, made.value);
      return made;
    }
  }
}
