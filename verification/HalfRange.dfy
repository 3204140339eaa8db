/** Calls that fill a sub-queue with exactly half the index range of elements, which `dequeue` then
    takes for none. The memory for it is beyond any machine; nothing in the code rules it out. */
module HalfRange {
  import opened Basics
  import opened Index
  import opened E = ExplicitProducer

  /** A new block can follow the ring. */
  lemma SeparateGrows<T(0)>(ring: seq<Block<T>>, b: Block<T>)
    requires Separate(ring) && b.Shape() && b !in ring
    requires b.elements as object !in FlagArrays(ring) + ElementArrays(ring)
    requires b.emptyFlags as object !in FlagArrays(ring) + ElementArrays(ring)
    ensures Separate(ring + [b])
  {
    forall i | 0 <= i < |ring|
      ensures ring[i].elements as object in ElementArrays(ring) && ring[i].emptyFlags as object in FlagArrays(ring)
    {
    }
    hide FlagArrays, ElementArrays;
    var ring' := ring + [b];
    assert forall i | 0 <= i < |ring| :: ring'[i] == ring[i] && ring[i] in ring;
    assert ring'[|ring|] == b;
  }

  lemma ArraysWith<T(0)>(ring: seq<Block<T>>, b: Block<T>)
    ensures FlagArrays(ring + [b]) == FlagArrays(ring) + {b.emptyFlags}
    ensures ElementArrays(ring + [b]) == ElementArrays(ring) + {b.elements}
  {
  }

  /** The oldest base of a ring that has grown with its tail and was never turned. */
  lemma BaseStays<T(0)>(ring: seq<Block<T>>, lastBase: int, head: nat, tail: nat,
                        ring': seq<Block<T>>, lastBase': int)
    requires Placed(ring, lastBase, head, tail, false) && (ring == [] || BaseOf(ring, lastBase) == 0)
    requires Placed(ring', lastBase', head, tail + 1, false)
    requires |ring'| == |ring| + if tail % BLOCK_SIZE == 0 then 1 else 0
    ensures ring' != [] && BaseOf(ring', lastBase') == 0
  {
  }

  /** A spare block straight from the allocator. */
  method NewSpare<T(0)>(ghost ring: seq<Block<T>>, ghost entries: array?<IndexEntry<T>>) returns (spare: Block<T>)
    requires Separate(ring) && Unshared(entries, ring)
    ensures fresh(spare) && fresh(spare.elements) && fresh(spare.emptyFlags)
    ensures spare.Shape() && spare !in ring && Separate(ring + [spare]) && Unshared(entries, ring + [spare])
  {
    spare := new Block<T>();
    ArraysWith(ring, spare);
    SeparateGrows(ring, spare);
  }

  /** What a full-grown ring adds to the objects of a sub-queue. */
  ghost predicate Owned<T(0)>(p: E.ExplicitProducer<T>, owned: set<object>)
    reads p, p.index
  {
    && p in owned && p.index in owned && (p.index.entries != null ==> p.index.entries in owned)
    && (forall b | b in p.ring :: b in owned) && FlagArrays(p.ring) + ElementArrays(p.ring) <= owned
  }

  lemma ArraysOfNext<T(0)>(ring: seq<Block<T>>, spare: Block<T>, ring': seq<Block<T>>, owned: set<object>)
    requires ring' == ring || (ring != [] && ring' == Rotated(ring)) || ring' == ring + [spare]
    requires (forall b | b in ring :: b in owned) && FlagArrays(ring) + ElementArrays(ring) <= owned
    requires {spare, spare.elements, spare.emptyFlags} <= owned
    ensures (forall b | b in ring' :: b in owned) && FlagArrays(ring') + ElementArrays(ring') <= owned
  {
    ArraysWith(ring, spare);
    if ring != [] { SameArrays(ring); }
  }

  /** One more element, with a new block at hand. */
  method EnqueueOne(p: E.ExplicitProducer<int>, ghost owned: set<object>) returns (ghost owned': set<object>)
    requires Owned(p, owned) && p.Valid()
    requires p.tail % BLOCK_SIZE != 0 || p.Reusable() || p.tail + BLOCK_SIZE - p.head < TWO_63
    modifies owned
    ensures Owned(p, owned') && owned <= owned' && fresh(owned' - owned) && p.Valid()
    ensures p.head == old(p.head) && |p.items| == |old(p.items)| + 1
    ensures old(!p.Reusable()) ==> |p.ring| == |old(p.ring)| + if old(p.tail) % BLOCK_SIZE == 0 then 1 else 0
  {
    hide Word, Contents, InPlace, Placed, BaseOf, Separate, Rotated, Unshared, FlagArrays, ElementArrays;
    ghost var ring := p.ring;
    var spare := NewSpare(ring, p.index.entries);
    var ok := p.Enqueue(0, spare, true);
    owned' := owned + {spare, spare.elements, spare.emptyFlags};
    if p.index.entries != null { owned' := owned' + {p.index.entries}; }
    ArraysOfNext(ring, spare, p.ring, owned');
  }

  /** Elements into a ring that starts at index 0 and has its oldest block in use. */
  method Fill(p: E.ExplicitProducer<int>, ghost owned: set<object>, count: nat) returns (ghost owned': set<object>)
    requires Owned(p, owned) && p.Valid() && p.head < BLOCK_SIZE && (p.ring == [] || p.Base() == 0)
    requires p.tail + count + (if p.head == 0 then BLOCK_SIZE else 0) <= TWO_63 && TWO_63 % BLOCK_SIZE == 0
    modifies owned
    ensures Owned(p, owned') && fresh(owned' - owned) && p.Valid()
    ensures p.head == old(p.head) && |p.items| == old(|p.items|) + count && (p.ring == [] || p.Base() == 0)
    ensures count > 0 ==> p.ring != []
  {
    hide Word, Contents, InPlace, Separate, Unshared, FlagArrays, ElementArrays, Owned, BaseOf, Placed;
    owned' := owned;
    var n := 0;
    ghost var tail := p.tail;
    while n < count
      invariant n <= count && Owned(p, owned') && owned <= owned' && fresh(owned' - owned) && p.Valid()
      invariant p.head == old(p.head) && |p.items| == old(|p.items|) + n && p.tail == tail + n
      invariant (p.ring == [] || p.Base() == 0) && (n > 0 ==> p.ring != [])
    {
      ghost var ring, lastBase := p.ring, p.lastBase;
      owned' := EnqueueOne(p, owned');
      BaseStays(ring, lastBase, p.head, tail + n, p.ring, p.lastBase);
      n := n + 1;
    }
  }

  method TakeSome(p: E.ExplicitProducer<int>, ghost owned: set<object>, count: nat)
    requires Owned(p, owned) && p.Valid() && count <= |p.items| < TWO_63
    modifies owned
    ensures Owned(p, owned) && p.Valid()
    ensures p.head == old(p.head) + count && |p.items| == old(|p.items|) - count
    ensures p.ring == old(p.ring) && p.lastBase == old(p.lastBase)
  {
    hide Word, Contents, InPlace, Separate, Unshared, FlagArrays, ElementArrays, BaseOf, Placed;
    var n := 0;
    while n < count
      invariant n <= count && Owned(p, owned) && p.Valid()
      invariant p.head == old(p.head) + n && |p.items| == old(|p.items|) - n
      invariant p.ring == old(p.ring) && p.lastBase == old(p.lastBase)
    {
      p.NoArrays(p.ring);
      var r := p.Dequeue();
      n := n + 1;
    }
  }

  /** A whole block of elements, into the oldest block once it is empty. */
  method FillAgain(p: E.ExplicitProducer<int>, ghost owned: set<object>) returns (ghost owned': set<object>)
    requires Owned(p, owned) && p.Valid() && p.ring != [] && p.Base() == 0 && p.head == BLOCK_SIZE
    requires |p.items| == TWO_63 - BLOCK_SIZE
    modifies owned
    ensures Owned(p, owned') && fresh(owned' - owned) && p.Valid() && |p.items| == TWO_63
  {
    hide Word, Contents, InPlace, Separate, Unshared, FlagArrays, ElementArrays, Owned, BaseOf, Placed;
    owned' := owned;
    var n := 0;
    while n < BLOCK_SIZE
      invariant n <= BLOCK_SIZE && Owned(p, owned') && owned <= owned' && fresh(owned' - owned) && p.Valid()
      invariant p.head == BLOCK_SIZE && |p.items| == TWO_63 - BLOCK_SIZE + n
      invariant n == 0 ==> p.ring != [] && p.Base() == 0
    {
      owned' := EnqueueOne(p, owned');
      n := n + 1;
    }
  }

  lemma NoArraysYet<T(0)>()
    ensures FlagArrays<T>([]) == ElementArrays<T>([]) == {}
  {
  }

  /** Half the index range of elements, and what `dequeue` makes of them. */
  method HalfFull() returns (p: E.ExplicitProducer<int>, r: Option<int>)
    ensures p.Valid() && |p.items| == TWO_63 && r == None
  {
    hide Word, Contents, InPlace, Separate, Unshared, FlagArrays, ElementArrays, BaseOf, Placed;
    p := new E.ExplicitProducer<int>(4, true);
    ghost var owned: set<object> := {p, p.index};
    if p.index.entries != null { owned := owned + {p.index.entries}; }
    NoArraysYet<int>();
    owned := Fill(p, owned, TWO_63 - BLOCK_SIZE);
    TakeSome(p, owned, 1);
    owned := Fill(p, owned, BLOCK_SIZE);
    TakeSome(p, owned, BLOCK_SIZE - 1);
    owned := FillAgain(p, owned);
    r := p.Dequeue();
  }
}
