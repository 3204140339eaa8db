/** The sub-queue of one explicit producer (`ExplicitProducer` and `Block` in concurrentqueue.hpp),
    one call at a time: a circular list of blocks that are used again once they are empty, and a
    circular index from element indices to blocks.

    Indices are 64-bit and wrap. The ghost fields keep the unbounded head and tail; `items` is the
    queue the object stands for. */
module ExplicitProducer {
  import opened Basics
  import opened Index

  const BLOCK_SIZE: nat := 32

  class Block<T(0)> {
    const elements: array<T>

    /** Kept in reverse: the flag of slot `k` is at `31 - k`. */
    const emptyFlags: array<bool>
    var next: Block?<T>

    constructor ()
      ensures Shape() && fresh(elements) && fresh(emptyFlags) && next == null
    {
      elements, emptyFlags, next := new T[BLOCK_SIZE], new bool[BLOCK_SIZE], null;
    }

    ghost predicate Shape()
    {
      elements.Length == BLOCK_SIZE == emptyFlags.Length && elements as object != emptyFlags
    }

    method IsEmpty() returns (b: bool)
      requires Shape()
      ensures b <==> forall k | 0 <= k < BLOCK_SIZE :: emptyFlags[k]
    {
      var i := 0;
      while i < BLOCK_SIZE
        invariant 0 <= i <= BLOCK_SIZE && forall k | 0 <= k < i :: emptyFlags[k]
      {
        if !emptyFlags[i] {
          return false;
        }
        i := i + 1;
      }
      return true;
    }

    method ResetEmpty()
      requires Shape()
      modifies emptyFlags
      ensures forall k | 0 <= k < BLOCK_SIZE :: !emptyFlags[k]
    {
      var i := 0;
      while i != BLOCK_SIZE
        invariant 0 <= i <= BLOCK_SIZE && forall k | 0 <= k < i :: !emptyFlags[k]
      {
        emptyFlags[i] := false;
        i := i + 1;
      }
    }

    /** Marks the slot of index `i` as dequeued. */
    method SetEmpty(i: nat)
      requires Shape()
      modifies emptyFlags
      ensures emptyFlags[..] == old(emptyFlags[..])[BLOCK_SIZE - 1 - i % BLOCK_SIZE := true]
    {
      emptyFlags[BLOCK_SIZE - 1 - i % BLOCK_SIZE] := true;
    }

    /** Marks `count` slots from that of index `i` on. */
    method SetManyEmpty(i: nat, count: nat)
      requires Shape() && i % BLOCK_SIZE + count <= BLOCK_SIZE
      modifies emptyFlags
      ensures forall f | 0 <= f < BLOCK_SIZE ::
                emptyFlags[f] <==>
                  old(emptyFlags[f]) || BLOCK_SIZE - i % BLOCK_SIZE - count <= f < BLOCK_SIZE - i % BLOCK_SIZE
    {
      var first := BLOCK_SIZE - 1 - i % BLOCK_SIZE - count + 1;
      var j := 0;
      while j != count
        invariant 0 <= j <= count
        invariant forall f | 0 <= f < BLOCK_SIZE :: emptyFlags[f] <==> old(emptyFlags[f]) || first <= f < first + j
      {
        emptyFlags[first + j] := true;
        j := j + 1;
      }
    }
  }

  /** A slot of the block index; a new index has blank slots. */
  datatype IndexEntry<T(0)> = Blank | IndexEntry(base: nat, block: Block<T>)

  // ----- Invariants, piece by piece. `ring` lists the blocks from the oldest to the tail block. -----

  ghost predicate Separate<T(0)>(ring: seq<Block<T>>)
  {
    && (forall i | 0 <= i < |ring| :: ring[i].Shape())
    && (forall i, j | 0 <= i < j < |ring| ::
          ring[i] != ring[j] && ring[i].elements != ring[j].elements && ring[i].emptyFlags != ring[j].emptyFlags)
    && (forall i, j | 0 <= i < |ring| && 0 <= j < |ring| :: ring[i].elements as object != ring[j].emptyFlags)
  }

  ghost predicate Linked<T(0)>(ring: seq<Block<T>>)
    reads ring
  {
    forall i | 0 <= i < |ring| :: ring[i].next == ring[if i + 1 == |ring| then 0 else i + 1]
  }

  ghost function FlagArrays<T(0)>(ring: seq<Block<T>>): set<object>
  {
    set b | b in ring :: b.emptyFlags
  }

  ghost function ElementArrays<T(0)>(ring: seq<Block<T>>): set<object>
  {
    set b | b in ring :: b.elements
  }

  /** Exactly the slots of dequeued elements are flagged; block `i` starts at `base + 32 * i`. */
  ghost predicate Flagged<T(0)>(ring: seq<Block<T>>, base: int, head: int)
    requires Separate(ring)
    reads FlagArrays(ring)
  {
    forall i, f | 0 <= i < |ring| && 0 <= f < BLOCK_SIZE ::
      ring[i].emptyFlags[f] <==> base + BLOCK_SIZE * i + (BLOCK_SIZE - 1 - f) < head
  }

  /** The oldest block becomes the last one. */
  function Rotated<T(0)>(ring: seq<Block<T>>): (r: seq<Block<T>>)
    requires ring != []
    ensures |r| == |ring| && r[|r| - 1] == ring[0]
  {
    ring[1..] + [ring[0]]
  }

  function Extended<T(0)>(ring: seq<Block<T>>, b: Block<T>): (r: seq<Block<T>>)
    ensures |r| == |ring| + 1 && r[|ring|] == b
  {
    ring + [b]
  }

  lemma SameArrays<T(0)>(ring: seq<Block<T>>)
    requires ring != []
    ensures forall b :: b in ring <==> b in Rotated(ring)
    ensures FlagArrays(Rotated(ring)) == FlagArrays(ring)
    ensures ElementArrays(Rotated(ring)) == ElementArrays(ring)
  {
    assert ring == [ring[0]] + ring[1..];
  }

  lemma SeparateRotates<T(0)>(ring: seq<Block<T>>)
    requires Separate(ring) && ring != []
    ensures Separate(Rotated(ring))
  {
    var ring' := Rotated(ring);
    assert forall i | 0 <= i < |ring'| :: ring'[i] == ring[if i + 1 == |ring| then 0 else i + 1];
  }

  /** The elements from `head` on are in the slots of their indices. */
  ghost predicate Stored<T(0)>(ring: seq<Block<T>>, base: int, head: int, items: seq<T>)
    requires Separate(ring)
    reads ElementArrays(ring)
  {
    forall i, k | 0 <= i < |ring| && 0 <= k < BLOCK_SIZE ::
      0 <= base + BLOCK_SIZE * i + k - head < |items| ==>
        ring[i].elements[k] == items[base + BLOCK_SIZE * i + k - head]
  }

  ghost predicate Contents<T(0)>(ring: seq<Block<T>>, base: int, head: int, items: seq<T>)
    requires Separate(ring)
    reads ring, FlagArrays(ring), ElementArrays(ring)
  {
    Linked(ring) && Flagged(ring, base, head) && Stored(ring, base, head, items)
  }

  /** What the blocks hold. */
  ghost predicate Holds<T(0)>(ring: seq<Block<T>>, base: int, head: int, items: seq<T>)
    reads ring, FlagArrays(ring), ElementArrays(ring)
  {
    Separate(ring) && Contents(ring, base, head, items)
  }

  lemma LastLinksToFirst<T(0)>(ring: seq<Block<T>>, base: int, head: int, items: seq<T>)
    requires Holds(ring, base, head, items) && ring != []
    ensures ring[|ring| - 1].next == ring[0]
  {
  }

  lemma LinkedRotates<T(0)>(ring: seq<Block<T>>)
    requires Linked(ring) && ring != []
    ensures Linked(Rotated(ring))
  {
    var ring' := Rotated(ring);
    forall i | 0 <= i < |ring'| ensures ring'[i].next == ring'[if i + 1 == |ring'| then 0 else i + 1] {
      var j := if i + 1 == |ring| then 0 else i + 1;
      assert ring'[i] == ring[j] && ring[j].next == ring[if j + 1 == |ring| then 0 else j + 1];
    }
  }

  /** A new block with cleared flags behind a full tail block holds nothing yet. */
  lemma FlaggedGrows<T(0)>(ring: seq<Block<T>>, base: int, head: int, b: Block<T>)
    requires Separate(ring) && Separate(Extended(ring, b)) && Flagged(ring, base, head) && b.Shape()
    requires head <= base + BLOCK_SIZE * |ring|
    requires forall f | 0 <= f < BLOCK_SIZE :: !b.emptyFlags[f]
    ensures Flagged(Extended(ring, b), base, head)
  {
  }

  lemma StoredGrows<T(0)>(ring: seq<Block<T>>, base: int, head: int, items: seq<T>, b: Block<T>)
    requires Separate(ring) && Separate(Extended(ring, b)) && (ring != [] ==> Stored(ring, base, head, items))
    requires head + |items| <= base + BLOCK_SIZE * |ring|
    ensures Stored(Extended(ring, b), base, head, items)
  {
  }

  /** After the flags of the oldest block, all of whose elements are gone, were cleared. */
  lemma FlaggedRotates<T(0)>(ring: seq<Block<T>>, base: int, head: int)
    requires Separate(ring) && ring != [] && head <= base + BLOCK_SIZE * |ring|
    requires forall i, f | 1 <= i < |ring| && 0 <= f < BLOCK_SIZE ::
               ring[i].emptyFlags[f] <==> base + BLOCK_SIZE * i + (BLOCK_SIZE - 1 - f) < head
    requires forall f | 0 <= f < BLOCK_SIZE :: !ring[0].emptyFlags[f]
    ensures Separate(Rotated(ring)) && Flagged(Rotated(ring), base + BLOCK_SIZE, head)
  {
    SeparateRotates(ring);
    var ring' := Rotated(ring);
    forall i, f | 0 <= i < |ring'| && 0 <= f < BLOCK_SIZE
      ensures ring'[i].emptyFlags[f] <==> base + BLOCK_SIZE + BLOCK_SIZE * i + (BLOCK_SIZE - 1 - f) < head
    {
      if i + 1 < |ring| { assert ring'[i] == ring[i + 1]; } else { assert ring'[i] == ring[0]; }
    }
  }

  lemma StoredRotates<T(0)>(ring: seq<Block<T>>, base: int, head: int, items: seq<T>)
    requires Separate(ring) && ring != [] && Stored(ring, base, head, items)
    requires head + |items| <= base + BLOCK_SIZE * |ring|
    ensures Separate(Rotated(ring)) && Stored(Rotated(ring), base + BLOCK_SIZE, head, items)
  {
    SeparateRotates(ring);
    var ring' := Rotated(ring);
    assert forall i | 0 <= i < |ring'| :: ring'[i] == ring[if i + 1 == |ring| then 0 else i + 1];
    var base' := base + BLOCK_SIZE;
    forall i, k | 0 <= i < |ring'| && 0 <= k < BLOCK_SIZE && 0 <= base' + BLOCK_SIZE * i + k - head < |items|
      ensures ring'[i].elements[k] == items[base' + BLOCK_SIZE * i + k - head]
    {
      assert i + 1 < |ring|;
      assert base + BLOCK_SIZE * (i + 1) + k == base' + BLOCK_SIZE * i + k;
    }
  }

  /** The index and the blocks have no array in common. */
  ghost predicate Unshared<T(0)>(entries: array?<IndexEntry<T>>, ring: seq<Block<T>>)
  {
    entries != null ==> entries as object !in FlagArrays(ring) + ElementArrays(ring)
  }

  /** Going back from `front`, the slots list the ring from the tail block to the oldest. */
  ghost predicate Listed<T(0)>(slots: seq<IndexEntry<T>>, front: nat, ring: seq<Block<T>>, base: int)
    requires front < |slots|
  {
    && |ring| <= |slots|
    && forall i | 0 <= i < |ring| ::
         slots[Behind(front, |ring| - i, |slots|)] == IndexEntry(Word(base + BLOCK_SIZE * i), ring[i])
  }

  function Next(front: nat, size: nat): nat
  {
    if front + 1 == size then 0 else front + 1
  }

  /** Writing the slot at `front` for a new tail block, with room for one more. */
  lemma ListedGrows<T(0)>(slots: seq<IndexEntry<T>>, front: nat, ring: seq<Block<T>>, base: int, b: Block<T>)
    requires front < |slots| && |ring| < |slots| && (ring != [] ==> Listed(slots, front, ring, base))
    ensures Listed(slots[front := IndexEntry(Word(base + BLOCK_SIZE * |ring|), b)], Next(front, |slots|),
                   Extended(ring, b), base)
  {
    hide Word;
  }

  /** The same with the oldest block given up, whose slot it may be. */
  lemma ListedRotates<T(0)>(slots: seq<IndexEntry<T>>, front: nat, ring: seq<Block<T>>, base: int)
    requires front < |slots| && Listed(slots, front, ring, base) && ring != []
    ensures Listed(slots[front := IndexEntry(Word(base + BLOCK_SIZE * |ring|), ring[0])], Next(front, |slots|),
                   Rotated(ring), base + BLOCK_SIZE)
  {
    hide Word;
    var slots' := slots[front := IndexEntry(Word(base + BLOCK_SIZE * |ring|), ring[0])];
    var ring' := Rotated(ring);
    forall i | 0 <= i < |ring'|
      ensures slots'[Behind(Next(front, |slots|), |ring'| - i, |slots|)]
           == IndexEntry(Word(base + BLOCK_SIZE + BLOCK_SIZE * i), ring'[i])
    {
      if i < |ring| - 1 {
        assert slots[Behind(front, |ring| - (i + 1), |slots|)]
            == IndexEntry(Word(base + BLOCK_SIZE * (i + 1)), ring[i + 1]);
      }
    }
  }

  /** The index of the first slot of the oldest block. */
  ghost function BaseOf<T(0)>(ring: seq<Block<T>>, lastBase: int): int
  {
    lastBase - BLOCK_SIZE * (|ring| - 1)
  }

  /** The unbounded head and tail lie in the ring; `opening` is the moment between starting a block
      and filling its first slot. */
  ghost predicate Placed<T(0)>(ring: seq<Block<T>>, lastBase: int, head: nat, tail: nat, opening: bool)
  {
    && |ring| <= TWO_63 / BLOCK_SIZE
    && head <= tail
    && (ring == [] ==> tail == 0)
    && (ring != [] ==>
          && lastBase % BLOCK_SIZE == 0 && 0 <= BaseOf(ring, lastBase) <= head
          && (if opening then tail == lastBase else lastBase < tail <= lastBase + BLOCK_SIZE))
  }

  ghost predicate InPlace<T(0)>(entries: array?<IndexEntry<T>>, size: nat, exponent: nat, indexFront: nat, front: nat,
                                ring: seq<Block<T>>, lastBase: int)
    reads entries
  {
    && size == Pow2(exponent) && exponent <= 59
    && (entries == null ==> ring == [] && exponent <= 58)
    && (entries != null ==>
          && entries.Length == size && indexFront < size
          && Listed(entries[..], indexFront, ring, BaseOf(ring, lastBase))
          && (ring != [] ==> front == Behind(indexFront, 1, size)))
  }

  // ----- Indices and the places they lie in -----

  lemma WordRoundsDown(x: int)
    ensures Word(x) % BLOCK_SIZE == x % BLOCK_SIZE
    ensures Word(x) - Word(x) % BLOCK_SIZE == Word(x - x % BLOCK_SIZE)
  {
    var q, r := x / TWO_64, x % TWO_64;
    ModUnique(x, BLOCK_SIZE, TWO_64 / BLOCK_SIZE * q + r / BLOCK_SIZE, r % BLOCK_SIZE);
    ModUnique(x - r % BLOCK_SIZE, TWO_64, q, r - r % BLOCK_SIZE);
  }

  lemma StartOfBlock(x: int, base: int, i: nat)
    requires x == base + BLOCK_SIZE * i && base % BLOCK_SIZE == 0
    ensures Word(x) % BLOCK_SIZE == 0
  {
    WordRoundsDown(x);
    ModUnique(x, BLOCK_SIZE, base / BLOCK_SIZE + i, 0);
  }

  lemma WordAdds(x: int, y: int)
    ensures Word(Word(x) + y) == Word(x + y)
  {
  }

  /** The end of the block that `index` is in, or of the elements to take. */
  method EndInBlock(firstIndex: nat, count: nat, index: nat, ghost head: nat, ghost k: nat) returns (endIndex: nat)
    requires firstIndex == Word(head) && index == Word(head + k) && k <= count < TWO_63
    ensures var blockEnd := head + k - index % BLOCK_SIZE + BLOCK_SIZE;
            endIndex == Word(if head + count < blockEnd then head + count else blockEnd)
  {
    WordRoundsDown(head + k);
    WordAdds(head + k - index % BLOCK_SIZE, BLOCK_SIZE);
    WordAdds(head, count);
    CircularIsOrder(head + count, head + k - index % BLOCK_SIZE + BLOCK_SIZE);
    hide Word, CircularLess;
    endIndex := Word(index - index % BLOCK_SIZE + BLOCK_SIZE);
    if CircularLess(Word(firstIndex + count), endIndex) {
      endIndex := Word(firstIndex + count);
    }
  }

  lemma SameWord(x: int, y: int)
    requires x <= y < x + TWO_64
    ensures Word(x) == Word(y) <==> x == y
  {
  }

  lemma EndOfRing<T(0)>(ring: seq<Block<T>>, lastBase: int)
    requires lastBase % BLOCK_SIZE == 0
    ensures BaseOf(ring, lastBase) + BLOCK_SIZE * |ring| == lastBase + BLOCK_SIZE
    ensures BaseOf(ring, lastBase) % BLOCK_SIZE == 0
  {
  }

  lemma SizeBelowRange<T(0)>(ring: seq<Block<T>>, lastBase: int, head: nat, tail: nat)
    requires Placed(ring, lastBase, head, tail, false)
    ensures 0 <= tail - head <= TWO_63
  {
  }

  /** The two counters lead to the head, and what the comparisons with the tail then say. */
  lemma CountersShow(head: nat, tail: nat, over: nat)
    requires 0 <= tail - head <= TWO_63
    ensures Word(Word(head + over) - Word(over)) == Word(head)
    ensures CircularLess(Word(head), Word(tail)) <==> 0 < tail - head < TWO_63
    ensures Word(Word(tail) - Word(head)) == tail - head
    ensures CircularLess(0, tail - head) <==> 0 < tail - head < TWO_63
  {
    WordOfDifference(head + over, over);
    CircularIsOrder(head, tail);
    WordOfDifference(tail, head);
    WordOfSmall(tail - head);
    CircularIsOrder(0, tail - head);
  }

  lemma PlacedMuchLater<T(0)>(ring: seq<Block<T>>, lastBase: int, head: nat, tail: nat, count: nat)
    requires Placed(ring, lastBase, head, tail, false) && head < tail && head + count <= tail
    ensures Placed(ring, lastBase, head + count, tail, false) && tail <= lastBase + BLOCK_SIZE
  {
  }

  lemma ItemInSlot<T(0)>(ring: seq<Block<T>>, base: int, head: int, items: seq<T>, i: nat, k: nat)
    requires Holds(ring, base, head, items) && i < |ring| && k < BLOCK_SIZE
    requires 0 <= base + BLOCK_SIZE * i + k - head < |items|
    ensures ring[i].Shape() && ring[i].elements[k] == items[base + BLOCK_SIZE * i + k - head]
  {
  }

  lemma StoredLater<T(0)>(ring: seq<Block<T>>, base: int, head: int, items: seq<T>, m: nat)
    requires Separate(ring) && Stored(ring, base, head, items) && m <= |items|
    ensures Stored(ring, base, head + m, items[m..])
  {
  }

  method FlagSlots<T(0)>(ghost ring: seq<Block<T>>, ghost base: int, ghost head: nat, ghost items: seq<T>,
                         block: Block<T>, ghost i: nat, index: nat, count: nat)
    requires Holds(ring, base, head, items) && count <= |items|
    requires i < |ring| && block == ring[i] && index % BLOCK_SIZE + count <= BLOCK_SIZE
    requires head == base + BLOCK_SIZE * i + index % BLOCK_SIZE
    modifies block.emptyFlags
    ensures Holds(ring, base, head + count, items[count..])
  {
    hide Linked;
    StoredLater(ring, base, head, items, count);
    assert block.emptyFlags as object !in ElementArrays(ring);
    block.SetManyEmpty(index, count);
    assert forall j | 0 <= j < |ring| && j != i :: ring[j].emptyFlags != block.emptyFlags;
  }

  lemma SlotOfIndex(head: nat, j: nat)
    requires Word(head) % BLOCK_SIZE + j < BLOCK_SIZE
    ensures Word(head + j) % BLOCK_SIZE == Word(head) % BLOCK_SIZE + j
  {
    WordRoundsDown(head);
    WordRoundsDown(head + j);
    ModUnique(head + j, BLOCK_SIZE, head / BLOCK_SIZE, head % BLOCK_SIZE + j);
  }

  lemma WordDistance(head: nat, m: nat)
    requires m < TWO_64
    ensures Word(Word(head + m) - Word(head)) == m
  {
    WordOfDifference(head + m, head);
    WordOfSmall(m);
    hide Word;
  }

  /** Reads the slots from the head's up to `endIndex`, all in block `i`, and then flags them. */
  method TakeSlots<T(0)>(ghost ring: seq<Block<T>>, ghost base: int, ghost head: nat, ghost items: seq<T>,
                         block: Block<T>, ghost i: nat, firstIndex: nat, endIndex: nat, ghost m: nat)
    returns (taken: seq<T>, index: nat)
    requires Holds(ring, base, head, items) && m <= |items|
    requires i < |ring| && block == ring[i] && firstIndex == Word(head)
    requires head == base + BLOCK_SIZE * i + firstIndex % BLOCK_SIZE
    requires firstIndex % BLOCK_SIZE + m <= BLOCK_SIZE && endIndex == Word(head + m)
    modifies block.emptyFlags
    ensures taken == items[..m] && index == endIndex && Holds(ring, base, head + m, items[m..])
  {
    hide Word, Contents, Separate;
    taken, index := [], firstIndex;
    ghost var j: nat := 0;
    SameWord(head, head + m);
    while index != endIndex
      invariant j <= m && index == Word(head + j) && taken == items[..j]
      invariant Holds(ring, base, head, items)
      decreases m - j
    {
      SameWord(head + j, head + m);
      SlotOfIndex(head, j);
      ItemInSlot(ring, base, head, items, i, index % BLOCK_SIZE);
      assert items[..j] + [items[j]] == items[..j + 1];
      taken := taken + [block.elements[index % BLOCK_SIZE]];
      WordSteps(head + j);
      index, j := Word(index + 1), j + 1;
    }
    SameWord(head + j, head + m);
    WordDistance(head, m);
    FlagSlots(ring, base, head, items, block, i, firstIndex, Word(endIndex - firstIndex));
  }

  /** Clears the flags of the oldest block, which becomes the last one. */
  method ClearOldest<T(0)>(ghost ring: seq<Block<T>>, ghost base: int, ghost head: int, ghost items: seq<T>,
                           block: Block<T>)
    requires Holds(ring, base, head, items) && ring != [] && block == ring[0]
    requires head <= head + |items| <= base + BLOCK_SIZE * |ring|
    modifies block.emptyFlags
    ensures Holds(Rotated(ring), base + BLOCK_SIZE, head, items)
  {
    assert forall i | 0 <= i < |ring| :: ring[i].elements as object != block.emptyFlags;
    LinkedRotates(ring);
    StoredRotates(ring, base, head, items);
    block.ResetEmpty();
    assert forall j | 1 <= j < |ring| :: ring[j].emptyFlags != ring[0].emptyFlags;
    FlaggedRotates(ring, base, head);
  }

  /** Clears the flags of a block that is about to follow the last one. */
  method ClearNew<T(0)>(ghost ring: seq<Block<T>>, ghost base: int, ghost head: int, block: Block<T>)
    requires Separate(ring) && Separate(Extended(ring, block)) && block.Shape()
    requires ring != [] ==> Flagged(ring, base, head)
    requires head <= base + BLOCK_SIZE * |ring|
    modifies block.emptyFlags
    ensures Flagged(Extended(ring, block), base, head)
  {
    ghost var ring' := Extended(ring, block);
    assert forall j | 0 <= j < |ring| :: ring'[j] == ring[j] && ring'[j].emptyFlags != ring'[|ring|].emptyFlags;
    block.ResetEmpty();
    FlaggedGrows(ring, base, head, block);
  }

  /** Inserts a cleared block behind the last one of a circular list. */
  method LinkBehind<T(0)>(ghost ring: seq<Block<T>>, ghost base: int, ghost head: int, ghost items: seq<T>,
                          last: Block?<T>, newBlock: Block<T>)
    requires Separate(ring) && newBlock !in ring && newBlock.Shape() && Separate(Extended(ring, newBlock))
    requires ring != [] ==> Holds(ring, base, head, items)
    requires head <= head + |items| <= base + BLOCK_SIZE * |ring|
    requires last == if ring == [] then null else ring[|ring| - 1]
    modifies ring, newBlock, newBlock.emptyFlags
    ensures Holds(Extended(ring, newBlock), base, head, items)
  {
    ghost var ring' := Extended(ring, newBlock);
    assert forall i | 0 <= i < |ring'| :: ring'[i].elements as object != ring'[|ring|].emptyFlags;
    StoredGrows(ring, base, head, items, newBlock);
    ClearNew(ring, base, head, newBlock);
    assert forall i | 0 <= i < |ring| - 1 :: ring[i] != ring[|ring| - 1];
    if last == null {
      newBlock.next := newBlock;
    } else {
      newBlock.next := last.next;
      last.next := newBlock;
    }
  }

  /** Writes the slot of the tail in the last block. */
  method PutSlot<T(0)>(ghost ring: seq<Block<T>>, ghost base: int, ghost head: nat, ghost items: seq<T>,
                       block: Block<T>, index: nat, element: T)
    requires Holds(ring, base, head, items) && ring != [] && block == ring[|ring| - 1]
    requires head + |items| == base + BLOCK_SIZE * (|ring| - 1) + index % BLOCK_SIZE
    modifies block.elements
    ensures Holds(ring, base, head, items + [element])
  {
    assert forall i | 0 <= i < |ring| :: ring[i].emptyFlags as object != block.elements;
    block.elements[index % BLOCK_SIZE] := element;
    assert forall i | 0 <= i < |ring| - 1 :: ring[i].elements != block.elements;
    assert forall k | 0 <= k < BLOCK_SIZE && k != index % BLOCK_SIZE :: block.elements[k] == old(block.elements[k]);
  }

  /** Exactly the block whose elements are all gone has all flags set. */
  lemma OldestIsEmpty<T(0)>(ring: seq<Block<T>>, base: int, head: int, items: seq<T>)
    requires Holds(ring, base, head, items) && ring != []
    ensures ring[0].Shape()
    ensures (forall k | 0 <= k < BLOCK_SIZE :: ring[0].emptyFlags[k]) <==> base + BLOCK_SIZE <= head
  {
    assert ring[0].emptyFlags[0] <==> base + BLOCK_SIZE - 1 < head;
  }

  lemma TailFillsBlock<T(0)>(ring: seq<Block<T>>, lastBase: int, head: nat, tail: nat)
    requires Placed(ring, lastBase, head, tail, false) && tail % BLOCK_SIZE == 0
    ensures ring != [] ==> tail == lastBase + BLOCK_SIZE
    ensures head <= tail && tail - head <= TWO_63 && |ring| <= TWO_63 / BLOCK_SIZE
  {
  }

  lemma PlacedFilled<T(0)>(ring: seq<Block<T>>, lastBase: int, head: nat, tail: nat, opening: bool)
    requires Placed(ring, lastBase, head, tail, opening) && (opening ==> ring != [])
    requires opening || tail % BLOCK_SIZE != 0
    ensures ring != [] && Placed(ring, lastBase, head, tail + 1, false)
    ensures tail == BaseOf(ring, lastBase) + BLOCK_SIZE * (|ring| - 1) + Word(tail) % BLOCK_SIZE
  {
  }

  lemma PlacedRotates<T(0)>(ring: seq<Block<T>>, lastBase: int, head: nat, tail: nat)
    requires Placed(ring, lastBase, head, tail, false) && ring != []
    requires tail == lastBase + BLOCK_SIZE && BaseOf(ring, lastBase) + BLOCK_SIZE <= head
    ensures Placed(Rotated(ring), lastBase + BLOCK_SIZE, head, tail, true)
    ensures BaseOf(Rotated(ring), lastBase + BLOCK_SIZE) == BaseOf(ring, lastBase) + BLOCK_SIZE
    ensures head <= tail == BaseOf(ring, lastBase) + BLOCK_SIZE * |ring|
  {
  }

  /** The check against the half range also bounds the number of blocks. */
  lemma PlacedGrows<T(0)>(ring: seq<Block<T>>, lastBase: int, head: nat, tail: nat, b: Block<T>)
    requires Placed(ring, lastBase, head, tail, false)
    requires ring != [] ==> tail == lastBase + BLOCK_SIZE && head < BaseOf(ring, lastBase) + BLOCK_SIZE
    requires tail + BLOCK_SIZE - head < TWO_63
    ensures Placed(Extended(ring, b), tail, head, tail, true)
    ensures ring != [] ==> BaseOf(Extended(ring, b), tail) == BaseOf(ring, lastBase)
    ensures ring == [] ==> BaseOf(Extended(ring, b), tail) == tail == 0
    ensures head <= tail == BaseOf(Extended(ring, b), tail) + BLOCK_SIZE * |ring|
  {
  }

  lemma PlacedLater<T(0)>(ring: seq<Block<T>>, lastBase: int, head: nat, tail: nat)
    requires Placed(ring, lastBase, head, tail, false) && head < tail
    ensures Placed(ring, lastBase, head + 1, tail, false)
    ensures ring != [] && lastBase % BLOCK_SIZE == 0 && BaseOf(ring, lastBase) <= head < lastBase + BLOCK_SIZE
  {
  }

  lemma HeadIsStored<T(0)>(ring: seq<Block<T>>, base: int, head: int, items: seq<T>, i: nat, k: nat)
    requires Separate(ring) && Stored(ring, base, head, items) && items != []
    requires i < |ring| && k < BLOCK_SIZE && head == base + BLOCK_SIZE * i + k
    ensures ring[i].elements[k] == items[0]
    ensures Stored(ring, base, head + 1, items[1..])
  {
  }

  /** From the head's index to the slot of its block: the wrapped distance to the newest base,
      divided by the block size as an unsigned number and masked. */
  lemma LookupWorks(head: nat, lastBase: int, back: nat, front: nat, e: nat)
    requires e <= 59 && front < Pow2(e) && back < Pow2(e) && lastBase % BLOCK_SIZE == 0
    requires lastBase - BLOCK_SIZE * back <= head < lastBase - BLOCK_SIZE * back + BLOCK_SIZE
    ensures var index := Word(head);
            && head == lastBase - BLOCK_SIZE * back + index % BLOCK_SIZE
            && Mask(front + Word(index - index % BLOCK_SIZE - Word(lastBase)) / BLOCK_SIZE, Pow2(e))
               == Behind(front, back, Pow2(e))
  {
    hide Pow2, Mask, Behind;
    var base := lastBase - BLOCK_SIZE * back;
    WordRoundsDown(head);
    assert head - head % BLOCK_SIZE == base;
    WordOfDifference(base, lastBase);
    hide Word;
    LookupGoesBack(front, back, e);
  }

  /** Reads and flags the head's slot, in block `i`. */
  method TakeSlot<T(0)>(ghost ring: seq<Block<T>>, ghost base: int, ghost head: nat, ghost items: seq<T>,
                        block: Block<T>, ghost i: nat, index: nat) returns (el: T)
    requires Holds(ring, base, head, items) && items != []
    requires i < |ring| && block == ring[i] && head == base + BLOCK_SIZE * i + index % BLOCK_SIZE
    modifies block.emptyFlags
    ensures el == items[0] && Holds(ring, base, head + 1, items[1..])
  {
    hide Linked;
    HeadIsStored(ring, base, head, items, i, index % BLOCK_SIZE);
    el := block.elements[index % BLOCK_SIZE];
    assert block.emptyFlags as object !in ElementArrays(ring);
    block.SetEmpty(index);
    assert forall j | 0 <= j < |ring| && j != i :: ring[j].emptyFlags != block.emptyFlags;
    assert forall f | 0 <= f < BLOCK_SIZE ::
        block.emptyFlags[f] == if f == BLOCK_SIZE - 1 - index % BLOCK_SIZE then true else old(block.emptyFlags[f]);
  }

  /** The entries of a new index. */
  lemma ListedFromStart<T(0)>(slots: seq<IndexEntry<T>>, ring: seq<Block<T>>, base: int)
    requires |ring| < |slots| && |ring| <= TWO_63
    requires forall t | 0 <= t < |ring| :: slots[t] == IndexEntry(Word(base + BLOCK_SIZE * t), ring[t])
    ensures Listed(slots, |ring|, ring, base)
    ensures ring != [] ==> |ring| - 1 == Behind(|ring|, 1, |slots|) == Word(|ring| - 1)
  {
    assert Word(|ring| - 1) == |ring| - 1 || ring == [];
    hide Word;
  }

  lemma NewestEntry<T(0)>(slots: seq<IndexEntry<T>>, front: nat, ring: seq<Block<T>>, base: int)
    requires front < |slots| && Listed(slots, front, ring, base) && ring != []
    ensures slots[Behind(front, 1, |slots|)] == IndexEntry(Word(base + BLOCK_SIZE * (|ring| - 1)), ring[|ring| - 1])
  {
  }

  lemma EntryAt<T(0)>(slots: seq<IndexEntry<T>>, front: nat, ring: seq<Block<T>>, base: int, i: nat)
    requires front < |slots| && Listed(slots, front, ring, base) && i < |ring|
    ensures |ring| <= |slots|
    ensures slots[Behind(front, |ring| - i, |slots|)] == IndexEntry(Word(base + BLOCK_SIZE * i), ring[i])
    ensures Behind(Behind(front, 1, |slots|), |ring| - 1 - i, |slots|) == Behind(front, |ring| - i, |slots|)
  {
  }

  /** The circular block index: the producer's own fields and the header that consumers load. */
  class BlockIndex<T(0)> {
    /** Null if its allocation failed. */
    var entries: array?<IndexEntry<T>>
    var slotsUsed: nat
    var size: nat

    /** The next slot to use. */
    var indexFront: nat

    /** The slot of the tail block, as consumers see it. */
    var front: nat
    ghost var exponent: nat

    ghost predicate Lists(ring: seq<Block<T>>, lastBase: int)
      reads this, entries
    {
      slotsUsed == |ring| && InPlace(entries, size, exponent, indexFront, front, ring, lastBase)
    }

    /** Starts at half the initial size, so that the first index has the full one. */
    constructor (half: nat, canAllocate: bool)
      requires half <= 58
      ensures Lists([], 0) && (entries != null ==> fresh(entries))
      ensures if canAllocate then entries != null && size == Pow2(half + 1) else entries == null && size == Pow2(half)
    {
      entries, slotsUsed, size, indexFront, exponent := null, 0, Pow2(half), 0, half;
      new;
      var ok := Grow(canAllocate, [], 0);
    }

    method HasRoom(ghost ring: seq<Block<T>>, ghost lastBase: int) returns (b: bool)
      requires Lists(ring, lastBase)
      ensures b <==> entries != null && slotsUsed < size
    {
      return !(entries == null || slotsUsed == size);
    }

    /** The copying loop of `new_block_index`, from the oldest slot on. */
    method CopyTo(newEntries: array<IndexEntry<T>>, prevSize: nat, ghost ring: seq<Block<T>>, ghost lastBase: int)
      returns (j: nat)
      requires entries != null && newEntries != entries && 0 < slotsUsed == |ring| <= newEntries.Length
      requires prevSize == Pow2(exponent) == entries.Length && exponent <= 58 && indexFront < prevSize
      requires Listed(entries[..], indexFront, ring, BaseOf(ring, lastBase))
      modifies newEntries
      ensures j == |ring|
      ensures forall t | 0 <= t < j ::
                newEntries[t] == IndexEntry(Word(BaseOf(ring, lastBase) + BLOCK_SIZE * t), ring[t])
    {
      hide Pow2, Mask, Word;
      ghost var base := BaseOf(ring, lastBase);
      hide BaseOf;
      j := 0;
      MaskGoesAround(indexFront, slotsUsed, exponent);
      var i := Mask(indexFront - slotsUsed, prevSize);
      while true
        invariant 0 <= j < slotsUsed && i == Behind(indexFront, slotsUsed - j, prevSize)
        invariant forall t | 0 <= t < j :: newEntries[t] == IndexEntry(Word(base + BLOCK_SIZE * t), ring[t])
        decreases slotsUsed - j
      {
        MaskStepsOn(i, exponent);
        newEntries[j], j := entries[i], j + 1;
        i := Mask(i + 1, prevSize);
        if i == indexFront {
          break;
        }
      }
    }

    /** `new_block_index`: twice the slots, with the old ones moved to the beginning. */
    method Grow(canAllocate: bool, ghost ring: seq<Block<T>>, ghost lastBase: int) returns (ok: bool)
      requires Lists(ring, lastBase) && (entries == null || slotsUsed >= size) && |ring| <= TWO_63 / BLOCK_SIZE
      modifies this
      ensures ok == canAllocate && Lists(ring, lastBase)
      ensures if ok then entries != null && fresh(entries) && size == 2 * old(size) && slotsUsed < size
              else entries == old(entries) && size == old(size)
    {
      hide Pow2, Mask, Word, Behind;
      LargePowers();
      Pow2Orders(exponent, 58);
      Pow2Doubles(exponent);
      size := 2 * size;
      if !canAllocate {
        size := size / 2;
        return false;
      }
      var newEntries := new IndexEntry<T>[size](_ => Blank);
      var j := 0;
      if slotsUsed != 0 {
        j := CopyTo(newEntries, size / 2, ring, lastBase);
      }
      ListedFromStart(newEntries[..], ring, BaseOf(ring, lastBase));
      front, indexFront, entries, exponent := Word(slotsUsed - 1), j, newEntries, exponent + 1;
      return true;
    }

    /** Writes the next slot and shows it to consumers. */
    method Publish(tailIndex: nat, tailBlock: Block<T>)
      requires entries != null && size == Pow2(exponent) == entries.Length && exponent <= 59 && indexFront < size
      modifies this`front, this`indexFront, entries
      ensures entries[..] == old(entries[..])[old(indexFront) := IndexEntry(tailIndex, tailBlock)]
      ensures front == old(indexFront) && indexFront == Next(front, size)
      ensures front == Behind(indexFront, 1, size)
    {
      hide Pow2, Mask;
      MaskStepsOn(indexFront, exponent);
      entries[indexFront] := IndexEntry(tailIndex, tailBlock);
      front := indexFront;
      indexFront := Mask(indexFront + 1, size);
    }

    /** For a block behind a full tail block. */
    method PublishNew(tailIndex: nat, block: Block<T>, ghost ring: seq<Block<T>>, ghost lastBase: int)
      requires Lists(ring, lastBase) && entries != null && slotsUsed < size
      requires tailIndex == Word(if ring == [] then 0 else lastBase + BLOCK_SIZE)
      modifies this`front, this`indexFront, this`slotsUsed, entries
      ensures Lists(Extended(ring, block), if ring == [] then 0 else lastBase + BLOCK_SIZE)
    {
      hide Pow2, Word, Listed, Behind;
      ghost var base := BaseOf(Extended(ring, block), if ring == [] then 0 else lastBase + BLOCK_SIZE);
      ListedGrows(entries[..], indexFront, ring, base, block);
      slotsUsed := slotsUsed + 1;
      Publish(tailIndex, block);
    }

    /** For the oldest block, used again; its slot may be the one written. */
    method PublishAgain(tailIndex: nat, block: Block<T>, ghost ring: seq<Block<T>>, ghost lastBase: int)
      requires Lists(ring, lastBase) && ring != [] && block == ring[0] && tailIndex == Word(lastBase + BLOCK_SIZE)
      modifies this`front, this`indexFront, entries
      ensures Lists(Rotated(ring), lastBase + BLOCK_SIZE)
    {
      hide Pow2, Word, Listed, Behind;
      ListedRotates(entries[..], indexFront, ring, BaseOf(ring, lastBase));
      Publish(tailIndex, block);
    }

    /** Where block `i` of the ring is entered. */
    ghost predicate IsSlot(slot: nat, ring: seq<Block<T>>, i: nat)
      reads this
    {
      i <= |ring| <= size && indexFront < size && slot == Behind(indexFront, |ring| - i, size)
    }

    /** The lookup of `dequeue`: the slot of the block that holds the head. */
    method SlotOf(index: nat, ghost head: nat, ghost ring: seq<Block<T>>, ghost lastBase: int)
      returns (slot: nat, ghost i: nat)
      requires Lists(ring, lastBase) && ring != [] && lastBase % BLOCK_SIZE == 0
      requires index == Word(head) && BaseOf(ring, lastBase) <= head < lastBase + BLOCK_SIZE
      ensures i < |ring| && IsSlot(slot, ring, i)
      ensures head == BaseOf(ring, lastBase) + BLOCK_SIZE * i + index % BLOCK_SIZE
    {
      hide Pow2, Listed, Mask, Word, Behind;
      ghost var base := BaseOf(ring, lastBase);
      i := (head - base) / BLOCK_SIZE;
      ghost var back := |ring| - 1 - i;
      NewestEntry(entries[..], indexFront, ring, base);
      EntryAt(entries[..], indexFront, ring, base, i);
      LookupWorks(head, lastBase, back, front, exponent);
      var headBase := entries[front].base;
      var blockBaseIndex := index - index % BLOCK_SIZE;
      var offset := Word(blockBaseIndex - headBase) / BLOCK_SIZE;
      slot := Mask(front + offset, size);
    }

    method BlockAt(slot: nat, ghost ring: seq<Block<T>>, ghost lastBase: int, ghost i: nat) returns (block: Block<T>)
      requires Lists(ring, lastBase) && i < |ring| && IsSlot(slot, ring, i)
      ensures block == ring[i]
    {
      hide Pow2, Listed, Behind;
      EntryAt(entries[..], indexFront, ring, BaseOf(ring, lastBase), i);
      block := entries[slot].block;
    }

    method SlotAfter(slot: nat, ghost ring: seq<Block<T>>, ghost lastBase: int, ghost i: nat) returns (next: nat)
      requires Lists(ring, lastBase) && i < |ring| && IsSlot(slot, ring, i)
      ensures IsSlot(next, ring, i + 1)
    {
      hide Pow2, Listed, Mask;
      MaskStepsOn(slot, exponent);
      next := Mask(slot + 1, size);
    }
  }

  class ExplicitProducer<T(0)> {
    var tailIndex: nat
    var headIndex: nat
    var dequeueOptimisticCount: nat
    var dequeueOvercommit: nat
    var tailBlock: Block?<T>
    const index: BlockIndex<T>

    ghost var head: nat
    ghost var tail: nat

    /** Units of `dequeueOptimisticCount` that came to nothing. */
    ghost var over: nat
    ghost var lastBase: int
    ghost var ring: seq<Block<T>>
    ghost var items: seq<T>

    ghost function Base(): int
      reads this
    {
      BaseOf(ring, lastBase)
    }

    ghost function Footprint(): set<object?>
      reads this, index
    {
      {this, index, index.entries} + (set b | b in ring) + FlagArrays(ring) + ElementArrays(ring)
    }

    ghost predicate Inv(opening: bool)
      reads this, index, Footprint()
    {
      && tailIndex == Word(tail) && headIndex == Word(head)
      && |items| == tail - head
      && tailBlock == (if ring == [] then null else ring[|ring| - 1])
      && Placed(ring, lastBase, head, tail, opening)
      && index.Lists(ring, lastBase)
      && Unshared(index.entries, ring)
      && Holds(ring, Base(), head, items)
    }

    /** Between calls; the two counters of the consumers differ by the head. */
    ghost predicate Valid()
      reads this, index, Footprint()
    {
      Inv(false) && dequeueOptimisticCount == Word(head + over) && dequeueOvercommit == Word(over)
    }

    /** The objects are none of the blocks' arrays, so writing to them leaves the contents alone. */
    lemma NoArrays(blocks: seq<Block<T>>)
      ensures this as object !in FlagArrays(blocks) + ElementArrays(blocks)
      ensures index as object !in FlagArrays(blocks) + ElementArrays(blocks)
    {
    }

    constructor (half: nat, canAllocate: bool)
      requires half <= 58
      ensures Valid() && items == [] && ring == [] && head == 0 && fresh(Footprint() - {null})
    {
      tailIndex, headIndex, tailBlock := 0, 0, null;
      dequeueOptimisticCount, dequeueOvercommit, over := 0, 0, 0;
      head, tail, lastBase, ring, items := 0, 0, 0, [], [];
      index := new BlockIndex<T>(half, canAllocate);
    }

    /** The block ahead is empty: it becomes the tail block again. */
    method ReuseNextBlock()
      requires Inv(false) && ring != [] && tail == lastBase + BLOCK_SIZE && Base() + BLOCK_SIZE <= head
      modifies this`tailBlock, this`ring, this`lastBase, index`front, index`indexFront
      modifies index.entries, ring[0].emptyFlags
      ensures Inv(true) && ring == Rotated(old(ring)) && lastBase == tail
    {
      hide Word, Placed, BaseOf, Separate, Contents, InPlace, Rotated, Extended;
      ghost var ring' := Rotated(ring);
      SameArrays(ring);
      NoArrays(ring');
      assert Unshared(index.entries, ring');
      PlacedRotates(ring, lastBase, head, tail);
      LastLinksToFirst(ring, Base(), head, items);
      tailBlock := tailBlock.next;
      ClearOldest(ring, Base(), head, items, tailBlock);
      index.PublishAgain(tailIndex, tailBlock, ring, lastBase);
      ring := ring';
      lastBase := lastBase + BLOCK_SIZE;
    }

    /** Inserts a block behind the tail block in the circular list. */
    method LinkTail(newBlock: Block<T>, ghost base: int)
      requires Inv(false) && (ring != [] ==> base == Base())
      requires head <= head + |items| <= base + BLOCK_SIZE * |ring|
      requires newBlock.Shape() && newBlock !in ring
      requires Separate(Extended(ring, newBlock)) && Unshared(index.entries, Extended(ring, newBlock))
      modifies this`tailBlock, ring, newBlock, newBlock.emptyFlags
      ensures tailBlock == newBlock && index.Lists(ring, lastBase)
      ensures Holds(Extended(ring, newBlock), base, head, items)
    {
      hide Word, Placed, BaseOf, Separate, Contents, InPlace, Rotated, Extended;
      ghost var ring' := Extended(ring, newBlock);
      NoArrays(ring');
      hide FlagArrays, ElementArrays;
      LinkBehind(ring, base, head, items, tailBlock, newBlock);
      tailBlock := newBlock;
    }

    method InsertBlock(newBlock: Block<T>)
      requires Inv(false) && index.entries != null && index.slotsUsed < index.size
      requires ring != [] ==> tail == lastBase + BLOCK_SIZE && head < Base() + BLOCK_SIZE
      requires tail + BLOCK_SIZE - head < TWO_63
      requires newBlock.Shape() && newBlock !in ring
      requires Separate(Extended(ring, newBlock)) && Unshared(index.entries, Extended(ring, newBlock))
      modifies this`tailBlock, this`ring, this`lastBase, index`front, index`indexFront, index`slotsUsed
      modifies index.entries, ring, newBlock, newBlock.emptyFlags
      ensures Inv(true) && ring == Extended(old(ring), newBlock) && lastBase == tail
    {
      hide Word, Placed, BaseOf, Separate, Contents, InPlace, Rotated, Extended;
      ghost var ring' := Extended(ring, newBlock);
      NoArrays(ring');
      PlacedGrows(ring, lastBase, head, tail, newBlock);
      LinkTail(newBlock, BaseOf(ring', tail));
      index.PublishNew(tailIndex, newBlock, ring, lastBase);
      ring := ring';
      lastBase := tail;
    }

    /** All elements of the oldest block are gone. */
    ghost predicate Reusable()
      reads this
    {
      ring != [] && Base() + BLOCK_SIZE <= head
    }

    /** A block can be inserted: the tail would stay less than half the range ahead of the head, the
        index has or can get a slot, and there is a block. */
    ghost predicate Insertable(spare: Block?<T>, canAllocate: bool)
      reads this, index
    {
      && tail + BLOCK_SIZE - head < TWO_63
      && (canAllocate || (index.entries != null && index.slotsUsed < index.size))
      && spare != null
    }

    /** A block behind the tail block, whose successor is not empty. */
    method AddBlock(spare: Block?<T>, canAllocate: bool) returns (ok: bool)
      requires Inv(false) && tail % BLOCK_SIZE == 0 && !Reusable()
      requires spare != null ==> spare.Shape() && spare !in ring && Separate(ring + [spare])
      requires spare != null ==> Unshared(index.entries, ring + [spare])
      modifies this`tailBlock, this`ring, this`lastBase, index, index.entries, ring
      modifies if spare == null then {} else {spare, spare.emptyFlags}
      ensures Inv(ok) && (ok ==> lastBase == tail)
      ensures ok <==> old(Insertable(spare, canAllocate))
      ensures ring == if !ok then old(ring) else old(ring) + [spare]
      ensures index.entries == old(index.entries) || fresh(index.entries)
    {
      hide Word, Placed, BaseOf, Separate, Contents, InPlace;
      NoArrays(ring);
      TailFillsBlock(ring, lastBase, head, tail);
      CircularIsOrder(head, tail + BLOCK_SIZE);
      WordAdds(tail, BLOCK_SIZE);
      if !CircularLess(headIndex, Word(tailIndex + BLOCK_SIZE)) {
        return false;
      }
      ok := index.HasRoom(ring, lastBase);
      if !ok {
        ok := index.Grow(canAllocate, ring, lastBase);
        if !ok {
          return false;
        }
      }
      if spare == null {
        return false;
      }
      InsertBlock(spare);
      return true;
    }

    /** The tail is at the end of a block: the next block is the oldest one, if it is empty, or the
        spare one. */
    method StartBlock(spare: Block?<T>, canAllocate: bool) returns (ok: bool)
      requires Inv(false) && tail % BLOCK_SIZE == 0
      requires spare != null ==> spare.Shape() && spare !in ring && Separate(ring + [spare])
      requires spare != null ==> Unshared(index.entries, ring + [spare])
      modifies this`tailBlock, this`ring, this`lastBase, index, index.entries, ring, FlagArrays(ring)
      modifies if spare == null then {} else {spare, spare.emptyFlags}
      ensures Inv(ok) && (ok ==> lastBase == tail)
      ensures ok <==> old(Reusable() || Insertable(spare, canAllocate))
      ensures ring == if !ok then old(ring) else if old(Reusable()) then Rotated(old(ring)) else old(ring) + [spare]
      ensures index.entries == old(index.entries) || fresh(index.entries)
    {
      hide Word, Placed, BaseOf, Separate, Contents, InPlace;
      NoArrays(ring);
      TailFillsBlock(ring, lastBase, head, tail);
      if tailBlock != null {
        LastLinksToFirst(ring, Base(), head, items);
        OldestIsEmpty(ring, Base(), head, items);
        var empty := tailBlock.next.IsEmpty();
        if empty {
          ReuseNextBlock();
          return true;
        }
      }
      ok := AddBlock(spare, canAllocate);
    }

    /** Fills the slot at the tail. */
    method PutElement(element: T, ghost opening: bool)
      requires Inv(opening) && (if opening then ring != [] else tail % BLOCK_SIZE != 0)
      modifies this`tailIndex, this`tail, this`items, ElementArrays(ring)
      ensures Inv(false) && items == old(items) + [element] && tail == old(tail) + 1
    {
      hide Word, Placed, BaseOf, Separate, Contents, InPlace;
      NoArrays(ring);
      PlacedFilled(ring, lastBase, head, tail, opening);
      PutSlot(ring, Base(), head, items, tailBlock, tailIndex, element);
      WordSteps(tail);
      tailIndex := Word(tailIndex + 1);
      tail, items := tail + 1, items + [element];
    }

    method Enqueue(element: T, spare: Block?<T>, canAllocate: bool) returns (ok: bool)
      requires Valid()
      requires spare != null ==> spare.Shape() && spare !in ring && Separate(ring + [spare])
      requires spare != null ==> Unshared(index.entries, ring + [spare])
      modifies this`tailIndex, this`tail, this`items, this`tailBlock, this`ring, this`lastBase
      modifies index, index.entries, ring, FlagArrays(ring), ElementArrays(ring)
      modifies if spare == null then {} else {spare, spare.emptyFlags, spare.elements}
      ensures Valid() && head == old(head) && items == if ok then old(items) + [element] else old(items)
      ensures ok <==> old(tail % BLOCK_SIZE != 0 || Reusable() || Insertable(spare, canAllocate))
      ensures ring == if !ok || old(tail % BLOCK_SIZE != 0) then old(ring)
                      else if old(Reusable()) then Rotated(old(ring))
                      else old(ring) + [spare]
      ensures index.entries == old(index.entries) || fresh(index.entries)
    {
      hide Word, Placed, BaseOf, Separate, Contents, InPlace, Rotated;
      WordRoundsDown(tail);
      if ring != [] { SameArrays(ring); }
      var opening := tailIndex % BLOCK_SIZE == 0;
      if opening {
        ok := StartBlock(spare, canAllocate);
        if !ok {
          return false;
        }
      }
      PutElement(element, opening);
      return true;
    }

    /** `dequeue` once it is known that there is an element. */
    method TakeHead() returns (el: T)
      requires Inv(false) && head < tail
      modifies this`headIndex, this`head, this`items, FlagArrays(ring)
      ensures Inv(false) && head == old(head) + 1 && items == old(items)[1..] && el == old(items)[0]
    {
      hide Word, Placed, BaseOf, Separate, Contents, InPlace;
      NoArrays(ring);
      PlacedLater(ring, lastBase, head, tail);
      WordSteps(head);
      var i0 := headIndex;
      headIndex := Word(headIndex + 1);
      ghost var i;
      var slot;
      slot, i := index.SlotOf(i0, head, ring, lastBase);
      var block := index.BlockAt(slot, ring, lastBase, i);
      el := TakeSlot(ring, Base(), head, items, block, i, i0);
      head, items := head + 1, items[1..];
    }

    /** While the ring is not as large as it can get, the queue stays below half the range. */
    lemma SmallRingBelowHalf()
      requires Valid() && |ring| < TWO_63 / BLOCK_SIZE
      ensures |items| < TWO_63
    {
    }

    /** For one call alone the second comparison cannot fail. */
    method Dequeue() returns (r: Option<T>)
      requires Valid()
      modifies this`dequeueOptimisticCount, this`headIndex, this`head, this`items, FlagArrays(ring)
      ensures Valid()
      ensures r == None <==> old(items) == [] || |old(items)| == TWO_63
      ensures r == None ==> items == old(items) && head == old(head)
      ensures r != None ==> r == Some(old(items)[0]) && items == old(items)[1..] && head == old(head) + 1
    {
      hide Contents, InPlace, Separate, Placed, Word, BaseOf, CircularLess;
      NoArrays(ring);
      SizeBelowRange(ring, lastBase, head, tail);
      CountersShow(head, tail, over);
      WordSteps(head + over);
      var overcommit: int := dequeueOvercommit;
      if !CircularLess(Word(dequeueOptimisticCount - overcommit), tailIndex) {
        return None;
      }
      var myDequeueCount: int := dequeueOptimisticCount;
      dequeueOptimisticCount := Word(myDequeueCount + 1);
      if !CircularLess(Word(myDequeueCount - overcommit), tailIndex) {
        assert false;
      }
      var el := TakeHead();
      return Some(el);
    }

    /** The loop of `dequeue_bulk` with `k` elements taken, before block `i`, whose slot it has. */
    ghost predicate Walking(k: nat, i: nat, at: nat, slot: nat)
      reads this, index, index.entries, ring, FlagArrays(ring), ElementArrays(ring)
    {
      && index.Lists(ring, lastBase) && Unshared(index.entries, ring)
      && i < |ring| && index.IsSlot(slot, ring, i)
      && at == Word(head + k) && head + k == Base() + BLOCK_SIZE * i + at % BLOCK_SIZE
      && k <= |items| && Holds(ring, Base(), head + k, items[k..])
    }

    /** One round of the loop: the elements to take from block `i`. */
    method WalkBlock(firstIndex: nat, count: nat, at: nat, slot: nat, ghost k: nat, ghost i: nat)
      returns (more: seq<T>, next: nat, nextSlot: nat, ghost m: nat)
      requires Walking(k, i, at, slot) && firstIndex == Word(head) && k <= count <= |items| && count < TWO_63
      modifies FlagArrays(ring)
      ensures k + m <= count && more == items[k..k + m] && next == Word(head + k + m)
      ensures k + m < count ==> m > 0 && head + k + m == Base() + BLOCK_SIZE * (i + 1)
      ensures index.IsSlot(nextSlot, ring, i + 1) && index.Lists(ring, lastBase)
      ensures Holds(ring, Base(), head + k + m, items[k + m..])
    {
      hide Word, Contents, InPlace, BaseOf, CircularLess;
      NoArrays(ring);
      hide Separate;
      var block := index.BlockAt(slot, ring, lastBase, i);
      nextSlot := index.SlotAfter(slot, ring, lastBase, i);
      var endIndex := EndInBlock(firstIndex, count, at, head, k);
      m := if head + count < head + k - at % BLOCK_SIZE + BLOCK_SIZE then count - k else BLOCK_SIZE - at % BLOCK_SIZE;
      more, next := TakeSlots(ring, Base(), head + k, items[k..], block, i, at, endIndex, m);
      assert items[k..][..m] == items[k..k + m] && items[k..][m..] == items[k + m..];
    }

    /** The round with the test that ends the loop. */
    method WalkOn(firstIndex: nat, count: nat, at: nat, slot: nat, ghost k: nat, ghost i: nat)
      returns (more: seq<T>, next: nat, nextSlot: nat, done: bool, ghost m: nat)
      requires Walking(k, i, at, slot) && firstIndex == Word(head) && k <= count <= |items| && count < TWO_63
      requires Base() % BLOCK_SIZE == 0 && head + |items| <= Base() + BLOCK_SIZE * |ring|
      modifies FlagArrays(ring)
      ensures k + m <= count && more == items[k..k + m] && (done <==> k + m == count)
      ensures if done then Holds(ring, Base(), head + count, items[count..])
              else m > 0 && Walking(k + m, i + 1, next, nextSlot)
    {
      hide Word, Separate, Contents, InPlace, BaseOf;
      NoArrays(ring);
      more, next, nextSlot, m := WalkBlock(firstIndex, count, at, slot, k, i);
      SameWord(head + k + m, head + count);
      WordAdds(head, count);
      done := next == Word(firstIndex + count);
      if !done {
        StartOfBlock(head + k + m, Base(), i + 1);
      }
    }

    /** The loop over the blocks; it runs at least once, even for no elements. */
    method WalkBlocks(firstIndex: nat, count: nat) returns (taken: seq<T>)
      requires index.Lists(ring, lastBase) && Unshared(index.entries, ring) && Holds(ring, Base(), head, items)
      requires ring != [] && lastBase % BLOCK_SIZE == 0 && Base() <= head < lastBase + BLOCK_SIZE
      requires firstIndex == Word(head) && count <= |items| && count < TWO_63
      requires head + |items| <= lastBase + BLOCK_SIZE
      modifies FlagArrays(ring)
      ensures taken == items[..count] && Holds(ring, Base(), head + count, items[count..])
    {
      hide Word, Separate, Contents, InPlace, BaseOf;
      NoArrays(ring);
      taken := [];
      var at, slot: nat, done := firstIndex, 0, false;
      ghost var i: nat, k: nat := 0, 0;
      slot, i := index.SlotOf(firstIndex, head, ring, lastBase);
      EndOfRing(ring, lastBase);
      assert items[k..] == items;
      while !done
        invariant k <= count && taken == items[..k]
        invariant if done then k == count && Holds(ring, Base(), head + count, items[count..])
                  else Walking(k, i, at, slot)
        decreases count - k, if done then 0 else 1
      {
        var more;
        ghost var m: nat;
        more, at, slot, done, m := WalkOn(firstIndex, count, at, slot, k, i);
        assert items[..k] + items[k..k + m] == items[..k + m];
        taken, k, i := taken + more, k + m, i + 1;
      }
    }

    /** `dequeue_bulk` once it is known that there are `count` elements and at least one. */
    method TakeMany(count: nat) returns (taken: seq<T>)
      requires Inv(false) && head < tail && count <= |items| && count < TWO_63
      modifies this`headIndex, this`head, this`items, FlagArrays(ring)
      ensures Inv(false) && head == old(head) + count && taken == old(items)[..count] && items == old(items)[count..]
    {
      hide Word, Placed, BaseOf, Separate, Contents, InPlace;
      NoArrays(ring);
      PlacedLater(ring, lastBase, head, tail);
      PlacedMuchLater(ring, lastBase, head, tail, count);
      var firstIndex := headIndex;
      headIndex := Word(firstIndex + count);
      WordAdds(head, count);
      taken := WalkBlocks(firstIndex, count);
      head, items := head + count, items[count..];
    }

    /** `dequeue_bulk`, with the elements it hands over in order. */
    method DequeueBulk(max: nat) returns (taken: seq<T>)
      requires Valid()
      modifies this`dequeueOptimisticCount, this`headIndex, this`head, this`items, FlagArrays(ring)
      ensures Valid()
      ensures var all := old(items);
              var n := if |all| == TWO_63 then 0 else Min(max, |all|);
              taken == all[..n] && items == all[n..]
    {
      hide Contents, InPlace, Separate, Placed, Word, BaseOf, CircularLess;
      NoArrays(ring);
      SizeBelowRange(ring, lastBase, head, tail);
      CountersShow(head, tail, over);
      var overcommit: int := dequeueOvercommit;
      var desiredCount := Word(tailIndex - Word(dequeueOptimisticCount - overcommit));
      if !CircularLess(0, desiredCount) {
        return [];
      }
      desiredCount := Min(desiredCount, max);
      WordAdds(head + over, desiredCount);
      var myDequeueCount: int := dequeueOptimisticCount;
      dequeueOptimisticCount := Word(myDequeueCount + desiredCount);
      var actualCount := Word(tailIndex - Word(myDequeueCount - overcommit));
      if !CircularLess(0, actualCount) {
        assert false;
      }
      actualCount := Min(desiredCount, actualCount);
      taken := TakeMany(actualCount);
    }
  }
}
