/** What consumers read while the producer uses blocks again: the claims of `OptimisticDequeue`
    together with the slots and the empty flags of the blocks.

    A consumer that was given indices reads their slots one by one, and flags a slot any time after
    reading it. The producer scans the flags of the oldest block one by one, and if all are set
    clears them one by one and fills the block anew. Each of these is a step of its own, between any
    steps of the consumers. Blocks are numbered by when they were started, element `i` lies in block
    `i / 32`, and `place` says which memory a started block has; a consumer finds a block that is in
    the index, from `oldest` on. */
module SlotSafety {
  import opened Basics
  import D = OptimisticDequeue

  const SIZE: nat := 32

  /** One block's memory, slot by slot. */
  datatype Block<T> = Block(slots: seq<Option<T>>, flags: seq<bool>)

  /** A consumer outside the claim: `left` are the claimed indices whose flag it has yet to set. */
  datatype Reader<T> =
    | Away
    | Holding(first: nat, count: nat, got: seq<Option<T>>, left: set<nat>)

  datatype Producer<T> =
    | Resting
    | Scan(x: T, j: nat)    // look at flag j of the oldest block
    | Need(x: T)            // the oldest block is in use: a new one, or failure
    | Clear(x: T, j: nat)   // clear flag j of the block to use again
    | Store(x: T)           // write the element to the slot of the tail
    | Publish(x: T)         // store tailIndex

  datatype State<T> = State(d: D.State<T>, readers: seq<Reader<T>>, producer: Producer<T>,
                            blocks: seq<Block<T>>, place: seq<nat>, oldest: nat)

  datatype Event<T> =
    | Claiming(e: D.Event<T>)      // a call or a step of a consumer up to its claim
    | Read(t: nat)
    | Flag(t: nat, i: nat)
    | Leave(t: nat)
    | Enqueue(x: T)
    | Produce
    | Insert                       // a new block for a producer that needs one
    | Fail

  predicate ShapeOf<T>(blocks: seq<Block<T>>, place: seq<nat>)
  {
    && (forall b | 0 <= b < |blocks| :: |blocks[b].slots| == |blocks[b].flags| == SIZE)
    && (forall m | 0 <= m < |place| :: place[m] < |blocks|)
  }

  predicate Shape<T>(s: State<T>)
  {
    && ShapeOf(s.blocks, s.place)
    && s.oldest <= |s.place| && |s.readers| == |s.d.pcs|
    && (s.producer.Scan? || s.producer.Clear? ==> s.producer.j <= SIZE)
    && (s.producer.Scan? ==> s.oldest < |s.place|)
    && (s.producer.Clear? || s.producer.Store? ==> s.place != [])
  }

  function Slot<T>(blocks: seq<Block<T>>, place: seq<nat>, m: nat, k: nat): Option<T>
    requires ShapeOf(blocks, place) && m < |place| && k < SIZE
  {
    blocks[place[m]].slots[k]
  }

  function FlagAt<T>(blocks: seq<Block<T>>, place: seq<nat>, m: nat, k: nat): bool
    requires ShapeOf(blocks, place) && m < |place| && k < SIZE
  {
    blocks[place[m]].flags[k]
  }

  function SetFlag<T>(blocks: seq<Block<T>>, place: seq<nat>, m: nat, k: nat, value: bool): (blocks': seq<Block<T>>)
    requires ShapeOf(blocks, place) && m < |place| && k < SIZE
    ensures ShapeOf(blocks', place) && |blocks'| == |blocks|
  {
    var b := blocks[place[m]];
    blocks[place[m] := b.(flags := b.flags[k := value])]
  }

  function SetSlot<T>(blocks: seq<Block<T>>, place: seq<nat>, m: nat, k: nat, x: T): (blocks': seq<Block<T>>)
    requires ShapeOf(blocks, place) && m < |place| && k < SIZE
    ensures ShapeOf(blocks', place) && |blocks'| == |blocks|
  {
    var b := blocks[place[m]];
    blocks[place[m] := b.(slots := b.slots[k := Some(x)])]
  }

  /** What a consumer finds for an index; nothing can be said of a block no longer in the index. */
  function Lookup<T>(s: State<T>, i: nat): Option<T>
    requires Shape(s)
  {
    if s.oldest <= i / SIZE < |s.place| then Slot(s.blocks, s.place, i / SIZE, i % SIZE) else None
  }

  function Indices(first: nat, count: nat): (r: set<nat>)
    ensures forall i :: i in r <==> first <= i < first + count
  {
    if count == 0 then {} else Indices(first, count - 1) + {first + count - 1}
  }

  function SetReader<T>(s: State<T>, t: nat, r: Reader<T>): State<T>
    requires t < |s.readers|
  {
    s.(readers := s.readers[t := r])
  }

  /** The claim: the consumer has its indices and is out of the protocol of the counters. */
  function Claim<T>(s: State<T>, t: nat): State<T>
    requires t < |s.readers| == |s.d.pcs| && s.d.pcs[t].Claim?
  {
    var take := s.d.pcs[t].take;
    SetReader(s, t, Holding(s.d.head, take, [], Indices(s.d.head, take))).(d := D.Advance(s.d, t))
  }

  function ClaimingStep<T>(s: State<T>, e: D.Event<T>): (s': State<T>)
    requires Shape(s)
    ensures Shape(s') && |s'.readers| == |s.readers|
  {
    match e
    case Enqueue(_) => s
    case Call(t, _) => if t < |s.readers| && s.readers[t].Away? then s.(d := D.Step(s.d, e)) else s
    case Go(t) =>
      if t >= |s.readers| then s
      else if s.d.pcs[t].Claim? then Claim(s, t)
      else s.(d := D.Advance(s.d, t))
  }

  function ReaderStep<T>(s: State<T>, e: Event<T>): (s': State<T>)
    requires Shape(s) && (e.Read? || e.Flag? || e.Leave?)
    ensures Shape(s') && |s'.readers| == |s.readers|
  {
    if e.t >= |s.readers| || s.readers[e.t].Away? then s
    else
      var r := s.readers[e.t];
      match e
      case Read(t) =>
        if |r.got| < r.count then SetReader(s, t, r.(got := r.got + [Lookup(s, r.first + |r.got|)])) else s
      case Flag(t, i) =>
        if i in r.left && i < r.first + |r.got| && i / SIZE < |s.place| then
          SetReader(s, t, r.(left := r.left - {i})).(blocks := SetFlag(s.blocks, s.place, i / SIZE, i % SIZE, true))
        else s
      case Leave(t) => if r.left == {} && |r.got| == r.count then SetReader(s, t, Away) else s
  }

  function ProducerStep<T>(s: State<T>): (s': State<T>)
    requires Shape(s)
    ensures Shape(s') && |s'.readers| == |s.readers|
  {
    var tail := |s.d.items|;
    match s.producer
    case Resting => s
    case Need(_) => s
    case Scan(x, j) =>
      if j == SIZE then
        s.(place := s.place + [s.place[s.oldest]], oldest := s.oldest + 1, producer := Clear(x, 0))
      else
        s.(producer := if FlagAt(s.blocks, s.place, s.oldest, j) then Scan(x, j + 1) else Need(x))
    case Clear(x, j) =>
      if j == SIZE then s.(producer := Store(x))
      else s.(blocks := SetFlag(s.blocks, s.place, |s.place| - 1, j, false), producer := Clear(x, j + 1))
    case Store(x) =>
      s.(blocks := SetSlot(s.blocks, s.place, |s.place| - 1, tail % SIZE, x), producer := Publish(x))
    case Publish(x) => s.(d := s.d.(items := s.d.items + [x]), producer := Resting)
  }

  function NewBlock<T>(): Block<T>
  {
    Block(seq(SIZE, _ => None), seq(SIZE, _ => false))
  }

  /** An event that its guard does not allow changes nothing. */
  function Step<T>(s: State<T>, e: Event<T>): (s': State<T>)
    requires Shape(s)
    ensures Shape(s') && |s'.readers| == |s.readers|
  {
    match e
    case Claiming(e) => ClaimingStep(s, e)
    case Read(_) => ReaderStep(s, e)
    case Flag(_, _) => ReaderStep(s, e)
    case Leave(_) => ReaderStep(s, e)
    case Enqueue(x) =>
      if !s.producer.Resting? then s
      else if |s.d.items| % SIZE != 0 && s.place != [] then s.(producer := Store(x))
      else s.(producer := if s.oldest < |s.place| then Scan(x, 0) else Need(x))
    case Produce => ProducerStep(s)
    case Insert =>
      if s.producer.Need? then
        s.(blocks := s.blocks + [NewBlock()], place := s.place + [|s.blocks|], producer := Store(s.producer.x))
      else s
    case Fail => if s.producer.Need? then s.(producer := Resting) else s
  }

  function Run<T>(s: State<T>, es: seq<Event<T>>): (s': State<T>)
    requires Shape(s)
    ensures Shape(s')
  {
    if es == [] then s else Step(Run(s, es[..|es| - 1]), es[|es| - 1])
  }

  predicate Init<T>(s: State<T>)
  {
    && Shape(s) && D.Init(s.d)
    && s.producer.Resting? && s.blocks == [] && s.place == [] && s.oldest == 0
    && forall t | 0 <= t < |s.readers| :: s.readers[t].Away?
  }

  // ----- The invariant -----

  predicate Held<T>(readers: seq<Reader<T>>, i: nat)
  {
    exists t :: 0 <= t < |readers| && readers[t].Holding? && i in readers[t].left
  }

  /** A reader's indices are claimed, unread ones are unflagged, and what it read is right. */
  ghost predicate ReaderInv<T>(r: Reader<T>, p: D.PC, items: seq<T>, head: nat)
  {
    r.Holding? ==>
      && p.Idle? && |r.got| <= r.count && r.first + r.count <= head <= |items|
      && (forall i | i in r.left :: r.first <= i < r.first + r.count)
      && (forall i | r.first + |r.got| <= i < r.first + r.count :: i in r.left)
      && (forall k | 0 <= k < |r.got| :: r.got[k] == Some(items[r.first + k]))
  }

  predicate Disjoint<T>(readers: seq<Reader<T>>)
  {
    forall t, u, i | 0 <= t < |readers| && 0 <= u < |readers| && t != u && readers[t].Holding? && readers[u].Holding? ::
      !(i in readers[t].left && i in readers[u].left)
  }

  /** No two blocks of the ring share memory. */
  predicate Apart(place: seq<nat>, oldest: nat)
  {
    forall m, n | oldest <= m < n < |place| :: place[m] != place[n]
  }

  /** Where the tail is. */
  predicate TailInv<T>(producer: Producer<T>, tail: nat, started: nat, oldest: nat)
  {
    && oldest <= started && (started > 0 ==> oldest < started)
    && match producer
       case Resting => if started == 0 then tail == 0 else SIZE * (started - 1) < tail <= SIZE * started
       case Scan(_, _) => tail == SIZE * started
       case Need(_) => tail == SIZE * started
       case Clear(_, _) => tail == SIZE * (started - 1)
       case Store(_) => SIZE * (started - 1) <= tail < SIZE * started
       case Publish(_) => SIZE * (started - 1) <= tail < SIZE * started
  }

  /** The element in slot `k` of started block `m`. */
  function Nth(m: nat, k: nat): nat { SIZE * m + k }

  lemma NthUnique(i: nat)
    ensures forall m, k | 0 <= m && 0 <= k < SIZE :: Nth(m, k) == i <==> m == i / SIZE && k == i % SIZE
  {
  }

  /** The flags from here on in the block being cleared still are those of its last use. */
  predicate Stale<T>(producer: Producer<T>, started: nat, m: nat, k: nat)
  {
    producer.Clear? && m + 1 == started && k >= producer.j
  }

  /** A slot of the ring is flagged if and only if its element was claimed and nobody holds it. */
  predicate FlagsInv<T>(blocks: seq<Block<T>>, place: seq<nat>, oldest: nat, producer: Producer<T>,
                        readers: seq<Reader<T>>, head: nat)
    requires ShapeOf(blocks, place)
  {
    forall m, k | oldest <= m < |place| && 0 <= k < SIZE && !Stale(producer, |place|, m, k) ::
      FlagAt(blocks, place, m, k) <==> Nth(m, k) < head && !Held(readers, Nth(m, k))
  }

  /** The elements before the ring are gone. */
  predicate GoneInv<T>(oldest: nat, readers: seq<Reader<T>>, head: nat)
  {
    SIZE * oldest <= head && forall i | 0 <= i < SIZE * oldest :: !Held(readers, i)
  }

  predicate ScanInv<T>(blocks: seq<Block<T>>, place: seq<nat>, oldest: nat, producer: Producer<T>)
    requires ShapeOf(blocks, place)
  {
    producer.Scan? ==>
      oldest < |place| && forall k | 0 <= k < producer.j && k < SIZE :: FlagAt(blocks, place, oldest, k)
  }

  /** The slots of the ring hold the elements of their indices. */
  ghost predicate SlotsInv<T>(blocks: seq<Block<T>>, place: seq<nat>, oldest: nat, producer: Producer<T>, items: seq<T>)
    requires ShapeOf(blocks, place)
  {
    && (forall m, k | oldest <= m < |place| && 0 <= k < SIZE && Nth(m, k) < |items| ::
          Slot(blocks, place, m, k) == Some(items[Nth(m, k)]))
    && (producer.Publish? && place != [] ==> Slot(blocks, place, |place| - 1, |items| % SIZE) == Some(producer.x))
  }

  ghost predicate Inv<T>(s: State<T>, log: seq<D.Unit>)
  {
    && Shape(s) && D.Inv(s.d, log) && s.d.head <= |s.d.items|
    && (forall t | 0 <= t < |s.readers| :: ReaderInv(s.readers[t], s.d.pcs[t], s.d.items, s.d.head))
    && Disjoint(s.readers) && Apart(s.place, s.oldest)
    && TailInv(s.producer, |s.d.items|, |s.place|, s.oldest)
    && FlagsInv(s.blocks, s.place, s.oldest, s.producer, s.readers, s.d.head)
    && GoneInv(s.oldest, s.readers, s.d.head)
    && ScanInv(s.blocks, s.place, s.oldest, s.producer)
    && SlotsInv(s.blocks, s.place, s.oldest, s.producer, s.d.items)
  }

  // ----- Consumer steps -----

  /** What the protocol of the counters leaves alone, apart from the claim. */
  lemma AdvanceFacts<T>(d: D.State<T>, t: nat)
    requires t < |d.pcs|
    ensures var d' := D.Advance(d, t);
            && d'.items == d.items && |d'.pcs| == |d.pcs|
            && (forall u | 0 <= u < |d.pcs| && u != t :: d'.pcs[u] == d.pcs[u])
            && (if d.pcs[t].Claim? then d'.head == d.head + d.pcs[t].take && d'.pcs[t].Idle? else d'.head == d.head)
            && (d.pcs[t].Idle? ==> d' == d)
  {
  }

  lemma ClaimingKeeps<T>(s: State<T>, log: seq<D.Unit>, e: D.Event<T>) returns (log': seq<D.Unit>)
    requires Inv(s, log) && (e.Call? || e.Go?) && (e.Go? ==> e.t < |s.readers| && !s.d.pcs[e.t].Claim?)
    ensures Inv(ClaimingStep(s, e), log')
  {
    hide D.Inv, D.Advance, FlagsInv, GoneInv, ScanInv, SlotsInv, Disjoint, Apart, TailInv, ShapeOf;
    log' := D.StepKeeps(s.d, log, e);
    if e.t < |s.readers| {
      AdvanceFacts(s.d, e.t);
      if e.Call? && !s.readers[e.t].Away? {
        log' := log;
      }
    } else {
      log' := log;
    }
  }

  /** The claimed indices are new: nobody else holds any of them. */
  lemma HeldAfterClaim<T>(readers: seq<Reader<T>>, t: nat, first: nat, count: nat, i: nat)
    requires t < |readers| && readers[t].Away?
    ensures Held(readers[t := Holding(first, count, [], Indices(first, count))], i)
        <==> Held(readers, i) || first <= i < first + count
  {
    var readers' := readers[t := Holding(first, count, [], Indices(first, count))];
    if Held(readers, i) {
      var u :| 0 <= u < |readers| && readers[u].Holding? && i in readers[u].left;
      assert readers'[u] == readers[u];
    }
    if first <= i < first + count {
      assert i in readers'[t].left;
    }
  }

  lemma HeldIsClaimed<T>(s: State<T>, log: seq<D.Unit>, i: nat)
    requires Inv(s, log) && Held(s.readers, i)
    ensures i < s.d.head && SIZE * s.oldest <= i
  {
    hide D.Inv, FlagsInv, ScanInv, SlotsInv, Disjoint, Apart, TailInv, ShapeOf;
    var t :| 0 <= t < |s.readers| && s.readers[t].Holding? && i in s.readers[t].left;
    assert ReaderInv(s.readers[t], s.d.pcs[t], s.d.items, s.d.head);
  }

  lemma HolderHolds<T>(readers: seq<Reader<T>>, u: nat, i: nat)
    requires u < |readers| && readers[u].Holding? && i in readers[u].left
    ensures Held(readers, i)
  {
  }

  lemma FlagsAfterClaim<T>(s: State<T>, log: seq<D.Unit>, t: nat, take: nat)
    requires Inv(s, log) && t < |s.readers| && s.readers[t].Away?
    ensures var readers' := s.readers[t := Holding(s.d.head, take, [], Indices(s.d.head, take))];
            && FlagsInv(s.blocks, s.place, s.oldest, s.producer, readers', s.d.head + take)
            && GoneInv(s.oldest, readers', s.d.head + take)
            && Disjoint(readers')
  {
    hide D.Inv, ReaderInv, SlotsInv, Apart, TailInv, ShapeOf, FlagAt, Held;
    var readers' := s.readers[t := Holding(s.d.head, take, [], Indices(s.d.head, take))];
    forall i: nat ensures Held(readers', i) <==> Held(s.readers, i) || s.d.head <= i < s.d.head + take {
      HeldAfterClaim(s.readers, t, s.d.head, take, i);
    }
    forall i: nat | Held(s.readers, i) ensures i < s.d.head {
      HeldIsClaimed(s, log, i);
    }
    forall u, i | 0 <= u < |s.readers| && s.readers[u].Holding? && i in s.readers[u].left ensures i < s.d.head {
      HolderHolds(s.readers, u, i);
    }
  }

  lemma ClaimKeeps<T>(s: State<T>, log: seq<D.Unit>, t: nat) returns (log': seq<D.Unit>)
    requires Inv(s, log) && t < |s.readers| && s.d.pcs[t].Claim?
    ensures Inv(Claim(s, t), log')
  {
    hide D.Inv, D.Advance, FlagsInv, GoneInv, ScanInv, SlotsInv, Disjoint, Apart, TailInv, ShapeOf;
    assert ReaderInv(s.readers[t], s.d.pcs[t], s.d.items, s.d.head);
    log' := D.StepKeeps(s.d, log, D.Go(t));
    D.AcceptedHasRoom(s.d, log, t);
    AdvanceFacts(s.d, t);
    FlagsAfterClaim(s, log, t, s.d.pcs[t].take);
  }

  lemma InRing(i: nat, oldest: nat, started: nat)
    requires SIZE * oldest <= i < SIZE * started
    ensures oldest <= i / SIZE < started && Nth(i / SIZE, i % SIZE) == i
  {
  }

  /** A held index has its slot in the ring, and the slot holds its element. */
  lemma HeldSlot<T>(s: State<T>, log: seq<D.Unit>, i: nat)
    requires Inv(s, log) && Held(s.readers, i)
    ensures s.oldest <= i / SIZE < |s.place| && i < |s.d.items| && Lookup(s, i) == Some(s.d.items[i])
    ensures !Stale(s.producer, |s.place|, i / SIZE, i % SIZE)
  {
    hide D.Inv, ReaderInv, FlagsInv, GoneInv, ScanInv, Disjoint, Apart, ShapeOf, Slot, Held;
    HeldIsClaimed(s, log, i);
    InRing(i, s.oldest, |s.place|);
  }

  lemma HeldAfter<T>(readers: seq<Reader<T>>, t: nat, r: Reader<T>, i: nat)
    requires t < |readers| && readers[t].Holding? && Disjoint(readers) && i in readers[t].left
    requires r == readers[t].(left := readers[t].left - {i})
    ensures forall j: nat :: Held(readers[t := r], j) <==> Held(readers, j) && j != i
    ensures Disjoint(readers[t := r])
  {
    var readers' := readers[t := r];
    forall j: nat ensures Held(readers', j) <==> Held(readers, j) && j != i {
      if Held(readers, j) && j != i {
        var u :| 0 <= u < |readers| && readers[u].Holding? && j in readers[u].left;
        assert readers'[u].Holding? && j in readers'[u].left;
      }
    }
  }

  /** A reader that changes nothing but what it has read. */
  lemma SameHeld<T>(readers: seq<Reader<T>>, t: nat, r: Reader<T>)
    requires t < |readers|
    requires if readers[t].Holding? && readers[t].left != {} then r.Holding? && r.left == readers[t].left
             else r.Away? || r.left == {}
    ensures forall i: nat :: Held(readers[t := r], i) <==> Held(readers, i)
    ensures Disjoint(readers) ==> Disjoint(readers[t := r])
  {
    var readers' := readers[t := r];
    forall i: nat ensures Held(readers', i) <==> Held(readers, i) {
      if Held(readers, i) {
        var u :| 0 <= u < |readers| && readers[u].Holding? && i in readers[u].left;
        assert readers'[u].Holding? && i in readers'[u].left;
      }
    }
  }

  lemma SameHolders<T>(s: State<T>, readers': seq<Reader<T>>)
    requires Shape(s) && forall i: nat :: Held(readers', i) <==> Held(s.readers, i)
    ensures FlagsInv(s.blocks, s.place, s.oldest, s.producer, readers', s.d.head)
       <==> FlagsInv(s.blocks, s.place, s.oldest, s.producer, s.readers, s.d.head)
    ensures GoneInv(s.oldest, readers', s.d.head) <==> GoneInv(s.oldest, s.readers, s.d.head)
  {
    hide Held, FlagAt, ShapeOf;
  }

  lemma ReadKeeps<T>(s: State<T>, log: seq<D.Unit>, t: nat)
    requires Inv(s, log)
    ensures Inv(Step(s, Read(t)), log)
  {
    hide D.Inv, FlagsInv, GoneInv, ScanInv, SlotsInv, Apart, TailInv, ShapeOf, Lookup, Held;
    if t < |s.readers| && s.readers[t].Holding? && |s.readers[t].got| < s.readers[t].count {
      var r := s.readers[t];
      var i := r.first + |r.got|;
      assert ReaderInv(r, s.d.pcs[t], s.d.items, s.d.head);
      HolderHolds(s.readers, t, i);
      HeldSlot(s, log, i);
      SameHeld(s.readers, t, r.(got := r.got + [Lookup(s, i)]));
      SameHolders(s, s.readers[t := r.(got := r.got + [Lookup(s, i)])]);
    }
  }

  lemma LeaveKeeps<T>(s: State<T>, log: seq<D.Unit>, t: nat)
    requires Inv(s, log)
    ensures Inv(Step(s, Leave(t)), log)
  {
    hide D.Inv, FlagsInv, GoneInv, ScanInv, SlotsInv, Apart, TailInv, ShapeOf, Lookup, Held;
    if t < |s.readers| && s.readers[t].Holding? && s.readers[t].left == {} {
      SameHeld(s.readers, t, Away);
      SameHolders(s, s.readers[t := Away]);
    }
  }

  /** Setting one flag of one block of the ring. */
  lemma FlagSet<T>(blocks: seq<Block<T>>, place: seq<nat>, oldest: nat, m: nat, k: nat, value: bool)
    requires ShapeOf(blocks, place) && Apart(place, oldest) && oldest <= m < |place| && k < SIZE
    ensures var blocks' := SetFlag(blocks, place, m, k, value);
            && (forall n, l | oldest <= n < |place| && 0 <= l < SIZE ::
                  FlagAt(blocks', place, n, l) == if n == m && l == k then value else FlagAt(blocks, place, n, l))
            && (forall n, l | oldest <= n < |place| && 0 <= l < SIZE ::
                  Slot(blocks', place, n, l) == Slot(blocks, place, n, l))
  {
  }

  lemma GoneAfter<T>(oldest: nat, readers: seq<Reader<T>>, readers': seq<Reader<T>>, head: nat)
    requires GoneInv(oldest, readers, head) && forall j: nat :: Held(readers', j) ==> Held(readers, j)
    ensures GoneInv(oldest, readers', head)
  {
    hide Held;
  }

  lemma InvAfterFlag<T>(s: State<T>, log: seq<D.Unit>, t: nat, i: nat)
    requires Inv(s, log) && t < |s.readers| && s.readers[t].Holding? && i in s.readers[t].left
    requires s.oldest <= i / SIZE < |s.place| && i < s.d.head && !Stale(s.producer, |s.place|, i / SIZE, i % SIZE)
    ensures var readers' := s.readers[t := s.readers[t].(left := s.readers[t].left - {i})];
            var blocks' := SetFlag(s.blocks, s.place, i / SIZE, i % SIZE, true);
            && FlagsInv(blocks', s.place, s.oldest, s.producer, readers', s.d.head)
            && GoneInv(s.oldest, readers', s.d.head)
            && ScanInv(blocks', s.place, s.oldest, s.producer)
            && SlotsInv(blocks', s.place, s.oldest, s.producer, s.d.items)
  {
    hide D.Inv, ReaderInv, Apart, ShapeOf, Held, Slot, FlagAt, SetFlag, Stale, Disjoint;
    var r := s.readers[t];
    HeldAfter(s.readers, t, r.(left := r.left - {i}), i);
    FlagSet(s.blocks, s.place, s.oldest, i / SIZE, i % SIZE, true);
    NthUnique(i);
    hide Nth;
    GoneAfter(s.oldest, s.readers, s.readers[t := r.(left := r.left - {i})], s.d.head);
  }

  lemma FlagKeeps<T>(s: State<T>, log: seq<D.Unit>, t: nat, i: nat)
    requires Inv(s, log)
    ensures Inv(Step(s, Flag(t, i)), log)
  {
    hide D.Inv, FlagsInv, GoneInv, ScanInv, SlotsInv, Apart, TailInv, ShapeOf, Held, Slot, FlagAt, SetFlag, Stale;
    if t < |s.readers| && s.readers[t].Holding? && i in s.readers[t].left
       && i < s.readers[t].first + |s.readers[t].got| && i / SIZE < |s.place| {
      var r := s.readers[t];
      assert ReaderInv(r, s.d.pcs[t], s.d.items, s.d.head);
      HolderHolds(s.readers, t, i);
      HeldSlot(s, log, i);
      HeldIsClaimed(s, log, i);
      HeldAfter(s.readers, t, r.(left := r.left - {i}), i);
      InvAfterFlag(s, log, t, i);
    }
  }

  // ----- Producer steps -----

  lemma EnqueueKeeps<T>(s: State<T>, log: seq<D.Unit>, x: T)
    requires Inv(s, log)
    ensures Inv(Step(s, Enqueue(x)), log)
  {
    hide D.Inv, ReaderInv, GoneInv, Apart, ShapeOf, Held, Slot, FlagAt, Disjoint;
  }

  /** All flags of the oldest block are set, so none of its elements is waited for. */
  lemma OldestIsGone<T>(s: State<T>, log: seq<D.Unit>)
    requires Inv(s, log) && s.producer.Scan? && s.producer.j == SIZE
    ensures GoneInv(s.oldest + 1, s.readers, s.d.head)
  {
    hide D.Inv, ReaderInv, SlotsInv, Apart, ShapeOf, Held, FlagAt, Disjoint;
    forall k | 0 <= k < SIZE ensures Nth(s.oldest, k) < s.d.head && !Held(s.readers, Nth(s.oldest, k)) {
      assert FlagAt(s.blocks, s.place, s.oldest, k);
      assert !Stale(s.producer, |s.place|, s.oldest, k);
    }
    assert Nth(s.oldest, SIZE - 1) < s.d.head;
    forall i | 0 <= i < SIZE * (s.oldest + 1) ensures !Held(s.readers, i) {
      if i >= SIZE * s.oldest {
        assert Nth(s.oldest, i - SIZE * s.oldest) == i;
      }
    }
  }

  lemma ReusedFlags<T>(s: State<T>, log: seq<D.Unit>, x: T)
    requires Inv(s, log) && s.producer.Scan? && s.producer.j == SIZE
    ensures var place' := s.place + [s.place[s.oldest]];
            && ShapeOf(s.blocks, place') && Apart(place', s.oldest + 1)
            && FlagsInv(s.blocks, place', s.oldest + 1, Clear(x, 0), s.readers, s.d.head)
            && SlotsInv(s.blocks, place', s.oldest + 1, Clear(x, 0), s.d.items)
  {
    hide D.Inv, ReaderInv, Held, Disjoint, GoneInv, ScanInv;
    var place' := s.place + [s.place[s.oldest]];
    assert forall m | 0 <= m < |s.place| :: place'[m] == s.place[m];
    forall m, k | s.oldest + 1 <= m < |place'| && 0 <= k < SIZE && !Stale(Clear(x, 0), |place'|, m, k)
      ensures FlagAt(s.blocks, place', m, k) <==> Nth(m, k) < s.d.head && !Held(s.readers, Nth(m, k))
    {
      assert m < |s.place| && FlagAt(s.blocks, place', m, k) == FlagAt(s.blocks, s.place, m, k);
    }
    forall m, k | s.oldest + 1 <= m < |place'| && 0 <= k < SIZE && Nth(m, k) < |s.d.items|
      ensures Slot(s.blocks, place', m, k) == Some(s.d.items[Nth(m, k)])
    {
      assert m < |s.place| && Slot(s.blocks, place', m, k) == Slot(s.blocks, s.place, m, k);
    }
  }

  /** Outside clearing and publishing the producer's point does not matter to flags and slots. */
  lemma NotClearing<T>(blocks: seq<Block<T>>, place: seq<nat>, oldest: nat, p: Producer<T>, p': Producer<T>,
                       readers: seq<Reader<T>>, head: nat, items: seq<T>)
    requires ShapeOf(blocks, place) && !p'.Clear? && !p'.Publish? && (p.Clear? ==> p.j == SIZE)
    requires FlagsInv(blocks, place, oldest, p, readers, head) && SlotsInv(blocks, place, oldest, p, items)
    ensures FlagsInv(blocks, place, oldest, p', readers, head) && SlotsInv(blocks, place, oldest, p', items)
  {
    hide ShapeOf, Held, Slot, FlagAt, Nth;
  }

  lemma ScanKeeps<T>(s: State<T>, log: seq<D.Unit>)
    requires Inv(s, log) && s.producer.Scan?
    ensures Inv(ProducerStep(s), log)
  {
    hide D.Inv, ReaderInv, Apart, ShapeOf, Held, Slot, FlagAt, Disjoint, GoneInv, FlagsInv, SlotsInv;
    if s.producer.j == SIZE {
      OldestIsGone(s, log);
      ReusedFlags(s, log, s.producer.x);
    } else {
      NotClearing(s.blocks, s.place, s.oldest, s.producer, ProducerStep(s).producer, s.readers, s.d.head, s.d.items);
    }
  }

  lemma FlagCleared<T>(s: State<T>, log: seq<D.Unit>)
    requires Inv(s, log) && s.producer.Clear? && s.producer.j < SIZE
    ensures var blocks' := SetFlag(s.blocks, s.place, |s.place| - 1, s.producer.j, false);
            var next := Clear(s.producer.x, s.producer.j + 1);
            && FlagsInv(blocks', s.place, s.oldest, next, s.readers, s.d.head)
            && SlotsInv(blocks', s.place, s.oldest, next, s.d.items)
  {
    hide D.Inv, ReaderInv, Apart, ShapeOf, Held, Slot, FlagAt, SetFlag, Disjoint, GoneInv;
    FlagSet(s.blocks, s.place, s.oldest, |s.place| - 1, s.producer.j, false);
    assert Nth(|s.place| - 1, s.producer.j) >= |s.d.items|;
    hide Nth;
  }

  lemma ClearKeeps<T>(s: State<T>, log: seq<D.Unit>)
    requires Inv(s, log) && s.producer.Clear?
    ensures Inv(ProducerStep(s), log)
  {
    hide D.Inv, ReaderInv, Apart, ShapeOf, Held, Slot, FlagAt, Disjoint, GoneInv, FlagsInv, SlotsInv, SetFlag;
    if s.producer.j == SIZE {
      NotClearing(s.blocks, s.place, s.oldest, s.producer, Store(s.producer.x), s.readers, s.d.head, s.d.items);
    } else {
      FlagCleared(s, log);
    }
  }

  /** Writing one slot of one block of the ring. */
  lemma SlotSet<T>(blocks: seq<Block<T>>, place: seq<nat>, oldest: nat, m: nat, k: nat, x: T)
    requires ShapeOf(blocks, place) && Apart(place, oldest) && oldest <= m < |place| && k < SIZE
    ensures var blocks' := SetSlot(blocks, place, m, k, x);
            && (forall n, l | oldest <= n < |place| && 0 <= l < SIZE ::
                  Slot(blocks', place, n, l) == if n == m && l == k then Some(x) else Slot(blocks, place, n, l))
            && (forall n, l | oldest <= n < |place| && 0 <= l < SIZE ::
                  FlagAt(blocks', place, n, l) == FlagAt(blocks, place, n, l))
  {
  }

  lemma TailSlot(tail: nat, started: nat)
    requires started > 0 && SIZE * (started - 1) <= tail < SIZE * started
    ensures Nth(started - 1, tail % SIZE) == tail
  {
  }

  lemma StoreKeeps<T>(s: State<T>, log: seq<D.Unit>)
    requires Inv(s, log) && s.producer.Store?
    ensures Inv(ProducerStep(s), log)
  {
    hide D.Inv, ReaderInv, Apart, ShapeOf, Held, Slot, FlagAt, Disjoint, GoneInv, SetSlot;
    SlotSet(s.blocks, s.place, s.oldest, |s.place| - 1, |s.d.items| % SIZE, s.producer.x);
    TailSlot(|s.d.items|, |s.place|);
    NthUnique(|s.d.items|);
    hide Nth;
  }

  lemma PublishKeeps<T>(s: State<T>, log: seq<D.Unit>) returns (log': seq<D.Unit>)
    requires Inv(s, log) && s.producer.Publish?
    ensures Inv(ProducerStep(s), log')
  {
    hide D.Inv, Apart, ShapeOf, Held, Slot, FlagAt, Disjoint, GoneInv;
    log' := D.StepKeeps(s.d, log, D.Enqueue([s.producer.x]));
    TailSlot(|s.d.items|, |s.place|);
    NthUnique(|s.d.items|);
    hide Nth;
  }

  lemma InsertedFlags<T>(s: State<T>, log: seq<D.Unit>)
    requires Inv(s, log) && s.producer.Need?
    ensures var s' := Step(s, Insert);
            && ShapeOf(s'.blocks, s'.place) && Apart(s'.place, s.oldest)
            && FlagsInv(s'.blocks, s'.place, s.oldest, s'.producer, s.readers, s.d.head)
            && SlotsInv(s'.blocks, s'.place, s.oldest, s'.producer, s.d.items)
  {
    hide D.Inv, ReaderInv, Held, Disjoint, GoneInv, ScanInv;
    var s' := Step(s, Insert);
    forall m, k | s.oldest <= m < |s'.place| && 0 <= k < SIZE
      ensures FlagAt(s'.blocks, s'.place, m, k) <==> Nth(m, k) < s.d.head && !Held(s.readers, Nth(m, k))
      ensures Nth(m, k) < |s.d.items| ==> Slot(s'.blocks, s'.place, m, k) == Some(s.d.items[Nth(m, k)])
    {
      if m < |s.place| {
        assert FlagAt(s'.blocks, s'.place, m, k) == FlagAt(s.blocks, s.place, m, k);
        assert Slot(s'.blocks, s'.place, m, k) == Slot(s.blocks, s.place, m, k);
      }
    }
  }

  lemma InsertKeeps<T>(s: State<T>, log: seq<D.Unit>)
    requires Inv(s, log)
    ensures Inv(Step(s, Insert), log)
  {
    hide D.Inv, ReaderInv, Held, Disjoint;
    if s.producer.Need? {
      InsertedFlags(s, log);
    }
    hide FlagsInv, SlotsInv, Apart, ShapeOf, GoneInv;
  }

  lemma FailKeeps<T>(s: State<T>, log: seq<D.Unit>)
    requires Inv(s, log)
    ensures Inv(Step(s, Fail), log)
  {
    hide D.Inv, ReaderInv, Apart, ShapeOf, Held, Disjoint, GoneInv, FlagsInv, SlotsInv;
    if s.producer.Need? {
      NotClearing(s.blocks, s.place, s.oldest, s.producer, Resting, s.readers, s.d.head, s.d.items);
    }
  }

  lemma ProducerKeeps<T>(s: State<T>, log: seq<D.Unit>) returns (log': seq<D.Unit>)
    requires Inv(s, log)
    ensures Inv(ProducerStep(s), log')
  {
    hide Inv;
    log' := log;
    match s.producer
    case Resting =>
    case Need(_) =>
    case Scan(_, _) => ScanKeeps(s, log);
    case Clear(_, _) => ClearKeeps(s, log);
    case Store(_) => StoreKeeps(s, log);
    case Publish(_) => log' := PublishKeeps(s, log);
  }

  lemma InvShape<T>(s: State<T>, log: seq<D.Unit>)
    requires Inv(s, log)
    ensures Shape(s) && |s.readers| == |s.d.pcs|
  {
  }

  lemma StepKeeps<T>(s: State<T>, log: seq<D.Unit>, e: Event<T>) returns (log': seq<D.Unit>)
    requires Inv(s, log)
    ensures Inv(Step(s, e), log')
  {
    hide Inv, Claim, ReaderStep, ProducerStep;
    InvShape(s, log);
    log' := log;
    match e
    case Claiming(e) =>
      if e.Go? && e.t < |s.readers| && s.d.pcs[e.t].Claim? {
        log' := ClaimKeeps(s, log, e.t);
      } else if e.Call? || (e.Go? && e.t < |s.readers|) {
        log' := ClaimingKeeps(s, log, e);
      }
    case Read(t) => ReadKeeps(s, log, t);
    case Flag(t, i) => FlagKeeps(s, log, t, i);
    case Leave(t) => LeaveKeeps(s, log, t);
    case Enqueue(x) => EnqueueKeeps(s, log, x);
    case Produce => log' := ProducerKeeps(s, log);
    case Insert => InsertKeeps(s, log);
    case Fail => FailKeeps(s, log);
  }

  lemma StartKeeps<T>(s: State<T>)
    requires Init(s)
    ensures Inv(s, [])
  {
    var log := D.RunKeeps(s.d, []);
    assert log == [];
  }

  lemma {:induction false} RunKeeps<T>(s: State<T>, es: seq<Event<T>>) returns (log: seq<D.Unit>)
    requires Init(s)
    ensures Inv(Run(s, es), log)
  {
    hide Inv;
    if es == [] {
      log := [];
      StartKeeps(s);
    } else {
      log := RunKeeps(s, es[..|es| - 1]);
      log := StepKeeps(Run(s, es[..|es| - 1]), log, es[|es| - 1]);
    }
  }

  // ----- What consumers and the producer rely on -----

  /** In every interleaving of consumers, claims and block reuse, what a consumer has read are the
      elements of its indices. */
  lemma ReadsAreRight<T>(s0: State<T>, es: seq<Event<T>>, t: nat, k: nat)
    requires Init(s0) && t < |Run(s0, es).readers|
    requires var r := Run(s0, es).readers[t]; r.Holding? && k < |r.got|
    ensures var s := Run(s0, es);
            var Holding(first, count, got, left) := s.readers[t];
            first + count <= |s.d.items| && k < count && got[k] == Some(s.d.items[first + k])
  {
    hide D.Inv, FlagsInv, GoneInv, ScanInv, SlotsInv, Disjoint, Apart, TailInv, ShapeOf, Run;
    var log := RunKeeps(s0, es);
    var s := Run(s0, es);
    assert ReaderInv(s.readers[t], s.d.pcs[t], s.d.items, s.d.head);
  }

  /** A slot that was claimed and is not yet flagged is not used again: its block is in the ring and
      holds the element, no other consumer has it, and the producer does not write there. */
  lemma ClaimedSlotIsSafe<T>(s0: State<T>, es: seq<Event<T>>, t: nat, i: nat)
    requires Init(s0) && t < |Run(s0, es).readers|
    requires var r := Run(s0, es).readers[t]; r.Holding? && i in r.left
    ensures var s := Run(s0, es);
            && s.oldest <= i / SIZE < |s.place| && i < |s.d.items| && Lookup(s, i) == Some(s.d.items[i])
            && (s.producer.Clear? ==> s.place[i / SIZE] != s.place[|s.place| - 1])
            && (s.producer.Store? && s.place[i / SIZE] == s.place[|s.place| - 1] ==> i % SIZE != |s.d.items| % SIZE)
            && (forall u | 0 <= u < |s.readers| && u != t && s.readers[u].Holding? :: i !in s.readers[u].left)
  {
    hide D.Inv, FlagsInv, ScanInv, SlotsInv, ReaderInv, ShapeOf, Held, Lookup, Run;
    var log := RunKeeps(s0, es);
    var s := Run(s0, es);
    HolderHolds(s.readers, t, i);
    HeldSlot(s, log, i);
  }

  /** A block is used again only when all its elements were claimed and flagged. */
  lemma ReusedOnlyWhenGone<T>(s0: State<T>, es: seq<Event<T>>, i: nat)
    requires Init(s0) && i < SIZE * Run(s0, es).oldest
    ensures var s := Run(s0, es); i < s.d.head && !Held(s.readers, i)
  {
    var log := RunKeeps(s0, es);
    hide D.Inv, FlagsInv, ScanInv, SlotsInv, ReaderInv, ShapeOf, Held, Disjoint, Apart, TailInv;
  }

  /** No block is lost: once its elements were claimed and no consumer holds one, the scan of the
      oldest block succeeds. */
  lemma OldestBecomesReusable<T>(s0: State<T>, es: seq<Event<T>>, k: nat)
    requires Init(s0) && k < SIZE
    requires var s := Run(s0, es);
             && s.producer.Scan? && SIZE * (s.oldest + 1) <= s.d.head
             && forall j | 0 <= j < SIZE :: !Held(s.readers, Nth(s.oldest, j))
    ensures var s := Run(s0, es); FlagAt(s.blocks, s.place, s.oldest, k)
  {
    var log := RunKeeps(s0, es);
    var s := Run(s0, es);
    hide D.Inv, ScanInv, SlotsInv, ReaderInv, ShapeOf, Held, Disjoint, Apart, FlagAt;
    assert !Stale(s.producer, |s.place|, s.oldest, k);
  }
}
