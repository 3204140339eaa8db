/** How consumers find blocks through the circular block index while the producer enters new blocks
    in it and replaces it by larger ones: the steps of `SlotSafety`, and between them the loads of
    the header, of its front, of the base there and of the block, the producer's two writes to a
    slot and its store of the front, and the swap of the header.

    Bases and indices are 64-bit words that wrap. A header that was replaced stays as it was, and a
    consumer may go on using it. `start` (the block in slot 0 when the header was made) and
    `entered` (how many blocks were started up to the one at the front) are not in the code; nothing
    is computed from them. */
module IndexLookup {
  import opened Basics
  import opened Index
  import D = OptimisticDequeue
  import E = ExplicitProducer
  import S = SlotSafety

  const SIZE: nat := S.SIZE

  datatype Header = Header(exponent: nat, bases: seq<nat>, blocks: seq<nat>, front: nat, start: nat, entered: nat)

  /** What the producer has yet to do to the index for a block it has started. */
  datatype Entering = Done | WriteBase | WriteBlock | StoreFront

  /** What a consumer has loaded; `j` counts the blocks it has gone on from the first, and `m` is what
      `entered` was when the front was loaded. */
  datatype Finder =
    | Start
    | AtHeader(h: nat)
    | AtFront(h: nat, front: nat, m: nat)
    | AtSlot(h: nat, slot: nat, j: nat)
    | AtBlock(h: nat, slot: nat, j: nat, block: nat)

  datatype State<T> = State(s: S.State<T>, headers: seq<Header>, indexFront: nat, entering: Entering,
                            finders: seq<Finder>)

  datatype Event<T> =
    | Inner(e: S.Event<T>)
    | Enter               // the next write of the producer to the index
    | Grow                // new_block_index
    | Look(t: nat)        // the next load of a consumer
    | Next(t: nat)        // on to the next block

  predicate HeaderShape(h: Header)
  {
    h.exponent <= 59 && |h.bases| == |h.blocks| == Pow2(h.exponent)
  }

  predicate FinderShape(headers: seq<Header>, f: Finder)
  {
    && (!f.Start? ==> f.h < |headers|)
    && (f.AtSlot? || f.AtBlock? ==> f.slot < |headers[f.h].blocks|)
  }

  function Last(headers: seq<Header>): Header
    requires headers != []
  {
    headers[|headers| - 1]
  }

  predicate Shape<T>(st: State<T>)
  {
    && S.Shape(st.s) && |st.finders| == |st.s.readers|
    && (forall k | 0 <= k < |st.headers| :: HeaderShape(st.headers[k]))
    && (forall t | 0 <= t < |st.finders| :: FinderShape(st.headers, st.finders[t]))
    && (st.headers != [] ==> st.indexFront < |Last(st.headers).blocks|)
  }

  function SetLast(headers: seq<Header>, h: Header): seq<Header>
    requires headers != []
  {
    headers[|headers| - 1 := h]
  }

  /** The consumer is at the block of index `i`. */
  predicate On<T>(r: S.Reader<T>, f: Finder, i: nat)
  {
    r.Holding? && f.AtBlock? && i / SIZE == r.first / SIZE + f.j
  }

  /** The element is published only when its block is in the index, a block is inserted only when the
      index has room, and a consumer reads and flags in the block it has found. */
  predicate Allowed<T>(st: State<T>, e: S.Event<T>)
    requires Shape(st)
  {
    match e
    case Produce => st.s.producer.Publish? ==> st.entering == Done
    case Insert => st.headers != [] && |st.s.place| - st.s.oldest < |Last(st.headers).blocks|
    case Read(t) =>
      t < |st.finders| && st.s.readers[t].Holding?
      && On(st.s.readers[t], st.finders[t], st.s.readers[t].first + |st.s.readers[t].got|)
    case Flag(t, i) => t < |st.finders| && On(st.s.readers[t], st.finders[t], i)
    case _ => true
  }

  function InnerStep<T>(st: State<T>, e: S.Event<T>): (st': State<T>)
    requires Shape(st)
    ensures Shape(st')
  {
    if !Allowed(st, e) then st
    else
      var s' := S.Step(st.s, e);
      st.(s := s',
          entering := if |s'.place| > |st.s.place| then WriteBase else st.entering,
          finders := if e.Leave? && e.t < |st.finders| && s'.readers[e.t].Away? then st.finders[e.t := Start]
                     else st.finders)
  }

  /** The producer enters its newest block: the base, the block, and then the front for consumers. */
  function EnterStep<T>(st: State<T>): (st': State<T>)
    requires Shape(st)
    ensures Shape(st')
  {
    if st.headers == [] || st.s.place == [] then st
    else
      var h, k := Last(st.headers), st.indexFront;
      match st.entering
      case Done => st
      case WriteBase =>
        st.(headers := SetLast(st.headers, h.(bases := h.bases[k := Word(|st.s.d.items|)])), entering := WriteBlock)
      case WriteBlock =>
        var block := st.s.place[|st.s.place| - 1];
        st.(headers := SetLast(st.headers, h.(blocks := h.blocks[k := block])), entering := StoreFront)
      case StoreFront =>
        st.(headers := SetLast(st.headers, h.(front := k, entered := |st.s.place|)), entering := Done,
            indexFront := Mask(k + 1, |h.blocks|))
  }

  /** The header of twice the size, with the used slots from the oldest on; the first one has 32. */
  function Grown(headers: seq<Header>, indexFront: nat, used: nat, oldest: nat): (h: Header)
    requires forall k | 0 <= k < |headers| :: HeaderShape(headers[k])
    requires headers != [] ==> indexFront < |Last(headers).blocks| && Last(headers).exponent < 59
    requires used <= if headers == [] then 0 else |Last(headers).blocks|
    ensures HeaderShape(h) && used < |h.blocks|
  {
    if headers == [] then
      SmallPowers();
      Header(5, seq(32, _ => 0), seq(32, _ => 0), Word(-1), oldest, oldest)
    else
      var prev := headers[|headers| - 1];
      assert HeaderShape(prev);
      var size := |prev.blocks|;
      Pow2Doubles(prev.exponent);
      Header(prev.exponent + 1,
             seq(2 * size, j requires 0 <= j < 2 * size =>
                   if j < used then prev.bases[Behind(indexFront, used - j, size)] else 0),
             seq(2 * size, j requires 0 <= j < 2 * size =>
                   if j < used then prev.blocks[Behind(indexFront, used - j, size)] else 0),
             Word(used - 1), oldest, oldest + used)
  }

  /** `new_block_index` for a producer that needs a slot; the swap of the header is its only step that
      consumers can see. Sizes stay within what half the index range allows. */
  function GrowStep<T>(st: State<T>): (st': State<T>)
    requires Shape(st)
    ensures Shape(st')
  {
    var used := |st.s.place| - st.s.oldest;
    if !st.s.producer.Need? || st.entering != Done then st
    else if st.headers == [] then
      if used == 0 then st.(headers := [Grown([], 0, 0, st.s.oldest)], indexFront := 0) else st
    else if used == |Last(st.headers).blocks| && Last(st.headers).exponent < 59 then
      st.(headers := st.headers + [Grown(st.headers, st.indexFront, used, st.s.oldest)], indexFront := used)
    else st
  }

  function SetFinder<T>(st: State<T>, t: nat, f: Finder): (st': State<T>)
    requires Shape(st) && t < |st.finders| && FinderShape(st.headers, f)
    ensures Shape(st')
  {
    st.(finders := st.finders[t := f])
  }

  /** The loads of the lookup, one by one. */
  function LookStep<T>(st: State<T>, t: nat): (st': State<T>)
    requires Shape(st)
    ensures Shape(st')
  {
    if t >= |st.finders| || !st.s.readers[t].Holding? then st
    else
      var r := st.s.readers[t];
      assert FinderShape(st.headers, st.finders[t]);
      match st.finders[t]
      case Start => if st.headers == [] then st else SetFinder(st, t, AtHeader(|st.headers| - 1))
      case AtHeader(h) => SetFinder(st, t, AtFront(h, st.headers[h].front, st.headers[h].entered))
      case AtFront(h, front, _) =>
        var size := |st.headers[h].blocks|;
        if front >= size || r.count == 0 then st
        else
          assert HeaderShape(st.headers[h]);
          var index := Word(r.first);
          var offset := Word(index - index % SIZE - st.headers[h].bases[front]) / SIZE;
          SetFinder(st, t, AtSlot(h, Mask(front + offset, size), 0))
      case AtSlot(h, slot, j) =>
        if |r.got| < r.count && (r.first + |r.got|) / SIZE == r.first / SIZE + j
        then SetFinder(st, t, AtBlock(h, slot, j, st.headers[h].blocks[slot])) else st
      case AtBlock(_, _, _, _) => st
  }

  /** On to the next slot, when the block is done with and there is more to read. */
  function NextStep<T>(st: State<T>, t: nat): (st': State<T>)
    requires Shape(st)
    ensures Shape(st')
  {
    if t >= |st.finders| || !st.s.readers[t].Holding? || !st.finders[t].AtBlock? then st
    else
      var r := st.s.readers[t];
      assert FinderShape(st.headers, st.finders[t]);
      var AtBlock(h, slot, j, _) := st.finders[t];
      if |r.got| < r.count && (forall i | i in r.left :: i / SIZE > r.first / SIZE + j)
      then SetFinder(st, t, AtSlot(h, Mask(slot + 1, |st.headers[h].blocks|), j + 1)) else st
  }

  /** An event that its guard does not allow changes nothing. */
  function Step<T>(st: State<T>, e: Event<T>): (st': State<T>)
    requires Shape(st)
    ensures Shape(st')
  {
    match e
    case Inner(e) => InnerStep(st, e)
    case Enter => EnterStep(st)
    case Grow => GrowStep(st)
    case Look(t) => LookStep(st, t)
    case Next(t) => NextStep(st, t)
  }

  function Run<T>(st: State<T>, es: seq<Event<T>>): (st': State<T>)
    requires Shape(st)
    ensures Shape(st')
  {
    if es == [] then st else Step(Run(st, es[..|es| - 1]), es[|es| - 1])
  }

  predicate Init<T>(st: State<T>)
  {
    && Shape(st) && S.Init(st.s)
    && st.headers == [] && st.entering == Done
    && forall t | 0 <= t < |st.finders| :: st.finders[t] == Start
  }

  // ----- The invariant -----

  /** The slot of block `n` in a header. */
  function SlotOf(start: nat, n: nat, size: nat): (slot: nat)
    requires size > 0 && start <= n
    ensures slot < size
  {
    (n - start) % size
  }

  /** The entries of the last `size` blocks are right; `bound` is one past the newest block whose
      entry may have been written over an older one. */
  predicate Right(h: Header, bound: nat, place: seq<nat>)
  {
    HeaderShape(h) && h.entered <= |place| &&
    forall n | h.start <= n < h.entered && bound <= n + |h.blocks| ::
      && h.blocks[SlotOf(h.start, n, |h.blocks|)] == place[n]
      && h.bases[SlotOf(h.start, n, |h.blocks|)] == Word(SIZE * n)
  }

  predicate HeaderInv(h: Header, bound: nat, oldest: nat, place: seq<nat>)
  {
    && Right(h, bound, place)
    && h.start <= oldest && h.start <= h.entered <= bound <= oldest + |h.blocks|
    && (h.entered > h.start ==> h.front == SlotOf(h.start, h.entered - 1, |h.blocks|))
  }

  /** In the header in use that is the newest block, in a replaced one the last one entered. */
  function Bound<T>(st: State<T>, k: nat): nat
    requires k < |st.headers|
  {
    if k + 1 == |st.headers| then |st.s.place| else st.headers[k].entered
  }

  /** The header in use has all started blocks but the one that is being entered. */
  predicate UseInv<T>(st: State<T>)
    requires Shape(st)
  {
    if st.headers == [] then st.s.place == [] && st.entering == Done
    else
      var h := Last(st.headers);
      && (st.entering != Done ==> st.s.place != [])
      && h.entered == |st.s.place| - (if st.entering == Done then 0 else 1)
      && h.start <= h.entered
      && st.indexFront == SlotOf(h.start, h.entered, |h.blocks|)
  }

  /** A block is being entered before any of its elements is published. */
  predicate EnterInv<T>(st: State<T>)
    requires Shape(st)
  {
    st.entering != Done ==>
      && st.headers != [] && st.s.place != []
      && |st.s.d.items| == SIZE * (|st.s.place| - 1)
      && (st.s.producer.Clear? || st.s.producer.Store? || st.s.producer.Publish?)
      && (st.entering != WriteBase ==> Last(st.headers).bases[st.indexFront] == Word(|st.s.d.items|))
      && (st.entering == StoreFront ==> Last(st.headers).blocks[st.indexFront] == st.s.place[|st.s.place| - 1])
  }

  predicate FinderInv<T>(f: Finder, r: S.Reader<T>, headers: seq<Header>, place: seq<nat>)
    requires FinderShape(headers, f) && forall k | 0 <= k < |headers| :: HeaderShape(headers[k])
  {
    if r.Away? then f.Start?
    else
      && (!f.Start? ==> HeaderShape(headers[f.h]))
      && (f.Start? || f.AtHeader? || f.AtFront? ==> r.got == [])
      && (!f.Start? && r.count > 0 ==> r.first + r.count <= SIZE * headers[f.h].entered)
      && (f.AtFront? && r.count > 0 ==>
            && headers[f.h].start < f.m <= headers[f.h].entered && r.first + r.count <= SIZE * f.m
            && f.front == SlotOf(headers[f.h].start, f.m - 1, |headers[f.h].blocks|))
      && (f.AtSlot? || f.AtBlock? ==>
            && r.count > 0 && headers[f.h].start <= r.first / SIZE + f.j
            && f.slot == SlotOf(headers[f.h].start, r.first / SIZE + f.j, |headers[f.h].blocks|))
      && (f.AtSlot? ==> |r.got| < r.count && (r.first + |r.got|) / SIZE == r.first / SIZE + f.j)
      && (f.AtBlock? ==> r.first / SIZE + f.j <= (r.first + |r.got|) / SIZE <= r.first / SIZE + f.j + 1)
      && (f.AtBlock? ==> r.first / SIZE + f.j < |place| && f.block == place[r.first / SIZE + f.j])
  }

  predicate FindersInv<T>(st: State<T>)
    requires Shape(st)
  {
    forall t | 0 <= t < |st.finders| :: FinderInv(st.finders[t], st.s.readers[t], st.headers, st.s.place)
  }

  predicate HeadersInv<T>(st: State<T>)
  {
    forall k | 0 <= k < |st.headers| :: HeaderInv(st.headers[k], Bound(st, k), st.s.oldest, st.s.place)
  }

  ghost predicate Inv<T>(st: State<T>, log: seq<D.Unit>)
  {
    && Shape(st) && S.Inv(st.s, log)
    && HeadersInv(st) && UseInv(st) && EnterInv(st) && FindersInv(st)
  }

  // ----- Slots -----

  /** Different blocks less than a whole turn apart have different slots. */
  lemma SlotsDiffer(start: nat, m: nat, n: nat, size: nat)
    requires size > 0 && start <= m < n < m + size
    ensures SlotOf(start, m, size) != SlotOf(start, n, size)
  {
    var q, f := (m - start) / size, (m - start) % size;
    assert m - start == size * q + f;
    if f + (n - m) < size {
      ModUnique(n - start, size, q, f + (n - m));
    } else {
      ModUnique(n - start, size, q + 1, f + (n - m) - size);
    }
  }

  lemma SlotAfter(start: nat, n: nat, size: nat)
    requires size > 0 && start <= n
    ensures SlotOf(start, n + 1, size) == if SlotOf(start, n, size) + 1 == size then 0 else SlotOf(start, n, size) + 1
  {
    var q, f := (n - start) / size, (n - start) % size;
    assert n - start == size * q + f;
    if f + 1 < size {
      ModUnique(n + 1 - start, size, q, f + 1);
    } else {
      ModUnique(n + 1 - start, size, q + 1, 0);
    }
  }

  /** Going back from the slot of one block to that of an earlier one. */
  lemma SlotBehind(start: nat, m: nat, n: nat, size: nat)
    requires size > 0 && start <= m <= n <= m + size
    ensures Behind(SlotOf(start, n, size), n - m, size) == SlotOf(start, m, size)
  {
    var q, f := (n - start) / size, (n - start) % size;
    assert n - start == size * q + f;
    if n - m <= f {
      ModUnique(m - start, size, q, f - (n - m));
    } else {
      ModUnique(m - start, size, q - 1, f + size - (n - m));
    }
  }

  lemma SlotFromStart(start: nat, n: nat, size: nat)
    requires start <= n < start + size
    ensures SlotOf(start, n, size) == n - start
  {
  }

  // ----- The inner steps -----

  /** What a step of `SlotSafety` does to the ring. */
  ghost predicate RingStep<T>(s: S.State<T>, s': S.State<T>)
  {
    && s.oldest <= s'.oldest && s.place <= s'.place && |s.d.items| <= |s'.d.items|
    && (s'.place == s.place ==> s'.oldest == s.oldest)
    && (s'.place != s.place ==>
          && |s'.place| == |s.place| + 1 && s'.oldest <= s.oldest + 1
          && s'.d.items == s.d.items && |s.d.items| == SIZE * |s.place|
          && (s'.producer.Clear? || s'.producer.Store?)
          && (s.producer.Scan? ==> s'.oldest == s.oldest + 1))
  }

  lemma ClaimingRing<T>(s: S.State<T>, e: D.Event<T>)
    requires S.Shape(s)
    ensures var s' := S.ClaimingStep(s, e);
            && s'.d.items == s.d.items && s'.place == s.place && s'.oldest == s.oldest && s'.producer == s.producer
  {
    if e.Go? && e.t < |s.readers| {
      S.AdvanceFacts(s.d, e.t);
    }
  }

  lemma InnerRing<T>(s: S.State<T>, log: seq<D.Unit>, e: S.Event<T>)
    requires S.Inv(s, log)
    ensures RingStep(s, S.Step(s, e))
    ensures S.Step(s, e).place != s.place ==> (e.Insert? && s.producer.Need?) || (e.Produce? && s.producer.Scan?)
    ensures S.Step(s, e).place == s.place && (s.producer.Clear? || s.producer.Store? || s.producer.Publish?)
            && !(e.Produce? && s.producer.Publish?) ==>
              var s' := S.Step(s, e);
              s'.d.items == s.d.items && (s'.producer.Clear? || s'.producer.Store? || s'.producer.Publish?)
  {
    hide S.FlagsInv, S.GoneInv, S.ScanInv, S.SlotsInv, S.ReaderInv, S.Disjoint, S.Apart, S.ShapeOf;
    hide S.SetFlag, S.SetSlot, S.FlagAt, S.Lookup, D.Inv;
    if e.Claiming? {
      ClaimingRing(s, e.e);
    }
  }

  /** What it does to a consumer. */
  ghost predicate ReaderStep<T>(r: S.Reader<T>, r': S.Reader<T>, own: bool)
  {
    || r' == r
    || r'.Away?
    || (r.Away? && r'.Holding? && r'.got == [])
    || (own && r.Holding? && r'.Holding? && r'.first == r.first && r'.count == r.count
        && |r.got| <= |r'.got| <= |r.got| + 1)
  }

  lemma InnerReaders<T>(s: S.State<T>, log: seq<D.Unit>, e: S.Event<T>, t: nat)
    requires S.Inv(s, log) && t < |s.readers|
    ensures ReaderStep(s.readers[t], S.Step(s, e).readers[t], (e.Read? || e.Flag?) && e.t == t)
    ensures s.readers[t].Holding? && S.Step(s, e).readers[t].Away? ==> e.Leave? && e.t == t
    ensures s.readers[t].Holding? && e.Flag? && S.Step(s, e).readers[t].Holding? ==>
              S.Step(s, e).readers[t].got == s.readers[t].got
  {
    hide S.FlagsInv, S.GoneInv, S.ScanInv, S.SlotsInv, S.Disjoint, S.Apart, S.ShapeOf, S.TailInv;
    hide S.SetFlag, S.SetSlot, S.FlagAt, S.Lookup, D.Inv, D.Advance;
    assert S.ReaderInv(s.readers[t], s.d.pcs[t], s.d.items, s.d.head);
  }

  lemma RightLater(h: Header, bound: nat, place: seq<nat>, bound': nat, place': seq<nat>)
    requires Right(h, bound, place) && bound <= bound' && place <= place'
    ensures Right(h, bound', place')
  {
    hide HeaderShape, SlotOf, Word;
  }

  lemma HeadersLater<T>(st: State<T>, st': State<T>)
    requires HeadersInv(st) && st'.headers == st.headers && RingStep(st.s, st'.s)
    requires st.headers != [] ==> |st'.s.place| <= st'.s.oldest + |Last(st.headers).blocks|
    ensures HeadersInv(st')
  {
    hide Right, SlotOf;
    forall k | 0 <= k < |st.headers| ensures HeaderInv(st.headers[k], Bound(st', k), st'.s.oldest, st'.s.place) {
      assert HeaderInv(st.headers[k], Bound(st, k), st.s.oldest, st.s.place);
      RightLater(st.headers[k], Bound(st, k), st.s.place, Bound(st', k), st'.s.place);
    }
  }

  /** The ring fits into the header in use. */
  lemma RingFits<T>(st: State<T>)
    requires HeadersInv(st) && st.headers != []
    ensures |st.s.place| <= st.s.oldest + |Last(st.headers).blocks|
  {
    hide Right, SlotOf;
    assert HeaderInv(st.headers[|st.headers| - 1], Bound(st, |st.headers| - 1), st.s.oldest, st.s.place);
  }

  lemma FinderLater<T>(f: Finder, r: S.Reader<T>, r': S.Reader<T>, own: bool, headers: seq<Header>,
                       place: seq<nat>, place': seq<nat>)
    requires FinderShape(headers, f) && forall k | 0 <= k < |headers| :: HeaderShape(headers[k])
    requires FinderInv(f, r, headers, place) && place <= place' && ReaderStep(r, r', own)
    requires own && r'.Holding? ==> f.AtBlock? && (r'.got == r.got || On(r, f, r.first + |r.got|))
    ensures (r'.Away? && r.Holding?) || FinderInv(f, r', headers, place')
    ensures r'.Away? ==> FinderInv(Start, r', headers, place')
  {
    hide SlotOf, HeaderShape;
  }

  lemma FindersLater<T>(st: State<T>, log: seq<D.Unit>, e: S.Event<T>)
    requires Inv(st, log) && Allowed(st, e) && st.s.place <= S.Step(st.s, e).place
    ensures FindersInv(InnerStep(st, e))
  {
    hide S.Inv, S.Step, HeadersInv, UseInv, EnterInv, HeaderShape, Last, FinderInv, FinderShape, ReaderStep;
    var s' := S.Step(st.s, e);
    forall t | 0 <= t < |st.finders|
      ensures FinderInv(InnerStep(st, e).finders[t], s'.readers[t], st.headers, s'.place)
    {
      assert FinderInv(st.finders[t], st.s.readers[t], st.headers, st.s.place);
      InnerReaders(st.s, log, e, t);
      FinderLater(st.finders[t], st.s.readers[t], s'.readers[t], (e.Read? || e.Flag?) && e.t == t,
                  st.headers, st.s.place, s'.place);
    }
  }


  lemma InnerKeeps<T>(st: State<T>, log: seq<D.Unit>, e: S.Event<T>) returns (log': seq<D.Unit>)
    requires Inv(st, log)
    ensures Inv(InnerStep(st, e), log')
  {
    hide S.Inv, S.Step, HeadersInv, FindersInv, SlotOf, HeaderShape, Word;
    log' := log;
    if Allowed(st, e) {
      log' := S.StepKeeps(st.s, log, e);
      InnerRing(st.s, log, e);
      FindersLater(st, log, e);
      if st.headers != [] { RingFits(st); }
      HeadersLater(st, InnerStep(st, e));
    }
  }

  // ----- The producer's steps -----

  /** Writing the slot of the block that is being entered leaves those of the others alone. */
  lemma RightAfterWrite(h: Header, h': Header, slot: nat, bound: nat, place: seq<nat>)
    requires Right(h, bound, place) && bound == h.entered + 1 && h.start <= h.entered
    requires slot == SlotOf(h.start, h.entered, |h.blocks|) && HeaderShape(h')
    requires h'.start == h.start && h'.entered == h.entered && |h'.blocks| == |h.blocks|
    requires forall i | 0 <= i < |h.blocks| && i != slot :: h'.blocks[i] == h.blocks[i] && h'.bases[i] == h.bases[i]
    ensures Right(h', bound, place)
  {
    hide Word;
    forall n | h.start <= n < h.entered && bound <= n + |h.blocks|
      ensures h'.blocks[SlotOf(h.start, n, |h.blocks|)] == place[n]
      ensures h'.bases[SlotOf(h.start, n, |h.blocks|)] == Word(SIZE * n)
    {
      SlotsDiffer(h.start, n, h.entered, |h.blocks|);
    }
  }

  /** With both parts written the block counts as entered. */
  lemma RightAfterEntry(h: Header, slot: nat, place: seq<nat>)
    requires Right(h, h.entered + 1, place) && h.start <= h.entered < |place|
    requires slot == SlotOf(h.start, h.entered, |h.blocks|)
    requires h.bases[slot] == Word(SIZE * h.entered) && h.blocks[slot] == place[h.entered]
    ensures Right(h.(front := slot, entered := h.entered + 1), h.entered + 1, place)
  {
    hide Word, SlotOf;
  }

  lemma FindersKeepHeaders<T>(st: State<T>, st': State<T>)
    requires Shape(st) && Shape(st') && FindersInv(st)
    requires st'.s == st.s && st'.finders == st.finders && |st.headers| <= |st'.headers|
    requires forall k | 0 <= k < |st.headers| ::
               && st'.headers[k].start == st.headers[k].start && st'.headers[k].exponent == st.headers[k].exponent
               && st.headers[k].entered <= st'.headers[k].entered
    ensures FindersInv(st')
  {
    hide SlotOf, Pow2;
    forall t | 0 <= t < |st'.finders|
      ensures FinderInv(st'.finders[t], st'.s.readers[t], st'.headers, st'.s.place)
    {
      assert FinderInv(st.finders[t], st.s.readers[t], st.headers, st.s.place);
      assert FinderShape(st.headers, st.finders[t]) && FinderShape(st'.headers, st'.finders[t]);
    }
  }

  lemma HeaderSize(headers: seq<Header>, k: nat)
    requires k < |headers| && forall i | 0 <= i < |headers| :: HeaderShape(headers[i])
    ensures headers[k].exponent <= 59 && |headers[k].bases| == |headers[k].blocks| == Pow2(headers[k].exponent)
  {
    assert HeaderShape(headers[k]);
  }

  lemma EnterKeeps<T>(st: State<T>, log: seq<D.Unit>)
    requires Inv(st, log)
    ensures Inv(EnterStep(st), log)
  {
    hide S.Inv, FindersInv, SlotOf, Word, Mask, Pow2, Right;
    var st' := EnterStep(st);
    if st.headers != [] && st.s.place != [] && st.entering != Done {
      var h, h' := Last(st.headers), Last(st'.headers);
      assert HeaderInv(st.headers[|st.headers| - 1], Bound(st, |st.headers| - 1), st.s.oldest, st.s.place);
      FindersKeepHeaders(st, st');
      if st.entering == StoreFront {
        RightAfterEntry(h, st.indexFront, st.s.place);
        SlotAfter(h.start, h.entered, |h.blocks|);
        HeaderSize(st.headers, |st.headers| - 1);
        MaskStepsOn(st.indexFront, h.exponent);
      } else {
        RightAfterWrite(h, h', st.indexFront, |st.s.place|, st.s.place);
      }
      forall k | 0 <= k < |st'.headers|
        ensures HeaderInv(st'.headers[k], Bound(st', k), st'.s.oldest, st'.s.place)
      {
        assert HeaderInv(st.headers[k], Bound(st, k), st.s.oldest, st.s.place);
      }
    }
  }

  /** The new header has the used slots of the one in use, one after the other. */
  lemma GrownRight(headers: seq<Header>, indexFront: nat, used: nat, oldest: nat, place: seq<nat>)
    requires headers != [] && forall k | 0 <= k < |headers| :: HeaderShape(headers[k])
    requires var h := Last(headers);
             && h.exponent < 59 && used <= |h.blocks| && oldest + used == |place| == h.entered
             && h.start <= oldest && Right(h, |place|, place)
             && indexFront == SlotOf(h.start, h.entered, |h.blocks|)
    ensures Right(Grown(headers, indexFront, used, oldest), |place|, place)
  {
    hide Word, HeaderShape, Behind, SlotOf;
    var prev, h := Last(headers), Grown(headers, indexFront, used, oldest);
    HeaderSize(headers, |headers| - 1);
    forall n | oldest <= n < |place|
      ensures h.blocks[SlotOf(oldest, n, |h.blocks|)] == place[n]
      ensures h.bases[SlotOf(oldest, n, |h.blocks|)] == Word(SIZE * n)
    {
      SlotFromStart(oldest, n, |h.blocks|);
      SlotBehind(prev.start, n, |place|, |prev.blocks|);
    }
  }

  lemma UsedIsWord(used: nat, size: nat, e: nat)
    requires 0 < used <= size == Pow2(e) && e <= 59
    ensures Word(used - 1) == used - 1
  {
    LargePowers();
    Pow2Orders(e, 59);
    hide Pow2;
    WordOfSmall(used - 1);
  }

  lemma GrownInv<T>(st: State<T>)
    requires Shape(st) && HeadersInv(st) && UseInv(st) && st.headers != [] && st.entering == Done
    requires |st.s.place| - st.s.oldest == |Last(st.headers).blocks| && Last(st.headers).exponent < 59
    ensures HeaderInv(Grown(st.headers, st.indexFront, |st.s.place| - st.s.oldest, st.s.oldest),
                      |st.s.place|, st.s.oldest, st.s.place)
  {
    hide Right, Pow2, Behind;
    var used := |st.s.place| - st.s.oldest;
    assert HeaderInv(st.headers[|st.headers| - 1], Bound(st, |st.headers| - 1), st.s.oldest, st.s.place);
    HeaderSize(st.headers, |st.headers| - 1);
    GrownRight(st.headers, st.indexFront, used, st.s.oldest, st.s.place);
    UsedIsWord(used, |Last(st.headers).blocks|, Last(st.headers).exponent);
    SlotFromStart(st.s.oldest, |st.s.place| - 1, |Grown(st.headers, st.indexFront, used, st.s.oldest).blocks|);
  }

  lemma NothingRight(h: Header, place: seq<nat>)
    requires HeaderShape(h) && h.entered == h.start && h.entered <= |place|
    ensures Right(h, |place|, place)
  {
  }

  lemma GrowKeeps<T>(st: State<T>, log: seq<D.Unit>)
    requires Inv(st, log)
    ensures Inv(GrowStep(st), log)
  {
    hide S.Inv, FindersInv, Pow2, Behind, Right, Word, HeaderShape;
    var st' := GrowStep(st);
    var used := |st.s.place| - st.s.oldest;
    if st'.headers != st.headers {
      FindersKeepHeaders(st, st');
      if st.headers == [] {
        NothingRight(Grown([], 0, 0, st.s.oldest), st.s.place);
      } else {
        GrownInv(st);
        SlotFromStart(st.s.oldest, |st.s.place|, |Last(st'.headers).blocks|);
      }
      forall k | 0 <= k < |st'.headers|
        ensures HeaderInv(st'.headers[k], Bound(st', k), st'.s.oldest, st'.s.place)
      {
        if k < |st.headers| {
          assert HeaderInv(st.headers[k], Bound(st, k), st.s.oldest, st.s.place);
        }
      }
    }
  }

  // ----- The consumers' loads -----

  /** The next index to read lies in the ring, and its block is among those entered where the consumer
      looks. */
  lemma UnreadInRing<T>(st: State<T>, log: seq<D.Unit>, t: nat)
    requires Inv(st, log) && t < |st.finders|
    requires var r := st.s.readers[t]; r.Holding? && |r.got| < r.count
    ensures var r := st.s.readers[t];
            && st.s.oldest <= (r.first + |r.got|) / SIZE < |st.s.place|
            && r.first + r.count <= |st.s.d.items| <= SIZE * |st.s.place|
  {
    hide HeadersInv, UseInv, EnterInv, FindersInv, D.Inv, S.FlagsInv, S.GoneInv, S.ScanInv, S.SlotsInv, S.Apart, S.Held;
    hide S.Disjoint, S.ShapeOf;
    var r := st.s.readers[t];
    assert S.ReaderInv(r, st.s.d.pcs[t], st.s.d.items, st.s.d.head);
    S.HolderHolds(st.s.readers, t, r.first + |r.got|);
    S.HeldSlot(st.s, log, r.first + |r.got|);
  }

  lemma ClaimedIsEntered<T>(st: State<T>, log: seq<D.Unit>, t: nat)
    requires Inv(st, log) && t < |st.finders| && st.s.readers[t].Holding?
    ensures st.headers != [] ==> st.s.readers[t].first + st.s.readers[t].count <= SIZE * Last(st.headers).entered
    ensures st.s.readers[t].count > 0 ==> st.headers != []
  {
    hide HeadersInv, FindersInv, D.Inv, S.FlagsInv, S.GoneInv, S.ScanInv, S.SlotsInv, S.Apart, S.Held, S.Disjoint;
    hide S.ShapeOf, HeaderShape;
    assert S.ReaderInv(st.s.readers[t], st.s.d.pcs[t], st.s.d.items, st.s.d.head);
  }

  /** The arithmetic of the lookup on a base that belongs to block `m - 1`. */
  lemma LookupSlot(h: Header, front: nat, m: nat, first: nat)
    requires HeaderShape(h) && h.start <= first / SIZE < m <= first / SIZE + |h.blocks|
    requires front == SlotOf(h.start, m - 1, |h.blocks|) && h.bases[front] == Word(SIZE * (m - 1))
    ensures var index := Word(first);
            Mask(front + Word(index - index % SIZE - h.bases[front]) / SIZE, |h.blocks|)
            == SlotOf(h.start, first / SIZE, |h.blocks|)
  {
    hide Word, Mask, Pow2, SlotOf;
    E.LookupWorks(first, SIZE * (m - 1), m - 1 - first / SIZE, front, h.exponent);
    SlotBehind(h.start, first / SIZE, m - 1, |h.blocks|);
  }

  lemma FrontKeeps<T>(st: State<T>, log: seq<D.Unit>, t: nat)
    requires Inv(st, log) && t < |st.finders| && st.s.readers[t].Holding? && st.finders[t].AtFront?
    ensures var st' := LookStep(st, t); FinderInv(st'.finders[t], st'.s.readers[t], st'.headers, st'.s.place)
    ensures st.s.readers[t].count > 0 ==> LookStep(st, t).finders[t].AtSlot?
  {
    hide S.Inv, Word, Mask, Pow2, SlotOf, UseInv, EnterInv;
    var r, f := st.s.readers[t], st.finders[t];
    assert FinderInv(f, r, st.headers, st.s.place);
    if r.count > 0 {
      var h := st.headers[f.h];
      UnreadInRing(st, log, t);
      HeaderSize(st.headers, f.h);
      assert HeaderInv(h, Bound(st, f.h), st.s.oldest, st.s.place);
      LookupSlot(h, f.front, f.m, r.first);
    }
  }

  lemma SlotKeeps<T>(st: State<T>, log: seq<D.Unit>, t: nat)
    requires Inv(st, log) && t < |st.finders| && st.s.readers[t].Holding? && st.finders[t].AtSlot?
    ensures var st' := LookStep(st, t); FinderInv(st'.finders[t], st'.s.readers[t], st'.headers, st'.s.place)
  {
    hide S.Inv, Word, Mask, Pow2, SlotOf, UseInv, EnterInv;
    var r, f := st.s.readers[t], st.finders[t];
    assert FinderInv(f, r, st.headers, st.s.place);
    if |r.got| < r.count {
      UnreadInRing(st, log, t);
      HeaderSize(st.headers, f.h);
      assert HeaderInv(st.headers[f.h], Bound(st, f.h), st.s.oldest, st.s.place);
    }
  }

  lemma StartLoads<T>(st: State<T>, log: seq<D.Unit>, t: nat)
    requires Inv(st, log) && t < |st.finders| && st.s.readers[t].Holding? && st.finders[t].Start?
    ensures var st' := LookStep(st, t); FinderInv(st'.finders[t], st'.s.readers[t], st'.headers, st'.s.place)
    ensures st.s.readers[t].count > 0 ==> LookStep(st, t).finders[t].AtHeader?
  {
    hide S.Inv, Word, Mask, Pow2, SlotOf, Right, UseInv, EnterInv, HeaderShape;
    assert FinderInv(st.finders[t], st.s.readers[t], st.headers, st.s.place);
    ClaimedIsEntered(st, log, t);
  }

  lemma HeaderLoaded<T>(st: State<T>, log: seq<D.Unit>, t: nat)
    requires Inv(st, log) && t < |st.finders| && st.s.readers[t].Holding? && st.finders[t].AtHeader?
    ensures var st' := LookStep(st, t); FinderInv(st'.finders[t], st'.s.readers[t], st'.headers, st'.s.place)
  {
    hide S.Inv, Word, Mask, Pow2, SlotOf, Right, UseInv, EnterInv;
    var r, f := st.s.readers[t], st.finders[t];
    assert FinderInv(f, r, st.headers, st.s.place);
    assert HeaderInv(st.headers[f.h], Bound(st, f.h), st.s.oldest, st.s.place);
    if r.count > 0 {
      UnreadInRing(st, log, t);
    }
  }

  /** The other consumers are where they were. */
  lemma OthersKeep<T>(st: State<T>, st': State<T>, t: nat)
    requires Shape(st) && Shape(st') && FindersInv(st) && t < |st.finders| == |st'.finders|
    requires st' == st.(finders := st.finders[t := st'.finders[t]])
    requires FinderInv(st'.finders[t], st.s.readers[t], st.headers, st.s.place)
    ensures FindersInv(st')
  {
    hide FinderInv;
  }

  lemma LookKeeps<T>(st: State<T>, log: seq<D.Unit>, t: nat)
    requires Inv(st, log)
    ensures Inv(LookStep(st, t), log)
  {
    hide S.Inv, Word, Mask, Pow2, SlotOf, Right, HeaderInv, FinderInv;
    var st' := LookStep(st, t);
    if t < |st.finders| && st.s.readers[t].Holding? {
      if st.finders[t].Start? {
        StartLoads(st, log, t);
      } else if st.finders[t].AtHeader? {
        HeaderLoaded(st, log, t);
      } else if st.finders[t].AtFront? {
        FrontKeeps(st, log, t);
      } else if st.finders[t].AtSlot? {
        SlotKeeps(st, log, t);
      }
      OthersKeep(st, st', t);
    }
  }

  lemma UnreadIsLeft<T>(s: S.State<T>, log: seq<D.Unit>, t: nat)
    requires S.Inv(s, log) && t < |s.readers| && s.readers[t].Holding? && |s.readers[t].got| < s.readers[t].count
    ensures s.readers[t].first + |s.readers[t].got| in s.readers[t].left
  {
    hide D.Inv, S.FlagsInv, S.GoneInv, S.ScanInv, S.SlotsInv, S.Apart, S.Disjoint, S.ShapeOf, S.TailInv;
    assert S.ReaderInv(s.readers[t], s.d.pcs[t], s.d.items, s.d.head);
  }

  lemma NextFound<T>(st: State<T>, log: seq<D.Unit>, t: nat)
    requires Inv(st, log) && t < |st.finders| && st.s.readers[t].Holding? && st.finders[t].AtBlock?
    ensures var st' := NextStep(st, t); FinderInv(st'.finders[t], st'.s.readers[t], st'.headers, st'.s.place)
  {
    hide S.Inv, Word, Mask, Pow2, SlotOf, Right, UseInv, EnterInv, HeadersInv;
    var r, f := st.s.readers[t], st.finders[t];
    assert FinderInv(f, r, st.headers, st.s.place);
    var h := st.headers[f.h];
    if |r.got| < r.count { UnreadIsLeft(st.s, log, t); }
    HeaderSize(st.headers, f.h);
    SlotAfter(h.start, r.first / SIZE + f.j, |h.blocks|);
    MaskStepsOn(f.slot, h.exponent);
  }

  lemma NextKeeps<T>(st: State<T>, log: seq<D.Unit>, t: nat)
    requires Inv(st, log)
    ensures Inv(NextStep(st, t), log)
  {
    hide S.Inv, Word, Mask, Pow2, SlotOf, Right, HeaderInv, FinderInv;
    if t < |st.finders| && st.s.readers[t].Holding? && st.finders[t].AtBlock? {
      NextFound(st, log, t);
      OthersKeep(st, NextStep(st, t), t);
    }
  }

  lemma StepKeeps<T>(st: State<T>, log: seq<D.Unit>, e: Event<T>) returns (log': seq<D.Unit>)
    requires Inv(st, log)
    ensures Inv(Step(st, e), log')
  {
    hide Inv, InnerStep, EnterStep, GrowStep, LookStep, NextStep;
    log' := log;
    match e
    case Inner(e) => log' := InnerKeeps(st, log, e);
    case Enter => EnterKeeps(st, log);
    case Grow => GrowKeeps(st, log);
    case Look(t) => LookKeeps(st, log, t);
    case Next(t) => NextKeeps(st, log, t);
  }

  lemma StartKeeps<T>(st: State<T>)
    requires Init(st)
    ensures Inv(st, [])
  {
    hide S.Inv;
    S.StartKeeps(st.s);
  }

  lemma {:induction false} RunKeeps<T>(st: State<T>, es: seq<Event<T>>) returns (log: seq<D.Unit>)
    requires Init(st)
    ensures Inv(Run(st, es), log)
  {
    hide Inv, Step;
    if es == [] {
      log := [];
      StartKeeps(st);
    } else {
      log := RunKeeps(st, es[..|es| - 1]);
      log := StepKeeps(Run(st, es[..|es| - 1]), log, es[|es| - 1]);
    }
  }

  lemma FoundInState<T>(st: State<T>, log: seq<D.Unit>, t: nat)
    requires Inv(st, log) && t < |st.finders|
    requires var r := st.s.readers[t]; r.Holding? && |r.got| < r.count && On(r, st.finders[t], r.first + |r.got|)
    ensures var r, b := st.s.readers[t], st.finders[t].block;
            var i := r.first + |r.got|;
            && st.s.oldest <= i / SIZE < |st.s.place| && b == st.s.place[i / SIZE]
            && i < |st.s.d.items| && b < |st.s.blocks| && |st.s.blocks[b].slots| == SIZE
            && st.s.blocks[b].slots[i % SIZE] == Some(st.s.d.items[i])
  {
    hide HeadersInv, UseInv, EnterInv, SlotOf, D.Inv, S.FlagsInv, S.GoneInv, S.ScanInv, S.SlotsInv, S.Apart, S.Held;
    hide S.Disjoint;
    var r := st.s.readers[t];
    assert FinderInv(st.finders[t], r, st.headers, st.s.place);
    assert S.ReaderInv(r, st.s.d.pcs[t], st.s.d.items, st.s.d.head);
    S.HolderHolds(st.s.readers, t, r.first + |r.got|);
    S.HeldSlot(st.s, log, r.first + |r.got|);
  }

  // ----- What consumers rely on -----

  /** In every interleaving with entries being written, fronts stored and headers replaced, a consumer
      that has found the block of the next index it wants has found the memory of that block, and
      the index's slot there holds its element. */
  lemma FoundBlockIsRight<T>(st0: State<T>, es: seq<Event<T>>, t: nat)
    requires Init(st0) && t < |Run(st0, es).finders|
    requires var st := Run(st0, es);
             var r := st.s.readers[t];
             r.Holding? && |r.got| < r.count && On(r, st.finders[t], r.first + |r.got|)
    ensures var st := Run(st0, es);
            var r, b := st.s.readers[t], st.finders[t].block;
            var i := r.first + |r.got|;
            && i < |st.s.d.items| && b < |st.s.blocks| && |st.s.blocks[b].slots| == SIZE
            && st.s.oldest <= i / SIZE < |st.s.place| && b == st.s.place[i / SIZE]
            && st.s.blocks[b].slots[i % SIZE] == Some(st.s.d.items[i])
  {
    hide Run, Inv, S.Inv;
    var log := RunKeeps(st0, es);
    FoundInState(Run(st0, es), log, t);
  }

  /** A consumer at a block sets flags in that block's memory, whatever was entered since. */
  lemma FlagsGoToTheirBlock<T>(st0: State<T>, es: seq<Event<T>>, t: nat, i: nat)
    requires Init(st0) && t < |Run(st0, es).finders|
    requires var st := Run(st0, es); On(st.s.readers[t], st.finders[t], i)
    ensures var st := Run(st0, es); i / SIZE < |st.s.place| && st.finders[t].block == st.s.place[i / SIZE]
  {
    hide Run, S.Inv, HeadersInv, UseInv, EnterInv, SlotOf;
    var log := RunKeeps(st0, es);
    var st := Run(st0, es);
    assert FinderInv(st.finders[t], st.s.readers[t], st.headers, st.s.place);
  }

  lemma SlotLoads<T>(st: State<T>, log: seq<D.Unit>, t: nat)
    requires Inv(st, log) && t < |st.finders| && st.s.readers[t].Holding? && st.finders[t].AtSlot?
    ensures On(st.s.readers[t], LookStep(st, t).finders[t], st.s.readers[t].first + |st.s.readers[t].got|)
  {
    hide S.Inv, HeadersInv, UseInv, EnterInv, SlotOf;
    assert FinderInv(st.finders[t], st.s.readers[t], st.headers, st.s.place);
  }

  /** No load leads nowhere: each takes a consumer with something to read on, and the last of them to
      the block of the next index that it wants. */
  lemma LookGetsOn<T>(st0: State<T>, es: seq<Event<T>>, t: nat)
    requires Init(st0) && t < |Run(st0, es).finders|
    requires var r := Run(st0, es).s.readers[t]; r.Holding? && |r.got| < r.count
    ensures var st := Run(st0, es);
            var r, f, f' := st.s.readers[t], st.finders[t], LookStep(st, t).finders[t];
            && (f.Start? ==> f'.AtHeader?) && (f.AtHeader? ==> f'.AtFront?)
            && (f.AtFront? ==> f'.AtSlot? && f'.j == 0)
            && (f.AtSlot? ==> On(r, f', r.first + |r.got|))
  {
    hide Run, S.Inv, HeadersInv, UseInv, EnterInv, FindersInv;
    var log := RunKeeps(st0, es);
    var st := Run(st0, es);
    if st.finders[t].Start? {
      StartLoads(st, log, t);
    } else if st.finders[t].AtFront? {
      FrontKeeps(st, log, t);
    } else if st.finders[t].AtSlot? {
      SlotLoads(st, log, t);
    }
  }
}
