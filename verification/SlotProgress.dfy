/** That the producer and the consumers of `SlotSafety` get on: what is published are the elements of
    the enqueues that went through, in order; a producer that runs alone fills the tail's block, uses
    the oldest block again once it is free, or needs a new one; and a consumer can read, flag and
    leave. */
module SlotProgress {
  import opened Basics
  import D = OptimisticDequeue
  import opened SlotSafety

  // ----- What is published -----

  /** The elements of the enqueues of a run that found the producer free and went through. */
  function Published<T>(s0: State<T>, es: seq<Event<T>>): (seq<T>, Option<T>)
    requires Shape(s0)
  {
    if es == [] then ([], None)
    else
      var (done, pending) := Published(s0, es[..|es| - 1]);
      var p, e := Run(s0, es[..|es| - 1]).producer, es[|es| - 1];
      if e.Enqueue? && p.Resting? then (done, Some(e.x))
      else if e.Fail? && p.Need? then (done, None)
      else if e.Produce? && p.Publish? && pending.Some? then (done + [pending.value], None)
      else (done, pending)
  }

  ghost predicate Carries<T>(s: State<T>, done: seq<T>, pending: Option<T>)
  {
    && s.d.items == done
    && pending == if s.producer.Resting? then None else Some(s.producer.x)
  }

  lemma StepCarries<T>(s: State<T>, e: Event<T>, done: seq<T>, pending: Option<T>)
    requires Shape(s) && Carries(s, done, pending)
    ensures var s' := Step(s, e);
            if e.Enqueue? && s.producer.Resting? then Carries(s', done, Some(e.x))
            else if e.Fail? && s.producer.Need? then Carries(s', done, None)
            else if e.Produce? && s.producer.Publish? then Carries(s', done + [s.producer.x], None)
            else Carries(s', done, pending)
  {
    hide SetFlag, SetSlot, FlagAt, Lookup, D.Advance, Indices;
    if e.Claiming? && e.e.Go? && e.e.t < |s.readers| {
      AdvanceFacts(s.d, e.e.t);
    }
  }

  /** In every interleaving the elements published are those of the enqueues that went through, each
      once and in order, and the producer has the element of the one under way. */
  lemma {:induction false} ItemsArePublished<T>(s0: State<T>, es: seq<Event<T>>)
    requires Init(s0)
    ensures var (done, pending) := Published(s0, es);
            var s := Run(s0, es);
            s.d.items == done && pending == if s.producer.Resting? then None else Some(s.producer.x)
  {
    hide Step, Shape;
    if es != [] {
      var before, e := es[..|es| - 1], es[|es| - 1];
      ItemsArePublished(s0, before);
      var (done, pending) := Published(s0, before);
      StepCarries(Run(s0, before), e, done, pending);
    }
  }

  // ----- A producer alone -----

  function Times<T>(k: nat): (es: seq<Event<T>>)
    ensures |es| == k && forall i | 0 <= i < k :: es[i] == Produce
  {
    seq(k, _ => Produce)
  }

  lemma TimesAdd<T>(es: seq<Event<T>>, k: nat)
    ensures es + [Produce] + Times(k) == es + Times(k + 1) && es + Times(0) == es
  {
  }

  lemma More<T>(s: State<T>, es: seq<Event<T>>, e: Event<T>)
    requires Shape(s)
    ensures Run(s, es + [e]) == Step(Run(s, es), e)
  {
    hide Step, Shape;
    assert (es + [e])[..|es|] == es;
  }

  /** Filling the slot and publishing it. */
  lemma StoreAlone<T>(s: State<T>, es: seq<Event<T>>)
    requires Shape(s) && Run(s, es).producer.Store?
    ensures var s1, s' := Run(s, es), Run(s, es + Times(2));
            && s'.producer.Resting? && s'.d == s1.d.(items := s1.d.items + [s1.producer.x])
            && s'.readers == s1.readers && s'.place == s1.place && s'.oldest == s1.oldest
  {
    hide Run, SetSlot;
    More(s, es, Produce);
    More(s, es + [Produce], Produce);
    TimesAdd(es, 1);
    TimesAdd(es + [Produce], 0);
    assert es + [Produce] + [Produce] == es + Times<T>(2);
  }

  lemma TailHasBlock<T>(s: State<T>, log: seq<D.Unit>)
    requires Inv(s, log) && s.producer.Resting?
    ensures |s.d.items| % SIZE != 0 ==> s.place != []
    ensures |s.d.items| % SIZE == 0 ==> |s.d.items| == SIZE * |s.place|
    ensures s.place != [] ==> s.oldest < |s.place|
  {
    hide D.Inv, FlagsInv, GoneInv, ScanInv, SlotsInv, ReaderInv, Disjoint, Apart, ShapeOf;
  }

  /** An enqueue inside a block, alone, publishes its element. */
  lemma EnqueueInBlock<T>(s0: State<T>, es: seq<Event<T>>, x: T)
    requires Init(s0) && Run(s0, es).producer.Resting? && |Run(s0, es).d.items| % SIZE != 0
    ensures var s, s' := Run(s0, es), Run(s0, es + [Enqueue(x)] + Times(2));
            && s'.producer.Resting? && s'.d == s.d.(items := s.d.items + [x])
            && s'.readers == s.readers && s'.place == s.place && s'.oldest == s.oldest
  {
    hide Run;
    var log := RunKeeps(s0, es);
    TailHasBlock(Run(s0, es), log);
    More(s0, es, Enqueue(x));
    StoreAlone(s0, es + [Enqueue(x)]);
  }

  /** The scan goes on over flags that are set. */
  lemma {:induction false} ScanAlone<T>(s: State<T>, es: seq<Event<T>>, x: T, j: nat, n: nat)
    requires Shape(s) && Run(s, es).producer == Scan(x, j) && j + n <= SIZE
    requires var s1 := Run(s, es); forall k | j <= k < j + n :: FlagAt(s1.blocks, s1.place, s1.oldest, k)
    ensures Run(s, es + Times(n)) == Run(s, es).(producer := Scan(x, j + n))
    decreases n
  {
    hide Run, FlagAt;
    if n == 0 {
      TimesAdd(es, 0);
    } else {
      More(s, es, Produce);
      TimesAdd(es, n - 1);
      ScanAlone(s, es + [Produce], x, j + 1, n - 1);
    }
  }

  /** Clearing goes on to the last flag. */
  lemma {:induction false} ClearAlone<T>(s: State<T>, es: seq<Event<T>>, x: T, j: nat)
    requires Shape(s) && Run(s, es).producer == Clear(x, j) && j <= SIZE
    ensures var s1, s' := Run(s, es), Run(s, es + Times(SIZE - j));
            && s'.producer == Clear(x, SIZE) && s'.d == s1.d && s'.readers == s1.readers
            && s'.place == s1.place && s'.oldest == s1.oldest
    decreases SIZE - j
  {
    hide Run, SetFlag;
    if j == SIZE {
      TimesAdd(es, 0);
    } else {
      More(s, es, Produce);
      TimesAdd(es, SIZE - j - 1);
      ClearAlone(s, es + [Produce], x, j + 1);
    }
  }

  /** All of the elements of the oldest block were claimed, and no consumer holds one. */
  ghost predicate OldestFree<T>(s: State<T>)
  {
    && s.place != [] && SIZE * (s.oldest + 1) <= s.d.head
    && forall j | 0 <= j < SIZE :: !Held(s.readers, Nth(s.oldest, j))
  }

  /** The flags of a free block are set, and those of one that is not free are not all. */
  lemma FreeIffFlagged<T>(s: State<T>, log: seq<D.Unit>)
    requires Inv(s, log) && s.producer.Resting? && s.place != []
    ensures s.oldest < |s.place|
    ensures OldestFree(s) <==> forall k | 0 <= k < SIZE :: FlagAt(s.blocks, s.place, s.oldest, k)
  {
    hide D.Inv, GoneInv, ScanInv, SlotsInv, ReaderInv, Disjoint, Apart, ShapeOf, FlagAt, Held;
    TailHasBlock(s, log);
    assert forall k | 0 <= k < SIZE :: !Stale(s.producer, |s.place|, s.oldest, k);
    if forall k | 0 <= k < SIZE :: FlagAt(s.blocks, s.place, s.oldest, k) {
      assert FlagAt(s.blocks, s.place, s.oldest, SIZE - 1);
      assert Nth(s.oldest, SIZE - 1) < s.d.head;
    }
  }

  lemma FreeHasBlock<T>(s: State<T>)
    requires OldestFree(s)
    ensures s.place != []
  {
  }

  lemma TimesMore<T>(f: seq<Event<T>>, j: nat, k: nat)
    ensures f + Times(j) + [Produce] + Times(k) == f + Times(j + 1 + k)
  {
  }

  /** From the start of the clearing on. */
  lemma ClearedAlone<T>(s: State<T>, es: seq<Event<T>>, x: T)
    requires Shape(s) && Run(s, es).producer == Clear(x, 0)
    ensures var s1, s' := Run(s, es), Run(s, es + Times(SIZE + 3));
            && s'.producer.Resting? && s'.d == s1.d.(items := s1.d.items + [x]) && s'.readers == s1.readers
            && s'.place == s1.place && s'.oldest == s1.oldest
  {
    hide Run;
    ClearAlone(s, es, x, 0);
    More(s, es + Times(SIZE), Produce);
    StoreAlone(s, es + Times(SIZE) + [Produce]);
    TimesMore(es, SIZE, 2);
  }

  /** An enqueue at the end of a block, alone, uses a free oldest block again and publishes its
      element there: after 32 looks and 32 clearings. */
  lemma EnqueueReuses<T>(s0: State<T>, es: seq<Event<T>>, x: T)
    requires Init(s0) && Run(s0, es).producer.Resting? && |Run(s0, es).d.items| % SIZE == 0
    requires OldestFree(Run(s0, es))
    ensures var s, s' := Run(s0, es), Run(s0, es + [Enqueue(x)] + Times(2 * SIZE + 4));
            && s.oldest < |s.place|
            && s'.producer.Resting? && s'.d == s.d.(items := s.d.items + [x]) && s'.readers == s.readers
            && s'.place == s.place + [s.place[s.oldest]] && s'.oldest == s.oldest + 1
  {
    hide Run, FlagAt, OldestFree;
    var s := Run(s0, es);
    var log := RunKeeps(s0, es);
    FreeHasBlock(s);
    FreeIffFlagged(s, log);
    More(s0, es, Enqueue(x));
    var f := es + [Enqueue(x)];
    ScanAlone(s0, f, x, 0, SIZE);
    var g := f + Times(SIZE);
    More(s0, g, Produce);
    ClearedAlone(s0, g + [Produce], x);
    TimesMore(f, SIZE, SIZE + 3);
  }

  lemma FirstUnset<T>(blocks: seq<Block<T>>, place: seq<nat>, m: nat, k: nat) returns (n: nat)
    requires ShapeOf(blocks, place) && m < |place| && k < SIZE && !FlagAt(blocks, place, m, k)
    ensures n <= k && !FlagAt(blocks, place, m, n) && forall j | 0 <= j < n :: FlagAt(blocks, place, m, j)
  {
    hide FlagAt;
    n := 0;
    while FlagAt(blocks, place, m, n)
      invariant n <= k && forall j | 0 <= j < n :: FlagAt(blocks, place, m, j)
      decreases k - n
    {
      n := n + 1;
    }
  }

  lemma NoBlocks<T>(s: State<T>, log: seq<D.Unit>)
    requires Inv(s, log) && s.place == []
    ensures s.oldest == 0
  {
  }

  /** With the oldest block in use, or no block at all, it needs a new one, and with one it publishes
      its element there. */
  lemma EnqueueInserts<T>(s0: State<T>, es: seq<Event<T>>, x: T) returns (n: nat)
    requires Init(s0) && Run(s0, es).producer.Resting? && |Run(s0, es).d.items| % SIZE == 0
    requires !OldestFree(Run(s0, es))
    ensures n <= SIZE && Run(s0, es + [Enqueue(x)] + Times(n)) == Run(s0, es).(producer := Need(x))
    ensures var s, s' := Run(s0, es), Run(s0, es + [Enqueue(x)] + Times(n) + [Insert] + Times(2));
            && s'.producer.Resting? && s'.d == s.d.(items := s.d.items + [x]) && s'.readers == s.readers
            && s'.place == s.place + [|s.blocks|] && s'.oldest == s.oldest
  {
    hide Run, FlagAt, OldestFree;
    var s := Run(s0, es);
    var log := RunKeeps(s0, es);
    TailHasBlock(s, log);
    More(s0, es, Enqueue(x));
    var f := es + [Enqueue(x)];
    n := 0;
    if s.place == [] {
      NoBlocks(s, log);
      TimesAdd(f, 0);
    } else {
      FreeIffFlagged(s, log);
      var k :| 0 <= k < SIZE && !FlagAt(s.blocks, s.place, s.oldest, k);
      var j := FirstUnset(s.blocks, s.place, s.oldest, k);
      ScanAlone(s0, f, x, 0, j);
      More(s0, f + Times(j), Produce);
      n := j + 1;
      assert f + Times(j) + [Produce] == f + Times<T>(n);
    }
    var g := f + Times(n);
    More(s0, g, Insert);
    StoreAlone(s0, g + [Insert]);
  }

  lemma ReaderFacts<T>(s: State<T>, log: seq<D.Unit>, t: nat, i: nat)
    requires Inv(s, log) && t < |s.readers| && s.readers[t].Holding?
    ensures var r := s.readers[t];
            |r.got| < r.count ==>
              && r.first + |r.got| < |s.d.items|
              && Lookup(s, r.first + |r.got|) == Some(s.d.items[r.first + |r.got|])
    ensures i in s.readers[t].left ==> i / SIZE < |s.place|
  {
    hide D.Inv, FlagsInv, GoneInv, ScanInv, SlotsInv, Disjoint, Apart, TailInv, ShapeOf, Held, Lookup;
    var r := s.readers[t];
    assert ReaderInv(r, s.d.pcs[t], s.d.items, s.d.head);
    if |r.got| < r.count {
      HolderHolds(s.readers, t, r.first + |r.got|);
      HeldSlot(s, log, r.first + |r.got|);
    }
    if i in r.left {
      HolderHolds(s.readers, t, i);
      HeldSlot(s, log, i);
    }
  }

  // ----- A consumer -----

  /** In every reachable state a consumer with something to read reads the element of its next index,
      one that has read an index can flag its slot, and one that is done can leave. */
  lemma ConsumerGetsOn<T>(s0: State<T>, es: seq<Event<T>>, t: nat, i: nat)
    requires Init(s0) && t < |Run(s0, es).readers| && Run(s0, es).readers[t].Holding?
    ensures var s, s' := Run(s0, es), Run(s0, es + [Read(t)]);
            var r := s.readers[t];
            |r.got| < r.count ==>
              && r.first + |r.got| < |s.d.items|
              && s'.readers[t] == r.(got := r.got + [Some(s.d.items[r.first + |r.got|])])
    ensures var s, s' := Run(s0, es), Run(s0, es + [Flag(t, i)]);
            var r := s.readers[t];
            i in r.left && i < r.first + |r.got| ==>
              && s'.readers[t] == r.(left := r.left - {i})
              && i / SIZE < |s'.place| && FlagAt(s'.blocks, s'.place, i / SIZE, i % SIZE)
    ensures var r := Run(s0, es).readers[t];
            r.left == {} && |r.got| == r.count ==> Run(s0, es + [Leave(t)]).readers[t].Away?
  {
    hide Run, Inv;
    var log := RunKeeps(s0, es);
    More(s0, es, Read(t));
    More(s0, es, Flag(t, i));
    More(s0, es, Leave(t));
    ReaderFacts(Run(s0, es), log, t, i);
  }

  /** A consumer that is not reading follows the protocol of the counters, and has with its claim
      exactly the indices that it was given. */
  lemma ClaimsFollow<T>(s: State<T>, t: nat, max: nat)
    requires Shape(s) && t < |s.readers| && s.readers[t].Away?
    ensures Step(s, Claiming(D.Call(t, max))) == s.(d := D.Step(s.d, D.Call(t, max)))
    ensures var s' := Step(s, Claiming(D.Go(t)));
            && s'.d == D.Step(s.d, D.Go(t))
            && s'.readers[t] == (if s.d.pcs[t].Claim?
                                 then Holding(s.d.head, s.d.pcs[t].take, [], Indices(s.d.head, s.d.pcs[t].take))
                                 else Away)
  {
    hide D.Advance;
  }
}
