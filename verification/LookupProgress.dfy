/** That consumers and the producer of `IndexLookup` get on: a consumer that runs alone after its claim
    finds, reads and flags all of its elements; entering a block ends; and there is room for a block,
    after growing if need be. */
module LookupProgress {
  import opened Basics
  import D = OptimisticDequeue
  import S = SlotSafety
  import P = SlotProgress
  import opened IndexLookup

  lemma More<T>(st: State<T>, es: seq<Event<T>>, e: Event<T>)
    requires Shape(st)
    ensures Run(st, es + [e]) == Step(Run(st, es), e)
  {
    hide Step, Shape;
    assert (es + [e])[..|es|] == es;
  }

  // ----- A consumer alone -----

  /** It has flagged what it has read. */
  predicate Tidy<T>(r: S.Reader<T>)
  {
    r.Holding? && |r.got| <= r.count && r.left == S.Indices(r.first + |r.got|, r.count - |r.got|)
  }

  lemma LookStays<T>(st: State<T>, t: nat)
    requires Shape(st) && t < |st.finders|
    ensures var st' := LookStep(st, t);
            st'.s == st.s && st'.headers == st.headers && |st'.finders| == |st.finders|
    ensures var st' := NextStep(st, t);
            st'.s == st.s && st'.headers == st.headers && |st'.finders| == |st.finders|
  {
  }

  /** One load. */
  lemma LookOnce<T>(st0: State<T>, es: seq<Event<T>>, t: nat)
    requires Init(st0) && t < |Run(st0, es).finders|
    requires var r := Run(st0, es).s.readers[t]; r.Holding? && |r.got| < r.count
    ensures var st, st' := Run(st0, es), Run(st0, es + [Look(t)]);
            && st'.s == st.s && t < |st'.finders|
            && (st.finders[t].Start? ==> st'.finders[t].AtHeader?)
            && (st.finders[t].AtHeader? ==> st'.finders[t].AtFront?)
            && (st.finders[t].AtFront? ==> st'.finders[t].AtSlot?)
            && (st.finders[t].AtSlot? ==>
                  On(st.s.readers[t], st'.finders[t], st.s.readers[t].first + |st.s.readers[t].got|))
  {
    hide Run, LookStep, On;
    More(st0, es, Look(t));
    LookGetsOn(st0, es, t);
    LookStays(Run(st0, es), t);
  }

  /** The four loads from a claim to the first block. */
  lemma FourLoads<T>(st0: State<T>, es: seq<Event<T>>, t: nat)
    requires Init(st0) && t < |Run(st0, es).finders| && Run(st0, es).finders[t].Start?
    requires var r := Run(st0, es).s.readers[t]; r.Holding? && |r.got| < r.count
    ensures var st, st' := Run(st0, es), Run(st0, es + [Look(t)] + [Look(t)] + [Look(t)] + [Look(t)]);
            && st'.s == st.s && t < |st'.finders|
            && On(st.s.readers[t], st'.finders[t], st.s.readers[t].first + |st.s.readers[t].got|)
  {
    hide Run, Init, On;
    LookOnce(st0, es, t);
    LookOnce(st0, es + [Look(t)], t);
    LookOnce(st0, es + [Look(t)] + [Look(t)], t);
    LookOnce(st0, es + [Look(t)] + [Look(t)] + [Look(t)], t);
  }

  lemma LaterBlocks(i: nat)
    ensures forall k: nat | k >= i :: k / SIZE >= i / SIZE
  {
  }

  /** On from a block that is done with. */
  lemma NextOnce<T>(st0: State<T>, es: seq<Event<T>>, t: nat)
    requires Init(st0) && t < |Run(st0, es).finders| && Run(st0, es).finders[t].AtBlock?
    requires var st := Run(st0, es);
             var r := st.s.readers[t];
             Tidy(r) && |r.got| < r.count && !On(r, st.finders[t], r.first + |r.got|)
    ensures var st, st' := Run(st0, es), Run(st0, es + [Next(t)]);
            st'.s == st.s && t < |st'.finders| && st'.finders[t].AtSlot?
  {
    hide Run, S.Inv, HeadersInv, UseInv, EnterInv;
    More(st0, es, Next(t));
    var st := Run(st0, es);
    var log := RunKeeps(st0, es);
    assert FinderInv(st.finders[t], st.s.readers[t], st.headers, st.s.place);
    LaterBlocks(st.s.readers[t].first + |st.s.readers[t].got|);
  }

  /** To the block of the next index to read. */
  lemma FindNext<T>(st0: State<T>, es: seq<Event<T>>, t: nat) returns (f: seq<Event<T>>)
    requires Init(st0) && t < |Run(st0, es).finders|
    requires var st := Run(st0, es); Tidy(st.s.readers[t]) && |st.s.readers[t].got| < st.s.readers[t].count
    requires Run(st0, es).finders[t].Start? || Run(st0, es).finders[t].AtBlock?
    ensures var st, st' := Run(st0, es), Run(st0, es + f);
            && st'.s == st.s && t < |st'.finders|
            && On(st.s.readers[t], st'.finders[t], st.s.readers[t].first + |st.s.readers[t].got|)
  {
    hide Run, On;
    var st := Run(st0, es);
    var r := st.s.readers[t];
    if st.finders[t].Start? {
      FourLoads(st0, es, t);
      f := [Look(t)] + [Look(t)] + [Look(t)] + [Look(t)];
      assert es + f == es + [Look(t)] + [Look(t)] + [Look(t)] + [Look(t)];
    } else if On(r, st.finders[t], r.first + |r.got|) {
      f := [];
      assert es + f == es;
    } else {
      NextOnce(st0, es, t);
      LookOnce(st0, es + [Next(t)], t);
      f := [Next(t)] + [Look(t)];
      assert es + f == es + [Next(t)] + [Look(t)];
    }
  }

  lemma ReaderFacts<T>(st: State<T>, log: seq<D.Unit>, t: nat, i: nat)
    requires Inv(st, log) && t < |st.finders| && Tidy(st.s.readers[t]) && |st.s.readers[t].got| < st.s.readers[t].count
    requires i == st.s.readers[t].first + |st.s.readers[t].got|
    ensures i < |st.s.d.items| && S.Lookup(st.s, i) == Some(st.s.d.items[i]) && i / SIZE < |st.s.place|
    ensures i in st.s.readers[t].left
  {
    hide S.Inv, HeadersInv, UseInv, EnterInv, FindersInv;
    P.ReaderFacts(st.s, log, t, i);
  }

  lemma ReadOnce<T>(st: State<T>, log: seq<D.Unit>, t: nat)
    requires Inv(st, log) && t < |st.finders| && t < |st.s.readers| && Tidy(st.s.readers[t])
    requires var r := st.s.readers[t]; |r.got| < r.count && On(r, st.finders[t], r.first + |r.got|)
    ensures var r := st.s.readers[t];
            var i := r.first + |r.got|;
            && i < |st.s.d.items|
            && Step(st, Inner(S.Read(t)))
               == st.(s := S.SetReader(st.s, t, r.(got := r.got + [Some(st.s.d.items[i])])))
  {
    hide Inv, S.Lookup;
    var r := st.s.readers[t];
    ReaderFacts(st, log, t, r.first + |r.got|);
  }

  lemma FlagOnce<T>(st: State<T>, t: nat, i: nat)
    requires Shape(st) && t < |st.finders| && t < |st.s.readers| && st.s.readers[t].Holding?
    requires var r := st.s.readers[t];
             On(r, st.finders[t], i) && i in r.left && i < r.first + |r.got| && i / SIZE < |st.s.place|
    ensures var r := st.s.readers[t];
            Step(st, Inner(S.Flag(t, i)))
            == st.(s := S.SetReader(st.s, t, r.(left := r.left - {i}))
                        .(blocks := S.SetFlag(st.s.blocks, st.s.place, i / SIZE, i % SIZE, true)))
  {
    hide S.SetFlag;
  }

  /** The consumer has read and flagged one more element. */
  ghost predicate OneMore<T>(st: State<T>, st': State<T>, t: nat)
  {
    && t < |st.s.readers| && t < |st'.s.readers| && t < |st'.finders| && st.s.readers[t].Holding?
    && st'.finders[t].AtBlock? && st'.s.d == st.s.d && Tidy(st'.s.readers[t])
    && var r := st.s.readers[t];
       var i := r.first + |r.got|;
       i < |st.s.d.items|
       && st'.s.readers[t] == r.(got := r.got + [Some(st.s.d.items[i])], left := r.left - {i})
  }

  /** What a read and then the flag of what was read do. */
  lemma ReadAndFlag<T>(st0: State<T>, es: seq<Event<T>>, t: nat)
    requires Init(st0) && t < |Run(st0, es).finders| && t < |Run(st0, es).s.readers|
    requires var st := Run(st0, es);
             var r := st.s.readers[t];
             Tidy(r) && |r.got| < r.count && On(r, st.finders[t], r.first + |r.got|)
    ensures var st := Run(st0, es);
            var i := st.s.readers[t].first + |st.s.readers[t].got|;
            OneMore(st, Run(st0, es + [Inner(S.Read(t))] + [Inner(S.Flag(t, i))]), t)
  {
    hide Run, Step, Inv, S.Inv;
    var st := Run(st0, es);
    var i := st.s.readers[t].first + |st.s.readers[t].got|;
    var log := RunKeeps(st0, es);
    ReaderFacts(st, log, t, i);
    ReadOnce(st, log, t);
    More(st0, es, Inner(S.Read(t)));
    FlagOnce(Run(st0, es + [Inner(S.Read(t))]), t, i);
    More(st0, es + [Inner(S.Read(t))], Inner(S.Flag(t, i)));
  }

  /** The consumer has got the elements of all of its indices, in order, and flagged them. */
  ghost predicate GotAll<T>(r: S.Reader<T>, r': S.Reader<T>, items: seq<T>)
  {
    && r.Holding? && r'.Holding? && r.first + r.count <= |items| && |r.got| <= r.count
    && r'.first == r.first && r'.count == r.count && r'.left == {} && |r'.got| == r.count
    && (forall k | 0 <= k < |r.got| :: r'.got[k] == r.got[k])
    && (forall k | |r.got| <= k < r.count :: r'.got[k] == Some(items[r.first + k]))
  }

  lemma GotOneMore<T>(r: S.Reader<T>, mid: S.Reader<T>, r': S.Reader<T>, items: seq<T>)
    requires r.Holding? && |r.got| < r.count && r.first + |r.got| < |items|
    requires mid.Holding? && mid == r.(got := r.got + [Some(items[r.first + |r.got|])], left := mid.left)
    requires GotAll(mid, r', items)
    ensures GotAll(r, r', items)
  {
    forall k | |r.got| <= k < r.count ensures r'.got[k] == Some(items[r.first + k]) {
      if k == |r.got| {
        assert r'.got[k] == mid.got[k];
      }
    }
    forall k | 0 <= k < |r.got| ensures r'.got[k] == r.got[k] {
      assert r'.got[k] == mid.got[k];
    }
  }

  lemma ClaimWithin<T>(st: State<T>, log: seq<D.Unit>, t: nat)
    requires Inv(st, log) && t < |st.finders| && st.s.readers[t].Holding?
    ensures st.s.readers[t].first + st.s.readers[t].count <= |st.s.d.items|
  {
    hide HeadersInv, UseInv, EnterInv, FindersInv, D.Inv, S.FlagsInv, S.GoneInv, S.ScanInv, S.SlotsInv, S.Apart;
    hide S.Disjoint, S.ShapeOf, S.TailInv;
    assert S.ReaderInv(st.s.readers[t], st.s.d.pcs[t], st.s.d.items, st.s.d.head);
  }

  lemma NothingLeft<T>(st0: State<T>, es: seq<Event<T>>, t: nat)
    requires Init(st0) && t < |Run(st0, es).finders| && Tidy(Run(st0, es).s.readers[t])
    requires |Run(st0, es).s.readers[t].got| == Run(st0, es).s.readers[t].count
    ensures var r := Run(st0, es).s.readers[t]; GotAll(r, r, Run(st0, es).s.d.items)
    ensures var st' := Run(st0, es + [Inner(S.Leave(t))]); t < |st'.s.readers| && st'.s.readers[t].Away?
  {
    hide Run, Inv;
    var log := RunKeeps(st0, es);
    ClaimWithin(Run(st0, es), log, t);
    More(st0, es, Inner(S.Leave(t)));
  }

  /** From its claim on a consumer that runs alone gets all of its elements, in order, and leaves:
      a sequence of its own steps does it. */
  lemma {:induction false} ConsumerFinishes<T>(st0: State<T>, es: seq<Event<T>>, t: nat) returns (f: seq<Event<T>>)
    requires Init(st0) && t < |Run(st0, es).finders| && Tidy(Run(st0, es).s.readers[t])
    requires Run(st0, es).finders[t].Start? || Run(st0, es).finders[t].AtBlock?
    ensures var st, st' := Run(st0, es), Run(st0, es + f);
            t < |st'.s.readers| && GotAll(st.s.readers[t], st'.s.readers[t], st.s.d.items) && st'.s.d == st.s.d
    ensures var st' := Run(st0, es + f + [Inner(S.Leave(t))]); t < |st'.s.readers| && st'.s.readers[t].Away?
    decreases Run(st0, es).s.readers[t].count - |Run(st0, es).s.readers[t].got|
  {
    hide Run, On, GotAll;
    var st := Run(st0, es);
    var r := st.s.readers[t];
    if |r.got| == r.count {
      f := [];
      assert es + f == es;
      NothingLeft(st0, es, t);
    } else {
      var g := FindNext(st0, es, t);
      ReadAndFlag(st0, es + g, t);
      var i := r.first + |r.got|;
      var h := g + [Inner(S.Read(t))] + [Inner(S.Flag(t, i))];
      assert es + g + [Inner(S.Read(t))] + [Inner(S.Flag(t, i))] == es + h;
      var mid := Run(st0, es + h).s.readers[t];
      var f' := ConsumerFinishes(st0, es + h, t);
      f := h + f';
      assert es + f == es + h + f';
      GotOneMore(r, mid, Run(st0, es + f).s.readers[t], st.s.d.items);
    }
  }

  /** A claim leaves its consumer where the law above begins. */
  lemma ClaimIsTidy<T>(st0: State<T>, es: seq<Event<T>>, t: nat)
    requires Init(st0) && t < |Run(st0, es).finders| && Run(st0, es).s.d.pcs[t].Claim?
    requires Run(st0, es).s.readers[t].Away?
    ensures var st, st' := Run(st0, es), Run(st0, es + [Inner(S.Claiming(D.Go(t)))]);
            && t < |st'.finders| && Tidy(st'.s.readers[t]) && st'.finders[t].Start?
            && st'.s.readers[t].first == st.s.d.head && st'.s.readers[t].count == st.s.d.pcs[t].take
  {
    hide Run, S.Inv, HeadersInv, UseInv, EnterInv, D.Advance;
    var st := Run(st0, es);
    var log := RunKeeps(st0, es);
    assert FinderInv(st.finders[t], st.s.readers[t], st.headers, st.s.place);
    P.ClaimsFollow(st.s, t, 0);
    More(st0, es, Inner(S.Claiming(D.Go(t))));
  }

  // ----- The producer -----

  /** Entering a block ends with three writes at most, after which the block counts as entered. */
  lemma EnteringEnds<T>(st0: State<T>, es: seq<Event<T>>)
    requires Init(st0)
    ensures var st, st' := Run(st0, es), Run(st0, es + [Enter] + [Enter] + [Enter]);
            && st'.s == st.s && st'.entering == Done && st'.finders == st.finders
            && (st'.headers != [] ==> Last(st'.headers).entered == |st'.s.place|)
  {
    hide Run, S.Inv, HeadersInv, EnterInv, FindersInv;
    var log := RunKeeps(st0, es);
    More(st0, es, Enter);
    More(st0, es + [Enter], Enter);
    More(st0, es + [Enter] + [Enter], Enter);
  }

  lemma EmptyRing<T>(st: State<T>, log: seq<D.Unit>)
    requires Inv(st, log) && st.headers == []
    ensures st.s.place == [] && st.s.oldest == 0
  {
    hide S.Inv, HeadersInv, FindersInv, EnterInv;
  }

  /** A producer that needs a block can insert one, after growing the index if it is full or not there,
      unless the index has the largest size. */
  lemma RoomForBlock<T>(st0: State<T>, es: seq<Event<T>>) returns (f: seq<Event<T>>)
    requires Init(st0) && Run(st0, es).s.producer.Need?
    requires var st := Run(st0, es); st.headers != [] ==> Last(st.headers).exponent < 59
    ensures f == [] || f == [Grow]
    ensures var st, st' := Run(st0, es), Run(st0, es + f + [Inner(S.Insert)]);
            && st'.s == S.Step(st.s, S.Insert) && st'.entering == WriteBase
            && st'.s.place == st.s.place + [|st.s.blocks|]
  {
    hide Run, S.Inv, FindersInv;
    var st := Run(st0, es);
    var log := RunKeeps(st0, es);
    f := [];
    if st.headers == [] {
      EmptyRing(st, log);
      f := [Grow];
      More(st0, es, Grow);
    } else {
      RingFits(st);
      if |st.s.place| - st.s.oldest == |Last(st.headers).blocks| {
        f := [Grow];
        More(st0, es, Grow);
      }
    }
    assert es + [] == es;
    More(st0, es + f, Inner(S.Insert));
  }
}
