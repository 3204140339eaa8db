/** What calls of the free list do: alone, an `add` puts its block on the list and a `try_get` returns
    the first block if there is one; and in every interleaving a `try_get` comes back with nothing
    only if it has seen an empty list. */
module FreeListCalls {
  import opened Threads
  import opened FreeList
  import opened FreeListProof

  // ----- What a call does alone -----

  predicate AllIdle(s: State)
  {
    forall t | 0 <= t < |s.pcs| :: s.pcs[t] == Idle
  }

  /** In a quiet state a block on the list has the reference of the list alone, and an owned one none. */
  lemma QuietWords(s: State, l: seq<nat>, places: seq<Place>, n: nat)
    requires Inv(s, l, places) && AllIdle(s)
    ensures n in l ==> n < |s.words| && s.words[n] == 1
    ensures n in s.owner ==> n < |s.words| && s.words[n] == 0 && n !in l
  {
    SumAtMost(s.pcs, HoldsWeight(n), 0);
    if n in l {
      var i :| 0 <= i < |l| && l[i] == n;
      assert s.nexts[l[i]] == First(l[i + 1..]);
    }
    if n < |s.words| {
      assert BlockInv(s, l, places[n], n);
    }
  }

  /** One more event. */
  lemma Then(s: State, f: seq<Event>, s1: State, e: Event, s2: State) returns (f': seq<Event>)
    requires Shape(s) && Run(s, f) == s1 && Step(s1, e) == s2
    ensures f' == f + [e] && Run(s, f') == s2
  {
    hide Step, Shape;
    f' := f + [e];
    assert f'[..|f|] == f;
  }

  lemma NoEvents(s: State)
    requires Shape(s)
    ensures Run(s, []) == s
  {
  }

  lemma {:induction false} RunConcat(s: State, es: seq<Event>, f: seq<Event>)
    requires Shape(s)
    ensures Run(s, es + f) == Run(Run(s, es), f)
  {
    if f == [] {
      assert es + f == es;
    } else {
      RunConcat(s, es, f[..|f| - 1]);
      assert (es + f)[..|es + f| - 1] == es + f[..|f| - 1];
    }
  }

  /** A call of `try_get` with six operations. */
  function GetEvents(t: nat): seq<Event>
  {
    [CallGet(t), Go(t), Go(t), Go(t), Go(t), Go(t), Go(t)]
  }

  /** A call of `add` with five. */
  function AddEvents(t: nat, n: nat): seq<Event>
  {
    [CallAdd(t, n), Go(t), Go(t), Go(t), Go(t), Go(t)]
  }

  /** The state with thread `t` at `p`. */
  function With(s: State, t: nat, p: PC): State
    requires t < |s.pcs|
  {
    s.(pcs := s.pcs[t := p])
  }

  lemma PcsTwice(pcs: seq<PC>, t: nat, p: PC, q: PC)
    requires t < |pcs|
    ensures pcs[t := p][t := q] == pcs[t := q] && pcs[t := p][t] == p
  {
  }

  /** The first three operations of `try_get` on a list with a block that has one reference. */
  lemma GetRetains(s: State, t: nat, n: nat)
    requires Shape(s) && t < |s.pcs| && s.head == To(n) && s.words[n] == 1
    ensures Shape(With(s, t, GetLoad)) && Step(With(s, t, GetLoad), Go(t)) == With(s, t, GetRefs(n))
    ensures Shape(With(s, t, GetRefs(n))) && Step(With(s, t, GetRefs(n)), Go(t)) == With(s, t, GetRetain(n, 1))
    ensures Shape(With(s, t, GetRetain(n, 1)))
    ensures Step(With(s, t, GetRetain(n, 1)), Go(t)) == With(s.(words := s.words[n := 2]), t, GetNext(n))
  {
    PcsTwice(s.pcs, t, GetLoad, GetRefs(n));
    PcsTwice(s.pcs, t, GetRefs(n), GetRetain(n, 1));
    PcsTwice(s.pcs, t, GetRetain(n, 1), GetNext(n));
  }

  /** The other three. */
  lemma GetTakes(s: State, t: nat, n: nat)
    requires Shape(s) && t < |s.pcs| && s.head == To(n) && s.words[n] == 2
    ensures Shape(With(s, t, GetNext(n))) && Step(With(s, t, GetNext(n)), Go(t)) == With(s, t, GetCas(n, s.nexts[n]))
    ensures Shape(With(s, t, GetCas(n, s.nexts[n])))
    ensures Step(With(s, t, GetCas(n, s.nexts[n])), Go(t)) == With(s.(head := s.nexts[n]), t, GetClaim(n))
  {
    PcsTwice(s.pcs, t, GetNext(n), GetCas(n, s.nexts[n]));
    PcsTwice(s.pcs, t, GetCas(n, s.nexts[n]), GetClaim(n));
  }

  lemma GetClaims(s: State, t: nat, n: nat)
    requires Shape(s) && t < |s.pcs| && n < |s.words| && s.words[n] == 2
    ensures Shape(With(s, t, GetClaim(n)))
    ensures Step(With(s, t, GetClaim(n)), Go(t))
         == With(s.(words := s.words[n := 0], owner := s.owner[n := t]), t, Idle)
  {
    PcsTwice(s.pcs, t, GetClaim(n), Idle);
  }

  lemma CallsBegin(s: State, t: nat)
    requires Shape(s) && t < |s.pcs| && s.pcs[t] == Idle
    ensures Shape(With(s, t, GetLoad)) && Step(s, CallGet(t)) == With(s, t, GetLoad) && Step(s, Go(t)) == s
    ensures forall n | n in s.owner && s.owner[n] == t ::
              n < |s.words| && Step(s, CallAdd(t, n)) == With(s.(owner := s.owner - {n}), t, AddFlag(n))
  {
  }

  lemma BackToIdle(s: State, t: nat)
    requires t < |s.pcs| && s.pcs[t] == Idle
    ensures With(s, t, Idle) == s
  {
  }

  /** The operations of `try_get` alone, each as a step. */
  lemma GetPath(s: State, t: nat, n: nat, s4: State, s6: State, s': State)
    requires Shape(s) && t < |s.pcs| && s.pcs[t] == Idle && s.head == To(n) && n < |s.words| && s.words[n] == 1
    requires s4 == s.(words := s.words[n := 2]) && s6 == s4.(head := s.nexts[n])
    requires s' == s.(head := s.nexts[n], words := s.words[n := 0], owner := s.owner[n := t])
    ensures Shape(With(s, t, GetLoad)) && Shape(With(s, t, GetRefs(n))) && Shape(With(s, t, GetRetain(n, 1)))
    ensures |s4.pcs| == |s6.pcs| == |s.pcs|
    ensures Shape(With(s4, t, GetNext(n))) && Shape(With(s4, t, GetCas(n, s.nexts[n])))
    ensures Shape(With(s6, t, GetClaim(n)))
    ensures Step(s, CallGet(t)) == With(s, t, GetLoad)
    ensures Step(With(s, t, GetLoad), Go(t)) == With(s, t, GetRefs(n))
    ensures Step(With(s, t, GetRefs(n)), Go(t)) == With(s, t, GetRetain(n, 1))
    ensures Step(With(s, t, GetRetain(n, 1)), Go(t)) == With(s4, t, GetNext(n))
    ensures Step(With(s4, t, GetNext(n)), Go(t)) == With(s4, t, GetCas(n, s.nexts[n]))
    ensures Step(With(s4, t, GetCas(n, s.nexts[n])), Go(t)) == With(s6, t, GetClaim(n))
    ensures Step(With(s6, t, GetClaim(n)), Go(t)) == s'
  {
    hide Step, Advance;
    CallsBegin(s, t);
    GetRetains(s, t, n);
    GetTakes(s4, t, n);
    GetClaims(s6, t, n);
    assert s4.words[n := 0] == s.words[n := 0];
    BackToIdle(s', t);
  }

  lemma GetRun(s: State, t: nat, n: nat)
    requires Shape(s) && t < |s.pcs| && s.pcs[t] == Idle && s.head == To(n) && n < |s.words| && s.words[n] == 1
    requires n < |s.nexts|
    ensures Run(s, GetEvents(t)) == s.(head := s.nexts[n], words := s.words[n := 0], owner := s.owner[n := t])
  {
    hide Run, Step, With, Shape;
    var s4 := s.(words := s.words[n := 2]);
    var s6 := s4.(head := s.nexts[n]);
    var s' := s.(head := s.nexts[n], words := s.words[n := 0], owner := s.owner[n := t]);
    GetPath(s, t, n, s4, s6, s');
    NoEvents(s);
    var f := Then(s, [], s, CallGet(t), With(s, t, GetLoad));
    f := Then(s, f, With(s, t, GetLoad), Go(t), With(s, t, GetRefs(n)));
    f := Then(s, f, With(s, t, GetRefs(n)), Go(t), With(s, t, GetRetain(n, 1)));
    f := Then(s, f, With(s, t, GetRetain(n, 1)), Go(t), With(s4, t, GetNext(n)));
    f := Then(s, f, With(s4, t, GetNext(n)), Go(t), With(s4, t, GetCas(n, s.nexts[n])));
    f := Then(s, f, With(s4, t, GetCas(n, s.nexts[n])), Go(t), With(s6, t, GetClaim(n)));
    f := Then(s, f, With(s6, t, GetClaim(n)), Go(t), s');
    assert f == GetEvents(t);
  }

  lemma GetLoadsNull(s: State, t: nat)
    requires Shape(s) && t < |s.pcs| && s.head == Null
    ensures Shape(With(s, t, GetLoad)) && Step(With(s, t, GetLoad), Go(t)) == With(s, t, Idle)
  {
    PcsTwice(s.pcs, t, GetLoad, Idle);
  }

  /** From an empty list the call comes back at its first load. */
  lemma GetNothing(s: State, t: nat)
    requires Shape(s) && t < |s.pcs| && s.pcs[t] == Idle && s.head == Null
    ensures Run(s, GetEvents(t)) == s
  {
    hide Run, Step;
    CallsBegin(s, t);
    GetLoadsNull(s, t);
    BackToIdle(s, t);
    NoEvents(s);
    var f := Then(s, [], s, CallGet(t), With(s, t, GetLoad));
    f := Then(s, f, With(s, t, GetLoad), Go(t), s);
    f := Then(s, f, s, Go(t), s);
    f := Then(s, f, s, Go(t), s);
    f := Then(s, f, s, Go(t), s);
    f := Then(s, f, s, Go(t), s);
    f := Then(s, f, s, Go(t), s);
    assert f == GetEvents(t);
  }

  lemma AddFlags(s: State, t: nat, n: nat)
    requires Shape(s) && t < |s.pcs| && n < |s.words| && s.words[n] == 0
    ensures Shape(With(s, t, AddFlag(n)))
    ensures Step(With(s, t, AddFlag(n)), Go(t)) == With(s.(words := s.words[n := FLAG]), t, LinkLoad(n, FromAdd))
  {
    PcsTwice(s.pcs, t, AddFlag(n), LinkLoad(n, FromAdd));
  }

  lemma AddLinks(s: State, t: nat, n: nat, p: Ptr)
    requires Shape(s) && t < |s.pcs| && n < |s.words| && s.head == p
    ensures Shape(With(s, t, LinkLoad(n, FromAdd)))
    ensures Step(With(s, t, LinkLoad(n, FromAdd)), Go(t)) == With(s, t, LinkNext(n, p, FromAdd))
    ensures Shape(With(s, t, LinkNext(n, p, FromAdd)))
    ensures Step(With(s, t, LinkNext(n, p, FromAdd)), Go(t))
         == With(s.(nexts := s.nexts[n := p]), t, LinkRefs(n, p, FromAdd))
  {
    PcsTwice(s.pcs, t, LinkLoad(n, FromAdd), LinkNext(n, p, FromAdd));
    PcsTwice(s.pcs, t, LinkNext(n, p, FromAdd), LinkRefs(n, p, FromAdd));
  }

  lemma AddInstalls(s: State, t: nat, n: nat, p: Ptr)
    requires Shape(s) && t < |s.pcs| && n < |s.words| && s.head == p
    ensures Shape(With(s, t, LinkRefs(n, p, FromAdd)))
    ensures Step(With(s, t, LinkRefs(n, p, FromAdd)), Go(t))
         == With(s.(words := s.words[n := 1]), t, LinkCas(n, p, FromAdd))
    ensures Shape(With(s, t, LinkCas(n, p, FromAdd)))
    ensures Step(With(s, t, LinkCas(n, p, FromAdd)), Go(t)) == With(s.(head := To(n)), t, Idle)
  {
    PcsTwice(s.pcs, t, LinkRefs(n, p, FromAdd), LinkCas(n, p, FromAdd));
    PcsTwice(s.pcs, t, LinkCas(n, p, FromAdd), Idle);
  }

  /** The operations of `add` alone, each as a step. */
  lemma AddPath(s: State, t: nat, n: nat, s1: State, s2: State, s4: State, s5: State, s': State)
    requires Shape(s) && t < |s.pcs| && s.pcs[t] == Idle && n in s.owner && s.owner[n] == t
    requires n < |s.words| && s.words[n] == 0 && n < |s.nexts|
    requires s1 == s.(owner := s.owner - {n}) && s2 == s1.(words := s.words[n := FLAG])
    requires s4 == s2.(nexts := s.nexts[n := s.head]) && s5 == s4.(words := s.words[n := 1])
    requires s' == s5.(head := To(n))
    ensures |s1.pcs| == |s2.pcs| == |s4.pcs| == |s5.pcs| == |s.pcs|
    ensures Shape(With(s1, t, AddFlag(n))) && Shape(With(s2, t, LinkLoad(n, FromAdd)))
    ensures Shape(With(s2, t, LinkNext(n, s.head, FromAdd))) && Shape(With(s4, t, LinkRefs(n, s.head, FromAdd)))
    ensures Shape(With(s5, t, LinkCas(n, s.head, FromAdd)))
    ensures Step(s, CallAdd(t, n)) == With(s1, t, AddFlag(n))
    ensures Step(With(s1, t, AddFlag(n)), Go(t)) == With(s2, t, LinkLoad(n, FromAdd))
    ensures Step(With(s2, t, LinkLoad(n, FromAdd)), Go(t)) == With(s2, t, LinkNext(n, s.head, FromAdd))
    ensures Step(With(s2, t, LinkNext(n, s.head, FromAdd)), Go(t)) == With(s4, t, LinkRefs(n, s.head, FromAdd))
    ensures Step(With(s4, t, LinkRefs(n, s.head, FromAdd)), Go(t)) == With(s5, t, LinkCas(n, s.head, FromAdd))
    ensures Step(With(s5, t, LinkCas(n, s.head, FromAdd)), Go(t)) == s'
  {
    hide Step, Advance;
    assert s4.words[n := 1] == s.words[n := 1];
    CallsBegin(s, t);
    AddFlags(s1, t, n);
    AddLinks(s2, t, n, s.head);
    AddInstalls(s4, t, n, s.head);
    AddInstalls(s5, t, n, s.head);
    BackToIdle(s', t);
  }

  lemma AddRun(s: State, t: nat, n: nat)
    requires Shape(s) && t < |s.pcs| && s.pcs[t] == Idle && n in s.owner && s.owner[n] == t
    requires n < |s.words| && s.words[n] == 0 && n < |s.nexts|
    ensures Run(s, AddEvents(t, n))
         == s.(head := To(n), words := s.words[n := 1], nexts := s.nexts[n := s.head], owner := s.owner - {n})
  {
    hide Run, Step, With, Shape;
    var p, s1 := s.head, s.(owner := s.owner - {n});
    var s2 := s1.(words := s.words[n := FLAG]);
    var s4 := s2.(nexts := s.nexts[n := p]);
    var s5 := s4.(words := s.words[n := 1]);
    var s' := s5.(head := To(n));
    AddPath(s, t, n, s1, s2, s4, s5, s');
    NoEvents(s);
    var f := Then(s, [], s, CallAdd(t, n), With(s1, t, AddFlag(n)));
    f := Then(s, f, With(s1, t, AddFlag(n)), Go(t), With(s2, t, LinkLoad(n, FromAdd)));
    f := Then(s, f, With(s2, t, LinkLoad(n, FromAdd)), Go(t), With(s2, t, LinkNext(n, p, FromAdd)));
    f := Then(s, f, With(s2, t, LinkNext(n, p, FromAdd)), Go(t), With(s4, t, LinkRefs(n, p, FromAdd)));
    f := Then(s, f, With(s4, t, LinkRefs(n, p, FromAdd)), Go(t), With(s5, t, LinkCas(n, p, FromAdd)));
    f := Then(s, f, With(s5, t, LinkCas(n, p, FromAdd)), Go(t), s');
    assert f == AddEvents(t, n);
  }

  /** After any run that has become quiet, a `try_get` that runs alone returns the first block of the
      list, and nothing exactly if the list is empty. */
  lemma TryGetAlone(s0: State, es: seq<Event>, t: nat) returns (l: seq<nat>)
    requires Init(s0) && AllIdle(Run(s0, es)) && t < |Run(s0, es).pcs|
    ensures var s, s' := Run(s0, es), Run(s0, es + GetEvents(t));
            && Chain(s.head, s.nexts, l) && AllIdle(s')
            && (l == [] ==> s' == s)
            && (l != [] ==> Chain(s'.head, s'.nexts, l[1..]) && s'.owner == s.owner[l[0] := t])
  {
    hide Run, BlockInv, PcInv;
    var s, places := Run(s0, es), [];
    l, places := RunKeeps(s0, es);
    RunConcat(s0, es, GetEvents(t));
    if l == [] {
      GetNothing(s, t);
    } else {
      QuietWords(s, l, places, l[0]);
      TailChain(s.head, s.nexts, l);
      GetRun(s, t, l[0]);
    }
  }

  lemma OtherLinks(head: Ptr, nexts: seq<Ptr>, l: seq<nat>, n: nat, p: Ptr)
    requires Chain(head, nexts, l) && n < |nexts| && n !in l
    ensures Chain(head, nexts[n := p], l)
  {
  }

  /** An `add` that runs alone puts its block in front. */
  lemma AddAlone(s0: State, es: seq<Event>, t: nat, n: nat) returns (l: seq<nat>)
    requires Init(s0) && AllIdle(Run(s0, es)) && t < |Run(s0, es).pcs|
    requires n in Run(s0, es).owner && Run(s0, es).owner[n] == t
    ensures var s, s' := Run(s0, es), Run(s0, es + AddEvents(t, n));
            && Chain(s.head, s.nexts, l) && AllIdle(s')
            && Chain(s'.head, s'.nexts, [n] + l) && s'.owner == s.owner - {n}
  {
    hide Run, BlockInv, PcInv;
    var s, places := Run(s0, es), [];
    l, places := RunKeeps(s0, es);
    RunConcat(s0, es, AddEvents(t, n));
    QuietWords(s, l, places, n);
    AddRun(s, t, n);
    OtherLinks(s.head, s.nexts, l, n, s.head);
    PushedChain(s.nexts[n := s.head], l, n);
  }

  lemma StepLength(s: State, e: Event)
    requires Shape(s)
    ensures |Step(s, e).pcs| == |s.pcs|
  {
  }

  lemma {:induction false} RunLength(s: State, es: seq<Event>)
    requires Shape(s)
    ensures |Run(s, es).pcs| == |s.pcs|
  {
    hide Step;
    if es != [] {
      RunLength(s, es[..|es| - 1]);
      StepLength(Run(s, es[..|es| - 1]), es[|es| - 1]);
    }
  }

  /** What was added comes back: an `add` and then a `try_get`, each alone, hand the block over. */
  lemma AddThenGet(s0: State, es: seq<Event>, t: nat, n: nat, u: nat) returns (l: seq<nat>)
    requires Init(s0) && AllIdle(Run(s0, es)) && t < |Run(s0, es).pcs| && u < |Run(s0, es).pcs|
    requires n in Run(s0, es).owner && Run(s0, es).owner[n] == t
    ensures var s, s' := Run(s0, es), Run(s0, es + AddEvents(t, n) + GetEvents(u));
            && Chain(s.head, s.nexts, l) && Chain(s'.head, s'.nexts, l)
            && AllIdle(s') && s'.owner == (s.owner - {n})[n := u]
  {
    hide Run, Inv;
    l := AddAlone(s0, es, t, n);
    var fs := es + AddEvents(t, n);
    RunLength(s0, es);
    RunLength(s0, fs);
    var l' := TryGetAlone(s0, fs, u);
    ChainUnique(Run(s0, fs).head, Run(s0, fs).nexts, l', [n] + l);
    assert ([n] + l)[1..] == l;
  }

  // ----- When `try_get` comes back with nothing -----

  predicate InGet(p: PC)
  {
    || p.GetLoad? || p.GetRefs? || p.GetRetain? || p.GetNext? || p.GetCas? || p.GetClaim? || p.GetRelease?
    || (InLink(p) && p.ret.IntoGet?)
  }

  /** The head that the failed CAS of a `try_get` saw. */
  function Seen(p: PC): Ptr
    requires InGet(p) && (p.GetRelease? || InLink(p))
  {
    if p.GetRelease? then p.seen else p.ret.seen
  }

  /** Between moment `k` and now thread `t` was in one call of `try_get`, and the head was null at
      moment `k`. */
  ghost predicate SawNull(s0: State, es: seq<Event>, t: nat, k: nat)
    requires Shape(s0)
  {
    && k <= |es| && Run(s0, es[..k]).head == Null
    && forall j | k <= j <= |es| :: t < |Run(s0, es[..j]).pcs| && InGet(Run(s0, es[..j]).pcs[t])
  }

  lemma SawNullBefore(s0: State, es: seq<Event>, t: nat, k: nat)
    requires Shape(s0) && es != [] && SawNull(s0, es[..|es| - 1], t, k)
    requires t < |Run(s0, es).pcs| && InGet(Run(s0, es).pcs[t])
    ensures SawNull(s0, es, t, k)
  {
    hide Run, InGet;
    var before := es[..|es| - 1];
    forall j | k <= j <= |es| ensures t < |Run(s0, es[..j]).pcs| && InGet(Run(s0, es[..j]).pcs[t]) {
      if j < |es| {
        assert before[..j] == es[..j];
      } else {
        assert es[..j] == es;
      }
    }
    assert before[..k] == es[..k];
  }

  /** A step of another thread leaves a thread where it is. */
  lemma OwnPc(s: State, e: Event, t: nat)
    requires Shape(s) && t < |s.pcs| && !s.pcs[t].Idle? && !(e.Go? && e.t == t)
    ensures |Step(s, e).pcs| == |s.pcs| && Step(s, e).pcs[t] == s.pcs[t]
  {
  }

  /** Only a failed CAS gives a thread a head that it has seen. */
  lemma SeenFrom(s: State, t: nat)
    requires Shape(s) && t < |s.pcs|
    requires var p := Step(s, Go(t)).pcs[t]; InGet(p) && (p.GetRelease? || InLink(p))
    ensures var p, p' := s.pcs[t], Step(s, Go(t)).pcs[t];
            && InGet(p)
            && (p.GetCas? ==> Seen(p') == s.head)
            && (!p.GetCas? ==> (p.GetRelease? || InLink(p)) && Seen(p') == Seen(p))
  {
    assert ValidPC(|s.words|, s.pcs[t]);
  }

  lemma IdleIsOut()
    ensures !InGet(Idle)
  {
  }

  lemma AdvanceOther(s: State, e: Event, t: nat)
    requires Shape(s) && t < |s.pcs| && (e.Go? ==> e.t != t)
    ensures e.Go? && e.t < |s.pcs| ==>
              |Advance(s, e.t).pcs| == |s.pcs| && Advance(s, e.t).pcs[t] == s.pcs[t]
  {
  }

  lemma NotBegun(s: State, e: Event, t: nat)
    requires Shape(s) && t < |s.pcs| && e != Go(t)
    requires var p := Step(s, e).pcs[t]; InGet(p) && (p.GetRelease? || InLink(p))
    ensures !s.pcs[t].Idle?
  {
    hide Advance;
    AdvanceOther(s, e, t);
  }

  lemma NowNull(s0: State, es: seq<Event>, t: nat)
    requires Shape(s0) && t < |Run(s0, es).pcs| && InGet(Run(s0, es).pcs[t]) && Run(s0, es).head == Null
    ensures SawNull(s0, es, t, |es|)
  {
    hide Run, InGet;
    assert es[..|es|] == es;
  }

  lemma {:induction false} NullWasSeen(s0: State, es: seq<Event>, t: nat) returns (k: nat)
    requires Init(s0) && t < |Run(s0, es).pcs|
    requires var p := Run(s0, es).pcs[t]; InGet(p) && (p.GetRelease? || InLink(p)) && Seen(p) == Null
    ensures SawNull(s0, es, t, k)
  {
    hide InGet, Step, Seen;
    assert es == [] ==> Run(s0, es).pcs[t] == Idle && !InGet(Idle) by { IdleIsOut(); }
    var before, e := es[..|es| - 1], es[|es| - 1];
    StepLength(Run(s0, before), e);
    IdleIsOut();
    var p := Run(s0, before).pcs[t];
    if e == Go(t) {
      SeenFrom(Run(s0, before), t);
      if p.GetCas? {
        k := |before|;
        NowNull(s0, before, t);
      } else {
        k := NullWasSeen(s0, before, t);
      }
    } else {
      NotBegun(Run(s0, before), e, t);
      OwnPc(Run(s0, before), e, t);
      k := NullWasSeen(s0, before, t);
    }
    SawNullBefore(s0, es, t, k);
  }

  /** In every interleaving a `try_get` that comes back with nothing has seen an empty list since it
      was called: at its last load, or at a CAS of the head that failed. */
  lemma EmptyHandedSawNull(s0: State, es: seq<Event>, t: nat) returns (k: nat)
    requires Init(s0) && t < |Run(s0, es).pcs| && InGet(Run(s0, es).pcs[t]) && !Run(s0, es).pcs[t].GetClaim?
    requires Run(s0, es + [Go(t)]).pcs[t] == Idle
    ensures SawNull(s0, es, t, k)
  {
    var s := Run(s0, es);
    assert (es + [Go(t)])[..|es|] == es;
    var l, places := RunKeeps(s0, es);
    assert ValidPC(|s.words|, s.pcs[t]);
    if s.pcs[t].GetLoad? {
      k := |es|;
      NowNull(s0, es, t);
    } else {
      k := NullWasSeen(s0, es, t);
    }
  }

  /** And one that ends otherwise ends with a block of its own. */
  lemma ClaimEndsWithBlock(s0: State, es: seq<Event>, t: nat)
    requires Init(s0) && t < |Run(s0, es).pcs| && Run(s0, es).pcs[t].GetClaim?
    ensures var s, s' := Run(s0, es), Run(s0, es + [Go(t)]);
            s'.pcs[t] == Idle && s'.owner == s.owner[s.pcs[t].n := t]
  {
    assert (es + [Go(t)])[..|es|] == es;
  }
}
