/** What calls of the semaphore answer: that permits which are there are taken, alone and in every
    interleaving, that posts wake sleepers, and that a call which may time out comes back. */
module SemaphoreCalls {
  import opened Basics
  import opened Threads
  import opened Semaphore

  // ----- In every interleaving -----

  lemma ReactAnswers(m: Memory, p: PC, e: Event)
    requires CallInv(p, false) && !p.Got? && React(m, p, e).pc.Got?
    ensures var Got(c, permits) := React(m, p, e).pc;
            && (permits == 0 && c.max > 0 ==> m.count <= 0)
            && (permits < c.max ==> React(m, p, e).mem.count <= 0)
  {
  }

  lemma LastStep(s0: State, es: seq<Event>, e: Event)
    requires Init(s0) && e.t < |s0.pcs|
    ensures var s := Run(s0, es);
            && CallInv(s.pcs[e.t], false)
            && Run(s0, es + [e]).mem == React(s.mem, s.pcs[e.t], e).mem
            && Run(s0, es + [e]).pcs[e.t] == React(s.mem, s.pcs[e.t], e).pc
  {
    hide React, CallInv;
    RunKeeps(s0, es, false);
    assert (es + [e])[..|es|] == es;
  }

  /** A call that comes back without a permit it wanted does so at a moment when it sees none. */
  lemma EmptyOnlyWhenSeen(s0: State, es: seq<Event>, e: Event)
    requires Init(s0) && e.t < |s0.pcs| && !Run(s0, es).pcs[e.t].Got?
    requires var p := Run(s0, es + [e]).pcs[e.t]; p.Got? && p.permits == 0 && p.c.max > 0
    ensures Run(s0, es).mem.count <= 0
  {
    hide Run, React, CallInv;
    LastStep(s0, es, e);
    ReactAnswers(Run(s0, es).mem, Run(s0, es).pcs[e.t], e);
  }

  /** A call that comes back with fewer permits than it wanted leaves none in the count. */
  lemma FewerOnlyWhenNoneLeft(s0: State, es: seq<Event>, e: Event)
    requires Init(s0) && e.t < |s0.pcs| && !Run(s0, es).pcs[e.t].Got?
    requires var p := Run(s0, es + [e]).pcs[e.t]; p.Got? && p.permits < p.c.max
    ensures Run(s0, es + [e]).mem.count <= 0
  {
    hide Run, React, CallInv;
    LastStep(s0, es, e);
    ReactAnswers(Run(s0, es).mem, Run(s0, es).pcs[e.t], e);
  }

  // ----- Alone -----

  /** The state `s` with other shared numbers and thread `t` at `p`. */
  function With(s: State, t: nat, m: Memory, p: PC): State
    requires t < |s.pcs|
  {
    State(m, s.pcs[t := p])
  }

  /** One more step of thread `t`. */
  lemma More(s0: State, es: seq<Event>, s: State, t: nat, m: Memory, p: PC, e: Event, o: Outcome)
    returns (es': seq<Event>)
    requires t < |s.pcs| && Run(s0, es) == With(s, t, m, p) && e.t == t && React(m, p, e) == o
    ensures es' == es + [e] && Run(s0, es') == With(s, t, o.mem, o.pc)
  {
    hide React;
    es' := es + [e];
    assert es'[..|es|] == es;
  }

  lemma AsItIs(s: State, t: nat)
    requires t < |s.pcs|
    ensures With(s, t, s.mem, s.pcs[t]) == s
  {
  }

  /** With permits there a call that runs alone takes as many as it wants, or all, at its first try. */
  lemma TakesWhatIsThere(s0: State, es: seq<Event>, t: nat, c: Call)
    requires t < |Run(s0, es).pcs| && Run(s0, es).pcs[t].Idle? && Run(s0, es).mem.count > 0 && c.max > 0
    ensures var s := Run(s0, es);
            var n := Min(c.max, s.mem.count);
            Run(s0, es + [Begin(t, c), Go(t), Go(t)]) == With(s, t, s.mem.(count := s.mem.count - n), Got(c, n))
  {
    hide Run, With;
    var s := Run(s0, es);
    var m, n := s.mem, s.mem.count;
    AsItIs(s, t);
    var f := More(s0, es, s, t, m, Idle, Begin(t, c), Outcome(m, TryLoad(c)));
    f := More(s0, f, s, t, m, TryLoad(c), Go(t), Outcome(m, TryCas(c, n)));
    f := More(s0, f, s, t, m, TryCas(c, n), Go(t),
              Outcome(m.(count := Drawn(n, c.max)), Got(c, n - Drawn(n, c.max))));
    assert f == es + [Begin(t, c), Go(t), Go(t)];
  }

  /** So does a spinning call for which permits have come meanwhile. */
  lemma SpinnerTakesWhatIsThere(s0: State, es: seq<Event>, t: nat)
    requires t < |Run(s0, es).pcs| && Run(s0, es).pcs[t].SpinLoad? && Run(s0, es).mem.count > 0
    ensures var s := Run(s0, es);
            var c := s.pcs[t].c;
            var n := Min(c.max, s.mem.count);
            Run(s0, es + [Go(t), Go(t)]) == With(s, t, s.mem.(count := s.mem.count - n), Got(c, n))
  {
    hide Run, With;
    var s := Run(s0, es);
    var m, n, c, spins := s.mem, s.mem.count, s.pcs[t].c, s.pcs[t].spins;
    AsItIs(s, t);
    var f := More(s0, es, s, t, m, SpinLoad(c, spins), Go(t), Outcome(m, SpinCas(c, spins, n)));
    f := More(s0, f, s, t, m, SpinCas(c, spins, n), Go(t),
              Outcome(m.(count := Drawn(n, c.max)), Got(c, n - Drawn(n, c.max))));
    assert f == es + [Go(t), Go(t)];
  }

  /** And one that has stopped spinning: it does not sleep where permits are. */
  lemma JoinerTakesWhatIsThere(s0: State, es: seq<Event>, t: nat)
    requires t < |Run(s0, es).pcs| && Run(s0, es).pcs[t].Join? && Run(s0, es).mem.count > 0
    requires Run(s0, es).pcs[t].c.max > 0
    ensures var s := Run(s0, es);
            var c := s.pcs[t].c;
            var n := Min(c.max, s.mem.count);
            Run(s0, es + [Go(t), Go(t), Go(t)]) == With(s, t, s.mem.(count := s.mem.count - n), Got(c, n))
  {
    hide Run, With;
    var s := Run(s0, es);
    var c, m := s.pcs[t].c, s.mem.(count := s.mem.count - 1);
    AsItIs(s, t);
    var f := More(s0, es, s, t, s.mem, Join(c), Go(t), Outcome(m, FirstPermit(c)));
    if c.max > 1 && m.count > 0 {
      f := More(s0, f, s, t, m, ExtraLoad(c), Go(t), Outcome(m, ExtraCas(c, m.count)));
      var left := Drawn(m.count, Rest(c));
      f := More(s0, f, s, t, m, ExtraCas(c, m.count), Go(t),
                Outcome(m.(count := left), Got(c, 1 + (m.count - left))));
    } else {
      f := More(s0, f, s, t, m, FirstPermit(c), Go(t), Outcome(m, Got(c, 1)));
      f := More(s0, f, s, t, m, Got(c, 1), Go(t), Outcome(m, Got(c, 1)));
    }
    assert f == es + [Go(t), Go(t), Go(t)];
  }

  /** With none there a call that does not wait comes back with none, and nothing is changed. */
  lemma TryFindsNone(s0: State, es: seq<Event>, t: nat, max: nat)
    requires t < |Run(s0, es).pcs| && Run(s0, es).pcs[t].Idle? && Run(s0, es).mem.count <= 0
    ensures var s := Run(s0, es); Run(s0, es + [Begin(t, Try(max)), Go(t)]) == With(s, t, s.mem, Got(Try(max), 0))
  {
    hide Run, With;
    var s := Run(s0, es);
    AsItIs(s, t);
    var f := More(s0, es, s, t, s.mem, Idle, Begin(t, Try(max)), Outcome(s.mem, TryLoad(Try(max))));
    f := More(s0, f, s, t, s.mem, TryLoad(Try(max)), Go(t), Outcome(s.mem, Got(Try(max), 0)));
    assert f == es + [Begin(t, Try(max)), Go(t)];
  }

  function Gos(t: nat, k: nat): (es: seq<Event>)
    ensures |es| == k && forall i | 0 <= i < k :: es[i] == Go(t)
  {
    seq(k, _ => Go(t))
  }

  lemma GosAdd(es: seq<Event>, t: nat, k: nat)
    ensures es + [Go(t)] + Gos(t, k) == es + Gos(t, k + 1) && es + Gos(t, 0) == es
  {
  }

  /** The posts that `signal` makes for the sleepers. */
  function PostsFor(count: int, n: nat): nat { Max(Min(-count, n), 0) }

  lemma {:induction false} PostsAlone(s0: State, es: seq<Event>, s: State, t: nat, m: Memory, k: nat)
    requires t < |s.pcs| && Run(s0, es) == With(s, t, m, Post(k)) && k > 0
    ensures Run(s0, es + Gos(t, k)) == With(s, t, m.(posts := m.posts + k), Idle)
    decreases k
  {
    hide Run, With;
    var m' := m.(posts := m.posts + 1);
    var f := More(s0, es, s, t, m, Post(k), Go(t), Outcome(m', if k > 1 then Post(k - 1) else Idle));
    GosAdd(es, t, k - 1);
    if k > 1 {
      PostsAlone(s0, f, s, t, m', k - 1);
    } else {
      GosAdd(f, t, 0);
    }
  }

  lemma BackToIdle(s: State, t: nat, m: Memory)
    requires t < |s.pcs| && s.pcs[t] == Idle
    ensures With(s, t, m, Idle) == State(m, s.pcs)
  {
  }

  /** A signal that runs alone adds its permits and one post for each sleeper that they are for. */
  lemma SignalAlone(s0: State, es: seq<Event>, t: nat, n: nat)
    requires t < |Run(s0, es).pcs| && Run(s0, es).pcs[t].Idle?
    ensures var s := Run(s0, es);
            var k, m := PostsFor(s.mem.count, n), s.mem;
            Run(s0, es + [Signal(t, n), Go(t)] + Gos(t, k))
            == State(m.(count := m.count + n, posts := m.posts + k, signalled := m.signalled + n), s.pcs)
  {
    hide Run, With;
    var s := Run(s0, es);
    var k := PostsFor(s.mem.count, n);
    var m' := s.mem.(count := s.mem.count + n, signalled := s.mem.signalled + n);
    AsItIs(s, t);
    var f := More(s0, es, s, t, s.mem, Idle, Signal(t, n), Outcome(s.mem, Add(n)));
    f := More(s0, f, s, t, s.mem, Add(n), Go(t), Outcome(m', if k > 0 then Post(k) else Idle));
    assert f == es + [Signal(t, n), Go(t)];
    if k > 0 {
      PostsAlone(s0, f, s, t, m', k);
    } else {
      GosAdd(f, t, 0);
    }
    BackToIdle(s, t, m'.(posts := m'.posts + k));
  }

  /** A sleeper for whom there is a post wakes with a permit, and takes what else there is. */
  lemma PostWakesSleeper(s0: State, es: seq<Event>, t: nat)
    requires t < |Run(s0, es).pcs| && Run(s0, es).pcs[t].Sleep? && Run(s0, es).mem.posts > 0
    ensures var s := Run(s0, es);
            var c := s.pcs[t].c;
            var n := Min(Rest(c), Max(s.mem.count, 0));
            Run(s0, es + [Go(t), Go(t), Go(t)])
            == With(s, t, s.mem.(posts := s.mem.posts - 1, count := s.mem.count - n), Got(c, 1 + n))
  {
    hide Run, With;
    var s := Run(s0, es);
    var c, m := s.pcs[t].c, s.mem.(posts := s.mem.posts - 1);
    AsItIs(s, t);
    var f := More(s0, es, s, t, s.mem, Sleep(c), Go(t), Outcome(m, FirstPermit(c)));
    if c.max > 1 && m.count > 0 {
      f := More(s0, f, s, t, m, ExtraLoad(c), Go(t), Outcome(m, ExtraCas(c, m.count)));
      var left := Drawn(m.count, Rest(c));
      f := More(s0, f, s, t, m, ExtraCas(c, m.count), Go(t),
                Outcome(m.(count := left), Got(c, 1 + (m.count - left))));
    } else {
      f := More(s0, f, s, t, m, FirstPermit(c), Go(t), Outcome(m, Got(c, 1)));
      f := More(s0, f, s, t, m, Got(c, 1), Go(t), Outcome(m, Got(c, 1)));
    }
    assert f == es + [Go(t), Go(t), Go(t)];
  }

  /** A wait that has given up on the sleep takes the post that has come for it meanwhile. */
  lemma LatePostIsTaken(s0: State, es: seq<Event>, t: nat)
    requires t < |Run(s0, es).pcs| && Run(s0, es).pcs[t].Settle?
    requires Run(s0, es).mem.count >= 0 && Run(s0, es).mem.posts > 0
    ensures var s := Run(s0, es);
            Run(s0, es + [Go(t), Go(t)]) == With(s, t, s.mem.(posts := s.mem.posts - 1), FirstPermit(s.pcs[t].c))
  {
    hide Run, With;
    var s := Run(s0, es);
    var c := s.pcs[t].c;
    AsItIs(s, t);
    var f := More(s0, es, s, t, s.mem, Settle(c), Go(t), Outcome(s.mem, TakePost(c)));
    f := More(s0, f, s, t, s.mem, TakePost(c), Go(t), Outcome(s.mem.(posts := s.mem.posts - 1), FirstPermit(c)));
    assert f == es + [Go(t), Go(t)];
  }

  lemma {:induction false} SpinsAlone(s0: State, es: seq<Event>, s: State, t: nat, m: Memory, c: Call, k: nat)
    requires t < |s.pcs| && Run(s0, es) == With(s, t, m, SpinTest(c, k)) && m.count <= 0
    ensures Run(s0, es + Gos(t, k)) == With(s, t, m, Join(c))
    decreases k
  {
    hide Run, With;
    if k == 0 {
      GosAdd(es, t, 0);
    } else {
      var f := More(s0, es, s, t, m, SpinLoad(c, k), Go(t), Outcome(m, SpinTest(c, k - 1)));
      SpinsAlone(s0, f, s, t, m, c, k - 1);
      GosAdd(es, t, k - 1);
    }
  }

  /** The events of thread `t` from its call to its return with nothing. */
  function TimeoutEvents(t: nat, c: Call, spins: nat): seq<Event>
  {
    [Begin(t, c), Go(t)] + Gos(t, spins)
    + if c.Wait? && c.timeout == Zero then [Go(t), Go(t), Go(t)] else [Go(t), GiveUp(t), Go(t), Go(t)]
  }

  lemma JoinGivesUp(s0: State, es: seq<Event>, s: State, t: nat, m: Memory, c: Call)
    requires t < |s.pcs| && Run(s0, es) == With(s, t, m, Join(c)) && m.count <= 0 && c.Wait? && c.timeout != Forever
    ensures Run(s0, es + if c.timeout == Zero then [Go(t), Go(t), Go(t)] else [Go(t), GiveUp(t), Go(t), Go(t)])
         == With(s, t, m, Got(c, 0))
  {
    hide Run, With;
    var low := m.(count := m.count - 1);
    var f;
    if c.timeout == Zero {
      f := More(s0, es, s, t, m, Join(c), Go(t), Outcome(low, Settle(c)));
    } else {
      f := More(s0, es, s, t, m, Join(c), Go(t), Outcome(low, Sleep(c)));
      f := More(s0, f, s, t, low, Sleep(c), GiveUp(t), Outcome(low, Settle(c)));
    }
    f := More(s0, f, s, t, low, Settle(c), Go(t), Outcome(low, Leave(c, low.count)));
    f := More(s0, f, s, t, low, Leave(c, low.count), Go(t), Outcome(m, Got(c, 0)));
    assert f == es + if c.timeout == Zero then [Go(t), Go(t), Go(t)] else [Go(t), GiveUp(t), Go(t), Go(t)];
  }

  /** A wait with a timeout that runs alone where no permit is there comes back with none, and leaves
      everything as it was. */
  lemma TimesOutAlone(s0: State, es: seq<Event>, t: nat, c: Call)
    requires t < |Run(s0, es).pcs| && Run(s0, es).pcs[t].Idle? && Run(s0, es).mem.count <= 0
    requires c.Wait? && c.timeout != Forever && c.max > 0
    ensures var s := Run(s0, es); Run(s0, es + TimeoutEvents(t, c, s.mem.maxSpins)) == With(s, t, s.mem, Got(c, 0))
  {
    hide Run, With;
    var s := Run(s0, es);
    var k := s.mem.maxSpins;
    AsItIs(s, t);
    var f := More(s0, es, s, t, s.mem, Idle, Begin(t, c), Outcome(s.mem, TryLoad(c)));
    f := More(s0, f, s, t, s.mem, TryLoad(c), Go(t), Outcome(s.mem, SpinTest(c, k)));
    SpinsAlone(s0, f, s, t, s.mem, c, k);
    JoinGivesUp(s0, f + Gos(t, k), s, t, s.mem, c);
    var last := if c.timeout == Zero then [Go(t), Go(t), Go(t)] else [Go(t), GiveUp(t), Go(t), Go(t)];
    assert f + Gos(t, k) + last == es + TimeoutEvents(t, c, k);
  }
}
