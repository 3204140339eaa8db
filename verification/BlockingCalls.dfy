/** What calls of the blocking queue do: what was enqueued is what the calls that succeeded were given,
    an enqueue that runs alone adds its elements and as many permits, and a dequeue that runs alone
    returns as many elements as it wants and there are. */
module BlockingCalls {
  import opened Basics
  import opened BlockingQueue
  import S = Semaphore
  import C = SemaphoreCalls

  // ----- What was put -----

  /** The elements of the enqueues of a run that found their thread free. */
  function Given<T>(s0: State<T>, es: seq<Event<T>>): multiset<T>
  {
    if es == [] then multiset{}
    else
      var s, e := Run(s0, es[..|es| - 1]), es[|es| - 1];
      Given(s0, es[..|es| - 1])
      + if e.Put? && Free(s, e.t) && e.t < |s.sema.pcs| && s.sema.pcs[e.t].Idle? then multiset(e.xs) else multiset{}
  }

  lemma PutChanges<T>(s: State<T>, e: Event<T>)
    ensures Step(s, e).put
         == s.put + if e.Put? && Free(s, e.t) && e.t < |s.sema.pcs| && s.sema.pcs[e.t].Idle?
                    then multiset(e.xs) else multiset{}
  {
  }

  /** In every run what was put in is exactly what the enqueues were given. */
  lemma {:induction false} PutIsGiven<T>(s0: State<T>, es: seq<Event<T>>)
    requires Init(s0)
    ensures Run(s0, es).put == Given(s0, es)
  {
    if es != [] {
      PutIsGiven(s0, es[..|es| - 1]);
      PutChanges(Run(s0, es[..|es| - 1]), es[|es| - 1]);
    }
  }

  /** And each of these elements has been signalled, or its enqueue has still to do so. */
  lemma SignalledIsGiven<T>(s0: State<T>, es: seq<Event<T>>)
    requires Init(s0)
    ensures |Given(s0, es)| == Run(s0, es).sema.mem.signalled + Unsignalled(Run(s0, es))
  {
    hide Run, Given;
    PutIsGiven(s0, es);
    RunKeeps(s0, es, false);
  }

  // ----- Runs of the semaphore inside -----

  function Lift<T>(f: seq<S.Event>): (es: seq<Event<T>>)
    ensures |es| == |f| && forall i | 0 <= i < |f| :: es[i] == Sema(f[i])
  {
    seq(|f|, i requires 0 <= i < |f| => Sema(f[i]))
  }

  /** Steps of thread `t` inside the semaphore, which it has begun and not ended. */
  predicate Inside(f: seq<S.Event>, t: nat)
  {
    forall i | 0 <= i < |f| :: f[i].t == t && !f[i].Signal? && !f[i].Return?
  }

  lemma {:induction false} LiftRun<T>(s: State<T>, f: seq<S.Event>, t: nat)
    requires Free(s, t) && Inside(f, t)
    ensures Run(s, Lift(f)) == s.(sema := S.Run(s.sema, f))
  {
    hide S.Step;
    if f != [] {
      LiftRun(s, f[..|f| - 1], t);
      assert Lift<T>(f)[..|f| - 1] == Lift<T>(f[..|f| - 1]);
      assert f[|f| - 1].t == t;
    }
  }

  lemma {:induction false} RunConcat<T>(s: State<T>, es: seq<Event<T>>, f: seq<Event<T>>)
    ensures Run(s, es + f) == Run(Run(s, es), f)
  {
    hide Step;
    if f == [] {
      assert es + f == es;
    } else {
      RunConcat(s, es, f[..|f| - 1]);
      assert (es + f)[..|es + f| - 1] == es + f[..|f| - 1];
    }
  }

  lemma RunOne<T>(s: State<T>, e: Event<T>)
    ensures Run(s, [e]) == Step(s, e)
  {
    hide Step;
    assert [e][..0] == [];
  }

  // ----- Enqueue -----

  /** An enqueue by `t`, with the `k` posts that its signal makes. */
  function EnqueueEvents<T>(t: nat, xs: seq<T>, k: nat): seq<Event<T>>
  {
    [Put(t, xs)] + [Announce(t)] + Lift(C.Gos(t, 1 + k))
  }

  lemma SignalRun(m: S.State, t: nat, n: nat)
    requires t < |m.pcs| && m.pcs[t].Idle?
    ensures var k := C.PostsFor(m.mem.count, n);
            S.Run(S.Step(m, S.Signal(t, n)), C.Gos(t, 1 + k))
            == S.State(m.mem.(count := m.mem.count + n, posts := m.mem.posts + k, signalled := m.mem.signalled + n),
                       m.pcs)
  {
    hide S.Step;
    var k := C.PostsFor(m.mem.count, n);
    var e := S.Signal(t, n);
    C.SignalAlone(m, [], t, n);
    assert [] + [e, S.Go(t)] + C.Gos(t, k) == [e] + C.Gos(t, 1 + k);
    S.RunConcat(m, [e], C.Gos(t, 1 + k));
    assert [e][..0] == [];
  }

  /** The state after the elements went in and the signal was called. */
  function PutAnnounced<T>(s: State<T>, t: nat, xs: seq<T>): State<T>
  {
    s.(inner := s.inner + multiset(xs), put := s.put + multiset(xs), sema := S.Step(s.sema, S.Signal(t, |xs|)))
  }

  lemma PutAnnounce<T>(s: State<T>, t: nat, xs: seq<T>)
    requires Free(s, t) && t < |s.sema.pcs| && s.sema.pcs[t].Idle?
    ensures Step(Step(s, Put(t, xs)), Announce(t)) == PutAnnounced(s, t, xs)
  {
    hide S.Step;
    assert s.clients[t := Putting(|xs|)][t := Out] == s.clients;
  }

  lemma PutAnnounceRun<T>(s: State<T>, t: nat, xs: seq<T>)
    requires Free(s, t) && t < |s.sema.pcs| && s.sema.pcs[t].Idle?
    ensures Run(s, [Put(t, xs)] + [Announce(t)]) == PutAnnounced(s, t, xs)
  {
    hide Run, Step, PutAnnounced;
    PutAnnounce(s, t, xs);
    RunOne(s, Put(t, xs));
    RunConcat(s, [Put(t, xs)], [Announce(t)]);
    RunOne(Step(s, Put(t, xs)), Announce(t));
  }

  /** The elements are inside, with as many permits and a post for each sleeper that gets one. */
  function Enqueued<T>(s: State<T>, xs: seq<T>): State<T>
  {
    var m := s.sema.mem;
    var posts := m.posts + C.PostsFor(m.count, |xs|);
    s.(inner := s.inner + multiset(xs), put := s.put + multiset(xs),
       sema := S.State(m.(count := m.count + |xs|, posts := posts, signalled := m.signalled + |xs|), s.sema.pcs))
  }

  lemma SignalAfter<T>(s: State<T>, t: nat, xs: seq<T>)
    requires Free(s, t) && t < |s.sema.pcs| && s.sema.pcs[t].Idle?
    ensures Run(PutAnnounced(s, t, xs), Lift(C.Gos(t, 1 + C.PostsFor(s.sema.mem.count, |xs|)))) == Enqueued(s, xs)
  {
    hide S.Step, S.Run, Run;
    LiftRun(PutAnnounced(s, t, xs), C.Gos(t, 1 + C.PostsFor(s.sema.mem.count, |xs|)), t);
    SignalRun(s.sema, t, |xs|);
  }

  /** An enqueue that runs alone adds exactly its elements and as many permits, and a post for each
      sleeper that one of them is for. */
  lemma EnqueueAlone<T>(s: State<T>, t: nat, xs: seq<T>)
    requires Free(s, t) && t < |s.sema.pcs| && s.sema.pcs[t].Idle?
    ensures Run(s, EnqueueEvents(t, xs, C.PostsFor(s.sema.mem.count, |xs|))) == Enqueued(s, xs)
  {
    hide S.Step, S.Run, Run, Step, PutAnnounced, Enqueued, C.Gos, C.PostsFor;
    var k := C.PostsFor(s.sema.mem.count, |xs|);
    PutAnnounceRun(s, t, xs);
    RunConcat(s, [Put(t, xs)] + [Announce(t)], Lift(C.Gos(t, 1 + k)));
    SignalAfter(s, t, xs);
  }

  // ----- Dequeue -----

  /** A dequeue by `u` whose call of the semaphore takes the steps `f`. */
  function DequeueEvents<T>(u: nat, f: seq<S.Event>, xs: seq<T>): seq<Event<T>>
  {
    Lift(f) + [Collect(u)] + [Take(u, xs)] + [Finish(u)]
  }

  lemma CollectStep<T>(s: State<T>, u: nat, m: S.Memory, c: S.Call, n: nat)
    requires Free(s, u) && u < |s.sema.pcs| && s.sema.pcs[u].Idle?
    ensures Step(s.(sema := C.With(s.sema, u, m, S.Got(c, n))), Collect(u))
         == s.(sema := S.State(m.(returned := m.returned + n), s.sema.pcs),
               clients := s.clients[u := Draining(c, n, [])])
  {
    assert s.sema.pcs[u := S.Got(c, n)][u := S.Idle] == s.sema.pcs;
  }

  lemma TakeStep<T>(s: State<T>, u: nat, c: S.Call, xs: seq<T>)
    requires u < |s.clients| && multiset(xs) <= s.inner
    ensures Step(s.(clients := s.clients[u := Draining(c, |xs|, [])]), Take(u, xs))
         == s.(clients := s.clients[u := Draining(c, |xs|, xs)], inner := s.inner - multiset(xs),
               delivered := s.delivered + multiset(xs))
  {
    assert [] + xs == xs;
    assert s.clients[u := Draining(c, |xs|, [])][u := Draining(c, |xs|, xs)] == s.clients[u := Draining(c, |xs|, xs)];
  }

  lemma FinishStep<T>(s: State<T>, u: nat, c: S.Call, xs: seq<T>)
    requires Free(s, u)
    ensures Step(s.(clients := s.clients[u := Draining(c, |xs|, xs)]), Finish(u))
         == s.(results := s.results + [Result(c, |xs|, xs)])
  {
    assert s.clients[u := Draining(c, |xs|, xs)][u := Out] == s.clients;
  }

  /** From the return of the semaphore's call on. */
  lemma CollectTakeFinish<T>(s: State<T>, u: nat, m: S.Memory, c: S.Call, xs: seq<T>)
    requires Free(s, u) && u < |s.sema.pcs| && s.sema.pcs[u].Idle? && multiset(xs) <= s.inner
    ensures var s1 := s.(sema := C.With(s.sema, u, m, S.Got(c, |xs|)));
            Step(Step(Step(s1, Collect(u)), Take(u, xs)), Finish(u))
            == s.(sema := S.State(m.(returned := m.returned + |xs|), s.sema.pcs), inner := s.inner - multiset(xs),
                  delivered := s.delivered + multiset(xs), results := s.results + [Result(c, |xs|, xs)])
  {
    hide Step, C.With;
    CollectStep(s, u, m, c, |xs|);
    var s2 := s.(sema := S.State(m.(returned := m.returned + |xs|), s.sema.pcs));
    TakeStep(s2, u, c, xs);
    FinishStep(s2.(inner := s.inner - multiset(xs), delivered := s.delivered + multiset(xs)), u, c, xs);
  }

  lemma CollectAlone<T>(s: State<T>, u: nat, f: seq<S.Event>, m: S.Memory, c: S.Call, xs: seq<T>)
    requires Free(s, u) && u < |s.sema.pcs| && s.sema.pcs[u].Idle? && Inside(f, u)
    requires S.Run(s.sema, f) == C.With(s.sema, u, m, S.Got(c, |xs|)) && multiset(xs) <= s.inner
    ensures Run(s, DequeueEvents(u, f, xs))
         == s.(sema := S.State(m.(returned := m.returned + |xs|), s.sema.pcs), inner := s.inner - multiset(xs),
               delivered := s.delivered + multiset(xs), results := s.results + [Result(c, |xs|, xs)])
  {
    hide S.Run, Run, Step, C.With;
    LiftRun(s, f, u);
    CollectTakeFinish(s, u, m, c, xs);
    var s1 := s.(sema := C.With(s.sema, u, m, S.Got(c, |xs|)));
    RunConcat(s, Lift(f), [Collect(u)]);
    RunOne(s1, Collect(u));
    RunConcat(s, Lift(f) + [Collect(u)], [Take(u, xs)]);
    RunOne(Step(s1, Collect(u)), Take(u, xs));
    RunConcat(s, Lift(f) + [Collect(u)] + [Take(u, xs)], [Finish(u)]);
    RunOne(Step(Step(s1, Collect(u)), Take(u, xs)), Finish(u));
  }

  lemma StartRun(m: S.State)
    ensures S.Run(m, []) == m
  {
  }

  /** A dequeue that runs alone where permits are there returns as many elements as it wants and
      there are permits, whichever the inner queue hands out. */
  lemma DequeueAlone<T>(s: State<T>, u: nat, c: S.Call, xs: seq<T>)
    requires Free(s, u) && u < |s.sema.pcs| && s.sema.pcs[u].Idle? && s.sema.mem.count > 0 && c.max > 0
    requires multiset(xs) <= s.inner && |xs| == Min(c.max, s.sema.mem.count)
    ensures var m := s.sema.mem;
            Run(s, DequeueEvents(u, [S.Begin(u, c), S.Go(u), S.Go(u)], xs))
            == s.(sema := S.State(m.(count := m.count - |xs|, returned := m.returned + |xs|), s.sema.pcs),
                  inner := s.inner - multiset(xs), delivered := s.delivered + multiset(xs),
                  results := s.results + [Result(c, |xs|, xs)])
  {
    hide S.Run, Run, Step;
    var f := [S.Begin(u, c), S.Go(u), S.Go(u)];
    StartRun(s.sema);
    C.TakesWhatIsThere(s.sema, [], u, c);
    assert [] + f == f;
    CollectAlone(s, u, f, s.sema.mem.(count := s.sema.mem.count - |xs|), c, xs);
  }

  /** One that does not wait returns nothing where no permit is there, and changes nothing. */
  lemma DequeueNothing<T>(s: State<T>, u: nat, max: nat)
    requires Free(s, u) && u < |s.sema.pcs| && s.sema.pcs[u].Idle? && s.sema.mem.count <= 0
    ensures Run(s, DequeueEvents(u, [S.Begin(u, S.Try(max)), S.Go(u)], []))
         == s.(results := s.results + [Result(S.Try(max), 0, [])])
  {
    hide S.Run, Run, Step;
    var f := [S.Begin(u, S.Try(max)), S.Go(u)];
    StartRun(s.sema);
    C.TryFindsNone(s.sema, [], u, max);
    assert [] + f == f;
    CollectAlone(s, u, f, s.sema.mem, S.Try(max), []);
    assert s.inner - multiset([]) == s.inner && s.delivered + multiset([]) == s.delivered;
  }

  predicate AtRest<T>(s: State<T>)
  {
    && (forall t | 0 <= t < |s.clients| :: s.clients[t].Out?)
    && (forall t | 0 <= t < |s.sema.pcs| :: s.sema.pcs[t].Idle?)
  }

  lemma StepStays<T>(s: State<T>, e: Event<T>)
    ensures |Step(s, e).clients| == |s.clients|
  {
    hide S.Step;
  }

  lemma {:induction false} ThreadsStay<T>(s: State<T>, es: seq<Event<T>>)
    ensures |Run(s, es).clients| == |s.clients|
  {
    hide Step;
    if es != [] {
      ThreadsStay(s, es[..|es| - 1]);
      StepStays(Run(s, es[..|es| - 1]), es[|es| - 1]);
    }
  }

  lemma SameThreads<T>(s0: State<T>, es: seq<Event<T>>)
    requires Init(s0)
    ensures |Run(s0, es).clients| == |Run(s0, es).sema.pcs| == |s0.clients|
  {
    RunKeeps(s0, es, false);
    ThreadsStay(s0, es);
  }

  /** What goes into an empty queue at rest comes out: an enqueue of elements and then a dequeue of as
      many or more, waiting or not, each alone, hand exactly these elements over and leave it empty. */
  lemma RoundTrip<T>(s0: State<T>, es: seq<Event<T>>, t: nat, u: nat, xs: seq<T>, c: S.Call)
    requires Init(s0) && AtRest(Run(s0, es)) && Run(s0, es).inner == multiset{} && 0 < |xs| <= c.max
    requires t < |s0.clients| && u < |s0.clients|
    ensures var s := Run(s0, es);
            var f := EnqueueEvents(t, xs, 0) + DequeueEvents(u, [S.Begin(u, c), S.Go(u), S.Go(u)], xs);
            var s' := Run(s0, es + f);
            && s'.results == s.results + [Result(c, |xs|, xs)]
            && s'.inner == multiset{} && AtRest(s') && s'.delivered == s.delivered + multiset(xs)
  {
    hide Run, Step, S.Run, Inv;
    var s := Run(s0, es);
    SameThreads(s0, es);
    QuietCountIsSize(s0, es);
    EnqueueAlone(s, t, xs);
    var g, h := EnqueueEvents(t, xs, 0), DequeueEvents(u, [S.Begin(u, c), S.Go(u), S.Go(u)], xs);
    RunConcat(s, g, h);
    RunConcat(s0, es, g + h);
    DequeueAlone(Run(s, g), u, c, xs);
  }
}
