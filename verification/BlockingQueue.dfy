/** The blocking queue (`BlockingConcurrentQueue` in blockingconcurrentqueue.hpp): a non-blocking
    inner queue and a semaphore that starts at zero.

    A producer puts elements into the inner queue and then signals as many permits. A consumer
    takes permits from the semaphore and then asks the inner queue again and again until it has an
    element for each of them. The inner queue is a bag: a try may return any of its elements, or
    none at all even if there are some. Permits come from the step system of `Semaphore`. */
module BlockingQueue {
  import opened Threads
  import S = Semaphore

  /** What a thread does outside the semaphore: nothing, signal `n` elements it has put in, or
      collect an element for each of the `want` permits that `call` returned with. */
  datatype Client<T> =
    | Out
    | Putting(n: nat)
    | Draining(call: S.Call, want: nat, got: seq<T>)

  /** A dequeue that is over: its call of the semaphore, the permits of it, and the elements. */
  datatype Result<T> = Result(call: S.Call, permits: nat, got: seq<T>)

  /** `put` and `delivered` are everything that entered the inner queue and everything that left;
      `results` are the finished dequeues in order. */
  datatype State<T> = State(sema: S.State, inner: multiset<T>, clients: seq<Client<T>>,
                            put: multiset<T>, delivered: multiset<T>, results: seq<Result<T>>)

  datatype Event<T> =
    | Put(t: nat, xs: seq<T>)        // inner.enqueue or inner.enqueue_bulk succeeds
    | Announce(t: nat)               // sema->signal(n) is called
    | Sema(e: S.Event)               // a call of, or a step inside, the semaphore
    | Collect(t: nat)                // the semaphore call returns its permits
    | Take(t: nat, xs: seq<T>)       // one try of the inner queue, for at most what is missing
    | Finish(t: nat)                 // count == max

  function Set<T>(s: State<T>, t: nat, c: Client<T>): State<T>
    requires t < |s.clients|
  {
    s.(clients := s.clients[t := c])
  }

  predicate Free<T>(s: State<T>, t: nat)
  {
    t < |s.clients| && s.clients[t].Out?
  }

  /** An event that its guard does not allow changes nothing. */
  function Step<T>(s: State<T>, e: Event<T>): State<T>
  {
    match e
    case Put(t, xs) =>
      if Free(s, t) && t < |s.sema.pcs| && s.sema.pcs[t].Idle? then
        Set(s, t, Putting(|xs|)).(inner := s.inner + multiset(xs), put := s.put + multiset(xs))
      else s
    case Announce(t) =>
      if t < |s.clients| && s.clients[t].Putting? then
        Set(s, t, Out).(sema := S.Step(s.sema, S.Signal(t, s.clients[t].n)))
      else s
    case Sema(e) =>
      if Free(s, e.t) && !e.Signal? && !e.Return? then s.(sema := S.Step(s.sema, e)) else s
    case Collect(t) =>
      if Free(s, t) && t < |s.sema.pcs| && s.sema.pcs[t].Got? then
        Set(s, t, Draining(s.sema.pcs[t].c, s.sema.pcs[t].permits, [])).(sema := S.Step(s.sema, S.Return(t)))
      else s
    case Take(t, xs) =>
      if t < |s.clients| && s.clients[t].Draining? && multiset(xs) <= s.inner
         && |s.clients[t].got| + |xs| <= s.clients[t].want then
        Set(s, t, s.clients[t].(got := s.clients[t].got + xs))
          .(inner := s.inner - multiset(xs), delivered := s.delivered + multiset(xs))
      else s
    case Finish(t) =>
      if t < |s.clients| && s.clients[t].Draining? && |s.clients[t].got| == s.clients[t].want then
        var Draining(call, want, got) := s.clients[t];
        Set(s, t, Out).(results := s.results + [Result(call, want, got)])
      else s
  }

  function Run<T>(s: State<T>, es: seq<Event<T>>): State<T>
  {
    if es == [] then s else Step(Run(s, es[..|es| - 1]), es[|es| - 1])
  }

  predicate Init<T>(s: State<T>)
  {
    && S.Init(s.sema) && s.sema.mem.count == 0
    && |s.clients| == |s.sema.pcs|
    && (forall t | 0 <= t < |s.clients| :: s.clients[t] == Out)
    && s.inner == s.put == s.delivered == multiset{} && s.results == []
  }

  // ----- Elements and permits -----

  function PuttingOf<T>(c: Client<T>): nat { if c.Putting? then c.n else 0 }
  function MissingOf<T>(c: Client<T>): nat
  {
    if c.Draining? && |c.got| <= c.want then c.want - |c.got| else 0
  }
  function AddOf(p: S.PC): nat { if p.Add? then p.n else 0 }

  function PuttingWeight<T>(): Client<T> -> nat { (c: Client<T>) => PuttingOf(c) }
  function MissingWeight<T>(): Client<T> -> nat { (c: Client<T>) => MissingOf(c) }
  function AddWeight(): S.PC -> nat { (p: S.PC) => AddOf(p) }

  /** Elements already in the inner queue for which no permit has been signalled yet. */
  function Unsignalled<T>(s: State<T>): nat
  {
    Sum(s.clients, PuttingWeight()) + Sum(s.sema.pcs, AddWeight())
  }

  /** Elements that consumers hold permits for and have yet to take out. */
  function Missing<T>(s: State<T>): nat
  {
    Sum(s.clients, MissingWeight())
  }

  /** What finished dequeues got. */
  function Handed<T>(results: seq<Result<T>>): multiset<T>
  {
    if results == [] then multiset{}
    else Handed(results[..|results| - 1]) + multiset(results[|results| - 1].got)
  }

  function Bag<T>(c: Client<T>): multiset<T>
  {
    if c.Draining? then multiset(c.got) else multiset{}
  }

  /** What dequeues under way have got so far. */
  function InHands<T>(clients: seq<Client<T>>): multiset<T>
  {
    if clients == [] then multiset{} else Bag(clients[0]) + InHands(clients[1..])
  }

  /** What a call of the semaphore may return with; `safe` says that no indefinite sleep failed. */
  predicate Permitted(c: S.Call, permits: nat, safe: bool)
  {
    && permits <= c.max
    && (safe && c.Wait? && c.timeout == S.Forever ==> (permits > 0 <==> c.max > 0))
  }

  predicate ClientInv<T>(c: Client<T>, p: S.PC, safe: bool)
  {
    && (!c.Out? ==> p.Idle?)
    && (c.Draining? ==> |c.got| <= c.want && Permitted(c.call, c.want, safe))
  }

  predicate ResultInv<T>(r: Result<T>, safe: bool)
  {
    |r.got| == r.permits && Permitted(r.call, r.permits, safe)
  }

  predicate Bags<T>(s: State<T>)
  {
    s.put == s.inner + s.delivered && s.delivered == Handed(s.results) + InHands(s.clients)
  }

  predicate Inv<T>(s: State<T>, safe: bool)
  {
    && S.Inv(s.sema, 0, safe)
    && |s.clients| == |s.sema.pcs|
    && (forall t | 0 <= t < |s.clients| :: ClientInv(s.clients[t], s.sema.pcs[t], safe))
    && (forall i | 0 <= i < |s.results| :: ResultInv(s.results[i], safe))
    && Bags(s)
    && |s.put| == s.sema.mem.signalled + Unsignalled(s)
    && s.sema.mem.returned == |s.delivered| + Missing(s)
  }

  /** No event ends an indefinite sleep in the semaphore without a post. */
  predicate Dependable<T>(s: State<T>, e: Event<T>)
  {
    e.Sema? ==> S.Dependable(s.sema, e.e)
  }

  predicate Reliable<T>(s: State<T>, es: seq<Event<T>>)
  {
    es == [] || (Reliable(s, es[..|es| - 1]) && Dependable(Run(s, es[..|es| - 1]), es[|es| - 1]))
  }

  lemma AddBoth<T>(a: multiset<T>, b: multiset<T>, x: multiset<T>, y: multiset<T>, b': multiset<T>)
    requires b' + x == b + y
    ensures (a + b') + x == (a + b) + y
  {
    assert (a + b') + x == a + (b' + x);
    assert (a + b) + y == a + (b + y);
  }

  lemma {:induction false} HandsBalance<T>(clients: seq<Client<T>>, t: nat, c: Client<T>)
    requires t < |clients|
    ensures InHands(clients[t := c]) + Bag(clients[t]) == InHands(clients) + Bag(c)
  {
    hide Bag;
    var clients' := clients[t := c];
    if t == 0 {
      assert clients'[1..] == clients[1..];
    } else {
      HandsBalance(clients[1..], t - 1, c);
      assert clients'[1..] == clients[1..][t - 1 := c];
      AddBoth(Bag(clients[0]), InHands(clients[1..]), Bag(clients[t]), Bag(c), InHands(clients'[1..]));
    }
  }

  lemma {:induction false} BagInHands<T>(clients: seq<Client<T>>, t: nat)
    requires t < |clients|
    ensures Bag(clients[t]) <= InHands(clients)
  {
    hide Bag;
    if t > 0 {
      BagInHands(clients[1..], t - 1);
    }
  }

  /** Taking what thread `t` has in hand out of the total and putting the new bag in. */
  lemma HandsMove<T>(clients: seq<Client<T>>, t: nat, c: Client<T>)
    requires t < |clients|
    ensures Bag(clients[t]) <= InHands(clients)
    ensures InHands(clients[t := c]) == InHands(clients) - Bag(clients[t]) + Bag(c)
  {
    hide Bag, InHands;
    HandsBalance(clients, t, c);
    BagInHands(clients, t);
    var before, after := InHands(clients), InHands(clients[t := c]);
    assert after == after + Bag(clients[t]) - Bag(clients[t]);
    assert before - Bag(clients[t]) + Bag(c) == before + Bag(c) - Bag(clients[t]);
  }

  lemma BagsOfTake<T>(s: State<T>, t: nat, xs: seq<T>)
    requires Bags(s)
    ensures Bags(Step(s, Take(t, xs)))
  {
    hide InHands, Handed;
    if t < |s.clients| && s.clients[t].Draining? {
      var c := s.clients[t];
      HandsMove(s.clients, t, c.(got := c.got + xs));
      assert multiset(c.got + xs) == multiset(c.got) + multiset(xs);
    }
  }

  lemma HandedMore<T>(results: seq<Result<T>>, r: Result<T>)
    ensures Handed(results + [r]) == Handed(results) + multiset(r.got)
  {
    assert (results + [r])[..|results|] == results;
  }

  lemma BagsOfFinish<T>(s: State<T>, t: nat)
    requires Bags(s)
    ensures Bags(Step(s, Finish(t)))
  {
    hide InHands, Handed;
    if t < |s.clients| && s.clients[t].Draining? && |s.clients[t].got| == s.clients[t].want {
      var Draining(call, want, got) := s.clients[t];
      HandsMove(s.clients, t, Out);
      HandedMore(s.results, Result(call, want, got));
    }
  }

  /** A step of a thread that has nothing in hand before and after. */
  lemma SameHands<T>(clients: seq<Client<T>>, t: nat, c: Client<T>)
    requires t < |clients| && Bag(clients[t]) == Bag(c) == multiset{}
    ensures InHands(clients[t := c]) == InHands(clients)
  {
    HandsMove(clients, t, c);
  }

  lemma BagsOfPut<T>(s: State<T>, t: nat, xs: seq<T>)
    requires Bags(s)
    ensures Bags(Step(s, Put(t, xs)))
  {
    if Free(s, t) {
      SameHands(s.clients, t, Putting(|xs|));
      hide InHands, Handed;
    }
  }

  lemma BagsOfCalls<T>(s: State<T>, t: nat)
    requires Bags(s)
    ensures Bags(Step(s, Announce(t))) && Bags(Step(s, Collect(t)))
  {
    if t < |s.clients| && Bag(s.clients[t]) == multiset{} {
      SameHands(s.clients, t, Out);
      if t < |s.sema.pcs| && s.sema.pcs[t].Got? {
        SameHands(s.clients, t, Draining(s.sema.pcs[t].c, s.sema.pcs[t].permits, []));
      }
    }
    hide InHands, Handed, S.Step;
  }

  lemma ClientMoves<T>(s: State<T>, t: nat, c: Client<T>)
    requires t < |s.clients|
    ensures Sum(s.clients[t := c], PuttingWeight())
         == Sum(s.clients, PuttingWeight()) - PuttingOf(s.clients[t]) + PuttingOf(c)
    ensures Sum(s.clients[t := c], MissingWeight()) == Missing(s) - MissingOf(s.clients[t]) + MissingOf(c)
  {
    SumUpdate(s.clients, t, c, PuttingWeight());
    SumUpdate(s.clients, t, c, MissingWeight());
  }

  /** What a semaphore event adds to the elements being signalled. */
  function Announced(p: S.PC, e: S.Event): nat
  {
    if e.Signal? && p.Idle? then e.n else 0
  }

  lemma ReactSignals(m: S.Memory, p: S.PC, e: S.Event)
    ensures AddOf(S.React(m, p, e).pc) + S.React(m, p, e).mem.signalled == AddOf(p) + m.signalled + Announced(p, e)
    ensures !e.Return? ==> S.React(m, p, e).mem.returned == m.returned
    ensures e.Return? && p.Got? ==> S.React(m, p, e).mem.returned == m.returned + p.permits
  {
  }

  /** A semaphore step by `t`, given what it does to the thread and the shared numbers. */
  lemma SemaMoves(s: S.State, e: S.Event, safe: bool)
    requires S.Inv(s, 0, safe) && e.t < |s.pcs| && (safe ==> S.Dependable(s, e))
    ensures S.Inv(S.Step(s, e), 0, safe)
    ensures Sum(S.Step(s, e).pcs, AddWeight()) + S.Step(s, e).mem.signalled
         == Sum(s.pcs, AddWeight()) + s.mem.signalled + Announced(s.pcs[e.t], e)
    ensures !e.Return? ==> S.Step(s, e).mem.returned == s.mem.returned
    ensures e.Return? && s.pcs[e.t].Got? ==> S.Step(s, e).mem.returned == s.mem.returned + s.pcs[e.t].permits
    ensures e.Return? && s.pcs[e.t].Got? ==> S.Step(s, e).pcs[e.t].Idle?
    ensures forall u | 0 <= u < |s.pcs| && u != e.t :: S.Step(s, e).pcs[u] == s.pcs[u]
  {
    S.StepKeeps(s, 0, safe, e);
    ReactSignals(s.mem, s.pcs[e.t], e);
    var o := S.React(s.mem, s.pcs[e.t], e);
    SumUpdate(s.pcs, e.t, o.pc, AddWeight());
  }

  lemma PutKeeps<T>(s: State<T>, t: nat, xs: seq<T>, safe: bool)
    requires Inv(s, safe)
    ensures Inv(Step(s, Put(t, xs)), safe)
  {
    hide Bags, S.Inv, S.Step;
    if t < |s.clients| { ClientMoves(s, t, Putting(|xs|)); }
    BagsOfPut(s, t, xs);
  }

  lemma AnnounceKeeps<T>(s: State<T>, t: nat, safe: bool)
    requires Inv(s, safe)
    ensures Inv(Step(s, Announce(t)), safe)
  {
    hide Bags, S.Inv, S.Step;
    if t < |s.clients| && s.clients[t].Putting? {
      ClientMoves(s, t, Out);
      SemaMoves(s.sema, S.Signal(t, s.clients[t].n), safe);
      BagsOfCalls(s, t);
    }
  }

  lemma BagsOfSema<T>(s: State<T>, e: S.Event)
    requires Bags(s)
    ensures Bags(Step(s, Sema(e)))
  {
    hide InHands, Handed, S.Step;
  }

  lemma SemaKeeps<T>(s: State<T>, e: S.Event, safe: bool)
    requires Inv(s, safe) && (safe ==> S.Dependable(s.sema, e))
    ensures Inv(Step(s, Sema(e)), safe)
  {
    hide Bags, S.Inv, S.Step;
    if Free(s, e.t) && !e.Signal? && !e.Return? {
      SemaMoves(s.sema, e, safe);
    }
    BagsOfSema(s, e);
  }

  lemma CallPermitted(s: S.State, t: nat, safe: bool)
    requires S.Inv(s, 0, safe) && t < |s.pcs| && s.pcs[t].Got?
    ensures Permitted(s.pcs[t].c, s.pcs[t].permits, safe)
  {
    assert S.CallInv(s.pcs[t], safe);
  }

  lemma CollectKeeps<T>(s: State<T>, t: nat, safe: bool)
    requires Inv(s, safe)
    ensures Inv(Step(s, Collect(t)), safe)
  {
    hide Bags, S.Inv, S.Step;
    if Free(s, t) && s.sema.pcs[t].Got? {
      var p := s.sema.pcs[t];
      CallPermitted(s.sema, t, safe);
      ClientMoves(s, t, Draining(p.c, p.permits, []));
      SemaMoves(s.sema, S.Return(t), safe);
      BagsOfCalls(s, t);
    }
  }

  lemma TakeKeeps<T>(s: State<T>, t: nat, xs: seq<T>, safe: bool)
    requires Inv(s, safe)
    ensures Inv(Step(s, Take(t, xs)), safe)
  {
    hide Bags, S.Inv, S.Step;
    if t < |s.clients| && s.clients[t].Draining? {
      var c := s.clients[t];
      ClientMoves(s, t, c.(got := c.got + xs));
      BagsOfTake(s, t, xs);
    }
  }

  lemma FinishKeeps<T>(s: State<T>, t: nat, safe: bool)
    requires Inv(s, safe)
    ensures Inv(Step(s, Finish(t)), safe)
  {
    hide Bags, S.Inv, S.Step;
    if t < |s.clients| && s.clients[t].Draining? && |s.clients[t].got| == s.clients[t].want {
      var Draining(call, want, got) := s.clients[t];
      ClientMoves(s, t, Out);
      BagsOfFinish(s, t);
    }
  }

  lemma StepKeeps<T>(s: State<T>, e: Event<T>, safe: bool)
    requires Inv(s, safe) && (safe ==> Dependable(s, e))
    ensures Inv(Step(s, e), safe)
  {
    match e
    case Put(t, xs) => PutKeeps(s, t, xs, safe);
    case Announce(t) => AnnounceKeeps(s, t, safe);
    case Sema(e) => SemaKeeps(s, e, safe);
    case Collect(t) => CollectKeeps(s, t, safe);
    case Take(t, xs) => TakeKeeps(s, t, xs, safe);
    case Finish(t) => FinishKeeps(s, t, safe);
  }

  lemma {:induction false} NoHands<T>(clients: seq<Client<T>>)
    requires forall t | 0 <= t < |clients| :: clients[t].Out?
    ensures InHands(clients) == multiset{}
  {
    if clients != [] {
      NoHands(clients[1..]);
    }
  }

  lemma StartKeeps<T>(s: State<T>, safe: bool)
    requires Init(s)
    ensures Inv(s, safe)
  {
    S.RunKeeps(s.sema, [], safe);
    SumAtMost(s.clients, PuttingWeight(), 0);
    SumAtMost(s.clients, MissingWeight(), 0);
    SumAtMost(s.sema.pcs, AddWeight(), 0);
    NoHands(s.clients);
  }

  lemma {:induction false} RunKeeps<T>(s: State<T>, es: seq<Event<T>>, safe: bool)
    requires Init(s) && (safe ==> Reliable(s, es))
    ensures Inv(Run(s, es), safe)
  {
    hide Inv;
    if es == [] {
      StartKeeps(s, safe);
    } else {
      RunKeeps(s, es[..|es| - 1], safe);
      StepKeeps(Run(s, es[..|es| - 1]), es[|es| - 1], safe);
    }
  }

  // ----- What producers and consumers rely on -----

  /** In every interleaving the inner queue holds an element for each permit there is, wherever the
      permit is, and one for each element still to be signalled; nothing else. */
  lemma PermitMeansElement<T>(s0: State<T>, es: seq<Event<T>>)
    requires Init(s0)
    ensures var s := Run(s0, es);
            |s.inner| == Unsignalled(s) + S.Available(s.sema) + S.Held(s.sema) + Missing(s)
  {
    RunKeeps(s0, es, false);
    var s := Run(s0, es);
    assert |s.put| == |s.inner| + |s.delivered|;
  }

  /** A consumer in the retry loop always faces an inner queue with enough elements, so some try
      can succeed. */
  lemma RetryCanSucceed<T>(s0: State<T>, es: seq<Event<T>>, t: nat) returns (x: T)
    requires Init(s0)
    requires var s := Run(s0, es);
             t < |s.clients| && s.clients[t].Draining? && |s.clients[t].got| < s.clients[t].want
    ensures var s := Run(s0, es);
            && s.clients[t].want - |s.clients[t].got| <= |s.inner|
            && x in s.inner
            && Run(s0, es + [Take(t, [x])]).clients[t] == s.clients[t].(got := s.clients[t].got + [x])
  {
    var s := Run(s0, es);
    PermitMeansElement(s0, es);
    SumAtLeast(s.clients, t, MissingWeight());
    assert s.inner != multiset{};
    x :| x in s.inner;
    assert multiset([x]) <= s.inner;
    assert (es + [Take(t, [x])])[..|es|] == es;
  }

  /** A finished dequeue has an element for each permit of its call of the semaphore, so no more than
      it asked for; one that waited indefinitely has at least one, if it asked for any and if
      untimed sleeps end only by a post. */
  lemma FinishedCallsDeliver<T>(s0: State<T>, es: seq<Event<T>>, i: nat)
    requires Init(s0) && i < |Run(s0, es).results|
    ensures var Result(call, permits, got) := Run(s0, es).results[i];
            && |got| == permits <= call.max
            && (Reliable(s0, es) && call.Wait? && call.timeout == S.Forever ==> (|got| > 0 <==> call.max > 0))
  {
    RunKeeps(s0, es, Reliable(s0, es));
    assert ResultInv(Run(s0, es).results[i], Reliable(s0, es));
  }

  /** Every element put in is inside, with one dequeue under way, or with one finished dequeue, and
      as many times as it was put in: none is lost, invented or delivered twice. */
  lemma {:induction false} ElementsConserved<T>(s0: State<T>, es: seq<Event<T>>)
    requires Init(s0)
    ensures var s := Run(s0, es); s.put == s.inner + InHands(s.clients) + Handed(s.results)
  {
    RunKeeps(s0, es, false);
  }

  /** Consumers sleep only on an empty queue: with no signal under way and no post to come, a
      sleeping consumer means that every element inside is spoken for by another consumer. */
  lemma SleepMeansEmpty<T>(s0: State<T>, es: seq<Event<T>>, t: nat)
    requires Init(s0)
    requires var s := Run(s0, es);
             && t < |s.sema.pcs| && S.InSlowPath(s.sema.pcs[t])
             && s.sema.mem.posts == 0 && S.Owed(s.sema) == 0 && Unsignalled(s) == 0
    ensures var s := Run(s0, es); |s.inner| == S.Held(s.sema) + Missing(s)
  {
    RunKeeps(s0, es, false);
    PermitMeansElement(s0, es);
    SumAtLeast(Run(s0, es).sema.pcs, t, S.SlowWeight());
  }

  /** With no call in progress the count of the semaphore is the number of elements inside. */
  lemma QuietCountIsSize<T>(s0: State<T>, es: seq<Event<T>>)
    requires Init(s0)
    requires var s := Run(s0, es);
             && (forall t | 0 <= t < |s.clients| :: s.clients[t].Out?)
             && (forall t | 0 <= t < |s.sema.pcs| :: s.sema.pcs[t].Idle?)
    ensures Run(s0, es).sema.mem.count == |Run(s0, es).inner|
  {
    var s := Run(s0, es);
    RunKeeps(s0, es, false);
    PermitMeansElement(s0, es);
    SumAtMost(s.clients, PuttingWeight(), 0);
    SumAtMost(s.clients, MissingWeight(), 0);
    SumAtMost(s.sema.pcs, AddWeight(), 0);
    SumAtMost(s.sema.pcs, S.SlowWeight(), 0);
    SumAtMost(s.sema.pcs, S.OwedWeight(), 0);
    SumAtMost(s.sema.pcs, S.HeldWeight(), 0);
  }
}
