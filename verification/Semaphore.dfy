/** The lightweight semaphore (`LightweightSemaphore` in lightweightsemaphore.hpp).

    `m_count` is one signed number: positive it counts permits, negative it counts threads that
    went to the operating-system semaphore. Every atomic operation is one step of one thread. The
    operating-system semaphore is a counter whose wait may end without a post.

    `tryWait` and `wait` are `tryWaitMany` and `waitMany` for one permit: with a maximum of one the
    bulk versions compute the same new count and take the same branches. */
module Semaphore {
  import opened Basics
  import opened Threads

  /** Negative, zero and positive `timeout_usecs`. */
  datatype Timeout = Forever | Zero | Limited

  datatype Call =
    | Try(max: nat)
    | Wait(max: nat, timeout: Timeout)

  datatype PC =
    | Idle
    | TryLoad(c: Call)                        // load m_count
    | TryCas(c: Call, seen: nat)               // weak CAS on m_count
    | SpinLoad(c: Call, spins: nat)           // load m_count
    | SpinCas(c: Call, spins: nat, seen: nat)  // strong CAS on m_count
    | Join(c: Call)                           // m_count.fetch_sub(1)
    | Sleep(c: Call)                          // wait or timed_wait
    | Settle(c: Call)                         // load m_count after giving up
    | TakePost(c: Call)                       // try_wait
    | Leave(c: Call, debt: int)               // CAS m_count from debt to debt + 1
    | ExtraLoad(c: Call)                      // tryWaitMany(max - 1) with one permit in hand
    | ExtraCas(c: Call, seen: nat)
    | Got(c: Call, permits: nat)              // the call is about to return
    | Add(n: nat)                             // m_count.fetch_add(n)
    | Post(left: nat)                         // post the operating-system semaphore

  /** The shared numbers; `signalled` and `returned` total what signallers put in and what finished
      calls took out. */
  datatype Memory = Memory(count: int, posts: nat, maxSpins: nat, signalled: nat, returned: nat)

  datatype State = State(mem: Memory, pcs: seq<PC>)

  datatype Event =
    | Begin(t: nat, c: Call)
    | Signal(t: nat, n: nat)
    | Go(t: nat)
    | Spurious(t: nat)      // a weak CAS fails although the value is the expected one
    | GiveUp(t: nat)        // the sleep ends without a post
    | Return(t: nat)

  /** The count after a try for `max` permits that saw `seen`. */
  function Drawn(seen: nat, max: nat): (left: nat)
    ensures left <= seen
  {
    if seen > max then seen - max else 0
  }

  /** What a call asks for once it has one permit. */
  function Rest(c: Call): nat
  {
    if c.max > 1 then c.max - 1 else 0
  }

  function SpinTest(c: Call, spins: nat): PC
  {
    if spins > 0 then SpinLoad(c, spins) else Join(c)
  }

  /** What follows `tryWaitMany(max)`: a wait that got nothing goes on to spin. */
  function TryResult(m: Memory, c: Call, taken: nat): PC
  {
    if c.Wait? && taken == 0 && c.max > 0 then SpinTest(c, m.maxSpins) else Got(c, taken)
  }

  /** The loop test of `tryWaitMany`. */
  function TryTest(m: Memory, c: Call, seen: int): PC
  {
    if seen > 0 then TryCas(c, seen) else TryResult(m, c, 0)
  }

  /** One permit in hand: ask for the rest without waiting. */
  function FirstPermit(c: Call): PC
  {
    if c.max > 1 then ExtraLoad(c) else Got(c, 1)
  }

  function ExtraTest(c: Call, seen: int): PC
  {
    if seen > 0 then ExtraCas(c, seen) else Got(c, 1)
  }

  /** What one step does to the shared numbers and to its thread. */
  datatype Outcome = Outcome(mem: Memory, pc: PC)

  /** One atomic operation of a thread at `p`; `ok` is false for a weak CAS that fails spuriously. */
  function Act(m: Memory, p: PC, ok: bool): Outcome
  {
    match p
    case Idle => Outcome(m, p)
    case TryLoad(c) => Outcome(m, TryTest(m, c, m.count))
    case TryCas(c, seen) =>
      if ok && m.count == seen then
        Outcome(m.(count := Drawn(seen, c.max)), TryResult(m, c, seen - Drawn(seen, c.max)))
      else Outcome(m, TryTest(m, c, m.count))
    case SpinLoad(c, spins) =>
      if m.count > 0 then Outcome(m, SpinCas(c, spins, m.count))
      else Outcome(m, SpinTest(c, if spins > 0 then spins - 1 else 0))
    case SpinCas(c, spins, seen) =>
      if m.count == seen then Outcome(m.(count := Drawn(seen, c.max)), Got(c, seen - Drawn(seen, c.max)))
      else Outcome(m, SpinTest(c, if spins > 0 then spins - 1 else 0))
    case Join(c) =>
      Outcome(m.(count := m.count - 1),
              if m.count > 0 then FirstPermit(c) else if c.Wait? && c.timeout == Zero then Settle(c) else Sleep(c))
    case Sleep(c) =>
      if m.posts > 0 then Outcome(m.(posts := m.posts - 1), FirstPermit(c)) else Outcome(m, p)
    case Settle(c) => Outcome(m, if m.count >= 0 then TakePost(c) else Leave(c, m.count))
    case TakePost(c) =>
      if m.posts > 0 then Outcome(m.(posts := m.posts - 1), FirstPermit(c)) else Outcome(m, Settle(c))
    case Leave(c, debt) =>
      if m.count == debt then Outcome(m.(count := m.count + 1), Got(c, 0)) else Outcome(m, Settle(c))
    case ExtraLoad(c) => Outcome(m, ExtraTest(c, m.count))
    case ExtraCas(c, seen) =>
      if ok && m.count == seen then
        Outcome(m.(count := Drawn(seen, Rest(c))), Got(c, 1 + (seen - Drawn(seen, Rest(c)))))
      else Outcome(m, ExtraTest(c, m.count))
    case Got(_, _) => Outcome(m, p)
    case Add(n) =>
      var toRelease := Min(-m.count, n);
      Outcome(m.(count := m.count + n, signalled := m.signalled + n), if toRelease > 0 then Post(toRelease) else Idle)
    case Post(left) =>
      Outcome(m.(posts := m.posts + 1), if left > 1 then Post(left - 1) else Idle)
  }

  /** An event that its guard does not allow changes nothing. */
  function React(m: Memory, p: PC, e: Event): Outcome
  {
    match e
    case Begin(_, c) => Outcome(m, if p == Idle then TryLoad(c) else p)
    case Signal(_, n) => Outcome(m, if p == Idle then Add(n) else p)
    case Go(_) => Act(m, p, true)
    case Spurious(_) => Act(m, p, false)
    case GiveUp(_) => Outcome(m, if p.Sleep? then Settle(p.c) else p)
    case Return(_) => if p.Got? then Outcome(m.(returned := m.returned + p.permits), Idle) else Outcome(m, p)
  }

  function Step(s: State, e: Event): (s': State)
    ensures |s'.pcs| == |s.pcs|
  {
    if e.t >= |s.pcs| then s
    else
      var o := React(s.mem, s.pcs[e.t], e);
      State(o.mem, s.pcs[e.t := o.pc])
  }

  function Run(s: State, es: seq<Event>): (s': State)
    ensures |s'.pcs| == |s.pcs|
  {
    if es == [] then s else Step(Run(s, es[..|es| - 1]), es[|es| - 1])
  }

  /** `LightweightSemaphore(initialCount, maxSpins)` with no call in progress. */
  predicate Init(s: State)
  {
    && s.mem.count >= 0 && s.mem.posts == 0 && s.mem.signalled == 0 && s.mem.returned == 0
    && forall t | 0 <= t < |s.pcs| :: s.pcs[t] == Idle
  }

  // ----- Accounting -----

  predicate InSlowPath(p: PC)
  {
    p.Sleep? || p.Settle? || p.TakePost? || p.Leave?
  }

  function SlowOf(p: PC): nat { if InSlowPath(p) then 1 else 0 }
  function OwedOf(p: PC): nat { if p.Post? then p.left else 0 }
  function HeldOf(p: PC): nat { if p.Got? then p.permits else if p.ExtraLoad? || p.ExtraCas? then 1 else 0 }

  function SlowWeight(): PC -> nat { (p: PC) => SlowOf(p) }
  function OwedWeight(): PC -> nat { (p: PC) => OwedOf(p) }
  function HeldWeight(): PC -> nat { (p: PC) => HeldOf(p) }

  /** Threads that went to the operating-system semaphore and are not back. */
  function Sleepers(s: State): nat { Sum(s.pcs, SlowWeight()) }

  /** Posts that signallers have yet to make. */
  function Owed(s: State): nat { Sum(s.pcs, OwedWeight()) }

  /** Permits that calls have taken and not yet returned with. */
  function Held(s: State): nat { Sum(s.pcs, HeldWeight()) }

  /** Permits a call could still take: in the count, posted, or about to be posted. */
  function Available(s: State): nat { Max(s.mem.count, 0) + s.mem.posts + Owed(s) }

  predicate Waiting(p: PC)
  {
    p.SpinLoad? || p.SpinCas? || p.Join? || p.Sleep? || p.Settle? || p.TakePost? || p.Leave?
  }

  /** Facts about the call a thread is in; `safe` says that no indefinite sleep has failed. */
  predicate CallInv(p: PC, safe: bool)
  {
    && (p.TryCas? || p.SpinCas? || p.ExtraCas? ==> p.seen > 0)
    && (p.SpinLoad? || p.SpinCas? ==> p.spins > 0)
    && (Waiting(p) ==> p.c.Wait? && p.c.max > 0)
    && (p.Sleep? ==> p.c.timeout != Zero)
    && (p.Settle? || p.TakePost? || p.Leave? ==> safe ==> p.c.timeout != Forever)
    && (p.Leave? ==> p.debt < 0)
    && (p.ExtraLoad? || p.ExtraCas? ==> p.c.max > 1)
    && (p.Got? ==> p.permits <= p.c.max)
    && (p.Got? && safe && p.c.Wait? && p.c.timeout == Forever && p.c.max > 0 ==> p.permits > 0)
    && (p.Post? ==> p.left > 0)
  }

  predicate Inv(s: State, initial: nat, safe: bool)
  {
    && Max(-s.mem.count, 0) + s.mem.posts + Owed(s) == Sleepers(s)
    && initial + s.mem.signalled == s.mem.count + Sleepers(s) + Held(s) + s.mem.returned
    && forall t | 0 <= t < |s.pcs| :: CallInv(s.pcs[t], safe)
  }

  /** The event does not end an indefinite sleep without a post. */
  predicate Dependable(s: State, e: Event)
  {
    e.GiveUp? && e.t < |s.pcs| && s.pcs[e.t].Sleep? ==> s.pcs[e.t].c.Wait? && s.pcs[e.t].c.timeout != Forever
  }

  /** No event of the run does: the untimed wait of the operating system does not fail. */
  predicate Reliable(s: State, es: seq<Event>)
  {
    es == [] || (Reliable(s, es[..|es| - 1]) && Dependable(Run(s, es[..|es| - 1]), es[|es| - 1]))
  }

  lemma SumsMove(s: State, t: nat, p: PC)
    requires t < |s.pcs|
    ensures Sum(s.pcs[t := p], SlowWeight()) == Sleepers(s) - SlowOf(s.pcs[t]) + SlowOf(p)
    ensures Sum(s.pcs[t := p], OwedWeight()) == Owed(s) - OwedOf(s.pcs[t]) + OwedOf(p)
    ensures Sum(s.pcs[t := p], HeldWeight()) == Held(s) - HeldOf(s.pcs[t]) + HeldOf(p)
  {
    SumUpdate(s.pcs, t, p, SlowWeight());
    SumUpdate(s.pcs, t, p, OwedWeight());
    SumUpdate(s.pcs, t, p, HeldWeight());
  }

  /** The two totals of `Inv` move with the weights of the thread that steps. */
  predicate Balanced(m: Memory, p: PC, o: Outcome)
  {
    && Max(-o.mem.count, 0) + o.mem.posts + OwedOf(o.pc) - SlowOf(o.pc)
       == Max(-m.count, 0) + m.posts + OwedOf(p) - SlowOf(p)
    && o.mem.count + SlowOf(o.pc) + HeldOf(o.pc) + o.mem.returned - o.mem.signalled
       == m.count + SlowOf(p) + HeldOf(p) + m.returned - m.signalled
  }

  lemma ActKeepsCall(m: Memory, p: PC, ok: bool, safe: bool)
    requires CallInv(p, safe)
    ensures CallInv(Act(m, p, ok).pc, safe)
  {
  }

  lemma ActBalanced(m: Memory, p: PC, ok: bool, safe: bool)
    requires CallInv(p, safe)
    ensures Balanced(m, p, Act(m, p, ok))
  {
  }

  lemma ReactBalanced(m: Memory, p: PC, e: Event, safe: bool)
    requires CallInv(p, safe)
    requires safe && e.GiveUp? && p.Sleep? ==> p.c.timeout != Forever
    ensures CallInv(React(m, p, e).pc, safe) && Balanced(m, p, React(m, p, e))
  {
    if e.Go? || e.Spurious? {
      ActKeepsCall(m, p, e.Go?, safe);
      ActBalanced(m, p, e.Go?, safe);
    }
  }

  lemma OutcomeKeeps(s: State, initial: nat, safe: bool, t: nat, o: Outcome)
    requires Inv(s, initial, safe) && t < |s.pcs|
    requires CallInv(o.pc, safe) && Balanced(s.mem, s.pcs[t], o)
    ensures Inv(State(o.mem, s.pcs[t := o.pc]), initial, safe)
  {
    SumsMove(s, t, o.pc);
  }

  lemma StepKeeps(s: State, initial: nat, safe: bool, e: Event)
    requires Inv(s, initial, safe) && (safe ==> Dependable(s, e))
    ensures Inv(Step(s, e), initial, safe)
  {
    if e.t < |s.pcs| {
      ReactBalanced(s.mem, s.pcs[e.t], e, safe);
      OutcomeKeeps(s, initial, safe, e.t, React(s.mem, s.pcs[e.t], e));
    }
  }

  lemma {:induction false} RunKeeps(s: State, es: seq<Event>, safe: bool)
    requires Init(s) && (safe ==> Reliable(s, es))
    ensures Inv(Run(s, es), s.mem.count, safe) && |Run(s, es).pcs| == |s.pcs|
  {
    if es == [] {
      SumAtMost(s.pcs, SlowWeight(), 0);
      SumAtMost(s.pcs, OwedWeight(), 0);
      SumAtMost(s.pcs, HeldWeight(), 0);
    } else {
      RunKeeps(s, es[..|es| - 1], safe);
      StepKeeps(Run(s, es[..|es| - 1]), s.mem.count, safe, es[|es| - 1]);
    }
  }

  /** In every interleaving the threads in the slow path, timed-out ones included, are exactly
      those the negative count, the posts and the posts still owed stand for. */
  lemma SleepersAccounted(s0: State, es: seq<Event>)
    requires Init(s0)
    ensures var s := Run(s0, es); Max(-s.mem.count, 0) + s.mem.posts + Owed(s) == Sleepers(s)
  {
    RunKeeps(s0, es, false);
  }

  /** No permit is made or lost: what was there at the start or signalled since is available, in
      the hands of a call, or returned. */
  lemma PermitsConserved(s0: State, es: seq<Event>)
    requires Init(s0)
    ensures var s := Run(s0, es); s0.mem.count + s.mem.signalled == Available(s) + Held(s) + s.mem.returned
  {
    RunKeeps(s0, es, false);
  }

  /** A thread is left asleep only when there is nothing for it: if no post is pending or owed,
      every permit has been taken and the count is exactly the number of sleepers below zero. */
  lemma NoLostWakeup(s0: State, es: seq<Event>, t: nat)
    requires Init(s0)
    requires var s := Run(s0, es); t < |s.pcs| && InSlowPath(s.pcs[t]) && s.mem.posts == 0 && Owed(s) == 0
    ensures var s := Run(s0, es);
            && Available(s) == 0
            && s.mem.count < 0 && -s.mem.count == Sleepers(s)
            && s0.mem.count + s.mem.signalled == Held(s) + s.mem.returned
  {
    RunKeeps(s0, es, false);
    SumAtLeast(Run(s0, es).pcs, t, SlowWeight());
  }

  // ----- What one call takes -----

  /** What the steps of thread `t` did to the permits available, whatever other threads did between. */
  function OwnAvailable(s: State, es: seq<Event>, t: nat): int
  {
    if es == [] then 0
    else
      var before := es[..|es| - 1];
      OwnAvailable(s, before, t) + if es[|es| - 1].t == t then Available(Run(s, es)) - Available(Run(s, before)) else 0
  }

  /** What they did to the count. */
  function OwnCount(s: State, es: seq<Event>, t: nat): int
  {
    if es == [] then 0
    else
      var before := es[..|es| - 1];
      OwnCount(s, before, t) + if es[|es| - 1].t == t then Run(s, es).mem.count - Run(s, before).mem.count else 0
  }

  /** The events of thread `t` belong to one call that takes permits and has not returned. */
  predicate OneCall(es: seq<Event>, t: nat)
  {
    forall i | 0 <= i < |es| && es[i].t == t :: !es[i].Return? && !es[i].Signal?
  }

  lemma TakerStays(m: Memory, p: PC, e: Event)
    requires !p.Add? && !p.Post? && !e.Return? && !e.Signal?
    ensures var o := React(m, p, e);
            !o.pc.Add? && !o.pc.Post? && o.mem.signalled == m.signalled && o.mem.returned == m.returned
  {
  }

  lemma OwnStep(s: State, initial: nat, e: Event)
    requires Inv(s, initial, false) && e.t < |s.pcs| && !e.Return? && !e.Signal?
    requires !s.pcs[e.t].Add? && !s.pcs[e.t].Post?
    ensures var p, p', s' := s.pcs[e.t], Step(s, e).pcs[e.t], Step(s, e);
            && !p'.Add? && !p'.Post?
            && Available(s') - Available(s) == HeldOf(p) - HeldOf(p')
            && s'.mem.count - s.mem.count == SlowOf(p) + HeldOf(p) - SlowOf(p') - HeldOf(p')
  {
    hide React, CallInv;
    var o := React(s.mem, s.pcs[e.t], e);
    TakerStays(s.mem, s.pcs[e.t], e);
    StepKeeps(s, initial, false, e);
    SumsMove(s, e.t, o.pc);
    ReactBalanced(s.mem, s.pcs[e.t], e, false);
  }

  lemma {:induction false} OwnStepsBalance(s: State, initial: nat, es: seq<Event>, t: nat)
    requires Inv(s, initial, false) && t < |s.pcs| && s.pcs[t].Idle? && OneCall(es, t)
    ensures var s' := Run(s, es);
            && Inv(s', initial, false) && |s'.pcs| == |s.pcs| && !s'.pcs[t].Add? && !s'.pcs[t].Post?
            && OwnAvailable(s, es, t) + HeldOf(s'.pcs[t]) == 0
            && OwnCount(s, es, t) + SlowOf(s'.pcs[t]) + HeldOf(s'.pcs[t]) == 0
  {
    hide Inv, Available;
    if es != [] {
      var before, e := es[..|es| - 1], es[|es| - 1];
      OwnStepsBalance(s, initial, before, t);
      StepKeeps(Run(s, before), initial, false, e);
      if e.t == t {
        OwnStep(Run(s, before), initial, e);
      }
    }
  }

  lemma {:induction false} RunConcat(s: State, es: seq<Event>, f: seq<Event>)
    ensures Run(s, es + f) == Run(Run(s, es), f)
  {
    if f == [] {
      assert es + f == es;
    } else {
      RunConcat(s, es, f[..|f| - 1]);
      assert (es + f)[..|es + f| - 1] == es + f[..|f| - 1];
    }
  }

  /** From the beginning of a call on, its own steps take from the available permits exactly those
      it has in hand, and from the count those and one for being in the slow path. */
  lemma CallTakesWhatItReturns(s0: State, es: seq<Event>, f: seq<Event>, t: nat)
    requires Init(s0) && t < |Run(s0, es).pcs| && Run(s0, es).pcs[t].Idle? && OneCall(f, t)
    ensures var s, p := Run(s0, es), Run(s0, es + f).pcs[t];
            && OwnAvailable(s, f, t) + HeldOf(p) == 0
            && OwnCount(s, f, t) + SlowOf(p) + HeldOf(p) == 0
  {
    RunKeeps(s0, es, false);
    RunConcat(s0, es, f);
    OwnStepsBalance(Run(s0, es), s0.mem.count, f, t);
  }

  /** A call that returns nothing, timed out or not, has left permits and count as it found them. */
  lemma GivingUpTakesNothing(s0: State, es: seq<Event>, f: seq<Event>, t: nat)
    requires Init(s0) && t < |Run(s0, es).pcs| && Run(s0, es).pcs[t].Idle? && OneCall(f, t)
    requires var p := Run(s0, es + f).pcs[t]; p.Got? && p.permits == 0
    ensures OwnAvailable(Run(s0, es), f, t) == 0 == OwnCount(Run(s0, es), f, t)
  {
    CallTakesWhatItReturns(s0, es, f, t);
  }

  // ----- What callers rely on -----

  /** A thread that saw a count of at least zero and then finds no post: a signaller still has one
      to make exactly if the negative count does not stand for all the threads in the slow path,
      and so whenever the count has not gone negative again meanwhile. */
  lemma EmptyTryWaitExplained(s0: State, es: seq<Event>, t: nat) returns (u: nat)
    requires Init(s0)
    requires var s := Run(s0, es); t < |s.pcs| && s.pcs[t].TakePost? && s.mem.posts == 0
    ensures var s := Run(s0, es);
            && (Owed(s) > 0 <==> -s.mem.count < Sleepers(s))
            && (Owed(s) > 0 ==> u < |s.pcs| && s.pcs[u].Post? && s.pcs[u].left > 0)
            && (s.mem.count >= 0 ==> Owed(s) > 0)
  {
    var s := Run(s0, es);
    RunKeeps(s0, es, false);
    SumAtLeast(s.pcs, t, SlowWeight());
    u := 0;
    if Owed(s) > 0 {
      u := SumWitness(s.pcs, OwedWeight());
    }
  }

  /** One more step of thread `t`, whose outcome is computed from the shared numbers and its program
      counter alone. */
  lemma Then(s0: State, es: seq<Event>, s: State, e: Event, o: Outcome) returns (es': seq<Event>, s': State)
    requires Run(s0, es) == s && e.t < |s.pcs| && React(s.mem, s.pcs[e.t], e) == o
    ensures s' == State(o.mem, s.pcs[e.t := o.pc]) && Run(s0, es') == s' && es' == es + [e]
  {
    es', s' := es + [e], State(o.mem, s.pcs[e.t := o.pc]);
    assert es'[..|es|] == es;
  }

  /** A waiter takes the count below zero and gives up at once. */
  lemma WaiterGivesUp() returns (s0: State, es: seq<Event>, s: State)
    ensures Init(s0) && Run(s0, es) == s == State(Memory(-1, 0, 0, 0, 0), [Settle(Wait(1, Zero)), Idle, Idle])
  {
    var w := Wait(1, Zero);
    s0, es := State(Memory(0, 0, 0, 0, 0), [Idle, Idle, Idle]), [];
    s := s0;
    assert Run(s0, es) == s;
    hide Run;
    es, s := Then(s0, es, s, Begin(0, w), Outcome(s.mem, TryLoad(w)));
    es, s := Then(s0, es, s, Go(0), Outcome(s.mem, Join(w)));
    es, s := Then(s0, es, s, Go(0), Outcome(s.mem.(count := -1), Settle(w)));
  }

  /** It sees the count a signaller has just raised, and the signaller makes its post. */
  lemma WaiterSeesSignal() returns (s0: State, es: seq<Event>, s: State)
    ensures Init(s0) && Run(s0, es) == s == State(Memory(0, 1, 0, 1, 0), [TakePost(Wait(1, Zero)), Idle, Idle])
  {
    s0, es, s := WaiterGivesUp();
    hide Run;
    es, s := Then(s0, es, s, Signal(1, 1), Outcome(s.mem, Add(1)));
    es, s := Then(s0, es, s, Go(1), Outcome(Memory(0, 0, 0, 1, 0), Post(1)));
    es, s := Then(s0, es, s, Go(0), Outcome(s.mem, TakePost(Wait(1, Zero))));
    es, s := Then(s0, es, s, Go(1), Outcome(Memory(0, 1, 0, 1, 0), Idle));
  }

  /** The count can indeed have gone negative with nothing owed: another waiter took the post. */
  lemma EmptyTryWaitWithoutSignaller() returns (s0: State, es: seq<Event>)
    ensures Init(s0)
    ensures var s := Run(s0, es); |s.pcs| == 3 && s.pcs[0].TakePost? && s.mem.posts == 0 && Owed(s) == 0
  {
    var s;
    s0, es, s := WaiterSeesSignal();
    hide Run;
    var v := Wait(1, Forever);
    es, s := Then(s0, es, s, Begin(2, v), Outcome(s.mem, TryLoad(v)));
    es, s := Then(s0, es, s, Go(2), Outcome(s.mem, Join(v)));
    es, s := Then(s0, es, s, Go(2), Outcome(s.mem.(count := -1), Sleep(v)));
    es, s := Then(s0, es, s, Go(2), Outcome(s.mem.(posts := 0), Got(v, 1)));
    SumAtMost(s.pcs, OwedWeight(), 0);
  }

  /** The number of posts a signaller makes fits where the code narrows it to `int`, as long as
      there are fewer than 2^31 threads: it never exceeds the number of threads. */
  lemma PostsFitThreads(s0: State, es: seq<Event>, t: nat)
    requires Init(s0) && t < |Run(s0, es).pcs| && Run(s0, es).pcs[t].Post?
    ensures Run(s0, es).pcs[t].left <= |Run(s0, es).pcs|
  {
    var s := Run(s0, es);
    RunKeeps(s0, es, false);
    SumAtLeast(s.pcs, t, OwedWeight());
    SumAtMost(s.pcs, SlowWeight(), 1);
  }

  /** A call returns no more permits than it asked for. A call that waits indefinitely returns at
      least one, as `waitMany` asserts, if and only if it asked for any. */
  lemma CallsReturnWhatTheyMay(s0: State, es: seq<Event>, t: nat)
    requires Init(s0) && t < |s0.pcs|
    ensures var s := Run(s0, es);
            |s.pcs| == |s0.pcs| &&
            (s.pcs[t].Got? ==>
               var Got(c, permits) := s.pcs[t];
               && permits <= c.max
               && (Reliable(s0, es) && c.Wait? && c.timeout == Forever ==> (permits > 0 <==> c.max > 0)))
  {
    RunKeeps(s0, es, Reliable(s0, es));
    assert CallInv(Run(s0, es).pcs[t], Reliable(s0, es));
  }

  /** `waitMany(0)` returns at once with nothing, against its assertion. */
  lemma WaitManyOfZero() returns (s0: State, es: seq<Event>)
    ensures Init(s0) && Reliable(s0, es) && Run(s0, es).pcs == [Got(Wait(0, Forever), 0)]
  {
    var w := Wait(0, Forever);
    var s;
    s0, es := State(Memory(0, 0, 0, 0, 0), [Idle]), [];
    s := s0;
    assert Run(s0, es) == s && Reliable(s0, es);
    es, s := Then(s0, es, s, Begin(0, w), Outcome(s.mem, TryLoad(w)));
    assert Reliable(s0, es);
    es, s := Then(s0, es, s, Go(0), Outcome(s.mem, Got(w, 0)));
    assert Reliable(s0, es);
  }
}
