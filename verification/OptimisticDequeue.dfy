/** The optimistic dequeue of one producer's sub-queue, by any number of consumer threads
    (`dequeue` and `dequeue_bulk` of `ExplicitProducer` in concurrentqueue.hpp).

    `dequeue` is `dequeue_bulk` with a maximum of one: with one element wanted, the clamps of the
    bulk version reduce to the comparison the single version makes. Each load and each
    `fetch_add` is a step of its own. Indices are unbounded here; `CircularLess` relates them to
    the 64-bit comparison. */
module OptimisticDequeue {
  import opened Basics
  import opened Threads

  datatype PC =
    | Idle
    | LoadOver(max: nat, tail: nat)                  // load dequeueOvercommit
    | LoadCount(max: nat, tail: nat, over: nat)      // load dequeueOptimisticCount and compare
    | Ticket(over: nat, want: nat)                   // dequeueOptimisticCount.fetch_add(want)
    | Recheck(mine: nat, over: nat, want: nat)       // load tailIndex again and compare
    | Refund(mine: nat, take: nat, back: nat)        // dequeueOvercommit.fetch_add(back)
    | Claim(mine: nat, take: nat)                    // headIndex.fetch_add(take)
    | Fail(mine: nat, want: nat)                     // dequeueOvercommit.fetch_add(want)

  /** One successful `headIndex.fetch_add`: thread `t` was given `count` indices from `first` on. */
  datatype Grab = Grab(t: nat, first: nat, count: nat)

  /** `items` is everything enqueued so far, so `tailIndex` is its length; `grabs` records the
      claims in the order they reached `headIndex`. */
  datatype State<T> = State(items: seq<T>, count: nat, over: nat, head: nat, pcs: seq<PC>, grabs: seq<Grab>)
  {
    function Tail(): nat { |items| }
  }

  /** `Enqueue` is the producer's store of `tailIndex` after one or several elements are in place. */
  datatype Event<T> =
    | Enqueue(xs: seq<T>)
    | Call(t: nat, max: nat)
    | Go(t: nat)

  function At<T>(s: State<T>, t: nat, p: PC): State<T>
    requires t < |s.pcs|
  {
    s.(pcs := s.pcs[t := p])
  }

  /** One atomic operation of thread `t`. */
  function Advance<T>(s: State<T>, t: nat): State<T>
    requires t < |s.pcs|
  {
    match s.pcs[t]
    case Idle => s
    case LoadOver(max, tail) => At(s, t, LoadCount(max, tail, s.over))
    case LoadCount(max, tail, over) =>
      var desired := tail - (s.count - over);
      if 0 < desired then At(s, t, Ticket(over, Min(desired, max))) else At(s, t, Idle)
    case Ticket(over, want) => At(s.(count := s.count + want), t, Recheck(s.count, over, want))
    case Recheck(mine, over, want) =>
      var actual := s.Tail() - (mine - over);
      if 0 < actual then
        var take := Min(want, actual);
        At(s, t, if take < want then Refund(mine, take, want - take) else Claim(mine, take))
      else At(s, t, Fail(mine, want))
    case Refund(mine, take, back) => At(s.(over := s.over + back), t, Claim(mine, take))
    case Claim(mine, take) =>
      At(s.(head := s.head + take, grabs := s.grabs + [Grab(t, s.head, take)]), t, Idle)
    case Fail(mine, want) => At(s.(over := s.over + want), t, Idle)
  }

  function Step<T>(s: State<T>, e: Event<T>): State<T>
  {
    match e
    case Enqueue(xs) => s.(items := s.items + xs)
    case Call(t, max) =>
      if t < |s.pcs| && s.pcs[t] == Idle then At(s, t, LoadOver(max, s.Tail())) else s
    case Go(t) => if t < |s.pcs| then Advance(s, t) else s
  }

  function Run<T>(s: State<T>, es: seq<Event<T>>): State<T>
  {
    if es == [] then s else Step(Run(s, es[..|es| - 1]), es[|es| - 1])
  }

  predicate Init<T>(s: State<T>)
  {
    && s.items == [] && s.count == 0 && s.over == 0 && s.head == 0 && s.grabs == []
    && forall t | 0 <= t < |s.pcs| :: s.pcs[t] == Idle
  }

  // ----- The tickets behind the counters -----

  /** What became of each unit `dequeueOptimisticCount` was raised by. */
  datatype Unit =
    | Undecided(t: nat)   // its thread has yet to compare with the tail
    | Claimed(t: nat)     // passed the comparison, headIndex not yet raised
    | Refunding(t: nat)   // did not pass, dequeueOvercommit not yet raised
    | Taken
    | Failed

  function AcceptedWeight(): Unit -> nat { (u: Unit) => if u.Claimed? || u.Taken? then 1 else 0 }
  function LostWeight(): Unit -> nat { (u: Unit) => if u.Refunding? || u.Failed? then 1 else 0 }
  function TakenWeight(): Unit -> nat { (u: Unit) => if u.Taken? then 1 else 0 }
  function FailedWeight(): Unit -> nat { (u: Unit) => if u.Failed? then 1 else 0 }

  predicate All(log: seq<Unit>, from: nat, to: nat, u: Unit)
  {
    from <= to <= |log| && forall i | from <= i < to :: log[i] == u
  }

  function Lost(log: seq<Unit>, n: nat): nat
    requires n <= |log|
  {
    Sum(log[..n], LostWeight())
  }

  predicate ThreadInv(p: PC, u: nat, log: seq<Unit>, over: nat)
  {
    match p
    case Idle => true
    case LoadOver(_, _) => true
    case LoadCount(_, _, saved) => saved <= over
    case Ticket(saved, _) => saved <= over
    case Recheck(mine, saved, want) => All(log, mine, mine + want, Undecided(u)) && saved <= Lost(log, mine)
    case Refund(mine, take, back) =>
      All(log, mine, mine + take, Claimed(u)) && All(log, mine + take, mine + take + back, Refunding(u))
    case Claim(mine, take) => All(log, mine, mine + take, Claimed(u))
    case Fail(mine, want) => All(log, mine, mine + want, Refunding(u))
  }

  /** An unsettled unit belongs to a thread that is still working on it. */
  predicate UnitInv(log: seq<Unit>, i: nat, pcs: seq<PC>)
    requires i < |log|
  {
    match log[i]
    case Undecided(t) => t < |pcs| && pcs[t].Recheck? && pcs[t].mine <= i < pcs[t].mine + pcs[t].want
    case Claimed(t) => t < |pcs| && (pcs[t].Refund? || pcs[t].Claim?) && pcs[t].mine <= i < pcs[t].mine + pcs[t].take
    case Refunding(t) =>
      && t < |pcs|
      && (pcs[t].Refund? ==> pcs[t].mine + pcs[t].take <= i < pcs[t].mine + pcs[t].take + pcs[t].back)
      && (!pcs[t].Refund? ==> pcs[t].Fail? && pcs[t].mine <= i < pcs[t].mine + pcs[t].want)
    case _ => true
  }

  /** An accepted unit is covered by the tail once the lost units up to it are left out. */
  predicate Covered(log: seq<Unit>, i: nat, tail: nat)
    requires i < |log|
  {
    log[i].Claimed? || log[i].Taken? ==> i + 1 <= tail + Lost(log, i + 1)
  }

  predicate GrabsInv(grabs: seq<Grab>, head: nat)
  {
    if grabs == [] then head == 0
    else
      var g := grabs[|grabs| - 1];
      g.first + g.count == head && GrabsInv(grabs[..|grabs| - 1], g.first)
  }

  predicate Inv<T>(s: State<T>, log: seq<Unit>)
  {
    && |log| == s.count
    && Sum(log, TakenWeight()) == s.head
    && Sum(log, FailedWeight()) == s.over
    && (forall t | 0 <= t < |s.pcs| :: ThreadInv(s.pcs[t], t, log, s.over))
    && (forall i | 0 <= i < |log| :: UnitInv(log, i, s.pcs) && Covered(log, i, s.Tail()))
    && GrabsInv(s.grabs, s.head)
  }

  // ----- Counting along the log -----

  lemma {:induction false} AcceptedPlusLost(log: seq<Unit>)
    ensures Sum(log, AcceptedWeight()) + Sum(log, LostWeight()) <= |log|
  {
    if log != [] {
      AcceptedPlusLost(log[1..]);
    }
  }

  lemma SumLast(log: seq<Unit>, n: nat, w: Unit -> nat)
    requires 0 < n <= |log|
    ensures Sum(log[..n], w) == Sum(log[..n - 1], w) + w(log[n - 1])
  {
    assert log[..n] == log[..n - 1] + [log[n - 1]];
    SumConcat(log[..n - 1], [log[n - 1]], w);
  }

  /** The last accepted unit bounds how many there are. */
  lemma {:induction false} AcceptedAtMostTail(log: seq<Unit>, n: nat, tail: nat)
    requires n <= |log|
    requires forall i | 0 <= i < n :: Covered(log, i, tail)
    ensures Sum(log[..n], AcceptedWeight()) <= tail
  {
    if n > 0 {
      if log[n - 1].Claimed? || log[n - 1].Taken? {
        assert Covered(log, n - 1, tail);
        AcceptedPlusLost(log[..n]);
      } else {
        AcceptedAtMostTail(log, n - 1, tail);
        SumLast(log, n, AcceptedWeight());
      }
    }
  }

  // ----- Every step keeps the invariant -----

  predicate Of(u: Unit, t: nat)
  {
    u == Undecided(t) || u == Claimed(t) || u == Refunding(t)
  }

  /** Thread `t` may append units and settle its own; nothing lost is found again. */
  predicate Evolves(log: seq<Unit>, log': seq<Unit>, t: nat)
  {
    && |log| <= |log'|
    && forall i | 0 <= i < |log| ::
         log'[i] == log[i] || (Of(log[i], t) && LostWeight()(log[i]) <= LostWeight()(log'[i]))
  }

  lemma LostGrows(log: seq<Unit>, log': seq<Unit>, t: nat, n: nat)
    requires Evolves(log, log', t) && n <= |log|
    ensures Lost(log, n) <= Lost(log', n)
  {
    SumMonotone(log[..n], log'[..n], LostWeight());
  }

  lemma OthersKeep(p: PC, u: nat, log: seq<Unit>, over: nat, log': seq<Unit>, over': nat, t: nat)
    requires ThreadInv(p, u, log, over) && u != t && Evolves(log, log', t) && over <= over'
    ensures ThreadInv(p, u, log', over')
  {
    if p.Recheck? {
      LostGrows(log, log', t, p.mine);
    }
  }

  /** A step of `t` that evolves the log; the units `t` had and the new ones are the caller's. */
  lemma Frame<T>(s: State<T>, s': State<T>, log: seq<Unit>, log': seq<Unit>, t: nat)
    requires Inv(s, log) && t < |s.pcs|
    requires |s'.pcs| == |s.pcs| && s'.pcs == s.pcs[t := s'.pcs[t]] && s'.items == s.items
    requires Evolves(log, log', t) && s.over <= s'.over
    requires |log'| == s'.count && Sum(log', TakenWeight()) == s'.head && Sum(log', FailedWeight()) == s'.over
    requires ThreadInv(s'.pcs[t], t, log', s'.over)
    requires forall i | 0 <= i < |log'| ::
               i >= |log| || Of(log[i], t) ==> UnitInv(log', i, s'.pcs) && Covered(log', i, s'.Tail())
    requires GrabsInv(s'.grabs, s'.head)
    ensures Inv(s', log')
  {
    forall u | 0 <= u < |s'.pcs| ensures ThreadInv(s'.pcs[u], u, log', s'.over) {
      if u != t {
        OthersKeep(s.pcs[u], u, log, s.over, log', s'.over, t);
      }
    }
    forall i | 0 <= i < |log'| ensures UnitInv(log', i, s'.pcs) && Covered(log', i, s'.Tail()) {
      if i < |log| && !Of(log[i], t) {
        assert log'[i] == log[i];
        assert UnitInv(log, i, s.pcs) && Covered(log, i, s.Tail());
        LostGrows(log, log', t, i + 1);
      }
    }
  }

  lemma NoUnits<T>(s: State<T>, log: seq<Unit>, t: nat)
    requires Inv(s, log) && t < |s.pcs|
    requires !(s.pcs[t].Recheck? || s.pcs[t].Refund? || s.pcs[t].Claim? || s.pcs[t].Fail?)
    ensures forall i | 0 <= i < |log| :: !Of(log[i], t)
  {
    forall i | 0 <= i < |log| ensures !Of(log[i], t) {
      assert UnitInv(log, i, s.pcs);
    }
  }

  lemma TicketKeeps<T>(s: State<T>, log: seq<Unit>, t: nat)
    requires Inv(s, log) && t < |s.pcs| && s.pcs[t].Ticket?
    ensures Inv(Advance(s, t), log + seq(s.pcs[t].want, _ => Undecided(t)))
  {
    var want := s.pcs[t].want;
    var issued := seq(want, _ => Undecided(t));
    var log' := log + issued;
    SumConcat(log, issued, TakenWeight());
    SumConcat(log, issued, FailedWeight());
    SumAtMost(issued, TakenWeight(), 0);
    SumAtMost(issued, FailedWeight(), 0);
    assert log'[..s.count] == log == log[..s.count];
    SumDominated(log, FailedWeight(), LostWeight());
    NoUnits(s, log, t);
    assert s.pcs[t].over <= Lost(log', s.count);
    Frame(s, Advance(s, t), log, log', t);
  }

  /** The log after the verdict on a ticket: `take` units pass the comparison, `back` are lost. */
  function Judged(log: seq<Unit>, mine: nat, take: nat, back: nat, t: nat): (log': seq<Unit>)
    requires mine + take + back <= |log|
    ensures |log'| == |log|
    ensures forall i | 0 <= i < |log| ::
              log'[i] == if mine <= i < mine + take then Claimed(t)
                         else if mine + take <= i < mine + take + back then Refunding(t)
                         else log[i]
  {
    Paint(Paint(log, mine, take, Claimed(t)), mine + take, back, Refunding(t))
  }

  lemma JudgedSum(log: seq<Unit>, mine: nat, take: nat, back: nat, t: nat, w: Unit -> nat)
    requires mine + take + back <= |log| && All(log, mine, mine + take + back, Undecided(t))
    requires w(Claimed(t)) == w(Refunding(t)) == w(Undecided(t))
    ensures Sum(Judged(log, mine, take, back, t), w) == Sum(log, w)
  {
    var mid := Paint(log, mine, take, Claimed(t));
    PaintSame(log, mine, take, Claimed(t), Undecided(t), w);
    PaintSame(mid, mine + take, back, Refunding(t), Undecided(t), w);
  }

  lemma JudgedSums(log: seq<Unit>, mine: nat, take: nat, back: nat, t: nat)
    requires mine + take + back <= |log| && All(log, mine, mine + take + back, Undecided(t))
    ensures Sum(Judged(log, mine, take, back, t), TakenWeight()) == Sum(log, TakenWeight())
    ensures Sum(Judged(log, mine, take, back, t), FailedWeight()) == Sum(log, FailedWeight())
  {
    hide Judged, All;
    JudgedSum(log, mine, take, back, t, TakenWeight());
    JudgedSum(log, mine, take, back, t, FailedWeight());
  }

  lemma JudgedEvolves(log: seq<Unit>, mine: nat, take: nat, back: nat, t: nat)
    requires mine + take + back <= |log| && All(log, mine, mine + take + back, Undecided(t))
    ensures Evolves(log, Judged(log, mine, take, back, t), t)
    ensures Lost(log, mine) <= Lost(Judged(log, mine, take, back, t), mine)
  {
    LostGrows(log, Judged(log, mine, take, back, t), t, mine);
  }

  /** Why passing the comparison is enough: at least `over` units below the ticket are lost. */
  lemma AcceptedIsCovered(log: seq<Unit>, i: nat, mine: nat, over: nat, tail: nat)
    requires mine <= i < |log| && over <= Lost(log, mine) && i < tail + over
    ensures Covered(log, i, tail)
  {
    SumPrefix(log, mine, i + 1, LostWeight());
  }

  function Verdict(tail: nat, mine: nat, over: nat, want: nat): (take: nat)
    ensures take <= want && (take > 0 ==> mine + take <= tail + over)
  {
    if 0 < tail - (mine - over) then Min(want, tail - (mine - over)) else 0
  }

  lemma VerdictUnits(log: seq<Unit>, mine: nat, take: nat, back: nat, t: nat, p: PC)
    requires mine + take + back <= |log| && All(log, mine, mine + take + back, Undecided(t))
    requires p == (if take == 0 then Fail(mine, back)
                   else if back > 0 then Refund(mine, take, back) else Claim(mine, take))
          || (p == Claim(mine, 0) && take == back == 0)
    ensures ThreadInv(p, t, Judged(log, mine, take, back, t), 0)
    ensures forall i, pcs | mine <= i < mine + take + back && t < |pcs| && pcs[t] == p ::
              UnitInv(Judged(log, mine, take, back, t), i, pcs)
  {
  }

  lemma VerdictUnitsKept<T>(s: State<T>, log: seq<Unit>, t: nat, take: nat)
    requires Inv(s, log) && t < |s.pcs| && s.pcs[t].Recheck?
    requires take == Verdict(s.Tail(), s.pcs[t].mine, s.pcs[t].over, s.pcs[t].want)
    ensures var p := s.pcs[t];
            && All(log, p.mine, p.mine + p.want, Undecided(t))
            && var log' := Judged(log, p.mine, take, p.want - take, t);
               forall i | 0 <= i < |log'| && Of(log[i], t) ::
                 p.mine <= i < p.mine + p.want && Covered(log', i, s.Tail())
  {
    var Recheck(mine, over, want) := s.pcs[t];
    assert ThreadInv(s.pcs[t], t, log, s.over);
    JudgedEvolves(log, mine, take, want - take, t);
    var log' := Judged(log, mine, take, want - take, t);
    forall i | 0 <= i < |log'| && Of(log[i], t) ensures mine <= i < mine + want && Covered(log', i, s.Tail()) {
      assert UnitInv(log, i, s.pcs);
      if i < mine + take {
        AcceptedIsCovered(log', i, mine, over, s.Tail());
      }
    }
  }

  /** What is settled stays so, only units that were lost become failed, and new ones are undecided. */
  predicate Settles(log: seq<Unit>, log': seq<Unit>)
  {
    && |log| <= |log'| && (forall i | |log| <= i < |log'| :: log'[i].Undecided?)
    && forall i | 0 <= i < |log| ::
         && (log[i].Taken? || log[i].Failed? ==> log'[i] == log[i])
         && (log'[i].Failed? ==> log[i].Failed? || log[i].Refunding?)
  }

  lemma JudgedSettles(log: seq<Unit>, mine: nat, take: nat, back: nat, t: nat)
    requires mine + take + back <= |log| && All(log, mine, mine + take + back, Undecided(t))
    ensures Settles(log, Judged(log, mine, take, back, t))
  {
    hide Paint;
  }

  /** Painting the units a thread has. */
  lemma PaintSettles(log: seq<Unit>, from: nat, k: nat, u: Unit, v: Unit)
    requires from + k <= |log| && All(log, from, from + k, u) && !u.Taken? && !u.Failed?
    requires v.Failed? ==> u.Refunding?
    ensures Settles(log, Paint(log, from, k, v))
  {
    hide Paint;
  }

  lemma VerdictKeeps<T>(s: State<T>, log: seq<Unit>, t: nat) returns (log': seq<Unit>)
    requires Inv(s, log) && t < |s.pcs| && s.pcs[t].Recheck?
    ensures Inv(Advance(s, t), log') && Settles(log, log')
  {
    hide Evolves, Covered, All, Judged, GrabsInv, Settles;
    var Recheck(mine, over, want) := s.pcs[t];
    var take := Verdict(s.Tail(), mine, over, want);
    VerdictUnitsKept(s, log, t, take);
    log' := Judged(log, mine, take, want - take, t);
    JudgedSettles(log, mine, take, want - take, t);
    JudgedSums(log, mine, take, want - take, t);
    JudgedEvolves(log, mine, take, want - take, t);
    VerdictUnits(log, mine, take, want - take, t, Advance(s, t).pcs[t]);
    Frame(s, Advance(s, t), log, log', t);
  }

  lemma RefundKeeps<T>(s: State<T>, log: seq<Unit>, t: nat)
    requires Inv(s, log) && t < |s.pcs| && s.pcs[t].Refund?
    ensures Inv(Advance(s, t), Paint(log, s.pcs[t].mine + s.pcs[t].take, s.pcs[t].back, Failed))
  {
    var Refund(mine, take, back) := s.pcs[t];
    assert ThreadInv(s.pcs[t], t, log, s.over);
    var log' := Paint(log, mine + take, back, Failed);
    PaintSame(log, mine + take, back, Failed, Refunding(t), TakenWeight());
    PaintUp(log, mine + take, back, Failed, Refunding(t), FailedWeight());
    forall i | 0 <= i < |log'| && Of(log[i], t)
      ensures UnitInv(log', i, Advance(s, t).pcs) && Covered(log', i, s.Tail())
    {
      assert UnitInv(log, i, s.pcs) && Covered(log, i, s.Tail());
      LostGrows(log, log', t, i + 1);
    }
    Frame(s, Advance(s, t), log, log', t);
  }

  lemma FailKeeps<T>(s: State<T>, log: seq<Unit>, t: nat)
    requires Inv(s, log) && t < |s.pcs| && s.pcs[t].Fail?
    ensures Inv(Advance(s, t), Paint(log, s.pcs[t].mine, s.pcs[t].want, Failed))
  {
    var Fail(mine, want) := s.pcs[t];
    assert ThreadInv(s.pcs[t], t, log, s.over);
    var log' := Paint(log, mine, want, Failed);
    PaintSame(log, mine, want, Failed, Refunding(t), TakenWeight());
    PaintUp(log, mine, want, Failed, Refunding(t), FailedWeight());
    forall i | 0 <= i < |log'| && Of(log[i], t)
      ensures UnitInv(log', i, Advance(s, t).pcs) && Covered(log', i, s.Tail())
    {
      assert UnitInv(log, i, s.pcs);
    }
    Frame(s, Advance(s, t), log, log', t);
  }

  lemma ClaimKeeps<T>(s: State<T>, log: seq<Unit>, t: nat)
    requires Inv(s, log) && t < |s.pcs| && s.pcs[t].Claim?
    ensures Inv(Advance(s, t), Paint(log, s.pcs[t].mine, s.pcs[t].take, Taken))
  {
    var Claim(mine, take) := s.pcs[t];
    assert ThreadInv(s.pcs[t], t, log, s.over);
    var log' := Paint(log, mine, take, Taken);
    PaintUp(log, mine, take, Taken, Claimed(t), TakenWeight());
    PaintSame(log, mine, take, Taken, Claimed(t), FailedWeight());
    forall i | 0 <= i < |log'| && Of(log[i], t)
      ensures UnitInv(log', i, Advance(s, t).pcs) && Covered(log', i, s.Tail())
    {
      assert UnitInv(log, i, s.pcs) && Covered(log, i, s.Tail());
      LostGrows(log, log', t, i + 1);
    }
    var grabs' := s.grabs + [Grab(t, s.head, take)];
    assert grabs'[..|grabs'| - 1] == s.grabs;
    Frame(s, Advance(s, t), log, log', t);
  }

  /** A step of `t` that changes nothing but its program counter, and no unit is `t`'s. */
  lemma QuietKeeps<T>(s: State<T>, log: seq<Unit>, t: nat, p: PC)
    requires Inv(s, log) && t < |s.pcs|
    requires !(s.pcs[t].Recheck? || s.pcs[t].Refund? || s.pcs[t].Claim? || s.pcs[t].Fail?)
    requires ThreadInv(p, t, log, s.over)
    ensures Inv(At(s, t, p), log)
  {
    NoUnits(s, log, t);
    Frame(s, At(s, t, p), log, log, t);
  }

  lemma EnqueueKeeps<T>(s: State<T>, log: seq<Unit>, xs: seq<T>)
    requires Inv(s, log)
    ensures Inv(s.(items := s.items + xs), log)
  {
    var s' := s.(items := s.items + xs);
    forall i | 0 <= i < |log| ensures UnitInv(log, i, s'.pcs) && Covered(log, i, s'.Tail()) {
      assert UnitInv(log, i, s.pcs) && Covered(log, i, s.Tail());
    }
  }

  lemma ThreadKnows<T>(s: State<T>, log: seq<Unit>, t: nat)
    requires Inv(s, log) && t < |s.pcs|
    ensures ThreadInv(s.pcs[t], t, log, s.over)
  {
  }

  lemma StepKeeps<T>(s: State<T>, log: seq<Unit>, e: Event<T>) returns (log': seq<Unit>)
    requires Inv(s, log)
    ensures Inv(Step(s, e), log') && Settles(log, log')
  {
    hide Inv;
    log' := log;
    match e
    case Enqueue(xs) => EnqueueKeeps(s, log, xs);
    case Call(t, max) =>
      if t < |s.pcs| && s.pcs[t] == Idle {
        QuietKeeps(s, log, t, LoadOver(max, s.Tail()));
      }
    case Go(t) =>
      if t < |s.pcs| {
        ThreadKnows(s, log, t);
        match s.pcs[t]
        case Idle =>
        case LoadOver(max, tail) => QuietKeeps(s, log, t, LoadCount(max, tail, s.over));
        case LoadCount(max, tail, over) => QuietKeeps(s, log, t, Advance(s, t).pcs[t]);
        case Ticket(_, want) =>
          TicketKeeps(s, log, t);
          log' := log + seq(want, _ => Undecided(t));
        case Recheck(_, _, _) => log' := VerdictKeeps(s, log, t);
        case Refund(mine, take, back) =>
          RefundKeeps(s, log, t);
          PaintSettles(log, mine + take, back, Refunding(t), Failed);
          log' := Paint(log, mine + take, back, Failed);
        case Claim(mine, take) =>
          ClaimKeeps(s, log, t);
          PaintSettles(log, mine, take, Claimed(t), Taken);
          log' := Paint(log, mine, take, Taken);
        case Fail(mine, want) =>
          FailKeeps(s, log, t);
          PaintSettles(log, mine, want, Refunding(t), Failed);
          log' := Paint(log, mine, want, Failed);
      }
  }

  lemma {:induction false} RunKeeps<T>(s: State<T>, es: seq<Event<T>>) returns (log: seq<Unit>)
    requires Init(s)
    ensures Inv(Run(s, es), log)
  {
    if es == [] {
      log := [];
    } else {
      log := RunKeeps(s, es[..|es| - 1]);
      log := StepKeeps(Run(s, es[..|es| - 1]), log, es[|es| - 1]);
    }
  }

  // ----- What consumers rely on -----

  lemma HeadBelowTail(log: seq<Unit>, tail: nat)
    requires forall i | 0 <= i < |log| :: Covered(log, i, tail)
    ensures Sum(log, TakenWeight()) <= Sum(log, AcceptedWeight()) <= tail
  {
    AcceptedAtMostTail(log, |log|, tail);
    assert log[..|log|] == log;
    SumDominated(log, TakenWeight(), AcceptedWeight());
  }

  lemma AcceptedHasRoom<T>(s: State<T>, log: seq<Unit>, t: nat)
    requires Inv(s, log) && t < |s.pcs|
    ensures s.head <= s.Tail()
    ensures s.pcs[t].Claim? || s.pcs[t].Refund? ==> s.head + s.pcs[t].take <= s.Tail()
  {
    HeadBelowTail(log, s.Tail());
    if s.pcs[t].Claim? || s.pcs[t].Refund? {
      assert ThreadInv(s.pcs[t], t, log, s.over);
      var m, k := s.pcs[t].mine, s.pcs[t].take;
      PaintUp(log, m, k, Taken, Claimed(t), TakenWeight());
      PaintSame(log, m, k, Taken, Claimed(t), AcceptedWeight());
      SumDominated(Paint(log, m, k, Taken), TakenWeight(), AcceptedWeight());
    }
  }

  /** A thread that passed the comparison finds that many elements at the head, in whatever order
      the threads reach `headIndex`. */
  lemma ClaimsAreBacked<T>(s0: State<T>, es: seq<Event<T>>, t: nat)
    requires Init(s0) && t < |Run(s0, es).pcs|
    ensures var s := Run(s0, es);
            && s.head <= s.Tail()
            && (s.pcs[t].Claim? || s.pcs[t].Refund? ==> s.head + s.pcs[t].take <= s.Tail())
  {
    var log := RunKeeps(s0, es);
    AcceptedHasRoom(Run(s0, es), log, t);
  }

  /** The elements the claims were given, in the order of the claims. */
  function Output<T>(items: seq<T>, grabs: seq<Grab>): seq<T>
  {
    if grabs == [] then []
    else
      var g := grabs[|grabs| - 1];
      Output(items, grabs[..|grabs| - 1])
      + if g.first + g.count <= |items| then items[g.first..g.first + g.count] else []
  }

  lemma {:induction false} OutputIsPrefix<T>(items: seq<T>, grabs: seq<Grab>, head: nat)
    requires GrabsInv(grabs, head) && head <= |items|
    ensures Output(items, grabs) == items[..head]
  {
    if grabs != [] {
      var g := grabs[|grabs| - 1];
      OutputIsPrefix(items, grabs[..|grabs| - 1], g.first);
      assert items[..head] == items[..g.first] + items[g.first..head];
    }
  }

  lemma {:induction false} GrabsOrdered(grabs: seq<Grab>, head: nat, i: nat, j: nat)
    requires GrabsInv(grabs, head) && i < j < |grabs|
    ensures grabs[i].first + grabs[i].count <= grabs[j].first <= head
    decreases |grabs|
  {
    var rest, g := grabs[..|grabs| - 1], grabs[|grabs| - 1];
    if j < |grabs| - 1 {
      GrabsOrdered(rest, g.first, i, j);
    } else if i < |grabs| - 2 {
      GrabsOrdered(rest, g.first, i, |grabs| - 2);
      assert rest[|rest| - 1].first + rest[|rest| - 1].count == g.first;
    } else {
      assert rest[|rest| - 1] == grabs[i];
    }
  }

  /** Over any run, however the threads interleave, the claims together are the first `head`
      elements enqueued, in the order they were enqueued. */
  lemma FifoExactlyOnce<T>(s0: State<T>, es: seq<Event<T>>)
    requires Init(s0)
    ensures var s := Run(s0, es); s.head <= |s.items| && Output(s.items, s.grabs) == s.items[..s.head]
  {
    var s := Run(s0, es);
    var log := RunKeeps(s0, es);
    HeadBelowTail(log, s.Tail());
    OutputIsPrefix(s.items, s.grabs, s.head);
  }

  /** No index is handed out twice: a later claim starts where the earlier ones ended. */
  lemma ClaimsAreDisjoint<T>(s0: State<T>, es: seq<Event<T>>, i: nat, j: nat)
    requires Init(s0) && i < j < |Run(s0, es).grabs|
    ensures var grabs := Run(s0, es).grabs; grabs[i].first + grabs[i].count <= grabs[j].first
  {
    var log := RunKeeps(s0, es);
    GrabsOrdered(Run(s0, es).grabs, Run(s0, es).head, i, j);
  }

  /** The order of the two counters that the comparison depends on. */
  lemma OvercommitNeverAhead<T>(s0: State<T>, es: seq<Event<T>>, t: nat)
    requires Init(s0) && t < |Run(s0, es).pcs|
    ensures var s := Run(s0, es);
            && s.head + s.over <= s.count
            && (s.pcs[t].Recheck? ==> s.pcs[t].over <= s.pcs[t].mine)
  {
    var s := Run(s0, es);
    var log := RunKeeps(s0, es);
    assert ThreadInv(s.pcs[t], t, log, s.over);
    SumDominated(log, TakenWeight(), AcceptedWeight());
    SumDominated(log, FailedWeight(), LostWeight());
    AcceptedPlusLost(log);
    if s.pcs[t].Recheck? {
      AcceptedPlusLost(log[..s.pcs[t].mine]);
    }
  }

  lemma {:induction false} SettledSplit(log: seq<Unit>)
    requires forall i | 0 <= i < |log| :: log[i].Taken? || log[i].Failed?
    ensures Sum(log, TakenWeight()) + Sum(log, FailedWeight()) == |log|
  {
    if log != [] {
      assert log[0].Taken? || log[0].Failed?;
      SettledSplit(log[1..]);
    }
  }

  predicate Quiet<T>(s: State<T>)
  {
    forall t | 0 <= t < |s.pcs| :: s.pcs[t] == Idle
  }

  /** With no dequeue in flight the two counters differ by exactly the head. */
  lemma QuietCounters<T>(s0: State<T>, es: seq<Event<T>>)
    requires Init(s0) && Quiet(Run(s0, es))
    ensures Run(s0, es).count - Run(s0, es).over == Run(s0, es).head
  {
    var s := Run(s0, es);
    var log := RunKeeps(s0, es);
    forall i | 0 <= i < |log| ensures log[i].Taken? || log[i].Failed? {
      assert UnitInv(log, i, s.pcs);
    }
    SettledSplit(log);
  }

  lemma RunSix<T>(s: State<T>, es: seq<Event<T>>, f: seq<Event<T>>)
    requires |f| == 6
    ensures Run(s, es + f)
         == Step(Step(Step(Step(Step(Step(Run(s, es), f[0]), f[1]), f[2]), f[3]), f[4]), f[5])
  {
    forall k | 0 <= k < 6 ensures Run(s, es + f[..k + 1]) == Step(Run(s, es + f[..k]), f[k]) {
      assert (es + f[..k + 1])[..|es| + k] == es + f[..k];
    }
    assert es + f[..0] == es && f[..6] == f;
  }

  /** Whatever failed calls and refunds came before, a dequeue that runs alone takes as many of the
      remaining elements as it asked for: none is out of reach. */
  lemma LoneDequeueTakesWhatIsThere<T>(s0: State<T>, es: seq<Event<T>>, t: nat, max: nat)
    requires Init(s0) && Quiet(Run(s0, es)) && t < |Run(s0, es).pcs|
    ensures var s := Run(s0, es);
            var s' := Run(s0, es + [Call(t, max), Go(t), Go(t), Go(t), Go(t), Go(t)]);
            && s.head <= s.Tail()
            && s'.head == s.head + Min(max, s.Tail() - s.head)
            && Quiet(s') && s'.items == s.items
  {
    hide Run, Init;
    var s := Run(s0, es);
    QuietCounters(s0, es);
    ClaimsAreBacked(s0, es, t);
    var calls := [Call(t, max), Go(t), Go(t), Go(t), Go(t), Go(t)];
    var s1 := Step(s, calls[0]);
    var s2 := Step(s1, calls[1]);
    var s3 := Step(s2, calls[2]);
    var s4 := Step(s3, calls[3]);
    var s5 := Step(s4, calls[4]);
    var s6 := Step(s5, calls[5]);
    RunSix(s0, es, calls);
    assert s1.pcs == s.pcs[t := LoadOver(max, s.Tail())];
    assert s2.pcs == s.pcs[t := LoadCount(max, s.Tail(), s.over)];
    if s.head < s.Tail() {
      var want := Min(max, s.Tail() - s.head);
      assert s3.pcs == s.pcs[t := Ticket(s.over, want)];
      assert s4.pcs == s.pcs[t := Recheck(s.count, s.over, want)];
      assert s5.pcs == s.pcs[t := Claim(s.count, want)];
    }
    assert s6.pcs == s.pcs;
  }
}
