/** That consumers who dequeue at the same time leave nothing behind: of the tickets drawn while
    elements are there, as many come to something as there are elements. */
module DequeueProgress {
  import opened Basics
  import opened Threads
  import opened OptimisticDequeue

  /** Since a moment with overcommit `over` and `count` tickets drawn: overcommits loaded are no older,
      and a ticket below `bound` was not refused. */
  predicate ServedPc(p: PC, over: nat, count: nat, bound: int)
  {
    && (p.LoadCount? || p.Ticket? || p.Recheck? ==> p.over >= over)
    && (p.Recheck? || p.Refund? || p.Fail? ==> p.mine >= count)
    && (p.Refund? ==> p.mine + p.take >= bound)
    && (p.Fail? ==> p.mine >= bound)
  }

  predicate Served<T>(s: State<T>, over: nat, count: nat, tail: nat)
  {
    && s.over >= over && s.count >= count && s.Tail() >= tail
    && forall t | 0 <= t < |s.pcs| :: ServedPc(s.pcs[t], over, count, tail + over)
  }

  predicate NoneLost(log: seq<Unit>, from: nat, bound: int)
  {
    forall i | from <= i < |log| && i < bound :: !log[i].Refunding? && !log[i].Failed?
  }

  lemma ServedStep<T>(s: State<T>, e: Event<T>, over: nat, count: nat, tail: nat)
    requires Served(s, over, count, tail)
    ensures Served(Step(s, e), over, count, tail)
  {
  }

  /** The units lost are those of threads that were refused. */
  lemma NoneLostAfter<T>(s': State<T>, log: seq<Unit>, log': seq<Unit>, over: nat, count: nat, tail: nat)
    requires Inv(s', log') && Settles(log, log') && Served(s', over, count, tail)
    requires NoneLost(log, count, tail + over) && |log| >= count
    ensures NoneLost(log', count, tail + over)
  {
    forall i | count <= i < |log'| && i < tail + over ensures !log'[i].Refunding? && !log'[i].Failed? {
      assert UnitInv(log', i, s'.pcs);
    }
  }

  lemma {:induction false} RunConcat<T>(s: State<T>, es: seq<Event<T>>, f: seq<Event<T>>)
    ensures Run(s, es + f) == Run(Run(s, es), f)
  {
    if f == [] {
      assert es + f == es;
    } else {
      RunConcat(s, es, f[..|f| - 1]);
      assert (es + f)[..|es + f| - 1] == es + f[..|f| - 1];
    }
  }

  lemma QuietIsSettled<T>(s: State<T>, log: seq<Unit>)
    requires Inv(s, log) && Quiet(s)
    ensures forall i | 0 <= i < |log| :: log[i].Taken? || log[i].Failed?
  {
    forall i | 0 <= i < |log| ensures log[i].Taken? || log[i].Failed? {
      assert UnitInv(log, i, s.pcs);
    }
  }

  lemma LogLength<T>(s: State<T>, log: seq<Unit>)
    requires Inv(s, log)
    ensures |log| == s.count
  {
  }

  lemma KeptPrefix(log: seq<Unit>, mid: seq<Unit>, log': seq<Unit>)
    requires |log| <= |mid| && mid[..|log|] == log && Settles(mid, log')
    requires forall i | 0 <= i < |log| :: log[i].Taken? || log[i].Failed?
    ensures log'[..|log|] == log
  {
    forall i | 0 <= i < |log| ensures log'[i] == log[i] {
      assert mid[..|log|][i] == mid[i];
    }
  }

  lemma ServedStart<T>(s: State<T>, log: seq<Unit>)
    requires Inv(s, log) && Quiet(s)
    ensures Served(s, s.over, s.count, s.Tail()) && NoneLost(log, s.count, s.Tail() + s.over)
  {
  }

  /** From a quiet state on: the log is kept, and no ticket for an element that was there is lost. */
  lemma {:induction false} ServedRun<T>(s: State<T>, log: seq<Unit>, f: seq<Event<T>>) returns (log': seq<Unit>)
    requires Inv(s, log) && Quiet(s)
    ensures Inv(Run(s, f), log') && |log| <= |log'| && log'[..|log|] == log
    ensures Served(Run(s, f), s.over, s.count, s.Tail()) && NoneLost(log', s.count, s.Tail() + s.over)
  {
    hide Inv, Served, NoneLost, Step;
    if f == [] {
      log' := log;
      ServedStart(s, log);
    } else {
      var before, e := f[..|f| - 1], f[|f| - 1];
      var mid := ServedRun(s, log, before);
      log' := StepKeeps(Run(s, before), mid, e);
      ServedStep(Run(s, before), e, s.over, s.count, s.Tail());
      LogLength(s, log);
      NoneLostAfter(Run(s, f), mid, log', s.over, s.count, s.Tail());
      QuietIsSettled(s, log);
      KeptPrefix(log, mid, log');
    }
  }

  /** Taken units from one place in the log on. */
  lemma {:induction false} AllTaken(log: seq<Unit>)
    requires forall i | 0 <= i < |log| :: log[i].Taken?
    ensures Sum(log, TakenWeight()) == |log|
  {
    if log != [] {
      AllTaken(log[1..]);
    }
  }

  lemma TakenBetween(log: seq<Unit>, from: nat, to: nat)
    requires from <= to <= |log| && forall i | from <= i < to :: log[i].Taken?
    ensures Sum(log, TakenWeight()) >= Sum(log[..from], TakenWeight()) + (to - from)
  {
    AllTaken(log[from..to]);
    SumConcat(log[..from], log[from..to], TakenWeight());
    assert log[..from] + log[from..to] == log[..to];
    SumConcat(log[..to], log[to..], TakenWeight());
    assert log[..to] + log[to..] == log;
  }

  lemma {:induction false} HeadGrows<T>(s0: State<T>, es: seq<Event<T>>, f: seq<Event<T>>)
    ensures Run(s0, es).head <= Run(s0, es + f).head
  {
    if f == [] {
      assert es + f == es;
    } else {
      HeadGrows(s0, es, f[..|f| - 1]);
      assert (es + f)[..|es + f| - 1] == es + f[..|f| - 1];
    }
  }

  /** Between two quiet moments of a run, however the calls between them interleave, as many elements
      are taken as tickets were drawn, up to all that were there at the first: no dequeue is refused
      while an element that was there is left for it. */
  lemma ContendersAreServed<T>(s0: State<T>, es: seq<Event<T>>, f: seq<Event<T>>)
    requires Init(s0) && Quiet(Run(s0, es)) && Quiet(Run(s0, es + f))
    ensures var s, s' := Run(s0, es), Run(s0, es + f);
            s'.head - s.head >= Min(s'.count - s.count, s.Tail() - s.head)
  {
    hide Run, Served;
    var s, s' := Run(s0, es), Run(s0, es + f);
    RunConcat(s0, es, f);
    QuietCounters(s0, es);
    var log := RunKeeps(s0, es);
    var log' := ServedRun(s, log, f);
    QuietIsSettled(s', log');
    var n := Min(s'.count - s.count, s.Tail() - s.head);
    if n > 0 {
      TakenBetween(log', s.count, s.count + n);
    } else {
      HeadGrows(s0, es, f);
    }
  }

  lemma {:induction false} OverGrows<T>(s0: State<T>, es: seq<Event<T>>, f: seq<Event<T>>)
    ensures Run(s0, es).over <= Run(s0, es + f).over
  {
    if f == [] {
      assert es + f == es;
    } else {
      OverGrows(s0, es, f[..|f| - 1]);
      assert (es + f)[..|es + f| - 1] == es + f[..|f| - 1];
    }
  }

  /** So while there is at least one element for each ticket, every ticket is served. */
  lemma EnoughForAll<T>(s0: State<T>, es: seq<Event<T>>, f: seq<Event<T>>)
    requires Init(s0) && Quiet(Run(s0, es)) && Quiet(Run(s0, es + f))
    requires Run(s0, es + f).count - Run(s0, es).count <= Run(s0, es).Tail() - Run(s0, es).head
    ensures Run(s0, es + f).head - Run(s0, es).head == Run(s0, es + f).count - Run(s0, es).count
    ensures Run(s0, es + f).over == Run(s0, es).over
  {
    hide Run, Inv;
    ContendersAreServed(s0, es, f);
    QuietCounters(s0, es);
    QuietCounters(s0, es + f);
    OverGrows(s0, es, f);
  }

  /** No call is turned away at its first look either: one that draws no ticket saw, at that moment,
      no element beyond the tickets drawn since the overcommit it had loaded. */
  lemma TurnedAwayExactly<T>(s: State<T>, t: nat)
    requires t < |s.pcs| && s.pcs[t].LoadCount?
    ensures Advance(s, t).pcs[t].Idle? <==> s.pcs[t].tail + s.pcs[t].over <= s.count
  {
  }
}
