/** Every interleaving of the free list keeps `Inv`; what that means for its callers. */
module FreeListProof {
  import opened Threads
  import opened FreeList

  lemma HoldersBound(s: State, n: nat)
    ensures Holders(s, n) <= |s.pcs|
  {
    SumAtMost(s.pcs, HoldsWeight(n), 1);
  }

  lemma HoldersMove(s: State, t: nat, p: PC, n: nat)
    requires t < |s.pcs|
    ensures Sum(s.pcs[t := p], HoldsWeight(n))
         == Holders(s, n) - HoldsWeight(n)(s.pcs[t]) + HoldsWeight(n)(p)
  {
    SumUpdate(s.pcs, t, p, HoldsWeight(n));
  }

  lemma HolderCounts(s: State, t: nat, n: nat)
    requires t < |s.pcs| && Holding(s.pcs[t]) && s.pcs[t].n == n
    ensures Holders(s, n) >= 1
  {
    SumAtLeast(s.pcs, t, HoldsWeight(n));
  }

  predicate Names(place: Place, t: nat)
  {
    match place
    case Popping(u) => u == t
    case Submitted(u) => u == t
    case Linking(u) => u == t
    case _ => true
  }

  /** The word and the number of holders moved together. */
  predicate SameStanding(s: State, s': State, place: Place, place': Place, n: nat)
    requires n < |s.words| && n < |s'.words|
  {
    && place == place'
    && s.words[n] != FLAG
    && s'.words[n] + Holders(s, n) == s.words[n] + Holders(s', n)
    && |s.nexts| == |s.words| && |s'.nexts| == |s'.words| && s'.nexts[n] == s.nexts[n]
  }

  /** A step of `t` between program points without a subject. */
  lemma FramePc(s: State, l: seq<nat>, places: seq<Place>, t: nat, p: PC)
    requires Inv(s, l, places) && t < |s.pcs| && ValidPC(|s.words|, p)
    requires Subject(s.pcs[t]) == Null && Subject(p) == Null && (p.GetRetain? ==> Count(p.refs) != 0)
    ensures Inv(At(s, t, p), l, places)
  {
    var s' := At(s, t, p);
    forall n: nat ensures Holders(s', n) == Holders(s, n) {
      HoldersMove(s, t, p, n);
    }
    forall n | 0 <= n < |places| ensures BlockInv(s', l, places[n], n) {
      assert BlockInv(s, l, places[n], n);
    }
    forall u | 0 <= u < |s'.pcs| ensures PcInv(s', places, u) {
      assert PcInv(s, places, u);
    }
  }

  /** Thread `t` takes a step that is about the block `n` only. */
  lemma FrameNode(s: State, s': State, l: seq<nat>, l': seq<nat>, places: seq<Place>, t: nat, n: nat, place: Place)
    requires Inv(s, l, places) && Shape(s')
    requires t < |s.pcs| && n < |s.words|
    requires |s'.pcs| == |s.pcs| && s'.pcs == s.pcs[t := s'.pcs[t]]
    requires |s'.words| == |s.words| && s'.words == s.words[n := s'.words[n]]
    requires s'.nexts == s.nexts[n := s'.nexts[n]]
    requires forall m | m != n :: (m in s'.owner <==> m in s.owner) && (m in s.owner ==> s'.owner[m] == s.owner[m])
    requires Subject(s.pcs[t]) in {Null, To(n)} && Subject(s'.pcs[t]) in {Null, To(n)}
    requires Names(places[n], t) || SameStanding(s, s', places[n], place, n)
    requires s'.nexts[n] == s.nexts[n] || Holders(s, n) == 0
    requires BlockInv(s', l', place, n) && PcInv(s', places[n := place], t)
    requires Chain(s'.head, s'.nexts, l')
    requires forall m | m != n :: m in l' <==> m in l
    ensures Inv(s', l', places[n := place])
  {
    var places' := places[n := place];
    forall m: nat | m != n ensures Holders(s', m) == Holders(s, m) {
      HoldersMove(s, t, s'.pcs[t], m);
    }
    forall m | 0 <= m < |places'| ensures BlockInv(s', l', places'[m], m) {
      if m != n {
        assert BlockInv(s, l, places[m], m);
      }
    }
    forall u | 0 <= u < |s'.pcs| ensures PcInv(s', places', u) {
      if u != t {
        assert PcInv(s, places, u);
        if s.pcs[u].GetCas? && s.pcs[u].n == n {
          HolderCounts(s, u, n);
        }
      }
    }
  }

  // ----- One lemma for each atomic operation that is about a block -----

  lemma ThreadFacts(s: State, l: seq<nat>, places: seq<Place>, t: nat)
    requires Inv(s, l, places) && t < |s.pcs|
    ensures Shape(s) && |places| == |s.words| && ValidPC(|s.words|, s.pcs[t]) && PcInv(s, places, t)
  {
  }

  /** What a step of `t` to `p` may use about the block `n`. */
  lemma Facts(s: State, l: seq<nat>, places: seq<Place>, t: nat, n: nat, p: PC)
    requires Inv(s, l, places) && t < |s.pcs| && n < |s.words|
    ensures BlockInv(s, l, places[n], n) && PcInv(s, places, t) && ValidPC(|s.words|, s.pcs[t])
    ensures |places| == |s.words| && places[n := places[n]] == places && Chain(s.head, s.nexts, l)
    ensures Holders(s, n) <= MAX_THREADS
    ensures Holding(s.pcs[t]) && s.pcs[t].n == n ==> Holders(s, n) >= 1
    ensures Sum(s.pcs[t := p], HoldsWeight(n)) == Holders(s, n) - HoldsWeight(n)(s.pcs[t]) + HoldsWeight(n)(p)
  {
    HoldersBound(s, n);
    if Holding(s.pcs[t]) && s.pcs[t].n == n {
      HolderCounts(s, t, n);
    }
    HoldersMove(s, t, p, n);
  }

  lemma RetainKeeps(s: State, l: seq<nat>, places: seq<Place>, t: nat)
    requires Inv(s, l, places) && t < |s.pcs| && s.pcs[t].GetRetain?
    requires s.pcs[t].refs == s.words[s.pcs[t].n]
    ensures Inv(Advance(s, t), l, places)
  {
    hide Inv, Chain;
    ThreadFacts(s, l, places, t);
    var n := s.pcs[t].n;
    Facts(s, l, places, t, n, GetNext(n));
    assert s.words[n] <= FLAG + MAX_THREADS && Wrap(s.words[n] + 1) == s.words[n] + 1;
    assert WordInv(places[n], s.words[n] + 1, Holders(s, n) + 1);
    hide Wrap, Count, WordInv;
    FrameNode(s, Advance(s, t), l, l, places, t, n, places[n]);
  }

  lemma NextKeeps(s: State, l: seq<nat>, places: seq<Place>, t: nat)
    requires Inv(s, l, places) && t < |s.pcs| && s.pcs[t].GetNext?
    ensures Inv(Advance(s, t), l, places)
  {
    var n := s.pcs[t].n;
    Facts(s, l, places, t, n, GetCas(n, s.nexts[n]));
    FrameNode(s, Advance(s, t), l, l, places, t, n, places[n]);
  }

  /** A successful head CAS takes the first block off and leaves exactly the rest. */
  lemma PopKeeps(s: State, l: seq<nat>, places: seq<Place>, t: nat)
    requires Inv(s, l, places) && t < |s.pcs| && s.pcs[t].GetCas?
    requires s.head == To(s.pcs[t].n)
    ensures l != [] && l[0] == s.pcs[t].n && s.pcs[t].next == First(l[1..])
    ensures Inv(Advance(s, t), l[1..], places[l[0] := Popping(t)])
  {
    var n := s.pcs[t].n;
    Facts(s, l, places, t, n, GetClaim(n));
    FrameNode(s, Advance(s, t), l, l[1..], places, t, n, Popping(t));
  }

  lemma MissKeeps(s: State, l: seq<nat>, places: seq<Place>, t: nat)
    requires Inv(s, l, places) && t < |s.pcs| && s.pcs[t].GetCas?
    requires s.head != To(s.pcs[t].n)
    ensures Inv(Advance(s, t), l, places)
  {
    var n := s.pcs[t].n;
    Facts(s, l, places, t, n, GetRelease(n, s.head));
    FrameNode(s, Advance(s, t), l, l, places, t, n, places[n]);
  }

  lemma ClaimKeeps(s: State, l: seq<nat>, places: seq<Place>, t: nat)
    requires Inv(s, l, places) && t < |s.pcs| && s.pcs[t].GetClaim?
    ensures Inv(Advance(s, t), l, places[s.pcs[t].n := Owned(t)])
  {
    var n := s.pcs[t].n;
    Facts(s, l, places, t, n, Idle);
    FrameNode(s, Advance(s, t), l, l, places, t, n, Owned(t));
  }

  lemma ReleaseKeeps(s: State, l: seq<nat>, places: seq<Place>, t: nat) returns (places': seq<Place>)
    requires Inv(s, l, places) && t < |s.pcs| && s.pcs[t].GetRelease?
    ensures Inv(Advance(s, t), l, places')
  {
    hide Inv, Chain;
    ThreadFacts(s, l, places, t);
    var n := s.pcs[t].n;
    Facts(s, l, places, t, n, Advance(s, t).pcs[t]);
    var place := if s.words[n] == FLAG + 1 then Linking(t) else places[n];
    assert s.words[n] >= 1 && Wrap(s.words[n] - 1) == s.words[n] - 1;
    hide Wrap, Count;
    FrameNode(s, Advance(s, t), l, l, places, t, n, place);
    places' := places[n := place];
  }

  lemma FlagKeeps(s: State, l: seq<nat>, places: seq<Place>, t: nat) returns (places': seq<Place>)
    requires Inv(s, l, places) && t < |s.pcs| && s.pcs[t].AddFlag?
    ensures Inv(Advance(s, t), l, places')
  {
    hide Inv, Chain;
    ThreadFacts(s, l, places, t);
    var n := s.pcs[t].n;
    Facts(s, l, places, t, n, Advance(s, t).pcs[t]);
    var place := if s.words[n] == 0 then Linking(t) else Parked;
    FrameNode(s, Advance(s, t), l, l, places, t, n, place);
    places' := places[n := place];
  }

  lemma LinkKeeps(s: State, l: seq<nat>, places: seq<Place>, t: nat)
    requires Inv(s, l, places) && t < |s.pcs|
    requires s.pcs[t].LinkLoad? || s.pcs[t].LinkNext? || s.pcs[t].LinkRefs?
    ensures Inv(Advance(s, t), l, places)
  {
    hide Inv, Chain;
    ThreadFacts(s, l, places, t);
    var n := s.pcs[t].n;
    Facts(s, l, places, t, n, Advance(s, t).pcs[t]);
    FrameNode(s, Advance(s, t), l, l, places, t, n, places[n]);
  }

  lemma PushedChain(nexts: seq<Ptr>, l: seq<nat>, n: nat)
    requires n < |nexts| && n !in l && Chain(nexts[n], nexts, l)
    ensures Chain(To(n), nexts, [n] + l)
  {
    var l' := [n] + l;
    assert l'[1..] == l;
    forall i | 0 <= i < |l'| ensures l'[i] < |nexts| && nexts[l'[i]] == First(l'[i + 1..]) {
      if i > 0 {
        assert l'[i + 1..] == l[i..];
        assert nexts[l[i - 1]] == First(l[i - 1 + 1..]);
      }
    }
  }

  lemma PushKeeps(s: State, l: seq<nat>, places: seq<Place>, t: nat)
    requires Inv(s, l, places) && t < |s.pcs| && s.pcs[t].LinkCas? && s.head == s.pcs[t].seen
    ensures Inv(Advance(s, t), [s.pcs[t].n] + l, places[s.pcs[t].n := OnList])
  {
    hide Inv, Chain;
    ThreadFacts(s, l, places, t);
    var n := s.pcs[t].n;
    Facts(s, l, places, t, n, Advance(s, t).pcs[t]);
    PushedChain(s.nexts, l, n);
    FrameNode(s, Advance(s, t), l, [n] + l, places, t, n, OnList);
  }

  lemma PushMissKeeps(s: State, l: seq<nat>, places: seq<Place>, t: nat)
    requires Inv(s, l, places) && t < |s.pcs| && s.pcs[t].LinkCas? && s.head != s.pcs[t].seen
    ensures Inv(Advance(s, t), l, places)
  {
    hide Inv, Chain;
    ThreadFacts(s, l, places, t);
    var n := s.pcs[t].n;
    Facts(s, l, places, t, n, Advance(s, t).pcs[t]);
    FrameNode(s, Advance(s, t), l, l, places, t, n, places[n]);
  }

  lemma BackOutKeeps(s: State, l: seq<nat>, places: seq<Place>, t: nat) returns (places': seq<Place>)
    requires Inv(s, l, places) && t < |s.pcs| && s.pcs[t].LinkBackOut?
    ensures Inv(Advance(s, t), l, places')
  {
    hide Inv, Chain;
    ThreadFacts(s, l, places, t);
    var n := s.pcs[t].n;
    Facts(s, l, places, t, n, Advance(s, t).pcs[t]);
    var place := if s.words[n] == 1 then Linking(t) else Parked;
    FrameNode(s, Advance(s, t), l, l, places, t, n, place);
    places' := places[n := place];
  }

  lemma CallAddKeeps(s: State, l: seq<nat>, places: seq<Place>, t: nat, n: nat)
    requires Inv(s, l, places) && t < |s.pcs| && s.pcs[t] == Idle && n in s.owner && s.owner[n] == t
    ensures Inv(Step(s, CallAdd(t, n)), l, places[n := Submitted(t)])
  {
    Facts(s, l, places, t, n, AddFlag(n));
    FrameNode(s, Step(s, CallAdd(t, n)), l, l, places, t, n, Submitted(t));
  }

  lemma PassKeeps(s: State, l: seq<nat>, places: seq<Place>, n: nat, to: nat)
    requires Inv(s, l, places) && n in s.owner && to < |s.pcs|
    ensures Inv(SetOwner(s, n, to), l, places[n := Owned(to)])
  {
    var s', places' := SetOwner(s, n, to), places[n := Owned(to)];
    assert BlockInv(s, l, places[n], n);
    forall m | 0 <= m < |places'| ensures BlockInv(s', l, places'[m], m) {
      assert BlockInv(s, l, places[m], m);
    }
    forall u | 0 <= u < |s'.pcs| ensures PcInv(s', places', u) {
      assert PcInv(s, places, u);
    }
  }

  /** The list changes at a successful head CAS and nowhere else. */
  function ListAfter(s: State, l: seq<nat>, t: nat): seq<nat>
    requires t < |s.pcs|
  {
    var p := s.pcs[t];
    if p.GetCas? && s.head == To(p.n) && l != [] then l[1..]
    else if p.LinkCas? && s.head == p.seen then [p.n] + l
    else l
  }

  lemma GoKeeps(s: State, l: seq<nat>, places: seq<Place>, t: nat) returns (l': seq<nat>, places': seq<Place>)
    requires Inv(s, l, places) && t < |s.pcs|
    ensures Inv(Advance(s, t), l', places') && l' == ListAfter(s, l, t)
  {
    hide Inv, Chain, ThreadInv;
    l', places' := l, places;
    ThreadFacts(s, l, places, t);
    match s.pcs[t]
    case Idle =>
    case GetLoad => FramePc(s, l, places, t, Loop(s.head));
    case GetRefs(n) => FramePc(s, l, places, t, Advance(s, t).pcs[t]);
    case GetRetain(n, refs) =>
      if s.words[n] == refs { RetainKeeps(s, l, places, t); } else { FramePc(s, l, places, t, GetLoad); }
    case GetNext(_) => NextKeeps(s, l, places, t);
    case GetCas(n, _) =>
      if s.head == To(n) {
        PopKeeps(s, l, places, t);
        l', places' := l[1..], places[n := Popping(t)];
      } else {
        MissKeeps(s, l, places, t);
      }
    case GetClaim(n) =>
      ClaimKeeps(s, l, places, t);
      places' := places[n := Owned(t)];
    case GetRelease(_, _) => places' := ReleaseKeeps(s, l, places, t);
    case AddFlag(_) => places' := FlagKeeps(s, l, places, t);
    case LinkLoad(_, _) => LinkKeeps(s, l, places, t);
    case LinkNext(_, _, _) => LinkKeeps(s, l, places, t);
    case LinkRefs(_, _, _) => LinkKeeps(s, l, places, t);
    case LinkCas(n, seen, _) =>
      if s.head == seen {
        PushKeeps(s, l, places, t);
        l', places' := [n] + l, places[n := OnList];
      } else {
        PushMissKeeps(s, l, places, t);
      }
    case LinkBackOut(_, _, _) => places' := BackOutKeeps(s, l, places, t);
  }

  lemma StepKeeps(s: State, l: seq<nat>, places: seq<Place>, e: Event) returns (l': seq<nat>, places': seq<Place>)
    requires Inv(s, l, places)
    ensures Inv(Step(s, e), l', places')
    ensures l' == if e.Go? && e.t < |s.pcs| then ListAfter(s, l, e.t) else l
  {
    l', places' := l, places;
    match e
    case CallGet(t) =>
      if t < |s.pcs| && s.pcs[t] == Idle {
        FramePc(s, l, places, t, GetLoad);
      }
    case CallAdd(t, n) =>
      if t < |s.pcs| && s.pcs[t] == Idle && n in s.owner && s.owner[n] == t {
        CallAddKeeps(s, l, places, t, n);
        places' := places[n := Submitted(t)];
      }
    case Pass(n, t, to) =>
      if n in s.owner && s.owner[n] == t && to < |s.pcs| {
        PassKeeps(s, l, places, n, to);
        places' := places[n := Owned(to)];
      }
    case Go(t) =>
      if t < |s.pcs| {
        l', places' := GoKeeps(s, l, places, t);
      }
  }

  lemma {:induction false} RunKeeps(s: State, es: seq<Event>) returns (l: seq<nat>, places: seq<Place>)
    requires Init(s)
    ensures Inv(Run(s, es), l, places)
  {
    if es == [] {
      l, places := [], seq(|s.words|, n requires 0 <= n < |s.words| => Owned(s.owner[n]));
      forall n: nat ensures Holders(s, n) == 0 {
        SumAtMost(s.pcs, HoldsWeight(n), 0);
      }
    } else {
      l, places := RunKeeps(s, es[..|es| - 1]);
      l, places := StepKeeps(Run(s, es[..|es| - 1]), l, places, es[|es| - 1]);
    }
  }

  // ----- What callers rely on -----

  ghost predicate OnFreeList(s: State, n: nat)
  {
    exists l :: Chain(s.head, s.nexts, l) && n in l
  }

  /** Thread `t` alone may use or insert the block: it owns it, is about to return it from
      `try_get`, or is inserting it. */
  predicate Custodian(s: State, t: nat, n: nat)
  {
    || (n in s.owner && s.owner[n] == t)
    || (t < |s.pcs| && (s.pcs[t].GetClaim? || s.pcs[t].AddFlag? || InLink(s.pcs[t])) && s.pcs[t].n == n)
  }

  ghost predicate InCustody(s: State, n: nat)
  {
    exists t :: Custodian(s, t, n)
  }

  /** Off the list with the flag set, and some thread still has a reference to give back; the
      last one to do so inserts the block. */
  ghost predicate AwaitsHolder(s: State, n: nat)
    requires n < |s.words|
  {
    && s.words[n] > FLAG
    && exists t :: 0 <= t < |s.pcs| && Holding(s.pcs[t]) && s.pcs[t].n == n
  }

  lemma TailChain(head: Ptr, nexts: seq<Ptr>, l: seq<nat>)
    requires Chain(head, nexts, l) && l != []
    ensures Chain(nexts[l[0]], nexts, l[1..])
  {
    assert nexts[l[0]] == First(l[0 + 1..]);
    forall i | 0 <= i < |l[1..]| ensures l[1..][i] < |nexts| && nexts[l[1..][i]] == First(l[1..][i + 1..]) {
      assert l[1..][i + 1..] == l[i + 1 + 1..];
      assert nexts[l[i + 1]] == First(l[i + 1 + 1..]);
    }
  }

  lemma {:induction false} ChainUnique(head: Ptr, nexts: seq<Ptr>, l: seq<nat>, m: seq<nat>)
    requires Chain(head, nexts, l) && Chain(head, nexts, m)
    ensures l == m
    decreases |l|
  {
    if l != [] && m != [] {
      assert nexts[l[0]] == First(l[0 + 1..]) && nexts[m[0]] == First(m[0 + 1..]);
      TailChain(head, nexts, l);
      TailChain(head, nexts, m);
      ChainUnique(nexts[l[0]], nexts, l[1..], m[1..]);
      assert l == [l[0]] + l[1..] && m == [m[0]] + m[1..];
    }
  }

  lemma ListKnown(s: State, l: seq<nat>, places: seq<Place>, n: nat)
    requires Inv(s, l, places) && n < |s.words|
    ensures OnFreeList(s, n) <==> places[n] == OnList
  {
    assert BlockInv(s, l, places[n], n);
    assert n in l ==> Chain(s.head, s.nexts, l) && n in l;
    if OnFreeList(s, n) {
      var m :| Chain(s.head, s.nexts, m) && n in m;
      ChainUnique(s.head, s.nexts, l, m);
    }
  }

  lemma CustodyKnown(s: State, l: seq<nat>, places: seq<Place>, t: nat, n: nat)
    requires Inv(s, l, places) && Custodian(s, t, n)
    ensures n < |s.words| && places[n] in {Owned(t), Popping(t), Submitted(t), Linking(t)}
  {
    if t < |s.pcs| { assert PcInv(s, places, t) && ValidPC(|s.words|, s.pcs[t]); }
    assert BlockInv(s, l, places[n], n);
  }

  lemma AwaitsKnown(s: State, l: seq<nat>, places: seq<Place>, n: nat)
    requires Inv(s, l, places) && n < |s.words|
    ensures AwaitsHolder(s, n) <==> places[n] == Parked
  {
    assert BlockInv(s, l, places[n], n);
    HoldersBound(s, n);
    if places[n] == Parked {
      var t := SumWitness(s.pcs, HoldsWeight(n));
      assert Holding(s.pcs[t]) && s.pcs[t].n == n;
    }
  }

  /** No two threads ever have the same block, and no thread has one that is on the list. */
  lemma Exclusive(s0: State, es: seq<Event>, n: nat, t: nat, u: nat)
    requires Init(s0)
    requires Custodian(Run(s0, es), t, n)
    ensures !OnFreeList(Run(s0, es), n)
    ensures Custodian(Run(s0, es), u, n) ==> u == t
  {
    var s := Run(s0, es);
    var l, places := RunKeeps(s0, es);
    CustodyKnown(s, l, places, t, n);
    if Custodian(s, u, n) {
      CustodyKnown(s, l, places, u, n);
    }
    ListKnown(s, l, places, n);
  }

  /** At every moment of every run a block is on the list, in one thread's custody, or flagged
      with a live reference holder that will put it back: exactly one of the three. */
  lemma Conserved(s0: State, es: seq<Event>, n: nat)
    requires Init(s0) && n < |Run(s0, es).words|
    ensures OnFreeList(Run(s0, es), n) || InCustody(Run(s0, es), n) || AwaitsHolder(Run(s0, es), n)
    ensures !(OnFreeList(Run(s0, es), n) && InCustody(Run(s0, es), n))
    ensures !(OnFreeList(Run(s0, es), n) && AwaitsHolder(Run(s0, es), n))
    ensures !(InCustody(Run(s0, es), n) && AwaitsHolder(Run(s0, es), n))
  {
    var s := Run(s0, es);
    var l, places := RunKeeps(s0, es);
    assert BlockInv(s, l, places[n], n);
    ListKnown(s, l, places, n);
    AwaitsKnown(s, l, places, n);
    if InCustody(s, n) {
      var t :| Custodian(s, t, n);
      CustodyKnown(s, l, places, t, n);
    } else {
      match places[n]
      case OnList =>
      case Parked =>
      case Popping(t) => assert Custodian(s, t, n);
      case Owned(t) => assert Custodian(s, t, n);
      case Submitted(t) => assert Custodian(s, t, n);
      case Linking(t) => assert Custodian(s, t, n);
    }
  }

  /** A head CAS that succeeds installs the link that is current, so it removes one block from the
      list and keeps the others, although the link was read before the head was compared. */
  lemma PopIsExact(s0: State, es: seq<Event>, t: nat) returns (l: seq<nat>)
    requires Init(s0)
    requires var s := Run(s0, es); t < |s.pcs| && s.pcs[t].GetCas? && s.head == To(s.pcs[t].n)
    ensures var s, s' := Run(s0, es), Run(s0, es + [Go(t)]);
            && Chain(s.head, s.nexts, l) && l != [] && l[0] == s.pcs[t].n
            && Chain(s'.head, s'.nexts, l[1..])
            && Custodian(s', t, l[0])
  {
    var s := Run(s0, es);
    var places;
    l, places := RunKeeps(s0, es);
    assert (es + [Go(t)])[..|es|] == es;
    PopKeeps(s, l, places, t);
  }

  /** A head CAS of `add` that succeeds puts the block in front of the list it found. */
  lemma PushIsExact(s0: State, es: seq<Event>, t: nat) returns (l: seq<nat>)
    requires Init(s0)
    requires var s := Run(s0, es); t < |s.pcs| && s.pcs[t].LinkCas? && s.head == s.pcs[t].seen
    ensures var s, s' := Run(s0, es), Run(s0, es + [Go(t)]);
            && Chain(s.head, s.nexts, l) && Chain(s'.head, s'.nexts, [s.pcs[t].n] + l)
  {
    var s := Run(s0, es);
    var places;
    l, places := RunKeeps(s0, es);
    assert (es + [Go(t)])[..|es|] == es;
    PushKeeps(s, l, places, t);
  }

  /** No other step touches the list. */
  lemma OtherStepsKeepList(s0: State, es: seq<Event>, e: Event, l: seq<nat>)
    requires Init(s0) && Chain(Run(s0, es).head, Run(s0, es).nexts, l)
    requires var s := Run(s0, es);
             e.Go? && e.t < |s.pcs| ==>
               && !(s.pcs[e.t].GetCas? && s.head == To(s.pcs[e.t].n))
               && !(s.pcs[e.t].LinkCas? && s.head == s.pcs[e.t].seen)
    ensures Chain(Run(s0, es + [e]).head, Run(s0, es + [e]).nexts, l)
  {
    var s := Run(s0, es);
    var m, places := RunKeeps(s0, es);
    ChainUnique(s.head, s.nexts, l, m);
    assert (es + [e])[..|es|] == es;
    var l', places' := StepKeeps(s, m, places, e);
  }

  /** The word operation thread `t` is about to do neither borrows from the flag nor carries out
      of the word, and where the code asserts or assumes a clear flag the flag is clear. */
  predicate WordSafe(s: State, t: nat)
    requires Shape(s) && t < |s.pcs|
  {
    assert ValidPC(|s.words|, s.pcs[t]);
    match s.pcs[t]
    case AddFlag(n) => s.words[n] < FLAG
    case GetClaim(n) => 2 <= s.words[n] < FLAG
    case GetRelease(n, _) => Count(s.words[n]) >= 1
    case GetRetain(n, refs) => s.words[n] == refs ==> 1 <= Count(refs) < FLAG - 1
    case LinkRefs(n, _, _) => s.words[n] == FLAG
    case LinkBackOut(n, _, _) => 1 <= s.words[n] < FLAG
    case _ => true
  }

  lemma WordSafeFromInv(s: State, l: seq<nat>, places: seq<Place>, t: nat)
    requires Inv(s, l, places) && t < |s.pcs|
    ensures WordSafe(s, t)
  {
    assert PcInv(s, places, t) && ValidPC(|s.words|, s.pcs[t]);
    if !s.pcs[t].Idle? && !s.pcs[t].GetLoad? {
      Facts(s, l, places, t, s.pcs[t].n, Idle);
    }
  }

  lemma WordsNeverOverflow(s0: State, es: seq<Event>, t: nat)
    requires Init(s0) && t < |Run(s0, es).pcs|
    ensures WordSafe(Run(s0, es), t)
  {
    var l, places := RunKeeps(s0, es);
    WordSafeFromInv(Run(s0, es), l, places, t);
  }

  /** When no call is in progress every block is on the list or with its owner: none is lost. */
  lemma Quiescent(s0: State, es: seq<Event>, n: nat)
    requires Init(s0) && n < |Run(s0, es).words|
    requires forall t | 0 <= t < |Run(s0, es).pcs| :: Run(s0, es).pcs[t] == Idle
    ensures OnFreeList(Run(s0, es), n) <==> n !in Run(s0, es).owner
    ensures Run(s0, es).words[n] == if n in Run(s0, es).owner then 0 else 1
  {
    var s := Run(s0, es);
    var l, places := RunKeeps(s0, es);
    SumAtMost(s.pcs, HoldsWeight(n), 0);
    assert BlockInv(s, l, places[n], n);
    ListKnown(s, l, places, n);
  }
}
