/** The lock-free free list of blocks (`FreeList<N>` in concurrentqueue.hpp).

    Every atomic operation of `add`, `try_get` and `add_knowing_refcount_is_zero` is one step of
    one thread; `Step` runs the thread an event names, so an event sequence is an interleaving.
    The reference word is the 32-bit word of the code: the reference count in the low 31 bits and
    the should-be-on-free-list flag in the top bit, with wrapping `fetch_add` and `fetch_sub`. */
module FreeList {
  import opened Threads

  const FLAG: nat := 0x8000_0000
  const WORD: nat := 0x1_0000_0000

  /** The 31-bit count must hold one reference per thread and the one of the list. */
  const MAX_THREADS: nat := 0x7FFF_FFFD

  datatype Ptr = Null | To(node: nat)

  /** Where `add_knowing_refcount_is_zero` returns to: `add`, or the loop of `try_get`. */
  datatype Return = FromAdd | IntoGet(seen: Ptr)

  datatype PC =
    | Idle
    | GetLoad                               // load freeListHead
    | GetRefs(n: nat)                       // load n's reference word
    | GetRetain(n: nat, refs: nat)          // CAS the word from refs to refs + 1
    | GetNext(n: nat)                       // load n's freeListNext
    | GetCas(n: nat, next: Ptr)             // CAS freeListHead from n to next
    | GetClaim(n: nat)                      // fetch_sub(2) on the word, return n
    | GetRelease(n: nat, seen: Ptr)         // fetch_sub(1) on the word
    | AddFlag(n: nat)                       // fetch_add(FLAG) on the word
    | LinkLoad(n: nat, ret: Return)         // load freeListHead
    | LinkNext(n: nat, seen: Ptr, ret: Return)    // store n's freeListNext
    | LinkRefs(n: nat, seen: Ptr, ret: Return)    // store 1 in n's word
    | LinkCas(n: nat, seen: Ptr, ret: Return)     // CAS freeListHead from seen to n
    | LinkBackOut(n: nat, seen: Ptr, ret: Return) // fetch_add(FLAG - 1) on the word

  /** `owner` says which thread may hand a block to `add`: the one `try_get` returned it to, or
      the one it was passed to since. */
  datatype State = State(head: Ptr, words: seq<nat>, nexts: seq<Ptr>, owner: map<nat, nat>, pcs: seq<PC>)

  datatype Event =
    | CallGet(t: nat)
    | CallAdd(t: nat, n: nat)
    | Pass(n: nat, t: nat, to: nat)
    | Go(t: nat)

  function Wrap(x: int): nat { x % WORD }

  function Count(word: nat): nat { word % FLAG }

  // ----- Well-formed states: every pointer is to one of the blocks -----

  predicate ValidPtr(blocks: nat, p: Ptr)
  {
    p == Null || p.node < blocks
  }

  predicate ValidReturn(blocks: nat, ret: Return)
  {
    ret.IntoGet? ==> ValidPtr(blocks, ret.seen)
  }

  predicate ValidPC(blocks: nat, p: PC)
  {
    && (!p.Idle? && !p.GetLoad? ==> p.n < blocks)
    && (p.GetCas? ==> ValidPtr(blocks, p.next))
    && (p.GetRelease? || p.LinkNext? || p.LinkRefs? || p.LinkCas? || p.LinkBackOut? ==> ValidPtr(blocks, p.seen))
    && (p.LinkLoad? || p.LinkNext? || p.LinkRefs? || p.LinkCas? || p.LinkBackOut? ==> ValidReturn(blocks, p.ret))
  }

  predicate Shape(s: State)
  {
    && |s.words| == |s.nexts|
    && |s.pcs| <= MAX_THREADS
    && ValidPtr(|s.words|, s.head)
    && (forall n | 0 <= n < |s.nexts| :: ValidPtr(|s.words|, s.nexts[n]))
    && (forall n | n in s.owner :: n < |s.words|)
    && (forall t | 0 <= t < |s.pcs| :: ValidPC(|s.words|, s.pcs[t]))
  }

  // ----- Steps -----

  function At(s: State, t: nat, p: PC): (s': State)
    requires Shape(s) && t < |s.pcs| && ValidPC(|s.words|, p)
    ensures Shape(s')
  {
    s.(pcs := s.pcs[t := p])
  }

  function SetWord(s: State, n: nat, word: nat): (s': State)
    requires Shape(s) && n < |s.words|
    ensures Shape(s')
  {
    s.(words := s.words[n := word])
  }

  /** `fetch_add` on a reference word; a subtraction adds a negative amount. */
  function FetchAdd(s: State, n: nat, x: int): (s': State)
    requires Shape(s) && n < |s.words|
    ensures Shape(s')
  {
    SetWord(s, n, Wrap(s.words[n] + x))
  }

  function SetNext(s: State, n: nat, p: Ptr): (s': State)
    requires Shape(s) && n < |s.words| && ValidPtr(|s.words|, p)
    ensures Shape(s')
  {
    s.(nexts := s.nexts[n := p])
  }

  function SetHead(s: State, p: Ptr): (s': State)
    requires Shape(s) && ValidPtr(|s.words|, p)
    ensures Shape(s')
  {
    s.(head := p)
  }

  function SetOwner(s: State, n: nat, t: nat): (s': State)
    requires Shape(s) && n < |s.words|
    ensures Shape(s')
  {
    s.(owner := s.owner[n := t])
  }

  function Disown(s: State, n: nat): (s': State)
    requires Shape(s)
    ensures Shape(s')
  {
    s.(owner := s.owner - {n})
  }

  /** The head of `try_get`'s loop: a null head ends the call. */
  function Loop(seen: Ptr): PC
  {
    if seen == Null then Idle else GetRefs(seen.node)
  }

  function Back(ret: Return): PC
  {
    if ret.FromAdd? then Idle else Loop(ret.seen)
  }

  /** One atomic operation of thread `t`. */
  function Advance(s: State, t: nat): (s': State)
    requires Shape(s) && t < |s.pcs|
    ensures Shape(s')
  {
    assert ValidPC(|s.words|, s.pcs[t]);
    match s.pcs[t]
    case Idle => s
    case GetLoad => At(s, t, Loop(s.head))
    case GetRefs(n) => At(s, t, if Count(s.words[n]) == 0 then GetLoad else GetRetain(n, s.words[n]))
    case GetRetain(n, refs) =>
      if s.words[n] == refs then At(FetchAdd(s, n, 1), t, GetNext(n)) else At(s, t, GetLoad)
    case GetNext(n) => At(s, t, GetCas(n, s.nexts[n]))
    case GetCas(n, next) =>
      if s.head == To(n) then At(SetHead(s, next), t, GetClaim(n)) else At(s, t, GetRelease(n, s.head))
    case GetClaim(n) => At(FetchAdd(SetOwner(s, n, t), n, -2), t, Idle)
    case GetRelease(n, seen) =>
      At(FetchAdd(s, n, -1), t, if s.words[n] == FLAG + 1 then LinkLoad(n, IntoGet(seen)) else Loop(seen))
    case AddFlag(n) =>
      At(FetchAdd(s, n, FLAG), t, if s.words[n] == 0 then LinkLoad(n, FromAdd) else Idle)
    case LinkLoad(n, ret) => At(s, t, LinkNext(n, s.head, ret))
    case LinkNext(n, seen, ret) => At(SetNext(s, n, seen), t, LinkRefs(n, seen, ret))
    case LinkRefs(n, seen, ret) => At(SetWord(s, n, 1), t, LinkCas(n, seen, ret))
    case LinkCas(n, seen, ret) =>
      if s.head == seen then At(SetHead(s, To(n)), t, Back(ret)) else At(s, t, LinkBackOut(n, s.head, ret))
    case LinkBackOut(n, seen, ret) =>
      At(FetchAdd(s, n, FLAG - 1), t, if s.words[n] == 1 then LinkNext(n, seen, ret) else Back(ret))
  }

  /** An event that its guard does not allow leaves the state alone. */
  function Step(s: State, e: Event): (s': State)
    requires Shape(s)
    ensures Shape(s')
  {
    match e
    case CallGet(t) =>
      if t < |s.pcs| && s.pcs[t] == Idle then At(s, t, GetLoad) else s
    case CallAdd(t, n) =>
      if t < |s.pcs| && s.pcs[t] == Idle && n in s.owner && s.owner[n] == t
      then At(Disown(s, n), t, AddFlag(n)) else s
    case Pass(n, t, to) =>
      if n in s.owner && s.owner[n] == t && to < |s.pcs| then SetOwner(s, n, to) else s
    case Go(t) =>
      if t < |s.pcs| then Advance(s, t) else s
  }

  function Run(s: State, es: seq<Event>): (s': State)
    requires Shape(s)
    ensures Shape(s')
  {
    if es == [] then s else Step(Run(s, es[..|es| - 1]), es[|es| - 1])
  }

  /** An empty list: every block is owned by some thread and its word is zero. */
  predicate Init(s: State)
  {
    && Shape(s)
    && s.head == Null
    && (forall n | 0 <= n < |s.words| :: s.words[n] == 0 && n in s.owner && s.owner[n] < |s.pcs|)
    && (forall t | 0 <= t < |s.pcs| :: s.pcs[t] == Idle)
  }

  // ----- The invariant -----

  /** Where a block is. `Parked` is off the list with the flag set, waiting for the last thread
      that still holds a reference. */
  datatype Place =
    | OnList
    | Popping(t: nat)
    | Owned(t: nat)
    | Submitted(t: nat)
    | Parked
    | Linking(t: nat)

  /** The thread has counted itself in the reference word of `p.n`. */
  predicate Holding(p: PC)
  {
    p.GetNext? || p.GetCas? || p.GetClaim? || p.GetRelease?
  }

  predicate InLink(p: PC)
  {
    p.LinkLoad? || p.LinkNext? || p.LinkRefs? || p.LinkCas? || p.LinkBackOut?
  }

  /** The block a program point relies on, if any. */
  function Subject(p: PC): Ptr
  {
    if Holding(p) || InLink(p) || p.AddFlag? then To(p.n) else Null
  }

  function HoldsWeight(n: nat): PC -> nat
  {
    p => if Holding(p) && p.n == n then 1 else 0
  }

  /** How many threads have counted themselves in n's reference word. */
  function Holders(s: State, n: nat): nat
  {
    Sum(s.pcs, HoldsWeight(n))
  }

  function First(l: seq<nat>): Ptr
  {
    if l == [] then Null else To(l[0])
  }

  /** The blocks from the head along the links are exactly `l`. */
  predicate Chain(head: Ptr, nexts: seq<Ptr>, l: seq<nat>)
  {
    && head == First(l)
    && (forall i | 0 <= i < |l| :: l[i] < |nexts| && nexts[l[i]] == First(l[i + 1..]))
    && (forall i, j | 0 <= i < j < |l| :: l[i] != l[j])
  }

  predicate WordInv(place: Place, word: nat, held: nat)
  {
    match place
    case OnList => word == 1 + held
    case Popping(_) => word == 1 + held
    case Owned(_) => word == held
    case Submitted(_) => word == held
    case Parked => word == FLAG + held && held > 0
    case Linking(_) => word == 1 + held || (word == FLAG && held == 0)
  }

  /** What thread `u` at `p` knows about its block. */
  predicate ThreadInv(p: PC, u: nat, place: Place, word: nat, held: nat, next: Ptr)
  {
    match p
    case GetClaim(n) => place == Popping(u)
    case AddFlag(n) => place == Submitted(u)
    case LinkLoad(n, _) => place == Linking(u) && word == FLAG && held == 0
    case LinkNext(n, _, _) => place == Linking(u) && word == FLAG && held == 0
    case LinkRefs(n, seen, _) => place == Linking(u) && word == FLAG && held == 0 && next == seen
    case LinkCas(n, seen, _) => place == Linking(u) && word == 1 + held && next == seen
    case LinkBackOut(n, _, _) => place == Linking(u) && word == 1 + held
    case GetCas(n, seen) => next == seen
    case _ => true
  }

  /** The place of a block names a thread that is there. */
  predicate Backed(s: State, place: Place, n: nat)
  {
    match place
    case Popping(t) => t < |s.pcs| && s.pcs[t] == GetClaim(n)
    case Owned(t) => n in s.owner && s.owner[n] == t && t < |s.pcs|
    case Submitted(t) => t < |s.pcs| && s.pcs[t] == AddFlag(n)
    case Linking(t) => t < |s.pcs| && InLink(s.pcs[t]) && s.pcs[t].n == n
    case _ => true
  }

  predicate BlockInv(s: State, l: seq<nat>, place: Place, n: nat)
    requires Shape(s) && n < |s.words|
  {
    && WordInv(place, s.words[n], Holders(s, n))
    && Backed(s, place, n)
    && (n in s.owner ==> place.Owned?)
    && (place == OnList <==> n in l)
  }

  predicate PcInv(s: State, places: seq<Place>, t: nat)
    requires Shape(s) && |places| == |s.words| && t < |s.pcs|
  {
    var p := s.pcs[t];
    && (p.GetRetain? ==> Count(p.refs) != 0)
    && (Subject(p) != Null ==>
          p.n < |s.words| && ThreadInv(p, t, places[p.n], s.words[p.n], Holders(s, p.n), s.nexts[p.n]))
  }

  predicate Inv(s: State, l: seq<nat>, places: seq<Place>)
  {
    && Shape(s)
    && |places| == |s.words|
    && Chain(s.head, s.nexts, l)
    && (forall n | 0 <= n < |places| :: BlockInv(s, l, places[n], n))
    && (forall t | 0 <= t < |s.pcs| :: PcInv(s, places, t))
  }
}
