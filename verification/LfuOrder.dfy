/** The order kept by the LFU policy (`LFUCachePolicy` in lfu_cache_policy.hpp), as values.

    `frequency_storage` is a multimap: entries sorted by frequency. `emplace_hint` puts an entry as
    close as the order allows to the position just before the hint (section 26.2.6 of
    ISO/IEC 14882:2017), which decides where entries of equal frequency stand. */
module LfuOrder {
  datatype Entry<K> = Entry(freq: nat, key: K)

  /** Number of entries below `f` in a sorted list: its lower bound. */
  function LowerBound<K>(l: seq<Entry<K>>, f: nat): (p: nat)
    ensures p <= |l|
    ensures forall i | 0 <= i < p :: l[i].freq < f
    ensures p < |l| ==> f <= l[p].freq
  {
    if l == [] || f <= l[0].freq then 0 else 1 + LowerBound(l[1..], f)
  }

  /** Number of entries up to `f` in a sorted list: its upper bound. */
  function UpperBound<K>(l: seq<Entry<K>>, f: nat): (p: nat)
    ensures p <= |l|
    ensures forall i | 0 <= i < p :: l[i].freq <= f
    ensures p < |l| ==> f < l[p].freq
  {
    if l == [] || f < l[0].freq then 0 else 1 + UpperBound(l[1..], f)
  }

  /** Where `emplace_hint` puts frequency `f`, with an iterator to position `hint`. */
  function HintPosition<K>(l: seq<Entry<K>>, hint: nat, f: nat): (p: nat)
    requires hint <= |l|
    ensures p <= |l|
  {
    if hint < LowerBound(l, f) then LowerBound(l, f)
    else if hint > UpperBound(l, f) then UpperBound(l, f)
    else hint
  }

  function InsertAt<T>(l: seq<T>, p: nat, x: T): seq<T>
    requires p <= |l|
  {
    l[..p] + [x] + l[p..]
  }

  function RemoveAt<T>(l: seq<T>, p: nat): seq<T>
    requires p < |l|
  {
    l[..p] + l[p + 1..]
  }

  function EmplaceHint<K>(l: seq<Entry<K>>, hint: nat, e: Entry<K>): seq<Entry<K>>
    requires hint <= |l|
  {
    InsertAt(l, HintPosition(l, hint, e.freq), e)
  }

  /** Position of the entry of `k`, or the length if there is none. */
  function Find<K(==)>(l: seq<Entry<K>>, k: K): (p: nat)
    ensures p <= |l|
    ensures p < |l| ==> l[p].key == k
    ensures forall i | 0 <= i < p :: l[i].key != k
  {
    if l == [] || l[0].key == k then 0 else 1 + Find(l[1..], k)
  }

  predicate Has<K(==)>(l: seq<Entry<K>>, k: K)
  {
    exists i :: 0 <= i < |l| && l[i].key == k
  }

  /** `Insert`: frequency 1, with the beginning as hint. */
  function Inserted<K>(l: seq<Entry<K>>, k: K): seq<Entry<K>>
  {
    EmplaceHint(l, 0, Entry(1, k))
  }

  function Erased<K(==)>(l: seq<Entry<K>>, k: K): seq<Entry<K>>
    requires Has(l, k)
  {
    RemoveAt(l, Find(l, k))
  }

  /** `Touch`: the entry goes out and comes back one higher, with the end as hint. */
  function Touched<K(==)>(l: seq<Entry<K>>, k: K): seq<Entry<K>>
    requires Has(l, k)
  {
    var rest := Erased(l, k);
    EmplaceHint(rest, |rest|, Entry(l[Find(l, k)].freq + 1, k))
  }

  // ----- Histories -----

  datatype Event<K> =
    | Insert(key: K)
    | Touch(key: K)
    | Erase(key: K)

  /** The keys a history leaves in the policy. */
  function Live<K(==)>(h: seq<Event<K>>): set<K>
  {
    if h == [] then {}
    else
      var before, e := Live(h[..|h| - 1]), h[|h| - 1];
      if e.Erase? then before - {e.key} else before + {e.key}
  }

  /** How the cache uses the policy: it inserts keys that are absent, touches and erases keys that
      are present. */
  predicate Legal<K(==)>(h: seq<Event<K>>)
  {
    h == [] ||
    (Legal(h[..|h| - 1]) && (h[|h| - 1].Insert? <==> h[|h| - 1].key !in Live(h[..|h| - 1])))
  }

  /** One plus the touches of `k` since it was last inserted. */
  function Uses<K(==)>(h: seq<Event<K>>, k: K): nat
  {
    if h == [] then 0
    else
      var e := h[|h| - 1];
      if e.key != k then Uses(h[..|h| - 1], k)
      else match e { case Insert(_) => 1 case Touch(_) => Uses(h[..|h| - 1], k) + 1 case Erase(_) => 0 }
  }

  /** When `k` came to its present frequency: the place of its last event in the history. */
  function Arrival<K(==)>(h: seq<Event<K>>, k: K): nat
  {
    if h == [] then 0 else if h[|h| - 1].key == k then |h| else Arrival(h[..|h| - 1], k)
  }

  /** `a` is evicted before `b`: fewer uses; among keys used once the newest, among keys used more
      often the one that has been at that frequency longest. */
  predicate Precedes<K(==)>(h: seq<Event<K>>, a: K, b: K)
  {
    || Uses(h, a) < Uses(h, b)
    || (Uses(h, a) == Uses(h, b) == 1 && Arrival(h, a) > Arrival(h, b))
    || (Uses(h, a) == Uses(h, b) > 1 && Arrival(h, a) < Arrival(h, b))
  }

  function After<K(==)>(l: seq<Entry<K>>, e: Event<K>): seq<Entry<K>>
  {
    match e
    case Insert(k) => Inserted(l, k)
    case Touch(k) => if Has(l, k) then Touched(l, k) else l
    case Erase(k) => if Has(l, k) then Erased(l, k) else l
  }

  /** What the policy's operations make of a legal history. */
  function Replay<K(==)>(h: seq<Event<K>>): seq<Entry<K>>
  {
    if h == [] then [] else After(Replay(h[..|h| - 1]), h[|h| - 1])
  }

  /** What `ReplCandidate` returns: the key at the beginning. */
  function Victim<K(==)>(h: seq<Event<K>>): K
    requires Replay(h) != []
  {
    Replay(h)[0].key
  }

  /** One more legal call. */
  lemma Append<K>(h: seq<Event<K>>, e: Event<K>)
    requires Legal(h) && (e.Insert? <==> e.key !in Live(h))
    ensures Legal(h + [e])
    ensures Live(h + [e]) == if e.Erase? then Live(h) - {e.key} else Live(h) + {e.key}
    ensures Replay(h + [e]) == After(Replay(h), e)
  {
    hide After;
    assert (h + [e])[..|h + [e]| - 1] == h;
  }

  ghost predicate Ordered<K(!new)>(l: seq<Entry<K>>, h: seq<Event<K>>)
  {
    && (forall i | 0 <= i < |l| :: l[i].freq == Uses(h, l[i].key) >= 1)
    && (forall i, j | 0 <= i < j < |l| :: l[i].key != l[j].key && Precedes(h, l[i].key, l[j].key))
  }

  /** The list is the live keys, each once, with their uses, in eviction order. */
  ghost predicate Faithful<K(!new)>(l: seq<Entry<K>>, h: seq<Event<K>>)
  {
    && (forall i | 0 <= i < |l| :: l[i].key in Live(h))
    && (forall k | k in Live(h) :: Has(l, k))
    && Ordered(l, h)
  }

  // ----- The order guarantee -----

  lemma {:induction false} ArrivalBound<K>(h: seq<Event<K>>, k: K)
    ensures Arrival(h, k) <= |h|
  {
    if h != [] { ArrivalBound(h[..|h| - 1], k); }
  }

  /** What one more event changes for key `k`. */
  lemma Extend<K>(h: seq<Event<K>>, e: Event<K>, k: K)
    ensures Live(h + [e]) == if e.Erase? then Live(h) - {e.key} else Live(h) + {e.key}
    ensures k != e.key ==> Uses(h + [e], k) == Uses(h, k) && Arrival(h + [e], k) == Arrival(h, k)
    ensures Uses(h + [e], e.key)
         == match e { case Insert(_) => 1 case Touch(_) => Uses(h, e.key) + 1 case Erase(_) => 0 }
    ensures Arrival(h + [e], e.key) == |h| + 1 && Arrival(h, k) <= |h|
  {
    assert (h + [e])[..|h + [e]| - 1] == h;
    ArrivalBound(h, k);
  }

  lemma ExtendAll<K(!new)>(h: seq<Event<K>>, e: Event<K>)
    ensures Live(h + [e]) == if e.Erase? then Live(h) - {e.key} else Live(h) + {e.key}
    ensures Uses(h + [e], e.key)
         == match e { case Insert(_) => 1 case Touch(_) => Uses(h, e.key) + 1 case Erase(_) => 0 }
    ensures Arrival(h + [e], e.key) == |h| + 1
    ensures forall k | k != e.key :: Uses(h + [e], k) == Uses(h, k)
    ensures forall k | k != e.key :: Arrival(h + [e], k) == Arrival(h, k)
    ensures forall k :: Arrival(h, k) <= |h|
  {
    Extend(h, e, e.key);
    forall k ensures Arrival(h, k) <= |h| { Extend(h, e, k); }
    forall k | k != e.key ensures Uses(h + [e], k) == Uses(h, k) { Extend(h, e, k); }
    forall k | k != e.key ensures Arrival(h + [e], k) == Arrival(h, k) { Extend(h, e, k); }
  }

  lemma HasAfterInsert<K>(l: seq<Entry<K>>, p: nat, e: Entry<K>, k: K)
    requires p <= |l|
    ensures Has(InsertAt(l, p, e), k) <==> Has(l, k) || e.key == k
  {
    var l' := InsertAt(l, p, e);
    assert l'[p] == e;
    if Has(l, k) {
      var i :| 0 <= i < |l| && l[i].key == k;
      assert l'[if i < p then i else i + 1] == l[i];
    }
  }

  lemma HasAfterRemove<K>(l: seq<Entry<K>>, p: nat, k: K)
    requires p < |l| && k != l[p].key
    ensures Has(RemoveAt(l, p), k) <==> Has(l, k)
  {
    var l' := RemoveAt(l, p);
    if Has(l, k) {
      var i :| 0 <= i < |l| && l[i].key == k;
      assert l'[if i < p then i else i - 1] == l[i];
    }
  }

  lemma OrderedWithout<K(!new)>(l: seq<Entry<K>>, h: seq<Event<K>>, p: nat)
    requires Ordered(l, h) && p < |l|
    ensures Ordered(RemoveAt(l, p), h)
    ensures forall i | 0 <= i < |RemoveAt(l, p)| :: RemoveAt(l, p)[i].key != l[p].key
  {
    hide Uses, Arrival, Precedes;
    var l' := RemoveAt(l, p);
    forall i, j | 0 <= i < j < |l'| ensures l'[i].key != l'[j].key && Precedes(h, l'[i].key, l'[j].key) {
      var i', j' := if i < p then i else i + 1, if j < p then j else j + 1;
      assert l'[i] == l[i'] && l'[j] == l[j'];
    }
  }

  /** An event about another key leaves the order of these. */
  lemma OrderedLater<K(!new)>(l: seq<Entry<K>>, h: seq<Event<K>>, e: Event<K>)
    requires Ordered(l, h) && forall i | 0 <= i < |l| :: l[i].key != e.key
    ensures Ordered(l, h + [e])
  {
    hide Uses, Arrival;
    ExtendAll(h, e);
  }

  lemma OrderedWith<K(!new)>(l: seq<Entry<K>>, h: seq<Event<K>>, p: nat, e: Entry<K>)
    requires Ordered(l, h) && p <= |l| && e.freq == Uses(h, e.key) >= 1
    requires forall i | 0 <= i < |l| :: l[i].key != e.key
    requires forall i | 0 <= i < p :: Precedes(h, l[i].key, e.key)
    requires forall i | p <= i < |l| :: Precedes(h, e.key, l[i].key)
    ensures Ordered(InsertAt(l, p, e), h)
  {
    hide Uses, Arrival, Precedes;
    var l' := InsertAt(l, p, e);
    assert forall i | 0 <= i < |l'| :: l'[i] == if i < p then l[i] else if i == p then e else l[i - 1];
  }

  lemma FaithfulAfterInsert<K(!new)>(l: seq<Entry<K>>, h: seq<Event<K>>, k: K)
    requires Faithful(l, h) && k !in Live(h)
    ensures Faithful(Inserted(l, k), h + [Insert(k)])
  {
    hide Uses, Arrival, Live, LowerBound, UpperBound;
    var h', l' := h + [Insert(k)], Inserted(l, k);
    ExtendAll(h, Insert(k));
    OrderedLater(l, h, Insert(k));
    assert l != [] ==> l[0].freq >= 1;
    assert l' == InsertAt(l, 0, Entry(1, k));
    OrderedWith(l, h', 0, Entry(1, k));
    forall x | x in Live(h') ensures Has(l', x) {
      HasAfterInsert(l, 0, Entry(1, k), x);
    }
  }

  lemma FaithfulAfterErase<K(!new)>(l: seq<Entry<K>>, h: seq<Event<K>>, k: K)
    requires Faithful(l, h) && k in Live(h)
    ensures Has(l, k) && Faithful(Erased(l, k), h + [Erase(k)])
  {
    hide Uses, Arrival, Live, Find, Precedes;
    ExtendAll(h, Erase(k));
    OrderedWithout(l, h, Find(l, k));
    var h', l' := h + [Erase(k)], Erased(l, k);
    OrderedLater(l', h, Erase(k));
    forall x | x in Live(h') ensures Has(l', x) {
      HasAfterRemove(l, Find(l, k), x);
    }
  }

  /** The multimap stays sorted. */
  lemma SortedByFrequency<K(!new)>(l: seq<Entry<K>>, h: seq<Event<K>>)
    requires Ordered(l, h)
    ensures forall i, j | 0 <= i < j < |l| :: l[i].freq <= l[j].freq
  {
    hide Uses, Arrival;
    forall i, j | 0 <= i < j < |l| ensures l[i].freq <= l[j].freq {
      assert Precedes(h, l[i].key, l[j].key);
    }
  }

  /** With the end as hint an entry goes to its upper bound. */
  lemma HintAtEnd<K>(l: seq<Entry<K>>, f: nat)
    ensures HintPosition(l, |l|, f) == UpperBound(l, f)
  {
  }

  lemma OrderedCounts<K(!new)>(l: seq<Entry<K>>, h: seq<Event<K>>)
    requires Ordered(l, h)
    ensures forall i | 0 <= i < |l| :: l[i].freq == Uses(h, l[i].key) >= 1
  {
    hide Uses, Arrival;
  }

  /** A touched key goes behind all keys with as many uses, and before those with more. */
  lemma TouchedStands<K(!new)>(rest: seq<Entry<K>>, h': seq<Event<K>>, k: K, f: nat)
    requires Ordered(rest, h') && Uses(h', k) == f >= 2
    requires forall i | 0 <= i < |rest| :: Arrival(h', rest[i].key) < Arrival(h', k) && rest[i].key != k
    ensures Ordered(InsertAt(rest, UpperBound(rest, f), Entry(f, k)), h')
  {
    hide Uses, Arrival, LowerBound, UpperBound;
    var q := UpperBound(rest, f);
    SortedByFrequency(rest, h');
    OrderedCounts(rest, h');
    hide Ordered;
    assert forall i | 0 <= i < q :: Precedes(h', rest[i].key, k);
    assert forall i | q <= i < |rest| :: Precedes(h', k, rest[i].key);
    hide Precedes;
    OrderedWith(rest, h', q, Entry(f, k));
  }

  lemma FaithfulAfterTouch<K(!new)>(l: seq<Entry<K>>, h: seq<Event<K>>, k: K)
    requires Faithful(l, h) && k in Live(h)
    ensures Has(l, k) && Faithful(Touched(l, k), h + [Touch(k)])
  {
    hide Uses, Arrival, Live, Find, UpperBound, Ordered, HintPosition, InsertAt, RemoveAt;
    ExtendAll(h, Touch(k));
    var h', p := h + [Touch(k)], Find(l, k);
    var rest, f := Erased(l, k), l[p].freq + 1;
    var q := UpperBound(rest, f);
    assert l[p].freq == Uses(h, k) >= 1 by { OrderedCounts(l, h); }
    OrderedWithout(l, h, p);
    OrderedLater(rest, h, Touch(k));
    TouchedStands(rest, h', k, f);
    HintAtEnd(rest, f);
    assert Touched(l, k) == InsertAt(rest, q, Entry(f, k));
    forall x ensures Has(Touched(l, k), x) <==> x in Live(h') {
      HasAfterInsert(rest, q, Entry(f, k), x);
      if x != k { HasAfterRemove(l, p, x); }
    }
  }

  lemma NothingFaithful<K(!new)>()
    ensures Faithful<K>([], [])
  {
  }

  lemma {:induction false} ReplayFaithful<K(!new)>(h: seq<Event<K>>)
    requires Legal(h)
    ensures Faithful(Replay(h), h)
  {
    hide Faithful, Live, Inserted, Touched, Erased, Has;
    if h == [] {
      NothingFaithful<K>();
    } else {
      var before, e := h[..|h| - 1], h[|h| - 1];
      ReplayFaithful(before);
      assert h == before + [e];
      match e
      case Insert(k) => FaithfulAfterInsert(Replay(before), before, k);
      case Touch(k) => FaithfulAfterTouch(Replay(before), before, k);
      case Erase(k) => FaithfulAfterErase(Replay(before), before, k);
    }
  }

  /** Over any legal history every key's stored frequency is one plus its touches since it was
      inserted, and the list is sorted by frequency. */
  lemma FrequenciesCountUses<K(!new)>(h: seq<Event<K>>, k: K)
    requires Legal(h) && k in Live(h)
    ensures Has(Replay(h), k) && Replay(h)[Find(Replay(h), k)].freq == Uses(h, k)
    ensures forall i, j | 0 <= i < j < |Replay(h)| :: Replay(h)[i].freq <= Replay(h)[j].freq
  {
    hide Uses, Arrival, Replay, Live;
    ReplayFaithful(h);
    SortedByFrequency(Replay(h), h);
  }

  /** The candidate for eviction is decided by the history alone: it has the fewest uses, the newest
      insertion wins a tie at one use and the earliest arrival a tie at more. */
  lemma VictimPrecedesAll<K(!new)>(h: seq<Event<K>>, k: K)
    requires Legal(h) && k in Live(h)
    ensures Replay(h) != [] && Replay(h)[0].key in Live(h)
    ensures k != Replay(h)[0].key ==> Precedes(h, Replay(h)[0].key, k) && !Precedes(h, k, Replay(h)[0].key)
  {
    hide Uses, Arrival, Replay, Live;
    ReplayFaithful(h);
    var i :| 0 <= i < |Replay(h)| && Replay(h)[i].key == k;
    if i > 0 { assert Precedes(h, Replay(h)[0].key, Replay(h)[i].key); }
  }

  /** A key not live has no entry: nothing stale is left behind. */
  lemma OnlyLiveKeysListed<K(!new)>(h: seq<Event<K>>, i: nat, j: nat)
    requires Legal(h) && i < |Replay(h)| && j < |Replay(h)|
    ensures Replay(h)[i].key in Live(h)
    ensures i != j ==> Replay(h)[i].key != Replay(h)[j].key
  {
    hide Uses, Arrival, Replay, Live, Precedes;
    ReplayFaithful(h);
  }
}
