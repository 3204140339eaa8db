/** The fixed-size cache with the LFU policy (`fixed_sized_cache` in cache.hpp). */
module Cache {
  import opened Basics
  import opened LfuOrder
  import opened LfuPolicy

  // ----- What the operations do, as values -----

  /** The stored pairs, the calls the policy has had, and the calls of the erase callback. */
  datatype Store<K, V> = Store(items: map<K, V>, history: seq<Event<K>>, callbacks: seq<(K, V)>)

  function Evict<K(==), V>(s: Store<K, V>, k: K): Store<K, V>
    requires k in s.items
  {
    Store(s.items - {k}, s.history + [Erase(k)], s.callbacks + [(k, s.items[k])])
  }

  /** The invariant of the cache as far as it can be seen in a store. */
  ghost predicate Sound<K(!new), V>(s: Store<K, V>, max: nat)
  {
    0 < max && |s.items| <= max && Legal(s.history) && s.items.Keys == Live(s.history)
  }

  ghost function MakeRoom<K(!new), V>(s: Store<K, V>, max: nat): (r: Store<K, V>)
    requires Sound(s, max)
    ensures Sound(r, max) && |r.items| < max
    ensures |s.items| < max ==> r == s
    ensures |s.items| == max ==>
              Replay(s.history) != [] && Victim(s.history) in s.items && r == Evict(s, Victim(s.history))
  {
    if |s.items| + 1 > max then
      assert s.items != map[];
      var some :| some in s.items;
      VictimPrecedesAll(s.history, some);
      var r := Evict(s, Victim(s.history));
      assert r.history[..|r.history| - 1] == s.history;
      assert |r.items.Keys| == |s.items.Keys - {Victim(s.history)}|;
      r
    else s
  }

  /** A full cache first evicts the policy's candidate; an overwrite counts as a use. */
  ghost function PutTo<K(!new), V>(s: Store<K, V>, max: nat, k: K, v: V): Store<K, V>
    requires Sound(s, max)
  {
    if k in s.items then Store(s.items[k := v], s.history + [Touch(k)], s.callbacks)
    else
      var room := MakeRoom(s, max);
      Store(room.items[k := v], room.history + [Insert(k)], room.callbacks)
  }

  function GetFrom<K(==), V>(s: Store<K, V>, k: K): Store<K, V>
  {
    if k in s.items then s.(history := s.history + [Touch(k)]) else s
  }

  function RemoveFrom<K(==), V>(s: Store<K, V>, k: K): Store<K, V>
  {
    if k in s.items then Evict(s, k) else s
  }

  lemma EntriesAreIndexed<K(!new)>(nodes: seq<Node<K>>, index: map<K, Node<K>>)
    requires Mirrored(nodes, index)
    ensures nodes != [] ==> nodes[0].key in index.Keys
  {
  }

  // ----- The object -----

  class FixedSizedCache<K(==, !new), V(==)> {
    var cacheItems: map<K, V>
    const cachePolicy: LfuCachePolicy<K>
    const maxCacheSize: nat

    /** The calls of `OnEraseCallback`, in order. */
    var callbacks: seq<(K, V)>

    ghost predicate Valid()
      reads this, cachePolicy
    {
      && cachePolicy.Valid()
      && cacheItems.Keys == cachePolicy.lfuStorage.Keys
      && 0 < maxCacheSize && |cacheItems| <= maxCacheSize
    }

    ghost function Contents(): Store<K, V>
      reads this, cachePolicy
    {
      Store(cacheItems, cachePolicy.history, callbacks)
    }

    constructor (maxSize: nat)
      requires maxSize > 0
      ensures Valid() && fresh(cachePolicy) && maxCacheSize == maxSize
      ensures Contents() == Store(map[], [], [])
    {
      cachePolicy := new LfuCachePolicy();
      cacheItems, maxCacheSize, callbacks := map[], maxSize, [];
    }

    /** The constructor's check: a cache of size zero is refused. */
    static method Create(maxSize: nat) returns (r: Option<FixedSizedCache<K, V>>)
      ensures r.None? <==> maxSize == 0
      ensures r.Some? ==> fresh(r.value) && fresh(r.value.cachePolicy) && r.value.Valid()
                          && r.value.maxCacheSize == maxSize && r.value.Contents() == Store(map[], [], [])
    {
      if maxSize == 0 {
        return None;
      }
      var c := new FixedSizedCache(maxSize);
      return Some(c);
    }

    method InsertElem(key: K, value: V)
      requires Valid() && key !in cacheItems && |cacheItems| < maxCacheSize
      modifies this, cachePolicy
      ensures Valid() && callbacks == old(callbacks)
      ensures cacheItems == old(cacheItems)[key := value]
      ensures cachePolicy.history == old(cachePolicy.history) + [Insert(key)]
    {
      hide Legal, Live, Replay, Mirrored, Entries, Inserted;
      cachePolicy.Insert(key);
      assert cacheItems[key := value].Keys == cacheItems.Keys + {key};
      cacheItems := cacheItems[key := value];
    }

    method UpdateElem(key: K, value: V)
      requires Valid() && key in cacheItems
      modifies this, cachePolicy
      ensures Valid() && callbacks == old(callbacks)
      ensures cacheItems == old(cacheItems)[key := value]
      ensures cachePolicy.history == old(cachePolicy.history) + [Touch(key)]
    {
      hide Legal, Live, Replay, Mirrored, Entries, Touched;
      cachePolicy.Touch(key);
      assert cacheItems[key := value].Keys == cacheItems.Keys;
      cacheItems := cacheItems[key := value];
    }

    /** `Erase`: out of the policy, the callback, out of the map. */
    method EraseElem(key: K)
      requires Valid() && key in cacheItems
      modifies this, cachePolicy
      ensures Valid() && Contents() == old(Evict(Contents(), key))
      ensures |cacheItems| == old(|cacheItems|) - 1
    {
      cachePolicy.Erase(key);
      callbacks := callbacks + [(key, cacheItems[key])];
      assert |(cacheItems - {key}).Keys| == |cacheItems.Keys - {key}|;
      cacheItems := cacheItems - {key};
    }

    method Put(key: K, value: V)
      requires Valid()
      modifies this, cachePolicy
      ensures Valid() && old(Sound(Contents(), maxCacheSize))
      ensures Contents() == old(PutTo(Contents(), maxCacheSize, key, value))
      ensures key in cacheItems && cacheItems[key] == value
    {
      hide Legal, Live, Replay, Mirrored, Entries, Precedes, Victim;
      ghost var was := Contents();
      if key !in cacheItems {
        if |cacheItems| + 1 > maxCacheSize {
          assert cacheItems != map[];
          var candidate := cachePolicy.ReplCandidate();
          EraseElem(candidate);
        }
        assert Contents() == MakeRoom(was, maxCacheSize);
        InsertElem(key, value);
      } else {
        UpdateElem(key, value);
      }
    }

    /** A missing key is the exception of the code. */
    method Get(key: K) returns (r: Option<V>)
      requires Valid()
      modifies cachePolicy
      ensures Valid() && Contents() == old(GetFrom(Contents(), key))
      ensures r == if key in cacheItems then Some(cacheItems[key]) else None
    {
      if key in cacheItems {
        cachePolicy.Touch(key);
        return Some(cacheItems[key]);
      }
      return None;
    }

    method Cached(key: K) returns (b: bool)
      ensures b <==> key in cacheItems
    {
      b := key in cacheItems;
    }

    method Size() returns (n: nat)
      ensures n == |cacheItems|
    {
      n := |cacheItems|;
    }

    method Remove(key: K) returns (found: bool)
      requires Valid()
      modifies this, cachePolicy
      ensures Valid() && Contents() == old(RemoveFrom(Contents(), key))
      ensures found <==> key in old(cacheItems)
      ensures cacheItems == old(cacheItems) - {key}
    {
      if key !in cacheItems {
        return false;
      }
      EraseElem(key);
      return true;
    }

    /** Empties the cache without any callback. */
    method Clear()
      requires Valid()
      modifies this, cachePolicy
      ensures Valid() && cacheItems == map[] && cachePolicy.frequencyStorage == []
      ensures callbacks == old(callbacks)
    {
      hide Legal, Live, Replay, Mirrored, Entries, Erased;
      var rest := cacheItems.Keys;
      while rest != {}
        invariant cachePolicy.Valid() && cachePolicy.lfuStorage.Keys == rest
        invariant cacheItems == old(cacheItems) && callbacks == old(callbacks)
        decreases |rest|
      {
        var key :| key in rest;
        cachePolicy.Erase(key);
        rest := rest - {key};
      }
      cacheItems := map[];
      EntriesAreIndexed(cachePolicy.frequencyStorage, cachePolicy.lfuStorage);
    }
  }

  // ----- Runs -----

  datatype Op<K, V> =
    | Put(key: K, value: V)
    | Get(key: K)
    | Remove(key: K)

  ghost function Apply<K(!new), V>(s: Store<K, V>, max: nat, op: Op<K, V>): Store<K, V>
    requires Sound(s, max)
  {
    match op
    case Put(k, v) => PutTo(s, max, k, v)
    case Get(k) => GetFrom(s, k)
    case Remove(k) => RemoveFrom(s, k)
  }

  lemma PutSound<K(!new), V>(s: Store<K, V>, max: nat, k: K, v: V)
    requires Sound(s, max)
    ensures Sound(PutTo(s, max, k, v), max)
  {
    hide Legal, Live, Replay, Victim, MakeRoom;
    if k in s.items {
      Append(s.history, Touch(k));
      assert s.items[k := v].Keys == s.items.Keys;
    } else {
      var room := MakeRoom(s, max);
      assert k !in room.items;
      Append(room.history, Insert(k));
      assert room.items[k := v].Keys == room.items.Keys + {k};
    }
  }

  lemma ApplySound<K(!new), V>(s: Store<K, V>, max: nat, op: Op<K, V>)
    requires Sound(s, max)
    ensures Sound(Apply(s, max, op), max)
  {
    hide Legal, Live, PutTo;
    match op
    case Put(k, v) => PutSound(s, max, k, v);
    case Get(k) => if k in s.items { Append(s.history, Touch(k)); }
    case Remove(k) =>
      if k in s.items {
        Append(s.history, Erase(k));
        assert (s.items - {k}).Keys == s.items.Keys - {k};
      }
  }

  ghost function Run<K(!new), V>(max: nat, ops: seq<Op<K, V>>): (s: Store<K, V>)
    requires max > 0
    ensures Sound(s, max)
  {
    if ops == [] then Store(map[], [], [])
    else
      ApplySound(Run(max, ops[..|ops| - 1]), max, ops[|ops| - 1]);
      Apply(Run(max, ops[..|ops| - 1]), max, ops[|ops| - 1])
  }

  /** The value of the last `Put` of a key. */
  function LastPut<K(==), V>(ops: seq<Op<K, V>>, k: K): Option<V>
  {
    if ops == [] then None
    else
      var op := ops[|ops| - 1];
      if op.Put? && op.key == k then Some(op.value) else LastPut(ops[..|ops| - 1], k)
  }

  /** Whatever was evicted in between, a hit returns the last value put for the key. */
  lemma {:induction false} HitReturnsLastPut<K(!new), V>(max: nat, ops: seq<Op<K, V>>, k: K)
    requires max > 0 && k in Run(max, ops).items
    ensures LastPut(ops, k) == Some(Run(max, ops).items[k])
  {
    hide Legal, Live, Replay, Victim;
    if ops != [] {
      var before, op := ops[..|ops| - 1], ops[|ops| - 1];
      if !(op.Put? && op.key == k) {
        HitReturnsLastPut(max, before, k);
      }
    }
  }

  /** A put stores its pair, whatever was in the cache. */
  lemma PutStores<K(!new), V>(max: nat, ops: seq<Op<K, V>>, k: K, v: V)
    requires max > 0
    ensures var s' := Run(max, ops + [Put(k, v)]); k in s'.items && s'.items[k] == v
  {
    hide Legal, Live, Replay, Victim;
    assert (ops + [Put(k, v)])[..|ops|] == ops;
  }

  /** Where the key was stored or there is room it changes nothing else and runs no callback. */
  lemma PutInRoom<K(!new), V>(max: nat, ops: seq<Op<K, V>>, k: K, v: V)
    requires max > 0 && (k in Run(max, ops).items || |Run(max, ops).items| < max)
    ensures var s, s' := Run(max, ops), Run(max, ops + [Put(k, v)]);
            s'.items == s.items[k := v] && s'.callbacks == s.callbacks
  {
    hide Legal, Live, Replay, Victim;
    assert (ops + [Put(k, v)])[..|ops|] == ops;
  }

  /** After a removal the key is gone, with one callback for the pair if it was stored, and every
      other pair stays; a get changes no pair and runs no callback. */
  lemma RemoveAndGet<K(!new), V>(max: nat, ops: seq<Op<K, V>>, k: K)
    requires max > 0
    ensures var s, s' := Run(max, ops), Run(max, ops + [Remove(k)]);
            && s'.items == s.items - {k}
            && s'.callbacks == s.callbacks + if k in s.items then [(k, s.items[k])] else []
    ensures var s, s' := Run(max, ops), Run(max, ops + [Get(k)]);
            s'.items == s.items && s'.callbacks == s.callbacks
  {
    hide Legal, Live, Replay, Victim;
    assert (ops + [Remove(k)])[..|ops|] == ops && (ops + [Get(k)])[..|ops|] == ops;
    assert k !in Run(max, ops).items ==> Run(max, ops).items - {k} == Run(max, ops).items;
  }

  /** One for the insertion and one for each later hit or overwrite, as long as the key stays. */
  ghost function CallsSinceInserted<K(!new), V>(max: nat, ops: seq<Op<K, V>>, k: K): nat
    requires max > 0
  {
    if ops == [] || k !in Run(max, ops).items then 0
    else CallsSinceInserted(max, ops[..|ops| - 1], k) + if ops[|ops| - 1].key == k then 1 else 0
  }

  /** The frequency the policy keeps for a key is the number of calls that used it. */
  lemma {:induction false} UsesAreCalls<K(!new), V>(max: nat, ops: seq<Op<K, V>>, k: K)
    requires max > 0 && k in Run(max, ops).items
    ensures Uses(Run(max, ops).history, k) == CallsSinceInserted(max, ops, k)
  {
    hide Legal, Live, Replay, Victim;
    if ops != [] {
      var before, op := ops[..|ops| - 1], ops[|ops| - 1];
      var s := Run(max, before);
      if k in s.items {
        UsesAreCalls(max, before, k);
      }
      match op
      case Put(x, v) =>
        if x in s.items {
          Extend(s.history, Touch(x), k);
        } else {
          var room := MakeRoom(s, max);
          if |s.items| == max { Extend(s.history, Erase(Victim(s.history)), k); }
          Extend(room.history, Insert(x), k);
        }
      case Get(x) => Extend(s.history, Touch(x), k);
      case Remove(x) => Extend(s.history, Erase(x), k);
    }
  }

  /** A put of a new key into a full cache drops exactly one key, one with the fewest calls since it
      was inserted, and of those the policy's choice; every other pair stays. */
  lemma PutEvictsLeastUsed<K(!new), V>(max: nat, ops: seq<Op<K, V>>, k: K, v: V, x: K) returns (victim: K)
    requires max > 0 && |Run(max, ops).items| == max && k !in Run(max, ops).items
    requires x in Run(max, ops).items
    ensures var s, s' := Run(max, ops), Run(max, ops + [Put(k, v)]);
            && victim in s.items
            && s'.items == (s.items - {victim})[k := v]
            && s'.callbacks == s.callbacks + [(victim, s.items[victim])]
            && (x != victim ==>
                  && CallsSinceInserted(max, ops, victim) <= CallsSinceInserted(max, ops, x)
                  && Precedes(s.history, victim, x))
  {
    hide Legal, Live, Replay, Uses;
    var s := Run(max, ops);
    assert (ops + [Put(k, v)])[..|ops|] == ops;
    VictimPrecedesAll(s.history, x);
    victim := Victim(s.history);
    UsesAreCalls(max, ops, x);
    UsesAreCalls(max, ops, victim);
  }

  /** Insertions of a key: the puts that found it absent. */
  function Insertions<K(==)>(h: seq<Event<K>>, k: K): nat
  {
    if h == [] then 0
    else Insertions(h[..|h| - 1], k) + if h[|h| - 1] == Insert(k) then 1 else 0
  }

  function CallbacksOf<K(==), V>(callbacks: seq<(K, V)>, k: K): nat
  {
    if callbacks == [] then 0
    else CallbacksOf(callbacks[..|callbacks| - 1], k) + if callbacks[|callbacks| - 1].0 == k then 1 else 0
  }

  lemma CountOneMore<K, V>(h: seq<Event<K>>, e: Event<K>, callbacks: seq<(K, V)>, c: (K, V), k: K)
    ensures Insertions(h + [e], k) == Insertions(h, k) + if e == Insert(k) then 1 else 0
    ensures CallbacksOf(callbacks + [c], k) == CallbacksOf(callbacks, k) + if c.0 == k then 1 else 0
  {
    assert (h + [e])[..|h + [e]| - 1] == h;
    assert (callbacks + [c])[..|callbacks + [c]| - 1] == callbacks;
  }

  /** The insertions and the callbacks of a key differ by whether it is stored. */
  predicate Settled<K(==), V>(s: Store<K, V>, k: K)
  {
    Insertions(s.history, k) == CallbacksOf(s.callbacks, k) + if k in s.items then 1 else 0
  }

  lemma EvictSettles<K(!new), V>(s: Store<K, V>, x: K, k: K)
    requires Settled(s, k) && x in s.items
    ensures Settled(Evict(s, x), k)
  {
    CountOneMore(s.history, Erase(x), s.callbacks, (x, s.items[x]), k);
  }

  lemma NothingCounted<K, V>(k: K)
    ensures Insertions<K>([], k) == 0 && CallbacksOf<K, V>([], k) == 0
  {
  }

  lemma OpSettles<K(!new), V>(s: Store<K, V>, max: nat, op: Op<K, V>, k: K)
    requires Sound(s, max) && Settled(s, k)
    ensures Settled(Apply(s, max, op), k)
  {
    hide Legal, Live, Replay, Victim, Insertions, CallbacksOf;
    match op
    case Put(x, v) =>
      if x in s.items {
        CountOneMore(s.history, Touch(x), s.callbacks, (x, v), k);
      } else {
        var room := MakeRoom(s, max);
        if |s.items| == max { EvictSettles(s, Victim(s.history), k); }
        CountOneMore(room.history, Insert(x), room.callbacks, (x, v), k);
      }
    case Get(x) =>
      if x in s.items { CountOneMore(s.history, Touch(x), s.callbacks, (x, s.items[x]), k); }
    case Remove(x) =>
      if x in s.items { EvictSettles(s, x, k); }
  }

  /** The erase callback runs once for each time a key leaves by eviction or removal, and never
      otherwise: every insertion is matched by one callback or by the key being still there. */
  lemma {:induction false} CallbackOncePerErasure<K(!new), V>(max: nat, ops: seq<Op<K, V>>, k: K)
    requires max > 0
    ensures var s := Run(max, ops);
            Insertions(s.history, k) == CallbacksOf(s.callbacks, k) + if k in s.items then 1 else 0
  {
    hide Legal, Live, Replay, Victim, Insertions, CallbacksOf;
    if ops == [] {
      NothingCounted<K, V>(k);
    } else {
      var before, op := ops[..|ops| - 1], ops[|ops| - 1];
      CallbackOncePerErasure(max, before, k);
      OpSettles(Run(max, before), max, op, k);
    }
  }
}
