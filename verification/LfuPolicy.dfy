/** The LFU policy object (`LFUCachePolicy`): the multimap of frequencies and the index from keys to
    its entries, both updated in place. */
module LfuPolicy {
  import opened LfuOrder

  /** An entry of the multimap; a reference to it is an iterator. */
  class Node<K> {
    const freq: nat
    const key: K

    constructor (freq: nat, key: K)
      ensures this.freq == freq && this.key == key
    {
      this.freq, this.key := freq, key;
    }
  }

  /** What `frequency_storage.erase(iterator)` looks for. */
  function IndexOf<K>(nodes: seq<Node<K>>, node: Node<K>): (p: nat)
    ensures p <= |nodes|
    ensures p < |nodes| ==> nodes[p] == node
    ensures forall i | 0 <= i < p :: nodes[i] != node
  {
    if nodes == [] || nodes[0] == node then 0 else 1 + IndexOf(nodes[1..], node)
  }

  function Entries<K>(nodes: seq<Node<K>>): (l: seq<Entry<K>>)
    ensures |l| == |nodes|
    ensures forall i | 0 <= i < |l| :: l[i] == Entry(nodes[i].freq, nodes[i].key)
  {
    seq(|nodes|, i requires 0 <= i < |nodes| => Entry(nodes[i].freq, nodes[i].key))
  }

  /** The two containers mirror each other: each entry is where the index says its key is. */
  ghost predicate Mirrored<K(!new)>(nodes: seq<Node<K>>, index: map<K, Node<K>>)
  {
    && (forall i, j | 0 <= i < j < |nodes| :: nodes[i] != nodes[j])
    && (forall i | 0 <= i < |nodes| :: nodes[i].key in index && index[nodes[i].key] == nodes[i])
    && (forall k | k in index :: index[k].key == k && index[k] in nodes)
  }

  lemma IndexFindsEntry<K(!new)>(nodes: seq<Node<K>>, index: map<K, Node<K>>, k: K)
    requires Mirrored(nodes, index) && k in index
    ensures IndexOf(nodes, index[k]) < |nodes|
    ensures IndexOf(nodes, index[k]) == Find(Entries(nodes), k) && Has(Entries(nodes), k)
  {
    var p, q := IndexOf(nodes, index[k]), Find(Entries(nodes), k);
    if q < |nodes| { assert nodes[q].key == k; }
  }

  lemma EntriesRemoved<K>(nodes: seq<Node<K>>, p: nat)
    requires p < |nodes|
    ensures Entries(RemoveAt(nodes, p)) == RemoveAt(Entries(nodes), p)
  {
  }

  lemma EntriesInserted<K>(nodes: seq<Node<K>>, p: nat, node: Node<K>)
    requires p <= |nodes|
    ensures Entries(InsertAt(nodes, p, node)) == InsertAt(Entries(nodes), p, Entry(node.freq, node.key))
  {
  }

  lemma MirroredWithout<K(!new)>(nodes: seq<Node<K>>, index: map<K, Node<K>>, p: nat)
    requires Mirrored(nodes, index) && p < |nodes|
    ensures Mirrored(RemoveAt(nodes, p), index - {nodes[p].key})
  {
    var nodes' := RemoveAt(nodes, p);
    assert forall i | 0 <= i < |nodes'| :: nodes'[i] == nodes[if i < p then i else i + 1];
    forall x | x in index && x != nodes[p].key ensures index[x] in nodes' {
      var i :| 0 <= i < |nodes| && nodes[i] == index[x];
      assert nodes'[if i < p then i else i - 1] == nodes[i];
    }
  }

  lemma MirroredAfterErase<K(!new)>(nodes: seq<Node<K>>, index: map<K, Node<K>>, k: K)
    requires Mirrored(nodes, index) && k in index && IndexOf(nodes, index[k]) < |nodes|
    ensures Mirrored(RemoveAt(nodes, IndexOf(nodes, index[k])), index - {k})
    ensures Entries(RemoveAt(nodes, IndexOf(nodes, index[k]))) == Erased(Entries(nodes), k)
  {
    hide IndexOf, Entries, Find, RemoveAt;
    var p := IndexOf(nodes, index[k]);
    assert nodes[p] == index[k] && index[k].key == k;
    IndexFindsEntry(nodes, index, k);
    EntriesRemoved(nodes, p);
    MirroredWithout(nodes, index, p);
  }

  lemma MirroredAfterInsert<K(!new)>(nodes: seq<Node<K>>, index: map<K, Node<K>>, p: nat, node: Node<K>)
    requires Mirrored(nodes, index) && p <= |nodes| && node.key !in index
    ensures Mirrored(InsertAt(nodes, p, node), index[node.key := node])
  {
    var nodes' := InsertAt(nodes, p, node);
    forall i | 0 <= i < |nodes| ensures nodes[i] in nodes' && nodes[i].key != node.key {
      assert nodes'[if i < p then i else i + 1] == nodes[i];
    }
    assert nodes'[p] == node;
  }

  /** The entry a key had before is still listed, but the index no longer points at it. */
  lemma NotMirroredAfterReinsert<K(!new)>(nodes: seq<Node<K>>, index: map<K, Node<K>>, p: nat, node: Node<K>)
    requires Mirrored(nodes, index) && p <= |nodes| && node.key in index && node !in nodes
    ensures !Mirrored(InsertAt(nodes, p, node), index[node.key := node])
  {
    var i :| 0 <= i < |nodes| && nodes[i] == index[node.key];
    var nodes' := InsertAt(nodes, p, node);
    assert nodes'[if i < p then i else i + 1] == nodes[i];
  }

  class LfuCachePolicy<K(==, !new)> {
    var frequencyStorage: seq<Node<K>>
    var lfuStorage: map<K, Node<K>>

    /** The calls made so far. */
    ghost var history: seq<Event<K>>

    ghost predicate Valid()
      reads this
    {
      && Mirrored(frequencyStorage, lfuStorage)
      && Legal(history)
      && lfuStorage.Keys == Live(history)
      && Entries(frequencyStorage) == Replay(history)
    }

    constructor ()
      ensures Valid() && history == [] && lfuStorage == map[]
    {
      frequencyStorage, lfuStorage, history := [], map[], [];
    }

    /** Inserting a key that is already there leaves its old entry behind: the containers agree
        afterwards exactly if the key was absent. */
    method Insert(key: K)
      requires Valid()
      modifies this
      ensures Entries(frequencyStorage) == Inserted(old(Entries(frequencyStorage)), key)
      ensures lfuStorage.Keys == old(lfuStorage).Keys + {key}
      ensures history == old(history) + [LfuOrder.Insert(key)]
      ensures key !in old(lfuStorage) ==> Valid()
      ensures key in old(lfuStorage) ==> !Mirrored(frequencyStorage, lfuStorage)
    {
      hide Entries, HintPosition, InsertAt, Mirrored, Legal, Live, Replay;
      if key !in lfuStorage { Append(history, LfuOrder.Insert(key)); }
      var node := new Node(1, key);
      var p := HintPosition(Entries(frequencyStorage), 0, 1);
      EntriesInserted(frequencyStorage, p, node);
      if key !in lfuStorage {
        MirroredAfterInsert(frequencyStorage, lfuStorage, p, node);
      } else {
        NotMirroredAfterReinsert(frequencyStorage, lfuStorage, p, node);
      }
      frequencyStorage := InsertAt(frequencyStorage, p, node);
      lfuStorage := lfuStorage[key := node];
      history := history + [LfuOrder.Insert(key)];
    }

    method Touch(key: K)
      requires Valid() && key in lfuStorage
      modifies this
      ensures Valid() && history == old(history) + [LfuOrder.Touch(key)]
      ensures Entries(frequencyStorage) == Touched(old(Entries(frequencyStorage)), key)
      ensures lfuStorage.Keys == old(lfuStorage).Keys
    {
      hide Entries, HintPosition, InsertAt, RemoveAt, Mirrored, IndexOf, Find, Legal, Live, Replay;
      Append(history, LfuOrder.Touch(key));
      IndexFindsEntry(frequencyStorage, lfuStorage, key);
      MirroredAfterErase(frequencyStorage, lfuStorage, key);
      var elemForUpdate := lfuStorage[key];
      var updated := new Node(elemForUpdate.freq + 1, elemForUpdate.key);
      frequencyStorage := RemoveAt(frequencyStorage, IndexOf(frequencyStorage, elemForUpdate));
      var p := HintPosition(Entries(frequencyStorage), |frequencyStorage|, updated.freq);
      MirroredAfterInsert(frequencyStorage, lfuStorage - {key}, p, updated);
      EntriesInserted(frequencyStorage, p, updated);
      frequencyStorage := InsertAt(frequencyStorage, p, updated);
      assert lfuStorage[key := updated] == (lfuStorage - {key})[key := updated];
      lfuStorage := lfuStorage[key := updated];
      history := history + [LfuOrder.Touch(key)];
    }

    method Erase(key: K)
      requires Valid() && key in lfuStorage
      modifies this
      ensures Valid() && history == old(history) + [LfuOrder.Erase(key)]
      ensures Entries(frequencyStorage) == Erased(old(Entries(frequencyStorage)), key)
      ensures lfuStorage.Keys == old(lfuStorage).Keys - {key}
    {
      hide Entries, RemoveAt, Mirrored, IndexOf, Find, Legal, Live, Replay;
      Append(history, LfuOrder.Erase(key));
      IndexFindsEntry(frequencyStorage, lfuStorage, key);
      MirroredAfterErase(frequencyStorage, lfuStorage, key);
      frequencyStorage := RemoveAt(frequencyStorage, IndexOf(frequencyStorage, lfuStorage[key]));
      lfuStorage := lfuStorage - {key};
      history := history + [LfuOrder.Erase(key)];
    }

    /** The entry at the beginning; the policy must not be empty. */
    method ReplCandidate() returns (key: K)
      requires Valid() && lfuStorage != map[]
      ensures Replay(history) != [] && key in lfuStorage && key == Victim(history)
      ensures forall k | k in lfuStorage && k != key :: Precedes(history, key, k)
    {
      ghost var some :| some in lfuStorage;
      VictimPrecedesAll(history, some);
      key := frequencyStorage[0].key;
      assert Entries(frequencyStorage)[0].key == key;
      forall k | k in lfuStorage && k != key ensures Precedes(history, key, k) {
        VictimPrecedesAll(history, k);
      }
    }
  }
}
