/** The LRU cache: a map from keys to list nodes, and the list in order of use. */
module LruCache {
  import opened Collections
  import opened LinkedList
  import opened Recency

  function EntriesOf<K, V>(nodes: seq<Node<K, V>>): (r: seq<Entry<K, V>>)
    ensures |r| == |nodes| && forall i :: 0 <= i < |r| ==> r[i] == Entry(nodes[i].key, nodes[i].value)
  {
    seq(|nodes|, (i: nat) requires i < |nodes| => Entry(nodes[i].key, nodes[i].value))
  }

  /** The map and the list hold the same nodes, each under its own key. */
  ghost predicate Agree<K, V>(cache: map<K, Node<K, V>>, nodes: seq<Node<K, V>>) {
    && (forall i :: 0 <= i < |nodes| ==> nodes[i].key in cache && cache[nodes[i].key] == nodes[i])
    && (forall k :: k in cache ==> cache[k] in nodes && cache[k].key == k)
  }

  lemma {:induction false} AgreeDrop<K, V>(cache: map<K, Node<K, V>>, nodes: seq<Node<K, V>>, i: nat)
    requires Agree(cache, nodes) && Distinct(nodes) && i < |nodes|
    ensures Agree(cache - {nodes[i].key}, Without(nodes, i)) && Distinct(Without(nodes, i))
  {
    DistinctDrop(nodes, i);
    var rest, cache' := Without(nodes, i), cache - {nodes[i].key};
    forall j | 0 <= j < |rest| ensures rest[j].key in cache' && cache'[rest[j].key] == rest[j] {
      assert rest[j] == nodes[if j < i then j else j + 1];
    }
    forall k | k in cache' ensures cache'[k] in rest && cache'[k].key == k {
      var j :| 0 <= j < |nodes| && nodes[j] == cache[k];
      assert j != i;
      assert rest[if j < i then j else j - 1] == nodes[j];
    }
  }

  lemma {:induction false} AgreePush<K, V>(cache: map<K, Node<K, V>>, nodes: seq<Node<K, V>>, n: Node<K, V>)
    requires Agree(cache, nodes) && n.key !in cache
    ensures Agree(cache[n.key := n], nodes + [n])
  {
    var all, cache' := nodes + [n], cache[n.key := n];
    forall k | k in cache' ensures cache'[k] in all && cache'[k].key == k {
      if k != n.key {
        assert cache[k] in nodes;
      }
    }
  }

  /** So the map has as many keys as the list has nodes. */
  lemma {:induction false} AgreeSize<K, V>(cache: map<K, Node<K, V>>, nodes: seq<Node<K, V>>)
    requires Agree(cache, nodes) && Distinct(nodes)
    ensures |cache| == |nodes|
    decreases |nodes|
  {
    if nodes == [] {
      assert forall k :: k in cache ==> cache[k] in nodes;
      assert cache == map[];
    } else {
      var k := nodes[0].key;
      AgreeDrop(cache, nodes, 0);
      AgreeSize(cache - {k}, Without(nodes, 0));
      assert cache == (cache - {k})[k := nodes[0]];
    }
  }

  /** The list position of a key is that of its entry. */
  lemma {:induction false} Position<K, V>(cache: map<K, Node<K, V>>, nodes: seq<Node<K, V>>, k: K)
    requires Agree(cache, nodes)
    ensures k in cache <==> IndexOf(EntriesOf(nodes), k) >= 0
    ensures k in cache ==> nodes[IndexOf(EntriesOf(nodes), k)] == cache[k]
  {
    hide IndexOf;
    var s := EntriesOf(nodes);
    var i := IndexOf(s, k);
    if k in cache {
      var j :| 0 <= j < |nodes| && nodes[j] == cache[k];
      assert s[j].key == k;
    }
  }

  lemma EntriesTouched<K, V>(nodes: seq<Node<K, V>>, i: nat)
    requires i < |nodes|
    ensures EntriesOf(Without(nodes, i)) == Without(EntriesOf(nodes), i)
    ensures EntriesOf(Touched(nodes, i)) == Touched(EntriesOf(nodes), i)
  {
  }

  lemma EntriesPruned<K, V>(l: Limits, nodes: seq<Node<K, V>>, n: Node<K, V>)
    ensures EntriesOf(Pruned(l, nodes + [n])) == Pruned(l, EntriesOf(nodes) + [Entry(n.key, n.value)])
    ensures var r := Pruned(l, nodes + [n]); r != [] && r[|r| - 1] == n
  {
    assert EntriesOf(nodes + [n]) == EntriesOf(nodes) + [Entry(n.key, n.value)];
  }

  lemma HasLast<K, V>(cache: map<K, Node<K, V>>, nodes: seq<Node<K, V>>)
    requires Agree(cache, nodes) && nodes != []
    ensures nodes[|nodes| - 1].key in cache
  {
  }

  lemma {:induction false} AgreeTouched<K, V>(cache: map<K, Node<K, V>>, nodes: seq<Node<K, V>>, i: nat)
    requires Agree(cache, nodes) && Distinct(nodes) && i < |nodes|
    ensures Agree(cache, Touched(nodes, i))
  {
    var n := nodes[i];
    AgreeDrop(cache, nodes, i);
    AgreePush(cache - {n.key}, Without(nodes, i), n);
    assert (cache - {n.key})[n.key := n] == cache;
  }

  lemma ApplyRemove<K, V>(l: Limits, s: seq<Entry<K, V>>, k: K)
    ensures Apply(l, s, Op.Remove(k)) == var i := IndexOf(s, k); if i >= 0 then Without(s, i) else s
  {
  }

  class LruCache<K(==), V> {
    var cache: map<K, Node<K, V>>
    const keys: List<K, V>
    const limits: Limits

    ghost predicate Consistent()
      reads this, keys, keys.nodes
    {
      keys.Valid() && Agree(cache, keys.nodes)
    }

    ghost predicate Valid()
      reads this, keys, keys.nodes
    {
      Consistent() && SizeOk(limits, |keys.nodes|)
    }

    ghost function Entries(): seq<Entry<K, V>>
      reads this, keys
    {
      EntriesOf(keys.nodes)
    }

    constructor (maxSize: nat, elasticity: nat)
      ensures Valid() && fresh(keys) && Entries() == [] && limits == Limits(maxSize, elasticity)
    {
      limits := Limits(maxSize, elasticity);
      cache := map[];
      keys := new List();
    }

    /** Moves the node of a key to the end of the list. */
    method Touch(key: K)
      requires Consistent() && key in cache
      modifies keys, keys.nodes
      ensures Consistent() && keys.nodes == Touched(old(keys.nodes), IndexOf(old(Entries()), key))
    {
      hide Agree, List.Valid, Distinct, IndexOf;
      ghost var i := IndexOf(Entries(), key);
      Position(cache, keys.nodes, key);
      DistinctDrop(keys.nodes, i);
      AgreeTouched(cache, keys.nodes, i);
      keys.Remove(cache[key], i);
      keys.Push(cache[key]);
    }

    method Insert(key: K, value: V)
      requires Valid()
      modifies this, keys, keys.nodes
      ensures Valid() && Entries() == Apply(limits, old(Entries()), Op.Insert(key, value))
      ensures key in cache
    {
      hide Agree, List.Valid, Distinct, IndexOf, SizeOk, Touched, Pruned;
      Position(cache, keys.nodes, key);
      ApplyBounded(limits, Entries(), Op.Insert(key, value));
      if key in cache {
        EntriesTouched(keys.nodes, IndexOf(Entries(), key));
        Touch(key);
      } else {
        InsertNew(key, value);
      }
    }

    /** A key that is not there: its node goes to the end, and the oldest ones may go. */
    method InsertNew(key: K, value: V)
      requires Consistent() && key !in cache
      modifies this, keys, keys.nodes
      ensures Consistent() && Entries() == Pruned(limits, old(Entries()) + [Entry(key, value)])
      ensures key in cache
    {
      hide Agree, List.Valid, Distinct, IndexOf, Pruned;
      ghost var was := keys.nodes;
      var n := new Node(key, value);
      AgreePush(cache, was, n);
      EntriesPruned(limits, was, n);
      cache := cache[key := n];
      keys.Push(n);
      var _ := Prune();
      HasLast(cache, keys.nodes);
    }

    method Get(key: K) returns (value: Option<V>)
      requires Valid()
      modifies keys, keys.nodes
      ensures Valid() && Entries() == Apply(limits, old(Entries()), Op.Get(key))
      ensures value == (var i := IndexOf(old(Entries()), key); if i >= 0 then Some(old(Entries())[i].value) else None)
    {
      hide Agree, List.Valid, Distinct, IndexOf;
      Position(cache, keys.nodes, key);
      if key !in cache {
        return None;
      }
      EntriesTouched(keys.nodes, IndexOf(Entries(), key));
      Touch(key);
      return Some(cache[key].value);
    }

    method Remove(key: K)
      requires Valid()
      modifies this, keys, keys.nodes
      ensures Valid() && Entries() == Apply(limits, old(Entries()), Op.Remove(key))
      ensures forall k :: k in cache <==> k in old(cache) && k != key
    {
      hide Agree, List.Valid, Distinct, IndexOf, Apply, Without, SizeOk;
      ghost var was, s := keys.nodes, Entries();
      Position(cache, was, key);
      ApplyRemove(limits, s, key);
      ApplyBounded(limits, s, Op.Remove(key));
      if key in cache {
        ghost var i := IndexOf(s, key);
        EntriesTouched(was, i);
        AgreeDrop(cache, was, i);
        keys.Remove(cache[key], i);
        cache := cache - {key};
      }
    }

    method Contains(key: K) returns (r: bool)
      requires Valid()
      ensures r <==> IndexOf(Entries(), key) >= 0
    {
      Position(cache, keys.nodes, key);
      r := key in cache;
    }

    /** Pops and erases the oldest node. */
    method PruneOne()
      requires Consistent() && keys.nodes != []
      modifies this, keys, keys.nodes
      ensures Consistent() && keys.nodes == old(keys.nodes[1..])
    {
      hide Agree, List.Valid, Distinct;
      ghost var was := keys.nodes;
      AgreeDrop(cache, was, 0);
      assert Without(was, 0) == was[1..];
      var n := keys.Pop();
      cache := cache - {n.key};
    }

    /** Pops the oldest nodes above the limit once the slack is used up. */
    method Prune() returns (count: nat)
      requires Consistent()
      modifies this, keys, keys.nodes
      ensures Consistent() && keys.nodes == Pruned(limits, old(keys.nodes))
      ensures count == |old(keys.nodes)| - |keys.nodes|
    {
      hide Agree, List.Valid, Distinct, IndexOf;
      count := 0;
      ghost var was := keys.nodes;
      AgreeSize(cache, keys.nodes);
      if limits.maxSize > 0 && |cache| >= limits.maxSize + limits.elasticity {
        while |cache| > limits.maxSize
          invariant Consistent() && count <= |was| && keys.nodes == was[count..] && |cache| == |keys.nodes|
          invariant |was| >= limits.maxSize && |keys.nodes| >= limits.maxSize
          decreases |cache|
        {
          PruneOne();
          AgreeSize(cache, keys.nodes);
          count := count + 1;
        }
      }
    }
  }
}
