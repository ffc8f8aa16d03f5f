/** The doubly linked list under the LRU cache: nodes with two pointers, unlinked and relinked
    in place. */
module LinkedList {
  import opened Collections

  function Neighbour<K, V>(n: Node?<K, V>): set<Node<K, V>> { if n == null then {} else {n} }

  class Node<K, V> {
    var prev: Node?<K, V>
    var next: Node?<K, V>
    const key: K
    const value: V

    constructor (key: K, value: V)
      ensures this.key == key && this.value == value && prev == null && next == null
    {
      this.key, this.value := key, value;
      prev, next := null, null;
    }

    /** Takes the node out from between its neighbours. */
    method Unlink()
      requires next != this && prev != this && (next != null ==> next != prev)
      modifies this, Neighbour(next)`prev, Neighbour(prev)`next
      ensures prev == null && next == null
      ensures old(next) != null ==> old(next).prev == old(prev)
      ensures old(prev) != null ==> old(prev).next == old(next)
    {
      if next != null {
        next.prev := prev;
      }
      if prev != null {
        prev.next := next;
      }
      next, prev := null, null;
    }
  }

  /** The node at a position, or null outside. */
  function At<K, V>(nodes: seq<Node<K, V>>, i: int): Node?<K, V> { if 0 <= i < |nodes| then nodes[i] else null }

  ghost predicate Distinct<K, V>(nodes: seq<Node<K, V>>) {
    forall i, j :: 0 <= i < j < |nodes| ==> nodes[i] != nodes[j]
  }

  ghost function Prevs<K, V>(nodes: seq<Node<K, V>>): (r: seq<Node?<K, V>>)
    reads nodes
    ensures |r| == |nodes| && forall i {:trigger r[i]} :: 0 <= i < |r| ==> r[i] == nodes[i].prev
  {
    seq(|nodes|, (i: nat) requires i < |nodes| reads nodes => nodes[i].prev)
  }

  ghost function Nexts<K, V>(nodes: seq<Node<K, V>>): (r: seq<Node?<K, V>>)
    reads nodes
    ensures |r| == |nodes| && forall i {:trigger r[i]} :: 0 <= i < |r| ==> r[i] == nodes[i].next
  {
    seq(|nodes|, (i: nat) requires i < |nodes| reads nodes => nodes[i].next)
  }

  /** The pointers lead from each node to its neighbours. */
  ghost predicate Linked<K, V>(nodes: seq<Node<K, V>>, prevs: seq<Node?<K, V>>, nexts: seq<Node?<K, V>>) {
    && |prevs| == |nodes| && |nexts| == |nodes|
    && (forall i :: 0 <= i < |prevs| ==> prevs[i] == At(nodes, i - 1))
    && (forall i :: 0 <= i < |nexts| ==> nexts[i] == At(nodes, i + 1))
  }

  /** A doubly linked chain of distinct nodes. */
  ghost predicate Chain<K, V>(nodes: seq<Node<K, V>>)
    reads nodes
    ensures Chain(nodes) ==> Distinct(nodes)
  {
    Distinct(nodes) && Linked(nodes, Prevs(nodes), Nexts(nodes))
  }

  /** Taking out position i, after its neighbours' pointers are turned past it. */
  lemma LinkedDrop<K, V>(nodes: seq<Node<K, V>>, prevs: seq<Node?<K, V>>, nexts: seq<Node?<K, V>>, i: nat)
    requires i < |nodes| && Linked(nodes, prevs, nexts)
    ensures Linked(Without(nodes, i), Without(Turned(prevs, i, i + 1), i), Without(Turned(nexts, i, i - 1), i))
  {
    var r, ps, ns := Without(nodes, i), Without(Turned(prevs, i, i + 1), i), Without(Turned(nexts, i, i - 1), i);
    forall j | 0 <= j < |r|
      ensures ps[j] == At(r, j - 1) && ns[j] == At(r, j + 1)
    {
      var j' := if j < i then j else j + 1;
      assert ps[j] == Turned(prevs, i, i + 1)[j'] && ns[j] == Turned(nexts, i, i - 1)[j'];
    }
  }

  /** Appending a node, after the last one's pointer is set to it. */
  lemma LinkedPush<K, V>(nodes: seq<Node<K, V>>, prevs: seq<Node?<K, V>>, nexts: seq<Node?<K, V>>, node: Node<K, V>)
    requires Linked(nodes, prevs, nexts)
    ensures Linked(nodes + [node], prevs + [At(nodes, |nodes| - 1)], Ended(nexts, node) + [null])
  {
  }

  function Ended<T>(s: seq<T>, x: T): (r: seq<T>)
    ensures |r| == |s|
  {
    if s == [] then [] else s[|s| - 1 := x]
  }

  /** s with position j, if there is one, set to what is at i. */
  function Turned<T>(s: seq<T>, i: nat, j: int): (r: seq<T>)
    requires i < |s|
    ensures |r| == |s|
  {
    if 0 <= j < |s| then s[j := s[i]] else s
  }

  lemma DistinctDrop<K, V>(nodes: seq<Node<K, V>>, i: nat)
    requires Distinct(nodes) && i < |nodes|
    ensures Distinct(Without(nodes, i)) && nodes[i] !in Without(nodes, i)
    ensures forall j :: 0 <= j < |nodes| && j != i ==> nodes[j] != nodes[i]
    ensures i + 1 < |nodes| ==> At(nodes, i + 1) != At(nodes, i - 1)
  {
  }

  /** Away from its own position, `s` is `was` with position j set to what was at i. */
  lemma Passed<T>(s: seq<T>, was: seq<T>, i: nat, j: int)
    requires i < |was| && |s| == |was| && j != i
    requires 0 <= j < |was| ==> s[j] == was[i]
    requires forall l :: 0 <= l < |was| && l != i && l != j ==> s[l] == was[l]
    ensures Without(s, i) == Without(Turned(was, i, j), i)
  {
  }

  lemma PointersWithout<K, V>(nodes: seq<Node<K, V>>, i: nat)
    requires i < |nodes|
    ensures Prevs(Without(nodes, i)) == Without(Prevs(nodes), i)
    ensures Nexts(Without(nodes, i)) == Without(Nexts(nodes), i)
  {
    var r := Without(nodes, i);
    WithoutAt(nodes, i);
    WithoutAt(Prevs(nodes), i);
    WithoutAt(Nexts(nodes), i);
    forall j | 0 <= j < |r|
      ensures Prevs(r)[j] == Without(Prevs(nodes), i)[j] && Nexts(r)[j] == Without(Nexts(nodes), i)[j]
    {
      assert r[j] == nodes[if j < i then j else j + 1];
    }
  }

  /** The neighbours of a position are the nodes before and after it, and no others. */
  lemma NeighboursAt<K, V>(nodes: seq<Node<K, V>>, i: nat)
    requires Distinct(nodes) && i < |nodes|
    ensures forall j :: 0 <= j < |nodes| && j != i ==> nodes[j] != nodes[i]
    ensures forall j :: 0 <= j < |nodes| && j != i + 1 ==> nodes[j] !in Neighbour(At(nodes, i + 1))
    ensures forall j :: 0 <= j < |nodes| && j != i - 1 ==> nodes[j] !in Neighbour(At(nodes, i - 1))
    ensures Neighbour(At(nodes, i + 1)) !! Neighbour(At(nodes, i - 1))
  {
  }

  lemma Pointers<K, V>(nodes: seq<Node<K, V>>, i: nat)
    requires Chain(nodes) && i < |nodes|
    ensures nodes[i].prev == At(nodes, i - 1) && nodes[i].next == At(nodes, i + 1)
    ensures i > 0 ==> nodes[0] != nodes[i]
    ensures i < |nodes| - 1 ==> nodes[|nodes| - 1] != nodes[i]
  {
    assert Prevs(nodes)[i] == nodes[i].prev && Nexts(nodes)[i] == nodes[i].next;
  }

  class List<K, V> {
    var head: Node?<K, V>
    var tail: Node?<K, V>
    var size: nat

    /** The nodes from head to tail. */
    ghost var nodes: seq<Node<K, V>>

    ghost predicate Valid()
      reads this, nodes
      ensures Valid() ==> Distinct(nodes)
    {
      && Chain(nodes) && size == |nodes|
      && head == At(nodes, 0) && tail == At(nodes, |nodes| - 1)
    }

    constructor ()
      ensures Valid() && nodes == []
    {
      head, tail, size, nodes := null, null, 0, [];
    }

    /** Unlinks the node at a position; head and tail are the caller's business. */
    method UnlinkAt(node: Node<K, V>, ghost i: nat)
      requires Chain(nodes) && i < |nodes| && nodes[i] == node
      modifies nodes, this`nodes
      ensures Chain(nodes) && nodes == Without(old(nodes), i)
      ensures node.prev == null && node.next == null
    {
      hide Linked, Distinct, Without, Turned;
      ghost var was, prevs, nexts := nodes, Prevs(nodes), Nexts(nodes);
      Pointers(was, i);
      LinkedDrop(was, prevs, nexts, i);
      DistinctDrop(was, i);
      NeighboursAt(was, i);
      node.Unlink();
      nodes := Without(was, i);
      PointersWithout(was, i);
      Passed(Prevs(was), prevs, i, i + 1);
      Passed(Nexts(was), nexts, i, i - 1);
    }

    /** Takes the first node out, if there is one. */
    method Pop() returns (n: Node?<K, V>)
      requires Valid()
      modifies this, nodes
      ensures Valid()
      ensures n == null <==> old(nodes) == []
      ensures n == null ==> nodes == []
      ensures n != null ==> n == old(nodes[0]) && nodes == old(nodes[1..]) && n.prev == null && n.next == null
    {
      hide Chain;
      if head == null {
        return null;
      }
      Pointers(nodes, 0);
      var newHead := head.next;
      UnlinkAt(head, 0);
      n := head;
      head := newHead;
      size := size - 1;
      if size == 0 {
        tail := null;
      }
    }

    /** Takes a node of the list out, wherever it stands. */
    method Remove(node: Node<K, V>, ghost i: nat)
      requires Valid() && i < |nodes| && nodes[i] == node
      modifies this, nodes
      ensures Valid() && nodes == Without(old(nodes), i)
      ensures node.prev == null && node.next == null
    {
      hide Chain;
      Pointers(nodes, i);
      if node == head {
        head := node.next;
      }
      if node == tail {
        tail := node.prev;
      }
      UnlinkAt(node, i);
      size := size - 1;
    }

    /** Appends an unlinked node. */
    method Push(node: Node<K, V>)
      requires Valid() && node !in nodes && node.prev == null && node.next == null
      modifies this, nodes, node
      ensures Valid() && nodes == old(nodes) + [node]
    {
      ghost var was, prevs, nexts := nodes, Prevs(nodes), Nexts(nodes);
      LinkedPush(was, prevs, nexts, node);
      node.Unlink();
      if head == null {
        head := node;
      } else if head == tail {
        head.next := node;
        node.prev := head;
      } else {
        tail.next := node;
        node.prev := tail;
      }
      tail := node;
      size := size + 1;
      nodes := nodes + [node];
      assert Prevs(nodes) == prevs + [At(was, |was| - 1)];
      assert Nexts(nodes) == Ended(nexts, node) + [null];
    }
  }
}
