/** Singly linked lists in memory, each described by the sequence of its nodes. */
module Lists {
  /** A sequence without its element i. */
  function Without<T>(s: seq<T>, i: nat): (r: seq<T>)
    requires i < |s|
    ensures |r| == |s| - 1
  {
    s[..i] + s[i + 1..]
  }

  class Node<T> {
    var value: T
    var next: Node?<T>

    constructor (value: T)
      ensures this.value == value && next == null
    {
      this.value := value;
      next := null;
    }
  }

  ghost function At<T>(nodes: seq<Node<T>>, i: nat): Node?<T> {
    if i < |nodes| then nodes[i] else null
  }

  /** The list that starts at `first` runs through exactly these nodes, and ends. */
  ghost predicate IsList<T>(first: Node?<T>, nodes: seq<Node<T>>)
    reads nodes
  {
    first == At(nodes, 0) && forall i: nat | i < |nodes| :: nodes[i].next == At(nodes, i + 1)
  }

  ghost function Values<T>(nodes: seq<Node<T>>): (s: seq<T>)
    reads nodes
    ensures |s| == |nodes| && forall i | 0 <= i < |s| :: s[i] == nodes[i].value
  {
    if nodes == [] then [] else [nodes[0].value] + Values(nodes[1..])
  }

  /** A list that ends has no cycle and shares no node with itself. */
  lemma {:induction false} NoNodeTwice<T>(first: Node?<T>, nodes: seq<Node<T>>, i: nat, j: nat)
    requires IsList(first, nodes) && i < j < |nodes|
    ensures nodes[i] != nodes[j]
    decreases |nodes| - j
  {
    assert nodes[j].next == At(nodes, j + 1) && nodes[i].next == At(nodes, i + 1);
    if j + 1 < |nodes| {
      NoNodeTwice(first, nodes, i + 1, j + 1);
    }
  }

  /** The walk to the last node that enqueue, enqueue_callback and dput make. */
  method Last<T>(first: Node?<T>, ghost nodes: seq<Node<T>>) returns (it: Node?<T>)
    requires IsList(first, nodes)
    ensures it == if nodes == [] then null else nodes[|nodes| - 1]
  {
    it := first;
    ghost var i := 0;
    while it != null && it.next != null
      invariant nodes != [] ==> i < |nodes| && it == nodes[i]
      invariant nodes == [] ==> it == null
      decreases |nodes| - i
    {
      assert nodes[i].next == At(nodes, i + 1);
      it := it.next;
      i := i + 1;
    }
  }

  /** Linking the last node of one list to the start of another makes one list. */
  method Attach<T>(it: Node<T>, second: Node?<T>, ghost first: Node?<T>, ghost a: seq<Node<T>>, ghost b: seq<Node<T>>)
    requires IsList(first, a) && a != [] && it == a[|a| - 1]
    requires IsList(second, b) && (forall n | n in a :: n !in b)
    modifies it`next
    ensures IsList(first, a + b)
  {
    forall i: nat | i < |a| - 1 ensures a[i] != it {
      NoNodeTwice(first, a, i, |a| - 1);
    }
    assert it in a;
    forall j: nat | j < |b| ensures b[j] != it && b[j].next == At(b, j + 1) {
      assert b[j] in b;
    }
    it.next := second;
    ghost var all := a + b;
    forall i: nat | i < |all| ensures all[i].next == At(all, i + 1) {
      if i < |a| {
        assert i < |a| - 1 ==> a[i].next == At(a, i + 1);
      } else {
        assert b[i - |a|].next == At(b, i - |a| + 1);
      }
    }
  }

  lemma ValuesOfOneMore<T>(nodes: seq<Node<T>>, item: Node<T>)
    ensures Values(nodes + [item]) == Values(nodes) + [item.value]
  {
  }

  lemma ValuesOfBoth<T>(a: seq<Node<T>>, b: seq<Node<T>>)
    ensures Values(a + b) == Values(a) + Values(b)
  {
  }

  lemma ValuesWithout<T>(nodes: seq<Node<T>>, i: nat)
    requires i < |nodes|
    ensures Values(Without(nodes, i)) == Without(Values(nodes), i)
  {
  }

  lemma EmptyList<T>(first: Node?<T>, nodes: seq<Node<T>>)
    requires IsList(first, nodes)
    ensures first == null <==> nodes == []
    ensures Values(nodes) == [] <==> nodes == []
  {
  }

  lemma ListOfOne<T>(item: Node<T>)
    requires item.next == null
    ensures IsList(item, [item])
  {
  }

  /** Taking node i out of a list: prev, the node before it, or the list's start now leads past it. */
  method CutOut<T>(first: Node?<T>, prev: Node?<T>, ghost nodes: seq<Node<T>>, ghost i: nat)
    returns (start: Node?<T>, ret: Node<T>)
    requires IsList(first, nodes) && i < |nodes|
    requires prev == if i == 0 then null else nodes[i - 1]
    modifies if prev == null then {nodes[i]} else {prev, nodes[i]}
    ensures ret == nodes[i] && ret.next == null
    ensures forall j: nat | j < |nodes| :: nodes[j].value == old(nodes[j].value)
    ensures IsList(start, Without(nodes, i))
  {
    forall j: nat, k: nat | j < k < |nodes| ensures nodes[j] != nodes[k] {
      NoNodeTwice(first, nodes, j, k);
    }
    assert nodes[i].next == At(nodes, i + 1);
    if prev == null {
      ret := first;
      start := ret.next;
    } else {
      assert prev.next == At(nodes, i);
      ret := prev.next;
      prev.next := ret.next;
      start := first;
    }
    ret.next := null;
  }
}
