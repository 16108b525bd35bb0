/** The binary search tree of lib/bst.c.

    SearchTree gives the shapes a tree goes through and proves that they refine a finite map;
    Bst is the linked structure updated in place, each operation tied to its shape. */
module SearchTree {
  import opened Tasks

  datatype Tree<T> = Leaf | Branch(left: Tree<T>, key: int, data: T, right: Tree<T>)

  function Insert<T>(t: Tree<T>, key: int, data: T): Tree<T>
  {
    match t
    case Leaf => Branch(Leaf, key, data, Leaf)
    case Branch(l, k, d, r) =>
      if key < k then Branch(Insert(l, key, data), k, d, r)
      else if key > k then Branch(l, k, d, Insert(r, key, data))
      else Branch(l, k, data, r)
  }

  function Min<T>(t: Tree<T>): (T, int)
    requires t.Branch?
  {
    if t.left.Leaf? then (t.data, t.key) else Min(t.left)
  }

  function Max<T>(t: Tree<T>): (T, int)
    requires t.Branch?
  {
    if t.right.Leaf? then (t.data, t.key) else Max(t.right)
  }

  function Find<T>(t: Tree<T>, x: int): Option<T>
  {
    match t
    case Leaf => None
    case Branch(l, k, d, r) => if x < k then Find(l, x) else if x > k then Find(r, x) else Some(d)
  }

  /** With two children the right subtree's minimum replaces the root and is deleted below it. */
  function Delete<T>(t: Tree<T>, x: int): Tree<T>
  {
    match t
    case Leaf => Leaf
    case Branch(l, k, d, r) =>
      if x < k then Branch(Delete(l, x), k, d, r)
      else if x > k then Branch(l, k, d, Delete(r, x))
      else if l.Branch? && r.Branch? then
        var (data, key) := Min(r);
        Branch(l, key, data, Delete(r, key))
      else if l.Leaf? then r
      else l
  }

  function Visits<T>(t: Tree<T>): seq<(int, T)>
  {
    match t
    case Leaf => []
    case Branch(l, k, d, r) => Visits(l) + [(k, d)] + Visits(r)
  }

  // ---- The map a tree stands for ----------------------------------------------------

  ghost function Keys<T>(t: Tree<T>): set<int>
  {
    match t
    case Leaf => {}
    case Branch(l, k, _, r) => Keys(l) + {k} + Keys(r)
  }

  ghost predicate Ordered<T>(t: Tree<T>)
  {
    match t
    case Leaf => true
    case Branch(l, k, _, r) =>
      && Ordered(l) && Ordered(r)
      && (forall x :: x in Keys(l) ==> x < k)
      && (forall x :: x in Keys(r) ==> k < x)
  }

  ghost function Entries<T>(t: Tree<T>): map<int, T>
  {
    map x | x in Keys(t) && Find(t, x).Some? :: Find(t, x).value
  }

  lemma {:induction false} FindIsMembership<T>(t: Tree<T>, x: int)
    requires Ordered(t)
    ensures Find(t, x).Some? <==> x in Keys(t)
  {
    if t.Branch? {
      FindIsMembership(t.left, x);
      FindIsMembership(t.right, x);
    }
  }

  lemma {:induction false} InsertOrdered<T>(t: Tree<T>, key: int, data: T)
    requires Ordered(t)
    ensures Ordered(Insert(t, key, data)) && Keys(Insert(t, key, data)) == Keys(t) + {key}
  {
    if t.Branch? {
      InsertOrdered(t.left, key, data);
      InsertOrdered(t.right, key, data);
    }
  }

  lemma {:induction false} FindAfterInsert<T>(t: Tree<T>, key: int, data: T, x: int)
    ensures Find(Insert(t, key, data), x) == if x == key then Some(data) else Find(t, x)
  {
    if t.Branch? {
      FindAfterInsert(t.left, key, data, x);
      FindAfterInsert(t.right, key, data, x);
    }
  }

  /** bst_insert is map update. */
  lemma InsertRefines<T>(t: Tree<T>, key: int, data: T)
    requires Ordered(t)
    ensures Ordered(Insert(t, key, data))
    ensures Entries(Insert(t, key, data)) == Entries(t)[key := data]
  {
    InsertOrdered(t, key, data);
    forall x ensures Find(Insert(t, key, data), x) == if x == key then Some(data) else Find(t, x) {
      FindAfterInsert(t, key, data, x);
    }
  }

  /** bst_find is map lookup. */
  lemma FindRefines<T>(t: Tree<T>, x: int)
    requires Ordered(t)
    ensures Find(t, x) == if x in Entries(t).Keys then Some(Entries(t)[x]) else None
  {
    FindIsMembership(t, x);
  }

  lemma {:induction false} MinIsLeast<T>(t: Tree<T>)
    requires Ordered(t) && t.Branch?
    ensures Min(t).1 in Keys(t) && Find(t, Min(t).1) == Some(Min(t).0)
    ensures forall k :: k in Keys(t) ==> Min(t).1 <= k
  {
    if t.left.Branch? {
      MinIsLeast(t.left);
    }
  }

  lemma {:induction false} MaxIsGreatest<T>(t: Tree<T>)
    requires Ordered(t) && t.Branch?
    ensures Max(t).1 in Keys(t) && Find(t, Max(t).1) == Some(Max(t).0)
    ensures forall k :: k in Keys(t) ==> k <= Max(t).1
  {
    if t.right.Branch? {
      MaxIsGreatest(t.right);
    }
  }

  lemma {:induction false} DeleteOrdered<T>(t: Tree<T>, x: int)
    requires Ordered(t)
    ensures Ordered(Delete(t, x)) && Keys(Delete(t, x)) == Keys(t) - {x}
  {
    if t.Branch? {
      DeleteOrdered(t.left, x);
      DeleteOrdered(t.right, x);
      if t.key == x && t.left.Branch? && t.right.Branch? {
        MinIsLeast(t.right);
        DeleteOrdered(t.right, Min(t.right).1);
      }
    }
  }

  lemma {:induction false} FindAfterDelete<T>(t: Tree<T>, y: int, x: int)
    requires Ordered(t)
    ensures Find(Delete(t, y), x) == if x == y then None else Find(t, x)
  {
    if t.Branch? {
      FindAfterDelete(t.left, y, x);
      FindAfterDelete(t.right, y, x);
      FindIsMembership(t.left, x);
      FindIsMembership(t.right, x);
      if t.key == y && t.left.Branch? && t.right.Branch? {
        MinIsLeast(t.right);
        FindAfterDelete(t.right, Min(t.right).1, x);
      }
    }
  }

  /** A deleted root with two children is replaced by the next key in order, which leaves the right subtree; the left
      one is not touched. */
  lemma SuccessorMovesUp<T>(t: Tree<T>)
    requires Ordered(t) && t.Branch? && t.left.Branch? && t.right.Branch?
    ensures var d := Delete(t, t.key);
            && d.Branch? && d.left == t.left
            && d.key in Keys(t) && t.key < d.key && (forall k :: k in Keys(t) && t.key < k ==> d.key <= k)
            && Find(t, d.key) == Some(d.data) && Keys(d.right) == Keys(t.right) - {d.key}
  {
    MinIsLeast(t.right);
    DeleteOrdered(t.right, Min(t.right).1);
    hide Min, Delete;
  }

  /** bst_delete is map removal, the two-child case included. */
  lemma DeleteRefines<T>(t: Tree<T>, x: int)
    requires Ordered(t)
    ensures Ordered(Delete(t, x))
    ensures Entries(Delete(t, x)) == Entries(t) - {x}
  {
    DeleteOrdered(t, x);
    forall y ensures Find(Delete(t, x), y) == if y == x then None else Find(t, y) {
      FindAfterDelete(t, x, y);
    }
  }

  // ---- In-order traversal -----------------------------------------------------------

  /** `visits` lists the bindings of `m`, each once, in strictly ascending key order. */
  ghost predicate IsTraversal<T>(visits: seq<(int, T)>, m: map<int, T>)
  {
    && (forall i :: 0 <= i < |visits| ==> visits[i].0 in m.Keys && m[visits[i].0] == visits[i].1)
    && (forall i, j :: 0 <= i < j < |visits| ==> visits[i].0 < visits[j].0)
    && (forall k :: k in m.Keys ==> exists i :: 0 <= i < |visits| && visits[i].0 == k)
  }

  lemma {:induction false} VisitsBindings<T>(t: Tree<T>, i: nat)
    requires Ordered(t) && i < |Visits(t)|
    ensures Visits(t)[i].0 in Keys(t) && Find(t, Visits(t)[i].0) == Some(Visits(t)[i].1)
  {
    var n := |Visits(t.left)|;
    if i < n {
      VisitsBindings(t.left, i);
    } else if i > n {
      VisitsBindings(t.right, i - n - 1);
    }
  }

  lemma {:induction false} VisitsAscend<T>(t: Tree<T>, i: nat, j: nat)
    requires Ordered(t) && i < j < |Visits(t)|
    ensures Visits(t)[i].0 < Visits(t)[j].0
  {
    var n := |Visits(t.left)|;
    if j < n {
      VisitsAscend(t.left, i, j);
    } else if n < i {
      VisitsAscend(t.right, i - n - 1, j - n - 1);
    } else {
      if i < n { VisitsBindings(t.left, i); }
      if n < j { VisitsBindings(t.right, j - n - 1); }
    }
  }

  lemma {:induction false} VisitOf<T>(t: Tree<T>, k: int) returns (i: nat)
    requires k in Keys(t)
    ensures i < |Visits(t)| && Visits(t)[i].0 == k
  {
    if k in Keys(t.left) {
      i := VisitOf(t.left, k);
    } else if k == t.key {
      i := |Visits(t.left)|;
    } else {
      i := VisitOf(t.right, k);
      i := |Visits(t.left)| + 1 + i;
    }
  }

  /** bst_for_each visits every binding exactly once, in strictly ascending key order. */
  lemma VisitsTraverse<T>(t: Tree<T>)
    requires Ordered(t)
    ensures IsTraversal(Visits(t), Entries(t))
  {
    var visits := Visits(t);
    forall i | 0 <= i < |visits|
      ensures visits[i].0 in Entries(t).Keys && Entries(t)[visits[i].0] == visits[i].1
    {
      VisitsBindings(t, i);
    }
    forall i, j | 0 <= i < j < |visits| ensures visits[i].0 < visits[j].0 {
      VisitsAscend(t, i, j);
    }
    forall k | k in Entries(t).Keys ensures exists i :: 0 <= i < |visits| && visits[i].0 == k {
      var i := VisitOf(t, k);
    }
  }

  lemma FirstIsLeast<T>(a: seq<(int, T)>, m: map<int, T>)
    requires IsTraversal(a, m)
    ensures a == [] <==> m.Keys == {}
    ensures a != [] ==> a[0].0 in m.Keys && forall k :: k in m.Keys ==> a[0].0 <= k
  {
    if a != [] {
      assert a[0].0 in m.Keys;
      forall k | k in m.Keys ensures a[0].0 <= k {
        var i :| 0 <= i < |a| && a[i].0 == k;
      }
    } else {
      assert forall k :: k !in m.Keys;
    }
  }

  lemma SameFirst<T>(a: seq<(int, T)>, b: seq<(int, T)>, m: map<int, T>)
    requires IsTraversal(a, m) && IsTraversal(b, m)
    ensures if a == [] then b == [] else b != [] && a[0] == b[0]
  {
    FirstIsLeast(a, m);
    FirstIsLeast(b, m);
    if a != [] {
      assert b != [] && a[0].0 <= b[0].0 <= a[0].0;
      assert a[0].1 == m[a[0].0] == b[0].1;
    }
  }

  /** There is only one way to traverse a map in ascending order. */
  lemma {:induction false} TraversalIsUnique<T>(a: seq<(int, T)>, b: seq<(int, T)>, m: map<int, T>)
    requires IsTraversal(a, m) && IsTraversal(b, m)
    ensures a == b
    decreases |a|
  {
    hide IsTraversal;
    SameFirst(a, b, m);
    if a != [] {
      TailTraversal(a, m);
      TailTraversal(b, m);
      TraversalIsUnique(a[1..], b[1..], m - {a[0].0});
      assert a == [a[0]] + a[1..] && b == [b[0]] + b[1..];
    }
  }

  lemma TailTraversal<T>(a: seq<(int, T)>, m: map<int, T>)
    requires a != [] && IsTraversal(a, m)
    ensures IsTraversal(a[1..], m - {a[0].0})
  {
    var rest := m - {a[0].0};
    assert rest.Keys == m.Keys - {a[0].0};
    forall k | k in rest.Keys
      ensures exists i :: 0 <= i < |a[1..]| && a[1..][i].0 == k
    {
      var i :| 0 <= i < |a| && a[i].0 == k;
      assert a[1..][i - 1].0 == k;
    }
  }
}

module Bst {
  import T = SearchTree

  class Node<D> {
    var key: int
    var data: D
    var left: Node?<D>
    var right: Node?<D>

    ghost var shape: T.Tree<D>
    ghost var repr: set<Node<D>>

    /** No sharing and no cycles below this node, and `shape` tells what is there. */
    ghost predicate Valid()
      reads this, repr
      ensures Valid() ==> this in repr
      decreases repr
    {
      && this in repr
      && (left != null ==> left in repr && left.repr <= repr && this !in left.repr && left.Valid())
      && (right != null ==> right in repr && right.repr <= repr && this !in right.repr && right.Valid())
      && (left != null && right != null ==> left.repr !! right.repr)
      && shape == T.Branch(Shape(left), key, data, Shape(right))
    }

    constructor (key: int, data: D)
      ensures Valid() && fresh(repr) && shape == T.Branch(T.Leaf, key, data, T.Leaf)
    {
      this.key, this.data := key, data;
      left, right := null, null;
      shape := T.Branch(T.Leaf, key, data, T.Leaf);
      repr := {this};
    }
  }

  ghost function Shape<D>(root: Node?<D>): T.Tree<D>
    reads root
  {
    if root == null then T.Leaf else root.shape
  }

  ghost function Footprint<D>(root: Node?<D>): set<Node<D>>
    reads root
  {
    if root == null then {} else root.repr
  }

  ghost predicate IsTree<D>(root: Node?<D>)
    reads root, Footprint(root)
  {
    root != null ==> root.Valid()
  }

  method Insert<D>(root: Node?<D>, key: int, data: D) returns (r: Node<D>)
    requires IsTree(root)
    modifies Footprint(root)
    ensures r.Valid() && fresh(r.repr - old(Footprint(root)))
    ensures r.shape == T.Insert(old(Shape(root)), key, data)
    decreases Footprint(root)
  {
    if root == null {
      r := new Node(key, data);
    } else {
      r := root;
      if key < root.key {
        assert IsTree(root.right);
        var left := Insert(root.left, key, data);
        root.left := left;
        root.repr := root.repr + left.repr;
      } else if key > root.key {
        assert IsTree(root.left);
        var right := Insert(root.right, key, data);
        root.right := right;
        root.repr := root.repr + right.repr;
      } else {
        root.data := data;
      }
      root.shape := T.Branch(Shape(root.left), root.key, root.data, Shape(root.right));
    }
  }

  function FindMin<D>(root: Node?<D>): (n: Node?<D>)
    requires IsTree(root)
    reads root, Footprint(root)
    ensures n == null <==> root == null
    ensures n != null ==> n in Footprint(root) && (n.data, n.key) == T.Min(Shape(root))
    decreases Footprint(root)
  {
    if root == null then null
    else if root.left == null then root
    else FindMin(root.left)
  }

  function FindMax<D>(root: Node?<D>): (n: Node?<D>)
    requires IsTree(root)
    reads root, Footprint(root)
    ensures n == null <==> root == null
    ensures n != null ==> n in Footprint(root) && (n.data, n.key) == T.Max(Shape(root))
    decreases Footprint(root)
  {
    if root == null then null
    else if root.right == null then root
    else FindMax(root.right)
  }

  function Find<D>(root: Node?<D>, x: int): (n: Node?<D>)
    requires IsTree(root)
    reads root, Footprint(root)
    ensures n == null <==> T.Find(Shape(root), x).None?
    ensures n != null ==> n in Footprint(root) && n.key == x && T.Find(Shape(root), x).value == n.data
    decreases Footprint(root)
  {
    if root == null then null
    else if x < root.key then Find(root.left, x)
    else if x > root.key then Find(root.right, x)
    else root
  }

  method Delete<D>(root: Node?<D>, x: int) returns (r: Node?<D>)
    requires IsTree(root)
    modifies Footprint(root)
    ensures IsTree(r) && Footprint(r) <= old(Footprint(root))
    ensures Shape(r) == T.Delete(old(Shape(root)), x)
    decreases Footprint(root)
  {
    r := root;
    if root == null {
      return;
    }
    if x < root.key {
      assert IsTree(root.right);
      var left := Delete(root.left, x);
      root.left := left;
    } else if x > root.key {
      assert IsTree(root.left);
      var right := Delete(root.right, x);
      root.right := right;
    } else if root.left != null && root.right != null {
      DeleteRoot(root);
      return;
    } else {
      r := if root.left == null then root.right else root.left;
      return;
    }
    root.shape := T.Branch(Shape(root.left), root.key, root.data, Shape(root.right));
  }

  /** The two-child case of the deletion. */
  method DeleteRoot<D>(root: Node<D>)
    requires root.Valid() && root.left != null && root.right != null
    modifies root.repr
    ensures root.Valid() && root.repr == old(root.repr)
    ensures root.shape == T.Delete(old(root.shape), old(root.key))
    decreases root.repr, 0
  {
    assert IsTree(root.left);
    var temp := FindMin(root.right);
    root.key := temp.key;
    root.data := temp.data;
    var right := Delete(root.right, root.key);
    root.right := right;
    root.shape := T.Branch(Shape(root.left), root.key, root.data, Shape(root.right));
  }

  /** The calls the walk makes to its callback, in order. */
  method ForEach<D>(root: Node?<D>) returns (visits: seq<(int, D)>)
    requires IsTree(root)
    ensures visits == T.Visits(Shape(root))
    decreases Footprint(root)
  {
    if root == null {
      return [];
    }
    visits := ForEach(root.left);
    visits := visits + [(root.key, root.data)];
    var after := ForEach(root.right);
    visits := visits + after;
  }
}
