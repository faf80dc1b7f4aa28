/** The copy-on-write search tree of benchmark/single-source/COWTree.swift. */
module CowTree {
  import opened Options

  // ---- the values of trees

  datatype Shape = Leaf | Branch(left: Shape, value: int, right: Shape)

  function InOrder(t: Shape): seq<int> {
    match t
    case Leaf => []
    case Branch(l, v, r) => InOrder(l) + [v] + InOrder(r)
  }

  /** What `insert` does to the shape of a tree: values go left when smaller, and right otherwise. */
  function Inserted(t: Shape, v: int): Shape {
    match t
    case Leaf => Branch(Leaf, v, Leaf)
    case Branch(l, w, r) => if v < w then Branch(Inserted(l, v), w, r) else Branch(l, w, Inserted(r, v))
  }

  ghost predicate Sorted(s: seq<int>) {
    forall i, j :: 0 <= i < j < |s| ==> s[i] <= s[j]
  }

  /** Everything to the left of a node is smaller, and nothing to the right is. */
  ghost predicate Ordered(t: Shape) {
    match t
    case Leaf => true
    case Branch(l, v, r) =>
      && Ordered(l) && Ordered(r)
      && (forall x :: x in InOrder(l) ==> x < v)
      && (forall x :: x in InOrder(r) ==> v <= x)
  }

  lemma {:induction false} OrderedIsSorted(t: Shape)
    requires Ordered(t)
    ensures Sorted(InOrder(t))
  {
    if t.Branch? {
      OrderedIsSorted(t.left);
      OrderedIsSorted(t.right);
      var a, b, s := InOrder(t.left), InOrder(t.right), InOrder(t);
      forall i, j | 0 <= i < j < |s|
        ensures s[i] <= s[j]
      {
        assert i < |a| ==> s[i] == a[i] && a[i] in a;
        assert j < |a| ==> s[j] == a[j] && a[j] in a;
        assert i > |a| ==> s[i] == b[i - |a| - 1] && b[i - |a| - 1] in b;
        assert j > |a| ==> s[j] == b[j - |a| - 1] && b[j - |a| - 1] in b;
      }
    }
  }

  /** `insert` adds exactly one value ... */
  lemma {:induction false} InsertedValues(t: Shape, v: int)
    ensures multiset(InOrder(Inserted(t, v))) == multiset(InOrder(t)) + multiset{v}
  {
    if t.Branch? {
      InsertedValues(if v < t.value then t.left else t.right, v);
    }
  }

  lemma InsertedMembers(t: Shape, v: int)
    ensures forall x :: x in InOrder(Inserted(t, v)) <==> x in InOrder(t) || x == v
  {
    InsertedValues(t, v);
    forall x
      ensures x in InOrder(Inserted(t, v)) <==> x in InOrder(t) || x == v
    {
      assert x in InOrder(Inserted(t, v)) <==> x in multiset(InOrder(Inserted(t, v)));
      assert x in InOrder(t) <==> x in multiset(InOrder(t));
    }
  }

  /** ... and keeps the order. */
  lemma {:induction false} InsertedOrdered(t: Shape, v: int)
    requires Ordered(t)
    ensures Ordered(Inserted(t, v))
  {
    if t.Branch? {
      var side := if v < t.value then t.left else t.right;
      InsertedOrdered(side, v);
      InsertedMembers(side, v);
    }
  }

  /** A value no smaller than any in the tree becomes the last. */
  lemma {:induction false} InsertedLast(t: Shape, v: int)
    requires forall x :: x in InOrder(t) ==> x <= v
    ensures InOrder(Inserted(t, v)) == InOrder(t) + [v]
  {
    if t.Branch? {
      assert t.value in InOrder(t);
      assert forall x :: x in InOrder(t.right) ==> x in InOrder(t);
      InsertedLast(t.right, v);
    }
  }

  /** What `contains` computes: one path down the tree. */
  predicate Found(t: Shape, v: int) {
    match t
    case Leaf => false
    case Branch(l, w, r) => w == v || Found(if v < w then l else r, v)
  }

  /** In an ordered tree the path finds a value if and only if the tree holds it. */
  lemma {:induction false} FoundExactly(t: Shape, v: int)
    requires Ordered(t)
    ensures Found(t, v) <==> v in InOrder(t)
  {
    if t.Branch? {
      FoundExactly(t.left, v);
      FoundExactly(t.right, v);
    }
  }

  // ---- the nodes of trees

  class Node {
    var value: int
    var left: Node?
    var right: Node?
    ghost var repr: set<Node>
    ghost var shape: Shape

    ghost predicate Valid()
      reads this, repr
      ensures Valid() ==> this in repr && shape.Branch?
      decreases repr
    {
      && this in repr
      && (left != null ==> left in repr && left.repr <= repr && this !in left.repr && left.Valid())
      && (right != null ==> right in repr && right.repr <= repr && this !in right.repr && right.Valid())
      && (left != null && right != null ==> left.repr !! right.repr)
      && shape == Branch(ShapeOf(left), value, ShapeOf(right))
    }

    constructor (value: int)
      ensures Valid() && fresh(repr) && shape == Branch(Leaf, value, Leaf)
    {
      this.value := value;
      left, right := null, null;
      repr := {this};
      shape := Branch(Leaf, value, Leaf);
    }
  }

  ghost function ShapeOf(node: Node?): Shape
    reads node
  {
    if node == null then Leaf else node.shape
  }

  ghost function ReprOf(node: Node?): set<Node>
    reads node
  {
    if node == null then {} else node.repr
  }

  ghost predicate ValidTree(node: Node?)
    reads node, ReprOf(node)
  {
    node != null ==> node.Valid()
  }

  /** The recursive `insert`: changes the nodes of `node` in place and adds one new node. */
  method InsertAt(node: Node?, value: int) returns (r: Node)
    requires ValidTree(node)
    modifies ReprOf(node)
    ensures r.Valid() && fresh(r.repr - old(ReprOf(node))) && old(ReprOf(node)) <= r.repr
    ensures node != null ==> r == node
    ensures r.shape == Inserted(old(ShapeOf(node)), value)
    decreases ReprOf(node), 1
  {
    if node == null {
      r := new Node(value);
    } else {
      if value < node.value {
        InsertLeft(node, value);
      } else {
        InsertRight(node, value);
      }
      r := node;
    }
  }

  /** The case of `insert` for a value smaller than the node's. */
  method InsertLeft(node: Node, value: int)
    requires node.Valid() && value < node.value
    modifies node.repr
    ensures node.Valid() && fresh(node.repr - old(node.repr)) && old(node.repr) <= node.repr
    ensures node.shape == Inserted(old(node.shape), value)
    decreases node.repr, 0
  {
    hide InOrder;
    var child := InsertAt(node.left, value);
    assert ValidTree(node.right) && node !in child.repr && child.repr !! ReprOf(node.right);
    node.left := child;
    node.repr := node.repr + child.repr;
    node.shape := Branch(child.shape, node.value, node.shape.right);
  }

  /** The case of `insert` for any other value. */
  method InsertRight(node: Node, value: int)
    requires node.Valid() && value >= node.value
    modifies node.repr
    ensures node.Valid() && fresh(node.repr - old(node.repr)) && old(node.repr) <= node.repr
    ensures node.shape == Inserted(old(node.shape), value)
    decreases node.repr, 0
  {
    var child := InsertAt(node.right, value);
    assert ValidTree(node.left) && node !in child.repr && child.repr !! ReprOf(node.left);
    node.right := child;
    node.repr := node.repr + child.repr;
    node.shape := Branch(node.shape.left, node.value, child.shape);
  }

  /** The recursive `contains`. */
  method ContainsAt(node: Node?, value: int) returns (found: bool)
    requires ValidTree(node)
    ensures found == Found(ShapeOf(node), value)
    decreases ReprOf(node)
  {
    if node == null {
      found := false;
    } else if node.value == value {
      found := true;
    } else {
      found := ContainsAt(if value < node.value then node.left else node.right, value);
    }
  }

  // ---- the iterator

  /** The values of the stacked nodes and of their right subtrees, from the top of the stack down. */
  ghost function Pending(stacked: seq<Shape>): seq<int> {
    if stacked == [] then []
    else
      var top := stacked[|stacked| - 1];
      (if top.Branch? then [top.value] + InOrder(top.right) else []) + Pending(stacked[..|stacked| - 1])
  }

  lemma PendingPush(stacked: seq<Shape>, t: Shape)
    requires t.Branch?
    ensures InOrder(t) + Pending(stacked) == InOrder(t.left) + Pending(stacked + [t])
  {
    assert (stacked + [t])[..|stacked|] == stacked;
  }

  /** `node` heads a valid tree made of some of `nodes`. */
  ghost predicate Owned(node: Node, nodes: set<Node>)
    reads nodes
  {
    node in nodes && node.repr <= nodes && node.Valid()
  }

  lemma ChildrenOwned(node: Node, nodes: set<Node>)
    requires Owned(node, nodes)
    ensures node.left != null ==> Owned(node.left, nodes) && node.left.repr < node.repr
    ensures node.right != null ==> Owned(node.right, nodes)
    ensures node.shape == Branch(ShapeOf(node.left), node.value, ShapeOf(node.right))
  {
  }

  /** The stack-based in-order traversal of `makeIterator`. */
  class TreeIterator {
    var stack: seq<Node>
    var current: Node?
    ghost var stacked: seq<Shape>
    ghost const nodes: set<Node>

    ghost predicate Valid()
      reads this, nodes
    {
      && |stacked| == |stack|
      && (current != null ==> current in nodes)
      && (forall node :: node in nodes && (node == current || node in stack) ==> Owned(node, nodes))
      && forall i :: 0 <= i < |stack| ==> stack[i] in nodes && stack[i].shape == stacked[i]
    }

    /** The values still to come. */
    ghost function Remaining(): seq<int>
      reads this, current
    {
      InOrder(ShapeOf(current)) + Pending(stacked)
    }

    constructor (root: Node?)
      requires ValidTree(root)
      ensures Valid() && nodes == ReprOf(root) && Remaining() == InOrder(ShapeOf(root))
    {
      stack, current := [], root;
      stacked := [];
      nodes := ReprOf(root);
    }

    method Next() returns (r: Option<int>)
      requires Valid()
      modifies this
      ensures Valid()
      ensures r == if old(Remaining()) == [] then None else Some(old(Remaining())[0])
      ensures Remaining() == if old(Remaining()) == [] then [] else old(Remaining())[1..]
    {
      ghost var all := Remaining();
      while true
        invariant Valid() && Remaining() == all
        decreases ReprOf(current), |stack|
      {
        if current != null {
          Descend();
        } else if stack != [] {
          var value := PopTop();
          return Some(value);
        } else {
          return None;
        }
      }
    }

    /** Stacks the current node and moves on to its left child. */
    method Descend()
      requires Valid() && current != null
      modifies this
      ensures Valid() && Remaining() == old(Remaining())
      ensures ReprOf(current) < old(current.repr)
    {
      var node := current;
      ChildrenOwned(node, nodes);
      PendingPush(stacked, node.shape);
      stack := stack + [node];
      stacked := stacked + [node.shape];
      current := node.left;
    }

    /** Unstacks a node, whose left subtree is done, and moves on to its right child. */
    method PopTop() returns (value: int)
      requires Valid() && current == null && stack != []
      modifies this
      ensures Valid() && old(Remaining()) == [value] + Remaining()
    {
      var pop := stack[|stack| - 1];
      ChildrenOwned(pop, nodes);
      stack := stack[..|stack| - 1];
      stacked := stacked[..|stacked| - 1];
      current := pop.right;
      value := pop.value;
    }
  }

  // ---- rebuilding

  /** Midway through a rebuild: `built` holds the values that came before `rest`. */
  ghost predicate BuiltSoFar(all: seq<int>, built: Shape, rest: seq<int>) {
    Sorted(all) && Ordered(built) && all == InOrder(built) + rest
  }

  lemma BuiltStep(all: seq<int>, built: Shape, rest: seq<int>)
    requires BuiltSoFar(all, built, rest) && rest != []
    ensures BuiltSoFar(all, Inserted(built, rest[0]), rest[1..])
  {
    var s := InOrder(built);
    assert all[|s|] == rest[0] && forall i :: 0 <= i < |s| ==> s[i] == all[i];
    InsertedLast(built, rest[0]);
    InsertedOrdered(built, rest[0]);
  }

  /** `Tree.init` of a tree's own sequence: a new tree with the same values. The `insert` it loops over
      finds its own tree empty, which it replaces by another empty one, or uniquely referenced. */
  method Rebuild(root: Node?) returns (copy: Node?)
    requires ValidTree(root) && Ordered(ShapeOf(root))
    ensures ValidTree(copy) && fresh(ReprOf(copy)) && Ordered(ShapeOf(copy))
    ensures InOrder(ShapeOf(copy)) == InOrder(ShapeOf(root))
  {
    copy := null;
    var g := new TreeIterator(root);
    ghost var all, built, rest := InOrder(ShapeOf(root)), Leaf, InOrder(ShapeOf(root));
    OrderedIsSorted(ShapeOf(root));
    var more := true;
    while more
      invariant g.Valid() && fresh(g) && g.nodes == old(ReprOf(root)) && g.Remaining() == rest
      invariant ValidTree(copy) && fresh(ReprOf(copy)) && ShapeOf(copy) == built
      invariant BuiltSoFar(all, built, rest) && (!more ==> rest == [])
      decreases |rest|, more
    {
      if rest != [] {
        BuiltStep(all, built, rest);
      }
      copy, more := InsertNext(g, copy);
      if more {
        built, rest := Inserted(built, rest[0]), rest[1..];
      }
    }
  }

  /** One round of the loop of `Tree.init`: inserts the iterator's next value, if there is one. */
  method InsertNext(g: TreeIterator, node: Node?) returns (r: Node?, more: bool)
    requires g.Valid() && ValidTree(node) && ReprOf(node) !! g.nodes
    modifies g, ReprOf(node)
    ensures g.Valid() && ValidTree(r) && fresh(ReprOf(r) - old(ReprOf(node)))
    ensures more <==> old(g.Remaining()) != []
    ensures more ==> ShapeOf(r) == Inserted(old(ShapeOf(node)), old(g.Remaining())[0])
                     && g.Remaining() == old(g.Remaining())[1..]
    ensures !more ==> r == node && ShapeOf(r) == old(ShapeOf(node)) && g.Remaining() == []
  {
    var x := g.Next();
    if x == None {
      return node, false;
    }
    r := InsertAt(node, x.value);
    more := true;
  }

  // ---- live tree values

  /** `insert` in a tree with no node in common with `others` leaves those as they are. */
  method InsertApart(node: Node?, value: int, ghost others: set<Node>, ghost nodes: set<Node>) returns (r: Node)
    requires ValidTree(node) && Ordered(ShapeOf(node))
    requires forall n :: n in others ==> Owned(n, nodes) && n.repr !! ReprOf(node)
    modifies ReprOf(node)
    ensures r in r.repr && fresh(r.repr - old(ReprOf(node)))
    ensures node != null ==> r == node
    ensures r.shape == Inserted(old(ShapeOf(node)), value) && Ordered(r.shape)
    ensures forall n :: n in others + {r} ==> Owned(n, nodes + r.repr)
    ensures forall n :: n in others ==> n.repr !! r.repr && n.repr == old(n.repr) && n.shape == old(n.shape)
  {
    InsertedOrdered(ShapeOf(node), value);
    assert forall n :: n in others ==> n in n.repr;
    r := InsertAt(node, value);
  }

  /** The `Tree` values that are alive. Each is a struct holding a root; copying one copies the root only. */
  class Store {
    var trees: seq<Node?>
    ghost var nodes: set<Node>

    ghost function Roots(): set<Node>
      reads this
    {
      set node: Node | node in trees
    }

    /** Two trees share their root, or no node at all. */
    ghost predicate Valid()
      reads this, nodes
    {
      && (forall n :: n in Roots() ==> n in nodes && Owned(n, nodes) && Ordered(n.shape))
      && (forall m, n :: m in Roots() && n in Roots() && m != n ==> m.repr !! n.repr)
    }

    /** The values of tree `i`, in order. */
    ghost function Contents(i: nat): seq<int>
      requires i < |trees|
      reads this, trees[i]
    {
      InOrder(ShapeOf(trees[i]))
    }

    /** `isKnownUniquelyReferenced`, false for an empty tree. */
    predicate IsKnownUniquelyReferenced(i: nat)
      requires i < |trees|
      reads this
    {
      trees[i] != null && forall j :: 0 <= j < |trees| && j != i ==> trees[j] != trees[i]
    }

    lemma TreeIsOwned(i: nat)
      requires Valid() && i < |trees|
      ensures ValidTree(trees[i]) && Ordered(ShapeOf(trees[i])) && ReprOf(trees[i]) <= nodes
      ensures forall n :: n in Roots() && n != trees[i] ==> Owned(n, nodes) && n.repr !! ReprOf(trees[i])
    {
      assert trees[i] != null ==> trees[i] in Roots();
    }

    constructor ()
      ensures Valid() && trees == [] && fresh(nodes)
    {
      trees, nodes := [], {};
    }

    /** `Tree()`. */
    method Create()
      requires Valid()
      modifies this
      ensures Valid() && nodes == old(nodes) && trees == old(trees) + [null] && Contents(|old(trees)|) == []
      ensures forall j :: 0 <= j < |old(trees)| ==> Contents(j) == old(Contents(j))
    {
      trees := trees + [null];
    }

    /** `var t = trees[i]`. */
    method Copy(i: nat)
      requires Valid() && i < |trees|
      modifies this
      ensures Valid() && nodes == old(nodes) && trees == old(trees) + [old(trees)[i]]
      ensures forall j :: 0 <= j < |old(trees)| ==> Contents(j) == old(Contents(j))
      ensures Contents(|old(trees)|) == old(Contents(i))
    {
      trees := trees + [trees[i]];
    }

    /** `trees[i] = trees[j]`. */
    method Assign(i: nat, j: nat)
      requires Valid() && i < |trees| && j < |trees|
      modifies this
      ensures Valid() && nodes == old(nodes) && trees == old(trees)[i := old(trees)[j]]
      ensures forall k :: 0 <= k < |trees| ==> Contents(k) == old(Contents(if k == i then j else k))
    {
      trees := trees[i := trees[j]];
    }

    method EnsureUnique(i: nat)
      requires Valid() && i < |trees|
      modifies this
      ensures Valid() && fresh(nodes - old(nodes))
      ensures |trees| == old(|trees|) && forall j :: 0 <= j < |trees| && j != i ==> trees[j] == old(trees[j])
      ensures trees[i] == null || IsKnownUniquelyReferenced(i)
      ensures forall j :: 0 <= j < |trees| ==> Contents(j) == old(Contents(j))
    {
      hide InOrder, Ordered;
      if !IsKnownUniquelyReferenced(i) {
        TreeIsOwned(i);
        ghost var roots := Roots();
        var copy := Rebuild(trees[i]);
        nodes := nodes + ReprOf(copy);
        trees := trees[i := copy];
        assert forall n :: n in Roots() ==> n in roots || n == copy;
      }
    }

    /** Adds `value` to tree `i` and to no other tree. */
    method Insert(i: nat, value: int)
      requires Valid() && i < |trees|
      modifies this, nodes
      ensures Valid() && fresh(nodes - old(nodes))
      ensures |trees| == old(|trees|) && forall j :: 0 <= j < |trees| && j != i ==> trees[j] == old(trees[j])
      ensures IsKnownUniquelyReferenced(i)
      ensures multiset(Contents(i)) == old(multiset(Contents(i))) + multiset{value} && Sorted(Contents(i))
      ensures forall j :: 0 <= j < |trees| && j != i ==> Contents(j) == old(Contents(j))
    {
      EnsureUnique(i);
      InsertedValues(ShapeOf(trees[i]), value);
      InsertInPlace(i, value);
      OrderedIsSorted(ShapeOf(trees[i]));
    }

    /** The rest of `insert`, on a tree that shares no node with another. */
    method InsertInPlace(i: nat, value: int)
      requires Valid() && i < |trees| && (trees[i] == null || IsKnownUniquelyReferenced(i))
      modifies this, nodes
      ensures Valid() && fresh(nodes - old(nodes))
      ensures |trees| == old(|trees|) && forall j :: 0 <= j < |trees| && j != i ==> trees[j] == old(trees[j])
      ensures IsKnownUniquelyReferenced(i)
      ensures ShapeOf(trees[i]) == Inserted(old(ShapeOf(trees[i])), value)
      ensures forall j :: 0 <= j < |trees| && j != i ==> ShapeOf(trees[j]) == old(ShapeOf(trees[j]))
    {
      hide InOrder, Ordered, Inserted;
      TreeIsOwned(i);
      ghost var others := set n: Node | n in Roots() && n != trees[i];
      var root := InsertApart(trees[i], value, others, nodes);
      nodes := nodes + root.repr;
      trees := trees[i := root];
      forall n | n in Roots()
        ensures n in others + {root}
      {
        var j :| 0 <= j < |trees| && trees[j] == n;
      }
    }

    method Contains(i: nat, value: int) returns (found: bool)
      requires Valid() && i < |trees|
      ensures found <==> value in Contents(i)
    {
      TreeIsOwned(i);
      found := ContainsAt(trees[i], value);
      FoundExactly(ShapeOf(trees[i]), value);
    }
  }

  // ---- runs

  datatype Op = Create | Copy(source: nat) | Assign(target: nat, source: nat) | Insert(target: nat, value: int)

  /** The trees as independent values: for each its multiset of values. */
  type Values = seq<multiset<int>>

  predicate Applicable(op: Op, count: nat) {
    match op
    case Create => true
    case Copy(source) => source < count
    case Assign(target, source) => target < count && source < count
    case Insert(target, _) => target < count
  }

  function Apply(op: Op, values: Values): Values
    requires Applicable(op, |values|)
  {
    match op
    case Create => values + [multiset{}]
    case Copy(source) => values + [values[source]]
    case Assign(target, source) => values[target := values[source]]
    case Insert(target, value) => values[target := values[target] + multiset{value}]
  }

  /** The values after a program that uses only live trees. */
  function Meaning(program: seq<Op>): Option<Values> {
    if program == [] then Some([])
    else
      var before, op := Meaning(program[..|program| - 1]), program[|program| - 1];
      if before.Some? && Applicable(op, |before.value|) then Some(Apply(op, before.value)) else None
  }

  ghost predicate Implements(store: Store, values: Values)
    reads store, store.nodes
  {
    && store.Valid() && |store.trees| == |values|
    && forall i :: 0 <= i < |values| ==> multiset(store.Contents(i)) == values[i]
  }

  method Step(store: Store, op: Op, ghost values: Values)
    requires Implements(store, values) && Applicable(op, |values|)
    modifies store, store.nodes
    ensures Implements(store, Apply(op, values)) && fresh(store.nodes - old(store.nodes))
  {
    hide InOrder, Ordered, Sorted;
    match op
    case Create =>
      store.Create();
    case Copy(source) =>
      store.Copy(source);
    case Assign(target, source) =>
      store.Assign(target, source);
    case Insert(target, value) =>
      store.Insert(target, value);
  }

  lemma {:induction false} PrefixHasMeaning(program: seq<Op>, k: nat)
    requires Meaning(program).Some? && k <= |program|
    ensures Meaning(program[..k]).Some?
  {
    if k == |program| {
      assert program[..k] == program;
    } else {
      PrefixHasMeaning(program[..|program| - 1], k);
      assert program[..|program| - 1][..k] == program[..k];
    }
  }

  /** Every run of creations, copies, assignments and inserts, on shared and rebuilt nodes,
      leaves the values that it would leave if no two trees ever shared a node. */
  method Run(program: seq<Op>) returns (store: Store)
    requires Meaning(program).Some?
    ensures fresh(store) && Implements(store, Meaning(program).value)
  {
    store := new Store();
    assert program[..0] == [];
    for k := 0 to |program|
      invariant fresh(store) && fresh(store.nodes)
      invariant Meaning(program[..k]).Some? && Implements(store, Meaning(program[..k]).value)
    {
      PrefixHasMeaning(program, k + 1);
      assert program[..k + 1][..k] == program[..k];
      Step(store, program[k], Meaning(program[..k]).value);
    }
    assert program[..|program|] == program;
  }
}
