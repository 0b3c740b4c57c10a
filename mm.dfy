/**
 * The imperative binary search tree of mm.py. Node objects live in a node
 * store owned by the tree: slot k of `nodes` is the node with identity k,
 * holding its `value` and the identities of its `left` and `right` children
 * (-1 for None). `current.left = Node(value)` appends a slot and links it,
 * `node.value = ...` overwrites a slot's value, and detached nodes stay in
 * the store unreachable, as garbage would. The tree hanging from the root
 * is read back as a `Bst.Tree` value, and every operation is proved against
 * the functions of module Bst.
 */
module MmBst {
  import opened Types
  import Bst
  import BstFacts

  /** One node object: its value and its children's identities (-1 is None). */
  datatype Slot = Slot(value: int, left: int, right: int)

  /** A child link of node k: None, or a node created after k. */
  predicate Link(ns: seq<Slot>, k: int, c: int)
  {
    c == -1 || k < c < |ns|
  }

  /** Every link points to a later node, so following links always ends. */
  ghost predicate Linked(ns: seq<Slot>)
  {
    forall k :: 0 <= k < |ns| ==> Link(ns, k, ns[k].left) && Link(ns, k, ns[k].right)
  }

  /** The tree hanging from node i, as a value. */
  ghost function TreeOf(ns: seq<Slot>, i: int): Bst.Tree
    requires Linked(ns) && -1 <= i < |ns|
    decreases if i == -1 then 0 else |ns| - i
  {
    if i == -1 then Bst.Nil
    else Bst.Node(TreeOf(ns, ns[i].left), ns[i].value, TreeOf(ns, ns[i].right))
  }

  /** The identities of the nodes of the tree hanging from node i. */
  ghost function NodesOf(ns: seq<Slot>, i: int): (r: set<int>)
    requires Linked(ns) && -1 <= i < |ns|
    ensures forall k :: k in r ==> 0 <= i <= k < |ns|
    decreases if i == -1 then 0 else |ns| - i
  {
    if i == -1 then {}
    else {i} + NodesOf(ns, ns[i].left) + NodesOf(ns, ns[i].right)
  }

  // -------------------------------------------------- trees with a hole

  /** The subtree whose root holds `x`, found by searching for `x`. */
  function Sub(t: Bst.Tree, x: int): Bst.Tree
  {
    match t
    case Nil => Bst.Nil
    case Node(l, y, r) =>
      if x < y then Sub(l, x) else if x > y then Sub(r, x) else t
  }

  /** `t` with the subtree found by searching for `x` replaced by `s`. */
  function Replace(t: Bst.Tree, x: int, s: Bst.Tree): Bst.Tree
  {
    match t
    case Nil => Bst.Nil
    case Node(l, y, r) =>
      if x < y then Bst.Node(Replace(l, x, s), y, r)
      else if x > y then Bst.Node(l, y, Replace(r, x, s))
      else s
  }

  /** Searching `t` for `v` passes through the node holding `x`. */
  predicate Routes(t: Bst.Tree, x: int, v: int)
  {
    match t
    case Nil => false
    case Node(l, y, r) =>
      if x < y then v < y && Routes(l, x, v)
      else if x > y then v > y && Routes(r, x, v)
      else true
  }

  /** Inserting `v` is inserting it into the subtree its search passes through. */
  lemma {:induction false} InsertVia(t: Bst.Tree, x: int, v: int)
    requires Routes(t, x, v)
    ensures Bst.Insert(t, v) == Replace(t, x, Bst.Insert(Sub(t, x), v))
  {
    match t
    case Node(l, y, r) =>
      if x < y {
        InsertVia(l, x, v);
      } else if x > y {
        InsertVia(r, x, v);
      }
  }

  lemma {:induction false} SubValues(t: Bst.Tree, x: int)
    ensures Bst.Values(Sub(t, x)) <= Bst.Values(t)
  {
    match t
    case Nil =>
    case Node(l, y, r) =>
      if x < y {
        SubValues(l, x);
      } else if x > y {
        SubValues(r, x);
      }
  }

  /** When the search for `v` passes through `x`, it goes on to the child of `x` on `v`'s side. */
  lemma {:induction false} RoutesStep(t: Bst.Tree, x: int, v: int)
    requires Bst.Ordered(t) && Routes(t, x, v)
    requires Sub(t, x).Node? && v != x
    requires (if v < x then Sub(t, x).left else Sub(t, x).right).Node?
    ensures var c := if v < x then Sub(t, x).left else Sub(t, x).right;
      Routes(t, c.value, v) && Sub(t, c.value) == c
  {
    match t
    case Node(l, y, r) =>
      if x < y {
        RoutesStep(l, x, v);
        SubValues(l, x);
      } else if x > y {
        RoutesStep(r, x, v);
        SubValues(r, x);
      } else if v < x {
        assert l.value in Bst.Values(l);
      } else {
        assert r.value in Bst.Values(r);
      }
  }

  /** A value the search passes by, and that is not below the node it reaches, is absent. */
  lemma {:induction false} RoutesAbsent(t: Bst.Tree, x: int, v: int)
    requires Bst.Ordered(t) && Routes(t, x, v)
    requires v !in Bst.Values(Sub(t, x))
    ensures v !in Bst.Values(t)
  {
    match t
    case Node(l, y, r) =>
      if x < y {
        RoutesAbsent(l, x, v);
      } else if x > y {
        RoutesAbsent(r, x, v);
      }
  }

  // ------------------------------------------------ the store and its trees

  /** Each node of the tree hanging from i holds a value of that tree. */
  lemma {:induction false} NodeValues(ns: seq<Slot>, i: int)
    requires Linked(ns) && -1 <= i < |ns|
    ensures forall k :: k in NodesOf(ns, i) ==> ns[k].value in Bst.Values(TreeOf(ns, i))
    decreases if i == -1 then 0 else |ns| - i
  {
    if i != -1 {
      NodeValues(ns, ns[i].left);
      NodeValues(ns, ns[i].right);
    }
  }

  /** Two stores that agree on the nodes hanging from i hang the same tree from i. */
  lemma {:induction false} Agree(ns: seq<Slot>, ns2: seq<Slot>, i: int)
    requires Linked(ns) && Linked(ns2) && |ns| <= |ns2| && -1 <= i < |ns|
    requires forall k :: k in NodesOf(ns, i) ==> ns2[k] == ns[k]
    ensures TreeOf(ns2, i) == TreeOf(ns, i)
    ensures NodesOf(ns2, i) == NodesOf(ns, i)
    decreases if i == -1 then 0 else |ns| - i
  {
    if i != -1 {
      Agree(ns, ns2, ns[i].left);
      Agree(ns, ns2, ns[i].right);
    }
  }

  /** In a search tree, the two subtrees of a node share no node. */
  lemma Separate(ns: seq<Slot>, i: int)
    requires Linked(ns) && 0 <= i < |ns| && Bst.Ordered(TreeOf(ns, i))
    ensures NodesOf(ns, ns[i].left) !! NodesOf(ns, ns[i].right)
  {
    NodeValues(ns, ns[i].left);
    NodeValues(ns, ns[i].right);
  }

  /** Searching for a node's value leads to the tree hanging from that node. */
  lemma {:induction false} SubAt(ns: seq<Slot>, i: int, cur: int)
    requires Linked(ns) && -1 <= i < |ns| && cur in NodesOf(ns, i)
    requires Bst.Ordered(TreeOf(ns, i))
    ensures Sub(TreeOf(ns, i), ns[cur].value) == TreeOf(ns, cur)
    decreases if i == -1 then 0 else |ns| - i
  {
    if i != cur {
      NodeValues(ns, ns[i].left);
      NodeValues(ns, ns[i].right);
      if cur in NodesOf(ns, ns[i].left) {
        SubAt(ns, ns[i].left, cur);
      } else {
        SubAt(ns, ns[i].right, cur);
      }
    }
  }

  /**
   * Changing the one node `cur` changes the tree hanging from i exactly at
   * the place where the search for `cur`'s value ends.
   */
  lemma {:induction false} Graft(ns: seq<Slot>, ns2: seq<Slot>, i: int, cur: int)
    requires Linked(ns) && Linked(ns2) && |ns| <= |ns2|
    requires -1 <= i < |ns| && cur in NodesOf(ns, i)
    requires forall k :: 0 <= k < |ns| && k != cur ==> ns2[k] == ns[k]
    requires Bst.Ordered(TreeOf(ns, i))
    ensures TreeOf(ns2, i) == Replace(TreeOf(ns, i), ns[cur].value, TreeOf(ns2, cur))
    decreases if i == -1 then 0 else |ns| - i
  {
    if i != cur {
      var l, r := ns[i].left, ns[i].right;
      NodeValues(ns, l);
      NodeValues(ns, r);
      if cur in NodesOf(ns, l) {
        Graft(ns, ns2, l, cur);
        Agree(ns, ns2, r);
      } else {
        Graft(ns, ns2, r, cur);
        Agree(ns, ns2, l);
      }
    }
  }

  lemma {:induction false} SubOrdered(t: Bst.Tree, x: int)
    requires Bst.Ordered(t)
    ensures Bst.Ordered(Sub(t, x))
  {
    match t
    case Nil =>
    case Node(l, y, r) =>
      if x < y {
        SubOrdered(l, x);
      } else if x > y {
        SubOrdered(r, x);
      }
  }

  /** The nodes below a node of the tree hanging from i belong to that tree too. */
  lemma {:induction false} NodesWithin(ns: seq<Slot>, i: int, cur: int)
    requires Linked(ns) && -1 <= i < |ns| && cur in NodesOf(ns, i)
    ensures NodesOf(ns, cur) <= NodesOf(ns, i)
    decreases if i == -1 then 0 else |ns| - i
  {
    if cur != i {
      if cur in NodesOf(ns, ns[i].left) {
        NodesWithin(ns, ns[i].left, cur);
      } else {
        NodesWithin(ns, ns[i].right, cur);
      }
    }
  }

  // -------------------------------------------------- steps of `insert`

  /** The walk of `insert` moves on to the child on `v`'s side, and the search still passes there. */
  lemma Descend(ns: seq<Slot>, root: int, cur: int, v: int)
    requires Linked(ns) && 0 <= root < |ns| && Bst.Ordered(TreeOf(ns, root))
    requires 0 <= cur < |ns| && cur in NodesOf(ns, root)
    requires Routes(TreeOf(ns, root), ns[cur].value, v) && v != ns[cur].value
    requires (if v < ns[cur].value then ns[cur].left else ns[cur].right) != -1
    ensures var c := if v < ns[cur].value then ns[cur].left else ns[cur].right;
      Routes(TreeOf(ns, root), ns[c].value, v)
  {
    SubAt(ns, root, cur);
    RoutesStep(TreeOf(ns, root), ns[cur].value, v);
  }

  /** `insert` meeting an equal value changes nothing, which is what inserting a present value does. */
  lemma InsertFound(ns: seq<Slot>, root: int, cur: int, v: int)
    requires Linked(ns) && 0 <= root < |ns| && Bst.Ordered(TreeOf(ns, root))
    requires cur in NodesOf(ns, root) && v == ns[cur].value
    ensures v in Bst.Values(TreeOf(ns, root))
    ensures Bst.Insert(TreeOf(ns, root), v) == TreeOf(ns, root)
  {
    NodeValues(ns, root);
    BstFacts.InsertPresent(TreeOf(ns, root), v);
  }

  /** Hanging a new leaf where the search for `v` ends is inserting `v`. */
  lemma InsertAt(ns: seq<Slot>, ns2: seq<Slot>, root: int, cur: int, v: int)
    requires Linked(ns) && 0 <= root < |ns| && Bst.Ordered(TreeOf(ns, root))
    requires 0 <= cur < |ns| && cur in NodesOf(ns, root)
    requires Routes(TreeOf(ns, root), ns[cur].value, v) && v != ns[cur].value
    requires (if v < ns[cur].value then ns[cur].left else ns[cur].right) == -1
    requires ns2 == ns[cur := if v < ns[cur].value then ns[cur].(left := |ns|) else ns[cur].(right := |ns|)]
                    + [Slot(v, -1, -1)]
    ensures Linked(ns2)
    ensures TreeOf(ns2, root) == Bst.Insert(TreeOf(ns, root), v)
    ensures v !in Bst.Values(TreeOf(ns, root))
  {
    var t0 := TreeOf(ns, root);
    var x := ns[cur].value;
    var other := if v < x then ns[cur].right else ns[cur].left;
    AttachLinked(ns, ns2, cur, v);
    assert TreeOf(ns2, |ns|) == Bst.Node(Bst.Nil, v, Bst.Nil);
    Agree(ns, ns2, other);
    SubAt(ns, root, cur);
    SubOrdered(t0, x);
    Graft(ns, ns2, root, cur);
    InsertVia(t0, x, v);
    AbsentBelow(ns, cur, v);
    RoutesAbsent(t0, x, v);
  }

  lemma AttachLinked(ns: seq<Slot>, ns2: seq<Slot>, cur: int, v: int)
    requires Linked(ns) && 0 <= cur < |ns|
    requires ns2 == ns[cur := if v < ns[cur].value then ns[cur].(left := |ns|) else ns[cur].(right := |ns|)]
                    + [Slot(v, -1, -1)]
    ensures Linked(ns2)
  {
    forall k | 0 <= k < |ns2|
      ensures Link(ns2, k, ns2[k].left) && Link(ns2, k, ns2[k].right)
    {
      if k < |ns| && k != cur {
        assert ns2[k] == ns[k];
      }
    }
  }

  /** A value smaller (larger) than a node without a left (right) child is not below it. */
  lemma AbsentBelow(ns: seq<Slot>, cur: int, v: int)
    requires Linked(ns) && 0 <= cur < |ns| && Bst.Ordered(TreeOf(ns, cur)) && v != ns[cur].value
    requires (if v < ns[cur].value then ns[cur].left else ns[cur].right) == -1
    ensures v !in Bst.Values(TreeOf(ns, cur))
  {
  }

  // -------------------------------------------------- steps of `delete`

  /** The child of a node on one side. */
  function ChildOf(s: Slot, onLeft: bool): int
  {
    if onLeft then s.left else s.right
  }

  /** A node with its child on one side replaced by `c`. */
  function WithChild(s: Slot, onLeft: bool, c: int): Slot
  {
    if onLeft then s.(left := c) else s.(right := c)
  }

  /**
   * `node.left, deleted = self._delete_recursive(node.left, value)` (or the
   * same on the right): the recursive call changed only nodes below that
   * child and returned `c`, and relinking `c` leaves the other subtree and
   * everything outside `node`'s tree as they were.
   */
  lemma Relink(ns0: seq<Slot>, ns1: seq<Slot>, node: int, onLeft: bool, c: int)
    requires Linked(ns0) && 0 <= node < |ns0|
    requires NodesOf(ns0, ns0[node].left) !! NodesOf(ns0, ns0[node].right)
    requires Linked(ns1) && |ns1| == |ns0|
    requires forall k :: 0 <= k < |ns0| && k !in NodesOf(ns0, ChildOf(ns0[node], onLeft)) ==> ns1[k] == ns0[k]
    requires -1 <= c < |ns1| && (c == -1 || node < c)
    requires NodesOf(ns1, c) <= NodesOf(ns0, ChildOf(ns0[node], onLeft))
    ensures var ns2 := ns1[node := WithChild(ns1[node], onLeft, c)];
      var other := TreeOf(ns0, ChildOf(ns0[node], !onLeft));
      Linked(ns2) &&
      TreeOf(ns2, node) == (if onLeft then Bst.Node(TreeOf(ns1, c), ns0[node].value, other)
                            else Bst.Node(other, ns0[node].value, TreeOf(ns1, c))) &&
      NodesOf(ns2, node) <= NodesOf(ns0, node) &&
      forall k :: 0 <= k < |ns2| && k !in NodesOf(ns0, node) ==> ns2[k] == ns0[k]
  {
    var ns2 := ns1[node := WithChild(ns1[node], onLeft, c)];
    var o := ChildOf(ns0[node], !onLeft);
    assert ns1[node] == ns0[node];
    assert Linked(ns2) by {
      forall k | 0 <= k < |ns2|
        ensures Link(ns2, k, ns2[k].left) && Link(ns2, k, ns2[k].right)
      {
        if k != node {
          assert ns2[k] == ns1[k];
        }
      }
    }
    Agree(ns1, ns2, c);
    Agree(ns0, ns2, o);
  }

  /** Overwriting a node's value leaves the trees below it and its node set as they were. */
  lemma Overwrite(ns: seq<Slot>, node: int, m: int)
    requires Linked(ns) && 0 <= node < |ns|
    ensures var ns2 := ns[node := ns[node].(value := m)];
      Linked(ns2) &&
      TreeOf(ns2, ns[node].left) == TreeOf(ns, ns[node].left) &&
      TreeOf(ns2, ns[node].right) == TreeOf(ns, ns[node].right) &&
      NodesOf(ns2, node) == NodesOf(ns, node) &&
      NodesOf(ns2, ns[node].left) == NodesOf(ns, ns[node].left) &&
      NodesOf(ns2, ns[node].right) == NodesOf(ns, ns[node].right)
  {
    var ns2 := ns[node := ns[node].(value := m)];
    assert Linked(ns2) by {
      forall k | 0 <= k < |ns2|
        ensures Link(ns2, k, ns2[k].left) && Link(ns2, k, ns2[k].right)
      {
        if k != node {
          assert ns2[k] == ns[k];
        }
      }
    }
    Agree(ns, ns2, ns[node].left);
    Agree(ns, ns2, ns[node].right);
  }

  /** In an ordered tree no value repeats, so the node count is the number of distinct values. */
  lemma {:induction false} CountDistinct(t: Bst.Tree)
    requires Bst.Ordered(t)
    ensures Bst.CountNodes(t) == |Bst.Values(t)|
  {
    match t
    case Nil =>
    case Node(l, x, r) =>
      CountDistinct(l);
      CountDistinct(r);
      forall y | y in Bst.Values(l)
        ensures y !in Bst.Values(r)
      {
        assert y < x;
      }
      assert Bst.Values(l) !! Bst.Values(r);
      assert |Bst.Values(l) + Bst.Values(r)| == |Bst.Values(l)| + |Bst.Values(r)|;
      assert x !in Bst.Values(l) + Bst.Values(r);
  }

  // ------------------------------------------------------------- the class

  /** `BST`: the root's identity (-1 for None) and the node store. */
  class BinarySearchTree {
    var nodes: seq<Slot>
    var root: int

    ghost predicate Valid()
      reads this
    {
      Linked(nodes) && -1 <= root < |nodes| && Bst.Ordered(TreeOf(nodes, root))
    }

    /** The tree as a value. */
    ghost function Abs(): Bst.Tree
      reads this
      requires Valid()
    {
      TreeOf(nodes, root)
    }

    /** `BST()`: an empty tree. */
    constructor()
      ensures Valid() && Abs() == Bst.Nil
    {
      nodes := [];
      root := -1;
    }

    /** `insert(value)`: walks down from the root and hangs a new leaf where the walk falls off. */
    method Insert(v: int) returns (added: bool)
      requires Valid()
      modifies this
      ensures Valid()
      ensures Abs() == Bst.Insert(old(Abs()), v)
      ensures added <==> v !in Bst.Values(old(Abs()))
    {
      if root == -1 {
        nodes := nodes + [Slot(v, -1, -1)];
        root := |nodes| - 1;
        assert TreeOf(nodes, root) == Bst.Node(Bst.Nil, v, Bst.Nil);
        return true;
      }
      var cur := root;
      while true
        invariant Valid() && 0 <= cur < |nodes|
        invariant nodes == old(nodes) && root == old(root)
        invariant cur in NodesOf(nodes, root)
        invariant Routes(Abs(), nodes[cur].value, v)
        decreases |nodes| - cur
      {
        var node := nodes[cur];
        if v == node.value {
          InsertFound(nodes, root, cur, v);
          return false;
        } else if v < node.value {
          if node.left == -1 {
            var ns := nodes[cur := node.(left := |nodes|)] + [Slot(v, -1, -1)];
            InsertAt(nodes, ns, root, cur, v);
            BstFacts.InsertOrdered(Abs(), v);
            nodes := ns;
            return true;
          }
          Descend(nodes, root, cur, v);
          NodesWithin(nodes, root, cur);
          cur := node.left;
        } else {
          if node.right == -1 {
            var ns := nodes[cur := node.(right := |nodes|)] + [Slot(v, -1, -1)];
            InsertAt(nodes, ns, root, cur, v);
            BstFacts.InsertOrdered(Abs(), v);
            nodes := ns;
            return true;
          }
          Descend(nodes, root, cur, v);
          NodesWithin(nodes, root, cur);
          cur := node.right;
        }
      }
    }

    /**
     * `_delete_recursive(node, value)`: returns the identity of what replaces
     * `node` and whether `value` was found. Only nodes of `node`'s tree change.
     */
    method DeleteRecursive(node: int, v: int) returns (newNode: int, deleted: bool)
      requires Linked(nodes) && -1 <= node < |nodes| && Bst.Ordered(TreeOf(nodes, node))
      modifies this
      ensures Linked(nodes) && |nodes| == old(|nodes|) && root == old(root)
      ensures -1 <= newNode < |nodes| && (newNode == -1 || node <= newNode)
      ensures NodesOf(nodes, newNode) <= old(NodesOf(nodes, node))
      ensures forall k :: 0 <= k < |nodes| && k !in old(NodesOf(nodes, node)) ==> nodes[k] == old(nodes[k])
      ensures TreeOf(nodes, newNode) == Bst.DeleteNode(old(TreeOf(nodes, node)), v)
      ensures deleted <==> v in Bst.Values(old(TreeOf(nodes, node)))
      decreases if node == -1 then 0 else |nodes| - node, 1
    {
      if node == -1 {
        return -1, false;
      }
      var n := nodes[node];
      if v != n.value {
        newNode, deleted := DeleteBelow(node, v);
      } else if n.left == -1 && n.right == -1 {
        return -1, true;
      } else if n.left == -1 {
        return n.right, true;
      } else if n.right == -1 {
        return n.left, true;
      } else {
        newNode := DeleteBySuccessor(node);
        deleted := true;
      }
    }

    /** The first two branches of `_delete_recursive`: delete from the child on `value`'s side and relink it. */
    method DeleteBelow(node: int, v: int) returns (newNode: int, deleted: bool)
      requires Linked(nodes) && 0 <= node < |nodes| && Bst.Ordered(TreeOf(nodes, node))
      requires v != nodes[node].value
      modifies this
      ensures Linked(nodes) && |nodes| == old(|nodes|) && root == old(root)
      ensures newNode == node
      ensures NodesOf(nodes, newNode) <= old(NodesOf(nodes, node))
      ensures forall k :: 0 <= k < |nodes| && k !in old(NodesOf(nodes, node)) ==> nodes[k] == old(nodes[k])
      ensures TreeOf(nodes, newNode) == Bst.DeleteNode(old(TreeOf(nodes, node)), v)
      ensures deleted <==> v in Bst.Values(old(TreeOf(nodes, node)))
      decreases |nodes| - node, 0
    {
      ghost var ns0 := nodes;
      var n := nodes[node];
      Separate(nodes, node);
      var onLeft := v < n.value;
      var c;
      c, deleted := DeleteRecursive(ChildOf(n, onLeft), v);
      Relink(ns0, nodes, node, onLeft, c);
      nodes := nodes[node := WithChild(nodes[node], onLeft, c)];
      newNode := node;
    }

    /**
     * The two-children case of `_delete_recursive`: the node takes the value
     * of its inorder successor, which is then deleted from the right subtree.
     */
    method DeleteBySuccessor(node: int) returns (newNode: int)
      requires Linked(nodes) && 0 <= node < |nodes| && Bst.Ordered(TreeOf(nodes, node))
      requires nodes[node].left != -1 && nodes[node].right != -1
      modifies this
      ensures Linked(nodes) && |nodes| == old(|nodes|) && root == old(root)
      ensures newNode == node
      ensures NodesOf(nodes, newNode) <= old(NodesOf(nodes, node))
      ensures forall k :: 0 <= k < |nodes| && k !in old(NodesOf(nodes, node)) ==> nodes[k] == old(nodes[k])
      ensures TreeOf(nodes, newNode) == Bst.DeleteNode(old(TreeOf(nodes, node)), old(nodes[node].value))
      decreases |nodes| - node, 0
    {
      var n := nodes[node];
      ghost var l, r := TreeOf(nodes, n.left), TreeOf(nodes, n.right);
      assert l.Node? && r.Node?;
      Separate(nodes, node);
      var successor := FindMinNode(n.right);
      var m := nodes[successor].value;
      Overwrite(nodes, node, m);
      nodes := nodes[node := nodes[node].(value := m)];
      ghost var ns1 := nodes;
      var c, _ := DeleteRecursive(n.right, m);
      Relink(ns1, nodes, node, false, c);
      nodes := nodes[node := nodes[node].(right := c)];
      newNode := node;
      assert TreeOf(nodes, node) == Bst.Node(l, m, Bst.DeleteNode(r, m));
    }

    /** `_find_min(node)`: follows left links from a node to the leftmost node below it. */
    method FindMinNode(node: int) returns (m: int)
      requires Linked(nodes) && 0 <= node < |nodes|
      ensures 0 <= m < |nodes| && m in NodesOf(nodes, node) && nodes[m].left == -1
      ensures nodes[m].value == Bst.MinValue(TreeOf(nodes, node))
    {
      m := node;
      while nodes[m].left != -1
        invariant 0 <= m < |nodes| && NodesOf(nodes, m) <= NodesOf(nodes, node)
        invariant Bst.MinValue(TreeOf(nodes, m)) == Bst.MinValue(TreeOf(nodes, node))
        decreases |nodes| - m
      {
        m := nodes[m].left;
      }
    }

    /** `delete(value)`: whether `value` was present; afterwards it is absent and everything else stays. */
    method Delete(v: int) returns (deleted: bool)
      requires Valid()
      modifies this
      ensures Valid()
      ensures Abs() == Bst.DeleteNode(old(Abs()), v)
      ensures Bst.Values(Abs()) == Bst.Values(old(Abs())) - {v}
      ensures deleted <==> v in Bst.Values(old(Abs()))
    {
      BstFacts.DeleteOrdered(Abs(), v);
      root, deleted := DeleteRecursive(root, v);
    }

    /** `search(value)`: the values met walking down from the root, and whether `value` was met. */
    method Search(v: int) returns (found: bool, path: seq<int>)
      requires Valid()
      ensures (found, path) == Bst.Lookup(Abs(), v)
      ensures found <==> v in Bst.Values(Abs())
    {
      BstFacts.LookupFound(Abs(), v);
      path := [];
      var cur := root;
      while cur != -1
        invariant -1 <= cur < |nodes|
        invariant Bst.Lookup(TreeOf(nodes, cur), v).0 == Bst.Lookup(Abs(), v).0
        invariant path + Bst.Lookup(TreeOf(nodes, cur), v).1 == Bst.Lookup(Abs(), v).1
        decreases if cur == -1 then 0 else |nodes| - cur
      {
        var node := nodes[cur];
        assert path + Bst.Lookup(TreeOf(nodes, cur), v).1
          == path + [node.value] + Bst.Lookup(TreeOf(nodes, cur), v).1[1..];
        path := path + [node.value];
        if v == node.value {
          return true, path;
        } else if v < node.value {
          cur := node.left;
        } else {
          cur := node.right;
        }
      }
      assert path + [] == path;
      found := false;
    }

    /** `_inorder(node, result)`: appends the values below `node` to `result`, left subtree first. */
    method InorderFrom(node: int, result: seq<int>) returns (r: seq<int>)
      requires Linked(nodes) && -1 <= node < |nodes|
      ensures r == result + Bst.Inorder(TreeOf(nodes, node))
      decreases if node == -1 then 0 else |nodes| - node
    {
      r := result;
      if node != -1 {
        r := InorderFrom(nodes[node].left, r);
        r := r + [nodes[node].value];
        r := InorderFrom(nodes[node].right, r);
      }
    }

    /** `inorder()`: the values of the tree in strictly increasing order. */
    method Inorder() returns (r: seq<int>)
      requires Valid()
      ensures r == Bst.Inorder(Abs())
      ensures BstFacts.Increasing(r)
      ensures forall y :: y in r <==> y in Bst.Values(Abs())
    {
      r := InorderFrom(root, []);
      BstFacts.InorderSorted(Abs());
      Bst.InorderValues(Abs());
    }

    /** `_preorder(node, result)`: appends a node's value before those of its subtrees. */
    method PreorderFrom(node: int, result: seq<int>) returns (r: seq<int>)
      requires Linked(nodes) && -1 <= node < |nodes|
      ensures r == result + Bst.Preorder(TreeOf(nodes, node))
      decreases if node == -1 then 0 else |nodes| - node
    {
      r := result;
      if node != -1 {
        r := r + [nodes[node].value];
        r := PreorderFrom(nodes[node].left, r);
        r := PreorderFrom(nodes[node].right, r);
      }
    }

    /** `preorder()`: the same values as `inorder()`, root first. */
    method Preorder() returns (r: seq<int>)
      requires Valid()
      ensures r == Bst.Preorder(Abs())
      ensures multiset(r) == multiset(Bst.Inorder(Abs()))
    {
      r := PreorderFrom(root, []);
      BstFacts.TraversalsAgree(Abs());
    }

    /** `_postorder(node, result)`: appends a node's value after those of its subtrees. */
    method PostorderFrom(node: int, result: seq<int>) returns (r: seq<int>)
      requires Linked(nodes) && -1 <= node < |nodes|
      ensures r == result + Bst.Postorder(TreeOf(nodes, node))
      decreases if node == -1 then 0 else |nodes| - node
    {
      r := result;
      if node != -1 {
        r := PostorderFrom(nodes[node].left, r);
        r := PostorderFrom(nodes[node].right, r);
        r := r + [nodes[node].value];
      }
    }

    /** `postorder()`: the same values as `inorder()`, root last. */
    method Postorder() returns (r: seq<int>)
      requires Valid()
      ensures r == Bst.Postorder(Abs())
      ensures multiset(r) == multiset(Bst.Inorder(Abs()))
    {
      r := PostorderFrom(root, []);
      BstFacts.TraversalsAgree(Abs());
    }

    /** `find_min()`: None on an empty tree, otherwise the least value. */
    method FindMin() returns (r: Option<int>)
      requires Valid()
      ensures r == None <==> Abs() == Bst.Nil
      ensures r.Some? ==> r.value in Bst.Values(Abs())
      ensures r.Some? ==> forall y :: y in Bst.Values(Abs()) ==> r.value <= y
    {
      if root == -1 {
        return None;
      }
      var m := FindMinNode(root);
      BstFacts.MinValueLeast(Abs());
      r := Some(nodes[m].value);
    }

    /** `find_max()`: None on an empty tree, otherwise the value reached by following right links. */
    method FindMax() returns (r: Option<int>)
      requires Valid()
      ensures r == None <==> Abs() == Bst.Nil
      ensures r.Some? ==> r.value in Bst.Values(Abs())
      ensures r.Some? ==> forall y :: y in Bst.Values(Abs()) ==> y <= r.value
    {
      if root == -1 {
        return None;
      }
      var m := root;
      while nodes[m].right != -1
        invariant 0 <= m < |nodes|
        invariant Bst.MaxValue(TreeOf(nodes, m)) == Bst.MaxValue(Abs())
        decreases |nodes| - m
      {
        m := nodes[m].right;
      }
      BstFacts.MaxValueGreatest(Abs());
      r := Some(nodes[m].value);
    }

    /** `_height(node)`: -1 below a leaf, otherwise one more than the taller subtree. */
    method HeightFrom(node: int) returns (h: int)
      requires Linked(nodes) && -1 <= node < |nodes|
      ensures h == Bst.Height(TreeOf(nodes, node))
      ensures h == -1 <==> node == -1
      decreases if node == -1 then 0 else |nodes| - node
    {
      if node == -1 {
        return -1;
      }
      var a := HeightFrom(nodes[node].left);
      var b := HeightFrom(nodes[node].right);
      h := 1 + (if a >= b then a else b);
    }

    /** `height()`: -1 for an empty tree. */
    method Height() returns (h: int)
      requires Valid()
      ensures h == Bst.Height(Abs())
      ensures h >= -1 && (h == -1 <==> Abs() == Bst.Nil)
    {
      h := HeightFrom(root);
    }

    /** `count()`: the length of the inorder listing, which is the number of nodes. */
    method Count() returns (n: int)
      requires Valid()
      ensures n == Bst.CountNodes(Abs()) == |Bst.Values(Abs())|
    {
      var values := Inorder();
      n := |values|;
      CountDistinct(Abs());
    }
  }
}
