/**
 * The binary search tree of static/bst.js. A node is a `Tree` value:
 * `null` is `Nil`, and the in-place assignments `root.left = insert(...)`,
 * `root.right = deleteNode(...)` and `root.value = ...` become the
 * rebuilt node the recursive call returns. The while-loops (`findMin`,
 * `search`, `contains`, `findMinVal`, `findMaxVal`) are methods walking
 * the tree. The same functions specify the imperative tree of mm.py
 * (module MmBst).
 */
module Bst {
  import opened Types

  datatype Tree = Nil | Node(left: Tree, value: int, right: Tree)

  /** The values held by the nodes of `t`. */
  function Values(t: Tree): set<int>
  {
    match t
    case Nil => {}
    case Node(l, x, r) => Values(l) + {x} + Values(r)
  }

  /** Binary-search-tree order: every left value is smaller, every right value larger. */
  ghost predicate Ordered(t: Tree)
  {
    match t
    case Nil => true
    case Node(l, x, r) =>
      Ordered(l) && Ordered(r) &&
      (forall y :: y in Values(l) ==> y < x) &&
      (forall y :: y in Values(r) ==> x < y)
  }

  /** The value of the leftmost node: the minimum of an ordered tree. */
  function MinValue(t: Tree): (m: int)
    requires t.Node?
    ensures m in Values(t)
  {
    if t.left == Nil then t.value else MinValue(t.left)
  }

  /** The value of the rightmost node: the maximum of an ordered tree. */
  function MaxValue(t: Tree): (m: int)
    requires t.Node?
    ensures m in Values(t)
  {
    if t.right == Nil then t.value else MaxValue(t.right)
  }

  // ---------------------------------------------------------------- insert

  /** `insert(root, value)`: a new leaf for null, a value equal to the node's is ignored. */
  function Insert(t: Tree, v: int): (r: Tree)
    ensures r.Node?
    ensures Values(r) == Values(t) + {v}
  {
    match t
    case Nil => Node(Nil, v, Nil)
    case Node(l, x, rt) =>
      if v < x then Node(Insert(l, v), x, rt)
      else if v > x then Node(l, x, Insert(rt, v))
      else t
  }

  // ---------------------------------------------------------------- delete

  /** `findMin(node)`: follows left links down to the leftmost node. */
  method FindMin(t: Tree) returns (m: Tree)
    requires t.Node?
    ensures m.Node? && m.left == Nil
    ensures m.value == MinValue(t)
  {
    m := t;
    while m.left != Nil
      invariant m.Node? && MinValue(m) == MinValue(t)
      decreases m
    {
      m := m.left;
    }
  }

  /**
   * `deleteNode(root, value)`: a node without a left child is replaced by its
   * right child, one without a right child by its left child, and a node with
   * two children takes its successor's value (the minimum of the right
   * subtree), which is then deleted from the right subtree.
   */
  function DeleteNode(t: Tree, v: int): (r: Tree)
    ensures Values(r) <= Values(t)
  {
    match t
    case Nil => Nil
    case Node(l, x, rt) =>
      if v < x then Node(DeleteNode(l, v), x, rt)
      else if v > x then Node(l, x, DeleteNode(rt, v))
      else if l == Nil then rt
      else if rt == Nil then l
      else
        var m := MinValue(rt);
        Node(l, m, DeleteNode(rt, m))
  }

  // ---------------------------------------------------------------- search

  /** The search specification: whether `v` was met, and the values visited from the root. */
  function Lookup(t: Tree, v: int): (bool, seq<int>)
  {
    match t
    case Nil => (false, [])
    case Node(l, x, r) =>
      if v == x then (true, [x])
      else
        var next := Lookup(if v < x then l else r, v);
        (next.0, [x] + next.1)
  }

  /** `search(root, value)`: walks down, recording each visited value. */
  method Search(t: Tree, v: int) returns (found: bool, path: seq<int>)
    ensures (found, path) == Lookup(t, v)
  {
    path := [];
    var cur := t;
    while cur != Nil
      invariant Lookup(cur, v).0 == Lookup(t, v).0
      invariant path + Lookup(cur, v).1 == Lookup(t, v).1
      decreases cur
    {
      assert path + Lookup(cur, v).1 == path + [cur.value] + (Lookup(cur, v).1[1..]);
      path := path + [cur.value];
      if v == cur.value {
        return true, path;
      }
      cur := if v < cur.value then cur.left else cur.right;
    }
    assert path + [] == path;
    found := false;
  }

  /** `contains(root, value)`: the same walk without the path. */
  method Contains(t: Tree, v: int) returns (b: bool)
    ensures b == Lookup(t, v).0
  {
    var cur := t;
    while cur != Nil
      invariant Lookup(cur, v).0 == Lookup(t, v).0
      decreases cur
    {
      if v == cur.value {
        return true;
      }
      cur := if v < cur.value then cur.left else cur.right;
    }
    b := false;
  }

  // ------------------------------------------------------------ traversals

  /** Reference traversals. */
  function Inorder(t: Tree): seq<int>
  {
    match t
    case Nil => []
    case Node(l, x, r) => Inorder(l) + [x] + Inorder(r)
  }

  function Preorder(t: Tree): seq<int>
  {
    match t
    case Nil => []
    case Node(l, x, r) => [x] + Preorder(l) + Preorder(r)
  }

  function Postorder(t: Tree): seq<int>
  {
    match t
    case Nil => []
    case Node(l, x, r) => Postorder(l) + Postorder(r) + [x]
  }

  /** `inorder(node, res)`: pushes the values into the accumulator `res` and returns it. */
  function InorderInto(t: Tree, res: seq<int>): (r: seq<int>)
    ensures r == res + Inorder(t)
  {
    match t
    case Nil => res
    case Node(l, x, rt) => InorderInto(rt, InorderInto(l, res) + [x])
  }

  /** `preorder(node, res)`. */
  function PreorderInto(t: Tree, res: seq<int>): (r: seq<int>)
    ensures r == res + Preorder(t)
  {
    match t
    case Nil => res
    case Node(l, x, rt) => PreorderInto(rt, PreorderInto(l, res + [x]))
  }

  /** `postorder(node, res)`. */
  function PostorderInto(t: Tree, res: seq<int>): (r: seq<int>)
    ensures r == res + Postorder(t)
  {
    match t
    case Nil => res
    case Node(l, x, rt) => PostorderInto(rt, PostorderInto(l, res)) + [x]
  }

  // ----------------------------------------------------------------- stats

  /** `height(node)`: -1 for null, otherwise one more than the taller child. */
  function Height(t: Tree): (h: int)
    ensures h >= -1
    ensures h == -1 <==> t == Nil
  {
    match t
    case Nil => -1
    case Node(l, _, r) =>
      var a := Height(l);
      var b := Height(r);
      1 + (if a >= b then a else b)
  }

  /** `countNodes(node)`. */
  function CountNodes(t: Tree): (n: nat)
    ensures n == |Inorder(t)|
  {
    match t
    case Nil => 0
    case Node(l, _, r) => 1 + CountNodes(l) + CountNodes(r)
  }

  /** `findMinVal(node)`: null for an empty tree, otherwise the leftmost value. */
  method FindMinVal(t: Tree) returns (r: Option<int>)
    ensures r == None <==> t == Nil
    ensures r.Some? ==> t.Node? && r.value == MinValue(t)
  {
    var node := t;
    while node != Nil && node.left != Nil
      invariant node.Node? ==> t.Node? && MinValue(node) == MinValue(t)
      invariant node == Nil ==> t == Nil
      decreases node
    {
      node := node.left;
    }
    r := if node != Nil then Some(node.value) else None;
  }

  /** `findMaxVal(node)`: null for an empty tree, otherwise the rightmost value. */
  method FindMaxVal(t: Tree) returns (r: Option<int>)
    ensures r == None <==> t == Nil
    ensures r.Some? ==> t.Node? && r.value == MaxValue(t)
  {
    var node := t;
    while node != Nil && node.right != Nil
      invariant node.Node? ==> t.Node? && MaxValue(node) == MaxValue(t)
      invariant node == Nil ==> t == Nil
      decreases node
    {
      node := node.right;
    }
    r := if node != Nil then Some(node.value) else None;
  }

  // ------------------------------------------------------------- positions

  lemma InorderValues(t: Tree)
    ensures forall y :: y in Inorder(t) <==> y in Values(t)
  {
  }

  /** Map `m` gives the k-th value of `s` the index `c + k`. */
  ghost predicate Numbered(m: map<int, int>, s: seq<int>, c: int)
  {
    forall k :: 0 <= k < |s| ==> s[k] in m && m[s[k]] == c + k
  }

  /**
   * `computePositions(node, positions, counter)`: numbers the nodes in
   * inorder from `counter` and returns the next free index. The JavaScript
   * `Map` keyed by node object is a map keyed by node value (the values of
   * a search tree identify its nodes), threaded through the recursion.
   */
  method ComputePositions(t: Tree, positions: map<int, int>, counter: int)
    returns (next: int, placed: map<int, int>)
    ensures next == counter + CountNodes(t)
    ensures forall y :: y in Values(t) ==> y in placed
    ensures forall y :: y in positions && y !in Values(t) ==> y in placed && placed[y] == positions[y]
    ensures Ordered(t) ==> Numbered(placed, Inorder(t), counter)
    decreases t
  {
    if t == Nil {
      return counter, positions;
    }
    var c, left := ComputePositions(t.left, positions, counter);
    next, placed := ComputePositions(t.right, left[t.value := c], c + 1);
    if Ordered(t) {
      InorderValues(t.left);
      forall k | 0 <= k < |Inorder(t.left)|
        ensures Inorder(t.left)[k] in placed && placed[Inorder(t.left)[k]] == left[Inorder(t.left)[k]]
      {
        var y := Inorder(t.left)[k];
        assert y in Inorder(t.left);
        assert y < t.value && y !in Values(t.right);
        assert y in left;
      }
      NumberedJoin(placed, left, Inorder(t.left), t.value, Inorder(t.right), Inorder(t), counter);
    }
  }

  lemma NumberedJoin(m: map<int, int>, m0: map<int, int>, a: seq<int>, x: int, b: seq<int>, s: seq<int>, c: int)
    requires s == a + [x] + b
    requires Numbered(m0, a, c)
    requires forall k :: 0 <= k < |a| ==> a[k] in m && m[a[k]] == m0[a[k]]
    requires x in m && m[x] == c + |a|
    requires Numbered(m, b, c + |a| + 1)
    ensures Numbered(m, s, c)
  {
    forall k | 0 <= k < |s|
      ensures s[k] in m && m[s[k]] == c + k
    {
      if k < |a| {
        assert s[k] == a[k];
      } else if k > |a| {
        assert s[k] == b[k - |a| - 1];
      }
    }
  }
}

/** What static/bst.js promises about its tree, proved on the functions of module Bst. */
module BstFacts {
  import opened Bst

  /** Strictly increasing. */
  predicate Increasing(s: seq<int>)
  {
    forall i, j :: 0 <= i < j < |s| ==> s[i] < s[j]
  }

  lemma {:induction false} InsertOrdered(t: Tree, v: int)
    requires Ordered(t)
    ensures Ordered(Insert(t, v))
  {
    match t
    case Nil =>
    case Node(l, x, r) =>
      if v < x {
        InsertOrdered(l, v);
      } else if v > x {
        InsertOrdered(r, v);
      }
  }

  /** Inserting a value already present leaves the tree as it was. */
  lemma {:induction false} InsertPresent(t: Tree, v: int)
    requires Ordered(t) && v in Values(t)
    ensures Insert(t, v) == t
  {
    match t
    case Node(l, x, r) =>
      if v < x {
        InsertPresent(l, v);
      } else if v > x {
        InsertPresent(r, v);
      }
  }

  lemma {:induction false} MinValueLeast(t: Tree)
    requires t.Node? && Ordered(t)
    ensures forall y :: y in Values(t) ==> MinValue(t) <= y
  {
    if t.left != Nil {
      MinValueLeast(t.left);
    }
  }

  lemma {:induction false} MaxValueGreatest(t: Tree)
    requires t.Node? && Ordered(t)
    ensures forall y :: y in Values(t) ==> y <= MaxValue(t)
  {
    if t.right != Nil {
      MaxValueGreatest(t.right);
    }
  }

  /** Deleting an absent value leaves the tree as it was. */
  lemma {:induction false} DeleteAbsent(t: Tree, v: int)
    requires v !in Values(t)
    ensures DeleteNode(t, v) == t
  {
    match t
    case Nil =>
    case Node(l, x, r) =>
      if v < x {
        DeleteAbsent(l, v);
      } else if v > x {
        DeleteAbsent(r, v);
      }
  }

  /** Deleting removes exactly `v` and keeps the search-tree order. */
  lemma {:induction false} DeleteOrdered(t: Tree, v: int)
    requires Ordered(t)
    ensures Ordered(DeleteNode(t, v))
    ensures Values(DeleteNode(t, v)) == Values(t) - {v}
  {
    match t
    case Nil =>
    case Node(l, x, r) =>
      if v < x {
        DeleteOrdered(l, v);
      } else if v > x {
        DeleteOrdered(r, v);
      } else if l != Nil && r != Nil {
        var m := MinValue(r);
        MinValueLeast(r);
        DeleteOrdered(r, m);
      }
  }

  lemma IncreasingJoin(a: seq<int>, x: int, b: seq<int>)
    requires Increasing(a) && Increasing(b)
    requires forall y :: y in a ==> y < x
    requires forall y :: y in b ==> x < y
    ensures Increasing(a + [x] + b)
  {
    var s := a + [x] + b;
    forall i, j | 0 <= i < j < |s|
      ensures s[i] < s[j]
    {
      if j < |a| {
      } else if i < |a| {
        assert s[i] in a;
        if j > |a| {
          assert s[j] in b;
        }
      } else if i == |a| {
        assert s[j] in b;
      }
    }
  }

  /** The inorder listing of a search tree is strictly increasing. */
  lemma {:induction false} InorderSorted(t: Tree)
    requires Ordered(t)
    ensures Increasing(Inorder(t))
  {
    match t
    case Nil =>
    case Node(l, x, r) =>
      InorderSorted(l);
      InorderSorted(r);
      InorderValues(l);
      InorderValues(r);
      IncreasingJoin(Inorder(l), x, Inorder(r));
  }

  /** Preorder and postorder list the same values as inorder, with the same multiplicities. */
  lemma {:induction false} TraversalsAgree(t: Tree)
    ensures multiset(Preorder(t)) == multiset(Inorder(t))
    ensures multiset(Postorder(t)) == multiset(Inorder(t))
  {
    match t
    case Nil =>
    case Node(l, x, r) =>
      TraversalsAgree(l);
      TraversalsAgree(r);
  }

  /** On a search tree, the walk finds `v` exactly when it is present. */
  lemma {:induction false} LookupFound(t: Tree, v: int)
    requires Ordered(t)
    ensures Lookup(t, v).0 <==> v in Values(t)
  {
    match t
    case Nil =>
    case Node(l, x, r) =>
      if v < x {
        LookupFound(l, v);
      } else if v > x {
        LookupFound(r, v);
      }
  }

  /**
   * The path starts at the root, visits only values of the tree, is no
   * longer than the tree is high, and when the value is found ends with it.
   */
  lemma {:induction false} LookupPath(t: Tree, v: int)
    ensures t.Node? ==> |Lookup(t, v).1| > 0 && Lookup(t, v).1[0] == t.value
    ensures forall y :: y in Lookup(t, v).1 ==> y in Values(t)
    ensures |Lookup(t, v).1| <= Height(t) + 1
    ensures Lookup(t, v).0 ==> |Lookup(t, v).1| > 0 && Lookup(t, v).1[|Lookup(t, v).1| - 1] == v
  {
    match t
    case Nil =>
    case Node(l, x, r) =>
      if v != x {
        LookupPath(if v < x then l else r, v);
      }
  }
}
