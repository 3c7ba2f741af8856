/** Level order in numbers: which slot holds which node (src/execution/runtimes/python/harness/canonical/adapters.py:86-141). */
module TreeLevels {
  import opened Wrappers
  import opened LevelOrder
  import opened TreeNodes

  /** The trees in the order in which a breadth-first walk meets them, absent ones included. */
  function Visit<P>(q: seq<Tree<P>>): seq<Tree<P>>
    decreases Weights(q)
  {
    if q == [] then []
    else
      WeightsStep(q);
      [q[0]] + Visit(if q[0].Bin? then q[1..] + [q[0].left, q[0].right] else q[1..])
  }

  function Label<P>(t: Tree<P>): Slot<P> {
    if t.Bin? then t.val else None
  }

  /** How many of the trees are nodes. */
  function Nodes<P>(ts: seq<Tree<P>>): nat {
    if ts == [] then 0 else (if ts[0].Bin? then 1 else 0) + Nodes(ts[1..])
  }

  ghost predicate Labels<P>(slots: seq<Slot<P>>, ts: seq<Tree<P>>) {
    |slots| == |ts| && forall k | 0 <= k < |ts| :: slots[k] == Label(ts[k])
  }

  /** With `r` nodes before it, a node's children stand at `n + 2 * r` and the position after. */
  ghost predicate ChildrenAt<P>(ts: seq<Tree<P>>, n: nat, k: nat)
    requires k < |ts|
  {
    var r := Nodes(ts[..k]);
    ts[k].Bin? ==> n + 2 * r + 1 < |ts| && ts[n + 2 * r] == ts[k].left && ts[n + 2 * r + 1] == ts[k].right
  }

  ghost predicate AllChildrenAt<P>(ts: seq<Tree<P>>, n: nat) {
    forall k | 0 <= k < |ts| :: ChildrenAt(ts, n, k)
  }

  lemma {:induction false} VisitLabels<P>(q: seq<Tree<P>>)
    ensures Labels(Level(q), Visit(q))
    decreases Weights(q)
  {
    if q != [] {
      WeightsStep(q);
      var next := if q[0].Bin? then q[1..] + [q[0].left, q[0].right] else q[1..];
      VisitLabels(next);
      assert Level(q) == [Label(q[0])] + Level(next);
      assert Visit(q) == [q[0]] + Visit(next);
    }
  }

  lemma {:induction false} VisitStarts<P>(q: seq<Tree<P>>)
    ensures |q| <= |Visit(q)| && Visit(q)[..|q|] == q
    decreases Weights(q)
  {
    if q != [] {
      WeightsStep(q);
      var next := if q[0].Bin? then q[1..] + [q[0].left, q[0].right] else q[1..];
      VisitStarts(next);
      assert Visit(q) == [q[0]] + Visit(next);
      assert Visit(q)[..|q|] == [q[0]] + Visit(next)[..|q| - 1];
      assert Visit(next)[..|q| - 1] == next[..|q| - 1] == q[1..];
    }
  }

  lemma NodesCons<P>(t: Tree<P>, ts: seq<Tree<P>>, k: nat)
    requires k <= |ts|
    ensures Nodes(([t] + ts)[..k + 1]) == (if t.Bin? then 1 else 0) + Nodes(ts[..k])
  {
    assert ([t] + ts)[..k + 1] == [t] + ts[..k];
  }

  lemma {:induction false} VisitChildren<P>(q: seq<Tree<P>>)
    ensures AllChildrenAt(Visit(q), |q|)
    decreases Weights(q)
  {
    if q != [] {
      WeightsStep(q);
      var t := q[0];
      var next := if t.Bin? then q[1..] + [t.left, t.right] else q[1..];
      var ts, rest := Visit(q), Visit(next);
      VisitChildren(next);
      VisitStarts(next);
      assert ts == [t] + rest;
      hide Visit, Weights;
      forall k | 0 <= k < |ts| ensures ChildrenAt(ts, |q|, k) {
        if k == 0 {
          FirstChildren(q, t, rest);
        } else {
          assert ChildrenAt(rest, |next|, k - 1);
          LaterChildren(t, rest, |q|, k - 1);
        }
      }
    }
  }

  lemma FirstChildren<P>(q: seq<Tree<P>>, t: Tree<P>, rest: seq<Tree<P>>)
    requires q != []
    requires var next := if t.Bin? then q[1..] + [t.left, t.right] else q[1..];
      |next| <= |rest| && rest[..|next|] == next
    ensures ChildrenAt([t] + rest, |q|, 0)
  {
    assert ([t] + rest)[..0] == [];
    if t.Bin? {
      var next := q[1..] + [t.left, t.right];
      assert rest[|q| - 1] == next[|q| - 1] == t.left && rest[|q|] == next[|q|] == t.right;
    }
  }

  lemma LaterChildren<P>(t: Tree<P>, rest: seq<Tree<P>>, n: nat, k: nat)
    requires n > 0 && k < |rest| && ChildrenAt(rest, if t.Bin? then n + 1 else n - 1, k)
    ensures ChildrenAt([t] + rest, n, k + 1)
  {
    NodesCons(t, rest, k);
  }

  /**
   Slot 0 holds the root; the children of a node that has `r` nodes before it are held by the slots
   `2 * r + 1` and `2 * r + 2`, the left one first. Absent trees have slots and no children.
   */
  lemma SlotsInLevelOrder<P>(t: Tree<P>) returns (ts: seq<Tree<P>>)
    ensures ts != [] && ts[0] == t && Labels(Level([t]), ts)
    ensures AllChildrenAt(ts, 1)
  {
    ts := Visit([t]);
    VisitLabels([t]);
    VisitStarts([t]);
    VisitChildren([t]);
    assert ts[..1][0] == ts[0];
  }

  /** A node with two leaves. */
  function Three<P>(a: P, b: P, c: P): Tree<P> {
    Bin(Bin(Nil, Some(b), Nil), Some(a), Bin(Nil, Some(c), Nil))
  }

  lemma ThreeSlots<P>(a: P, b: P, c: P)
    ensures Build([Some(a), Some(b), Some(c)]) == Three(a, b, c)
  {
    var t := Three(a, b, c);
    var l, r := t.left, t.right;
    assert [t][1..] + [l, r] == [l, r] && [l, r][1..] + [Nil, Nil] == [r, Nil, Nil];
    assert [r, Nil, Nil][1..] + [Nil, Nil] == [Nil, Nil, Nil, Nil];
    assert Level([t]) == [Some(a)] + Level([l, r]);
    assert Level([l, r]) == [Some(b)] + Level([r, Nil, Nil]);
    assert Level([r, Nil, Nil]) == [Some(c)] + Level([Nil, Nil, Nil, Nil]);
    AbsentLevel<P>(4);
    assert Level<P>([Nil, Nil, Nil, Nil]) == Nones<P>(4) by { assert Absents<P>(4) == [Nil, Nil, Nil, Nil]; }
    var slots := [Some(a), Some(b), Some(c)];
    assert Level([t]) == slots + Nones(4);
    StripNones(slots, Nones<P>(4));
    assert Slots(t) == slots;
    assert Solid(l) && Solid(r) && Solid(t);
    BuildOfSlots(t);
  }

  function Absents<P>(n: nat): seq<Tree<P>> {
    seq(n, _ => Nil)
  }

  lemma {:induction false} AbsentLevel<P>(n: nat)
    ensures Level(Absents<P>(n)) == Nones<P>(n)
  {
    if n > 0 {
      AbsentLevel<P>(n - 1);
      assert Absents<P>(n)[1..] == Absents<P>(n - 1);
      assert Nones<P>(n) == [None] + Nones<P>(n - 1);
    }
  }

  lemma ShowsNode<P>(node: TreeNode?<P>, t: Tree<P>, nodes: set<TreeNode<P>>)
    requires t.Bin? && Shows(node, t, nodes)
    ensures node != null && node in nodes && node.val == t.val
    ensures Shows(node.left, t.left, nodes) && Shows(node.right, t.right, nodes)
    ensures t.left.Nil? ==> node.left == null
    ensures t.right.Nil? ==> node.right == null
  {
  }

  /** On the heap: three slots are the root, its left child and its right child. */
  method BuildThree<P>(a: P, b: P, c: P) returns (root: TreeNode<P>)
    ensures root.val == Some(a)
    ensures root.left != null && root.left.val == Some(b) && root.left.left == null && root.left.right == null
    ensures root.right != null && root.right.val == Some(c) && root.right.left == null && root.right.right == null
  {
    var built, nodes := BuildTree([Some(a), Some(b), Some(c)]);
    ThreeSlots(a, b, c);
    ghost var t := Three(a, b, c);
    ShowsNode(built, t, nodes);
    ShowsNode(built.left, t.left, nodes);
    ShowsNode(built.right, t.right, nodes);
    root := built;
  }
}
