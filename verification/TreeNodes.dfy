/** Binary trees on the heap (src/execution/runtimes/python/harness/canonical/adapters.py:86-141). */
module TreeNodes {
  import opened Wrappers
  import opened LevelOrder

  class TreeNode<P> {
    var val: Option<P>
    var left: TreeNode?<P>
    var right: TreeNode?<P>

    constructor (val: Option<P>)
      ensures this.val == val && left == null && right == null
    {
      this.val, left, right := val, null, null;
    }
  }

  /** The nodes reached from `node` form the tree `t`. */
  ghost predicate Shows<P>(node: TreeNode?<P>, t: Tree<P>, nodes: set<TreeNode<P>>)
    reads nodes
  {
    match t
    case Nil => node == null
    case Bin(l, v, r) =>
      node != null && node in nodes && node.val == v && Shows(node.left, l, nodes) && Shows(node.right, r, nodes)
  }

  // ---- the plan: which tree each created node will become -------------------------------

  type Plan<P> = map<TreeNode<P>, Tree<P>>

  ghost predicate Linked<P>(child: TreeNode?<P>, t: Tree<P>, plan: Plan<P>) {
    if t.Nil? then child == null else child != null && child in plan && plan[child] == t
  }

  /** Nodes still waiting have no children yet; all others have the planned ones. */
  ghost predicate Grown<P>(waiting: set<TreeNode<P>>, plan: Plan<P>)
    reads plan.Keys
  {
    && (forall n | n in plan :: plan[n].Bin? && n.val == plan[n].val)
    && (forall n | n in plan && n in waiting :: n.left == null && n.right == null)
    && (forall n | n in plan && n !in waiting :: Linked(n.left, plan[n].left, plan) && Linked(n.right, plan[n].right, plan))
    && waiting <= plan.Keys
  }

  /** The trees at the queued positions, after the first `skip`, are the planned children of the waiting nodes. */
  ghost predicate Planned<P>(queue: seq<TreeNode<P>>, pending: seq<Tree<P>>, skip: nat, plan: Plan<P>) {
    && |pending| == skip + 2 * |queue|
    && (forall i, j | 0 <= i < j < |queue| :: queue[i] != queue[j])
    && forall k | 0 <= k < |queue| ::
         queue[k] in plan && plan[queue[k]].Bin?
         && plan[queue[k]].left == pending[skip + 2 * k] && plan[queue[k]].right == pending[skip + 2 * k + 1]
  }

  ghost function SetOf<A>(xs: seq<A>): set<A> {
    set x | x in xs
  }

  // ---- no sharing ---------------------------------------------------------------------------

  /** The children of each node. */
  type Links<P> = map<TreeNode<P>, (TreeNode?<P>, TreeNode?<P>)>

  ghost function LinksOf<P>(nodes: set<TreeNode<P>>): Links<P>
    reads nodes
  {
    map n | n in nodes :: (n.left, n.right)
  }

  ghost function Child<P>(links: Links<P>, parent: TreeNode<P>, onLeft: bool): TreeNode?<P>
    requires parent in links
  {
    if onLeft then links[parent].0 else links[parent].1
  }

  /** Every node but the root hangs in exactly one place, the root in none, and nothing else hangs anywhere. */
  ghost predicate OneParent<P>(root: TreeNode?<P>, links: Links<P>) {
    && (forall n, l | n in links && Child(links, n, l) != null :: Child(links, n, l) in links && Child(links, n, l) != root)
    && (forall n, m, l, r | n in links && m in links && Child(links, n, l) != null && Child(links, n, l) == Child(links, m, r) ::
          n == m && l == r)
    && (forall c | c in links && c != root :: exists n, l :: n in links && Child(links, n, l) == c)
  }

  ghost function Children<P>(left: TreeNode?<P>, right: TreeNode?<P>): set<TreeNode<P>> {
    (if left == null then {} else {left}) + if right == null then {} else {right}
  }

  lemma {:induction false} GrownShows<P>(node: TreeNode?<P>, t: Tree<P>, plan: Plan<P>)
    requires Grown({}, plan) && Linked(node, t, plan)
    ensures Shows(node, t, plan.Keys)
    decreases t
  {
    if t.Bin? {
      GrownShows(node.left, t.left, plan);
      GrownShows(node.right, t.right, plan);
    }
  }

  /** When the slots have run out every planned child is absent. */
  lemma {:induction false} NothingPending<P>(n: nat)
    ensures forall i | 0 <= i < n :: Read<P>(n, [])[i].Nil?
  {
    if n > 0 {
      NothingPending<P>(n - 1);
    }
  }

  lemma Skipped<P>(queue: seq<TreeNode<P>>, pending: seq<Tree<P>>, skip: nat, plan: Plan<P>)
    requires Planned(queue, pending, skip, plan) && skip > 0
    ensures Planned(queue, pending[1..], skip - 1, plan)
  {
  }

  lemma Joined<P>(queue: seq<TreeNode<P>>, pending: seq<Tree<P>>, skip: nat, plan: Plan<P>, child: TreeNode<P>)
    requires Planned(queue, pending, skip, plan) && skip > 0 && child !in plan && pending[0].Bin?
    ensures Planned(queue + [child], Next(pending), skip - 1, plan[child := pending[0]])
  {
    assert forall k | 0 <= k < |queue| :: queue[k] != child;
  }

  lemma Popped<P>(queue: seq<TreeNode<P>>, pending: seq<Tree<P>>, plan: Plan<P>)
    requires Planned(queue, pending, 0, plan) && queue != []
    ensures Planned(queue[1..], pending, 2, plan)
    ensures queue[0] in plan && plan[queue[0]].Bin?
    ensures plan[queue[0]].left == pending[0] && plan[queue[0]].right == pending[1]
    ensures SetOf(queue[1..]) == SetOf(queue) - {queue[0]}
  {
    assert plan[queue[0]].left == pending[0 + 2 * 0] && plan[queue[0]].right == pending[0 + 2 * 0 + 1];
    assert queue == [queue[0]] + queue[1..];
    assert queue[0] !in queue[1..];
    forall k | 0 <= k < |queue| - 1
      ensures plan[queue[1..][k]].left == pending[2 + 2 * k] && plan[queue[1..][k]].right == pending[2 + 2 * k + 1]
    {
      assert queue[1..][k] == queue[k + 1];
      assert plan[queue[k + 1]].left == pending[0 + 2 * (k + 1)];
    }
  }

  // ---- build_tree -----------------------------------------------------------------------

  /** One slot consumed for the next position: its node, if any, joins the queue. */
  method TakeSlot<P>(slots: seq<Slot<P>>, index: nat, queue: seq<TreeNode<P>>, ghost pending: seq<Tree<P>>, ghost skip: nat,
                     ghost plan: Plan<P>)
    returns (child: TreeNode?<P>, rest: seq<TreeNode<P>>, ghost pending': seq<Tree<P>>, ghost plan': Plan<P>)
    requires index < |slots| && skip > 0 && Planned(queue, pending, skip, plan)
    requires pending == Read(|pending|, slots[index..])
    ensures Planned(rest, pending', skip - 1, plan') && pending' == Read(|pending'|, slots[index + 1..])
    ensures skip > 1 ==> pending'[0] == pending[1]
    ensures if slots[index].None? then child == null && rest == queue && plan' == plan && pending[0].Nil?
            else child != null && fresh(child) && rest == queue + [child] && plan' == plan[child := pending[0]]
    ensures child != null ==> child.left == null && child.right == null && pending[0].Bin? && child.val == pending[0].val
    ensures child != null ==> child !in plan
  {
    hide Read, Planned;
    ghost var s := slots[index..];
    assert s[1..] == slots[index + 1..];
    assert |pending| == skip + 2 * |queue| by { PlannedLength(queue, pending, skip, plan); }
    ReadUnfolds(|pending|, s);
    pending', plan' := Next(pending), plan;
    if slots[index].None? {
      Skipped(queue, pending, skip, plan);
      return null, queue, pending', plan';
    }
    child := new TreeNode(slots[index]);
    rest := queue + [child];
    plan' := plan[child := pending[0]];
    Joined(queue, pending, skip, plan, child);
  }

  lemma PlannedLength<P>(queue: seq<TreeNode<P>>, pending: seq<Tree<P>>, skip: nat, plan: Plan<P>)
    requires Planned(queue, pending, skip, plan)
    ensures |pending| == skip + 2 * |queue|
  {
  }

  method BuildTree<P>(slots: seq<Slot<P>>) returns (root: TreeNode?<P>, ghost nodes: set<TreeNode<P>>)
    ensures fresh(nodes) && Shows(root, Build(slots), nodes) && OneParent(root, LinksOf(nodes))
  {
    if slots == [] || slots[0].None? {
      return null, {};
    }
    var first := new TreeNode(slots[0]);
    ghost var all := Read(1, slots);
    ReadUnfolds(1, slots);
    var queue := [first];
    var index := 1;
    ghost var plan: Plan<P> := map[first := all[0]];
    ghost var pending := Next(all);
    assert pending == [all[0].left, all[0].right];
    while queue != [] && index < |slots|
      invariant 1 <= index <= |slots| && fresh(plan.Keys)
      invariant first in plan && plan[first] == Build(slots)
      invariant Planned(queue, pending, 0, plan) && pending == Read(|pending|, slots[index..])
      invariant Grown(SetOf(queue), plan) && OneParent(first, LinksOf(plan.Keys))
      decreases |slots| - index
    {
      queue, index, pending, plan := Attach(slots, index, queue, first, pending, plan);
    }
    Finished(queue, pending, slots, index, plan);
    GrownShows(first, plan[first], plan);
    return first, plan.Keys;
  }

  /** Waiting nodes are done too: no slot is left for them. */
  lemma Finished<P>(queue: seq<TreeNode<P>>, pending: seq<Tree<P>>, slots: seq<Slot<P>>, index: nat, plan: Plan<P>)
    requires index <= |slots| && (queue == [] || index == |slots|)
    requires Planned(queue, pending, 0, plan) && pending == Read(|pending|, slots[index..])
    requires Grown(SetOf(queue), plan)
    ensures Grown({}, plan)
  {
    if queue != [] {
      assert slots[index..] == [];
      NothingPending<P>(|pending|);
      forall n | n in plan && n in queue ensures plan[n].left.Nil? && plan[n].right.Nil? {
        var k :| 0 <= k < |queue| && queue[k] == n;
        assert plan[queue[k]].left == pending[0 + 2 * k];
      }
    }
  }

  /** The plan has grown by children that wait, and `parent` has got its planned children. */
  ghost predicate Extends<P>(waiting: set<TreeNode<P>>, plan: Plan<P>, parent: TreeNode<P>, waiting': set<TreeNode<P>>, plan': Plan<P>)
    reads plan'.Keys
  {
    && plan.Keys <= plan'.Keys && (forall n | n in plan :: plan'[n] == plan[n])
    && waiting' == waiting - {parent} + (plan'.Keys - plan.Keys)
    && forall n | n in plan' && n !in plan :: plan'[n].Bin? && n.val == plan'[n].val && n.left == null && n.right == null
  }

  lemma GrownOn<P>(waiting: set<TreeNode<P>>, plan: Plan<P>, parent: TreeNode<P>, waiting': set<TreeNode<P>>, plan': Plan<P>)
    requires Extends(waiting, plan, parent, waiting', plan') && parent in plan && waiting <= plan.Keys
    requires forall n | n in plan :: plan[n].Bin? && n.val == plan[n].val
    requires forall n | n in plan && n in waiting && n != parent :: n.left == null && n.right == null
    requires forall n | n in plan && n !in waiting :: Linked(n.left, plan[n].left, plan) && Linked(n.right, plan[n].right, plan)
    requires Linked(parent.left, plan[parent].left, plan') && Linked(parent.right, plan[parent].right, plan')
    ensures Grown(waiting', plan')
  {
    forall n | n in plan' && n !in waiting' ensures Linked(n.left, plan'[n].left, plan') && Linked(n.right, plan'[n].right, plan') {
      if n != parent {
        assert n in plan && n !in waiting;
      }
    }
  }

  lemma SetOfSnoc<A>(xs: seq<A>, x: A)
    ensures SetOf(xs + [x]) == SetOf(xs) + {x}
  {
  }

  /** Two slots are consumed, or one if it is the last; they are the children of `parent`, which is not yet linked. */
  method TakeChildren<P>(slots: seq<Slot<P>>, index: nat, queue: seq<TreeNode<P>>, ghost pending: seq<Tree<P>>, ghost plan: Plan<P>)
    returns (left: TreeNode?<P>, right: TreeNode?<P>, queue': seq<TreeNode<P>>, index': nat,
             ghost pending': seq<Tree<P>>, ghost plan': Plan<P>)
    requires queue != [] && index < |slots|
    requires Planned(queue, pending, 0, plan) && pending == Read(|pending|, slots[index..])
    ensures index < index' <= |slots| && fresh(plan'.Keys - plan.Keys)
    ensures Planned(queue', pending', 0, plan') && pending' == Read(|pending'|, slots[index'..])
    ensures queue[0] in plan && plan[queue[0]].Bin?
    ensures Linked(left, plan[queue[0]].left, plan') && Linked(right, plan[queue[0]].right, plan')
    ensures Extends(SetOf(queue), plan, queue[0], SetOf(queue'), plan')
    ensures plan'.Keys == plan.Keys + Children(left, right) && plan.Keys !! Children(left, right) && (left != null ==> left != right)
  {
    hide Planned, Read, SetOf;
    Popped(queue, pending, plan);
    PlannedLength(queue, pending, 0, plan);
    var rest;
    left, rest, pending', plan' := TakeSlot(slots, index, queue[1..], pending, 2, plan);
    if left != null {
      SetOfSnoc<TreeNode<P>>(queue[1..], left);
    }
    index' := index + 1;
    right, queue' := null, rest;
    if index' < |slots| {
      right, queue', pending', plan' := TakeSlot(slots, index', rest, pending', 1, plan');
      if right != null {
        SetOfSnoc<TreeNode<P>>(rest, right);
      }
      index' := index' + 1;
    } else {
      PlannedLength(rest, pending', 1, plan');
      assert slots[index'..] == [];
      RunOut(rest, pending', plan');
      pending' := pending'[1..];
    }
    ghost var children := Children(left, right);
    assert plan'.Keys == plan.Keys + children;
    assert plan'.Keys - plan.Keys == children;
    assert SetOf(queue') == SetOf(queue[1..]) + children;
  }

  ghost function WithChildren<P>(links: Links<P>, parent: TreeNode<P>, left: TreeNode?<P>, right: TreeNode?<P>): Links<P> {
    links[parent := (left, right)] + map c | c in Children(left, right) :: (null, null)
  }

  /** Hanging new nodes under a childless node shares nothing. */
  lemma Attached<P>(root: TreeNode<P>, links: Links<P>, parent: TreeNode<P>, left: TreeNode?<P>, right: TreeNode?<P>)
    requires root in links && parent in links && links[parent] == (null, null) && OneParent(root, links)
    requires links.Keys !! Children(left, right) && (left != null ==> left != right)
    ensures OneParent(root, WithChildren(links, parent, left, right))
  {
    var all := WithChildren(links, parent, left, right);
    forall n, l | n in all && Child(all, n, l) != null
      ensures if n == parent then Child(all, n, l) in Children(left, right) else n in links && Child(all, n, l) == Child(links, n, l)
    {
    }
    forall c | c in all && c != root ensures exists n, l :: n in all && Child(all, n, l) == c {
      if c in Children(left, right) {
        assert Child(all, parent, c == left) == c;
      } else {
        var n, l :| n in links && Child(links, n, l) == c;
        assert n != parent && Child(all, n, l) == c;
      }
    }
  }

  lemma SameLinks<P>(before: Links<P>, after: Links<P>, parent: TreeNode<P>, left: TreeNode?<P>, right: TreeNode?<P>)
    requires parent in before && before.Keys !! Children(left, right) && after.Keys == before.Keys + Children(left, right)
    requires after[parent] == (left, right)
    requires forall n | n in before && n != parent :: after[n] == before[n]
    requires forall n | n in Children(left, right) :: after[n] == (null, null)
    ensures after == WithChildren(before, parent, left, right)
  {
    hide Children;
  }

  method Hang<P>(parent: TreeNode<P>, left: TreeNode?<P>, right: TreeNode?<P>, ghost root: TreeNode<P>, ghost nodes: set<TreeNode<P>>)
    requires root in nodes && parent in nodes && OneParent(root, LinksOf(nodes)) && parent.left == null && parent.right == null
    requires nodes !! Children(left, right) && (left != null ==> left != right)
    requires forall n | n in Children(left, right) :: n.left == null && n.right == null
    modifies parent
    ensures parent.left == left && parent.right == right && parent.val == old(parent.val)
    ensures OneParent(root, LinksOf(nodes + Children(left, right)))
  {
    hide OneParent, Children;
    ghost var before := LinksOf(nodes);
    parent.left := left;
    parent.right := right;
    Attached(root, before, parent, left, right);
    ghost var after := LinksOf(nodes + Children(left, right));
    SameLinks(before, after, parent, left, right);
  }

  lemma NewChildren<P>(waiting: set<TreeNode<P>>, plan: Plan<P>, parent: TreeNode<P>, waiting': set<TreeNode<P>>, plan': Plan<P>,
                       children: set<TreeNode<P>>)
    requires Extends(waiting, plan, parent, waiting', plan') && plan'.Keys == plan.Keys + children && plan.Keys !! children
    ensures forall n | n in children :: n.left == null && n.right == null
  {
  }

  /** One iteration: the first waiting node gets its children. */
  method Attach<P>(slots: seq<Slot<P>>, index: nat, queue: seq<TreeNode<P>>, ghost root: TreeNode<P>, ghost pending: seq<Tree<P>>,
                   ghost plan: Plan<P>)
    returns (queue': seq<TreeNode<P>>, index': nat, ghost pending': seq<Tree<P>>, ghost plan': Plan<P>)
    requires queue != [] && index < |slots|
    requires Planned(queue, pending, 0, plan) && pending == Read(|pending|, slots[index..]) && Grown(SetOf(queue), plan)
    requires root in plan && OneParent(root, LinksOf(plan.Keys))
    modifies queue[0]
    ensures index < index' <= |slots| && fresh(plan'.Keys - plan.Keys) && plan.Keys <= plan'.Keys
    ensures forall n | n in plan :: plan'[n] == plan[n]
    ensures Planned(queue', pending', 0, plan') && pending' == Read(|pending'|, slots[index'..])
    ensures Grown(SetOf(queue'), plan') && OneParent(root, LinksOf(plan'.Keys))
  {
    hide Planned, Read, OneParent, Children;
    var parent := queue[0];
    assert parent in SetOf(queue);
    var left, right;
    left, right, queue', index', pending', plan' := TakeChildren(slots, index, queue, pending, plan);
    NewChildren(SetOf(queue), plan, parent, SetOf(queue'), plan', Children(left, right));
    Hang(parent, left, right, root, plan.Keys);
    GrownOn(SetOf(queue), plan, parent, SetOf(queue'), plan');
  }

  lemma RunOut<P>(queue: seq<TreeNode<P>>, pending: seq<Tree<P>>, plan: Plan<P>)
    requires Planned(queue, pending, 1, plan) && pending == Read(|pending|, [])
    ensures pending[0].Nil? && Planned(queue, pending[1..], 0, plan) && pending[1..] == Read(|pending| - 1, [])
  {
    Skipped(queue, pending, 1, plan);
  }

  // ---- tree_to_canonical ------------------------------------------------------------------

  lemma ShowsMono<P>(node: TreeNode?<P>, t: Tree<P>, nodes: set<TreeNode<P>>)
    requires Shows(node, t, nodes)
    ensures node == null <==> t.Nil?
    ensures t.Bin? ==> node.val == t.val && Shows(node.left, t.left, nodes) && Shows(node.right, t.right, nodes)
  {
  }

  /** The queue of nodes shows the queue of trees. */
  ghost predicate ShowsAll<P>(queue: seq<TreeNode?<P>>, trees: seq<Tree<P>>, nodes: set<TreeNode<P>>)
    reads nodes
  {
    |queue| == |trees| && forall k | 0 <= k < |queue| :: Shows(queue[k], trees[k], nodes)
  }

  lemma ShowsNext<P>(queue: seq<TreeNode?<P>>, trees: seq<Tree<P>>, nodes: set<TreeNode<P>>)
    requires ShowsAll(queue, trees, nodes) && queue != []
    ensures trees != [] && (queue[0] == null <==> trees[0].Nil?)
    ensures queue[0] == null ==> ShowsAll(queue[1..], Next(trees), nodes) && First(trees[0]).None?
    ensures queue[0] != null ==>
              First(trees[0]) == queue[0].val && ShowsAll(queue[1..] + [queue[0].left, queue[0].right], Next(trees), nodes)
  {
    hide Shows;
    ShowsMono(queue[0], trees[0], nodes);
  }

  lemma ShowsOne<P>(root: TreeNode?<P>, t: Tree<P>, nodes: set<TreeNode<P>>)
    requires Shows(root, t, nodes)
    ensures ShowsAll([root], [t], nodes)
  {
  }

  method TreeToCanonical<P>(root: TreeNode?<P>, ghost t: Tree<P>, ghost nodes: set<TreeNode<P>>) returns (slots: seq<Slot<P>>)
    requires Shows(root, t, nodes)
    ensures slots == Slots(t)
  {
    hide Level, Weights, Shows, ShowsAll, Slots, Strip, Next;
    SlotsAreStripped(t);
    if root == null {
      NullSlots(root, t, nodes);
      return [];
    }
    slots := [];
    var queue: seq<TreeNode?<P>> := [root];
    ghost var trees := [t];
    ShowsOne(root, t, nodes);
    while queue != []
      invariant ShowsAll(queue, trees, nodes)
      invariant slots + Level(trees) == Level([t])
      decreases Weights(trees)
    {
      var node := queue[0];
      ShowsNext(queue, trees, nodes);
      LevelUnfolds(trees);
      ghost var before, more := slots, Level(Next(trees));
      if node == null {
        queue := queue[1..];
        slots := slots + [None];
      } else {
        slots := slots + [node.val];
        queue := queue[1..] + [node.left, node.right];
      }
      assert before + ([First(trees[0])] + more) == slots + more;
      trees := Next(trees);
    }
    EmptyLevel(queue, trees, nodes, slots);
    while slots != [] && slots[|slots| - 1].None?
      invariant Strip(slots) == Strip(Level([t]))
    {
      StripStep(slots);
      slots := slots[..|slots| - 1];
    }
    StripStep(slots);
  }

  lemma NullSlots<P>(root: TreeNode?<P>, t: Tree<P>, nodes: set<TreeNode<P>>)
    requires Shows(root, t, nodes) && root == null
    ensures Slots(t) == []
  {
  }

  lemma StripStep<P>(slots: seq<Slot<P>>)
    ensures Strip(slots) == if slots != [] && slots[|slots| - 1].None? then Strip(slots[..|slots| - 1]) else slots
  {
  }

  lemma EmptyLevel<P>(queue: seq<TreeNode?<P>>, trees: seq<Tree<P>>, nodes: set<TreeNode<P>>, slots: seq<Slot<P>>)
    requires ShowsAll(queue, trees, nodes) && queue == []
    ensures slots + Level(trees) == slots
  {
  }

  // ---- validateTree (src/judging/leetcode.ts:243-276) ----------------------------------------

  lemma LeftoverStep<P>(n: nat, slots: seq<Slot<P>>)
    ensures n == 0 || slots == [] ==> Leftover(n, slots) == slots
    ensures n > 0 && slots != [] ==> Leftover(n, slots) == Leftover(Width(n, slots[0]), slots[1..])
  {
  }

  method AllAbsent<P>(slots: seq<Slot<P>>, from: nat) returns (ok: bool)
    requires from <= |slots|
    ensures ok <==> AllNone(slots[from..])
  {
    var index := from;
    while index < |slots|
      invariant from <= index <= |slots|
      invariant forall k | from <= k < index :: slots[k].None?
    {
      if slots[index].Some? {
        assert slots[from..][index - from].Some?;
        return false;
      }
      index := index + 1;
    }
    return true;
  }

  lemma LeftoverAt<P>(n: nat, slots: seq<Slot<P>>, index: nat)
    requires n > 0 && index < |slots|
    ensures Leftover(n, slots[index..]) == Leftover(if slots[index].None? then n - 1 else n + 1, slots[index + 1..])
  {
    LeftoverStep(n, slots[index..]);
    assert slots[index..][1..] == slots[index + 1..];
  }

  lemma LeftoverNone<P>(n: nat, slots: seq<Slot<P>>)
    ensures Leftover(n, slots[|slots|..]) == []
  {
    LeftoverStep(n, slots[|slots|..]);
  }

  /** The children of one parent: up to two slots, the real ones becoming parents. */
  method TakeTwo<P>(slots: seq<Slot<P>>, from: nat, queue: seq<Slot<P>>) returns (parents: seq<Slot<P>>, index: nat)
    requires from < |slots|
    ensures from < index <= |slots|
    ensures Leftover(2 * |queue| + 2, slots[from..]) == Leftover(2 * |parents|, slots[index..])
  {
    hide Leftover;
    parents, index := queue, from;
    var child := 0;
    ghost var positions := 2 * |queue| + 2;
    while child < 2 && index < |slots|
      invariant 0 <= child <= 2 && from <= index <= |slots| && (child > 0 ==> from < index)
      invariant positions == 2 * |parents| + 2 - child
      invariant Leftover(2 * |queue| + 2, slots[from..]) == Leftover(positions, slots[index..])
      decreases 2 - child
    {
      var value := slots[index];
      LeftoverAt(positions, slots, index);
      positions := if value.None? then positions - 1 else positions + 1;
      if value.Some? {
        parents := parents + [value];
      }
      child, index := child + 1, index + 1;
    }
    if child < 2 {
      LeftoverNone(positions, slots);
      LeftoverNone(2 * |parents|, slots);
    }
  }

  lemma EmptyAllNone<P>()
    ensures AllNone<P>([])
  {
  }

  lemma NoPosition<P>(parents: seq<Slot<P>>, slots: seq<Slot<P>>, index: nat)
    requires index <= |slots| && (parents == [] || index == |slots|)
    ensures Leftover(2 * |parents|, slots[index..]) == slots[index..]
  {
    LeftoverStep(2 * |parents|, slots[index..]);
  }

  /** The queue only matters by its length: each real parent has two positions. */
  method ValidateBelowRoot<P>(slots: seq<Slot<P>>) returns (ok: bool)
    requires slots != []
    ensures ok <==> AllNone(Leftover(2, slots[1..]))
  {
    hide Leftover, AllNone;
    var parents := [slots[0]];
    var index := 1;
    while parents != [] && index < |slots|
      invariant 1 <= index <= |slots|
      invariant Leftover(2, slots[1..]) == Leftover(2 * |parents|, slots[index..])
      decreases |slots| - index
    {
      parents, index := TakeTwo(slots, index, parents[1..]);
    }
    NoPosition(parents, slots, index);
    ok := AllAbsent(slots, index);
  }

  method ValidateTree<P>(slots: seq<Slot<P>>) returns (ok: bool)
    ensures ok <==> Reachable(slots)
  {
    hide Leftover, AllNone;
    LeftoverStep(1, slots);
    if slots == [] {
      EmptyAllNone<P>();
      return true;
    }
    if slots[0].None? {
      LeftoverStep(0, slots[1..]);
      ok := AllAbsent(slots, 1);
    } else {
      ok := ValidateBelowRoot(slots);
    }
  }

  // ---- round trips on the heap -----------------------------------------------------------------

  /** Building a tree from accepted slots and writing it out again. */
  method BuildThenWrite<P>(slots: seq<Slot<P>>) returns (again: seq<Slot<P>>)
    requires Reachable(slots)
    ensures again == Strip(slots)
  {
    var root, nodes := BuildTree(slots);
    again := TreeToCanonical(root, Build(slots), nodes);
    SlotsOfBuild(slots);
  }

  /** Writing a tree out and building it again rebuilds it, exactly when no node carries a None payload. */
  method WriteThenBuild<P>(root: TreeNode?<P>, ghost t: Tree<P>, ghost nodes: set<TreeNode<P>>)
    returns (again: TreeNode?<P>, ghost rebuilt: set<TreeNode<P>>)
    requires Shows(root, t, nodes)
    ensures fresh(rebuilt) && OneParent(again, LinksOf(rebuilt)) && (Shows(again, t, rebuilt) <==> Solid(t))
  {
    var slots := TreeToCanonical(root, t, nodes);
    again, rebuilt := BuildTree(slots);
    BuildOfSlots(t);
    if Shows(again, t, rebuilt) {
      ShowsUnique(again, t, Build(slots), rebuilt);
    }
  }

  lemma {:induction false} ShowsUnique<P>(node: TreeNode?<P>, t: Tree<P>, u: Tree<P>, nodes: set<TreeNode<P>>)
    requires Shows(node, t, nodes) && Shows(node, u, nodes)
    ensures t == u
  {
    if t.Bin? {
      ShowsUnique(node.left, t.left, u.left, nodes);
      ShowsUnique(node.right, t.right, u.right, nodes);
    }
  }
}
