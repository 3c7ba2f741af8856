/** Linked lists on the heap (src/execution/runtimes/python/harness/canonical/adapters.py:46-83). */
module LinkedLists {
  import opened Wrappers

  class ListNode<P> {
    var val: P
    var next: ListNode?<P>

    constructor (val: P)
      ensures this.val == val && next == null
    {
      this.val, next := val, null;
    }
  }

  /** The nodes from the first on, each once; the last links to null, or back to the node at `cycle`. */
  ghost predicate Chain<P>(nodes: seq<ListNode<P>>, cycle: Option<nat>)
    reads nodes
  {
    && (forall i, j | 0 <= i < j < |nodes| :: nodes[i] != nodes[j])
    && (forall i | 0 <= i < |nodes| - 1 :: nodes[i].next == nodes[i + 1])
    && (nodes == [] ==> cycle == None)
    && (nodes != [] ==> nodes[|nodes| - 1].next == Target(nodes, cycle))
  }

  ghost function Target<P>(nodes: seq<ListNode<P>>, cycle: Option<nat>): ListNode?<P> {
    match cycle
    case None => null
    case Some(c) => if c < |nodes| then nodes[c] else null
  }

  ghost predicate InRange(cycle: Option<nat>, n: nat) {
    cycle.Some? ==> cycle.value < n
  }

  ghost predicate Payloads<P>(nodes: seq<ListNode<P>>, values: seq<P>)
    reads nodes
  {
    |nodes| == |values| && forall i | 0 <= i < |nodes| :: nodes[i].val == values[i]
  }

  ghost function Head<P>(nodes: seq<ListNode<P>>): ListNode?<P> {
    if nodes == [] then null else nodes[0]
  }

  datatype IndexError = IndexOutOfRange

  /** A Python list index: negative ones count from the end. */
  function PythonIndex(i: int, n: nat): Option<nat> {
    if 0 <= i < n then Some(i) else if 0 <= n + i < n then Some(n + i) else None
  }

  /** An index in range counts modulo the length; any other is refused. */
  lemma PythonIndexWraps(i: int, n: nat)
    ensures PythonIndex(i, n).Some? <==> -(n as int) <= i < n
    ensures PythonIndex(i, n).Some? ==> n > 0 && PythonIndex(i, n).value == i % n
  {
    if -(n as int) <= i < 0 {
      assert i / n == -1;
    }
  }

  /** An empty list is built as null whatever the cycle index; otherwise a bad index raises. */
  method BuildList<P>(values: seq<P>, cycleIndex: Option<int>)
    returns (r: Result<ListNode?<P>, IndexError>, ghost nodes: seq<ListNode<P>>)
    ensures r.Ok? <==> values == [] || cycleIndex.None? || PythonIndex(cycleIndex.value, |values|).Some?
    ensures r.Ok? ==> fresh(nodes) && r.value == Head(nodes) && Payloads(nodes, values)
    ensures r.Ok? ==>
              var cycle := if values == [] || cycleIndex.None? then None else PythonIndex(cycleIndex.value, |values|);
              InRange(cycle, |nodes|) && Chain(nodes, cycle)
  {
    nodes := [];
    if values == [] { return Ok(null), []; }
    var built: seq<ListNode<P>> := [];
    var i := 0;
    while i < |values|
      invariant 0 <= i <= |values| && |built| == i && fresh(built)
      invariant forall k | 0 <= k < i :: built[k].val == values[k] && built[k].next == null
      invariant forall a, b | 0 <= a < b < i :: built[a] != built[b]
    {
      var node := new ListNode(values[i]);
      built := built + [node];
      i := i + 1;
    }
    i := 0;
    while i < |built| - 1
      invariant 0 <= i <= |built| - 1 && fresh(built)
      invariant forall a, b | 0 <= a < b < |built| :: built[a] != built[b]
      invariant forall k | 0 <= k < |built| :: built[k].val == values[k]
      invariant forall k | 0 <= k < i :: built[k].next == built[k + 1]
      invariant forall k | i <= k < |built| :: built[k].next == null
    {
      var node := built[i];
      node.next := built[i + 1];
      i := i + 1;
    }
    nodes := built;
    if cycleIndex.Some? {
      var target := PythonIndex(cycleIndex.value, |built|);
      if target.None? { return Err(IndexOutOfRange), nodes; }
      var last := built[|built| - 1];
      last.next := built[target.value];
      assert Target(nodes, target) == built[target.value];
    }
    return Ok(built[0]), nodes;
  }

  /** The traversal so far: distinct linked nodes from the head, with `node` next. */
  ghost predicate Walked<P>(head: ListNode?<P>, nodes: seq<ListNode<P>>, node: ListNode?<P>)
    reads nodes
  {
    && (forall i, j | 0 <= i < j < |nodes| :: nodes[i] != nodes[j])
    && (forall i | 0 <= i < |nodes| - 1 :: nodes[i].next == nodes[i + 1])
    && (if nodes == [] then node == head else nodes[0] == head && nodes[|nodes| - 1].next == node)
  }

  lemma WalkedOn<P>(head: ListNode?<P>, nodes: seq<ListNode<P>>, node: ListNode<P>)
    requires Walked(head, nodes, node) && node !in nodes
    ensures Walked(head, nodes + [node], node.next)
  {
  }

  lemma WalkedChain<P>(head: ListNode?<P>, nodes: seq<ListNode<P>>, node: ListNode?<P>, cycle: Option<nat>)
    requires Walked(head, nodes, node) && InRange(cycle, |nodes|) && node == Target(nodes, cycle)
    ensures head == Head(nodes) && Chain(nodes, cycle)
  {
  }

  /** `seen` maps each node passed to its position. */
  ghost predicate Indexed<P>(seen: map<ListNode<P>, nat>, nodes: seq<ListNode<P>>) {
    (forall n | n in seen :: seen[n] < |nodes| && nodes[seen[n]] == n) && forall n | n in nodes :: n in seen
  }

  /**
   Traversal of any finite heap, cyclic or not: `heap` is any closed set of nodes
   holding the head, and the nodes of it not yet seen are what shrinks.
   */
  method ListToCanonical<P>(head: ListNode?<P>, ghost heap: set<ListNode<P>>)
    returns (values: seq<P>, cycleIndex: Option<nat>, ghost nodes: seq<ListNode<P>>)
    requires head != null ==> head in heap
    requires forall n | n in heap :: n.next == null || n.next in heap
    ensures head == Head(nodes) && Payloads(nodes, values)
    ensures InRange(cycleIndex, |nodes|) && Chain(nodes, cycleIndex)
  {
    hide Walked, Chain, Indexed, Payloads;
    values, nodes := [], [];
    var seen: map<ListNode<P>, nat> := map[];
    var node := head;
    NothingWalked(head);
    while node != null
      invariant (node != null ==> node in heap) && seen.Keys <= heap
      invariant Payloads(nodes, values) && Indexed(seen, nodes) && Walked(head, nodes, node)
      decreases |heap - seen.Keys|
    {
      IndexedAt(seen, nodes, node);
      if node in seen {
        WalkedChain(head, nodes, node, Some(seen[node]));
        return values, Some(seen[node]), nodes;
      }
      assert node in heap - seen.Keys;
      Shrinks(heap - (seen.Keys + {node}), heap - seen.Keys);
      IndexedOn(seen, nodes, node);
      PayloadsOn(nodes, values, node);
      WalkedOn(head, nodes, node);
      seen := seen[node := |values|];
      values := values + [node.val];
      nodes := nodes + [node];
      node := node.next;
    }
    WalkedChain(head, nodes, node, None);
    return values, None, nodes;
  }

  lemma NothingWalked<P>(head: ListNode?<P>)
    ensures Walked(head, [], head) && Indexed<P>(map[], []) && Payloads<P>([], [])
  {
  }

  lemma IndexedAt<P>(seen: map<ListNode<P>, nat>, nodes: seq<ListNode<P>>, node: ListNode<P>)
    requires Indexed(seen, nodes)
    ensures if node in seen then seen[node] < |nodes| && nodes[seen[node]] == node else node !in nodes
  {
  }

  lemma IndexedOn<P>(seen: map<ListNode<P>, nat>, nodes: seq<ListNode<P>>, node: ListNode<P>)
    requires Indexed(seen, nodes) && node !in seen
    ensures Indexed(seen[node := |nodes|], nodes + [node])
  {
  }

  lemma PayloadsOn<P>(nodes: seq<ListNode<P>>, values: seq<P>, node: ListNode<P>)
    requires Payloads(nodes, values)
    ensures |nodes| == |values| && Payloads(nodes + [node], values + [node.val])
  {
  }

  lemma Shrinks<A>(a: set<A>, b: set<A>)
    requires a < b
    ensures |a| < |b|
  {
    var x :| x in b && x !in a;
    assert b == a + {x} + (b - a - {x});
  }

  lemma LinksOn<P>(nodes: seq<ListNode<P>>, cycle: Option<nat>, k: nat)
    requires k < |nodes| && Chain(nodes, cycle)
    ensures nodes[k].next == if k + 1 < |nodes| then nodes[k + 1] else Target(nodes, cycle)
  {
  }

  /** Two chains from the same head run together. */
  lemma {:induction false} SamePrefix<P>(a: seq<ListNode<P>>, c: Option<nat>, b: seq<ListNode<P>>, d: Option<nat>, k: nat)
    requires Chain(a, c) && Chain(b, d) && Head(a) == Head(b) && k <= |a| && k <= |b|
    ensures a[..k] == b[..k]
  {
    if k > 1 {
      SamePrefix(a, c, b, d, k - 1);
      LinksOn(a, c, k - 2);
      LinksOn(b, d, k - 2);
      assert a[k - 2] == a[..k - 1][k - 2] == b[..k - 1][k - 2] == b[k - 2];
      assert a[..k] == a[..k - 1] + [a[k - 1]] && b[..k] == b[..k - 1] + [b[k - 1]];
    } else if k == 1 {
      assert a[..1] == [a[0]] && b[..1] == [b[0]];
    }
  }

  lemma TakeAgrees<A>(a: seq<A>, b: seq<A>, n: nat)
    requires n <= |a| && n <= |b| && a[..n] == b[..n]
    ensures forall k | 0 <= k < n :: a[k] == b[k]
  {
    forall k | 0 <= k < n ensures a[k] == b[k] {
      assert a[k] == a[..n][k] && b[k] == b[..n][k];
    }
  }

  /** A chain cannot go on where another one has ended. */
  lemma NotLonger<P>(a: seq<ListNode<P>>, c: Option<nat>, b: seq<ListNode<P>>, d: Option<nat>)
    requires Chain(a, c) && Chain(b, d) && InRange(c, |a|) && InRange(d, |b|) && Head(a) == Head(b)
    ensures |a| >= |b|
  {
    var n := |a|;
    if n < |b| && n > 0 {
      SamePrefix(a, c, b, d, n);
      assert a[n - 1] == b[..n][n - 1] == b[n - 1];
      LinksOn(a, c, n - 1);
      LinksOn(b, d, n - 1);
      TakeAgrees(a, b, n);
    }
  }

  /** The heap fixes the chain: its nodes, so its payloads, and where it closes. */
  lemma ChainIsUnique<P>(a: seq<ListNode<P>>, c: Option<nat>, b: seq<ListNode<P>>, d: Option<nat>)
    requires Chain(a, c) && Chain(b, d) && InRange(c, |a|) && InRange(d, |b|) && Head(a) == Head(b)
    ensures a == b && c == d
  {
    NotLonger(a, c, b, d);
    NotLonger(b, d, a, c);
    SamePrefix(a, c, b, d, |a|);
    assert a[..|a|] == a && b[..|b|] == b;
    if a != [] {
      LinksOn(a, c, |a| - 1);
      LinksOn(b, d, |b| - 1);
    }
  }

  /** Building a list and traversing it returns the payloads and the cycle index, negative ones made positive. */
  method BuildThenRead<P>(values: seq<P>, cycleIndex: Option<int>) returns (r: Result<(seq<P>, Option<nat>), IndexError>)
    requires cycleIndex.Some? && values != [] ==> PythonIndex(cycleIndex.value, |values|).Some?
    ensures r == Ok((values,
                     if values == [] || cycleIndex.None? then None else PythonIndex(cycleIndex.value, |values|)))
  {
    var built, nodes := BuildList(values, cycleIndex);
    ghost var heap := set n | n in nodes;
    ghost var cycle := if values == [] || cycleIndex.None? then None else PythonIndex(cycleIndex.value, |values|);
    forall n: ListNode<P> | n in heap ensures n.next == null || n.next in heap {
      var k :| 0 <= k < |nodes| && nodes[k] == n;
      LinksOn(nodes, cycle, k);
    }
    var again, index, walked := ListToCanonical(built.value, heap);
    ChainIsUnique(nodes, cycle, walked, index);
    assert again == values;
    return Ok((again, index));
  }
}
