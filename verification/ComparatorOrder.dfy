/** The reported path is the first difference in traversal order. */
module ComparatorOrder {
  import opened Wrappers
  import opened Unicode
  import opened Words
  import V = Values
  import opened Encoding
  import opened Comparator
  import Codec
  import L = DecodingLeaves
  import S = DecodingShapes

  // ---- two visit lists agree until a point differs ---------------------------------------------

  ghost predicate Diverges(x: seq<Visit>, y: seq<Visit>, k: nat) {
    && k < |x| && k < |y| && x[..k] == y[..k]
    && x[k].Point? && y[k].Point? && x[k].suffix == y[k].suffix && x[k].token != y[k].token
  }

  ghost predicate Aligned(x: seq<Visit>, y: seq<Visit>) {
    x == y || exists k :: Diverges(x, y, k)
  }

  lemma AlignedConcat(a: seq<Visit>, b: seq<Visit>, x: seq<Visit>, y: seq<Visit>)
    requires Aligned(a, b) && (a == b ==> Aligned(x, y))
    ensures Aligned(a + x, b + y)
  {
    if a == b {
      if x != y {
        var k: nat :| Diverges(x, y, k);
        assert (a + x)[..|a| + k] == a + x[..k] && (b + y)[..|b| + k] == b + y[..k];
        assert Diverges(a + x, b + y, |a| + k);
      }
    } else {
      var k: nat :| Diverges(a, b, k);
      assert (a + x)[..k] == a[..k] && (b + y)[..k] == b[..k];
      assert Diverges(a + x, b + y, k);
    }
  }

  lemma PointsAligned(p: Path, t: Token, u: Token)
    ensures Aligned([Point(p, t)], [Point(p, u)])
  {
    if t != u {
      assert [Point(p, t)][..0] == [Point(p, u)][..0];
      assert Diverges([Point(p, t)], [Point(p, u)], 0);
    }
  }

  /** One point, then what follows if it agrees. */
  lemma PointThen(p: Path, t: Token, u: Token, x: seq<Visit>, y: seq<Visit>)
    requires t == u ==> Aligned(x, y)
    ensures Aligned([Point(p, t)] + x, [Point(p, u)] + y)
  {
    PointsAligned(p, t, u);
    if t != u {
      assert [Point(p, t)][0] != [Point(p, u)][0];
    }
    AlignedConcat([Point(p, t)], [Point(p, u)], x, y);
  }

  function KeyPoint(kids: seq<Value>, i: nat): Token
    requires 2 * i + 1 < |kids|
  {
    Encoded(Codec.Encode(kids[2 * i]))
  }

  lemma EntriesStep(kids: seq<Value>, i: nat)
    ensures 2 * i + 1 >= |kids| ==> Entries(kids, i) == []
    ensures 2 * i + 1 < |kids| ==>
              Entries(kids, i) ==
              [Point([Item(WEntries, i), Part(WKey)], KeyPoint(kids, i))]
              + ([Kid([Item(WEntries, i), Part(WValue)], 2 * i + 1)] + Entries(kids, i + 1))
  {
    hide Codec.Encode;
  }

  lemma {:induction false} EntriesAligned(e: seq<Value>, a: seq<Value>, i: nat)
    requires |e| / 2 == |a| / 2
    ensures Aligned(Entries(e, i), Entries(a, i))
    decreases |e| - 2 * i
  {
    hide KeyPoint, Aligned, Entries;
    EntriesStep(e, i);
    EntriesStep(a, i);
    if 2 * i + 1 >= |e| {
      Same(Entries(e, i), Entries(a, i));
    } else {
      EntriesAligned(e, a, i + 1);
      var kid := [Kid([Item(WEntries, i), Part(WValue)], 2 * i + 1)];
      Same(kid, kid);
      AlignedConcat(kid, kid, Entries(e, i + 1), Entries(a, i + 1));
      PointThen([Item(WEntries, i), Part(WKey)], KeyPoint(e, i), KeyPoint(a, i),
                kid + Entries(e, i + 1), kid + Entries(a, i + 1));
    }
  }

  lemma Same(x: seq<Visit>, y: seq<Visit>)
    requires x == y
    ensures Aligned(x, y)
  {
  }

  lemma RecordFieldsStep(names: seq<Text>, i: nat)
    ensures i >= |names| ==> RecordFields(names, i) == []
    ensures i < |names| ==>
              RecordFields(names, i) ==
              [Point([Item(WFields, i), Part(WName)], Name(names[i]))]
              + ([Kid([Item(WFields, i), Part(WValue)], i)] + RecordFields(names, i + 1))
  {
  }

  lemma {:induction false} RecordFieldsAligned(e: seq<Text>, a: seq<Text>, i: nat)
    requires |e| == |a|
    ensures Aligned(RecordFields(e, i), RecordFields(a, i))
    decreases |e| - i
  {
    hide Aligned, RecordFields;
    RecordFieldsStep(e, i);
    RecordFieldsStep(a, i);
    if i >= |e| {
      Same(RecordFields(e, i), RecordFields(a, i));
    } else {
      RecordFieldsAligned(e, a, i + 1);
      var kid := [Kid([Item(WFields, i), Part(WValue)], i)];
      Same(kid, kid);
      AlignedConcat(kid, kid, RecordFields(e, i + 1), RecordFields(a, i + 1));
      PointThen([Item(WFields, i), Part(WName)], Name(e[i]), Name(a[i]),
                kid + RecordFields(e, i + 1), kid + RecordFields(a, i + 1));
    }
  }

  function SlotKid(present: bool, i: nat, from: nat): seq<Visit> {
    if present then [Kid([Item(WValues, i)], from)] else []
  }

  lemma SlotsStep(present: seq<bool>, i: nat, from: nat)
    ensures i >= |present| ==> Slots(present, i, from) == []
    ensures i < |present| ==>
              Slots(present, i, from) ==
              [Point([Item(WValues, i)], Presence(present[i]))]
              + (SlotKid(present[i], i, from) + Slots(present, i + 1, if present[i] then from + 1 else from))
  {
  }

  lemma {:induction false} SlotsAligned(e: seq<bool>, a: seq<bool>, i: nat, from: nat)
    requires |e| == |a|
    ensures Aligned(Slots(e, i, from), Slots(a, i, from))
    decreases |e| - i
  {
    hide Aligned, Slots, SlotKid;
    SlotsStep(e, i, from);
    SlotsStep(a, i, from);
    if i >= |e| {
      Same(Slots(e, i, from), Slots(a, i, from));
    } else {
      var x, y := SlotKid(e[i], i, from), SlotKid(a[i], i, from);
      var next, next' := if e[i] then from + 1 else from, if a[i] then from + 1 else from;
      if e[i] == a[i] {
        SlotsAligned(e, a, i + 1, next);
        Same(x, y);
        AlignedConcat(x, y, Slots(e, i + 1, next), Slots(a, i + 1, next'));
      }
      PointThen([Item(WValues, i)], Presence(e[i]), Presence(a[i]), x + Slots(e, i + 1, next), y + Slots(a, i + 1, next'));
    }
  }

  function ExpectedVisits(o: V.Operation, at: Path, from: nat): seq<Visit> {
    if o.expects then [Kid(at + [Part(WExpected)], from + o.arguments)] else []
  }

  lemma OneOperationAligned(e: V.Operation, a: V.Operation, i: nat, from: nat)
    ensures Aligned(OneOperation(e, i, from), OneOperation(a, i, from))
    ensures OneOperation(e, i, from) == OneOperation(a, i, from) ==> e == a
  {
    hide Aligned;
    var at := [Item(WOperations, i)];
    var ex, ax := ExpectedVisits(e, at, from), ExpectedVisits(a, at, from);
    var et, at' := [Point(at + [Part(WExpected)], Presence(e.expects))] + ex, [Point(at + [Part(WExpected)], Presence(a.expects))] + ax;
    var ei, ai := Items(at, WArgs, from, e.arguments), Items(at, WArgs, from, a.arguments);
    if e.arguments == a.arguments {
      if e.expects == a.expects {
        Same(ex, ax);
      }
      PointThen(at + [Part(WExpected)], Presence(e.expects), Presence(a.expects), ex, ax);
      Same(ei, ai);
      AlignedConcat(ei, ai, et, at');
    }
    PointThen(at + [Part(WArgs)], Size(e.arguments), Size(a.arguments), ei + et, ai + at');
    var es, as' := [Point(at + [Part(WArgs)], Size(e.arguments))] + (ei + et), [Point(at + [Part(WArgs)], Size(a.arguments))] + (ai + at');
    PointThen(at + [Part(WMethod)], Name(e.name), Name(a.name), es, as');
    assert OneOperation(e, i, from) == [Point(at + [Part(WMethod)], Name(e.name))] + es;
    assert OneOperation(a, i, from) == [Point(at + [Part(WMethod)], Name(a.name))] + as';
    if OneOperation(e, i, from) == OneOperation(a, i, from) {
      assert OneOperation(e, i, from)[0] == OneOperation(a, i, from)[0];
      assert OneOperation(e, i, from)[1] == OneOperation(a, i, from)[1];
      assert OneOperation(e, i, from)[2 + e.arguments] == Point(at + [Part(WExpected)], Presence(e.expects));
      assert OneOperation(a, i, from)[2 + a.arguments] == Point(at + [Part(WExpected)], Presence(a.expects));
    }
  }

  lemma {:induction false} OperationsAligned(e: seq<V.Operation>, a: seq<V.Operation>, i: nat, from: nat)
    requires |e| == |a|
    ensures Aligned(Operations(e, i, from), Operations(a, i, from))
    decreases |e| - i
  {
    hide Aligned, OneOperation;
    if i >= |e| {
      Same(Operations(e, i, from), Operations(a, i, from));
    } else {
      OneOperationAligned(e[i], a[i], i, from);
      if e[i] == a[i] {
        OperationsAligned(e, a, i + 1, from + V.OperationArity(e[i]));
      }
      AlignedConcat(OneOperation(e[i], i, from), OneOperation(a[i], i, from),
                    Operations(e, i + 1, from + V.OperationArity(e[i])), Operations(a, i + 1, from + V.OperationArity(a[i])));
    }
  }

  // ---- values of the same tag ----------------------------------------------------------------------

  lemma SizedItemsAligned(w: Word, n: nat, m: nat)
    ensures Aligned([Point([], Size(n))] + Items([], w, 0, n), [Point([], Size(m))] + Items([], w, 0, m))
  {
    if n == m {
      Same(Items([], w, 0, n), Items([], w, 0, m));
    }
    PointThen([], Size(n), Size(m), Items([], w, 0, n), Items([], w, 0, m));
  }

  lemma TraceAligned(e: Value, a: Value)
    requires e.Node? && a.Node? && e.shape.SClassTrace? && a.shape.SClassTrace?
    ensures Aligned(NodeVisits(e), NodeVisits(a))
  {
    hide Aligned, Operations;
    var s, t := e.shape, a.shape;
    var eo, ao := Operations(s.operations, 0, s.arguments), Operations(t.operations, 0, t.arguments);
    var es, as' := [Point([Part(WOperations)], Size(|s.operations|))] + eo, [Point([Part(WOperations)], Size(|t.operations|))] + ao;
    var ei, ai := Items([], WConstructor, 0, s.arguments), Items([], WConstructor, 0, t.arguments);
    if s.arguments == t.arguments {
      if |s.operations| == |t.operations| {
        OperationsAligned(s.operations, t.operations, 0, s.arguments);
      }
      PointThen([Part(WOperations)], Size(|s.operations|), Size(|t.operations|), eo, ao);
      Same(ei, ai);
      AlignedConcat(ei, ai, es, as');
    }
    PointThen([Part(WConstructor)], Size(s.arguments), Size(t.arguments), ei + es, ai + as');
    var ec, ac := [Point([Part(WConstructor)], Size(s.arguments))] + (ei + es), [Point([Part(WConstructor)], Size(t.arguments))] + (ai + as');
    PointThen([], Name(s.name), Name(t.name), ec, ac);
    assert NodeVisits(e) == [Point([], Name(s.name))] + ec;
    assert NodeVisits(a) == [Point([], Name(t.name))] + ac;
  }

  lemma RecordAligned(e: Value, a: Value)
    requires e.Node? && a.Node? && e.shape.SRecord? && a.shape.SRecord?
    ensures Aligned(NodeVisits(e), NodeVisits(a))
  {
    hide Aligned, RecordFields;
    var s, t := e.shape, a.shape;
    var ef, af := RecordFields(s.fields, 0), RecordFields(t.fields, 0);
    if |s.fields| == |t.fields| {
      RecordFieldsAligned(s.fields, t.fields, 0);
    }
    PointThen([], Size(|s.fields|), Size(|t.fields|), ef, af);
    PointThen([], Kind(s.namedTuple, s.name), Kind(t.namedTuple, t.name), [Point([], Size(|s.fields|))] + ef, [Point([], Size(|t.fields|))] + af);
    assert NodeVisits(e) == [Point([], Kind(s.namedTuple, s.name))] + ([Point([], Size(|s.fields|))] + ef);
    assert NodeVisits(a) == [Point([], Kind(t.namedTuple, t.name))] + ([Point([], Size(|t.fields|))] + af);
  }

  lemma ListNodeAligned(e: Value, a: Value)
    requires e.Node? && a.Node? && e.shape.SListNode? && a.shape.SListNode?
    ensures Aligned(NodeVisits(e), NodeVisits(a))
  {
    hide Aligned;
    var x, y := [Point([], Size(|e.kids|))] + Items([], WValues, 0, |e.kids|), [Point([], Size(|a.kids|))] + Items([], WValues, 0, |a.kids|);
    SizedItemsAligned(WValues, |e.kids|, |a.kids|);
    PointThen([], Cycle(e.shape.cycle), Cycle(a.shape.cycle), x, y);
    assert NodeVisits(e) == [Point([], Cycle(e.shape.cycle))] + x;
    assert NodeVisits(a) == [Point([], Cycle(a.shape.cycle))] + y;
  }

  lemma EnumAligned(e: Value, a: Value)
    requires e.Node? && a.Node? && e.shape.SEnum? && a.shape.SEnum?
    ensures Aligned(NodeVisits(e), NodeVisits(a))
  {
    hide Aligned;
    var kid := [Kid([Part(WValue)], 0)];
    Same(kid, kid);
    PointThen([], Names(e.shape.name, e.shape.member), Names(a.shape.name, a.shape.member), kid, kid);
    assert NodeVisits(e) == [Point([], Names(e.shape.name, e.shape.member))] + kid;
    assert NodeVisits(a) == [Point([], Names(a.shape.name, a.shape.member))] + kid;
  }

  lemma NodesAligned(e: Value, a: Value)
    requires e.Node? && a.Node? && S.NodeTag(e.shape) == S.NodeTag(a.shape)
    ensures Aligned(NodeVisits(e), NodeVisits(a))
  {
    hide Aligned, Entries, Slots, RecordFields, Operations, Codec.Encode, Items;
    match e.shape
    case SList(_) => SizedItemsAligned(WItems, |e.kids|, |a.kids|);
    case SSet(_) => SizedItemsAligned(WItems, |e.kids|, |a.kids|);
    case SDict =>
      if |e.kids| / 2 == |a.kids| / 2 { EntriesAligned(e.kids, a.kids, 0); }
      PointThen([], Size(|e.kids| / 2), Size(|a.kids| / 2), Entries(e.kids, 0), Entries(a.kids, 0));
    case SComplex => Same(NodeVisits(e), NodeVisits(a));
    case SEnum(_, _) => EnumAligned(e, a);
    case SRecord(_, _, _) => RecordAligned(e, a);
    case SException(_, _, _) => PointsAligned([], Encoded(Codec.Encode(e)), Encoded(Codec.Encode(a)));
    case SListNode(_) => ListNodeAligned(e, a);
    case STreeNode(_) =>
      if |e.shape.present| == |a.shape.present| { SlotsAligned(e.shape.present, a.shape.present, 0, 0); }
      PointThen([], Size(|e.shape.present|), Size(|a.shape.present|), Slots(e.shape.present, 0, 0), Slots(a.shape.present, 0, 0));
    case SClassTrace(_, _, _) => TraceAligned(e, a);
  }

  function TagOf(v: Value): Word {
    match v
    case Leaf(l) => L.LeafTag(l)
    case Node(s, _) => S.NodeTag(s)
  }

  function Rest(v: Value): seq<Visit> {
    match v
    case Leaf(l) => [Point([], Content(l))]
    case Node(_, _) => NodeVisits(v)
  }

  lemma VisitsSplit(v: Value)
    ensures Visits(v) == [Point([], Tagged(TagOf(v)))] + Rest(v)
  {
    hide NodeVisits;
  }

  /** Whatever two values are, their visit lists agree up to the first point that differs. */
  lemma VisitsAligned(e: Value, a: Value)
    ensures Aligned(Visits(e), Visits(a))
  {
    hide Aligned, NodeVisits, Visits;
    VisitsSplit(e);
    VisitsSplit(a);
    if TagOf(e) == TagOf(a) {
      if e.Leaf? {
        PointsAligned([], Content(e.leaf), Content(a.leaf));
      } else {
        NodesAligned(e, a);
      }
    }
    PointThen([], Tagged(TagOf(e)), Tagged(TagOf(a)), Rest(e), Rest(a));
  }

  // ---- indices ---------------------------------------------------------------------------------------

  /** TypeScript's types, all the way down. */
  predicate Typed(v: Value) {
    match v
    case Leaf(_) => true
    case Node(s, kids) => V.Fits(s, kids) && forall i | 0 <= i < |kids| :: Typed(kids[i])
  }

  predicate Below(vs: seq<Visit>, n: nat) {
    forall k | 0 <= k < |vs| && vs[k].Kid? :: vs[k].index < n
  }

  lemma BelowConcat(x: seq<Visit>, y: seq<Visit>, n: nat)
    requires Below(x, n) && Below(y, n)
    ensures Below(x + y, n)
  {
  }

  lemma {:induction false} EntriesBelow(kids: seq<Value>, i: nat)
    ensures Below(Entries(kids, i), |kids|)
    decreases |kids| - 2 * i
  {
    hide Codec.Encode;
    if 2 * i + 1 < |kids| {
      EntriesBelow(kids, i + 1);
    }
  }

  lemma {:induction false} RecordFieldsBelow(names: seq<Text>, i: nat)
    ensures Below(RecordFields(names, i), |names|)
    decreases |names| - i
  {
    if i < |names| {
      RecordFieldsBelow(names, i + 1);
    }
  }

  lemma {:induction false} SlotsBelow(present: seq<bool>, i: nat, from: nat)
    requires i <= |present|
    ensures Below(Slots(present, i, from), from + V.Present(present[i..]))
    decreases |present| - i
  {
    if i < |present| {
      SlotsBelow(present, i + 1, if present[i] then from + 1 else from);
      assert present[i..][1..] == present[i + 1..];
    }
  }

  lemma {:induction false} OperationsBelow(os: seq<V.Operation>, i: nat, from: nat)
    requires i <= |os|
    ensures Below(Operations(os, i, from), from + V.OperationsArity(os[i..]))
    decreases |os| - i
  {
    hide OneOperation;
    if i < |os| {
      var n := from + V.OperationsArity(os[i..]);
      OperationsBelow(os, i + 1, from + V.OperationArity(os[i]));
      assert os[i..][1..] == os[i + 1..];
      OneOperationBelow(os[i], i, from, n);
      BelowConcat(OneOperation(os[i], i, from), Operations(os, i + 1, from + V.OperationArity(os[i])), n);
    }
  }

  lemma OneOperationBelow(o: V.Operation, i: nat, from: nat, n: nat)
    requires from + V.OperationArity(o) <= n
    ensures Below(OneOperation(o, i, from), n)
  {
  }

  lemma ItemsBelow(head: seq<Visit>, prefix: Path, w: Word, from: nat, count: nat, n: nat)
    requires Below(head, n) && from + count <= n
    ensures Below(head + Items(prefix, w, from, count), n)
  {
    BelowConcat(head, Items(prefix, w, from, count), n);
  }

  lemma TraceBelow(v: Value)
    requires v.Node? && v.shape.SClassTrace? && V.Arity(v.shape, |v.kids|)
    ensures Below(NodeVisits(v), |v.kids|)
  {
    hide Operations;
    var s, n := v.shape, |v.kids|;
    OperationsBelow(s.operations, 0, s.arguments);
    assert s.operations[0..] == s.operations;
    var flag := [Point([Part(WOperations)], Size(|s.operations|))];
    BelowConcat(flag, Operations(s.operations, 0, s.arguments), n);
    BelowConcat(Items([], WConstructor, 0, s.arguments), flag + Operations(s.operations, 0, s.arguments), n);
  }

  lemma NodeVisitsBelow(v: Value)
    requires v.Node? && V.Arity(v.shape, |v.kids|)
    ensures Below(NodeVisits(v), |v.kids|)
  {
    hide Codec.Encode, Entries, Slots, RecordFields, Operations, Items;
    var n := |v.kids|;
    match v.shape
    case SList(_) => ItemsBelow([Point([], Size(n))], [], WItems, 0, n, n);
    case SSet(_) => ItemsBelow([Point([], Size(n))], [], WItems, 0, n, n);
    case SListNode(cycle) => ItemsBelow([Point([], Cycle(cycle)), Point([], Size(n))], [], WValues, 0, n, n);
    case SDict =>
      EntriesBelow(v.kids, 0);
      BelowConcat([Point([], Size(n / 2))], Entries(v.kids, 0), n);
    case SRecord(namedTuple, name, fields) =>
      RecordFieldsBelow(fields, 0);
      BelowConcat([Point([], Kind(namedTuple, name)), Point([], Size(|fields|))], RecordFields(fields, 0), n);
    case STreeNode(present) =>
      SlotsBelow(present, 0, 0);
      assert present[0..] == present;
      BelowConcat([Point([], Size(|present|))], Slots(present, 0, 0), n);
    case SClassTrace(_, _, _) => TraceBelow(v);
    case _ =>
  }

  lemma VisitsBelow(v: Value)
    requires Typed(v)
    ensures Below(Visits(v), |KidsOf(v)|)
  {
    hide NodeVisits;
    if v.Node? {
      NodeVisitsBelow(v);
    }
  }

  // ---- the theorem -------------------------------------------------------------------------------------

  /** `k` is the first position where the traces differ; both stand at `path` there. */
  predicate FirstDifference(x: seq<Probe>, y: seq<Probe>, k: nat, path: Path) {
    && k < |x| && k < |y| && x[..k] == y[..k] && x[k] != y[k] && x[k].path == path == y[k].path
  }

  ghost predicate Explains(r: Option<Path>, x: seq<Probe>, y: seq<Probe>) {
    match r
    case None => x == y
    case Some(path) => exists k :: FirstDifference(x, y, k, path)
  }

  lemma DifferenceExtends(x: seq<Probe>, y: seq<Probe>, u: seq<Probe>, w: seq<Probe>, path: Path)
    requires Explains(Some(path), x, y)
    ensures Explains(Some(path), x + u, y + w)
  {
    var k: nat :| FirstDifference(x, y, k, path);
    assert (x + u)[..k] == x[..k] && (y + w)[..k] == y[..k];
    assert FirstDifference(x + u, y + w, k, path);
  }

  lemma DifferenceFollows(p: seq<Probe>, x: seq<Probe>, y: seq<Probe>, r: Option<Path>)
    requires Explains(r, x, y)
    ensures Explains(r, p + x, p + y)
  {
    if r.Some? {
      var k: nat :| FirstDifference(x, y, k, r.value);
      assert (p + x)[..|p| + k] == p + x[..k] && (p + y)[..|p| + k] == p + y[..k];
      assert FirstDifference(p + x, p + y, |p| + k, r.value);
    }
  }

  /** What two aligned lists do at the first place not yet compared. */
  lemma AlignedAt(x: seq<Visit>, y: seq<Visit>, k: nat)
    requires Aligned(x, y) && k <= |x| && k <= |y| && x[..k] == y[..k]
    ensures k == |x| <==> k == |y|
    ensures k < |x| ==> x[k] == y[k] || (x[k].Point? && y[k].Point? && x[k].suffix == y[k].suffix && x[k].token != y[k].token)
  {
    if x != y {
      var d: nat :| Diverges(x, y, d);
      PrefixAgrees(x, y, k, d);
      PrefixAgrees(x, y, d, k);
    }
  }

  lemma PrefixAgrees(x: seq<Visit>, y: seq<Visit>, n: nat, k: nat)
    requires n <= |x| && n <= |y| && x[..n] == y[..n]
    ensures k < n ==> x[k] == y[k]
  {
    assert k < n ==> x[..n][k] == x[k] && y[..n][k] == y[k];
  }

  lemma {:induction false} WalkExplains(e: Value, a: Value, k: nat, path: Path)
    requires Typed(e) && Typed(a) && k <= |Visits(e)| && k <= |Visits(a)| && Visits(e)[..k] == Visits(a)[..k]
    ensures Explains(Walk(e, a, k, path), TraceFrom(e, k, path), TraceFrom(a, k, path))
    decreases e, 0, |Visits(e)| - k
  {
    hide Visits, Aligned, Explains, Typed;
    VisitsAligned(e, a);
    AlignedAt(Visits(e), Visits(a), k);
    VisitsBelow(e);
    VisitsBelow(a);
    if k == |Visits(e)| {
      Nothing();
    } else if Visits(e)[k] == Visits(a)[k] {
      assert Visits(e)[..k + 1] == Visits(e)[..k] + [Visits(e)[k]] == Visits(a)[..k + 1];
      WalkExplains(e, a, k + 1, path);
      match Visits(e)[k]
      case Point(p, t) => DifferenceFollows([Probe(path + p, t)], TraceFrom(e, k + 1, path), TraceFrom(a, k + 1, path), Walk(e, a, k + 1, path));
      case Kid(p, i) => KidExplains(e, a, k, path);
    } else {
      var p, t, u := Visits(e)[k].suffix, Visits(e)[k].token, Visits(a)[k].token;
      OneDifference(path + p, t, u);
      DifferenceExtends([Probe(path + p, t)], [Probe(path + p, u)], TraceFrom(e, k + 1, path), TraceFrom(a, k + 1, path), path + p);
    }
  }

  lemma Nothing()
    ensures Explains(None, [], [])
  {
  }

  lemma OneDifference(p: Path, t: Token, u: Token)
    requires t != u
    ensures Explains(Some(p), [Probe(p, t)], [Probe(p, u)])
  {
    assert [Probe(p, t)][..0] == [Probe(p, u)][..0];
    assert FirstDifference([Probe(p, t)], [Probe(p, u)], 0, p);
  }

  lemma TypedKid(v: Value, i: nat)
    requires Typed(v) && i < |KidsOf(v)|
    ensures Typed(KidsOf(v)[i]) && KidsOf(v)[i] < v
  {
  }

  lemma {:induction false} KidExplains(e: Value, a: Value, k: nat, path: Path)
    requires Typed(e) && Typed(a) && k < |Visits(e)| && k < |Visits(a)| && Visits(e)[k] == Visits(a)[k] && Visits(e)[k].Kid?
    requires Below(Visits(e), |KidsOf(e)|) && Below(Visits(a), |KidsOf(a)|)
    requires Explains(Walk(e, a, k + 1, path), TraceFrom(e, k + 1, path), TraceFrom(a, k + 1, path))
    ensures Explains(Walk(e, a, k, path), TraceFrom(e, k, path), TraceFrom(a, k, path))
    decreases e, 0, 0
  {
    hide Visits, Explains, Typed;
    var p, i := Visits(e)[k].suffix, Visits(e)[k].index;
    assert Visits(e)[k] == Kid(p, i);
    TypedKid(e, i);
    TypedKid(a, i);
    var x, y := KidsOf(e)[i], KidsOf(a)[i];
    MismatchIsFirstDifference(x, y, path + p);
    if Mismatch(x, y, path + p).Some? {
      DifferenceExtends(Trace(x, path + p), Trace(y, path + p), TraceFrom(e, k + 1, path), TraceFrom(a, k + 1, path),
                        Mismatch(x, y, path + p).value);
    } else {
      SameTraces(Trace(x, path + p), Trace(y, path + p));
      DifferenceFollows(Trace(x, path + p), TraceFrom(e, k + 1, path), TraceFrom(a, k + 1, path), Walk(e, a, k + 1, path));
    }
  }

  lemma SameTraces(x: seq<Probe>, y: seq<Probe>)
    requires Explains(None, x, y)
    ensures x == y
  {
  }

  /**
   No mismatch is reported exactly when the traces are equal; otherwise the path
   is that of the first position, in traversal order, where they differ.
   */
  lemma {:induction false} MismatchIsFirstDifference(e: Value, a: Value, path: Path)
    requires Typed(e) && Typed(a)
    ensures Explains(Mismatch(e, a, path), Trace(e, path), Trace(a, path))
    decreases e, 1, 0
  {
    hide Visits, Explains, Typed;
    WalkExplains(e, a, 0, path);
  }
}
