/** On canonical values the comparison, equality and identity of encodings are the same thing. */
module ComparatorEquality {
  import opened Wrappers
  import opened Unicode
  import opened Words
  import V = Values
  import opened Encoding
  import opened Canonical
  import opened Comparator
  import opened ComparatorOrder
  import Codec
  import D = Decoding
  import P = JsonParser
  import L = DecodingLeaves
  import S = DecodingShapes

  type Value = V.Value

  /** A value in normal form that the encoder can write. */
  predicate Writable(v: Value) {
    Canon(v) && V.Within(v, V.Encoder)
  }

  lemma DecodedIsWritable(t: Text, v: Value)
    requires Codec.Decode(t) == Some(v)
    ensures Writable(v)
  {
    hide Canon, Codec.Named, D.Build, P.ParseDocument;
    Codec.BuiltIsCanon(P.ParseDocument(t).value);
    V.DecoderSpendsMore(v);
  }

  lemma WritableEncodes(v: Value)
    requires Writable(v)
    ensures Norm(v) == v && Codec.Encode(v) == Some(TextOf(v))
  {
    hide Canon, TextOf, Enc, V.Within, Norm;
    CanonIsFixed(v);
  }

  lemma SameTextSameValue(v: Value, w: Value)
    requires Writable(v) && Writable(w) && Codec.Encode(v) == Codec.Encode(w)
    ensures v == w
  {
    hide Writable, TextOf, Norm, Codec.Encode;
    WritableEncodes(v);
    WritableEncodes(w);
    Codec.EncodingIsInjective(v, w);
  }

  lemma {:induction false} KidMeasures(vs: seq<Value>, i: nat, side: V.Side)
    requires i < |vs|
    ensures V.Depth(vs[i], side) <= V.Depths(vs, side) && V.Count(vs[i]) <= V.Counts(vs)
  {
    if i > 0 {
      KidMeasures(vs[1..], i - 1, side);
    }
  }

  lemma KidWritable(v: Value, i: nat)
    requires Writable(v) && v.Node? && i < |v.kids|
    ensures Writable(v.kids[i])
  {
    hide Legal, Ordered, V.Fits;
    KidMeasures(v.kids, i, V.Encoder);
  }

  lemma {:induction false} CanonIsTyped(v: Value)
    requires Canon(v)
    ensures Typed(v)
  {
    if v.Node? {
      forall i | 0 <= i < |v.kids| ensures Typed(v.kids[i]) {
        CanonIsTyped(v.kids[i]);
      }
    }
  }

  // ---- equal visit lists, equal kids -------------------------------------------------------------

  /** Every sub-value from `lo` to `hi` is visited. */
  ghost predicate Covers(vs: seq<Visit>, lo: nat, hi: nat) {
    forall i | lo <= i < hi :: Visited(vs, i)
  }

  ghost predicate Visited(vs: seq<Visit>, i: nat) {
    exists k | 0 <= k < |vs| :: vs[k].Kid? && vs[k].index == i
  }

  lemma VisitedConcat(x: seq<Visit>, y: seq<Visit>, i: nat)
    requires Visited(x, i) || Visited(y, i)
    ensures Visited(x + y, i)
  {
    if Visited(x, i) {
      var k :| 0 <= k < |x| && x[k].Kid? && x[k].index == i;
      assert (x + y)[k] == x[k];
    } else {
      var k :| 0 <= k < |y| && y[k].Kid? && y[k].index == i;
      assert (x + y)[|x| + k] == y[k];
    }
  }

  lemma CoversConcat(x: seq<Visit>, y: seq<Visit>, lo: nat, mid: nat, hi: nat)
    requires Covers(x, lo, mid) && Covers(y, mid, hi)
    ensures Covers(x + y, lo, hi)
  {
    hide Visited;
    forall i | lo <= i < hi ensures Visited(x + y, i) {
      VisitedConcat(x, y, i);
    }
  }

  lemma ItemsCover(prefix: Path, w: Word, from: nat, n: nat)
    ensures Covers(Items(prefix, w, from, n), from, from + n)
  {
    forall i | from <= i < from + n ensures Visited(Items(prefix, w, from, n), i) {
      assert Items(prefix, w, from, n)[i - from].index == i;
    }
  }

  lemma {:induction false} RecordFieldsCover(names: seq<Text>, i: nat)
    ensures i <= |names| ==> Covers(RecordFields(names, i), i, |names|)
    decreases |names| - i
  {
    if i < |names| {
      RecordFieldsCover(names, i + 1);
      var head := [Point([Item(WFields, i), Part(WName)], Name(names[i])), Kid([Item(WFields, i), Part(WValue)], i)];
      assert head[1].index == i;
      CoversConcat(head, RecordFields(names, i + 1), i, i + 1, |names|);
    }
  }

  lemma {:induction false} SlotsCover(present: seq<bool>, i: nat, from: nat)
    requires i <= |present|
    ensures Covers(Slots(present, i, from), from, from + V.Present(present[i..]))
    decreases |present| - i
  {
    if i < |present| {
      assert present[i..][1..] == present[i + 1..];
      var hi := from + V.Present(present[i..]);
      var head := [Point([Item(WValues, i)], Presence(present[i]))];
      if present[i] {
        var kid := [Kid([Item(WValues, i)], from)];
        SlotsCover(present, i + 1, from + 1);
        assert kid[0].index == from;
        CoversConcat(kid, Slots(present, i + 1, from + 1), from, from + 1, hi);
        CoversConcat(head, kid + Slots(present, i + 1, from + 1), from, from, hi);
      } else {
        SlotsCover(present, i + 1, from);
        CoversConcat(head, Slots(present, i + 1, from), from, from, hi);
      }
    }
  }

  lemma OneOperationCovers(o: V.Operation, i: nat, from: nat)
    ensures Covers(OneOperation(o, i, from), from, from + V.OperationArity(o))
  {
    hide Covers;
    var at := [Item(WOperations, i)];
    var items := Items(at, WArgs, from, o.arguments);
    var mid, hi := from + o.arguments, from + V.OperationArity(o);
    var flag := [Point(at + [Part(WExpected)], Presence(o.expects))];
    var last := ExpectedVisits(o, at, from);
    var head := [Point(at + [Part(WMethod)], Name(o.name)), Point(at + [Part(WArgs)], Size(o.arguments))];
    ItemsCover(at, WArgs, from, o.arguments);
    LastCovers(o, at, from);
    NoneCovers(flag, mid);
    CoversConcat(flag, last, mid, mid, hi);
    CoversConcat(items, flag + last, from, mid, hi);
    NoneCovers(head, from);
    CoversConcat(head, items + (flag + last), from, from, hi);
    assert OneOperation(o, i, from) == head + (items + (flag + last));
  }

  lemma NoneCovers(vs: seq<Visit>, at: nat)
    ensures Covers(vs, at, at)
  {
  }

  lemma LastCovers(o: V.Operation, at: Path, from: nat)
    ensures Covers(ExpectedVisits(o, at, from), from + o.arguments, from + V.OperationArity(o))
  {
    if o.expects {
      assert ExpectedVisits(o, at, from)[0].index == from + o.arguments;
    }
  }

  lemma {:induction false} OperationsCover(os: seq<V.Operation>, i: nat, from: nat)
    requires i <= |os|
    ensures Covers(Operations(os, i, from), from, from + V.OperationsArity(os[i..]))
    decreases |os| - i
  {
    hide Covers, OneOperation;
    if i < |os| {
      assert os[i..][1..] == os[i + 1..];
      var mid := from + V.OperationArity(os[i]);
      OneOperationCovers(os[i], i, from);
      OperationsCover(os, i + 1, mid);
      CoversConcat(OneOperation(os[i], i, from), Operations(os, i + 1, mid), from, mid, from + V.OperationsArity(os[i..]));
    } else {
      NoneCovers(Operations(os, i, from), from);
    }
  }

  predicate ByText(v: Value) {
    v.Node? && (v.shape.SDict? || v.shape.SException?)
  }

  /** Outside dicts and exceptions every sub-value is visited. */
  lemma AllVisited(v: Value)
    requires v.Node? && !ByText(v) && V.Fits(v.shape, v.kids)
    ensures Covers(NodeVisits(v), 0, |v.kids|)
  {
    hide Covers, Slots, RecordFields, Operations, Items;
    var n := |v.kids|;
    match v.shape
    case SList(_) => ItemsCover([], WItems, 0, n); PointCovers([Point([], Size(n))], Items([], WItems, 0, n), n);
    case SSet(_) => ItemsCover([], WItems, 0, n); PointCovers([Point([], Size(n))], Items([], WItems, 0, n), n);
    case SComplex => ComplexCovers(v);
    case SEnum(_, _) => EnumCovers(v);
    case SRecord(namedTuple, name, fields) =>
      RecordFieldsCover(fields, 0);
      PointCovers([Point([], Kind(namedTuple, name)), Point([], Size(|fields|))], RecordFields(fields, 0), n);
    case SListNode(cycle) =>
      ItemsCover([], WValues, 0, n);
      PointCovers([Point([], Cycle(cycle)), Point([], Size(n))], Items([], WValues, 0, n), n);
    case STreeNode(present) =>
      SlotsCover(present, 0, 0);
      assert present[0..] == present;
      PointCovers([Point([], Size(|present|))], Slots(present, 0, 0), n);
    case SClassTrace(name, arguments, operations) => TraceCovers(v);
  }

  lemma PointCovers(head: seq<Visit>, tail: seq<Visit>, n: nat)
    requires Covers(tail, 0, n)
    ensures Covers(head + tail, 0, n)
  {
    NoneCovers(head, 0);
    CoversConcat(head, tail, 0, 0, n);
  }

  lemma ComplexCovers(v: Value)
    requires v.Node? && v.shape.SComplex? && |v.kids| == 2
    ensures Covers(NodeVisits(v), 0, 2)
  {
    assert NodeVisits(v)[0].index == 0 && NodeVisits(v)[1].index == 1;
  }

  lemma EnumCovers(v: Value)
    requires v.Node? && v.shape.SEnum? && |v.kids| == 1
    ensures Covers(NodeVisits(v), 0, 1)
  {
    assert NodeVisits(v)[1].index == 0;
  }

  lemma TraceCovers(v: Value)
    requires v.Node? && v.shape.SClassTrace? && V.Fits(v.shape, v.kids)
    ensures Covers(NodeVisits(v), 0, |v.kids|)
  {
    hide Covers, Operations, Items;
    var s, n := v.shape, |v.kids|;
    var os := Operations(s.operations, 0, s.arguments);
    var items, flag := Items([], WConstructor, 0, s.arguments), [Point([Part(WOperations)], Size(|s.operations|))];
    OperationsCover(s.operations, 0, s.arguments);
    assert s.operations[0..] == s.operations;
    NoneCovers(flag, s.arguments);
    CoversConcat(flag, os, s.arguments, s.arguments, n);
    ItemsCover([], WConstructor, 0, s.arguments);
    CoversConcat(items, flag + os, 0, s.arguments, n);
    PointCovers([Point([], Name(s.name)), Point([Part(WConstructor)], Size(s.arguments))], items + (flag + os), n);
  }

  // ---- equal visit lists, equal shapes --------------------------------------------------------------

  lemma {:induction false} SameRecordFields(e: seq<Text>, a: seq<Text>, i: nat)
    requires |e| == |a| && RecordFields(e, i) == RecordFields(a, i)
    ensures forall k | i <= k < |e| :: e[k] == a[k]
    decreases |e| - i
  {
    if i < |e| {
      assert RecordFields(e, i)[0] == RecordFields(a, i)[0];
      assert RecordFields(e, i)[2..] == RecordFields(e, i + 1) && RecordFields(a, i)[2..] == RecordFields(a, i + 1);
      SameRecordFields(e, a, i + 1);
    }
  }

  lemma {:induction false} SameSlots(e: seq<bool>, a: seq<bool>, i: nat, from: nat)
    requires |e| == |a| && Slots(e, i, from) == Slots(a, i, from)
    ensures forall k | i <= k < |e| :: e[k] == a[k]
    decreases |e| - i
  {
    hide Slots;
    SlotsStep(e, i, from);
    SlotsStep(a, i, from);
    if i < |e| {
      assert Slots(e, i, from)[0] == Slots(a, i, from)[0];
      var n := if e[i] then 2 else 1;
      var next := if e[i] then from + 1 else from;
      assert Slots(e, i, from)[n..] == Slots(e, i + 1, next) && Slots(a, i, from)[n..] == Slots(a, i + 1, next);
      SameSlots(e, a, i + 1, next);
    }
  }

  lemma ConcatAt(a: seq<Visit>, x: seq<Visit>, b: seq<Visit>, y: seq<Visit>, k: nat)
    requires k < |a| && k < |b|
    ensures a + x == b + y ==> a[k] == b[k]
  {
    assert (a + x)[k] == a[k] && (b + y)[k] == b[k];
  }

  lemma PrefixEqual(a: seq<Visit>, b: seq<Visit>, x: seq<Visit>, y: seq<Visit>)
    requires Aligned(a, b) && a + x == b + y
    ensures a == b && x == y
  {
    if a != b {
      var k: nat :| Diverges(a, b, k);
      ConcatAt(a, x, b, y, k);
    }
    assert (a + x)[..|a|] == a && (a + x)[|a|..] == x && (b + y)[|b|..] == y;
  }

  lemma {:induction false} SameOperations(e: seq<V.Operation>, a: seq<V.Operation>, i: nat, from: nat)
    requires |e| == |a| && Operations(e, i, from) == Operations(a, i, from)
    ensures forall k | i <= k < |e| :: e[k] == a[k]
    decreases |e| - i
  {
    hide OneOperation, Aligned;
    if i < |e| {
      OneOperationAligned(e[i], a[i], i, from);
      PrefixEqual(OneOperation(e[i], i, from), OneOperation(a[i], i, from),
                  Operations(e, i + 1, from + V.OperationArity(e[i])), Operations(a, i + 1, from + V.OperationArity(a[i])));
      SameOperations(e, a, i + 1, from + V.OperationArity(e[i]));
    }
  }

  lemma SameTrace(e: Value, a: Value)
    requires e.Node? && a.Node? && e.shape.SClassTrace? && a.shape.SClassTrace? && NodeVisits(e) == NodeVisits(a)
    ensures e.shape == a.shape
  {
    hide Operations;
    var s, t := e.shape, a.shape;
    assert NodeVisits(e)[0] == NodeVisits(a)[0] && NodeVisits(e)[1] == NodeVisits(a)[1];
    var n := s.arguments;
    assert NodeVisits(e)[2 + n] == Point([Part(WOperations)], Size(|s.operations|));
    assert NodeVisits(a)[2 + n] == Point([Part(WOperations)], Size(|t.operations|));
    assert NodeVisits(e)[3 + n..] == Operations(s.operations, 0, n);
    assert NodeVisits(a)[3 + n..] == Operations(t.operations, 0, n);
    SameOperations(s.operations, t.operations, 0, n);
    assert s.operations == t.operations;
  }

  /** Equal points determine the shape. */
  lemma SameShape(e: Value, a: Value)
    requires e.Node? && a.Node? && !ByText(e) && S.NodeTag(e.shape) == S.NodeTag(a.shape) && NodeVisits(e) == NodeVisits(a)
    requires V.Fits(e.shape, e.kids) && V.Fits(a.shape, a.kids)
    ensures e.shape == a.shape && |e.kids| == |a.kids|
  {
    hide Slots, RecordFields, Operations, Items;
    assert NodeVisits(e)[0] == NodeVisits(a)[0];
    match e.shape
    case SRecord(_, _, fields) =>
      assert NodeVisits(e)[1] == NodeVisits(a)[1];
      assert NodeVisits(e)[2..] == RecordFields(fields, 0) && NodeVisits(a)[2..] == RecordFields(a.shape.fields, 0);
      SameRecordFields(fields, a.shape.fields, 0);
      assert fields == a.shape.fields;
    case SListNode(_) => assert NodeVisits(e)[1] == NodeVisits(a)[1];
    case STreeNode(present) =>
      assert NodeVisits(e)[1..] == Slots(present, 0, 0) && NodeVisits(a)[1..] == Slots(a.shape.present, 0, 0);
      SameSlots(present, a.shape.present, 0, 0);
      assert present == a.shape.present;
    case SClassTrace(_, _, _) => SameTrace(e, a);
    case _ =>
  }

  // ---- no mismatch, equal values ----------------------------------------------------------------------

  /** The sub-value visited at `k` has no mismatch. */
  ghost predicate KidAgrees(e: Value, a: Value, k: nat, path: Path) {
    k < |Visits(e)| && Visits(e)[k].Kid? && Visits(e)[k].index < |KidsOf(e)| && Visits(e)[k].index < |KidsOf(a)| ==>
      Mismatch(KidsOf(e)[Visits(e)[k].index], KidsOf(a)[Visits(e)[k].index], path + Visits(e)[k].suffix).None?
  }

  lemma {:induction false} WalkNone(e: Value, a: Value, k: nat, path: Path)
    requires k <= |Visits(e)| && k <= |Visits(a)| && Visits(e)[..k] == Visits(a)[..k] && Walk(e, a, k, path).None?
    ensures Visits(e) == Visits(a)
    ensures forall n | k <= n :: KidAgrees(e, a, n, path)
    decreases |Visits(e)| - k
  {
    hide Visits, Aligned, Mismatch;
    VisitsAligned(e, a);
    AlignedAt(Visits(e), Visits(a), k);
    if k == |Visits(e)| {
      assert Visits(e)[..k] == Visits(e) && Visits(a)[..k] == Visits(a);
    } else {
      assert Visits(e)[..k + 1] == Visits(e)[..k] + [Visits(e)[k]];
      assert Visits(a)[..k + 1] == Visits(a)[..k] + [Visits(a)[k]];
      WalkNone(e, a, k + 1, path);
    }
  }

  lemma {:induction false} SameEntries(e: seq<Value>, a: seq<Value>, i: nat)
    requires |e| / 2 == |a| / 2 && Entries(e, i) == Entries(a, i)
    ensures forall k | i <= k && 2 * k + 1 < |e| :: Codec.Encode(e[2 * k]) == Codec.Encode(a[2 * k])
    ensures forall k | i <= k && 2 * k + 1 < |e| :: Visited(Entries(e, i), 2 * k + 1)
    decreases |e| - 2 * i
  {
    hide Codec.Encode, Visited;
    if 2 * i + 1 < |e| {
      EntriesStep(e, i);
      EntriesStep(a, i);
      hide Entries;
      assert Entries(e, i)[0] == Entries(a, i)[0] && Entries(e, i)[2..] == Entries(a, i)[2..];
      assert Entries(e, i)[2..] == Entries(e, i + 1) && Entries(a, i)[2..] == Entries(a, i + 1);
      SameEntries(e, a, i + 1);
      var head := Entries(e, i)[..2];
      assert Entries(e, i) == head + Entries(e, i + 1);
      forall k | i <= k && 2 * k + 1 < |e| ensures Visited(Entries(e, i), 2 * k + 1) {
        if k == i {
          KidVisited(head, 1);
        }
        VisitedConcat(head, Entries(e, i + 1), 2 * k + 1);
      }
    }
  }

  lemma KidVisited(vs: seq<Visit>, k: nat)
    requires k < |vs| && vs[k].Kid?
    ensures Visited(vs, vs[k].index)
  {
  }

  /** A visited sub-value of two values with the same visits has no mismatch. */
  lemma VisitedAgrees(e: Value, a: Value, path: Path, i: nat) returns (p: Path)
    requires e.Node? && a.Node? && Visited(NodeVisits(e), i) && i < |e.kids| && i < |a.kids|
    requires forall n :: KidAgrees(e, a, n, path)
    ensures Mismatch(e.kids[i], a.kids[i], p).None?
  {
    hide NodeVisits, Mismatch;
    var k :| 0 <= k < |NodeVisits(e)| && NodeVisits(e)[k].Kid? && NodeVisits(e)[k].index == i;
    assert Visits(e)[k + 1] == NodeVisits(e)[k];
    assert KidAgrees(e, a, k + 1, path);
    p := path + NodeVisits(e)[k].suffix;
  }

  lemma {:induction false} NoMismatchMeansEqual(e: Value, a: Value, path: Path)
    requires Writable(e) && Writable(a) && Mismatch(e, a, path).None?
    ensures e == a
    decreases e, 1
  {
    hide Visits, Writable, Walk;
    assert Walk(e, a, 0, path).None? by { MismatchIsWalk(e, a, path); }
    WalkNone(e, a, 0, path);
    VisitsSplit(e);
    VisitsSplit(a);
    hide NodeVisits;
    assert Visits(e)[0] == Visits(a)[0];
    assert Visits(e)[1..] == Rest(e) && Visits(a)[1..] == Rest(a);
    if e.Leaf? {
      assert Rest(e)[0] == Rest(a)[0];
    } else {
      NodesEqual(e, a, path);
    }
  }

  lemma MismatchIsWalk(e: Value, a: Value, path: Path)
    ensures Mismatch(e, a, path) == Walk(e, a, 0, path)
  {
  }

  lemma {:induction false} NodesEqual(e: Value, a: Value, path: Path)
    requires e.Node? && a.Node? && Writable(e) && Writable(a)
    requires S.NodeTag(e.shape) == S.NodeTag(a.shape) && NodeVisits(e) == NodeVisits(a)
    requires forall n :: KidAgrees(e, a, n, path)
    ensures e == a
    decreases e, 0
  {
    if e.shape.SException? {
      assert NodeVisits(e)[0] == NodeVisits(a)[0];
      hide Writable;
      SameTextSameValue(e, a);
    } else {
      assert V.Fits(e.shape, e.kids) && V.Fits(a.shape, a.kids);
      hide NodeVisits, Writable, KidAgrees, Visited;
      var keys := KidsToCompare(e, a);
      forall i | 0 <= i < |e.kids| ensures e.kids[i] == a.kids[i] {
        KidWritable(e, i);
        KidWritable(a, i);
        if i in keys {
          SameTextSameValue(e.kids[i], a.kids[i]);
        } else {
          var p := VisitedAgrees(e, a, path, i);
          NoMismatchMeansEqual(e.kids[i], a.kids[i], p);
        }
      }
      assert e.kids == a.kids;
    }
  }

  /** The shapes agree; each sub-value is a key with the same text on both sides or is visited. */
  lemma KidsToCompare(e: Value, a: Value) returns (keys: set<nat>)
    requires e.Node? && a.Node? && S.NodeTag(e.shape) == S.NodeTag(a.shape) && NodeVisits(e) == NodeVisits(a)
    requires V.Fits(e.shape, e.kids) && V.Fits(a.shape, a.kids) && !e.shape.SException?
    ensures e.shape == a.shape && |e.kids| == |a.kids|
    ensures forall i | 0 <= i < |e.kids| ::
              if i in keys then Codec.Encode(e.kids[i]) == Codec.Encode(a.kids[i]) else Visited(NodeVisits(e), i)
  {
    hide Codec.Encode, Visited;
    if e.shape.SDict? {
      hide Entries;
      keys := set k | 0 <= k < |e.kids| && k % 2 == 0;
      assert NodeVisits(e)[0] == NodeVisits(a)[0];
      assert NodeVisits(e)[1..] == Entries(e.kids, 0) && NodeVisits(a)[1..] == Entries(a.kids, 0);
      SameEntries(e.kids, a.kids, 0);
      forall i | 0 <= i < |e.kids|
        ensures if i in keys then Codec.Encode(e.kids[i]) == Codec.Encode(a.kids[i]) else Visited(NodeVisits(e), i)
      {
        var k := i / 2;
        assert 2 * k + 1 < |e.kids| && (i == 2 * k || i == 2 * k + 1);
        if i % 2 == 1 {
          VisitedConcat([Point([], Size(|e.kids| / 2))], Entries(e.kids, 0), i);
        }
      }
    } else {
      hide NodeVisits;
      keys := {};
      SameShape(e, a);
      AllVisited(e);
    }
  }

  lemma {:induction false} NoSelfMismatch(v: Value, path: Path)
    requires Typed(v)
    ensures Mismatch(v, v, path).None?
  {
    hide Trace, Mismatch;
    MismatchIsFirstDifference(v, v, path);
  }

  /**
   For canonical values, with no tolerance and no white-space normalisation: the
   comparator reports no mismatch, the values are equal, and their canonical
   encodings are identical, all or none. So both equality modes agree.
   */
  lemma NoMismatchIffSameEncoding(e: Value, a: Value)
    requires Writable(e) && Writable(a)
    ensures Mismatch(e, a, []).None? <==> e == a
    ensures Mismatch(e, a, []).None? <==> Codec.Encode(e) == Codec.Encode(a)
  {
    assert Canon(e);
    CanonIsTyped(e);
    hide Writable, Mismatch, Codec.Encode, Canon;
    NoSelfMismatch(e, []);
    if Mismatch(e, a, []).None? {
      NoMismatchMeansEqual(e, a, []);
    }
    if Codec.Encode(e) == Codec.Encode(a) {
      SameTextSameValue(e, a);
    }
  }

  /** ... stated of two accepted texts. */
  lemma DecodedTextsCompareByEncoding(t: Text, u: Text, e: Value, a: Value)
    requires Codec.Decode(t) == Some(e) && Codec.Decode(u) == Some(a)
    ensures Mismatch(e, a, []).None? <==> Codec.Encode(e) == Codec.Encode(a)
  {
    hide Writable, Mismatch, Codec.Encode, Codec.Decode;
    DecodedIsWritable(t, e);
    DecodedIsWritable(u, a);
    NoMismatchIffSameEncoding(e, a);
  }
}
