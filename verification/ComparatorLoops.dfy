/**
 The comparison as the source writes it (src/judging/comparator/semantic.ts:53-481): one case
 per tag and one loop per kind of container. Each loop is proved to report what `Mismatch` does.
 */
module ComparatorLoops {
  import opened Wrappers
  import opened Unicode
  import opened Words
  import V = Values
  import opened Encoding
  import opened Comparator
  import opened ComparatorOrder
  import Codec
  import L = DecodingLeaves
  import S = DecodingShapes

  type Value = V.Value

  /** `x ?? y` */
  function Else(x: Option<Path>, y: Option<Path>): Option<Path> {
    if x.Some? then x else y
  }

  // ---- two visit lists in lock step --------------------------------------------------------------

  function Over(xs: seq<Visit>, ys: seq<Visit>, e: seq<Value>, a: seq<Value>, path: Path): Option<Path> {
    if xs == [] || ys == [] then None
    else
      var rest := Over(xs[1..], ys[1..], e, a, path);
      match (xs[0], ys[0])
      case (Point(p, x), Point(_, y)) => if x == y then rest else Some(path + p)
      case (Kid(p, i), Kid(_, j)) =>
        if i < |e| && j < |a| then Else(Mismatch(e[i], a[j], path + p), rest) else rest
      case _ => Some(path)
  }

  lemma {:induction false} WalkIsOver(e: Value, a: Value, k: nat, path: Path)
    requires k <= |Visits(e)| && k <= |Visits(a)|
    ensures Walk(e, a, k, path) == Over(Visits(e)[k..], Visits(a)[k..], KidsOf(e), KidsOf(a), path)
    decreases |Visits(e)| - k
  {
    hide Visits, Mismatch;
    if k < |Visits(e)| && k < |Visits(a)| {
      WalkIsOver(e, a, k + 1, path);
      assert Visits(e)[k..][1..] == Visits(e)[k + 1..] && Visits(a)[k..][1..] == Visits(a)[k + 1..];
    }
  }

  lemma OverPoint(p: Path, x: Token, y: Token, xs: seq<Visit>, ys: seq<Visit>, e: seq<Value>, a: seq<Value>, path: Path)
    ensures Over([Point(p, x)] + xs, [Point(p, y)] + ys, e, a, path)
         == if x == y then Over(xs, ys, e, a, path) else Some(path + p)
  {
    hide Mismatch;
    assert ([Point(p, x)] + xs)[1..] == xs && ([Point(p, y)] + ys)[1..] == ys;
  }

  lemma OverKid(p: Path, i: nat, xs: seq<Visit>, ys: seq<Visit>, e: seq<Value>, a: seq<Value>, path: Path)
    requires i < |e| && i < |a|
    ensures Over([Kid(p, i)] + xs, [Kid(p, i)] + ys, e, a, path)
         == Else(Mismatch(e[i], a[i], path + p), Over(xs, ys, e, a, path))
  {
    hide Mismatch;
    assert ([Kid(p, i)] + xs)[1..] == xs && ([Kid(p, i)] + ys)[1..] == ys;
  }

  lemma OverNothing(e: seq<Value>, a: seq<Value>, path: Path)
    ensures Over([], [], e, a, path) == None
  {
  }

  /** The tags are compared first. */
  lemma TagsFirst(e: Value, a: Value, path: Path)
    ensures Mismatch(e, a, path)
         == if TagOf(e) == TagOf(a) then Over(Rest(e), Rest(a), KidsOf(e), KidsOf(a), path) else Some(path)
  {
    hide Visits, Over, Walk, Rest;
    WalkIsOver(e, a, 0, path);
    assert Visits(e)[0..] == Visits(e) && Visits(a)[0..] == Visits(a);
    assert Mismatch(e, a, path) == Walk(e, a, 0, path);
    VisitsSplit(e);
    VisitsSplit(a);
    OverPoint([], Tagged(TagOf(e)), Tagged(TagOf(a)), Rest(e), Rest(a), KidsOf(e), KidsOf(a), path);
    assert path + [] == path;
  }

  // ---- items -----------------------------------------------------------------------------------------

  /** `itemsMismatch` from index `i` on. */
  function FirstItem(e: seq<Value>, a: seq<Value>, base: Path, w: Word, i: nat): Option<Path>
    requires |e| == |a|
    decreases |e| - i
  {
    if i >= |e| then None
    else Else(Mismatch(e[i], a[i], base + [Item(w, i)]), FirstItem(e, a, base, w, i + 1))
  }

  lemma {:induction false} OverItemsFrom(prefix: Path, w: Word, from: nat, n: nat, i: nat, xs: seq<Visit>, ys: seq<Visit>,
      e: seq<Value>, a: seq<Value>, path: Path)
    requires i <= n && from + n <= |e| && from + n <= |a|
    ensures var items := Items(prefix, w, from, n)[i..];
      Over(items + xs, items + ys, e, a, path)
      == Else(FirstItem(e[from..from + n], a[from..from + n], path + prefix, w, i), Over(xs, ys, e, a, path))
    decreases n - i
  {
    hide Over, Mismatch;
    var items := Items(prefix, w, from, n)[i..];
    if i == n {
      assert items + xs == xs && items + ys == ys;
    } else {
      var rest := Items(prefix, w, from, n)[i + 1..];
      OverItemsFrom(prefix, w, from, n, i + 1, xs, ys, e, a, path);
      OverKid(prefix + [Item(w, i)], from + i, rest + xs, rest + ys, e, a, path);
      assert items + xs == [Kid(prefix + [Item(w, i)], from + i)] + (rest + xs);
      assert items + ys == [Kid(prefix + [Item(w, i)], from + i)] + (rest + ys);
      assert path + (prefix + [Item(w, i)]) == path + prefix + [Item(w, i)];
    }
  }

  lemma OverItems(prefix: Path, w: Word, from: nat, n: nat, xs: seq<Visit>, ys: seq<Visit>, e: seq<Value>, a: seq<Value>, path: Path)
    requires from + n <= |e| && from + n <= |a|
    ensures var items := Items(prefix, w, from, n);
      Over(items + xs, items + ys, e, a, path)
      == Else(FirstItem(e[from..from + n], a[from..from + n], path + prefix, w, 0), Over(xs, ys, e, a, path))
  {
    hide Over, Items;
    OverItemsFrom(prefix, w, from, n, 0, xs, ys, e, a, path);
    assert Items(prefix, w, from, n)[0..] == Items(prefix, w, from, n);
  }

  /** All of the kids are items. */
  lemma OverKids(w: Word, e: seq<Value>, a: seq<Value>, path: Path)
    requires |e| == |a|
    ensures Over(Items([], w, 0, |e|), Items([], w, 0, |a|), e, a, path) == FirstItem(e, a, path, w, 0)
  {
    hide Over, Items, FirstItem;
    var items := Items([], w, 0, |e|);
    OverItems([], w, 0, |e|, [], [], e, a, path);
    OverNothing(e, a, path);
    assert items + [] == items && path + [] == path;
    assert e[0..0 + |e|] == e && a[0..0 + |e|] == a;
  }

  predicate Sequence(s: V.Shape) {
    s.SList? || s.SSet?
  }

  lemma SequenceMismatchIs(e: Value, a: Value, path: Path)
    requires e.Node? && a.Node? && Sequence(e.shape) && TagOf(e) == TagOf(a)
    ensures Mismatch(e, a, path) == if |e.kids| == |a.kids| then FirstItem(e.kids, a.kids, path, WItems, 0) else Some(path)
  {
    hide Over, Items, Mismatch, FirstItem;
    TagsFirst(e, a, path);
    var x, y := Items([], WItems, 0, |e.kids|), Items([], WItems, 0, |a.kids|);
    OverPoint([], Size(|e.kids|), Size(|a.kids|), x, y, e.kids, a.kids, path);
    assert path + [] == path;
    if |e.kids| == |a.kids| {
      OverKids(WItems, e.kids, a.kids, path);
    }
  }

  lemma ListNodeMismatchIs(e: Value, a: Value, path: Path)
    requires e.Node? && a.Node? && e.shape.SListNode? && a.shape.SListNode?
    ensures Mismatch(e, a, path)
         == if e.shape.cycle == a.shape.cycle && |e.kids| == |a.kids| then FirstItem(e.kids, a.kids, path, WValues, 0)
            else Some(path)
  {
    hide Over, Items, Mismatch, FirstItem;
    TagsFirst(e, a, path);
    var x, y := Items([], WValues, 0, |e.kids|), Items([], WValues, 0, |a.kids|);
    var xs, ys := [Point([], Size(|e.kids|))] + x, [Point([], Size(|a.kids|))] + y;
    assert Rest(e) == [Point([], Cycle(e.shape.cycle))] + xs && Rest(a) == [Point([], Cycle(a.shape.cycle))] + ys;
    OverPoint([], Cycle(e.shape.cycle), Cycle(a.shape.cycle), xs, ys, e.kids, a.kids, path);
    OverPoint([], Size(|e.kids|), Size(|a.kids|), x, y, e.kids, a.kids, path);
    assert path + [] == path;
    if |e.kids| == |a.kids| {
      OverKids(WValues, e.kids, a.kids, path);
    }
  }

  // ---- entries ---------------------------------------------------------------------------------------

  /** `dictMismatch` from entry `i` on. */
  function FirstEntry(e: seq<Value>, a: seq<Value>, path: Path, i: nat): Option<Path>
    requires |e| == |a|
    decreases |e| - 2 * i
  {
    if 2 * i + 1 >= |e| then None
    else if Codec.Encode(e[2 * i]) != Codec.Encode(a[2 * i]) then Some(path + [Item(WEntries, i), Part(WKey)])
    else
      Else(Mismatch(e[2 * i + 1], a[2 * i + 1], path + [Item(WEntries, i), Part(WValue)]), FirstEntry(e, a, path, i + 1))
  }

  lemma {:induction false} OverEntries(e: seq<Value>, a: seq<Value>, path: Path, i: nat)
    requires |e| == |a|
    ensures Over(Entries(e, i), Entries(a, i), e, a, path) == FirstEntry(e, a, path, i)
    decreases |e| - 2 * i
  {
    hide Over, Mismatch, Codec.Encode, Entries;
    EntriesStep(e, i);
    EntriesStep(a, i);
    if 2 * i + 1 >= |e| {
      OverNothing(e, a, path);
    } else {
      var at := [Item(WEntries, i), Part(WValue)];
      OverEntries(e, a, path, i + 1);
      OverPoint([Item(WEntries, i), Part(WKey)], KeyPoint(e, i), KeyPoint(a, i),
                [Kid(at, 2 * i + 1)] + Entries(e, i + 1), [Kid(at, 2 * i + 1)] + Entries(a, i + 1), e, a, path);
      OverKid(at, 2 * i + 1, Entries(e, i + 1), Entries(a, i + 1), e, a, path);
    }
  }

  lemma DictMismatchIs(e: Value, a: Value, path: Path)
    requires e.Node? && a.Node? && e.shape.SDict? && a.shape.SDict? && Typed(e) && Typed(a)
    ensures Mismatch(e, a, path) == if |e.kids| == |a.kids| then FirstEntry(e.kids, a.kids, path, 0) else Some(path)
  {
    hide Over, Entries, Mismatch, FirstEntry;
    TagsFirst(e, a, path);
    OverPoint([], Size(|e.kids| / 2), Size(|a.kids| / 2), Entries(e.kids, 0), Entries(a.kids, 0), e.kids, a.kids, path);
    assert path + [] == path;
    assert |e.kids| / 2 == |a.kids| / 2 ==> |e.kids| == |a.kids|;
    if |e.kids| == |a.kids| {
      OverEntries(e.kids, a.kids, path, 0);
    }
  }

  // ---- record fields ---------------------------------------------------------------------------------

  /** `recordMismatch` from field `i` on. */
  function FirstField(names: seq<Text>, others: seq<Text>, e: seq<Value>, a: seq<Value>, path: Path, i: nat): Option<Path>
    requires |names| == |others| == |e| == |a|
    decreases |names| - i
  {
    if i >= |names| then None
    else if names[i] != others[i] then Some(path + [Item(WFields, i), Part(WName)])
    else
      Else(Mismatch(e[i], a[i], path + [Item(WFields, i), Part(WValue)]), FirstField(names, others, e, a, path, i + 1))
  }

  lemma {:induction false} OverFields(names: seq<Text>, others: seq<Text>, e: seq<Value>, a: seq<Value>, path: Path, i: nat)
    requires |names| == |others| == |e| == |a|
    ensures Over(RecordFields(names, i), RecordFields(others, i), e, a, path) == FirstField(names, others, e, a, path, i)
    decreases |names| - i
  {
    hide Over, Mismatch, RecordFields;
    RecordFieldsStep(names, i);
    RecordFieldsStep(others, i);
    if i >= |names| {
      OverNothing(e, a, path);
    } else {
      var kid := [Kid([Item(WFields, i), Part(WValue)], i)];
      OverFields(names, others, e, a, path, i + 1);
      OverPoint([Item(WFields, i), Part(WName)], Name(names[i]), Name(others[i]),
                kid + RecordFields(names, i + 1), kid + RecordFields(others, i + 1), e, a, path);
      OverKid([Item(WFields, i), Part(WValue)], i, RecordFields(names, i + 1), RecordFields(others, i + 1), e, a, path);
    }
  }

  lemma RecordMismatchIs(e: Value, a: Value, path: Path)
    requires e.Node? && a.Node? && e.shape.SRecord? && a.shape.SRecord? && Typed(e) && Typed(a)
    ensures var s, t := e.shape, a.shape;
      Mismatch(e, a, path)
      == if s.namedTuple == t.namedTuple && s.name == t.name && |e.kids| == |a.kids|
         then FirstField(s.fields, t.fields, e.kids, a.kids, path, 0) else Some(path)
  {
    hide Over, RecordFields, Mismatch, FirstField;
    TagsFirst(e, a, path);
    var s, t := e.shape, a.shape;
    var x, y := RecordFields(s.fields, 0), RecordFields(t.fields, 0);
    var xs, ys := [Point([], Size(|s.fields|))] + x, [Point([], Size(|t.fields|))] + y;
    assert Rest(e) == [Point([], Kind(s.namedTuple, s.name))] + xs && Rest(a) == [Point([], Kind(t.namedTuple, t.name))] + ys;
    OverPoint([], Kind(s.namedTuple, s.name), Kind(t.namedTuple, t.name), xs, ys, e.kids, a.kids, path);
    OverPoint([], Size(|s.fields|), Size(|t.fields|), x, y, e.kids, a.kids, path);
    assert path + [] == path;
    if |e.kids| == |a.kids| {
      OverFields(s.fields, t.fields, e.kids, a.kids, path, 0);
    }
  }

  // ---- tree slots ------------------------------------------------------------------------------------

  /** `treeNodeMismatch` from slot `i` on; the next present slot holds sub-value `from`. */
  function FirstSlot(e: seq<bool>, a: seq<bool>, x: seq<Value>, y: seq<Value>, path: Path, i: nat, from: nat): Option<Path>
    requires |e| == |a| && i <= |e| && from + V.Present(e[i..]) == |x| && from + V.Present(a[i..]) == |y|
    decreases |e| - i
  {
    if i == |e| then None
    else
      assert e[i..][1..] == e[i + 1..] && a[i..][1..] == a[i + 1..];
      if e[i] != a[i] then Some(path + [Item(WValues, i)])
      else if !e[i] then FirstSlot(e, a, x, y, path, i + 1, from)
      else Else(Mismatch(x[from], y[from], path + [Item(WValues, i)]), FirstSlot(e, a, x, y, path, i + 1, from + 1))
  }

  lemma {:induction false} OverSlots(e: seq<bool>, a: seq<bool>, x: seq<Value>, y: seq<Value>, path: Path, i: nat, from: nat)
    requires |e| == |a| && i <= |e| && from + V.Present(e[i..]) == |x| && from + V.Present(a[i..]) == |y|
    ensures Over(Slots(e, i, from), Slots(a, i, from), x, y, path) == FirstSlot(e, a, x, y, path, i, from)
    decreases |e| - i
  {
    hide Over, Mismatch, Slots;
    SlotsStep(e, i, from);
    SlotsStep(a, i, from);
    if i == |e| {
      OverNothing(x, y, path);
    } else {
      assert e[i..][1..] == e[i + 1..] && a[i..][1..] == a[i + 1..];
      var next := if e[i] then from + 1 else from;
      var next' := if a[i] then from + 1 else from;
      OverPoint([Item(WValues, i)], Presence(e[i]), Presence(a[i]),
                SlotKid(e[i], i, from) + Slots(e, i + 1, next), SlotKid(a[i], i, from) + Slots(a, i + 1, next'), x, y, path);
      if e[i] == a[i] {
        OverSlots(e, a, x, y, path, i + 1, next);
        if e[i] {
          OverKid([Item(WValues, i)], from, Slots(e, i + 1, next), Slots(a, i + 1, next), x, y, path);
        } else {
          assert [] + Slots(e, i + 1, next) == Slots(e, i + 1, next) && [] + Slots(a, i + 1, next) == Slots(a, i + 1, next);
        }
      }
    }
  }

  lemma TreeNodeMismatchIs(e: Value, a: Value, path: Path)
    requires e.Node? && a.Node? && e.shape.STreeNode? && a.shape.STreeNode? && Typed(e) && Typed(a)
    ensures var s, t := e.shape.present, a.shape.present;
      s[0..] == s && t[0..] == t
      && Mismatch(e, a, path) == if |s| == |t| then FirstSlot(s, t, e.kids, a.kids, path, 0, 0) else Some(path)
  {
    hide Over, Slots, Mismatch, FirstSlot;
    TagsFirst(e, a, path);
    var s, t := e.shape.present, a.shape.present;
    assert s[0..] == s && t[0..] == t;
    OverPoint([], Size(|s|), Size(|t|), Slots(s, 0, 0), Slots(t, 0, 0), e.kids, a.kids, path);
    assert path + [] == path;
    if |s| == |t| {
      OverSlots(s, t, e.kids, a.kids, path, 0, 0);
    }
  }

  // ---- operations ------------------------------------------------------------------------------------

  /** One operation's mismatch; its sub-values start at `from`. */
  function OperationMismatch(o: V.Operation, t: V.Operation, e: seq<Value>, a: seq<Value>, at: Path, from: nat): (r: Option<Path>)
    requires from + V.OperationArity(o) <= |e| && from + V.OperationArity(t) <= |a|
    ensures r.None? ==> o == t
  {
    var n := o.arguments;
    if o.name != t.name then Some(at + [Part(WMethod)])
    else if n != t.arguments then Some(at + [Part(WArgs)])
    else
      var items := FirstItem(e[from..from + n], a[from..from + n], at, WArgs, 0);
      if items.Some? then items
      else if o.expects != t.expects then Some(at + [Part(WExpected)])
      else if o.expects then Mismatch(e[from + n], a[from + n], at + [Part(WExpected)])
      else None
  }

  /** The loop over operations from number `i` on. */
  function FirstOperation(os: seq<V.Operation>, ts: seq<V.Operation>, e: seq<Value>, a: seq<Value>, path: Path, i: nat, from: nat)
    : Option<Path>
    requires |os| == |ts| && i <= |os|
    requires from + V.OperationsArity(os[i..]) == |e| && from + V.OperationsArity(ts[i..]) == |a|
    decreases |os| - i
  {
    if i == |os| then None
    else
      assert os[i..][1..] == os[i + 1..] && ts[i..][1..] == ts[i + 1..];
      var found := OperationMismatch(os[i], ts[i], e, a, path + [Item(WOperations, i)], from);
      if found.Some? then found
      else FirstOperation(os, ts, e, a, path, i + 1, from + V.OperationArity(os[i]))
  }

  lemma OverExpected(o: V.Operation, t: V.Operation, at: Path, from: nat, xs: seq<Visit>, ys: seq<Visit>,
      e: seq<Value>, a: seq<Value>, path: Path)
    requires o.arguments == t.arguments && from + V.OperationArity(o) <= |e| && from + V.OperationArity(t) <= |a|
    ensures var here := at + [Part(WExpected)];
      Over([Point(here, Presence(o.expects))] + (ExpectedVisits(o, at, from) + xs),
           [Point(here, Presence(t.expects))] + (ExpectedVisits(t, at, from) + ys), e, a, path)
      == if o.expects != t.expects then Some(path + here)
         else if o.expects then Else(Mismatch(e[from + o.arguments], a[from + o.arguments], path + here), Over(xs, ys, e, a, path))
         else Over(xs, ys, e, a, path)
  {
    hide Over, Mismatch;
    var here := at + [Part(WExpected)];
    OverPoint(here, Presence(o.expects), Presence(t.expects),
              ExpectedVisits(o, at, from) + xs, ExpectedVisits(t, at, from) + ys, e, a, path);
    if o.expects && t.expects {
      OverKid(here, from + o.arguments, xs, ys, e, a, path);
    } else {
      assert [] + xs == xs && [] + ys == ys;
    }
  }

  function ArgumentVisits(o: V.Operation, at: Path, from: nat): seq<Visit> {
    Items(at, WArgs, from, o.arguments) + ([Point(at + [Part(WExpected)], Presence(o.expects))] + ExpectedVisits(o, at, from))
  }

  lemma OperationIs(o: V.Operation, i: nat, from: nat, xs: seq<Visit>)
    ensures var at := [Item(WOperations, i)];
      OneOperation(o, i, from) + xs
      == [Point(at + [Part(WMethod)], Name(o.name))]
         + ([Point(at + [Part(WArgs)], Size(o.arguments))] + (ArgumentVisits(o, at, from) + xs))
  {
    hide Items;
  }

  lemma ArgumentsAre(o: V.Operation, at: Path, from: nat, xs: seq<Visit>)
    ensures ArgumentVisits(o, at, from) + xs
         == Items(at, WArgs, from, o.arguments)
            + ([Point(at + [Part(WExpected)], Presence(o.expects))] + (ExpectedVisits(o, at, from) + xs))
  {
    hide Items, ExpectedVisits;
  }

  lemma OverOperation(o: V.Operation, t: V.Operation, i: nat, from: nat, xs: seq<Visit>, ys: seq<Visit>,
      e: seq<Value>, a: seq<Value>, path: Path)
    requires from + V.OperationArity(o) <= |e| && from + V.OperationArity(t) <= |a|
    ensures var found := OperationMismatch(o, t, e, a, path + [Item(WOperations, i)], from);
      Over(OneOperation(o, i, from) + xs, OneOperation(t, i, from) + ys, e, a, path)
      == if found.Some? then found else Over(xs, ys, e, a, path)
  {
    hide Over, Mismatch, OneOperation, Items, ExpectedVisits, ArgumentVisits, FirstItem;
    var at, here := [Item(WOperations, i)], path + [Item(WOperations, i)];
    var x, y := ArgumentVisits(o, at, from) + xs, ArgumentVisits(t, at, from) + ys;
    OperationIs(o, i, from, xs);
    OperationIs(t, i, from, ys);
    OverPoint(at + [Part(WMethod)], Name(o.name), Name(t.name), [Point(at + [Part(WArgs)], Size(o.arguments))] + x,
              [Point(at + [Part(WArgs)], Size(t.arguments))] + y, e, a, path);
    OverPoint(at + [Part(WArgs)], Size(o.arguments), Size(t.arguments), x, y, e, a, path);
    assert path + (at + [Part(WMethod)]) == here + [Part(WMethod)] && path + (at + [Part(WArgs)]) == here + [Part(WArgs)];
    if o.arguments == t.arguments {
      OverArguments(o, t, at, from, xs, ys, e, a, path);
      assert path + (at + [Part(WExpected)]) == here + [Part(WExpected)];
    }
  }

  lemma OverArguments(o: V.Operation, t: V.Operation, at: Path, from: nat, xs: seq<Visit>, ys: seq<Visit>,
      e: seq<Value>, a: seq<Value>, path: Path)
    requires o.arguments == t.arguments && from + V.OperationArity(o) <= |e| && from + V.OperationArity(t) <= |a|
    ensures var n, here := o.arguments, path + (at + [Part(WExpected)]);
      Over(ArgumentVisits(o, at, from) + xs, ArgumentVisits(t, at, from) + ys, e, a, path)
      == Else(FirstItem(e[from..from + n], a[from..from + n], path + at, WArgs, 0),
              if o.expects != t.expects then Some(here)
              else if o.expects then Else(Mismatch(e[from + n], a[from + n], here), Over(xs, ys, e, a, path))
              else Over(xs, ys, e, a, path))
  {
    hide Over, Mismatch, Items, ExpectedVisits, ArgumentVisits, FirstItem;
    ArgumentsAre(o, at, from, xs);
    ArgumentsAre(t, at, from, ys);
    var x := [Point(at + [Part(WExpected)], Presence(o.expects))] + (ExpectedVisits(o, at, from) + xs);
    var y := [Point(at + [Part(WExpected)], Presence(t.expects))] + (ExpectedVisits(t, at, from) + ys);
    OverItems(at, WArgs, from, o.arguments, x, y, e, a, path);
    OverExpected(o, t, at, from, xs, ys, e, a, path);
  }

  lemma {:induction false} OverOperations(os: seq<V.Operation>, ts: seq<V.Operation>, e: seq<Value>, a: seq<Value>, path: Path,
      i: nat, from: nat)
    requires |os| == |ts| && i <= |os|
    requires from + V.OperationsArity(os[i..]) == |e| && from + V.OperationsArity(ts[i..]) == |a|
    ensures Over(Operations(os, i, from), Operations(ts, i, from), e, a, path) == FirstOperation(os, ts, e, a, path, i, from)
    decreases |os| - i
  {
    hide Over, OneOperation, OperationMismatch;
    if i == |os| {
      OverNothing(e, a, path);
    } else {
      assert os[i..][1..] == os[i + 1..] && ts[i..][1..] == ts[i + 1..];
      OverOperation(os[i], ts[i], i, from, Operations(os, i + 1, from + V.OperationArity(os[i])),
                    Operations(ts, i + 1, from + V.OperationArity(ts[i])), e, a, path);
      if os[i] == ts[i] {
        OverOperations(os, ts, e, a, path, i + 1, from + V.OperationArity(os[i]));
      }
    }
  }

  /** `classTraceMismatch` once the class names agree. */
  function TraceMismatch(s: V.Shape, t: V.Shape, e: seq<Value>, a: seq<Value>, path: Path): Option<Path>
    requires s.SClassTrace? && t.SClassTrace? && V.Arity(s, |e|) && V.Arity(t, |a|)
  {
    assert s.operations[0..] == s.operations && t.operations[0..] == t.operations;
    if s.arguments != t.arguments then Some(path + [Part(WConstructor)])
    else
      var constructed := FirstItem(e[..s.arguments], a[..s.arguments], path, WConstructor, 0);
      if constructed.Some? then constructed
      else if |s.operations| != |t.operations| then Some(path + [Part(WOperations)])
      else FirstOperation(s.operations, t.operations, e, a, path, 0, s.arguments)
  }

  lemma OverTrace(s: V.Shape, t: V.Shape, e: seq<Value>, a: seq<Value>, path: Path)
    requires s.SClassTrace? && t.SClassTrace? && V.Arity(s, |e|) && V.Arity(t, |a|)
    ensures var x := Items([], WConstructor, 0, s.arguments)
                     + ([Point([Part(WOperations)], Size(|s.operations|))] + Operations(s.operations, 0, s.arguments));
      var y := Items([], WConstructor, 0, t.arguments)
               + ([Point([Part(WOperations)], Size(|t.operations|))] + Operations(t.operations, 0, t.arguments));
      Over([Point([Part(WConstructor)], Size(s.arguments))] + x, [Point([Part(WConstructor)], Size(t.arguments))] + y, e, a, path)
      == TraceMismatch(s, t, e, a, path)
  {
    hide Over, Operations, Items, FirstItem, FirstOperation;
    var xo, yo := Operations(s.operations, 0, s.arguments), Operations(t.operations, 0, t.arguments);
    var xs, ys := [Point([Part(WOperations)], Size(|s.operations|))] + xo, [Point([Part(WOperations)], Size(|t.operations|))] + yo;
    OverPoint([Part(WConstructor)], Size(s.arguments), Size(t.arguments), Items([], WConstructor, 0, s.arguments) + xs,
              Items([], WConstructor, 0, t.arguments) + ys, e, a, path);
    if s.arguments == t.arguments {
      OverItems([], WConstructor, 0, s.arguments, xs, ys, e, a, path);
      assert e[0..0 + s.arguments] == e[..s.arguments] && a[0..0 + s.arguments] == a[..s.arguments] && path + [] == path;
      OverPoint([Part(WOperations)], Size(|s.operations|), Size(|t.operations|), xo, yo, e, a, path);
      assert s.operations[0..] == s.operations && t.operations[0..] == t.operations;
      if |s.operations| == |t.operations| {
        OverOperations(s.operations, t.operations, e, a, path, 0, s.arguments);
      }
    }
  }

  lemma ClassTraceMismatchIs(e: Value, a: Value, path: Path)
    requires e.Node? && a.Node? && e.shape.SClassTrace? && a.shape.SClassTrace? && Typed(e) && Typed(a)
    ensures Mismatch(e, a, path)
         == if e.shape.name == a.shape.name then TraceMismatch(e.shape, a.shape, e.kids, a.kids, path) else Some(path)
  {
    hide Over, Operations, Items, Mismatch, TraceMismatch;
    var s, t := e.shape, a.shape;
    TagsFirst(e, a, path);
    OverTrace(s, t, e.kids, a.kids, path);
    var x := Items([], WConstructor, 0, s.arguments)
             + ([Point([Part(WOperations)], Size(|s.operations|))] + Operations(s.operations, 0, s.arguments));
    var y := Items([], WConstructor, 0, t.arguments)
             + ([Point([Part(WOperations)], Size(|t.operations|))] + Operations(t.operations, 0, t.arguments));
    var xs, ys := [Point([Part(WConstructor)], Size(s.arguments))] + x, [Point([Part(WConstructor)], Size(t.arguments))] + y;
    OverPoint([], Name(s.name), Name(t.name), xs, ys, e.kids, a.kids, path);
    assert Rest(e) == [Point([], Name(s.name))] + xs && Rest(a) == [Point([], Name(t.name))] + ys;
    assert path + [] == path;
  }

  // ---- the other tags ----------------------------------------------------------------------------------

  lemma LeafMismatchIs(e: Value, a: Value, path: Path)
    requires e.Leaf? && a.Leaf?
    ensures Mismatch(e, a, path) == if e.leaf == a.leaf then None else Some(path)
  {
    hide Over, Mismatch;
    TagsFirst(e, a, path);
    OverPoint([], Content(e.leaf), Content(a.leaf), [], [], [], [], path);
    OverNothing([], [], path);
    assert [Point([], Content(e.leaf))] + [] == Rest(e) && [Point([], Content(a.leaf))] + [] == Rest(a) && path + [] == path;
  }

  lemma ComplexMismatchIs(e: Value, a: Value, path: Path)
    requires e.Node? && a.Node? && e.shape.SComplex? && a.shape.SComplex? && |e.kids| == |a.kids| == 2
    ensures Mismatch(e, a, path)
         == Else(Mismatch(e.kids[0], a.kids[0], path + [Part(WReal)]), Mismatch(e.kids[1], a.kids[1], path + [Part(WImag)]))
  {
    hide Over, Mismatch;
    TagsFirst(e, a, path);
    var first, second := Kid([Part(WReal)], 0), Kid([Part(WImag)], 1);
    assert Rest(e) == [first] + [second] == Rest(a) && [second] == [second] + [];
    OverKid([Part(WReal)], 0, [second], [second], e.kids, a.kids, path);
    OverKid([Part(WImag)], 1, [], [], e.kids, a.kids, path);
    OverNothing(e.kids, a.kids, path);
  }

  lemma EnumMismatchIs(e: Value, a: Value, path: Path)
    requires e.Node? && a.Node? && e.shape.SEnum? && a.shape.SEnum? && |e.kids| == |a.kids| == 1
    ensures Mismatch(e, a, path)
         == if e.shape == a.shape then Mismatch(e.kids[0], a.kids[0], path + [Part(WValue)]) else Some(path)
  {
    hide Over, Mismatch;
    TagsFirst(e, a, path);
    var kid := [Kid([Part(WValue)], 0)];
    var s, t := e.shape, a.shape;
    assert Rest(e) == [Point([], Names(s.name, s.member))] + kid && Rest(a) == [Point([], Names(t.name, t.member))] + kid;
    OverPoint([], Names(s.name, s.member), Names(t.name, t.member), kid, kid, e.kids, a.kids, path);
    assert kid == kid + [] && path + [] == path;
    OverKid([Part(WValue)], 0, [], [], e.kids, a.kids, path);
    OverNothing(e.kids, a.kids, path);
  }

  lemma ExceptionMismatchIs(e: Value, a: Value, path: Path)
    requires e.Node? && a.Node? && e.shape.SException? && a.shape.SException?
    ensures Mismatch(e, a, path) == if Codec.Encode(e) == Codec.Encode(a) then None else Some(path)
  {
    hide Over, Mismatch, Codec.Encode;
    TagsFirst(e, a, path);
    OverPoint([], Encoded(Codec.Encode(e)), Encoded(Codec.Encode(a)), [], [], e.kids, a.kids, path);
    OverNothing(e.kids, a.kids, path);
    assert [Point([], Encoded(Codec.Encode(e)))] + [] == Rest(e) && [Point([], Encoded(Codec.Encode(a)))] + [] == Rest(a);
    assert path + [] == path;
  }

  lemma TagsMismatchIs(e: Value, a: Value, path: Path)
    requires TagOf(e) != TagOf(a)
    ensures Mismatch(e, a, path) == Some(path)
  {
    TagsFirst(e, a, path);
  }
}
