/** The comparison's procedures, with the loops and early returns of src/judging/comparator/semantic.ts. */
module SemanticComparator {
  import opened Wrappers
  import opened Unicode
  import opened Words
  import V = Values
  import opened Encoding
  import opened Comparator
  import opened ComparatorOrder
  import opened ComparatorLoops
  import Codec

  type Value = V.Value

  /** Sub-values of `whole`, each of TypeScript's types. */
  ghost predicate Parts(whole: Value, vs: seq<Value>) {
    forall i | 0 <= i < |vs| :: vs[i] < whole && Typed(vs[i])
  }

  lemma KidsAreParts(v: Value)
    requires v.Node? && Typed(v)
    ensures Parts(v, v.kids) && V.Fits(v.shape, v.kids)
  {
  }

  lemma PartsSlice(whole: Value, vs: seq<Value>, from: nat, to: nat)
    requires Parts(whole, vs) && from <= to <= |vs|
    ensures Parts(whole, vs[from..to])
  {
  }

  /** The first mismatch between two decoded values, with neither tolerance nor normalised white space. */
  method SemanticMismatch(e: Value, a: Value, path: Path) returns (r: Option<Path>)
    requires Typed(e) && Typed(a)
    ensures r == Mismatch(e, a, path)
    decreases e, 1
  {
    hide Mismatch, Typed, FirstItem, FirstEntry, FirstField, FirstSlot, TraceMismatch, Codec.Encode;
    if TagOf(e) != TagOf(a) {
      TagsMismatchIs(e, a, path);
      return Some(path);
    }
    if e.Leaf? {
      LeafMismatchIs(e, a, path);
      return if e.leaf == a.leaf then None else Some(path);
    }
    KidsAreParts(e);
    KidsAreParts(a);
    match e.shape {
      case SList(_) => r := SequenceMismatch(e, e.kids, a, a.kids, path);
      case SSet(_) => r := SequenceMismatch(e, e.kids, a, a.kids, path);
      case SDict =>
        DictMismatchIs(e, a, path);
        r := DictMismatch(e, e.kids, a, a.kids, path);
      case SComplex =>
        ComplexMismatchIs(e, a, path);
        r := SemanticMismatch(e.kids[0], a.kids[0], path + [Part(WReal)]);
        if r.None? {
          r := SemanticMismatch(e.kids[1], a.kids[1], path + [Part(WImag)]);
        }
      case SEnum(name, member) =>
        EnumMismatchIs(e, a, path);
        if name != a.shape.name || member != a.shape.member { return Some(path); }
        r := SemanticMismatch(e.kids[0], a.kids[0], path + [Part(WValue)]);
      case SRecord(namedTuple, name, fields) =>
        RecordMismatchIs(e, a, path);
        if namedTuple != a.shape.namedTuple || name != a.shape.name { return Some(path); }
        r := RecordMismatch(e, fields, e.kids, a, a.shape.fields, a.kids, path);
      case SException(_, _, _) =>
        ExceptionMismatchIs(e, a, path);
        r := if Codec.Encode(e) == Codec.Encode(a) then None else Some(path);
      case SListNode(cycle) =>
        ListNodeMismatchIs(e, a, path);
        if cycle != a.shape.cycle { return Some(path); }
        if |e.kids| != |a.kids| { return Some(path); }
        r := ItemsMismatch(e, e.kids, a, a.kids, path, WValues);
      case STreeNode(present) =>
        TreeNodeMismatchIs(e, a, path);
        r := TreeNodeMismatch(e, present, e.kids, a, a.shape.present, a.kids, path);
      case SClassTrace(_, _, _) => r := ClassTraceMismatch(e, a, path);
    }
  }

  method SequenceMismatch(e: Value, es: seq<Value>, a: Value, items: seq<Value>, path: Path) returns (r: Option<Path>)
    requires e.Node? && a.Node? && Sequence(e.shape) && TagOf(e) == TagOf(a) && es == e.kids && items == a.kids
    requires Parts(e, es) && Parts(a, items)
    ensures r == Mismatch(e, a, path)
    decreases e, 0, 1
  {
    hide Mismatch, FirstItem;
    SequenceMismatchIs(e, a, path);
    if |es| != |items| { return Some(path); }
    r := ItemsMismatch(e, es, a, items, path, WItems);
  }

  method ItemsMismatch(ghost e: Value, es: seq<Value>, ghost a: Value, items: seq<Value>, base: Path, w: Word)
    returns (r: Option<Path>)
    requires |es| == |items| && Parts(e, es) && Parts(a, items)
    ensures r == FirstItem(es, items, base, w, 0)
    decreases e, 0, 0
  {
    hide Mismatch, Typed;
    var i := 0;
    while i < |es|
      invariant 0 <= i <= |es| && FirstItem(es, items, base, w, i) == FirstItem(es, items, base, w, 0)
    {
      var found := SemanticMismatch(es[i], items[i], base + [Item(w, i)]);
      if found.Some? { return found; }
      i := i + 1;
    }
    return None;
  }

  method DictMismatch(ghost e: Value, es: seq<Value>, ghost a: Value, entries: seq<Value>, path: Path) returns (r: Option<Path>)
    requires |es| % 2 == 0 && |entries| % 2 == 0 && Parts(e, es) && Parts(a, entries)
    ensures r == if |es| == |entries| then FirstEntry(es, entries, path, 0) else Some(path)
    decreases e, 0, 0
  {
    hide Mismatch, Typed, Codec.Encode;
    if |es| != |entries| { return Some(path); }
    var i := 0;
    while 2 * i < |es|
      invariant 0 <= 2 * i <= |es| && FirstEntry(es, entries, path, i) == FirstEntry(es, entries, path, 0)
    {
      if Codec.Encode(es[2 * i]) != Codec.Encode(entries[2 * i]) {
        return Some(path + [Item(WEntries, i), Part(WKey)]);
      }
      var found := SemanticMismatch(es[2 * i + 1], entries[2 * i + 1], path + [Item(WEntries, i), Part(WValue)]);
      if found.Some? { return found; }
      i := i + 1;
    }
    return None;
  }

  method RecordMismatch(ghost e: Value, names: seq<Text>, es: seq<Value>, ghost a: Value, others: seq<Text>, fields: seq<Value>,
      path: Path) returns (r: Option<Path>)
    requires |names| == |es| && |others| == |fields| && Parts(e, es) && Parts(a, fields)
    ensures r == if |es| == |fields| then FirstField(names, others, es, fields, path, 0) else Some(path)
    decreases e, 0, 0
  {
    hide Mismatch, Typed;
    if |names| != |others| { return Some(path); }
    var i := 0;
    while i < |names|
      invariant 0 <= i <= |names| && FirstField(names, others, es, fields, path, i) == FirstField(names, others, es, fields, path, 0)
    {
      if names[i] != others[i] { return Some(path + [Item(WFields, i), Part(WName)]); }
      var found := SemanticMismatch(es[i], fields[i], path + [Item(WFields, i), Part(WValue)]);
      if found.Some? { return found; }
      i := i + 1;
    }
    return None;
  }

  method TreeNodeMismatch(ghost e: Value, present: seq<bool>, es: seq<Value>, ghost a: Value, others: seq<bool>, slots: seq<Value>,
      path: Path) returns (r: Option<Path>)
    requires V.Present(present) == |es| && V.Present(others) == |slots| && Parts(e, es) && Parts(a, slots)
    requires present[0..] == present && others[0..] == others
    ensures r == if |present| == |others| then FirstSlot(present, others, es, slots, path, 0, 0) else Some(path)
    decreases e, 0, 0
  {
    hide Mismatch, Typed;
    if |present| != |others| { return Some(path); }
    var i, from := 0, 0;
    while i < |present|
      invariant 0 <= i <= |present| && 0 <= from
      invariant from + V.Present(present[i..]) == |es| && from + V.Present(others[i..]) == |slots|
      invariant FirstSlot(present, others, es, slots, path, i, from) == FirstSlot(present, others, es, slots, path, 0, 0)
    {
      assert present[i..][1..] == present[i + 1..] && others[i..][1..] == others[i + 1..];
      if !present[i] && !others[i] {
        i := i + 1;
        continue;
      }
      if !present[i] || !others[i] { return Some(path + [Item(WValues, i)]); }
      var found := SemanticMismatch(es[from], slots[from], path + [Item(WValues, i)]);
      if found.Some? { return found; }
      i, from := i + 1, from + 1;
    }
    return None;
  }

  method ClassTraceMismatch(e: Value, a: Value, path: Path) returns (r: Option<Path>)
    requires e.Node? && a.Node? && e.shape.SClassTrace? && a.shape.SClassTrace? && Typed(e) && Typed(a)
    ensures r == Mismatch(e, a, path)
    decreases e, 0, 3
  {
    hide Mismatch, Typed, FirstItem, FirstOperation;
    ClassTraceMismatchIs(e, a, path);
    KidsAreParts(e);
    KidsAreParts(a);
    var s, t := e.shape, a.shape;
    if s.name != t.name { return Some(path); }
    if s.arguments != t.arguments { return Some(path + [Part(WConstructor)]); }
    PartsSlice(e, e.kids, 0, s.arguments);
    PartsSlice(a, a.kids, 0, s.arguments);
    r := ItemsMismatch(e, e.kids[..s.arguments], a, a.kids[..s.arguments], path, WConstructor);
    if r.Some? { return; }
    if |s.operations| != |t.operations| { return Some(path + [Part(WOperations)]); }
    r := OperationsMismatch(e, s.operations, e.kids, a, t.operations, a.kids, path, s.arguments);
  }

  method OperationsMismatch(ghost e: Value, os: seq<V.Operation>, es: seq<Value>, ghost a: Value, ts: seq<V.Operation>,
      items: seq<Value>, path: Path, first: nat) returns (r: Option<Path>)
    requires |os| == |ts| && Parts(e, es) && Parts(a, items) && os[0..] == os && ts[0..] == ts
    requires first + V.OperationsArity(os) == |es| && first + V.OperationsArity(ts) == |items|
    ensures r == FirstOperation(os, ts, es, items, path, 0, first)
    decreases e, 0, 2
  {
    hide Mismatch, Typed, FirstItem, OperationMismatch;
    var i, from := 0, first;
    while i < |os|
      invariant 0 <= i <= |os| && 0 <= from
      invariant from + V.OperationsArity(os[i..]) == |es| && from + V.OperationsArity(ts[i..]) == |items|
      invariant FirstOperation(os, ts, es, items, path, i, from) == FirstOperation(os, ts, es, items, path, 0, first)
    {
      assert os[i..][1..] == os[i + 1..] && ts[i..][1..] == ts[i + 1..];
      var found := OneOperationMismatch(e, os[i], es, a, ts[i], items, path + [Item(WOperations, i)], from);
      if found.Some? { return found; }
      i, from := i + 1, from + V.OperationArity(os[i]);
    }
    return None;
  }

  /** The body of the loop over operations. */
  method OneOperationMismatch(ghost e: Value, o: V.Operation, es: seq<Value>, ghost a: Value, t: V.Operation, items: seq<Value>,
      at: Path, from: nat) returns (r: Option<Path>)
    requires from + V.OperationArity(o) <= |es| && from + V.OperationArity(t) <= |items| && Parts(e, es) && Parts(a, items)
    ensures r == OperationMismatch(o, t, es, items, at, from)
    decreases e, 0, 1
  {
    hide Mismatch, Typed, FirstItem;
    if o.name != t.name { return Some(at + [Part(WMethod)]); }
    if o.arguments != t.arguments { return Some(at + [Part(WArgs)]); }
    PartsSlice(e, es, from, from + o.arguments);
    PartsSlice(a, items, from, from + o.arguments);
    r := ItemsMismatch(e, es[from..from + o.arguments], a, items[from..from + o.arguments], at, WArgs);
    if r.Some? { return; }
    if o.expects != t.expects { return Some(at + [Part(WExpected)]); }
    if o.expects {
      r := SemanticMismatch(es[from + o.arguments], items[from + o.arguments], at + [Part(WExpected)]);
    }
  }
}
