/**
 What the comparison reports, tag by tag, in terms of the sub-values alone: the sub-values that
 agree are passed over in order, and the first that does not agree decides the path.
 */
module ComparatorLaws {
  import opened Wrappers
  import opened Unicode
  import opened Words
  import V = Values
  import opened Encoding
  import opened Comparator
  import opened ComparatorOrder
  import opened ComparatorLoops
  import Codec

  type Value = V.Value

  /** No mismatch, wherever the two values stand. */
  predicate Agree(e: Value, a: Value) {
    Mismatch(e, a, []).None?
  }

  /** The sub-values from `lo` to `hi` agree in pairs. */
  predicate AllAgree(e: seq<Value>, a: seq<Value>, lo: nat, hi: nat)
    requires hi <= |e| && hi <= |a|
  {
    forall i | lo <= i < hi :: Agree(e[i], a[i])
  }

  /** Both have a sub-value `n`, and if these do not agree, the mismatch reported is theirs, at `step`. */
  predicate Decides(e: Value, a: Value, n: nat, path: Path, step: Path) {
    e.Node? && a.Node? && n < |e.kids| && n < |a.kids|
    && (!Agree(e.kids[n], a.kids[n]) ==> Mismatch(e, a, path) == Mismatch(e.kids[n], a.kids[n], path + step))
  }

  function Prefixed(p: Path, r: Option<Path>): Option<Path> {
    match r
    case None => None
    case Some(q) => Some(p + q)
  }

  /** The path a value stands at is prefixed to whatever is found in it. */
  lemma {:induction false} PathsArePrefixed(e: Value, a: Value, p: Path, q: Path)
    ensures Mismatch(e, a, p + q) == Prefixed(p, Mismatch(e, a, q))
    decreases e, 1, 0
  {
    hide Visits;
    WalkIsPrefixed(e, a, 0, p, q);
  }

  lemma {:induction false} WalkIsPrefixed(e: Value, a: Value, k: nat, p: Path, q: Path)
    ensures Walk(e, a, k, p + q) == Prefixed(p, Walk(e, a, k, q))
    decreases e, 0, |Visits(e)| - k
  {
    hide Visits, Mismatch;
    if k < |Visits(e)| && k < |Visits(a)| {
      WalkIsPrefixed(e, a, k + 1, p, q);
      var x, y := Visits(e)[k], Visits(a)[k];
      assert p + q + x.suffix == p + (q + x.suffix);
      if x.Kid? && y.Kid? && x.index < |KidsOf(e)| && y.index < |KidsOf(a)| {
        PathsArePrefixed(KidsOf(e)[x.index], KidsOf(a)[y.index], p, q + x.suffix);
      }
    }
  }

  lemma AgreeAnywhere(e: Value, a: Value, path: Path)
    ensures Agree(e, a) <==> Mismatch(e, a, path).None?
  {
    hide Mismatch;
    PathsArePrefixed(e, a, path, []);
    assert path + [] == path;
  }

  // ---- items -------------------------------------------------------------------------------------------

  /** The first pair that does not agree decides. */
  lemma {:induction false} FirstItemAt(e: seq<Value>, a: seq<Value>, base: Path, w: Word, i: nat, k: nat)
    requires |e| == |a| && i <= k < |e| && AllAgree(e, a, i, k) && !Agree(e[k], a[k])
    ensures FirstItem(e, a, base, w, i) == Mismatch(e[k], a[k], base + [Item(w, k)])
    ensures FirstItem(e, a, base, w, i).Some?
    decreases k - i
  {
    hide Mismatch, Agree;
    AgreeAnywhere(e[i], a[i], base + [Item(w, i)]);
    if i < k {
      FirstItemAt(e, a, base, w, i + 1, k);
    }
  }

  lemma {:induction false} NoItem(e: seq<Value>, a: seq<Value>, base: Path, w: Word, i: nat)
    requires |e| == |a| && i <= |e| && AllAgree(e, a, i, |e|)
    ensures FirstItem(e, a, base, w, i) == None
    decreases |e| - i
  {
    hide Mismatch, Agree;
    if i < |e| {
      AgreeAnywhere(e[i], a[i], base + [Item(w, i)]);
      NoItem(e, a, base, w, i + 1);
    }
  }

  /** Different tags are reported at once. */
  lemma TagDecides(e: Value, a: Value, path: Path)
    requires TagOf(e) != TagOf(a)
    ensures Mismatch(e, a, path) == Some(path)
  {
    TagsMismatchIs(e, a, path);
  }

  /** Leaves are compared on the spot. */
  lemma LeavesDecide(e: Value, a: Value, path: Path)
    requires e.Leaf? && a.Leaf?
    ensures Mismatch(e, a, path) == if e == a then None else Some(path)
  {
    hide Mismatch;
    if TagOf(e) != TagOf(a) {
      TagsMismatchIs(e, a, path);
    } else {
      LeafMismatchIs(e, a, path);
    }
  }

  /** Lists, tuples, sets and frozen sets: length, then items from the first to the last. */
  lemma ItemsInOrder(e: Value, a: Value, path: Path, k: nat)
    requires e.Node? && a.Node? && (e.shape.SList? || e.shape.SSet?) && e.shape == a.shape
    requires k <= |e.kids| && k <= |a.kids| && AllAgree(e.kids, a.kids, 0, k)
    ensures |e.kids| != |a.kids| ==> Mismatch(e, a, path) == Some(path)
    ensures k < |e.kids| == |a.kids| ==> Decides(e, a, k, path, [Item(WItems, k)])
    ensures |e.kids| == |a.kids| == k ==> Mismatch(e, a, path) == None
  {
    hide Mismatch, FirstItem, Agree;
    SequenceMismatchIs(e, a, path);
    if |e.kids| == |a.kids| {
      if k == |e.kids| {
        NoItem(e.kids, a.kids, path, WItems, 0);
      } else if !Agree(e.kids[k], a.kids[k]) {
        FirstItemAt(e.kids, a.kids, path, WItems, 0, k);
      }
    }
  }

  /** List nodes: cycle index and length, then payloads from the first to the last. */
  lemma PayloadsInOrder(e: Value, a: Value, path: Path, k: nat)
    requires e.Node? && a.Node? && e.shape.SListNode? && a.shape.SListNode?
    requires k <= |e.kids| && k <= |a.kids| && AllAgree(e.kids, a.kids, 0, k)
    ensures e.shape != a.shape || |e.kids| != |a.kids| ==> Mismatch(e, a, path) == Some(path)
    ensures e.shape == a.shape && k < |e.kids| == |a.kids| ==> Decides(e, a, k, path, [Item(WValues, k)])
    ensures e.shape == a.shape && |e.kids| == |a.kids| == k ==> Mismatch(e, a, path) == None
  {
    hide Mismatch, FirstItem, Agree;
    ListNodeMismatchIs(e, a, path);
    if |e.kids| == |a.kids| {
      if k == |e.kids| {
        NoItem(e.kids, a.kids, path, WValues, 0);
      } else if !Agree(e.kids[k], a.kids[k]) {
        FirstItemAt(e.kids, a.kids, path, WValues, 0, k);
      }
    }
  }

  // ---- entries -----------------------------------------------------------------------------------------

  predicate SameKey(e: seq<Value>, a: seq<Value>, i: nat)
    requires 2 * i < |e| && 2 * i < |a|
  {
    Codec.Encode(e[2 * i]) == Codec.Encode(a[2 * i])
  }

  /** Entry `i`: equal encodings of the keys and agreeing values. */
  predicate EntryAgrees(e: seq<Value>, a: seq<Value>, i: nat)
    requires 2 * i + 1 < |e| && 2 * i + 1 < |a|
  {
    SameKey(e, a, i) && Agree(e[2 * i + 1], a[2 * i + 1])
  }

  predicate EntriesAgree(e: seq<Value>, a: seq<Value>, lo: nat, hi: nat)
    requires 2 * hi <= |e| && 2 * hi <= |a|
  {
    forall i | lo <= i < hi :: EntryAgrees(e, a, i)
  }

  lemma {:induction false} FirstEntryAt(e: seq<Value>, a: seq<Value>, path: Path, i: nat, k: nat)
    requires |e| == |a| && i <= k && 2 * k <= |e| && EntriesAgree(e, a, i, k)
    ensures FirstEntry(e, a, path, i) == FirstEntry(e, a, path, k)
    decreases k - i
  {
    hide Mismatch, Agree, Codec.Encode;
    if i < k {
      assert EntryAgrees(e, a, i);
      AgreeAnywhere(e[2 * i + 1], a[2 * i + 1], path + [Item(WEntries, i), Part(WValue)]);
      FirstEntryAt(e, a, path, i + 1, k);
    }
  }

  /** Dicts: size, then entries in order, each its key by encoding and then its value. */
  lemma EntriesInOrder(e: Value, a: Value, path: Path, k: nat)
    requires e.Node? && a.Node? && e.shape.SDict? && a.shape.SDict? && Typed(e) && Typed(a)
    requires 2 * k <= |e.kids| && 2 * k <= |a.kids| && EntriesAgree(e.kids, a.kids, 0, k)
    ensures |e.kids| != |a.kids| ==> Mismatch(e, a, path) == Some(path)
    ensures 2 * k < |e.kids| == |a.kids| && !SameKey(e.kids, a.kids, k) ==>
              Mismatch(e, a, path) == Some(path + [Item(WEntries, k), Part(WKey)])
    ensures 2 * k < |e.kids| == |a.kids| && SameKey(e.kids, a.kids, k) ==>
              Decides(e, a, 2 * k + 1, path, [Item(WEntries, k), Part(WValue)])
    ensures |e.kids| == |a.kids| == 2 * k ==> Mismatch(e, a, path) == None
  {
    hide Mismatch, Agree, Codec.Encode, EntriesAgree;
    DictMismatchIs(e, a, path);
    assert |e.kids| % 2 == 0;
    if |e.kids| == |a.kids| {
      FirstEntryAt(e.kids, a.kids, path, 0, k);
      if 2 * k + 1 < |e.kids| {
        AgreeAnywhere(e.kids[2 * k + 1], a.kids[2 * k + 1], path + [Item(WEntries, k), Part(WValue)]);
      }
    }
  }

  // ---- record fields -----------------------------------------------------------------------------------

  lemma {:induction false} FirstFieldAt(names: seq<Text>, others: seq<Text>, e: seq<Value>, a: seq<Value>, path: Path, i: nat, k: nat)
    requires |names| == |others| == |e| == |a| && i <= k <= |e| && AllAgree(e, a, i, k) && names[..k] == others[..k]
    ensures FirstField(names, others, e, a, path, i) == FirstField(names, others, e, a, path, k)
    decreases k - i
  {
    hide Mismatch, Agree;
    if i < k {
      assert names[i] == names[..k][i] == others[..k][i];
      AgreeAnywhere(e[i], a[i], path + [Item(WFields, i), Part(WValue)]);
      FirstFieldAt(names, others, e, a, path, i + 1, k);
    }
  }

  predicate SameRecord(e: Value, a: Value)
    requires e.Node? && a.Node? && e.shape.SRecord? && a.shape.SRecord?
  {
    e.shape.namedTuple == a.shape.namedTuple && e.shape.name == a.shape.name && |e.kids| == |a.kids|
  }

  /** Records: identity and field count, then fields in order, each its name and then its value. */
  lemma FieldsInOrder(e: Value, a: Value, path: Path, k: nat)
    requires e.Node? && a.Node? && e.shape.SRecord? && a.shape.SRecord? && Typed(e) && Typed(a)
    requires k <= |e.kids| && k <= |a.kids| && AllAgree(e.kids, a.kids, 0, k) && e.shape.fields[..k] == a.shape.fields[..k]
    ensures !SameRecord(e, a) ==> Mismatch(e, a, path) == Some(path)
    ensures SameRecord(e, a) && k < |e.kids| && e.shape.fields[k] != a.shape.fields[k] ==>
              Mismatch(e, a, path) == Some(path + [Item(WFields, k), Part(WName)])
    ensures SameRecord(e, a) && k < |e.kids| && e.shape.fields[k] == a.shape.fields[k] ==>
              Decides(e, a, k, path, [Item(WFields, k), Part(WValue)])
    ensures SameRecord(e, a) && k == |e.kids| ==> Mismatch(e, a, path) == None
  {
    hide Mismatch, Agree, AllAgree;
    RecordMismatchIs(e, a, path);
    if |e.kids| == |a.kids| {
      FirstFieldAt(e.shape.fields, a.shape.fields, e.kids, a.kids, path, 0, k);
      if k < |e.kids| {
        AgreeAnywhere(e.kids[k], a.kids[k], path + [Item(WFields, k), Part(WValue)]);
      }
    }
  }

  // ---- tree slots --------------------------------------------------------------------------------------

  lemma {:induction false} PresentAt(present: seq<bool>, k: nat)
    requires k < |present|
    ensures V.Present(present[..k + 1]) == V.Present(present[..k]) + if present[k] then 1 else 0
    ensures V.Present(present[..k]) + V.Present(present[k..]) == V.Present(present)
    ensures present[k] ==> V.Present(present[..k]) < V.Present(present)
  {
    V.PresentSplit(present[..k], [present[k]]);
    assert present[..k] + [present[k]] == present[..k + 1];
    V.PresentSplit(present[..k], present[k..]);
    assert present[..k] + present[k..] == present;
    assert present[k..][0] == present[k];
  }

  lemma {:induction false} FirstSlotAt(e: seq<bool>, a: seq<bool>, x: seq<Value>, y: seq<Value>, path: Path, k: nat)
    requires |e| == |a| && k <= |e| && e[..k] == a[..k] && V.Present(e) == |x| && V.Present(a) == |y|
    requires V.Present(e[..k]) <= |x| && V.Present(e[..k]) <= |y| && AllAgree(x, y, 0, V.Present(e[..k]))
    ensures e[0..] == e && a[0..] == a
    ensures V.Present(e[..k]) + V.Present(e[k..]) == |x| && V.Present(e[..k]) + V.Present(a[k..]) == |y|
    ensures FirstSlot(e, a, x, y, path, 0, 0) == FirstSlot(e, a, x, y, path, k, V.Present(e[..k]))
  {
    hide Mismatch, Agree;
    assert e[0..] == e && a[0..] == a;
    if k == 0 {
      assert e[..0] == [];
    } else {
      var i := k - 1;
      assert e[..i] == e[..k][..i] == a[..k][..i] == a[..i] && e[i] == e[..k][i] == a[..k][i] == a[i];
      PresentAt(e, i);
      PresentAt(a, i);
      FirstSlotAt(e, a, x, y, path, i);
      SlotStep(e, a, x, y, path, i, V.Present(e[..i]));
    }
  }

  /** A slot that agrees is passed over. */
  lemma SlotStep(e: seq<bool>, a: seq<bool>, x: seq<Value>, y: seq<Value>, path: Path, i: nat, from: nat)
    requires |e| == |a| && i < |e| && e[i] == a[i]
    requires from + V.Present(e[i..]) == |x| && from + V.Present(a[i..]) == |y|
    requires e[i] ==> from < |x| && from < |y| && Agree(x[from], y[from])
    ensures var next := if e[i] then from + 1 else from;
      && next + V.Present(e[i + 1..]) == |x| && next + V.Present(a[i + 1..]) == |y|
      && FirstSlot(e, a, x, y, path, i, from) == FirstSlot(e, a, x, y, path, i + 1, next)
  {
    hide Mismatch, Agree;
    assert e[i..][1..] == e[i + 1..] && a[i..][1..] == a[i + 1..];
    if e[i] {
      AgreeAnywhere(x[from], y[from], path + [Item(WValues, i)]);
    }
  }

  /** Trees: slot count, then slots in level order, each its presence and then its payload. */
  lemma SlotsInOrder(e: Value, a: Value, path: Path, k: nat, n: nat)
    requires e.Node? && a.Node? && e.shape.STreeNode? && a.shape.STreeNode? && Typed(e) && Typed(a)
    requires k <= |e.shape.present| && k <= |a.shape.present| && e.shape.present[..k] == a.shape.present[..k]
    requires n == V.Present(e.shape.present[..k]) && n <= |e.kids| && n <= |a.kids| && AllAgree(e.kids, a.kids, 0, n)
    ensures |e.shape.present| != |a.shape.present| ==> Mismatch(e, a, path) == Some(path)
    ensures k < |e.shape.present| == |a.shape.present| && e.shape.present[k] != a.shape.present[k] ==>
              Mismatch(e, a, path) == Some(path + [Item(WValues, k)])
    ensures k < |e.shape.present| == |a.shape.present| && e.shape.present[k] && a.shape.present[k] ==>
              Decides(e, a, n, path, [Item(WValues, k)])
    ensures k == |e.shape.present| == |a.shape.present| ==> Mismatch(e, a, path) == None
  {
    hide Mismatch, Agree, AllAgree;
    TreeNodeMismatchIs(e, a, path);
    var s, t := e.shape.present, a.shape.present;
    if |s| == |t| {
      FirstSlotAt(s, t, e.kids, a.kids, path, k);
      SlotDecides(s, t, e.kids, a.kids, path, k, V.Present(s[..k]));
    }
  }

  lemma SlotDecides(e: seq<bool>, a: seq<bool>, x: seq<Value>, y: seq<Value>, path: Path, i: nat, from: nat)
    requires |e| == |a| && i <= |e|
    requires from + V.Present(e[i..]) == |x| && from + V.Present(a[i..]) == |y|
    ensures i == |e| ==> FirstSlot(e, a, x, y, path, i, from) == None
    ensures i < |e| && e[i] != a[i] ==> FirstSlot(e, a, x, y, path, i, from) == Some(path + [Item(WValues, i)])
    ensures i < |e| && e[i] && a[i] ==> from < |x| && from < |y|
    ensures i < |e| && e[i] && a[i] && !Agree(x[from], y[from]) ==>
              FirstSlot(e, a, x, y, path, i, from) == Mismatch(x[from], y[from], path + [Item(WValues, i)])
  {
    hide Mismatch, Agree;
    if i < |e| && e[i] && a[i] {
      assert e[i..][0] && a[i..][0];
      AgreeAnywhere(x[from], y[from], path + [Item(WValues, i)]);
    }
  }

  // ---- complex numbers, enums, exceptions --------------------------------------------------------------

  /** Complex numbers: the real part, then the imaginary part. */
  lemma RealThenImaginary(e: Value, a: Value, path: Path)
    requires e.Node? && a.Node? && e.shape.SComplex? && a.shape.SComplex? && Typed(e) && Typed(a)
    ensures !Agree(e.kids[0], a.kids[0]) ==> Mismatch(e, a, path) == Mismatch(e.kids[0], a.kids[0], path + [Part(WReal)])
    ensures Agree(e.kids[0], a.kids[0]) ==> Mismatch(e, a, path) == Mismatch(e.kids[1], a.kids[1], path + [Part(WImag)])
  {
    hide Mismatch, Agree;
    ComplexMismatchIs(e, a, path);
    AgreeAnywhere(e.kids[0], a.kids[0], path + [Part(WReal)]);
  }

  /** Enums: type and member, then the payload. */
  lemma IdentityThenPayload(e: Value, a: Value, path: Path)
    requires e.Node? && a.Node? && e.shape.SEnum? && a.shape.SEnum? && Typed(e) && Typed(a)
    ensures e.shape.name != a.shape.name || e.shape.member != a.shape.member ==> Mismatch(e, a, path) == Some(path)
    ensures e.shape.name == a.shape.name && e.shape.member == a.shape.member ==>
              Mismatch(e, a, path) == Mismatch(e.kids[0], a.kids[0], path + [Part(WValue)])
  {
    hide Mismatch;
    EnumMismatchIs(e, a, path);
  }

  /** Exceptions: by their encodings only. */
  lemma ExceptionsByEncoding(e: Value, a: Value, path: Path)
    requires e.Node? && a.Node? && e.shape.SException? && a.shape.SException?
    ensures Mismatch(e, a, path) == if Codec.Encode(e) == Codec.Encode(a) then None else Some(path)
  {
    hide Mismatch, Codec.Encode;
    ExceptionMismatchIs(e, a, path);
  }

  // ---- class traces ------------------------------------------------------------------------------------

  predicate SameBeginning(s: V.Shape, t: V.Shape)
    requires s.SClassTrace? && t.SClassTrace?
  {
    s.name == t.name && s.arguments == t.arguments
  }

  /** Class traces: name, argument count, then the constructor's arguments, then the number of operations. */
  lemma ConstructorInOrder(e: Value, a: Value, path: Path, k: nat)
    requires e.Node? && a.Node? && e.shape.SClassTrace? && a.shape.SClassTrace? && Typed(e) && Typed(a)
    requires k <= e.shape.arguments && k <= a.shape.arguments && k <= |e.kids| && k <= |a.kids| && AllAgree(e.kids, a.kids, 0, k)
    ensures e.shape.name != a.shape.name ==> Mismatch(e, a, path) == Some(path)
    ensures e.shape.name == a.shape.name && e.shape.arguments != a.shape.arguments ==>
              Mismatch(e, a, path) == Some(path + [Part(WConstructor)])
    ensures SameBeginning(e.shape, a.shape) && k < e.shape.arguments ==> Decides(e, a, k, path, [Item(WConstructor, k)])
    ensures SameBeginning(e.shape, a.shape) && k == e.shape.arguments && |e.shape.operations| != |a.shape.operations| ==>
              Mismatch(e, a, path) == Some(path + [Part(WOperations)])
  {
    hide Mismatch, Agree, FirstItem, FirstOperation;
    ClassTraceMismatchIs(e, a, path);
    var n := e.shape.arguments;
    if n == a.shape.arguments {
      var x, y := e.kids[..n], a.kids[..n];
      if k == n {
        NoItem(x, y, path, WConstructor, 0);
      } else if !Agree(x[k], y[k]) {
        FirstItemAt(x, y, path, WConstructor, 0, k);
      }
    }
  }

  /** Where the sub-values of operation `i` start. */
  function Start(s: V.Shape, i: nat): nat
    requires s.SClassTrace? && i <= |s.operations|
  {
    s.arguments + V.OperationsArity(s.operations[..i])
  }

  lemma {:induction false} AritySplit(x: seq<V.Operation>, y: seq<V.Operation>)
    ensures V.OperationsArity(x + y) == V.OperationsArity(x) + V.OperationsArity(y)
  {
    if x == [] {
      assert x + y == y;
    } else {
      AritySplit(x[1..], y);
      assert (x + y)[1..] == x[1..] + y;
    }
  }

  lemma StartIs(s: V.Shape, i: nat)
    requires s.SClassTrace? && i <= |s.operations|
    ensures Start(s, i) + V.OperationsArity(s.operations[i..]) == s.arguments + V.OperationsArity(s.operations)
    ensures i < |s.operations| ==> Start(s, i + 1) == Start(s, i) + V.OperationArity(s.operations[i])
    ensures i < |s.operations| ==> Start(s, i + 1) + V.OperationsArity(s.operations[i + 1..]) == s.arguments + V.OperationsArity(s.operations)
  {
    var os := s.operations;
    AritySplit(os[..i], os[i..]);
    assert os[..i] + os[i..] == os;
    if i < |os| {
      AritySplit(os[..i], [os[i]]);
      assert os[..i] + [os[i]] == os[..i + 1];
      assert V.OperationsArity([os[i]]) == V.OperationArity(os[i]) + V.OperationsArity([]);
      AritySplit(os[..i + 1], os[i + 1..]);
      assert os[..i + 1] + os[i + 1..] == os;
    }
  }

  /** An operation all of whose sub-values agree is passed over. */
  lemma NoOperation(o: V.Operation, e: seq<Value>, a: seq<Value>, at: Path, from: nat)
    requires from + V.OperationArity(o) <= |e| && from + V.OperationArity(o) <= |a|
    requires AllAgree(e, a, from, from + V.OperationArity(o))
    ensures OperationMismatch(o, o, e, a, at, from) == None
  {
    hide Mismatch, Agree, FirstItem;
    var n := o.arguments;
    NoItem(e[from..from + n], a[from..from + n], at, WArgs, 0);
    if o.expects {
      AgreeAnywhere(e[from + n], a[from + n], at + [Part(WExpected)]);
    }
  }

  lemma OperationStep(os: seq<V.Operation>, ts: seq<V.Operation>, e: seq<Value>, a: seq<Value>, path: Path, i: nat, from: nat)
    requires |os| == |ts| && i < |os| && os[i] == ts[i]
    requires from + V.OperationsArity(os[i..]) == |e| && from + V.OperationsArity(ts[i..]) == |a|
    requires from + V.OperationArity(os[i]) <= |e| && from + V.OperationArity(os[i]) <= |a|
    requires AllAgree(e, a, from, from + V.OperationArity(os[i]))
    ensures var next := from + V.OperationArity(os[i]);
      && next + V.OperationsArity(os[i + 1..]) == |e| && next + V.OperationsArity(ts[i + 1..]) == |a|
      && FirstOperation(os, ts, e, a, path, i, from) == FirstOperation(os, ts, e, a, path, i + 1, next)
  {
    hide OperationMismatch, AllAgree;
    assert os[i..][1..] == os[i + 1..] && ts[i..][1..] == ts[i + 1..];
    NoOperation(os[i], e, a, path + [Item(WOperations, i)], from);
  }

  lemma SamePrefix<T>(x: seq<T>, y: seq<T>, i: nat)
    requires i < |x| && i < |y| && x[..i + 1] == y[..i + 1]
    ensures x[..i] == y[..i] && x[i] == y[i]
  {
    assert x[..i] == x[..i + 1][..i] && y[..i] == y[..i + 1][..i];
    assert x[i] == x[..i + 1][i] && y[i] == y[..i + 1][i];
  }

  lemma StartsAgree(s: V.Shape, t: V.Shape, e: seq<Value>, a: seq<Value>, i: nat)
    requires s.SClassTrace? && t.SClassTrace? && V.Arity(s, |e|) && V.Arity(t, |a|) && s.arguments == t.arguments
    requires |s.operations| == |t.operations| && i <= |s.operations| && s.operations[..i] == t.operations[..i]
    ensures Start(s, i) + V.OperationsArity(s.operations[i..]) == |e| && Start(s, i) + V.OperationsArity(t.operations[i..]) == |a|
  {
    StartIs(s, i);
    StartIs(t, i);
  }

  lemma {:induction false} FirstOperationAt(s: V.Shape, t: V.Shape, e: seq<Value>, a: seq<Value>, path: Path, i: nat)
    requires s.SClassTrace? && t.SClassTrace? && V.Arity(s, |e|) && V.Arity(t, |a|) && s.arguments == t.arguments
    requires |s.operations| == |t.operations| && i <= |s.operations| && s.operations[..i] == t.operations[..i]
    requires Start(s, i) <= |e| && Start(s, i) <= |a| && AllAgree(e, a, s.arguments, Start(s, i))
    ensures s.operations[0..] == s.operations && t.operations[0..] == t.operations
    ensures Start(s, i) + V.OperationsArity(s.operations[i..]) == |e| && Start(s, i) + V.OperationsArity(t.operations[i..]) == |a|
    ensures FirstOperation(s.operations, t.operations, e, a, path, 0, s.arguments)
         == FirstOperation(s.operations, t.operations, e, a, path, i, Start(s, i))
  {
    hide Agree, OperationMismatch, FirstOperation, V.OperationsArity, V.OperationArity;
    var os, ts := s.operations, t.operations;
    assert os[0..] == os && ts[0..] == ts;
    StartsAgree(s, t, e, a, i);
    if i == 0 {
      NothingBefore(s);
    } else {
      var j := i - 1;
      SamePrefix(os, ts, j);
      StartIs(s, j);
      StartsAgree(s, t, e, a, j);
      FirstOperationAt(s, t, e, a, path, j);
      OperationStep(os, ts, e, a, path, j, Start(s, j));
    }
  }

  lemma NothingBefore(s: V.Shape)
    requires s.SClassTrace?
    ensures Start(s, 0) == s.arguments
  {
    assert s.operations[..0] == [];
  }

  predicate SameCall(o: V.Operation, p: V.Operation) {
    o.name == p.name && o.arguments == p.arguments
  }

  /** Same class, same argument and operation counts, same operations before number `i`. */
  predicate ReachesOperation(s: V.Shape, t: V.Shape, i: nat) {
    && s.SClassTrace? && t.SClassTrace? && s.name == t.name && s.arguments == t.arguments
    && |s.operations| == |t.operations| && i < |s.operations| && s.operations[..i] == t.operations[..i]
  }

  /** `o` and `p` are the operations `i`, their first `k` arguments agree, and the next sub-value is number `n`. */
  predicate ReachesArgument(e: Value, a: Value, i: nat, k: nat, o: V.Operation, p: V.Operation, n: nat) {
    && e.Node? && a.Node? && ReachesOperation(e.shape, a.shape, i)
    && o == e.shape.operations[i] && p == a.shape.operations[i]
    && k <= o.arguments && k <= p.arguments && n == Start(e.shape, i) + k
    && n <= |e.kids| && n <= |a.kids| && AllAgree(e.kids, a.kids, 0, n)
  }

  /**
   Class traces whose constructors and first `i` operations agree: operation `i` is compared by its
   method, its argument count, its arguments from the first to the last, whether it states a
   result, and that result.
   */
  lemma OperationsInOrder(e: Value, a: Value, path: Path, i: nat, k: nat, o: V.Operation, p: V.Operation, n: nat)
    requires Typed(e) && Typed(a) && ReachesArgument(e, a, i, k, o, p, n)
    ensures o.name != p.name ==> Mismatch(e, a, path) == Some(path + [Item(WOperations, i), Part(WMethod)])
    ensures o.name == p.name && o.arguments != p.arguments ==>
              Mismatch(e, a, path) == Some(path + [Item(WOperations, i), Part(WArgs)])
    ensures SameCall(o, p) && k < o.arguments ==>
              Decides(e, a, n, path, [Item(WOperations, i), Item(WArgs, k)])
    ensures SameCall(o, p) && k == o.arguments && o.expects != p.expects ==>
              Mismatch(e, a, path) == Some(path + [Item(WOperations, i), Part(WExpected)])
    ensures SameCall(o, p) && k == o.arguments && o.expects && p.expects ==>
              Decides(e, a, n, path, [Item(WOperations, i), Part(WExpected)])
  {
    hide Mismatch, Agree, OperationMismatch, FirstItem;
    var at := path + [Item(WOperations, i)];
    TraceReaches(e, a, path, i);
    OperationDecides(o, p, e.kids, a.kids, at, n - k, k);
    assert at + [Part(WMethod)] == path + [Item(WOperations, i), Part(WMethod)];
    assert at + [Part(WArgs)] == path + [Item(WOperations, i), Part(WArgs)];
    assert at + [Part(WExpected)] == path + [Item(WOperations, i), Part(WExpected)];
    assert at + [Item(WArgs, k)] == path + [Item(WOperations, i), Item(WArgs, k)];
    if n < |e.kids| && n < |a.kids| {
      AgreeAnywhere(e.kids[n], a.kids[n], at + [Item(WArgs, k)]);
      AgreeAnywhere(e.kids[n], a.kids[n], at + [Part(WExpected)]);
    }
  }

  /** What is reported is what operation `i` reports, if it reports anything. */
  lemma TraceReaches(e: Value, a: Value, path: Path, i: nat)
    requires e.Node? && a.Node? && e.shape.SClassTrace? && a.shape.SClassTrace? && Typed(e) && Typed(a)
    requires ReachesOperation(e.shape, a.shape, i)
    requires Start(e.shape, i) <= |e.kids| && Start(e.shape, i) <= |a.kids| && AllAgree(e.kids, a.kids, 0, Start(e.shape, i))
    ensures var s, t := e.shape, a.shape;
      && Start(s, i) + V.OperationArity(s.operations[i]) <= |e.kids|
      && Start(s, i) + V.OperationArity(t.operations[i]) <= |a.kids|
      && var found := OperationMismatch(s.operations[i], t.operations[i], e.kids, a.kids, path + [Item(WOperations, i)], Start(s, i));
         found.Some? ==> Mismatch(e, a, path) == found
  {
    hide Mismatch, Agree, OperationMismatch, FirstItem;
    var s, t := e.shape, a.shape;
    ClassTraceMismatchIs(e, a, path);
    NoItem(e.kids[..s.arguments], a.kids[..s.arguments], path, WConstructor, 0);
    FirstOperationAt(s, t, e.kids, a.kids, path, i);
    assert s.operations[i..][0] == s.operations[i] && t.operations[i..][0] == t.operations[i];
  }

  lemma OperationDecides(o: V.Operation, p: V.Operation, e: seq<Value>, a: seq<Value>, at: Path, from: nat, k: nat)
    requires from + V.OperationArity(o) <= |e| && from + V.OperationArity(p) <= |a|
    requires k <= o.arguments && k <= p.arguments && AllAgree(e, a, from, from + k)
    ensures o.name != p.name ==> OperationMismatch(o, p, e, a, at, from) == Some(at + [Part(WMethod)])
    ensures o.name == p.name && o.arguments != p.arguments ==>
              OperationMismatch(o, p, e, a, at, from) == Some(at + [Part(WArgs)])
    ensures SameCall(o, p) && k < o.arguments && !Agree(e[from + k], a[from + k]) ==>
              OperationMismatch(o, p, e, a, at, from) == Mismatch(e[from + k], a[from + k], at + [Item(WArgs, k)])
    ensures SameCall(o, p) && k == o.arguments && o.expects != p.expects ==>
              OperationMismatch(o, p, e, a, at, from) == Some(at + [Part(WExpected)])
    ensures SameCall(o, p) && k == o.arguments && o.expects && p.expects
            && !Agree(e[from + k], a[from + k]) ==>
              OperationMismatch(o, p, e, a, at, from) == Mismatch(e[from + k], a[from + k], at + [Part(WExpected)])
  {
    hide Mismatch, Agree, FirstItem;
    var n := o.arguments;
    if n == p.arguments {
      var x, y := e[from..from + n], a[from..from + n];
      if k == n {
        NoItem(x, y, at, WArgs, 0);
        if o.expects && p.expects {
          AgreeAnywhere(e[from + n], a[from + n], at + [Part(WExpected)]);
        }
      } else if !Agree(x[k], y[k]) {
        FirstItemAt(x, y, at, WArgs, 0, k);
      }
    }
  }

  /** And when everything agrees there is no mismatch. */
  lemma TracesAgree(e: Value, a: Value, path: Path)
    requires e.Node? && a.Node? && e.shape.SClassTrace? && e.shape == a.shape && Typed(e) && Typed(a)
    requires |e.kids| == |a.kids| && AllAgree(e.kids, a.kids, 0, |e.kids|)
    ensures Mismatch(e, a, path) == None
  {
    hide Mismatch, Agree, OperationMismatch, FirstItem;
    var s := e.shape;
    ClassTraceMismatchIs(e, a, path);
    NoItem(e.kids[..s.arguments], a.kids[..s.arguments], path, WConstructor, 0);
    assert s.operations[..|s.operations|] == s.operations;
    FirstOperationAt(s, s, e.kids, a.kids, path, |s.operations|);
  }
}
