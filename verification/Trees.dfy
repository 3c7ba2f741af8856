/** The trees of canonical values are legal JSON, within the parser's nesting limit. */
module Trees {
  import opened Wrappers
  import opened Unicode
  import opened Json
  import opened JsonPrinter
  import opened Sorting
  import opened Words
  import opened Forms
  import V = Values
  import opened Encoding
  import opened Canonical
  import N = Numerals

  // ---- forms --------------------------------------------------------------------------

  ghost predicate SoundForm(f: Form)
    decreases f, 1
  {
    match f
    case FNumber(raw) => IsNumber(raw)
    case FArray(items) => forall i | 0 <= i < |items| :: SoundForm(items[i])
    case FObject(fields) => SoundFields(fields)
    case _ => true
  }

  ghost predicate SoundFields(fields: seq<FormField>)
    decreases fields, 0
  {
    DistinctWords(fields) && forall i | 0 <= i < |fields| :: SoundField(fields[i])
  }

  ghost predicate SoundField(field: FormField)
    decreases field, 0
  {
    assert field.form < field;
    SoundForm(field.form)
  }

  lemma {:induction false} GraftSound(f: Form, trees: seq<Json>)
    requires SoundForm(f) && forall i | 0 <= i < |trees| :: Sound(trees[i])
    ensures Sound(Graft(f, trees))
    decreases f
  {
    match f
    case FArray(items) =>
      forall i | 0 <= i < |items| ensures Sound(Graft(items[i], trees)) {
        GraftSound(items[i], trees);
      }
    case FObject(fields) =>
      forall i | 0 <= i < |fields| ensures Sound(Graft(fields[i].form, trees)) {
        assert fields[i].form < fields[i] && SoundField(fields[i]);
        GraftSound(fields[i].form, trees);
      }
      GraftedMembers(fields, trees);
      GraftedOrder(fields, trees);
      GraftedObjectSound(fields, trees);
    case _ =>
  }

  lemma GraftedObjectSound(fields: seq<FormField>, trees: seq<Json>)
    requires var ms := Graft(FObject(fields), trees).members;
      DistinctKeys(ms)
      && forall m | m in ms :: exists i | 0 <= i < |fields| :: m == FieldMember(fields[i], trees)
    requires forall i | 0 <= i < |fields| :: Sound(Graft(fields[i].form, trees))
    ensures Sound(Graft(FObject(fields), trees))
  {
    GraftIsObject(fields, trees);
    hide Spell, Graft;
    var ms := Graft(FObject(fields), trees).members;
    forall i | 0 <= i < |ms| ensures Sound(ms[i].value) {
      assert ms[i] in ms;
    }
  }

  lemma GraftIsObject(fields: seq<FormField>, trees: seq<Json>)
    ensures Graft(FObject(fields), trees).JObject?
  {
  }

  /** Nesting contributed by the form itself. */
  function Height(f: Form): nat
    decreases f, 1
  {
    match f
    case FArray(items) => 1 + ItemsHeight(items)
    case FObject(fields) => 1 + FieldsHeight(fields)
    case _ => 0
  }

  function ItemsHeight(items: seq<Form>): nat
    decreases items, 0
  {
    if items == [] then 0 else JsonPrinter.Max(Height(items[0]), ItemsHeight(items[1..]))
  }

  function FieldsHeight(fields: seq<FormField>): nat
    decreases fields, 0
  {
    if fields == [] then 0
    else
      assert fields[0].form < fields[0];
      JsonPrinter.Max(Height(fields[0].form), FieldsHeight(fields[1..]))
  }

  lemma {:induction false} ItemHeight(items: seq<Form>, i: nat)
    requires i < |items|
    ensures Height(items[i]) <= ItemsHeight(items)
  {
    if i > 0 {
      ItemHeight(items[1..], i - 1);
    }
  }

  lemma {:induction false} FieldHeight(fields: seq<FormField>, i: nat)
    requires i < |fields|
    ensures Height(fields[i].form) <= FieldsHeight(fields)
  {
    if i > 0 {
      FieldHeight(fields[1..], i - 1);
    }
  }

  lemma {:induction false} ItemsNestingBound(items: seq<Json>, bound: nat)
    requires forall i | 0 <= i < |items| :: Nesting(items[i]) <= bound
    ensures ItemsNesting(items) <= bound
  {
    if items != [] {
      ItemsNestingBound(items[1..], bound);
    }
  }

  lemma {:induction false} MembersNestingBound(ms: seq<Member>, bound: nat)
    requires forall i | 0 <= i < |ms| :: Nesting(ms[i].value) <= bound
    ensures MembersNesting(ms) <= bound
  {
    if ms != [] {
      MembersNestingBound(ms[1..], bound);
    }
  }

  lemma {:induction false} GraftNesting(f: Form, trees: seq<Json>, bound: nat)
    requires forall i | 0 <= i < |trees| :: Nesting(trees[i]) <= bound
    ensures Nesting(Graft(f, trees)) <= Height(f) + bound
    decreases f
  {
    match f
    case FArray(items) =>
      forall i | 0 <= i < |items| ensures Nesting(Graft(items[i], trees)) <= ItemsHeight(items) + bound {
        ItemHeight(items, i);
        GraftNesting(items[i], trees, bound);
      }
      ItemsNestingBound(GraftItems(items, trees), ItemsHeight(items) + bound);
    case FObject(fields) =>
      forall i | 0 <= i < |fields| ensures Nesting(Graft(fields[i].form, trees)) <= FieldsHeight(fields) + bound {
        FieldHeight(fields, i);
        assert fields[i].form < fields[i];
        GraftNesting(fields[i].form, trees, bound);
      }
      GraftedMembers(fields, trees);
      GraftedObjectNesting(fields, trees, FieldsHeight(fields) + bound);
    case _ =>
  }

  lemma GraftedObjectNesting(fields: seq<FormField>, trees: seq<Json>, bound: nat)
    requires var ms := Graft(FObject(fields), trees).members;
      forall m | m in ms :: exists i | 0 <= i < |fields| :: m == FieldMember(fields[i], trees)
    requires forall i | 0 <= i < |fields| :: Nesting(Graft(fields[i].form, trees)) <= bound
    ensures Nesting(Graft(FObject(fields), trees)) <= 1 + bound
  {
    GraftIsObject(fields, trees);
    hide Spell, Graft, Nesting, MembersNesting;
    var ms := Graft(FObject(fields), trees).members;
    forall i | 0 <= i < |ms| ensures Nesting(ms[i].value) <= bound {
      assert ms[i] in ms;
    }
    MembersNestingBound(ms, bound);
    ObjectNesting(ms);
  }

  lemma ObjectNesting(ms: seq<Member>)
    ensures Nesting(JObject(ms)) == 1 + MembersNesting(ms)
  {
  }

  // ---- the codec's forms ------------------------------------------------------------------

  lemma ObjectSound(fields: seq<FormField>)
    requires DistinctWords(fields) && forall i | 0 <= i < |fields| :: SoundForm(fields[i].form)
    ensures SoundForm(FObject(fields))
  {
    forall i | 0 <= i < |fields| ensures SoundField(fields[i]) {
    }
  }

  lemma NullableSound(n: Option<int>)
    ensures SoundForm(NullableInt(n))
  {
    if n.Some? {
      N.DecimalIsNumber(n.value);
    }
  }

  lemma FoldSound(fold: bool)
    ensures SoundForm(FoldForm(fold))
  {
    var raw := if fold then U("1") else U("0");
    assert NumberParts(raw, [], raw, [], []);
  }

  lemma MomentSound(offset: Option<int>, fold: bool)
    ensures SoundForm(FoldForm(fold)) && SoundForm(NullableInt(offset))
  {
    FoldSound(fold);
    NullableSound(offset);
  }

  lemma LeafFormsSound(l: V.Leaf)
    ensures DistinctWords(LeafFields(l)) && forall i | 0 <= i < |LeafFields(l)| :: SoundForm(LeafFields(l)[i].form)
  {
    hide Spell, N.Decimal, FoldForm, NullableInt;
    match l
    case LInt(n) => N.DecimalIsNumber(n);
    case LTime(_, offset, fold) => MomentSound(offset, fold);
    case LDatetime(_, minutes, fold) => MomentSound(Some(minutes), fold);
    case _ =>
  }

  lemma LeafSound(l: V.Leaf)
    ensures SoundForm(FObject(LeafFields(l)))
  {
    LeafFormsSound(l);
    ObjectSound(LeafFields(l));
  }

  lemma {:induction false} SlotFormsSound(present: seq<bool>, from: nat)
    ensures forall i | 0 <= i < |present| :: SoundForm(SlotForms(present, from)[i])
    ensures ItemsHeight(SlotForms(present, from)) == 0
  {
    if present != [] {
      var next := if present[0] then from + 1 else from;
      SlotFormsSound(present[1..], next);
      assert SlotForms(present, from)[1..] == SlotForms(present[1..], next);
    }
  }

  lemma {:induction false} FlatHeight(items: seq<Form>)
    requires forall i | 0 <= i < |items| :: items[i].Hole?
    ensures ItemsHeight(items) == 0
  {
    if items != [] {
      FlatHeight(items[1..]);
    }
  }

  lemma {:induction false} HeightBound(items: seq<Form>, bound: nat)
    requires forall i | 0 <= i < |items| :: Height(items[i]) <= bound
    ensures ItemsHeight(items) <= bound
  {
    if items != [] {
      HeightBound(items[1..], bound);
    }
  }

  lemma OperationFormSound(o: V.Operation, from: nat)
    ensures SoundForm(OperationForm(o, from)) && Height(OperationForm(o, from)) <= 2
  {
    FlatHeight(Holes(from, o.arguments));
    var fields := OperationForm(o, from).fields;
    ObjectSound(fields);
    FieldsHeightBound(fields, 1);
  }

  lemma {:induction false} OperationFormsSound(os: seq<V.Operation>, from: nat)
    ensures forall i | 0 <= i < |os| :: SoundForm(OperationForms(os, from)[i])
    ensures ItemsHeight(OperationForms(os, from)) <= 2
  {
    if os != [] {
      OperationFormSound(os[0], from);
      OperationFormsSound(os[1..], from + V.OperationArity(os[0]));
    }
  }

  lemma NodeSound(s: V.Shape, n: nat)
    ensures SoundForm(FObject(NodeFields(s, n)))
  {
    NodeWords(s, n);
    NodePartsSound(s, n);
    ObjectSound(NodeFields(s, n));
  }

  lemma NodeWords(s: V.Shape, n: nat)
    ensures DistinctWords(NodeFields(s, n))
  {
    hide Spell, N.Decimal, Holes, EntryForms, RecordFieldForms, SlotForms, OperationForms, NullableInt;
  }

  lemma NodePartsSound(s: V.Shape, n: nat)
    ensures forall i | 0 <= i < |NodeFields(s, n)| :: SoundForm(NodeFields(s, n)[i].form)
  {
    hide Spell, N.Decimal, SlotForms, OperationForms, OperationForm;
    match s
    case SListNode(Some(c)) => N.DecimalIsNumber(c);
    case STreeNode(present) => SlotFormsSound(present, 0);
    case SClassTrace(_, arguments, operations) => OperationFormsSound(operations, arguments);
    case SRecord(_, _, fields) =>
      forall i | 0 <= i < |fields| ensures SoundForm(RecordFieldForm(fields[i], i)) {
        ObjectSound(RecordFieldForm(fields[i], i).fields);
      }
    case SDict =>
      forall i | 0 <= i < n / 2 ensures SoundForm(EntryForm(i)) {
        ObjectSound(EntryForm(i).fields);
      }
    case _ =>
  }

  lemma {:induction false} FieldsHeightBound(fields: seq<FormField>, bound: nat)
    requires forall i | 0 <= i < |fields| :: Height(fields[i].form) <= bound
    ensures FieldsHeight(fields) <= bound
  {
    if fields != [] {
      FieldsHeightBound(fields[1..], bound);
    }
  }

  lemma EntryHeight(i: nat)
    ensures Height(EntryForm(i)) <= 1
  {
    FieldsHeightBound(EntryForm(i).fields, 0);
  }

  lemma RecordFieldHeight(name: Text, i: nat)
    ensures Height(RecordFieldForm(name, i)) <= 1
  {
    FieldsHeightBound(RecordFieldForm(name, i).fields, 0);
  }

  lemma DictHeight(n: nat)
    ensures ItemsHeight(EntryForms(n)) <= 1
  {
    forall i | 0 <= i < n ensures Height(EntryForm(i)) <= 1 {
      EntryHeight(i);
    }
    HeightBound(EntryForms(n), 1);
  }

  lemma RecordHeight(fields: seq<Text>)
    ensures ItemsHeight(RecordFieldForms(fields)) <= 1
  {
    forall i | 0 <= i < |fields| ensures Height(RecordFieldForm(fields[i], i)) <= 1 {
      RecordFieldHeight(fields[i], i);
    }
    HeightBound(RecordFieldForms(fields), 1);
  }

  /** No part of a node adds more than three levels. */
  lemma PartHeights(s: V.Shape, n: nat)
    ensures forall i | 0 <= i < |NodeFields(s, n)| :: Height(NodeFields(s, n)[i].form) <= if s.SComplex? then 0 else 3
  {
    hide Spell, N.Decimal, SlotForms, OperationForms, Holes, EntryForms, RecordFieldForms, ItemsHeight;
    match s
    case SList(_) => FlatHeight(Holes(0, n));
    case SSet(_) => FlatHeight(Holes(0, n));
    case SDict => DictHeight(n / 2);
    case SRecord(_, _, fields) => RecordHeight(fields);
    case SListNode(_) => FlatHeight(Holes(0, n));
    case STreeNode(present) => SlotFormsSound(present, 0);
    case SClassTrace(_, arguments, operations) =>
      OperationFormsSound(operations, arguments);
      FlatHeight(Holes(0, arguments));
    case _ =>
  }

  lemma NodeHeight(s: V.Shape, n: nat)
    ensures Height(FObject(NodeFields(s, n))) <= if s.SComplex? then 1 else 4
  {
    hide NodeFields;
    PartHeights(s, n);
    FieldsHeightBound(NodeFields(s, n), if s.SComplex? then 0 else 3);
  }

  // ---- values ------------------------------------------------------------------------------

  /** Only legal numbers and unique keys are ever written. */
  lemma {:induction false} TreeSound(v: Value)
    ensures Sound(TreeOf(v))
    decreases v, 1
  {
    match v
    case Leaf(l) =>
      LeafSound(l);
      GraftSound(FObject(LeafFields(l)), []);
    case Node(s, kids) =>
      TreesSound(kids);
      NodeSound(Trim(s), |kids|);
      GraftSound(FObject(NodeFields(Trim(s), |kids|)), TreesOf(kids));
  }

  lemma {:induction false} TreesSound(vs: seq<Value>)
    ensures forall i | 0 <= i < |vs| :: Sound(TreesOf(vs)[i])
    decreases vs, 0
  {
    if vs != [] {
      TreeSound(vs[0]);
      TreesSound(vs[1..]);
    }
  }

  /** A level of the decoder's budget costs at most four levels of JSON. */
  lemma {:induction false} TreeNesting(v: Value)
    requires Canon(v)
    ensures Nesting(TreeOf(v)) <= 4 * V.Depth(v, V.Decoder) + if v.Leaf? then 1 else 2
    decreases v, 1
  {
    hide LegalLeaf, Legal, Ordered, NodeFields, Graft;
    match v
    case Leaf(l) => LeafNesting(l);
    case Node(s, kids) =>
      TreesNesting(kids);
      var bound := if s.SComplex? then 1 else 4 * V.Depths(kids, V.Decoder) + 2;
      if s.SComplex? {
        ComplexNesting(kids);
      }
      NodeHeight(s, |kids|);
      GraftNesting(FObject(NodeFields(s, |kids|)), TreesOf(kids), bound);
  }

  lemma LeafNesting(l: V.Leaf)
    ensures Nesting(TreeOf(V.Leaf(l))) <= 1
  {
    FieldsHeightBound(LeafFields(l), 0);
    GraftNesting(FObject(LeafFields(l)), [], 0);
  }

  lemma ComplexNesting(kids: seq<Value>)
    requires V.Fits(V.SComplex, kids)
    ensures forall i | 0 <= i < |kids| :: Nesting(TreesOf(kids)[i]) <= 1
    ensures V.Depths(kids, V.Decoder) == 0
  {
    hide Nesting, TreesOf, TreeOf;
    TreesOfAt(kids);
    assert |kids| == 2 && kids[1..][0] == kids[1] && kids[1..][1..] == [];
    assert V.Depths(kids[1..], V.Decoder) == 0;
    LeafNesting(kids[0].leaf);
    LeafNesting(kids[1].leaf);
  }

  lemma {:induction false} TreesNesting(vs: seq<Value>)
    requires forall i | 0 <= i < |vs| :: Canon(vs[i])
    ensures forall i | 0 <= i < |vs| :: Nesting(TreesOf(vs)[i]) <= 4 * V.Depths(vs, V.Decoder) + 2
    decreases vs, 0
  {
    if vs != [] {
      TreeNesting(vs[0]);
      TreesNesting(vs[1..]);
    }
  }

  lemma TextWellFormed(v: Value)
    ensures WellFormed(TextOf(v))
  {
    TreeSound(v);
    PrintWellFormed(TreeOf(v));
  }
}
