/** Opening the object written for a node gives back its shape and its sub-nodes. */
module DecodingShapes {
  import opened Wrappers
  import opened Unicode
  import opened Json
  import opened Words
  import opened Forms
  import V = Values
  import opened Encoding
  import opened Decoding
  import opened DecodingLeaves
  import opened DecodingNodes
  import N = Numerals
  import T = Trees

  function NodeTag(s: V.Shape): Word {
    match s
    case SList(tuple) => if tuple then WTuple else WList
    case SSet(frozen) => if frozen then WFrozenSet else WSet
    case SDict => WDict
    case SComplex => WComplex
    case SEnum(_, _) => WEnum
    case SRecord(_, _, _) => WRecord
    case SException(_, _, _) => WException
    case SListNode(_) => WListNode
    case STreeNode(_) => WTreeNode
    case SClassTrace(_, _, _) => WClassTrace
  }

  function NodeWordsOf(s: V.Shape): seq<Word> {
    match s
    case SList(_) => [WTag, WItems]
    case SSet(_) => [WTag, WItems]
    case SDict => [WTag, WEntries]
    case SComplex => [WTag, WReal, WImag]
    case SEnum(_, _) => [WTag, WType, WMemberKey, WValue]
    case SRecord(_, _, _) => [WTag, WType, WName, WFields]
    case SException(_, _, _) => [WTag, WType, WMessage, WDetails]
    case SListNode(_) => [WTag, WValues, WCycleIndex]
    case STreeNode(_) => [WTag, WValues]
    case SClassTrace(_, _, _) => [WTag, WClassName, WConstructor, WOperations]
  }

  lemma NodeWordsAllowed(s: V.Shape, n: nat)
    ensures forall i | 0 <= i < |NodeFields(s, n)| :: NodeFields(s, n)[i].word in NodeWordsOf(s)
    ensures Tag(NodeTag(s)) in NodeFields(s, n)
  {
    hide Spell, Holes, EntryForms, RecordFieldForms, SlotForms, OperationForms, NullableInt;
  }

  lemma HasFour(fields: seq<FormField>)
    requires 2 <= |fields| <= 4
    ensures HasWord(fields, fields[0].word) && HasWord(fields, fields[1].word)
    ensures |fields| > 2 ==> HasWord(fields, fields[2].word)
    ensures |fields| > 3 ==> HasWord(fields, fields[3].word)
  {
  }

  lemma NodeWordsPresent(s: V.Shape, n: nat)
    ensures forall w | w in NodeWordsOf(s) :: HasWord(NodeFields(s, n), w)
  {
    hide Spell, Holes, EntryForms, RecordFieldForms, SlotForms, OperationForms, NullableInt, HasWord;
    HasFour(NodeFields(s, n));
  }

  lemma NodeCovers(s: V.Shape, n: nat)
    ensures FieldsCover(NodeFields(s, n), NodeWordsOf(s), [])
    ensures Tag(NodeTag(s)) in NodeFields(s, n)
  {
    hide NodeFields, NodeWordsOf, HasWord, DistinctWords;
    T.NodeWords(s, n);
    NodeWordsAllowed(s, n);
    NodeWordsPresent(s, n);
    assert NodeWordsOf(s) + [] == NodeWordsOf(s);
  }

  lemma NodeHeld(s: V.Shape, js: seq<Json>)
    ensures var j := Graft(FObject(NodeFields(s, |js|)), js);
      && j.JObject? && TagOf(j) == Some(NodeTag(s))
      && HasFields(j.members, NodeWordsOf(s), []) && HoldsAll(j.members, NodeFields(s, |js|), js)
  {
    hide FieldsCover, NodeFields, HasFields, Has, Get, NodeWordsOf, HoldsAll, Held, TagOf, Graft, NodeTag, Tag;
    NodeCovers(s, |js|);
    var fields := NodeFields(s, |js|);
    ObjectHolds(fields, js, NodeWordsOf(s), []);
    var ms := Graft(FObject(fields), js).members;
    HeldIn(ms, fields, js, Tag(NodeTag(s)));
    TagHeld(ms, NodeTag(s), js);
    TagIsNode(s);
    TagFound(ms, NodeTag(s));
  }

  lemma TagHeld(ms: seq<Member>, tag: Word, js: seq<Json>)
    requires Held(ms, Tag(tag), js)
    ensures Has(ms, WTag) && Get(ms, WTag) == JString(Spell(tag))
  {
    TextHeld(ms, WTag, Spell(tag), js);
  }

  lemma TagIsNode(s: V.Shape)
    ensures NodeTag(s) in LEAF_TAGS + NODE_TAGS && NodeTag(s) !in LEAF_TAGS
  {
  }

  // ---- shape by shape -----------------------------------------------------------------------

  lemma ArrayHeld(ms: seq<Member>, w: Word, n: nat, js: seq<Json>)
    requires Held(ms, FormField(w, FArray(Holes(0, n))), js) && n <= |js|
    ensures IsArray(ms, w) && Get(ms, w).items == js[..n]
  {
    hide Spell;
    HolesGraft(0, n, js);
  }

  predicate Ready(s: V.Shape, ms: seq<Member>, js: seq<Json>) {
    && V.Arity(s, |js|) && Legal(s, |js|) && Trim(s) == s && Objects(js)
    && HasFields(ms, NodeWordsOf(s), []) && HoldsAll(ms, NodeFields(s, |js|), js)
  }

  lemma FieldHeld(s: V.Shape, ms: seq<Member>, js: seq<Json>, i: nat)
    requires Ready(s, ms, js) && i < |NodeFields(s, |js|)|
    ensures Held(ms, NodeFields(s, |js|)[i], js)
  {
    hide HasFields, Legal;
  }

  lemma FormsHeld(ms: seq<Member>, w: Word, items: seq<Form>, js: seq<Json>)
    requires Held(ms, FormField(w, FArray(items)), js)
    ensures IsArray(ms, w) && Get(ms, w).items == GraftItems(items, js)
  {
    hide Spell;
  }

  lemma DictReady(ms: seq<Member>, js: seq<Json>)
    requires Ready(V.SDict, ms, js)
    ensures |js| % 2 == 0 && HasFields(ms, [WTag, WEntries], [])
    ensures Held(ms, FormField(WEntries, FArray(EntryForms(|js| / 2))), js)
  {
    hide HasFields, Lookup, Held, EntryForms;
    FieldHeld(V.SDict, ms, js, 0);
  }

  lemma DictOpens(ms: seq<Member>, js: seq<Json>)
    requires Ready(V.SDict, ms, js)
    ensures OpenNode(WDict, ms) == Some(Opened(V.SDict, js))
  {
    hide Ready, HasFields, Lookup, Get, Graft, Spell, IsEntry, EntryParts, EntryForms, Held, GraftItems, NodeFields;
    DictReady(ms, js);
    FormsHeld(ms, WEntries, EntryForms(|js| / 2), js);
    EntriesRead(|js| / 2, js);
  }

  lemma RecordFromFields(s: V.Shape, ms: seq<Member>, items: seq<Json>, js: seq<Json>)
    requires s.SRecord? && HasFields(ms, NodeWordsOf(s), []) && WellFormed(s.name) && DistinctTexts(s.fields)
    requires IsArray(ms, WFields) && Get(ms, WFields).items == items
    requires Has(ms, WName) && Get(ms, WName) == JString(s.name)
    requires Has(ms, WType) && Get(ms, WType) == JString(Spell(if s.namedTuple then WNamedTuple else WDataclass))
    requires (forall i | 0 <= i < |items| :: IsRecordField(items[i]))
    requires FieldNames(items) == s.fields && FieldParts(items) == js
    ensures OpenRecord(ms) == if Named(s) then Some(Opened(s, js)) else None
  {
    hide HasFields, Lookup, Spell, IsRecordField, Find, FieldNames, FieldParts, DistinctTexts, Has;
    var kind := if s.namedTuple then WNamedTuple else WDataclass;
    FindSound(Spell(kind), [WDataclass, WNamedTuple], kind);
  }

  lemma RecordReady(s: V.Shape, ms: seq<Member>, js: seq<Json>)
    requires Ready(s, ms, js) && s.SRecord?
    ensures HasFields(ms, NodeWordsOf(s), []) && |js| == |s.fields|
    ensures WellFormed(s.name) && AllWellFormed(s.fields) && DistinctTexts(s.fields)
    ensures Held(ms, FormField(WFields, FArray(RecordFieldForms(s.fields))), js)
    ensures Held(ms, FormField(WName, FString(s.name)), js)
    ensures Held(ms, FormField(WType, FString(Spell(if s.namedTuple then WNamedTuple else WDataclass))), js)
  {
    hide HasFields, Lookup, Held, RecordFieldForms, Spell;
    FieldHeld(s, ms, js, 0);
    FieldHeld(s, ms, js, 1);
    FieldHeld(s, ms, js, 3);
  }

  lemma RecordOpens(s: V.Shape, ms: seq<Member>, js: seq<Json>)
    requires Ready(s, ms, js) && s.SRecord?
    ensures OpenNode(WRecord, ms) == if Named(s) then Some(Opened(s, js)) else None
  {
    hide Ready, HasFields, Lookup, Get, Graft, Spell, IsRecordField, FieldNames, FieldParts, RecordFieldForms, DistinctTexts, Held, OpenRecord,
         AllWellFormed, NodeFields, GraftItems, IsArray, Has, Named, NodeWordsOf;
    RecordReady(s, ms, js);
    FormsHeld(ms, WFields, RecordFieldForms(s.fields), js);
    TextHeld(ms, WName, s.name, js);
    TextHeld(ms, WType, Spell(if s.namedTuple then WNamedTuple else WDataclass), js);
    RecordFieldsRead(s.fields, js);
    RecordFromFields(s, ms, GraftItems(RecordFieldForms(s.fields), js), js);
  }

  lemma CycleReads(cycle: Option<int>, n: nat, js: seq<Json>)
    requires cycle.Some? ==> 0 <= cycle.value < n
    ensures CycleOf(Graft(NullableInt(cycle), js), n) == Some(cycle)
  {
    if cycle.Some? {
      N.DecimalReads(cycle.value);
    }
  }

  lemma ListNodeOpens(s: V.Shape, ms: seq<Member>, js: seq<Json>)
    requires Ready(s, ms, js) && s.SListNode?
    ensures OpenNode(WListNode, ms) == Some(Opened(s, js))
  {
    FieldHeld(s, ms, js, 0);
    FieldHeld(s, ms, js, 2);
    CycleReads(s.cycle, |js|, js);
    hide HoldsAll, HasFields, Lookup, Spell, Holes, NullableInt, CycleOf;
    ArrayHeld(ms, WValues, |js|, js);
    assert js[..|js|] == js;
  }

  lemma TreeFromFields(s: V.Shape, ms: seq<Member>, items: seq<Json>, js: seq<Json>)
    requires s.STreeNode? && HasFields(ms, NodeWordsOf(s), []) && V.Reachable(s.present) && V.Strip(s.present) == s.present
    requires IsArray(ms, WValues) && Get(ms, WValues).items == items
    requires PresentOf(items) == s.present && SlotParts(items) == js
    ensures OpenTree(ms) == Some(Opened(s, js))
  {
    hide HasFields, Lookup, Spell, V.Reachable, V.Strip, SlotParts;
    V.StripKeeps(s.present);
    assert items != [] ==> PresentOf(items)[|items| - 1];
  }

  lemma TreeReady(s: V.Shape, ms: seq<Member>, js: seq<Json>)
    requires Ready(s, ms, js) && s.STreeNode?
    ensures HasFields(ms, NodeWordsOf(s), []) && |js| == V.Present(s.present) && Objects(js)
    ensures V.Reachable(s.present) && V.Strip(s.present) == s.present
    ensures Held(ms, FormField(WValues, FArray(SlotForms(s.present, 0))), js)
  {
    hide HasFields, Lookup, Held, SlotForms, Spell, V.Strip, V.Reachable;
    FieldHeld(s, ms, js, 1);
  }

  lemma TreeOpens(s: V.Shape, ms: seq<Member>, js: seq<Json>)
    requires Ready(s, ms, js) && s.STreeNode?
    ensures OpenNode(WTreeNode, ms) == Some(Opened(s, js))
  {
    hide Ready, HasFields, Lookup, Get, Graft, Spell, SlotForms, Held, OpenTree, V.Reachable, V.Strip, PresentOf, SlotParts, NodeFields,
         GraftItems, IsArray, Has, NodeWordsOf, V.Present;
    TreeReady(s, ms, js);
    FormsHeld(ms, WValues, SlotForms(s.present, 0), js);
    SlotsRead(s.present, 0, js);
    var items := GraftItems(SlotForms(s.present, 0), js);
    assert js[0..|js|] == js;
    TreeFromFields(s, ms, items, js);
  }

  lemma TraceFromFields(s: V.Shape, ms: seq<Member>, arguments: seq<Json>, items: seq<Json>, rest: seq<Json>)
    requires s.SClassTrace? && HasFields(ms, NodeWordsOf(s), []) && WellFormed(s.name)
    requires Has(ms, WClassName) && Get(ms, WClassName) == JString(s.name)
    requires IsArray(ms, WConstructor) && Get(ms, WConstructor).items == arguments && |arguments| == s.arguments
    requires IsArray(ms, WOperations) && Get(ms, WOperations).items == items
    requires AllOperations(items) <==> AllNamed(s.operations)
    requires AllOperations(items) ==> OperationsOf(items) == s.operations && OperationsParts(items) == rest
    ensures OpenTrace(ms) == if Named(s) then Some(Opened(s, arguments + rest)) else None
  {
    hide HasFields, Lookup, Spell, IsOperation, OperationsOf, OperationsParts, Has;
  }

  lemma TraceReady(s: V.Shape, ms: seq<Member>, js: seq<Json>)
    requires Ready(s, ms, js) && s.SClassTrace?
    ensures HasFields(ms, NodeWordsOf(s), []) && |js| == s.arguments + V.OperationsArity(s.operations)
    ensures WellFormed(s.name) && forall i | 0 <= i < |s.operations| :: WellFormed(s.operations[i].name)
    ensures Held(ms, FormField(WClassName, FString(s.name)), js)
    ensures Held(ms, FormField(WConstructor, FArray(Holes(0, s.arguments))), js)
    ensures Held(ms, FormField(WOperations, FArray(OperationForms(s.operations, s.arguments))), js)
  {
    hide HasFields, Lookup, Held, Holes, OperationForms, Spell;
    FieldHeld(s, ms, js, 0);
    FieldHeld(s, ms, js, 1);
    FieldHeld(s, ms, js, 2);
  }

  lemma TraceOpens(s: V.Shape, ms: seq<Member>, js: seq<Json>)
    requires Ready(s, ms, js) && s.SClassTrace?
    ensures OpenNode(WClassTrace, ms) == if Named(s) then Some(Opened(s, js)) else None
  {
    hide Ready, HasFields, Lookup, Get, Graft, Spell, Holes, OperationForms, OperationsOf, OperationsParts, IsOperation, AllOperations, AllNamed, Held, OpenTrace, Named,
         NodeFields, GraftItems, IsArray, Has, NodeWordsOf;
    TraceReady(s, ms, js);
    TextHeld(ms, WClassName, s.name, js);
    ArrayHeld(ms, WConstructor, s.arguments, js);
    FormsHeld(ms, WOperations, OperationForms(s.operations, s.arguments), js);
    OperationsRead(s.operations, s.arguments, js);
    var rest := js[s.arguments..|js|];
    TraceFromFields(s, ms, js[..s.arguments], GraftItems(OperationForms(s.operations, s.arguments), js), rest);
    assert js[..s.arguments] + rest == js;
  }

  lemma ExceptionReady(s: V.Shape, ms: seq<Member>, js: seq<Json>)
    requires Ready(s, ms, js) && s.SException?
    ensures HasFields(ms, NodeWordsOf(s), []) && Objects(js) && js == if s.detailed then [js[0]] else []
    ensures WellFormed(s.name) && WellFormed(s.message)
    ensures Held(ms, FormField(WDetails, if s.detailed then Hole(0) else FNull), js)
    ensures Held(ms, FormField(WMessage, FString(s.message)), js) && Held(ms, FormField(WType, FString(s.name)), js)
  {
    hide HasFields, Held, Spell;
    FieldHeld(s, ms, js, 0);
    FieldHeld(s, ms, js, 1);
    FieldHeld(s, ms, js, 3);
  }

  lemma NullHeld(ms: seq<Member>, w: Word, js: seq<Json>)
    requires Held(ms, FormField(w, FNull), js)
    ensures Has(ms, w) && Get(ms, w) == JNull
  {
    hide Lookup, Spell;
  }

  lemma ExceptionOpens(s: V.Shape, ms: seq<Member>, js: seq<Json>)
    requires Ready(s, ms, js) && s.SException?
    ensures OpenNode(WException, ms) == if Named(s) then Some(Opened(s, js)) else None
  {
    hide Ready, HasFields, Get, Has, Held, NodeFields;
    ExceptionReady(s, ms, js);
    TextHeld(ms, WMessage, s.message, js);
    TextHeld(ms, WType, s.name, js);
    if s.detailed {
      HoleHeld(ms, WDetails, 0, js);
    } else {
      NullHeld(ms, WDetails, js);
    }
  }

  lemma EnumReady(s: V.Shape, ms: seq<Member>, js: seq<Json>)
    requires Ready(s, ms, js) && s.SEnum?
    ensures HasFields(ms, NodeWordsOf(s), []) && |js| == 1 && js == [js[0]]
    ensures WellFormed(s.name) && WellFormed(s.member)
    ensures Held(ms, FormField(WMemberKey, FString(s.member)), js) && Held(ms, FormField(WType, FString(s.name)), js)
    ensures Held(ms, FormField(WValue, Hole(0)), js)
  {
    hide HasFields, Held, Spell;
    FieldHeld(s, ms, js, 0);
    FieldHeld(s, ms, js, 2);
    FieldHeld(s, ms, js, 3);
  }

  lemma EnumOpens(s: V.Shape, ms: seq<Member>, js: seq<Json>)
    requires Ready(s, ms, js) && s.SEnum?
    ensures OpenNode(WEnum, ms) == if Named(s) then Some(Opened(s, js)) else None
  {
    hide Ready, HasFields, Get, Has, Held, NodeFields;
    EnumReady(s, ms, js);
    TextHeld(ms, WMemberKey, s.member, js);
    TextHeld(ms, WType, s.name, js);
    HoleHeld(ms, WValue, 0, js);
  }

  lemma ComplexOpens(ms: seq<Member>, js: seq<Json>)
    requires Ready(V.SComplex, ms, js)
    ensures OpenNode(WComplex, ms) == Some(Opened(V.SComplex, js))
  {
    FieldHeld(V.SComplex, ms, js, 0);
    FieldHeld(V.SComplex, ms, js, 1);
    hide HoldsAll, HasFields, Lookup, Spell;
    assert js == [js[0], js[1]];
  }

  lemma ItemsOpen(s: V.Shape, ms: seq<Member>, js: seq<Json>)
    requires Ready(s, ms, js) && (s.SList? || s.SSet?)
    ensures OpenNode(NodeTag(s), ms) == Some(Opened(s, js))
  {
    FieldHeld(s, ms, js, 0);
    hide HoldsAll, HasFields, Lookup, Spell, Holes;
    ArrayHeld(ms, WItems, |js|, js);
    assert js[..|js|] == js;
  }

  /** Only an empty identity string keeps a written node from being opened. */
  lemma NodeOpens(s: V.Shape, ms: seq<Member>, js: seq<Json>)
    requires Ready(s, ms, js)
    ensures OpenNode(NodeTag(s), ms) == if Named(s) then Some(Opened(s, js)) else None
  {
    hide Ready, OpenNode;
    match s
    case SList(_) => ItemsOpen(s, ms, js);
    case SSet(_) => ItemsOpen(s, ms, js);
    case SDict => DictOpens(ms, js);
    case SComplex => ComplexOpens(ms, js);
    case SEnum(_, _) => EnumOpens(s, ms, js);
    case SRecord(_, _, _) => RecordOpens(s, ms, js);
    case SException(_, _, _) => ExceptionOpens(s, ms, js);
    case SListNode(_) => ListNodeOpens(s, ms, js);
    case STreeNode(_) => TreeOpens(s, ms, js);
    case SClassTrace(_, _, _) => TraceOpens(s, ms, js);
  }

  // ---- whatever is opened is legal -----------------------------------------------------------

  predicate Proper(s: V.Shape, n: nat) {
    (s.SComplex? || V.Arity(s, n)) && Legal(s, n) && Trim(s) == s && Named(s)
  }

  lemma {:induction false} SlotCount(items: seq<Json>)
    ensures |SlotParts(items)| == V.Present(PresentOf(items))
  {
    if items != [] {
      SlotCount(items[1..]);
      assert PresentOf(items)[1..] == PresentOf(items[1..]);
    }
  }

  lemma TreeOpenedProper(ms: seq<Member>)
    requires OpenTree(ms).Some?
    ensures Proper(OpenTree(ms).value.shape, |OpenTree(ms).value.parts|)
  {
    hide HasFields, Lookup, Spell;
    var items := Get(ms, WValues).items;
    SlotCount(items);
    var present := PresentOf(items);
    if items != [] {
      assert present[|present| - 1];
    }
    assert V.Strip(present) == present;
  }

  lemma RecordOpenedProper(ms: seq<Member>)
    requires OpenRecord(ms).Some?
    ensures Proper(OpenRecord(ms).value.shape, |OpenRecord(ms).value.parts|)
  {
    hide HasFields, Lookup, Spell, Find, DistinctTexts;
    var items := Get(ms, WFields).items;
    var names := FieldNames(items);
    forall i | 0 <= i < |names| ensures WellFormed(names[i]) {
      assert IsRecordField(items[i]);
    }
  }

  lemma TraceOpenedProper(ms: seq<Member>)
    requires OpenTrace(ms).Some?
    ensures Proper(OpenTrace(ms).value.shape, |OpenTrace(ms).value.parts|)
  {
    hide HasFields, Lookup, Spell, IsOperation;
  }

  lemma OpenedProper(tag: Word, ms: seq<Member>)
    requires OpenNode(tag, ms).Some?
    ensures Proper(OpenNode(tag, ms).value.shape, |OpenNode(tag, ms).value.parts|)
    ensures OpenNode(tag, ms).value.shape.SComplex? ==> |OpenNode(tag, ms).value.parts| == 2
  {
    hide HasFields, Lookup, Spell, OpenTree, OpenRecord, OpenTrace, N.BigIntOf, N.IsCanonicalInt, EntryParts, IsEntry;
    match tag
    case WRecord => RecordOpenedProper(ms); RecordShape(ms);
    case WTreeNode => TreeOpenedProper(ms); TreeShape(ms);
    case WClassTrace => TraceOpenedProper(ms); TraceShape(ms);
    case _ =>
  }

  lemma RecordShape(ms: seq<Member>)
    requires OpenRecord(ms).Some?
    ensures OpenRecord(ms).value.shape.SRecord?
  {
    hide HasFields, Lookup, Spell, Find, DistinctTexts;
  }

  lemma TreeShape(ms: seq<Member>)
    requires OpenTree(ms).Some?
    ensures OpenTree(ms).value.shape.STreeNode?
  {
    hide HasFields, Lookup, Spell;
  }

  lemma TraceShape(ms: seq<Member>)
    requires OpenTrace(ms).Some?
    ensures OpenTrace(ms).value.shape.SClassTrace?
  {
    hide HasFields, Lookup, Spell, IsOperation;
  }
}
