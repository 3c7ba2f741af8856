/** Opened nodes: the object is the shape's form, filled with the parts that were opened. */
module SpellingNodes {
  import opened Wrappers
  import opened Unicode
  import opened Json
  import opened JsonPrinter
  import opened Words
  import opened Forms
  import V = Values
  import opened Encoding
  import opened Decoding
  import opened Spelling
  import N = Numerals

  // ---- arrays ----------------------------------------------------------------------------

  lemma HolesFill(items: seq<Json>, from: nat, js: seq<Json>)
    requires from + |items| <= |js| && js[from..from + |items|] == items
    ensures Fills(JArray(items), FArray(Holes(from, |items|)), js)
  {
    var forms := Holes(from, |items|);
    forall i | 0 <= i < |items| ensures Fills(items[i], forms[i], js) {
      assert items[i] == js[from..from + |items|][i];
    }
  }

  lemma {:induction false} EntryPartsAt(items: seq<Json>, i: nat)
    requires i < |items| && forall k | 0 <= k < |items| :: IsEntry(items[k])
    ensures EntryParts(items)[2 * i] == EntryPart(items[i], WKey)
    ensures EntryParts(items)[2 * i + 1] == EntryPart(items[i], WValue)
  {
    hide IsEntry;
    if i > 0 {
      EntryPartsAt(items[1..], i - 1);
    }
  }

  lemma EntryFills(j: Json, i: nat, js: seq<Json>)
    requires IsEntry(j) && Sound(j) && 2 * i + 1 < |js|
    requires js[2 * i] == EntryPart(j, WKey) && js[2 * i + 1] == EntryPart(j, WValue)
    ensures Fills(j, EntryForm(i), js)
  {
    hide Spell, Lookup, HasFields, Has;
    var words := [WKey, WValue];
    FieldsThere(j.members, words, []);
    assert Has(j.members, words[0]) && Has(j.members, words[1]);
    ObjectFills(j.members, words, EntryForm(i).fields, js);
  }

  lemma EntriesFill(items: seq<Json>)
    requires forall i | 0 <= i < |items| :: IsEntry(items[i]) && Sound(items[i])
    ensures Fills(JArray(items), FArray(EntryForms(|items|)), EntryParts(items))
  {
    hide IsEntry, Sound, EntryForm, EntryParts;
    var forms := EntryForms(|items|);
    forall i | 0 <= i < |items| ensures Fills(items[i], forms[i], EntryParts(items)) {
      EntryPartsAt(items, i);
      EntryFills(items[i], i, EntryParts(items));
    }
  }

  lemma RecordFieldFills(j: Json, i: nat, js: seq<Json>)
    requires IsRecordField(j) && Sound(j) && i < |js| && js[i] == FieldPart(j)
    ensures Fills(j, RecordFieldForm(FieldName(j), i), js)
  {
    hide Spell, Lookup, HasFields, Has;
    var words := [WName, WValue];
    FieldsThere(j.members, words, []);
    assert Has(j.members, words[0]) && Has(j.members, words[1]);
    ObjectFills(j.members, words, RecordFieldForm(FieldName(j), i).fields, js);
  }

  lemma RecordFieldsFill(items: seq<Json>)
    requires forall i | 0 <= i < |items| :: IsRecordField(items[i]) && Sound(items[i])
    ensures Fills(JArray(items), FArray(RecordFieldForms(FieldNames(items))), FieldParts(items))
  {
    hide IsRecordField, Sound, RecordFieldForm, FieldPart, FieldName;
    var forms := RecordFieldForms(FieldNames(items));
    forall i | 0 <= i < |items| ensures Fills(items[i], forms[i], FieldParts(items)) {
      RecordFieldFills(items[i], i, FieldParts(items));
    }
  }

  /** The i-th item fills the i-th form. */
  ghost predicate FillEach(items: seq<Json>, forms: seq<Form>, js: seq<Json>) {
    |items| == |forms| && forall i | 0 <= i < |items| :: Fills(items[i], forms[i], js)
  }

  lemma FillCons(item: Json, items: seq<Json>, form: Form, forms: seq<Form>, js: seq<Json>)
    requires Fills(item, form, js) && FillEach(items, forms, js)
    ensures FillEach([item] + items, [form] + forms, js)
  {
    hide Fills;
  }

  lemma SlotAhead(first: Json, rest: seq<Json>, from: nat, js: seq<Json>)
    requires !first.JNull?
    requires var n := 1 + |SlotParts(rest)|; from + n <= |js| && js[from..from + n] == [first] + SlotParts(rest)
    ensures js[from] == first && js[from + 1..from + 1 + |SlotParts(rest)|] == SlotParts(rest)
  {
    hide SlotParts;
    var n := 1 + |SlotParts(rest)|;
    assert js[from] == js[from..from + n][0];
    assert js[from + 1..from + n] == js[from..from + n][1..];
  }

  lemma {:induction false} SlotsFill(items: seq<Json>, from: nat, js: seq<Json>)
    requires from + |SlotParts(items)| <= |js| && js[from..from + |SlotParts(items)|] == SlotParts(items)
    ensures FillEach(items, SlotForms(PresentOf(items), from), js)
  {
    hide FillEach;
    if items == [] {
      NothingFills(js);
    } else {
      var first, rest, present := items[0], items[1..], PresentOf(items);
      assert present[1..] == PresentOf(rest) && items == [first] + rest;
      hide PresentOf;
      if first.JNull? {
        SlotsFill(rest, from, js);
        FillCons(first, rest, FNull, SlotForms(present[1..], from), js);
      } else {
        SlotAhead(first, rest, from, js);
        SlotsFill(rest, from + 1, js);
        FillCons(first, rest, Hole(from), SlotForms(present[1..], from + 1), js);
      }
    }
  }

  lemma NothingFills(js: seq<Json>)
    ensures FillEach([], [], js)
  {
  }

  // ---- class-trace operations ----------------------------------------------------------------

  lemma NoneExpected(ms: seq<Member>)
    requires HasFields(ms, [WMethod, WArgs], [WExpected])
    ensures !Has(ms, WExpected) ==> HasFields(ms, [WMethod, WArgs], [])
    ensures Has(ms, WExpected) ==> HasFields(ms, [WMethod, WArgs, WExpected], [])
  {
    hide Spell;
    var required, all := [WMethod, WArgs], [WMethod, WArgs, WExpected];
    assert required + [WExpected] == all && required + [] == required && all + [] == all;
    LookupSound(ms, Spell(WExpected));
    forall i | 0 <= i < |ms| && !Has(ms, WExpected) ensures Find(ms[i].key, required).Some? {
      var w := Find(ms[i].key, all).value;
      FindSound(ms[i].key, all, w);
      FindSound(ms[i].key, required, w);
    }
  }

  lemma OperationFills(j: Json, from: nat, js: seq<Json>)
    requires IsOperation(j) && Sound(j)
    requires from + |OperationParts(j)| <= |js| && js[from..from + |OperationParts(j)|] == OperationParts(j)
    ensures Fills(j, OperationForm(OperationOf(j), from), js)
  {
    hide Spell, Lookup, HasFields, Has, Holes;
    var ms := j.members;
    var words, args := [WMethod, WArgs], Get(ms, WArgs).items;
    FieldsThere(ms, words, [WExpected]);
    assert Has(ms, words[0]) && Has(ms, words[1]);
    NoneExpected(ms);
    assert js[from..from + |args|] == OperationParts(j)[..|args|];
    HolesFill(args, from, js);
    var fields := OperationForm(OperationOf(j), from).fields;
    if Has(ms, WExpected) {
      assert js[from + |args|] == OperationParts(j)[|args|];
      ObjectFills(ms, [WMethod, WArgs, WExpected], fields, js);
    } else {
      ObjectFills(ms, words, fields, js);
    }
  }

  lemma {:induction false} OperationsFill(items: seq<Json>, from: nat, js: seq<Json>)
    requires forall i | 0 <= i < |items| :: IsOperation(items[i]) && Sound(items[i])
    requires from + |OperationsParts(items)| <= |js|
    requires js[from..from + |OperationsParts(items)|] == OperationsParts(items)
    ensures FillEach(items, OperationForms(OperationsOf(items), from), js)
  {
    hide FillEach, IsOperation, Sound, OperationForm, OperationOf, OperationParts, Fills;
    if items == [] {
      NothingFills(js);
    } else {
      var first, rest := items[0], items[1..];
      var n, all := |OperationParts(first)|, js[from..from + |OperationsParts(items)|];
      assert all[..n] == OperationParts(first) && all[n..] == OperationsParts(rest);
      assert js[from..from + n] == all[..n];
      assert js[from + n..from + n + |OperationsParts(rest)|] == all[n..];
      OperationFills(first, from, js);
      OperationsFill(rest, from + n, js);
      FillCons(first, rest, OperationForm(OperationOf(first), from), OperationForms(OperationsOf(rest), from + n), js);
      assert items == [first] + rest && OperationsOf(items)[1..] == OperationsOf(rest);
    }
  }

  // ---- one lemma per tag -----------------------------------------------------------------------

  /** An object of sound members that carries its tag and opens as a node. */
  ghost predicate Opens(tag: Word, ms: seq<Member>) {
    Tagged(ms, tag) && Sound(JObject(ms)) && OpenNode(tag, ms).Some?
  }

  ghost predicate Refilled(tag: Word, ms: seq<Member>)
    requires OpenNode(tag, ms).Some?
  {
    var Opened(s, parts) := OpenNode(tag, ms).value;
    Fills(JObject(ms), FObject(NodeFields(s, |parts|)), parts)
  }

  lemma ItemsSound(ms: seq<Member>, w: Word)
    requires Sound(JObject(ms)) && IsArray(ms, w)
    ensures forall i | 0 <= i < |Get(ms, w).items| :: Sound(Get(ms, w).items[i])
  {
    SoundGet(ms, w);
  }

  lemma SequenceSpelt(tag: Word, ms: seq<Member>)
    requires Opens(tag, ms) && (tag == WList || tag == WTuple || tag == WSet || tag == WFrozenSet)
    ensures Refilled(tag, ms)
  {
    hide Spell, Lookup, HasFields, Holes;
    var Opened(s, parts) := OpenNode(tag, ms).value;
    HolesFill(parts, 0, parts);
    ObjectFills(ms, [WTag, WItems], NodeFields(s, |parts|), parts);
  }

  lemma DictSpelt(ms: seq<Member>)
    requires Opens(WDict, ms)
    ensures Refilled(WDict, ms)
  {
    hide Spell, Lookup, HasFields, EntryForms, EntryParts, IsEntry;
    var Opened(s, parts) := OpenNode(WDict, ms).value;
    var items := Get(ms, WEntries).items;
    ItemsSound(ms, WEntries);
    EntriesFill(items);
    assert |parts| / 2 == |items|;
    ObjectFills(ms, [WTag, WEntries], NodeFields(s, |parts|), parts);
  }

  lemma ComplexSpelt(ms: seq<Member>)
    requires Opens(WComplex, ms)
    ensures Refilled(WComplex, ms)
  {
    hide Spell, Lookup, HasFields, Has;
    var words := [WTag, WReal, WImag];
    FieldsThere(ms, words, []);
    assert Has(ms, words[1]) && Has(ms, words[2]);
    var Opened(s, parts) := OpenNode(WComplex, ms).value;
    ObjectFills(ms, words, NodeFields(s, |parts|), parts);
  }

  lemma SoundKeys(ms: seq<Member>)
    requires Sound(JObject(ms))
    ensures DistinctKeys(ms)
  {
  }

  // What an opened node is made of.

  lemma EnumOpened(ms: seq<Member>)
    requires OpenNode(WEnum, ms).Some?
    ensures HasFields(ms, [WTag, WType, WMemberKey, WValue], []) && Get(ms, WType).JString? && Get(ms, WMemberKey).JString?
    ensures OpenNode(WEnum, ms).value == Opened(V.SEnum(Get(ms, WType).text, Get(ms, WMemberKey).text), [Get(ms, WValue)])
  {
    hide Spell, Lookup;
  }

  lemma ExceptionOpened(ms: seq<Member>)
    requires OpenNode(WException, ms).Some?
    ensures HasFields(ms, [WTag, WType, WMessage, WDetails], []) && Get(ms, WType).JString? && Get(ms, WMessage).JString?
    ensures var detailed := !Get(ms, WDetails).JNull?;
      OpenNode(WException, ms).value == Opened(V.SException(Get(ms, WType).text, Get(ms, WMessage).text, detailed),
                                               if detailed then [Get(ms, WDetails)] else [])
  {
    hide Spell, Lookup;
  }

  lemma ListNodeOpened(ms: seq<Member>)
    requires OpenNode(WListNode, ms).Some?
    ensures HasFields(ms, [WTag, WValues, WCycleIndex], []) && IsArray(ms, WValues)
    ensures var items := Get(ms, WValues).items;
      CycleOf(Get(ms, WCycleIndex), |items|).Some?
      && OpenNode(WListNode, ms).value == Opened(V.SListNode(CycleOf(Get(ms, WCycleIndex), |items|).value), items)
  {
    hide Spell, Lookup, CycleOf;
  }

  lemma TraceOpened(ms: seq<Member>)
    requires OpenNode(WClassTrace, ms).Some?
    ensures HasFields(ms, [WTag, WClassName, WConstructor, WOperations], []) && Get(ms, WClassName).JString?
    ensures IsArray(ms, WConstructor) && IsArray(ms, WOperations)
    ensures var arguments, items := Get(ms, WConstructor).items, Get(ms, WOperations).items;
      && (forall i | 0 <= i < |items| :: IsOperation(items[i]))
      && OpenNode(WClassTrace, ms).value
           == Opened(V.SClassTrace(Get(ms, WClassName).text, |arguments|, OperationsOf(items)), arguments + OperationsParts(items))
  {
    hide Spell, Lookup, IsOperation;
  }

  lemma EnumSpelt(ms: seq<Member>)
    requires Opens(WEnum, ms)
    ensures Refilled(WEnum, ms)
  {
    hide OpenNode, Sound, Spell, Lookup, HasFields, Has, FillsField, Fills, Tag;
    EnumOpened(ms);
    SoundKeys(ms);
    var words := [WTag, WType, WMemberKey, WValue];
    FieldsThere(ms, words, []);
    assert Has(ms, words[1]) && Has(ms, words[2]) && Has(ms, words[3]);
    var Opened(s, parts) := OpenNode(WEnum, ms).value;
    TagFills(ms, WEnum, parts);
    TextFills(ms, WType, s.name, parts);
    TextFills(ms, WMemberKey, s.member, parts);
    PartFills(ms, WValue, 0, parts);
    ObjectFills(ms, words, NodeFields(s, |parts|), parts);
  }

  lemma ExceptionSpelt(ms: seq<Member>)
    requires Opens(WException, ms)
    ensures Refilled(WException, ms)
  {
    hide OpenNode, Sound, Spell, Lookup, HasFields, Has, FillsField, Fills, Tag;
    ExceptionOpened(ms);
    SoundKeys(ms);
    var words := [WTag, WType, WMessage, WDetails];
    FieldsThere(ms, words, []);
    assert Has(ms, words[1]) && Has(ms, words[2]) && Has(ms, words[3]);
    var Opened(s, parts) := OpenNode(WException, ms).value;
    TagFills(ms, WException, parts);
    TextFills(ms, WType, s.name, parts);
    TextFills(ms, WMessage, s.message, parts);
    if s.detailed {
      PartFills(ms, WDetails, 0, parts);
    } else {
      NullFills(ms, WDetails, parts);
    }
    ObjectFills(ms, words, NodeFields(s, |parts|), parts);
  }

  lemma KindSpelt(t: Text, kind: Word)
    requires Find(t, [WDataclass, WNamedTuple]) == Some(kind)
    ensures t == Spell(if kind == WNamedTuple then WNamedTuple else WDataclass)
  {
    FindSound(t, [WDataclass, WNamedTuple], kind);
  }

  lemma RecordSpelt(ms: seq<Member>)
    requires Opens(WRecord, ms)
    ensures Refilled(WRecord, ms)
  {
    hide Spell, Lookup, HasFields, Has, RecordFieldForms, FieldNames, FieldParts, IsRecordField, Find, DistinctTexts, FillsField,
         Fills, Tag;
    var words := [WTag, WType, WName, WFields];
    FieldsThere(ms, words, []);
    assert Has(ms, words[1]) && Has(ms, words[2]) && Has(ms, words[3]);
    var Opened(s, parts) := OpenNode(WRecord, ms).value;
    var items := Get(ms, WFields).items;
    ItemsSound(ms, WFields);
    RecordFieldsFill(items);
    KindSpelt(Get(ms, WType).text, Find(Get(ms, WType).text, [WDataclass, WNamedTuple]).value);
    TagFills(ms, WRecord, parts);
    TextFills(ms, WName, s.name, parts);
    TextFills(ms, WType, Get(ms, WType).text, parts);
    FormFills(ms, WFields, FArray(RecordFieldForms(s.fields)), parts);
    ObjectFills(ms, words, NodeFields(s, |parts|), parts);
  }

  lemma CycleSpelt(j: Json, n: nat)
    requires CycleOf(j, n).Some?
    ensures var f := NullableInt(CycleOf(j, n).value); (f.FNull? || f.FNumber?) && j == Graft(f, [])
  {
    if j.JNumber? {
      N.DecimalUnique(j.raw);
    }
  }

  lemma ListNodeSpelt(ms: seq<Member>)
    requires Opens(WListNode, ms)
    ensures Refilled(WListNode, ms)
  {
    hide OpenNode, Sound, Spell, Lookup, HasFields, Has, Holes, NullableInt, CycleOf;
    ListNodeOpened(ms);
    SoundKeys(ms);
    var words := [WTag, WValues, WCycleIndex];
    FieldsThere(ms, words, []);
    assert Has(ms, words[1]) && Has(ms, words[2]);
    var Opened(s, parts) := OpenNode(WListNode, ms).value;
    HolesFill(parts, 0, parts);
    CycleSpelt(Get(ms, WCycleIndex), |parts|);
    ObjectFills(ms, words, NodeFields(s, |parts|), parts);
  }

  lemma TreeNodeSpelt(ms: seq<Member>)
    requires Opens(WTreeNode, ms)
    ensures Refilled(WTreeNode, ms)
  {
    hide Spell, Lookup, HasFields, SlotForms, SlotParts, PresentOf, V.Reachable;
    var Opened(s, parts) := OpenNode(WTreeNode, ms).value;
    var items := Get(ms, WValues).items;
    assert parts[0..0 + |SlotParts(items)|] == SlotParts(items);
    SlotsFill(items, 0, parts);
    ObjectFills(ms, [WTag, WValues], NodeFields(s, |parts|), parts);
  }

  lemma FillEachIsArray(items: seq<Json>, forms: seq<Form>, js: seq<Json>)
    requires FillEach(items, forms, js)
    ensures Fills(JArray(items), FArray(forms), js)
  {
  }

  lemma TraceArrays(arguments: seq<Json>, items: seq<Json>, parts: seq<Json>)
    requires forall i | 0 <= i < |items| :: IsOperation(items[i]) && Sound(items[i])
    requires parts == arguments + OperationsParts(items)
    ensures Fills(JArray(arguments), FArray(Holes(0, |arguments|)), parts)
    ensures Fills(JArray(items), FArray(OperationForms(OperationsOf(items), |arguments|)), parts)
  {
    hide IsOperation, Sound, Holes, OperationForms, OperationsOf, OperationsParts, Fills, FillEach;
    assert parts[0..0 + |arguments|] == arguments;
    HolesFill(arguments, 0, parts);
    assert parts[|arguments|..|arguments| + |OperationsParts(items)|] == OperationsParts(items);
    OperationsFill(items, |arguments|, parts);
    FillEachIsArray(items, OperationForms(OperationsOf(items), |arguments|), parts);
  }

  lemma FourFill(ms: seq<Member>, words: seq<Word>, a: FormField, b: FormField, c: FormField, d: FormField, js: seq<Json>)
    requires Sound(JObject(ms)) && |words| == 4 && DistinctList(words) && HasFields(ms, words, [])
    requires FillsField(ms, a, js) && FillsField(ms, b, js) && FillsField(ms, c, js) && FillsField(ms, d, js)
    ensures Fills(JObject(ms), FObject([a, b, c, d]), js)
  {
    hide FillsField, HasFields;
    ObjectFills(ms, words, [a, b, c, d], js);
  }

  lemma TraceSpelt(ms: seq<Member>)
    requires Opens(WClassTrace, ms)
    ensures Refilled(WClassTrace, ms)
  {
    hide OpenNode, Sound, Tagged, HasFields, Has, Get, Holes, OperationForms, OperationsOf, OperationsParts, IsOperation, FillsField,
         Fills, Tag;
    TraceOpened(ms);
    var words := [WTag, WClassName, WConstructor, WOperations];
    FieldsThere(ms, words, []);
    assert Has(ms, words[1]) && Has(ms, words[2]) && Has(ms, words[3]);
    var Opened(s, parts) := OpenNode(WClassTrace, ms).value;
    var arguments, items := Get(ms, WConstructor).items, Get(ms, WOperations).items;
    ItemsSound(ms, WOperations);
    TraceArrays(arguments, items, parts);
    TagFills(ms, WClassTrace, parts);
    TextFills(ms, WClassName, s.name, parts);
    FormFills(ms, WConstructor, FArray(Holes(0, s.arguments)), parts);
    FormFills(ms, WOperations, FArray(OperationForms(s.operations, s.arguments)), parts);
    FourFill(ms, words, FormField(WClassName, FString(s.name)), FormField(WConstructor, FArray(Holes(0, s.arguments))),
             FormField(WOperations, FArray(OperationForms(s.operations, s.arguments))), Tag(WClassTrace), parts);
  }

  lemma NodeTagCases(tag: Word)
    requires tag in NODE_TAGS
    ensures tag == WDict || tag == WComplex || tag == WEnum || tag == WException || tag == WRecord || tag == WListNode
            || tag == WTreeNode || tag == WClassTrace || tag == WList || tag == WTuple || tag == WSet || tag == WFrozenSet
  {
  }

  lemma NodeSpelt(tag: Word, ms: seq<Member>)
    requires Opens(tag, ms)
    ensures Refilled(tag, ms)
  {
    hide OpenNode, Refilled, NODE_TAGS, Sound, Tagged;
    NodeTags(tag, ms);
    NodeTagCases(tag);
    match tag
    case WDict => DictSpelt(ms);
    case WComplex => ComplexSpelt(ms);
    case WEnum => EnumSpelt(ms);
    case WException => ExceptionSpelt(ms);
    case WRecord => RecordSpelt(ms);
    case WListNode => ListNodeSpelt(ms);
    case WTreeNode => TreeNodeSpelt(ms);
    case WClassTrace => TraceSpelt(ms);
    case _ => SequenceSpelt(tag, ms);
  }

  lemma NodeTags(tag: Word, ms: seq<Member>)
    requires OpenNode(tag, ms).Some?
    ensures tag in NODE_TAGS
  {
    hide OpenRecord, OpenTree, OpenTrace, HasFields, Spell;
  }
}
