/** The validating builder (src/judging/codec/decode.ts), its budget set aside. */
module Decoding {
  import opened Wrappers
  import opened Unicode
  import opened Json
  import opened Sorting
  import opened Words
  import opened Forms
  import V = Values
  import opened Encoding
  import N = Numerals
  import G = LeafGrammar
  import Base64

  type Value = V.Value

  // ---- member access -------------------------------------------------------------------

  /** Every member is allowed or optional, and every allowed one is there. */
  predicate HasFields(ms: seq<Member>, allowed: seq<Word>, optional: seq<Word>) {
    && (forall i | 0 <= i < |ms| :: Find(ms[i].key, allowed + optional).Some?)
    && (forall w | w in allowed :: Has(ms, w))
  }

  predicate Has(ms: seq<Member>, w: Word) {
    Lookup(ms, Spell(w)).Some?
  }

  function Get(ms: seq<Member>, w: Word): (r: Json)
    requires Has(ms, w)
    ensures r < JObject(ms)
  {
    LookupSmaller(ms, Spell(w));
    Lookup(ms, Spell(w)).value
  }

  lemma LookupSmaller(ms: seq<Member>, key: Text)
    requires Lookup(ms, key).Some?
    ensures Lookup(ms, key).value < JObject(ms)
  {
    LookupSound(ms, key);
    var i :| 0 <= i < |ms| && ms[i] == Member(key, Lookup(ms, key).value);
    assert ms[i] < JObject(ms) && ms[i].value < ms[i];
  }

  /** A string without lone surrogates, and one that is not empty. */
  predicate IsStr(j: Json) {
    j.JString? && WellFormed(j.text)
  }

  predicate IsName(j: Json) {
    IsStr(j) && j.text != []
  }

  // ---- leaves ---------------------------------------------------------------------------

  /** Each integer has one accepted form. */
  function IntOf(j: Json): Option<int> {
    match j
    case JNumber(raw) =>
      if N.IsCanonicalInt(raw) && SafeInt(N.BigIntOf(raw)) then Some(N.BigIntOf(raw)) else None
    case JString(t) =>
      if N.IsCanonicalInt(t) && !SafeInt(N.BigIntOf(t)) then Some(N.BigIntOf(t)) else None
    case _ => None
  }

  const LEAF_TAGS := [WNull, WBool, WInt, WFloat, WStr, WBytes, WPath, WDecimal, WDate, WUuid, WTime, WDatetime]

  const NODE_TAGS :=
    [WComplex, WList, WTuple, WSet, WFrozenSet, WDict, WEnum, WRecord, WException, WListNode, WTreeNode, WClassTrace]

  function FoldOf(j: Json): Option<bool> {
    if j == JNumber(U("0")) then Some(false) else if j == JNumber(U("1")) then Some(true) else None
  }

  /** An in-range offset, or null; `datetime` then rejects null. */
  function OffsetOf(j: Json): Option<Option<int>> {
    match j
    case JNull => Some(None)
    case JNumber(raw) =>
      if N.IsCanonicalInt(raw) && G.IsOffset(N.BigIntOf(raw)) then Some(Some(N.BigIntOf(raw))) else None
    case _ => None
  }

  /** The members shared by `time` and `datetime`: text, offset and fold. */
  function MomentOf(ms: seq<Member>): Option<(Text, Option<int>, bool)> {
    if !HasFields(ms, [WTag, WValue, WOffsetMinutes, WFold], []) || !Get(ms, WValue).JString? then None
    else
      match (OffsetOf(Get(ms, WOffsetMinutes)), FoldOf(Get(ms, WFold)))
      case (Some(offset), Some(fold)) => Some((Get(ms, WValue).text, offset, fold))
      case _ => None
  }

  /** A tag and a text, nothing else. */
  function TextOnly(ms: seq<Member>): Option<Text> {
    if HasFields(ms, [WTag, WValue], []) && Get(ms, WValue).JString? then Some(Get(ms, WValue).text) else None
  }

  function BuildLeaf(tag: Word, ms: seq<Member>): Option<V.Leaf> {
    match tag
    case WNull => if HasFields(ms, [WTag], []) then Some(V.LNull) else None
    case WBool =>
      if HasFields(ms, [WTag, WValue], []) && Get(ms, WValue).JBool? then Some(V.LBool(Get(ms, WValue).bit)) else None
    case WInt =>
      if !HasFields(ms, [WTag, WValue], []) then None
      else
        (match IntOf(Get(ms, WValue))
         case None => None
         case Some(n) => Some(V.LInt(n)))
    case WFloat =>
      if HasFields(ms, [WTag, WValue, WNegativeZero], []) && Get(ms, WValue).JString? && Get(ms, WNegativeZero).JBool?
         && N.IsCanonicalFloat(Get(ms, WValue).text, Get(ms, WNegativeZero).bit)
      then Some(V.LFloat(Get(ms, WValue).text, Get(ms, WNegativeZero).bit)) else None
    case WStr =>
      if HasFields(ms, [WTag, WValue], []) && IsStr(Get(ms, WValue)) then Some(V.LStr(Get(ms, WValue).text)) else None
    case WBytes =>
      if HasFields(ms, [WTag, WEncoding, WValue], []) && Get(ms, WEncoding) == JString(Spell(WBase64Url))
         && Get(ms, WValue).JString? && Base64.Decode(Get(ms, WValue).text).Some?
      then Some(V.LBytes(Get(ms, WValue).text)) else None
    case WPath =>
      if !HasFields(ms, [WTag, WValue, WFlavor], []) || !Get(ms, WFlavor).JString? || !Get(ms, WValue).JString? then None
      else
        (match Find(Get(ms, WFlavor).text, [WPosix, WWindows])
         case None => None
         case Some(flavor) =>
           if IsRelativePath(Get(ms, WValue).text, flavor == WWindows)
           then Some(V.LPath(Get(ms, WValue).text, flavor == WWindows)) else None)
    case WDecimal =>
      (match TextOnly(ms)
       case None => None
       case Some(t) => if G.IsDecimalLiteral(t) then Some(V.LDecimal(t)) else None)
    case WDate =>
      (match TextOnly(ms)
       case None => None
       case Some(t) => if G.IsDate(t) then Some(V.LDate(t)) else None)
    case WUuid =>
      (match TextOnly(ms)
       case None => None
       case Some(t) => if G.IsUuid(t) then Some(V.LUuid(t)) else None)
    case WTime =>
      (match MomentOf(ms)
       case None => None
       case Some((t, offset, fold)) => if G.IsTimeOfDay(t) then Some(V.LTime(t, offset, fold)) else None)
    case WDatetime =>
      (match MomentOf(ms)
       case None => None
       case Some((t, offset, fold)) =>
         if G.IsDatetime(t) && offset.Some? then Some(V.LDatetime(t, offset.value, fold)) else None)
    case _ => None
  }

  // ---- nodes ----------------------------------------------------------------------------

  /** A node whose own fields are in order, and the sub-nodes still to be built. */
  datatype Opened = Opened(shape: V.Shape, parts: seq<Json>)

  predicate IsArray(ms: seq<Member>, w: Word) {
    Has(ms, w) && Get(ms, w).JArray?
  }

  predicate IsEntry(j: Json) {
    j.JObject? && HasFields(j.members, [WKey, WValue], [])
  }

  function EntryPart(j: Json, w: Word): (r: Json)
    requires IsEntry(j) && (w == WKey || w == WValue)
    ensures r < j
  {
    Get(j.members, w)
  }

  function EntryParts(items: seq<Json>): (r: seq<Json>)
    requires forall i | 0 <= i < |items| :: IsEntry(items[i])
    ensures |r| == 2 * |items|
  {
    if items == [] then []
    else [EntryPart(items[0], WKey), EntryPart(items[0], WValue)] + EntryParts(items[1..])
  }

  predicate IsRecordField(j: Json) {
    j.JObject? && HasFields(j.members, [WName, WValue], []) && IsStr(Get(j.members, WName))
  }

  function FieldName(j: Json): Text
    requires IsRecordField(j)
  {
    Get(j.members, WName).text
  }

  function FieldPart(j: Json): (r: Json)
    requires IsRecordField(j)
    ensures r < j
  {
    Get(j.members, WValue)
  }

  function FieldNames(items: seq<Json>): (r: seq<Text>)
    requires forall i | 0 <= i < |items| :: IsRecordField(items[i])
    ensures |r| == |items| && forall i | 0 <= i < |r| :: r[i] == FieldName(items[i])
  {
    seq(|items|, i requires 0 <= i < |items| => FieldName(items[i]))
  }

  function FieldParts(items: seq<Json>): (r: seq<Json>)
    requires forall i | 0 <= i < |items| :: IsRecordField(items[i])
    ensures |r| == |items| && forall i | 0 <= i < |r| :: r[i] == FieldPart(items[i])
  {
    seq(|items|, i requires 0 <= i < |items| => FieldPart(items[i]))
  }

  function CycleOf(j: Json, n: nat): Option<Option<int>> {
    match j
    case JNull => Some(None)
    case JNumber(raw) =>
      if N.IsCanonicalInt(raw) && 0 <= N.BigIntOf(raw) < n then Some(Some(N.BigIntOf(raw))) else None
    case _ => None
  }

  function PresentOf(items: seq<Json>): (r: seq<bool>)
    ensures |r| == |items| && forall i | 0 <= i < |r| :: r[i] == !items[i].JNull?
  {
    seq(|items|, i requires 0 <= i < |items| => !items[i].JNull?)
  }

  /** The slots that hold a node. */
  function SlotParts(items: seq<Json>): (r: seq<Json>)
    ensures forall i | 0 <= i < |r| :: r[i] in items && !r[i].JNull?
  {
    if items == [] then [] else (if items[0].JNull? then [] else [items[0]]) + SlotParts(items[1..])
  }

  predicate IsOperation(j: Json) {
    j.JObject? && HasFields(j.members, [WMethod, WArgs], [WExpected])
    && IsName(Get(j.members, WMethod)) && IsArray(j.members, WArgs)
  }

  function OperationOf(j: Json): V.Operation
    requires IsOperation(j)
  {
    V.Operation(Get(j.members, WMethod).text, |Get(j.members, WArgs).items|, Has(j.members, WExpected))
  }

  function OperationParts(j: Json): (r: seq<Json>)
    requires IsOperation(j)
    ensures |r| == V.OperationArity(OperationOf(j))
  {
    Get(j.members, WArgs).items + if Has(j.members, WExpected) then [Get(j.members, WExpected)] else []
  }

  function OperationsOf(items: seq<Json>): (r: seq<V.Operation>)
    requires forall i | 0 <= i < |items| :: IsOperation(items[i])
    ensures |r| == |items| && forall i | 0 <= i < |r| :: WellFormed(r[i].name) && r[i].name != []
  {
    if items == [] then [] else [OperationOf(items[0])] + OperationsOf(items[1..])
  }

  function OperationsParts(items: seq<Json>): (r: seq<Json>)
    requires forall i | 0 <= i < |items| :: IsOperation(items[i])
    ensures |r| == V.OperationsArity(OperationsOf(items))
  {
    if items == [] then [] else OperationParts(items[0]) + OperationsParts(items[1..])
  }

  function OpenRecord(ms: seq<Member>): Option<Opened> {
    if !HasFields(ms, [WTag, WType, WName, WFields], []) then None
    else if !Get(ms, WType).JString? || !IsName(Get(ms, WName)) || !IsArray(ms, WFields) then None
    else
      var items := Get(ms, WFields).items;
      match Find(Get(ms, WType).text, [WDataclass, WNamedTuple])
      case None => None
      case Some(kind) =>
        if (forall i | 0 <= i < |items| :: IsRecordField(items[i])) && DistinctTexts(FieldNames(items))
        then Some(Opened(V.SRecord(kind == WNamedTuple, Get(ms, WName).text, FieldNames(items)), FieldParts(items)))
        else None
  }

  function OpenTree(ms: seq<Member>): Option<Opened> {
    if !HasFields(ms, [WTag, WValues], []) || !IsArray(ms, WValues) then None
    else
      var items := Get(ms, WValues).items;
      if (items != [] && items[|items| - 1].JNull?) || !V.Reachable(PresentOf(items)) then None
      else Some(Opened(V.STreeNode(PresentOf(items)), SlotParts(items)))
  }

  function OpenTrace(ms: seq<Member>): Option<Opened> {
    if !HasFields(ms, [WTag, WClassName, WConstructor, WOperations], []) then None
    else if !IsName(Get(ms, WClassName)) || !IsArray(ms, WConstructor) || !IsArray(ms, WOperations) then None
    else
      var arguments, items := Get(ms, WConstructor).items, Get(ms, WOperations).items;
      if forall i | 0 <= i < |items| :: IsOperation(items[i])
      then
        Some(Opened(V.SClassTrace(Get(ms, WClassName).text, |arguments|, OperationsOf(items)),
                    arguments + OperationsParts(items)))
      else None
  }

  function OpenNode(tag: Word, ms: seq<Member>): Option<Opened> {
    match tag
    case WList | WTuple =>
      if HasFields(ms, [WTag, WItems], []) && IsArray(ms, WItems)
      then Some(Opened(V.SList(tag == WTuple), Get(ms, WItems).items)) else None
    case WSet | WFrozenSet =>
      if HasFields(ms, [WTag, WItems], []) && IsArray(ms, WItems)
      then Some(Opened(V.SSet(tag == WFrozenSet), Get(ms, WItems).items)) else None
    case WDict =>
      if HasFields(ms, [WTag, WEntries], []) && IsArray(ms, WEntries)
         && forall i | 0 <= i < |Get(ms, WEntries).items| :: IsEntry(Get(ms, WEntries).items[i])
      then Some(Opened(V.SDict, EntryParts(Get(ms, WEntries).items))) else None
    case WComplex =>
      if HasFields(ms, [WTag, WReal, WImag], [])
      then Some(Opened(V.SComplex, [Get(ms, WReal), Get(ms, WImag)])) else None
    case WEnum =>
      if HasFields(ms, [WTag, WType, WMemberKey, WValue], []) && IsName(Get(ms, WType)) && IsName(Get(ms, WMemberKey))
      then Some(Opened(V.SEnum(Get(ms, WType).text, Get(ms, WMemberKey).text), [Get(ms, WValue)])) else None
    case WRecord => OpenRecord(ms)
    case WException =>
      if HasFields(ms, [WTag, WType, WMessage, WDetails], []) && IsName(Get(ms, WType)) && IsStr(Get(ms, WMessage))
      then
        var detailed := !Get(ms, WDetails).JNull?;
        Some(Opened(V.SException(Get(ms, WType).text, Get(ms, WMessage).text, detailed),
                    if detailed then [Get(ms, WDetails)] else []))
      else None
    case WListNode =>
      if !HasFields(ms, [WTag, WValues, WCycleIndex], []) || !IsArray(ms, WValues) then None
      else
        (match CycleOf(Get(ms, WCycleIndex), |Get(ms, WValues).items|)
         case None => None
         case Some(cycle) => Some(Opened(V.SListNode(cycle), Get(ms, WValues).items)))
    case WTreeNode => OpenTree(ms)
    case WClassTrace => OpenTrace(ms)
    case _ => None
  }

  // ---- the builder -------------------------------------------------------------------------

  /** `canonicalStringOf` of a built value, as the bytes it is compared by. */
  function StringKey(v: Value): seq<int> {
    match Enc(v)
    case None => []
    case Some(t) => Bytes(t)
  }

  predicate SortedUnique(stride: nat, kids: seq<Value>)
    requires stride > 0
  {
    var ks := Chunks(stride, kids, StringKey);
    (forall i | 0 <= i < |ks| :: Enc(ks[i].item[0]).Some?) && NeighboursAscend(ks)
  }

  /** What is checked once the sub-values are there. */
  predicate Checked(s: V.Shape, kids: seq<Value>) {
    V.Fits(s, kids) && (Stride(s) > 0 ==> SortedUnique(Stride(s), kids))
  }

  function Collect<T>(xs: seq<Option<T>>): (r: Option<seq<T>>)
    ensures r.Some? ==> |r.value| == |xs| && forall i | 0 <= i < |xs| :: xs[i] == Some(r.value[i])
    ensures r.None? ==> exists i | 0 <= i < |xs| :: xs[i].None?
  {
    if xs == [] then Some([])
    else if xs[0].None? then None
    else
      match Collect(xs[1..])
      case None => None
      case Some(rest) => Some([xs[0].value] + rest)
  }

  ghost predicate AllBelow(parts: seq<Json>, j: Json) {
    forall i | 0 <= i < |parts| :: parts[i] < j
  }

  ghost predicate AllWithin(parts: seq<Json>, items: seq<Json>) {
    forall i | 0 <= i < |parts| :: exists k | 0 <= k < |items| :: parts[i] < items[k]
  }

  lemma WithinCons(first: seq<Json>, rest: seq<Json>, items: seq<Json>)
    requires items != [] && AllBelow(first, items[0]) && AllWithin(rest, items[1..])
    ensures AllWithin(first + rest, items)
  {
    forall i | 0 <= i < |first + rest| ensures exists k | 0 <= k < |items| :: (first + rest)[i] < items[k] {
      if i < |first| {
        assert first[i] < items[0];
      } else {
        var n := i - |first|;
        var k :| 0 <= k < |items[1..]| && rest[n] < items[1..][k];
        assert items[1..][k] == items[k + 1];
      }
    }
  }

  lemma WithinBelow(parts: seq<Json>, items: seq<Json>, j: Json)
    requires AllWithin(parts, items) && JArray(items) < j
    ensures AllBelow(parts, j)
  {
    forall i | 0 <= i < |parts| ensures parts[i] < j {
      var k :| 0 <= k < |items| && parts[i] < items[k];
      assert items[k] < JArray(items);
    }
  }

  lemma {:induction false} EntriesWithin(items: seq<Json>)
    requires forall i | 0 <= i < |items| :: IsEntry(items[i])
    ensures AllWithin(EntryParts(items), items)
  {
    hide IsEntry;
    if items != [] {
      EntriesWithin(items[1..]);
      WithinCons([EntryPart(items[0], WKey), EntryPart(items[0], WValue)], EntryParts(items[1..]), items);
    }
  }

  lemma OperationBelow(j: Json)
    requires IsOperation(j)
    ensures AllBelow(OperationParts(j), j)
  {
    hide HasFields, Spell;
    var args := Get(j.members, WArgs);
    forall i | 0 <= i < |args.items| ensures args.items[i] < j {
      assert args.items[i] < args;
    }
  }

  lemma {:induction false} OperationsWithin(items: seq<Json>)
    requires forall i | 0 <= i < |items| :: IsOperation(items[i])
    ensures AllWithin(OperationsParts(items), items)
  {
    hide IsOperation;
    if items != [] {
      OperationsWithin(items[1..]);
      OperationBelow(items[0]);
      WithinCons(OperationParts(items[0]), OperationsParts(items[1..]), items);
    }
  }

  /** Sub-nodes are smaller, so building terminates. */
  lemma PartsBelow(tag: Word, ms: seq<Member>)
    requires OpenNode(tag, ms).Some?
    ensures AllBelow(OpenNode(tag, ms).value.parts, JObject(ms))
  {
    hide HasFields, V.Reachable, Spell, Find, N.IsCanonicalInt, DistinctTexts;
    match tag
    case WDict =>
      EntriesWithin(Get(ms, WEntries).items);
      WithinBelow(EntryParts(Get(ms, WEntries).items), Get(ms, WEntries).items, JObject(ms));
    case WClassTrace => TraceBelow(ms);
    case _ =>
  }

  lemma TraceBelow(ms: seq<Member>)
    requires OpenTrace(ms).Some?
    ensures AllBelow(OpenTrace(ms).value.parts, JObject(ms))
  {
    hide HasFields, Spell, IsOperation;
    var arguments, items := Get(ms, WConstructor).items, Get(ms, WOperations).items;
    OperationsWithin(items);
    WithinBelow(OperationsParts(items), items, JObject(ms));
    forall i | 0 <= i < |arguments| ensures arguments[i] < JObject(ms) {
      assert arguments[i] < Get(ms, WConstructor);
    }
  }

  function TagOf(j: Json): Option<Word> {
    match j
    case JObject(ms) =>
      (match Lookup(ms, Spell(WTag))
       case Some(JString(t)) => Find(t, LEAF_TAGS + NODE_TAGS)
       case _ => None)
    case _ => None
  }

  function Build(j: Json): Option<Value>
    decreases j
  {
    match TagOf(j)
    case None => None
    case Some(tag) =>
      if tag in LEAF_TAGS then
        match BuildLeaf(tag, j.members)
        case None => None
        case Some(l) => Some(V.Leaf(l))
      else
        match OpenNode(tag, j.members)
        case None => None
        case Some(Opened(s, parts)) =>
          PartsBelow(tag, j.members);
          match Collect(seq(|parts|, i requires 0 <= i < |parts| => Build(parts[i])))
          case None => None
          case Some(kids) => if Checked(s, kids) then Some(V.Node(s, kids)) else None
  }

  function BuildAll(parts: seq<Json>): (r: seq<Option<Value>>)
    ensures |r| == |parts| && forall i | 0 <= i < |parts| :: r[i] == Build(parts[i])
  {
    seq(|parts|, i requires 0 <= i < |parts| => Build(parts[i]))
  }
}
