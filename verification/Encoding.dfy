/** The canonical encoder (src/judging/codec/encode.ts), its budget set aside. */
module Encoding {
  import opened Wrappers
  import opened Unicode
  import opened Json
  import opened JsonPrinter
  import opened Sorting
  import opened Words
  import opened Forms
  import opened Values
  import N = Numerals
  import G = LeafGrammar
  import Base64

  // ---- leaves -------------------------------------------------------------------------

  const MAX_SAFE_INT := 9_007_199_254_740_991

  predicate SafeInt(n: int) {
    -MAX_SAFE_INT <= n <= MAX_SAFE_INT
  }

  /** `value.split(separator)` */
  function Split(t: Text, separator: Unit): (r: seq<Text>)
    ensures r != []
  {
    if t == [] then [[]]
    else
      var rest := Split(t[1..], separator);
      if t[0] == separator then [[]] + rest else [[t[0]] + rest[0]] + rest[1..]
  }

  predicate AsciiLetter(c: int) {
    0x41 <= c <= 0x5a || 0x61 <= c <= 0x7a
  }

  const SLASH: Unit := 0x2f

  predicate IsRelativePath(t: Text, windows: bool) {
    var separator := if windows then BACKSLASH else SLASH;
    t != [] && t[0] != separator
    && (windows ==> SLASH !in t && !(|t| > 1 && AsciiLetter(t[0]) && t[1] == COLON))
    && ProperSegments(Split(t, separator))
  }

  predicate ProperSegments(segments: seq<Text>) {
    forall i | 0 <= i < |segments| :: segments[i] != [] && segments[i] != [DOT] && segments[i] != [DOT, DOT]
  }

  predicate LegalLeaf(l: Leaf) {
    match l
    case LFloat(t, negativeZero) => N.IsCanonicalFloat(t, negativeZero)
    case LStr(t) => WellFormed(t)
    case LBytes(t) => Base64.Decode(t).Some?
    case LPath(t, windows) => IsRelativePath(t, windows)
    case LDecimal(t) => G.IsDecimalLiteral(t)
    case LDate(t) => G.IsDate(t)
    case LUuid(t) => G.IsUuid(t)
    case LTime(t, offset, _) => G.IsTimeOfDay(t) && (offset.Some? ==> G.IsOffset(offset.value))
    case LDatetime(t, minutes, _) => G.IsDatetime(t) && G.IsOffset(minutes)
    case _ => true
  }

  function IntForm(n: int): Form {
    if SafeInt(n) then FNumber(N.Decimal(n)) else FString(N.Decimal(n))
  }

  function NullableInt(n: Option<int>): Form {
    match n
    case None => FNull
    case Some(c) => FNumber(N.Decimal(c))
  }

  function FoldForm(fold: bool): Form {
    FNumber(if fold then U("1") else U("0"))
  }

  function Tag(w: Word): FormField {
    FormField(WTag, FString(Spell(w)))
  }

  function LeafFields(l: Leaf): seq<FormField> {
    match l
    case LNull => [Tag(WNull)]
    case LBool(b) => [Tag(WBool), FormField(WValue, FBool(b))]
    case LInt(n) => [Tag(WInt), FormField(WValue, IntForm(n))]
    case LFloat(t, nz) => [FormField(WNegativeZero, FBool(nz)), Tag(WFloat), FormField(WValue, FString(t))]
    case LStr(t) => [Tag(WStr), FormField(WValue, FString(t))]
    case LBytes(t) => [FormField(WEncoding, FString(Spell(WBase64Url))), Tag(WBytes), FormField(WValue, FString(t))]
    case LPath(t, windows) =>
      [FormField(WFlavor, FString(Spell(if windows then WWindows else WPosix))), Tag(WPath), FormField(WValue, FString(t))]
    case LDecimal(t) => [Tag(WDecimal), FormField(WValue, FString(t))]
    case LDate(t) => [Tag(WDate), FormField(WValue, FString(t))]
    case LUuid(t) => [Tag(WUuid), FormField(WValue, FString(t))]
    case LTime(t, offset, fold) =>
      [FormField(WFold, FoldForm(fold)), FormField(WOffsetMinutes, NullableInt(offset)), Tag(WTime), FormField(WValue, FString(t))]
    case LDatetime(t, minutes, fold) =>
      [FormField(WFold, FoldForm(fold)), FormField(WOffsetMinutes, NullableInt(Some(minutes))), Tag(WDatetime),
       FormField(WValue, FString(t))]
  }

  // ---- nodes --------------------------------------------------------------------------

  predicate DistinctTexts(ts: seq<Text>) {
    forall i, j | 0 <= i < j < |ts| :: ts[i] != ts[j]
  }

  predicate AllWellFormed(ts: seq<Text>) {
    forall i | 0 <= i < |ts| :: WellFormed(ts[i])
  }

  /** What the encoder demands of a node besides its sub-values. */
  predicate Legal(s: Shape, n: nat) {
    match s
    case SEnum(name, member) => WellFormed(name) && WellFormed(member)
    case SRecord(_, name, fields) => WellFormed(name) && AllWellFormed(fields) && DistinctTexts(fields)
    case SException(name, message, _) => WellFormed(name) && WellFormed(message)
    case SListNode(Some(c)) => 0 <= c < n
    case STreeNode(present) => Reachable(Strip(present))
    case SClassTrace(name, _, operations) =>
      WellFormed(name) && forall i | 0 <= i < |operations| :: WellFormed(operations[i].name)
    case _ => true
  }

  function Holes(from: nat, n: nat): (r: seq<Form>)
    ensures |r| == n && forall i | 0 <= i < n :: r[i] == Hole(from + i)
  {
    seq(n, i requires 0 <= i < n => Hole(from + i))
  }

  function EntryForm(i: nat): Form {
    FObject([FormField(WKey, Hole(2 * i)), FormField(WValue, Hole(2 * i + 1))])
  }

  function EntryForms(n: nat): (r: seq<Form>)
    ensures |r| == n && forall i | 0 <= i < n :: r[i] == EntryForm(i)
  {
    seq(n, i requires 0 <= i < n => EntryForm(i))
  }

  function RecordFieldForm(name: Text, i: nat): Form {
    FObject([FormField(WName, FString(name)), FormField(WValue, Hole(i))])
  }

  function RecordFieldForms(names: seq<Text>): (r: seq<Form>)
    ensures |r| == |names| && forall i | 0 <= i < |names| :: r[i] == RecordFieldForm(names[i], i)
  {
    seq(|names|, i requires 0 <= i < |names| => RecordFieldForm(names[i], i))
  }

  /** Slots in order; the next present one is sub-value `from`. */
  function SlotForms(present: seq<bool>, from: nat): (r: seq<Form>)
    ensures |r| == |present|
  {
    if present == [] then []
    else if present[0] then [Hole(from)] + SlotForms(present[1..], from + 1)
    else [FNull] + SlotForms(present[1..], from)
  }

  function OperationForm(o: Operation, from: nat): Form {
    FObject(
      [FormField(WArgs, FArray(Holes(from, o.arguments))), FormField(WMethod, FString(o.name))]
      + if o.expects then [FormField(WExpected, Hole(from + o.arguments))] else [])
  }

  function OperationForms(os: seq<Operation>, from: nat): (r: seq<Form>)
    ensures |r| == |os|
  {
    if os == [] then [] else [OperationForm(os[0], from)] + OperationForms(os[1..], from + OperationArity(os[0]))
  }

  /** The object written for a node of `n` sub-values. */
  function NodeFields(s: Shape, n: nat): seq<FormField> {
    match s
    case SList(tuple) => [FormField(WItems, FArray(Holes(0, n))), Tag(if tuple then WTuple else WList)]
    case SSet(frozen) => [FormField(WItems, FArray(Holes(0, n))), Tag(if frozen then WFrozenSet else WSet)]
    case SDict => [FormField(WEntries, FArray(EntryForms(n / 2))), Tag(WDict)]
    case SComplex => [FormField(WImag, Hole(1)), FormField(WReal, Hole(0)), Tag(WComplex)]
    case SEnum(name, member) =>
      [FormField(WMemberKey, FString(member)), Tag(WEnum), FormField(WType, FString(name)), FormField(WValue, Hole(0))]
    case SRecord(namedTuple, name, fields) =>
      [FormField(WFields, FArray(RecordFieldForms(fields))), FormField(WName, FString(name)), Tag(WRecord),
       FormField(WType, FString(Spell(if namedTuple then WNamedTuple else WDataclass)))]
    case SException(name, message, detailed) =>
      [FormField(WDetails, if detailed then Hole(0) else FNull), FormField(WMessage, FString(message)), Tag(WException),
       FormField(WType, FString(name))]
    case SListNode(cycle) =>
      [FormField(WCycleIndex, NullableInt(cycle)), Tag(WListNode), FormField(WValues, FArray(Holes(0, n)))]
    case STreeNode(present) => [Tag(WTreeNode), FormField(WValues, FArray(SlotForms(present, 0)))]
    case SClassTrace(name, arguments, operations) =>
      [FormField(WClassName, FString(name)), FormField(WConstructor, FArray(Holes(0, arguments))),
       FormField(WOperations, FArray(OperationForms(operations, arguments))), Tag(WClassTrace)]
  }

  // ---- ordering of set members and dict entries --------------------------------------------

  /** Sub-values per sorted group, the first being the key; 0 when order is significant. */
  function Stride(s: Shape): nat {
    if s.SSet? then 1 else if s.SDict? then 2 else 0
  }

  /** Consecutive groups of `stride`, each under the key of its first element. */
  function Chunks<T>(stride: nat, xs: seq<T>, key: T -> seq<int>): (r: seq<Keyed<seq<T>>>)
    requires stride > 0
    ensures forall i | 0 <= i < |r| :: |r[i].item| == stride && r[i].key == key(r[i].item[0])
    decreases |xs|
  {
    if |xs| < stride then [] else [Keyed(key(xs[0]), xs[..stride])] + Chunks(stride, xs[stride..], key)
  }

  function Flat<T>(ks: seq<Keyed<seq<T>>>): seq<T> {
    if ks == [] then [] else ks[0].item + Flat(ks[1..])
  }

  function Bytes(t: Text): seq<int> {
    EncodeUtf8(t)
  }

  /** The texts in the order they are written, unless two groups have the same key. */
  function Arrange(s: Shape, texts: seq<Text>): Option<seq<Text>> {
    if Stride(s) == 0 then Some(texts)
    else
      var sorted := Sort(Chunks(Stride(s), texts, Bytes));
      if NeighboursAscend(sorted) then Some(Flat(sorted)) else None
  }

  /** Trailing absent slots are not written. */
  function Trim(s: Shape): Shape {
    match s
    case STreeNode(present) => STreeNode(Strip(present))
    case _ => s
  }

  function Enc(v: Value): Option<Text>
    decreases v, 1
  {
    match v
    case Leaf(l) => if LegalLeaf(l) then Some(Fill(FObject(LeafFields(l)), [])) else None
    case Node(s, kids) =>
      match EncAll(kids)
      case None => None
      case Some(texts) =>
        if !Fits(s, kids) || !Legal(s, |kids|) then None
        else
          match Arrange(s, texts)
          case None => None
          case Some(arranged) => Some(Fill(FObject(NodeFields(Trim(s), |kids|)), arranged))
  }

  function EncAll(vs: seq<Value>): (r: Option<seq<Text>>)
    ensures r.Some? ==> |r.value| == |vs|
    decreases vs, 0
  {
    if vs == [] then Some([])
    else
      match Enc(vs[0])
      case None => None
      case Some(t) =>
        match EncAll(vs[1..])
        case None => None
        case Some(ts) => Some([t] + ts)
  }
}
