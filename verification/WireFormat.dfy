/**
 The wire format written out (src/judging/codec/encode.ts:101-510). `WireText` gives every
 object's members in the order they appear on the wire, with their names and fixed strings as
 literal characters; nothing here is shared with the encoder's forms or its vocabulary.
 */
module WireFormat {
  import opened Wrappers
  import opened Unicode
  import opened Json
  import opened JsonPrinter
  import opened Sorting
  import W = Words
  import opened Forms
  import V = Values
  import E = Encoding
  import N = Numerals
  import opened Canonical
  import K = Codec

  type Value = V.Value

  // ---- objects and arrays ----------------------------------------------------------------

  function Commas(parts: seq<Text>): Text {
    if parts == [] then []
    else if |parts| == 1 then parts[0]
    else parts[0] + (U(",") + Commas(parts[1..]))
  }

  function Brackets(parts: seq<Text>): Text {
    U("[") + (Commas(parts) + U("]"))
  }

  function Braces(parts: seq<Text>): Text {
    U("{") + (Commas(parts) + U("}"))
  }

  function Quoted(word: string): Text {
    U("\"") + U(word) + U("\"")
  }

  /** `"name":value` */
  function Entry(name: string, value: Text): Text {
    Quoted(name) + (U(":") + value)
  }

  function Bit(b: bool): Text {
    U(if b then "true" else "false")
  }

  function Fold(b: bool): Text {
    U(if b then "1" else "0")
  }

  function OptionalInt(n: Option<int>): Text {
    if n.Some? then N.Decimal(n.value) else U("null")
  }

  // ---- leaves ----------------------------------------------------------------------------

  function LeafParts(l: V.Leaf): seq<Text> {
    match l
    case LNull => [Entry("tag", Quoted("null"))]
    case LBool(b) => [Entry("tag", Quoted("bool")), Entry("value", Bit(b))]
    case LInt(n) =>
      var digits := N.Decimal(n);
      [Entry("tag", Quoted("int")),
       Entry("value", if -9007199254740991 <= n <= 9007199254740991 then digits else JsonString(digits))]
    case LFloat(t, negativeZero) =>
      [Entry("negativeZero", Bit(negativeZero)), Entry("tag", Quoted("float")), Entry("value", JsonString(t))]
    case LStr(t) => [Entry("tag", Quoted("str")), Entry("value", JsonString(t))]
    case LBytes(t) => [Entry("encoding", Quoted("base64url")), Entry("tag", Quoted("bytes")), Entry("value", JsonString(t))]
    case LPath(t, windows) =>
      [Entry("flavor", Quoted(if windows then "windows" else "posix")), Entry("tag", Quoted("path")),
       Entry("value", JsonString(t))]
    case LDecimal(t) => [Entry("tag", Quoted("decimal")), Entry("value", JsonString(t))]
    case LDate(t) => [Entry("tag", Quoted("date")), Entry("value", JsonString(t))]
    case LUuid(t) => [Entry("tag", Quoted("uuid")), Entry("value", JsonString(t))]
    case LTime(t, offset, fold) =>
      [Entry("fold", Fold(fold)), Entry("offsetMinutes", OptionalInt(offset)), Entry("tag", Quoted("time")),
       Entry("value", JsonString(t))]
    case LDatetime(t, minutes, fold) =>
      [Entry("fold", Fold(fold)), Entry("offsetMinutes", N.Decimal(minutes)), Entry("tag", Quoted("datetime")),
       Entry("value", JsonString(t))]
  }

  // ---- nodes -----------------------------------------------------------------------------

  function EntryTexts(texts: seq<Text>): seq<Text> {
    if |texts| < 2 then []
    else [Braces([Entry("key", texts[0]), Entry("value", texts[1])])] + EntryTexts(texts[2..])
  }

  function FieldTexts(names: seq<Text>, texts: seq<Text>): seq<Text>
    requires |names| == |texts|
  {
    if names == [] then []
    else [Braces([Entry("name", JsonString(names[0])), Entry("value", texts[0])])] + FieldTexts(names[1..], texts[1..])
  }

  function SlotTexts(present: seq<bool>, texts: seq<Text>): seq<Text>
    requires |texts| == V.Present(present)
  {
    if present == [] then []
    else if present[0] then [texts[0]] + SlotTexts(present[1..], texts[1..])
    else [U("null")] + SlotTexts(present[1..], texts)
  }

  function OperationText(o: V.Operation, texts: seq<Text>): Text
    requires |texts| == V.OperationArity(o)
  {
    var arguments, called := Entry("args", Brackets(texts[..o.arguments])), Entry("method", JsonString(o.name));
    if o.expects then Braces([arguments, Entry("expected", texts[o.arguments]), called]) else Braces([arguments, called])
  }

  function OperationTexts(os: seq<V.Operation>, texts: seq<Text>): seq<Text>
    requires |texts| == V.OperationsArity(os)
  {
    if os == [] then []
    else
      var n := V.OperationArity(os[0]);
      [OperationText(os[0], texts[..n])] + OperationTexts(os[1..], texts[n..])
  }

  function NodeParts(s: V.Shape, texts: seq<Text>): seq<Text>
    requires V.Arity(s, |texts|)
  {
    match s
    case SList(tuple) => [Entry("items", Brackets(texts)), Entry("tag", Quoted(if tuple then "tuple" else "list"))]
    case SSet(frozen) => [Entry("items", Brackets(texts)), Entry("tag", Quoted(if frozen then "frozenset" else "set"))]
    case SDict => [Entry("entries", Brackets(EntryTexts(texts))), Entry("tag", Quoted("dict"))]
    case SComplex => [Entry("imag", texts[1]), Entry("real", texts[0]), Entry("tag", Quoted("complex"))]
    case SEnum(name, member) =>
      [Entry("member", JsonString(member)), Entry("tag", Quoted("enum")), Entry("type", JsonString(name)),
       Entry("value", texts[0])]
    case SRecord(namedTuple, name, fields) =>
      [Entry("fields", Brackets(FieldTexts(fields, texts))), Entry("name", JsonString(name)),
       Entry("tag", Quoted("record")), Entry("type", Quoted(if namedTuple then "namedtuple" else "dataclass"))]
    case SException(name, message, detailed) =>
      [Entry("details", if detailed then texts[0] else U("null")), Entry("message", JsonString(message)),
       Entry("tag", Quoted("exception")), Entry("type", JsonString(name))]
    case SListNode(cycle) =>
      [Entry("cycleIndex", OptionalInt(cycle)), Entry("tag", Quoted("ListNode")), Entry("values", Brackets(texts))]
    case STreeNode(present) => [Entry("tag", Quoted("TreeNode")), Entry("values", Brackets(SlotTexts(present, texts)))]
    case SClassTrace(name, arguments, operations) =>
      [Entry("className", JsonString(name)), Entry("constructor", Brackets(texts[..arguments])),
       Entry("operations", Brackets(OperationTexts(operations, texts[arguments..]))),
       Entry("tag", Quoted("ClassTrace"))]
  }

  /** Every node holds as many sub-values as its tag calls for. */
  predicate Typed(v: Value) {
    v.Node? ==> V.Arity(v.shape, |v.kids|) && forall i | 0 <= i < |v.kids| :: Typed(v.kids[i])
  }

  function WireText(v: Value): Text
    requires Typed(v)
    decreases v, 1
  {
    match v
    case Leaf(l) => Braces(LeafParts(l))
    case Node(s, kids) => Braces(NodeParts(s, WireTexts(kids)))
  }

  function WireTexts(vs: seq<Value>): (r: seq<Text>)
    requires forall i | 0 <= i < |vs| :: Typed(vs[i])
    ensures |r| == |vs|
    decreases vs, 0
  {
    if vs == [] then [] else [WireText(vs[0])] + WireTexts(vs[1..])
  }

  // ---- words -----------------------------------------------------------------------------

  predicate Alphanumeric(c: char) {
    'a' <= c <= 'z' || 'A' <= c <= 'Z' || '0' <= c <= '9'
  }

  predicate Letters(w: W.Word) {
    forall c | c in W.Literal(w) :: Alphanumeric(c)
  }

  predicate MemberName(w: W.Word) {
    match w
    case WTag | WValue | WItems | WEntries | WKey | WImag | WReal | WNegativeZero | WFlavor | WEncoding |
         WMemberKey | WType | WName | WFields | WDetails | WMessage | WCycleIndex | WValues | WClassName |
         WConstructor | WOperations | WMethod | WArgs | WExpected => true
    case _ => false
  }

  lemma MemberLetters(w: W.Word)
    requires MemberName(w)
    ensures Letters(w)
  {
  }

  predicate EarlyTag(w: W.Word) {
    match w
    case WNull | WBool | WInt | WFloat | WDecimal | WComplex | WStr | WList | WTuple | WSet | WFrozenSet |
         WDict => true
    case _ => false
  }

  lemma EarlyTagLetters(w: W.Word)
    requires EarlyTag(w)
    ensures Letters(w)
  {
  }

  lemma OtherLetters(w: W.Word)
    requires !MemberName(w) && !EarlyTag(w)
    ensures Letters(w)
  {
  }

  lemma WordLetters(w: W.Word)
    ensures forall i | 0 <= i < |W.Literal(w)| :: Alphanumeric(W.Literal(w)[i])
  {
    hide W.Literal, MemberName, EarlyTag;
    if MemberName(w) {
      MemberLetters(w);
    } else if EarlyTag(w) {
      EarlyTagLetters(w);
    } else {
      OtherLetters(w);
    }
  }

  predicate Plain(u: Unit) {
    '0' as int <= u <= 'z' as int && u != '\\' as int
  }

  lemma PlainRaw(u: Unit)
    requires Plain(u)
    ensures PlainPiece(u) == Raw(u) && RenderPiece(Raw(u)) == [u] && !High(u) && !Low(u)
  {
  }

  lemma {:induction false} PlainQuote(t: Text)
    requires forall i | 0 <= i < |t| :: Plain(t[i])
    ensures RenderPieces(Quote(t)) == t && Scalars(t) == t
  {
    hide PlainPiece, RenderPiece, Plain, HexPiece;
    if t != [] {
      PlainRaw(t[0]);
      PlainQuote(t[1..]);
      assert Quote(t) == [Raw(t[0])] + Quote(t[1..]);
      assert Quote(t)[1..] == Quote(t[1..]);
    }
  }

  lemma WordText(w: W.Word)
    ensures JsonString(W.Spell(w)) == Quoted(W.Literal(w)) && Scalars(W.Spell(w)) == W.Spell(w)
  {
    WordLetters(w);
    hide W.Literal;
    PlainQuote(W.Spell(w));
    assert U("\"") == [QUOTE];
  }

  /** The first characters of two words decide their order. */
  predicate Before(v: W.Word, w: W.Word) {
    var a, b := W.Literal(v), W.Literal(w);
    |a| >= 2 && |b| >= 2 && (a[0] < b[0] || (a[0] == b[0] && a[1] < b[1]))
  }

  lemma WordOrder(v: W.Word, w: W.Word)
    requires Before(v, w)
    ensures Less(W.Rank(v), W.Rank(w))
  {
    WordText(v);
    WordText(w);
    WordLetters(v);
    WordLetters(w);
    var a, b := W.Spell(v), W.Spell(w);
    hide W.Literal, Quoted, JsonString;
    LessAt(a, b, if a[0] == b[0] then 1 else 0);
    CompareIsCodePointOrder(a, b);
  }

  predicate Alphabetical(fields: seq<FormField>) {
    forall i | 0 < i < |fields| :: Before(fields[i - 1].word, fields[i].word)
  }

  // ---- filled objects ---------------------------------------------------------------------

  lemma {:induction false} JoinIsCommas(parts: seq<Text>)
    ensures Join(parts) == Commas(parts)
  {
    if |parts| > 1 {
      JoinIsCommas(parts[1..]);
      assert U(",") == [COMMA];
    }
  }

  lemma Delimited(parts: seq<Text>)
    ensures ArrayText(parts) == Brackets(parts) && ObjectText(parts) == Braces(parts)
  {
    JoinIsCommas(parts);
    assert U("[") == [OPEN_BRACKET] && U("]") == [CLOSE_BRACKET] && U("{") == [OPEN_BRACE] && U("}") == [CLOSE_BRACE];
  }

  predicate IsPair(part: Text, field: FormField, texts: seq<Text>) {
    part == Entry(W.Literal(field.word), Fill(field.form, texts))
  }

  predicate ArePairs(parts: seq<Text>, fields: seq<FormField>, texts: seq<Text>) {
    |parts| == |fields| && forall i | 0 <= i < |parts| :: IsPair(parts[i], fields[i], texts)
  }

  lemma PairWritten(field: FormField, texts: seq<Text>, part: Text)
    requires IsPair(part, field, texts)
    ensures var pair := FillField(field, texts); PairText(W.Spell(pair.item.word), pair.item.content) == part
  {
    hide W.Literal, W.Spell, Fill, Quoted, JsonString;
    WordText(field.word);
    assert U(":") == [COLON];
  }

  lemma {:induction false} PairsWritten(fields: seq<FormField>, texts: seq<Text>, parts: seq<Text>)
    requires ArePairs(parts, fields, texts)
    ensures PairTexts(FillFields(fields, texts)) == parts
  {
    hide W.Spell, FillField, PairText, IsPair;
    if fields != [] {
      PairWritten(fields[0], texts, parts[0]);
      assert ArePairs(parts[1..], fields[1..], texts) by {
        forall i | 0 <= i < |parts| - 1 ensures IsPair(parts[1..][i], fields[1..][i], texts) {
          assert IsPair(parts[i + 1], fields[i + 1], texts);
        }
      }
      PairsWritten(fields[1..], texts, parts[1..]);
      assert FillFields(fields, texts)[1..] == FillFields(fields[1..], texts);
      assert parts == [parts[0]] + parts[1..];
    }
  }

  lemma {:induction false} FillFieldsAt(fields: seq<FormField>, texts: seq<Text>)
    ensures forall i | 0 <= i < |fields| :: FillFields(fields, texts)[i] == FillField(fields[i], texts)
  {
    if fields != [] {
      FillFieldsAt(fields[1..], texts);
    }
  }

  lemma AlphabeticalStays(fields: seq<FormField>, texts: seq<Text>)
    requires Alphabetical(fields)
    ensures Strict(FillFields(fields, texts)) && Sort(FillFields(fields, texts)) == FillFields(fields, texts)
  {
    hide W.Literal, W.Rank, Fill, Before;
    var pairs := FillFields(fields, texts);
    FillFieldsAt(fields, texts);
    forall i | 0 < i < |pairs| ensures Less(pairs[i - 1].key, pairs[i].key) {
      WordOrder(fields[i - 1].word, fields[i].word);
    }
    NeighboursSuffice(pairs);
    SortSorted(pairs);
  }

  /** A form whose fields are in order is written pair by pair. */
  lemma ObjectWritten(fields: seq<FormField>, texts: seq<Text>, parts: seq<Text>)
    requires Alphabetical(fields) && ArePairs(parts, fields, texts)
    ensures Fill(FObject(fields), texts) == Braces(parts)
  {
    AlphabeticalStays(fields, texts);
    PairsWritten(fields, texts, parts);
    hide Alphabetical, ArePairs;
    FillObject(fields, texts);
    Delimited(parts);
  }

  /** One member of an object: its name spelled out and its value. */
  lemma Member(w: W.Word, f: Form, texts: seq<Text>, name: string, value: Text)
    requires W.Literal(w) == name && Fill(f, texts) == value
    ensures IsPair(Entry(name, value), FormField(w, f), texts)
  {
  }

  lemma Two(f: FormField, g: FormField, texts: seq<Text>, a: Text, b: Text)
    requires IsPair(a, f, texts) && IsPair(b, g, texts) && Before(f.word, g.word)
    ensures Fill(FObject([f, g]), texts) == Braces([a, b])
  {
    hide IsPair, Before, Braces, Fill;
    ObjectWritten([f, g], texts, [a, b]);
  }

  lemma Three(f: FormField, g: FormField, h: FormField, texts: seq<Text>, a: Text, b: Text, c: Text)
    requires IsPair(a, f, texts) && IsPair(b, g, texts) && IsPair(c, h, texts)
    requires Before(f.word, g.word) && Before(g.word, h.word)
    ensures Alphabetical([f, g, h]) && Fill(FObject([f, g, h]), texts) == Braces([a, b, c])
  {
    hide IsPair, Before, Braces, Fill;
    ObjectWritten([f, g, h], texts, [a, b, c]);
  }

  lemma Four(f: FormField, g: FormField, h: FormField, k: FormField, texts: seq<Text>, a: Text, b: Text, c: Text, d: Text)
    requires IsPair(a, f, texts) && IsPair(b, g, texts) && IsPair(c, h, texts) && IsPair(d, k, texts)
    requires Before(f.word, g.word) && Before(g.word, h.word) && Before(h.word, k.word)
    ensures Fill(FObject([f, g, h, k]), texts) == Braces([a, b, c, d])
  {
    hide IsPair, Before, Braces, Fill;
    ObjectWritten([f, g, h, k], texts, [a, b, c, d]);
  }

  // ---- values of members -----------------------------------------------------------------------

  lemma TagWritten(w: W.Word, texts: seq<Text>)
    ensures Fill(FString(W.Spell(w)), texts) == Quoted(W.Literal(w))
  {
    WordText(w);
  }

  lemma TagMember(w: W.Word, texts: seq<Text>, name: string)
    requires W.Literal(w) == name
    ensures IsPair(Entry("tag", Quoted(name)), E.Tag(w), texts)
  {
    TagWritten(w, texts);
    Member(W.WTag, FString(W.Spell(w)), texts, "tag", Quoted(name));
    hide IsPair, Entry, W.Spell, Quoted;
  }

  lemma NullFilled(texts: seq<Text>)
    ensures Fill(FNull, texts) == U("null")
  {
  }

  lemma StringMember(w: W.Word, t: Text, texts: seq<Text>, name: string)
    requires W.Literal(w) == name
    ensures IsPair(Entry(name, JsonString(t)), FormField(w, FString(t)), texts)
  {
    hide W.Literal, JsonString;
    Member(w, FString(t), texts, name, JsonString(t));
  }

  lemma HoleMember(w: W.Word, i: nat, texts: seq<Text>, name: string)
    requires W.Literal(w) == name && i < |texts|
    ensures IsPair(Entry(name, texts[i]), FormField(w, Hole(i)), texts)
  {
    hide W.Literal;
    Member(w, Hole(i), texts, name, texts[i]);
  }

  lemma ValueMember(t: Text, texts: seq<Text>)
    ensures IsPair(Entry("value", JsonString(t)), FormField(W.WValue, FString(t)), texts)
  {
    hide IsPair, Entry, JsonString;
    StringMember(W.WValue, t, texts, "value");
  }

  lemma BitMember(w: W.Word, b: bool, texts: seq<Text>, name: string)
    requires W.Literal(w) == name
    ensures IsPair(Entry(name, Bit(b)), FormField(w, FBool(b)), texts)
  {
    hide W.Literal;
    Member(w, FBool(b), texts, name, Bit(b));
  }

  lemma IntMember(n: int, texts: seq<Text>)
    ensures var digits := N.Decimal(n);
      IsPair(Entry("value", if -9007199254740991 <= n <= 9007199254740991 then digits else JsonString(digits)),
             FormField(W.WValue, E.IntForm(n)), texts)
  {
    hide N.Decimal, JsonString;
    Member(W.WValue, E.IntForm(n), texts, "value", Fill(E.IntForm(n), texts));
  }

  lemma OptionalMember(w: W.Word, n: Option<int>, texts: seq<Text>, name: string)
    requires W.Literal(w) == name
    ensures IsPair(Entry(name, OptionalInt(n)), FormField(w, E.NullableInt(n)), texts)
  {
    hide W.Literal, N.Decimal;
    Member(w, E.NullableInt(n), texts, name, OptionalInt(n));
  }

  lemma FoldMember(b: bool, texts: seq<Text>)
    ensures IsPair(Entry("fold", Fold(b)), FormField(W.WFold, E.FoldForm(b)), texts)
  {
    Member(W.WFold, E.FoldForm(b), texts, "fold", Fold(b));
  }

  lemma LeafOrders()
    ensures Before(W.WTag, W.WValue) && Before(W.WNegativeZero, W.WTag) && Before(W.WEncoding, W.WTag)
    ensures Before(W.WFlavor, W.WTag)
  {
    hide W.Spell, U;
  }

  lemma ClockOrders()
    ensures Before(W.WFold, W.WOffsetMinutes) && Before(W.WOffsetMinutes, W.WTag)
  {
    hide W.Spell, U;
  }

  lemma ItemOrders()
    ensures Before(W.WTag, W.WType) && Before(W.WTag, W.WValues) && Before(W.WType, W.WValue)
    ensures Before(W.WItems, W.WTag) && Before(W.WEntries, W.WTag) && Before(W.WImag, W.WReal) && Before(W.WReal, W.WTag)
    ensures Before(W.WMemberKey, W.WTag)
  {
    hide W.Spell, U;
  }

  lemma NodeOrders()
    ensures Before(W.WFields, W.WName) && Before(W.WName, W.WTag) && Before(W.WDetails, W.WMessage)
    ensures Before(W.WMessage, W.WTag) && Before(W.WCycleIndex, W.WTag)
  {
    hide W.Spell, U;
  }

  lemma TraceOrders()
    ensures Before(W.WClassName, W.WConstructor) && Before(W.WConstructor, W.WOperations) && Before(W.WOperations, W.WTag)
  {
    hide W.Spell, U;
  }

  lemma PartOrders()
    ensures Before(W.WKey, W.WValue) && Before(W.WName, W.WValue)
    ensures Before(W.WArgs, W.WExpected) && Before(W.WExpected, W.WMethod) && Before(W.WArgs, W.WMethod)
  {
    hide W.Spell, U;
  }

  // ---- leaves are written so ----------------------------------------------------------------

  ghost predicate LeafPairs(l: V.Leaf) {
    ArePairs(LeafParts(l), E.LeafFields(l), [])
  }

  lemma NullPairs()
    ensures LeafPairs(V.LNull)
  {
    hide IsPair, Entry, Quoted, Fill, Braces, U, JsonString, W.Spell;
    TagMember(W.WNull, [], "null");
  }

  lemma BoolPairs(l: V.Leaf)
    requires l.LBool?
    ensures LeafPairs(l)
  {
    hide JsonString, N.Decimal, Fill, IsPair, Entry, Braces, Quoted, U, W.Spell;
    TagMember(W.WBool, [], "bool");
    BitMember(W.WValue, l.bit, [], "value");
  }

  lemma IntPairs(l: V.Leaf)
    requires l.LInt?
    ensures LeafPairs(l)
  {
    hide JsonString, N.Decimal, Fill, IsPair, Entry, Braces, Quoted, U, W.Spell;
    TagMember(W.WInt, [], "int");
    IntMember(l.n, []);
  }

  lemma DayOrUuidPairs(l: V.Leaf)
    requires l.LDate? || l.LUuid?
    ensures LeafPairs(l)
  {
    hide JsonString, N.Decimal, Fill, IsPair, Entry, Braces, Quoted, U, W.Spell;
    ValueMember(l.text, []);
    if l.LDate? {
      TagMember(W.WDate, [], "date");
    } else {
      TagMember(W.WUuid, [], "uuid");
    }
  }

  lemma TextPairs(l: V.Leaf)
    requires l.LStr? || l.LDecimal? || l.LDate? || l.LUuid?
    ensures LeafPairs(l)
  {
    hide JsonString, N.Decimal, Fill, IsPair, Entry, Braces, Quoted, U, W.Spell;
    ValueMember(l.text, []);
    if l.LStr? {
      TagMember(W.WStr, [], "str");
    } else if l.LDecimal? {
      TagMember(W.WDecimal, [], "decimal");
    } else {
      DayOrUuidPairs(l);
    }
  }

  lemma FloatPairs(l: V.Leaf)
    requires l.LFloat?
    ensures LeafPairs(l)
  {
    hide JsonString, N.Decimal, Fill, IsPair, Entry, Braces, Quoted, U, W.Spell;
    BitMember(W.WNegativeZero, l.negativeZero, [], "negativeZero");
    TagMember(W.WFloat, [], "float");
    ValueMember(l.text, []);
  }

  lemma BytesPairs(l: V.Leaf)
    requires l.LBytes?
    ensures LeafPairs(l)
  {
    hide JsonString, N.Decimal, Fill, IsPair, Entry, Braces, Quoted, U, W.Spell;
    TagWritten(W.WBase64Url, []);
    Member(W.WEncoding, FString(W.Spell(W.WBase64Url)), [], "encoding", Quoted("base64url"));
    TagMember(W.WBytes, [], "bytes");
    ValueMember(l.text, []);
  }

  lemma FlavorMember(windows: bool)
    ensures IsPair(Entry("flavor", Quoted(if windows then "windows" else "posix")),
                   FormField(W.WFlavor, FString(W.Spell(if windows then W.WWindows else W.WPosix))), [])
  {
    hide Fill, IsPair, Entry, Quoted, U, W.Spell;
    var flavor := if windows then W.WWindows else W.WPosix;
    TagWritten(flavor, []);
    Member(W.WFlavor, FString(W.Spell(flavor)), [], "flavor", Quoted(W.Literal(flavor)));
  }

  lemma PathPairs(l: V.Leaf)
    requires l.LPath?
    ensures LeafPairs(l)
  {
    hide JsonString, N.Decimal, Fill, IsPair, Entry, Braces, Quoted, U, W.Spell;
    FlavorMember(l.windows);
    TagMember(W.WPath, [], "path");
    ValueMember(l.text, []);
  }

  lemma TimePairs(l: V.Leaf)
    requires l.LTime?
    ensures LeafPairs(l)
  {
    hide JsonString, N.Decimal, Fill, IsPair, Entry, Braces, Quoted, U, W.Spell, Fold;
    FoldMember(l.fold, []);
    OptionalMember(W.WOffsetMinutes, l.offset, [], "offsetMinutes");
    TagMember(W.WTime, [], "time");
    ValueMember(l.text, []);
  }

  lemma DatetimePairs(l: V.Leaf)
    requires l.LDatetime?
    ensures LeafPairs(l)
  {
    hide JsonString, N.Decimal, Fill, IsPair, Entry, Braces, Quoted, U, W.Spell, Fold;
    FoldMember(l.fold, []);
    OptionalMember(W.WOffsetMinutes, Some(l.minutes), [], "offsetMinutes");
    TagMember(W.WDatetime, [], "datetime");
    ValueMember(l.text, []);
  }

  lemma LeafOrder(l: V.Leaf)
    ensures Alphabetical(E.LeafFields(l))
  {
    LeafOrders();
    ClockOrders();
    hide Before, W.Spell, U;
  }

  lemma LeafWritten(l: V.Leaf)
    ensures Fill(FObject(E.LeafFields(l)), []) == Braces(LeafParts(l))
  {
    match l {
      case LNull => NullPairs();
      case LBool(_) => BoolPairs(l);
      case LInt(_) => IntPairs(l);
      case LFloat(_, _) => FloatPairs(l);
      case LBytes(_) => BytesPairs(l);
      case LPath(_, _) => PathPairs(l);
      case LTime(_, _, _) => TimePairs(l);
      case LDatetime(_, _, _) => DatetimePairs(l);
      case _ => TextPairs(l);
    }
    LeafOrder(l);
    hide LeafParts, E.LeafFields, Alphabetical, ArePairs, Fill, Braces;
    ObjectWritten(E.LeafFields(l), [], LeafParts(l));
  }

  // ---- nodes are written so -----------------------------------------------------------------

  lemma {:induction false} FillItemsAt(items: seq<Form>, texts: seq<Text>)
    ensures forall i | 0 <= i < |items| :: FillItems(items, texts)[i] == Fill(items[i], texts)
  {
    if items != [] {
      FillItemsAt(items[1..], texts);
    }
  }

  lemma ArrayWritten(items: seq<Form>, texts: seq<Text>)
    ensures Fill(FArray(items), texts) == Brackets(FillItems(items, texts))
  {
    Delimited(FillItems(items, texts));
  }

  lemma HolesFilled(from: nat, n: nat, texts: seq<Text>)
    requires from + n <= |texts|
    ensures FillItems(E.Holes(from, n), texts) == texts[from..from + n]
  {
    FillItemsAt(E.Holes(from, n), texts);
  }

  lemma HolesWritten(from: nat, n: nat, texts: seq<Text>)
    requires from + n <= |texts|
    ensures Fill(FArray(E.Holes(from, n)), texts) == Brackets(texts[from..from + n])
  {
    hide E.Holes, Fill, FillItems, Brackets;
    HolesFilled(from, n, texts);
    ArrayWritten(E.Holes(from, n), texts);
  }

  lemma {:induction false} EntryTextsAt(texts: seq<Text>)
    ensures |EntryTexts(texts)| == |texts| / 2
    ensures forall i | 0 <= i < |texts| / 2 ::
      EntryTexts(texts)[i] == Braces([Entry("key", texts[2 * i]), Entry("value", texts[2 * i + 1])])
    decreases |texts|
  {
    hide Braces, Entry;
    if |texts| >= 2 {
      EntryTextsAt(texts[2..]);
    }
  }

  lemma EntryWritten(i: nat, texts: seq<Text>)
    requires 2 * i + 1 < |texts|
    ensures Fill(E.EntryForm(i), texts) == Braces([Entry("key", texts[2 * i]), Entry("value", texts[2 * i + 1])])
  {
    hide IsPair, Entry, Before, Fill, Braces, Quoted, U, JsonString, W.Spell;
    PartOrders();
    HoleMember(W.WKey, 2 * i, texts, "key");
    HoleMember(W.WValue, 2 * i + 1, texts, "value");
    Two(FormField(W.WKey, Hole(2 * i)), FormField(W.WValue, Hole(2 * i + 1)), texts,
        Entry("key", texts[2 * i]), Entry("value", texts[2 * i + 1]));
  }

  lemma EntriesWritten(texts: seq<Text>)
    requires |texts| % 2 == 0
    ensures Fill(FArray(E.EntryForms(|texts| / 2)), texts) == Brackets(EntryTexts(texts))
  {
    var items := E.EntryForms(|texts| / 2);
    FillItemsAt(items, texts);
    EntryTextsAt(texts);
    hide E.EntryForm, EntryTexts;
    forall i | 0 <= i < |items| ensures FillItems(items, texts)[i] == EntryTexts(texts)[i] {
      EntryWritten(i, texts);
    }
    assert FillItems(items, texts) == EntryTexts(texts);
    ArrayWritten(items, texts);
  }

  lemma {:induction false} FieldTextsAt(names: seq<Text>, texts: seq<Text>)
    requires |names| == |texts|
    ensures |FieldTexts(names, texts)| == |names|
    ensures forall i | 0 <= i < |names| ::
      FieldTexts(names, texts)[i] == Braces([Entry("name", JsonString(names[i])), Entry("value", texts[i])])
  {
    hide Braces, Entry, JsonString;
    if names != [] {
      FieldTextsAt(names[1..], texts[1..]);
    }
  }

  lemma FieldWritten(name: Text, i: nat, texts: seq<Text>)
    requires i < |texts|
    ensures Fill(E.RecordFieldForm(name, i), texts) == Braces([Entry("name", JsonString(name)), Entry("value", texts[i])])
  {
    hide IsPair, Entry, Before, Fill, Braces, JsonString, Quoted, U, W.Spell;
    PartOrders();
    StringMember(W.WName, name, texts, "name");
    HoleMember(W.WValue, i, texts, "value");
    Two(FormField(W.WName, FString(name)), FormField(W.WValue, Hole(i)), texts,
        Entry("name", JsonString(name)), Entry("value", texts[i]));
  }

  lemma FieldsWritten(names: seq<Text>, texts: seq<Text>)
    requires |names| == |texts|
    ensures Fill(FArray(E.RecordFieldForms(names)), texts) == Brackets(FieldTexts(names, texts))
  {
    var items := E.RecordFieldForms(names);
    FillItemsAt(items, texts);
    FieldTextsAt(names, texts);
    hide E.RecordFieldForm, FieldTexts;
    forall i | 0 <= i < |items| ensures FillItems(items, texts)[i] == FieldTexts(names, texts)[i] {
      FieldWritten(names[i], i, texts);
    }
    assert FillItems(items, texts) == FieldTexts(names, texts);
    ArrayWritten(items, texts);
  }

  lemma {:induction false} SlotsWritten(present: seq<bool>, from: nat, texts: seq<Text>)
    requires |texts| == from + V.Present(present)
    ensures FillItems(E.SlotForms(present, from), texts) == SlotTexts(present, texts[from..])
  {
    if present != [] {
      var next := if present[0] then from + 1 else from;
      SlotsWritten(present[1..], next, texts);
      assert E.SlotForms(present, from)[1..] == E.SlotForms(present[1..], next);
      if present[0] {
        assert texts[from..][1..] == texts[from + 1..];
      }
    }
  }

  lemma OperationMembers(o: V.Operation, from: nat, texts: seq<Text>, mine: seq<Text>)
    requires from + V.OperationArity(o) <= |texts| && mine == texts[from..from + V.OperationArity(o)]
    ensures IsPair(Entry("args", Brackets(mine[..o.arguments])), FormField(W.WArgs, FArray(E.Holes(from, o.arguments))), texts)
    ensures IsPair(Entry("method", JsonString(o.name)), FormField(W.WMethod, FString(o.name)), texts)
    ensures o.expects ==>
              IsPair(Entry("expected", mine[o.arguments]), FormField(W.WExpected, Hole(from + o.arguments)), texts)
  {
    hide IsPair, Entry, Fill, JsonString, Brackets, E.Holes;
    HolesWritten(from, o.arguments, texts);
    assert texts[from..from + o.arguments] == mine[..o.arguments];
    Member(W.WArgs, FArray(E.Holes(from, o.arguments)), texts, "args", Brackets(mine[..o.arguments]));
    StringMember(W.WMethod, o.name, texts, "method");
    if o.expects {
      HoleMember(W.WExpected, from + o.arguments, texts, "expected");
    }
  }

  lemma OperationWritten(o: V.Operation, from: nat, texts: seq<Text>)
    requires from + V.OperationArity(o) <= |texts|
    ensures Fill(E.OperationForm(o, from), texts) == OperationText(o, texts[from..from + V.OperationArity(o)])
  {
    hide IsPair, Entry, Before, Fill, Braces, JsonString, Brackets, E.Holes, W.Literal;
    var mine := texts[from..from + V.OperationArity(o)];
    PartOrders();
    OperationMembers(o, from, texts, mine);
    if o.expects {
      ExpectingWritten(o, from, texts, mine);
    } else {
      var arguments := FormField(W.WArgs, FArray(E.Holes(from, o.arguments)));
      var called := FormField(W.WMethod, FString(o.name));
      Two(arguments, called, texts, Entry("args", Brackets(mine[..o.arguments])), Entry("method", JsonString(o.name)));
      assert [arguments, called] + [] == [arguments, called];
    }
  }

  lemma ExpectingWritten(o: V.Operation, from: nat, texts: seq<Text>, mine: seq<Text>)
    requires o.expects && from + V.OperationArity(o) <= |texts| && mine == texts[from..from + V.OperationArity(o)]
    ensures Fill(E.OperationForm(o, from), texts) == OperationText(o, mine)
  {
    hide IsPair, Entry, Before, Fill, Braces, JsonString, Brackets, E.Holes, W.Literal, Alphabetical;
    PartOrders();
    OperationMembers(o, from, texts, mine);
    var arguments := FormField(W.WArgs, FArray(E.Holes(from, o.arguments)));
    var called := FormField(W.WMethod, FString(o.name));
    var expected := FormField(W.WExpected, Hole(from + o.arguments));
    var a, c := Entry("args", Brackets(mine[..o.arguments])), Entry("method", JsonString(o.name));
    Three(arguments, expected, called, texts, a, Entry("expected", mine[o.arguments]), c);
    ExpectedMoves(arguments, called, expected, texts);
    assert [arguments, called] + [expected] == [arguments, called, expected];
  }

  lemma ThreeFilled(f: FormField, g: FormField, h: FormField, texts: seq<Text>)
    ensures FillFields([f, g, h], texts) == [FillField(f, texts), FillField(g, texts), FillField(h, texts)]
  {
    hide FillField;
    FillFieldsAt([f, g, h], texts);
  }

  lemma LastTwoSwap(x: Keyed<Slot<Text>>, y: Keyed<Slot<Text>>, z: Keyed<Slot<Text>>)
    requires Strict([x, z, y])
    ensures Sort([x, y, z]) == Sort([x, z, y])
  {
    hide Sort;
    assert multiset([x, y, z]) == multiset{x, y, z} == multiset([x, z, y]);
    SortSorted([x, z, y]);
    SortedStrictIffDistinct([x, z, y]);
    SortIgnoresOrder([x, z, y], [x, y, z]);
  }

  /** The encoder appends an expected result last and sorts it before the method. */
  lemma ExpectedMoves(arguments: FormField, called: FormField, expected: FormField, texts: seq<Text>)
    requires Alphabetical([arguments, expected, called])
    ensures Fill(FObject([arguments, called, expected]), texts) == Fill(FObject([arguments, expected, called]), texts)
  {
    hide FillField, Alphabetical, Fill, Sort, Strict, FillFields;
    AlphabeticalStays([arguments, expected, called], texts);
    ThreeFilled(arguments, called, expected, texts);
    ThreeFilled(arguments, expected, called, texts);
    LastTwoSwap(FillField(arguments, texts), FillField(called, texts), FillField(expected, texts));
    FillObject([arguments, called, expected], texts);
    FillObject([arguments, expected, called], texts);
  }

  lemma {:induction false} OperationsWritten(os: seq<V.Operation>, from: nat, texts: seq<Text>)
    requires |texts| == from + V.OperationsArity(os)
    ensures FillItems(E.OperationForms(os, from), texts) == OperationTexts(os, texts[from..])
  {
    hide E.OperationForm, OperationText;
    if os != [] {
      var n := V.OperationArity(os[0]);
      OperationWritten(os[0], from, texts);
      OperationsWritten(os[1..], from + n, texts);
      assert E.OperationForms(os, from)[1..] == E.OperationForms(os[1..], from + n);
      assert texts[from..][..n] == texts[from..from + n] && texts[from..][n..] == texts[from + n..];
    }
  }

  ghost predicate NodePairs(s: V.Shape, texts: seq<Text>)
    requires V.Arity(s, |texts|)
  {
    ArePairs(NodeParts(s, texts), E.NodeFields(s, |texts|), texts)
  }

  lemma AllHoles(texts: seq<Text>)
    ensures Fill(FArray(E.Holes(0, |texts|)), texts) == Brackets(texts)
  {
    HolesWritten(0, |texts|, texts);
    assert texts[0..0 + |texts|] == texts;
  }

  lemma ItemsPairs(s: V.Shape, texts: seq<Text>)
    requires s.SList? || s.SSet?
    ensures NodePairs(s, texts)
  {
    hide IsPair, Entry, Quoted, Fill, Braces, Brackets, E.Holes, U, JsonString, W.Spell;
    AllHoles(texts);
    var tag := if s.SList? then if s.tuple then W.WTuple else W.WList else if s.frozen then W.WFrozenSet else W.WSet;
    TagMember(tag, texts, W.Literal(tag));
    Member(W.WItems, FArray(E.Holes(0, |texts|)), texts, "items", Brackets(texts));
  }

  lemma DictPairs(texts: seq<Text>)
    requires |texts| % 2 == 0
    ensures NodePairs(V.SDict, texts)
  {
    hide IsPair, Entry, Quoted, Fill, Braces, Brackets, E.EntryForms, U, JsonString, W.Spell;
    EntriesWritten(texts);
    TagMember(W.WDict, texts, "dict");
    Member(W.WEntries, FArray(E.EntryForms(|texts| / 2)), texts, "entries", Brackets(EntryTexts(texts)));
  }

  lemma ComplexPairs(texts: seq<Text>)
    requires |texts| == 2
    ensures NodePairs(V.SComplex, texts)
  {
    hide IsPair, Entry, Quoted, Fill, Braces, U, JsonString, W.Spell;
    HoleMember(W.WImag, 1, texts, "imag");
    HoleMember(W.WReal, 0, texts, "real");
    TagMember(W.WComplex, texts, "complex");
  }

  lemma EnumPairs(s: V.Shape, texts: seq<Text>)
    requires s.SEnum? && |texts| == 1
    ensures NodePairs(s, texts)
  {
    hide IsPair, Entry, Quoted, Fill, Braces, JsonString, U, W.Spell;
    StringMember(W.WMemberKey, s.member, texts, "member");
    TagMember(W.WEnum, texts, "enum");
    StringMember(W.WType, s.name, texts, "type");
    HoleMember(W.WValue, 0, texts, "value");
  }

  lemma KindMember(namedTuple: bool, texts: seq<Text>)
    ensures IsPair(Entry("type", Quoted(if namedTuple then "namedtuple" else "dataclass")),
                   FormField(W.WType, FString(W.Spell(if namedTuple then W.WNamedTuple else W.WDataclass))), texts)
  {
    hide Fill, IsPair, Entry, Quoted, U, W.Spell;
    var kind := if namedTuple then W.WNamedTuple else W.WDataclass;
    TagWritten(kind, texts);
    Member(W.WType, FString(W.Spell(kind)), texts, "type", Quoted(W.Literal(kind)));
  }

  lemma RecordPairs(s: V.Shape, texts: seq<Text>)
    requires s.SRecord? && |texts| == |s.fields|
    ensures NodePairs(s, texts)
  {
    hide IsPair, Entry, Quoted, Fill, Braces, Brackets, JsonString, W.Spell, E.RecordFieldForms, U;
    FieldsWritten(s.fields, texts);
    Member(W.WFields, FArray(E.RecordFieldForms(s.fields)), texts, "fields", Brackets(FieldTexts(s.fields, texts)));
    StringMember(W.WName, s.name, texts, "name");
    TagMember(W.WRecord, texts, "record");
    KindMember(s.namedTuple, texts);
  }

  lemma ExceptionPairs(s: V.Shape, texts: seq<Text>)
    requires s.SException? && |texts| == if s.detailed then 1 else 0
    ensures NodePairs(s, texts)
  {
    hide IsPair, Entry, Quoted, Fill, Braces, JsonString, U, W.Spell;
    if s.detailed {
      HoleMember(W.WDetails, 0, texts, "details");
    } else {
      NullFilled(texts);
      Member(W.WDetails, FNull, texts, "details", U("null"));
    }
    StringMember(W.WMessage, s.message, texts, "message");
    TagMember(W.WException, texts, "exception");
    StringMember(W.WType, s.name, texts, "type");
  }

  lemma ListNodePairs(s: V.Shape, texts: seq<Text>)
    requires s.SListNode?
    ensures NodePairs(s, texts)
  {
    hide IsPair, Entry, Quoted, Fill, Braces, Brackets, E.Holes, OptionalInt, U, JsonString, W.Spell;
    AllHoles(texts);
    OptionalMember(W.WCycleIndex, s.cycle, texts, "cycleIndex");
    TagMember(W.WListNode, texts, "ListNode");
    Member(W.WValues, FArray(E.Holes(0, |texts|)), texts, "values", Brackets(texts));
  }

  lemma TreeNodePairs(s: V.Shape, texts: seq<Text>)
    requires s.STreeNode? && |texts| == V.Present(s.present)
    ensures NodePairs(s, texts)
  {
    hide IsPair, Entry, Quoted, Fill, Braces, Brackets, E.SlotForms, SlotTexts, U, JsonString, W.Spell;
    SlotsWritten(s.present, 0, texts);
    assert texts[0..] == texts;
    ArrayWritten(E.SlotForms(s.present, 0), texts);
    TagMember(W.WTreeNode, texts, "TreeNode");
    Member(W.WValues, FArray(E.SlotForms(s.present, 0)), texts, "values", Brackets(SlotTexts(s.present, texts)));
  }

  lemma ClassTracePairs(s: V.Shape, texts: seq<Text>)
    requires s.SClassTrace? && V.Arity(s, |texts|)
    ensures NodePairs(s, texts)
  {
    hide IsPair, Entry, Quoted, Fill, Braces, Brackets, JsonString, E.OperationForms, E.Holes, OperationTexts, U, W.Spell;
    HolesWritten(0, s.arguments, texts);
    assert texts[0..0 + s.arguments] == texts[..s.arguments];
    OperationsWritten(s.operations, s.arguments, texts);
    ArrayWritten(E.OperationForms(s.operations, s.arguments), texts);
    StringMember(W.WClassName, s.name, texts, "className");
    Member(W.WConstructor, FArray(E.Holes(0, s.arguments)), texts, "constructor", Brackets(texts[..s.arguments]));
    Member(W.WOperations, FArray(E.OperationForms(s.operations, s.arguments)), texts, "operations",
           Brackets(OperationTexts(s.operations, texts[s.arguments..])));
    TagMember(W.WClassTrace, texts, "ClassTrace");
  }

  lemma NodeOrder(s: V.Shape, n: nat)
    ensures Alphabetical(E.NodeFields(s, n))
  {
    ItemOrders();
    NodeOrders();
    TraceOrders();
    hide Before, W.Spell, U, E.Holes, E.EntryForms, E.RecordFieldForms, E.SlotForms, E.OperationForms;
  }

  lemma NodeIsPairs(s: V.Shape, texts: seq<Text>)
    requires V.Arity(s, |texts|)
    ensures NodePairs(s, texts)
  {
    hide NodePairs;
    match s
    case SList(_) => ItemsPairs(s, texts);
    case SSet(_) => ItemsPairs(s, texts);
    case SDict => DictPairs(texts);
    case SComplex => ComplexPairs(texts);
    case SEnum(_, _) => EnumPairs(s, texts);
    case SRecord(_, _, _) => RecordPairs(s, texts);
    case SException(_, _, _) => ExceptionPairs(s, texts);
    case SListNode(_) => ListNodePairs(s, texts);
    case STreeNode(_) => TreeNodePairs(s, texts);
    case SClassTrace(_, _, _) => ClassTracePairs(s, texts);
  }

  lemma NodeWritten(s: V.Shape, texts: seq<Text>)
    requires V.Arity(s, |texts|)
    ensures Fill(FObject(E.NodeFields(s, |texts|)), texts) == Braces(NodeParts(s, texts))
  {
    hide NodeParts, E.NodeFields, Alphabetical, ArePairs, Fill, Braces, V.Arity;
    NodeIsPairs(s, texts);
    NodeOrder(s, |texts|);
    ObjectWritten(E.NodeFields(s, |texts|), texts, NodeParts(s, texts));
  }

  // ---- the wire format is the encoder's and the decoder's -----------------------------------

  lemma {:induction false} CanonIsTyped(v: Value)
    requires Canon(v)
    ensures Typed(v)
  {
    if v.Node? {
      forall i | 0 <= i < |v.kids| ensures Typed(v.kids[i]) {
        CanonIsTyped(v.kids[i]);
      }
    }
  }

  lemma {:induction false} TextIsWire(v: Value)
    requires Canon(v)
    ensures Typed(v) && TextOf(v) == WireText(v)
    decreases v, 1
  {
    CanonIsTyped(v);
    if v.Leaf? {
      LeafWritten(v.leaf);
      FillIsPrint(FObject(E.LeafFields(v.leaf)), []);
    } else {
      TextsAreWire(v.kids);
      NodeWritten(v.shape, WireTexts(v.kids));
      FillIsPrint(FObject(E.NodeFields(v.shape, |v.kids|)), TreesOf(v.kids));
    }
  }

  lemma {:induction false} TextsAreWire(vs: seq<Value>)
    requires forall i | 0 <= i < |vs| :: Canon(vs[i]) && Typed(vs[i])
    ensures TextsOf(vs) == WireTexts(vs)
    decreases vs, 0
  {
    if vs != [] {
      TextIsWire(vs[0]);
      TextsAreWire(vs[1..]);
    }
  }

  /** The encoder writes the wire text of the normal form, which for a canonical value is the value itself. */
  lemma WireTextIsWritten(v: Value)
    requires E.Enc(v).Some?
    ensures Typed(Norm(v)) && E.Enc(v).value == WireText(Norm(v))
    ensures Canon(v) ==> Norm(v) == v
  {
    EncWritesNorm(v);
    TextIsWire(Norm(v));
    if Canon(v) {
      CanonIsFixed(v);
    }
  }

  /** The decoder reads the wire text of every canonical value, exactly within its own limits. */
  lemma WireTextIsRead(v: Value)
    requires Canon(v)
    ensures Typed(v) && E.Enc(v) == Some(WireText(v))
    ensures K.Decode(WireText(v)) == if V.Within(v, V.Decoder) && K.Named(v) then Some(v) else None
  {
    TextIsWire(v);
    CanonIsFixed(v);
    K.DecodeCanon(v);
  }

  // ---- some of it character by character -----------------------------------------------------

  lemma TwoParts(a: Text, b: Text)
    ensures Braces([a, b]) == U("{") + (a + (U(",") + (b + U("}"))))
  {
    assert [a, b][1..] == [b];
    assert Commas([a, b]) == a + (U(",") + b);
  }

  lemma JoinLiterals(a: string, b: string)
    ensures U(a) + U(b) == U(a + b)
  {
  }

  lemma GroupEntry(q: Text, n: Text, c: Text, open: Text, inner: Text, close: Text)
    ensures q + n + q + (c + (open + (inner + close))) == q + n + q + c + open + (inner + close)
  {
  }

  lemma GroupObject(l: Text, a: Text, inner: Text, close: Text, k: Text, b: Text, last: Text)
    ensures l + (a + (inner + close) + (k + (b + last))) == l + a + (inner + (close + k + b + last))
  {
  }

  lemma TagText(tag: string, rest: string)
    requires rest == "],\"tag\":\"" + tag + "\"}"
    ensures U("]") + U(",") + Entry("tag", Quoted(tag)) + U("}") == U(rest)
  {
    hide U;
    var word, name := "\"" + tag + "\"", "\"" + "tag" + "\"";
    JoinLiterals("\"", tag);
    JoinLiterals("\"" + tag, "\"");
    JoinLiterals("\"", "tag");
    JoinLiterals("\"" + "tag", "\"");
    JoinLiterals(":", word);
    JoinLiterals(name, ":" + word);
    assert Entry("tag", Quoted(tag)) == U(name + (":" + word));
    JoinLiterals("]", ",");
    JoinLiterals("]" + ",", name + (":" + word));
    JoinLiterals("]" + "," + (name + (":" + word)), "}");
    assert "]" + "," + (name + (":" + word)) + "}" == rest;
  }

  lemma ItemsText(tag: string, texts: seq<Text>, rest: string)
    requires rest == "],\"tag\":\"" + tag + "\"}"
    ensures Braces([Entry("items", Brackets(texts)), Entry("tag", Quoted(tag))])
         == U("{\"items\":[") + (Commas(texts) + U(rest))
  {
    hide Commas, U;
    var q, inner := U("\""), Commas(texts);
    var start := q + U("items") + q + U(":") + U("[");
    TwoParts(Entry("items", Brackets(texts)), Entry("tag", Quoted(tag)));
    GroupEntry(q, U("items"), U(":"), U("["), inner, U("]"));
    assert Entry("items", Brackets(texts)) == start + (inner + U("]"));
    TagText(tag, rest);
    hide Entry;
    GroupObject(U("{"), start, inner, U("]"), U(","), Entry("tag", Quoted(tag)), U("}"));
    ItemsStart();
  }

  lemma ItemsStart()
    ensures U("{") + (U("\"") + U("items") + U("\"") + U(":") + U("[")) == U("{\"items\":[")
  {
  }

  function SequenceEnd(s: V.Shape): string
    requires s.SList? || s.SSet?
  {
    if s.SList? then if s.tuple then "],\"tag\":\"tuple\"}" else "],\"tag\":\"list\"}"
    else if s.frozen then "],\"tag\":\"frozenset\"}" else "],\"tag\":\"set\"}"
  }

  /** Lists, tuples, sets and frozen sets, with their sub-texts joined by commas. */
  lemma SequencesAreWritten(s: V.Shape, vs: seq<Value>)
    requires s.SList? || s.SSet?
    requires forall i | 0 <= i < |vs| :: Typed(vs[i])
    ensures WireText(V.Node(s, vs)) == U("{\"items\":[") + (Commas(WireTexts(vs)) + U(SequenceEnd(s)))
  {
    hide Braces, Brackets, Entry, Quoted, Commas, WireTexts, U, SequenceEnd;
    var tag := if s.SList? then if s.tuple then "tuple" else "list" else if s.frozen then "frozenset" else "set";
    EndIs(s, tag);
    ItemsText(tag, WireTexts(vs), SequenceEnd(s));
  }

  lemma EndIs(s: V.Shape, tag: string)
    requires s.SList? || s.SSet?
    requires tag == if s.SList? then if s.tuple then "tuple" else "list" else if s.frozen then "frozenset" else "set"
    ensures SequenceEnd(s) == "],\"tag\":\"" + tag + "\"}"
  {
  }

  /** Integers are written in positional decimal notation. */
  lemma DecimalNotation(n: int, d: nat)
    requires d < 10
    ensures N.Decimal(d) == ['0' as int + d]
    ensures n > 0 ==> N.Decimal(10 * n + d) == N.Decimal(n) + ['0' as int + d]
    ensures n > 0 ==> N.Decimal(-n) == U("-") + N.Decimal(n)
  {
    assert U("-") == [MINUS];
    if n > 0 {
      assert (10 * n + d) / 10 == n && (10 * n + d) % 10 == d;
    }
  }
}
