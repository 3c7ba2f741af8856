/**
 The visible half of JSON printing: string quoting as ECMA-262's QuoteJSONString
 (section 25.5.2.3) does it, and compact documents as the codec joins them.
 */
module JsonPrinter {
  import opened Unicode
  import opened Json
  import P = JsonParser
  import D = JsonDocuments

  // ---- quoting -------------------------------------------------------------------

  function HexLetter(d: int): Unit
    requires 0 <= d < 16
  {
    if d < 10 then 0x30 + d else 0x61 + d - 10
  }

  function HexPiece(u: Unit): Piece {
    Hex(HexLetter(u / 0x1000), HexLetter(u / 0x100 % 16), HexLetter(u / 0x10 % 16), HexLetter(u % 16))
  }

  /** The letter of the two-character escape for a unit, or -1. */
  function ShortFor(u: int): int {
    if u == 0x08 then 0x62
    else if u == 0x09 then 0x74
    else if u == 0x0a then 0x6e
    else if u == 0x0c then 0x66
    else if u == 0x0d then 0x72
    else if u == 0x22 || u == 0x5c then u
    else -1
  }

  function PlainPiece(u: Unit): Piece {
    if ShortFor(u) >= 0 then Short(ShortFor(u))
    else if u < 0x20 then HexPiece(u)
    else Raw(u)
  }

  /** Surrogate pairs stay raw; an unpaired surrogate becomes `\udXXX`. */
  function Quote(t: Text): seq<Piece> {
    if t == [] then []
    else if High(t[0]) && |t| > 1 && Low(t[1]) then [Raw(t[0])] + ([Raw(t[1])] + Quote(t[2..]))
    else if High(t[0]) || Low(t[0]) then [HexPiece(t[0])] + Quote(t[1..])
    else [PlainPiece(t[0])] + Quote(t[1..])
  }

  /** `JSON.stringify` of a string. */
  function JsonString(t: Text): Text {
    RenderString(Quote(t))
  }

  lemma HexLetterReads(d: int)
    requires 0 <= d < 16
    ensures HexDigit(HexLetter(d)) == d
  {
  }

  lemma FourDigits(u: nat)
    ensures u == ((u / 0x1000 * 16 + u / 0x100 % 16) * 16 + u / 0x10 % 16) * 16 + u % 16
  {
    assert u / 0x100 == u / 0x10 / 16 && u / 0x1000 == u / 0x100 / 16;
  }

  lemma HexPieceDenotes(u: Unit)
    ensures ValidPiece(HexPiece(u)) && PieceUnit(HexPiece(u)) == u
    ensures WellFormed(RenderPiece(HexPiece(u)))
  {
    HexLetterReads(u / 0x1000);
    HexLetterReads(u / 0x100 % 16);
    HexLetterReads(u / 0x10 % 16);
    HexLetterReads(u % 16);
    NoSurrogates(RenderPiece(HexPiece(u)));
    FourDigits(u);
    hide HexLetter, HexDigit;
  }

  lemma PlainPieceDenotes(u: Unit)
    requires !High(u) && !Low(u)
    ensures ValidPiece(PlainPiece(u)) && PieceUnit(PlainPiece(u)) == u
    ensures WellFormed(RenderPiece(PlainPiece(u)))
  {
    HexPieceDenotes(u);
    hide HexPiece;
    var r := RenderPiece(PlainPiece(u));
    if !PlainPiece(u).Hex? {
      NoSurrogates(r);
    }
  }

  lemma ConsDenotes(p: Piece, ps: seq<Piece>, u: Unit, t: Text)
    requires ValidPiece(p) && PieceUnit(p) == u && ValidPieces(ps) && PiecesText(ps) == t
    ensures ValidPieces([p] + ps) && PiecesText([p] + ps) == [u] + t
    ensures RenderPieces([p] + ps) == RenderPiece(p) + RenderPieces(ps)
  {
    assert ([p] + ps)[1..] == ps;
  }

  /** Quoting is undone by reading: the pieces are legal and denote the text they were made from. */
  lemma {:induction false} QuoteDenotes(t: Text)
    ensures ValidPieces(Quote(t)) && PiecesText(Quote(t)) == t
    ensures WellFormed(RenderPieces(Quote(t)))
  {
    if t == [] {
    } else if High(t[0]) && |t| > 1 && Low(t[1]) {
      var rest := Quote(t[2..]);
      QuoteDenotes(t[2..]);
      ConsDenotes(Raw(t[1]), rest, t[1], t[2..]);
      ConsDenotes(Raw(t[0]), [Raw(t[1])] + rest, t[0], [t[1]] + t[2..]);
      assert t == [t[0]] + ([t[1]] + t[2..]);
      assert RenderPieces(Quote(t))[2..] == RenderPieces(rest);
    } else {
      var lone := High(t[0]) || Low(t[0]);
      var p := if lone then HexPiece(t[0]) else PlainPiece(t[0]);
      QuoteDenotes(t[1..]);
      if lone {
        HexPieceDenotes(t[0]);
      } else {
        PlainPieceDenotes(t[0]);
      }
      hide HexPiece, PlainPiece;
      ConsDenotes(p, Quote(t[1..]), t[0], t[1..]);
      assert t == [t[0]] + t[1..];
      WellFormedConcat(RenderPiece(p), RenderPieces(Quote(t[1..])));
    }
  }

  // ---- the Python serializer -------------------------------------------------------

  type CodePoint = c: int | 0 <= c < 0x110000

  function UnitsOf(c: CodePoint): Text {
    if c < 0x10000 then [c] else Units(c)
  }

  /** The UTF-16 units of a Python string. */
  function Flatten(cs: seq<CodePoint>): Text {
    if cs == [] then [] else UnitsOf(cs[0]) + Flatten(cs[1..])
  }

  function PlainPieces(t: Text): seq<Piece> {
    if t == [] then [] else [PlainPiece(t[0])] + PlainPieces(t[1..])
  }

  lemma {:induction false} FlattenConcat(a: seq<CodePoint>, b: seq<CodePoint>)
    ensures Flatten(a + b) == Flatten(a) + Flatten(b)
  {
    hide UnitsOf, Units;
    if a == [] {
      assert a + b == b;
    } else {
      FlattenConcat(a[1..], b);
      assert (a + b)[1..] == a[1..] + b;
      assert (a + b)[0] == a[0];
    }
  }

  lemma {:induction false} FlattenSmall(t: Text)
    ensures Flatten(t) == t
  {
    if t != [] {
      FlattenSmall(t[1..]);
      assert t == [t[0]] + t[1..];
    }
  }

  lemma {:induction false} PlainPiecesConcat(a: Text, b: Text)
    ensures RenderPieces(PlainPieces(a + b)) == RenderPieces(PlainPieces(a)) + RenderPieces(PlainPieces(b))
  {
    hide PlainPiece, RenderPiece;
    if a == [] {
      assert a + b == b;
    } else {
      PlainPiecesConcat(a[1..], b);
      assert (a + b)[1..] == a[1..] + b;
      assert PlainPieces(a)[1..] == PlainPieces(a[1..]);
      assert PlainPieces(a + b)[1..] == PlainPieces(a[1..] + b);
    }
  }

  lemma PlainPiecesOne(u: Unit)
    ensures RenderPieces(PlainPieces([u])) == RenderPiece(PlainPiece(u))
  {
    assert PlainPieces([u]) == [PlainPiece(u)];
    assert RenderPieces([PlainPiece(u)]) == RenderPiece(PlainPiece(u)) + [];
  }

  lemma PlainUnits(c: CodePoint)
    requires c >= 0x10000
    ensures RenderPieces(PlainPieces(UnitsOf(c))) == UnitsOf(c)
  {
    var us := UnitsOf(c);
    PlainPiecesOne(us[0]);
    PlainPiecesOne(us[1]);
    assert us == [us[0]] + [us[1]];
    PlainPiecesConcat([us[0]], [us[1]]);
  }

  /** What the loop of `json_string` appends for one character. */
  function QuotedChar(c: CodePoint): seq<CodePoint> {
    if c < 0x10000 then RenderPiece(PlainPiece(c)) else [c]
  }

  lemma QuotedCharUnits(c: CodePoint)
    ensures Flatten(QuotedChar(c)) == RenderPieces(PlainPieces(UnitsOf(c)))
  {
    if c < 0x10000 {
      FlattenSmall(RenderPiece(PlainPiece(c)));
      PlainPiecesOne(c);
    } else {
      FlattenOne(c);
      PlainUnits(c);
    }
  }

  lemma QuotedStep(value: seq<CodePoint>, i: nat, out: seq<CodePoint>)
    requires i < |value| && Flatten(out) == [QUOTE] + RenderPieces(PlainPieces(Flatten(value[..i])))
    ensures Flatten(out + QuotedChar(value[i])) == [QUOTE] + RenderPieces(PlainPieces(Flatten(value[..i + 1])))
  {
    hide QuotedChar, PlainPiece, Units, UnitsOf, Flatten, RenderPieces, PlainPieces;
    var c := value[i];
    QuotedCharUnits(c);
    FlattenOne(c);
    assert value[..i + 1] == value[..i] + [c];
    FlattenConcat(out, QuotedChar(c));
    FlattenConcat(value[..i], [c]);
    PlainPiecesConcat(Flatten(value[..i]), UnitsOf(c));
  }

  /** `json_string` works on code points; seen as UTF-16 it escapes unit by unit. */
  method PythonJsonString(value: seq<CodePoint>) returns (out: seq<CodePoint>)
    ensures Flatten(out) == RenderString(PlainPieces(Flatten(value)))
  {
    out := [QUOTE];
    FlattenOne(QUOTE);
    assert value[..0] == [];
    assert Flatten(out) == [QUOTE] + RenderPieces(PlainPieces(Flatten(value[..0])));
    hide Units, UnitsOf, PlainPieces, RenderPieces, Flatten;
    var i := 0;
    while i < |value|
      invariant 0 <= i <= |value|
      invariant Flatten(out) == [QUOTE] + RenderPieces(PlainPieces(Flatten(value[..i])))
    {
      QuotedStep(value, i, out);
      var code := value[i];
      if ShortFor(code) >= 0 {
        out := out + [BACKSLASH, ShortFor(code)];
      } else if code < 0x20 {
        out := out + RenderPiece(HexPiece(code));
      } else {
        out := out + [code];
      }
      i := i + 1;
    }
    assert value[..|value|] == value;
    FlattenConcat(out, [QUOTE]);
    FlattenOne(QUOTE);
    out := out + [QUOTE];
  }

  lemma FlattenOne(c: CodePoint)
    ensures Flatten([c]) == UnitsOf(c)
  {
    assert Flatten([c][1..]) == [];
  }

  lemma {:induction false} PlainIsShorter(t: Text)
    ensures |RenderPieces(PlainPieces(t))| <= |RenderPieces(Quote(t))|
    ensures WellFormed(t) ==> PlainPieces(t) == Quote(t)
    ensures !WellFormed(t) ==> |RenderPieces(PlainPieces(t))| < |RenderPieces(Quote(t))|
  {
    if t == [] {
    } else if High(t[0]) && |t| > 1 && Low(t[1]) {
      PlainIsShorter(t[2..]);
      assert PlainPieces(t) == [Raw(t[0])] + ([Raw(t[1])] + PlainPieces(t[2..]));
      RenderTwo(Raw(t[0]), Raw(t[1]), PlainPieces(t[2..]));
      RenderTwo(Raw(t[0]), Raw(t[1]), Quote(t[2..]));
    } else {
      PlainIsShorter(t[1..]);
      assert PlainPieces(t)[1..] == PlainPieces(t[1..]) && Quote(t)[1..] == Quote(t[1..]);
    }
  }

  lemma RenderTwo(p: Piece, q: Piece, rest: seq<Piece>)
    ensures RenderPieces([p] + ([q] + rest)) == RenderPiece(p) + (RenderPiece(q) + RenderPieces(rest))
  {
    assert ([p] + ([q] + rest))[1..] == [q] + rest;
    assert ([q] + rest)[1..] == rest;
  }

  /** The Python and the JavaScript serializer agree exactly on strings without lone surrogates. */
  lemma SerializersAgreeIffWellFormed(t: Text)
    ensures RenderString(PlainPieces(t)) == JsonString(t) <==> WellFormed(t)
  {
    PlainIsShorter(t);
  }

  // ---- compact documents -------------------------------------------------------------

  /** `parts.join(",")` */
  function Join(parts: seq<Text>): Text {
    if parts == [] then []
    else if |parts| == 1 then parts[0]
    else parts[0] + ([COMMA] + Join(parts[1..]))
  }

  function ArrayText(parts: seq<Text>): Text {
    [OPEN_BRACKET] + (Join(parts) + [CLOSE_BRACKET])
  }

  function PairText(key: Text, value: Text): Text {
    JsonString(key) + ([COLON] + value)
  }

  function ObjectText(parts: seq<Text>): Text {
    [OPEN_BRACE] + (Join(parts) + [CLOSE_BRACE])
  }

  function Print(j: Json): Text
    decreases j, 1
  {
    match j
    case JNull => U("null")
    case JBool(b) => if b then U("true") else U("false")
    case JNumber(raw) => raw
    case JString(t) => JsonString(t)
    case JArray(items) => ArrayText(PrintItems(items))
    case JObject(ms) => ObjectText(PrintMembers(ms))
  }

  function PrintItems(items: seq<Json>): (r: seq<Text>)
    ensures |r| == |items|
    decreases items, 0
  {
    if items == [] then [] else [Print(items[0])] + PrintItems(items[1..])
  }

  function PrintMembers(ms: seq<Member>): (r: seq<Text>)
    ensures |r| == |ms|
    decreases ms, 0
  {
    if ms == [] then [] else [PairText(ms[0].key, Print(ms[0].value))] + PrintMembers(ms[1..])
  }

  /** The tree written with no white space and canonical escapes. */
  function Compact(j: Json): Con
    decreases j, 1
  {
    match j
    case JNull => CNull
    case JBool(b) => CBool(b)
    case JNumber(raw) => CNumber(raw)
    case JString(t) => CString(Quote(t))
    case JArray(items) => CArray([], CompactItems(items))
    case JObject(ms) => CObject([], CompactMembers(ms))
  }

  function CompactItems(items: seq<Json>): (r: seq<Elem>)
    ensures |r| == |items|
    decreases items, 0
  {
    if items == [] then [] else [Elem([], Compact(items[0]), [])] + CompactItems(items[1..])
  }

  function CompactMembers(ms: seq<Member>): (r: seq<Field>)
    ensures |r| == |ms|
    decreases ms, 0
  {
    if ms == [] then []
    else [Field([], Quote(ms[0].key), [], [], Compact(ms[0].value), [])] + CompactMembers(ms[1..])
  }

  lemma {:induction false} PrintIsRender(j: Json)
    ensures Print(j) == Render(Compact(j))
    decreases j, 1
  {
    match j
    case JArray(items) =>
      if items != [] {
        ItemsRender(items);
      }
    case JObject(ms) =>
      if ms != [] {
        MembersRender(ms);
      }
    case _ =>
  }

  lemma {:induction false} ItemsRender(items: seq<Json>)
    requires items != []
    ensures Join(PrintItems(items)) + [CLOSE_BRACKET] == RenderElems(CompactItems(items))
    decreases items, 0
  {
    PrintIsRender(items[0]);
    var es, parts := CompactItems(items), PrintItems(items);
    assert ElemText(es[0], parts[0], MoreElems(es)) == parts[0] + MoreElems(es);
    if |items| > 1 {
      ItemsRender(items[1..]);
      assert es[1..] == CompactItems(items[1..]) && parts[1..] == PrintItems(items[1..]);
      assert Join(parts) + [CLOSE_BRACKET] == parts[0] + ([COMMA] + (Join(parts[1..]) + [CLOSE_BRACKET]));
    }
  }

  lemma {:induction false} MembersRender(ms: seq<Member>)
    requires ms != []
    ensures Join(PrintMembers(ms)) + [CLOSE_BRACE] == RenderFields(CompactMembers(ms))
    decreases ms, 0
  {
    hide Quote, RenderString;
    PrintIsRender(ms[0].value);
    var fs, parts := CompactMembers(ms), PrintMembers(ms);
    var key, value := JsonString(ms[0].key), Print(ms[0].value);
    assert FieldText(fs[0], key, value, MoreFields(fs)) == parts[0] + MoreFields(fs);
    if |ms| > 1 {
      MembersRender(ms[1..]);
      assert fs[1..] == CompactMembers(ms[1..]) && parts[1..] == PrintMembers(ms[1..]);
      assert Join(parts) + [CLOSE_BRACE] == parts[0] + ([COMMA] + (Join(parts[1..]) + [CLOSE_BRACE]));
    }
  }

  /** A tree a JSON document can denote, nested at `depth`. */
  ghost predicate Printable(j: Json, depth: int)
    decreases j
  {
    match j
    case JNumber(raw) => IsNumber(raw)
    case JArray(items) =>
      depth < MAX_STRUCTURAL_DEPTH && forall i | 0 <= i < |items| :: Printable(items[i], depth + 1)
    case JObject(ms) =>
      depth < MAX_STRUCTURAL_DEPTH && DistinctKeys(ms)
      && forall i | 0 <= i < |ms| :: Printable(ms[i].value, depth + 1)
    case _ => true
  }

  lemma {:induction false} CompactDenotes(j: Json, depth: int)
    requires Printable(j, depth)
    ensures Valid(Compact(j), depth) && Value(Compact(j)) == j
    decreases j, 1
  {
    match j
    case JString(t) => QuoteDenotes(t);
    case JArray(items) => ItemsDenote(items, depth + 1);
    case JObject(ms) => MembersDenote(ms, depth + 1);
    case _ =>
  }

  lemma {:induction false} ItemsDenote(items: seq<Json>, depth: int)
    requires forall i | 0 <= i < |items| :: Printable(items[i], depth)
    ensures ValidElems(CompactItems(items), depth) && ElemValues(CompactItems(items)) == items
    decreases items, 0
  {
    if items != [] {
      CompactDenotes(items[0], depth);
      ItemsDenote(items[1..], depth);
      assert CompactItems(items)[1..] == CompactItems(items[1..]);
    }
  }

  lemma {:induction false} MembersDenote(ms: seq<Member>, depth: int)
    requires forall i | 0 <= i < |ms| :: Printable(ms[i].value, depth)
    ensures ValidFields(CompactMembers(ms), depth) && FieldMembers(CompactMembers(ms)) == ms
    decreases ms, 0
  {
    if ms != [] {
      hide Quote, Printable;
      CompactDenotes(ms[0].value, depth);
      QuoteDenotes(ms[0].key);
      MembersDenote(ms[1..], depth);
      assert CompactMembers(ms)[1..] == CompactMembers(ms[1..]);
      assert ms[0] == Member(ms[0].key, ms[0].value);
      assert ms == [ms[0]] + ms[1..];
    }
  }

  /** The strict parser undoes the printer. */
  lemma PrintParses(j: Json)
    requires Printable(j, 0)
    ensures P.ParseDocument(Print(j)) == P.Done(j, |Print(j)|)
  {
    hide Render, Value, Valid, P.ParseDocument, Print, Compact, Printable;
    CompactDenotes(j, 0);
    PrintIsRender(j);
    var none: Text, c := [], Compact(j);
    assert AllSpace(none) && Print(j) == none + (Render(c) + none) && Value(c) == j;
    assert D.Denotes(Print(j), j);
    D.ParserIsTheGrammar(Print(j), j);
  }

  /** However deep it nests, a printed tree is read as itself or not at all. */
  lemma PrintParsesOrFails(j: Json, room: int)
    requires room <= 0 && Printable(j, room) && P.ParseDocument(Print(j)).Done?
    ensures P.ParseDocument(Print(j)).value == j
  {
    hide Render, Value, Valid, P.ParseDocument, Print, Compact, Printable;
    CompactDenotes(j, room);
    PrintIsRender(j);
    D.DeepTextIsNeverMisread(Compact(j), room);
  }

  // ---- the printed text is well-formed UTF-16 -------------------------------------------

  lemma NumberWellFormed(raw: Text)
    requires IsNumber(raw)
    ensures WellFormed(raw)
  {
    var s, i, f, e :| NumberParts(raw, s, i, f, e);
    NoSurrogates(s);
    NoSurrogates(i);
    PartWellFormed(f);
    PartWellFormed(e);
    WellFormedConcat(s, i);
    WellFormedConcat(s + i, f);
    WellFormedConcat(s + i + f, e);
  }

  lemma PartWellFormed(t: Text)
    requires IsFraction(t) || IsExponent(t)
    ensures WellFormed(t)
  {
    forall i | 0 <= i < |t| ensures !High(t[i]) && !Low(t[i]) {
      if i > 1 {
        assert t[i] == t[1..][i - 1] == t[2..][i - 2];
      } else if i == 1 {
        assert t[i] == t[1..][0];
      }
    }
    NoSurrogates(t);
  }

  lemma JsonStringWellFormed(t: Text)
    ensures WellFormed(JsonString(t))
  {
    QuoteDenotes(t);
    NoSurrogates([QUOTE]);
    WellFormedConcat([QUOTE], RenderPieces(Quote(t)));
    WellFormedConcat([QUOTE] + RenderPieces(Quote(t)), [QUOTE]);
  }

  lemma {:induction false} JoinWellFormed(parts: seq<Text>)
    requires forall i | 0 <= i < |parts| :: WellFormed(parts[i])
    ensures WellFormed(Join(parts))
  {
    if |parts| > 1 {
      JoinWellFormed(parts[1..]);
      NoSurrogates([COMMA]);
      WellFormedConcat([COMMA], Join(parts[1..]));
      WellFormedConcat(parts[0], [COMMA] + Join(parts[1..]));
    }
  }

  lemma BracketsWellFormed(open: Unit, inner: Text, close: Unit)
    requires WellFormed(inner) && open < 0x80 && close < 0x80
    ensures WellFormed([open] + (inner + [close]))
  {
    NoSurrogates([open]);
    NoSurrogates([close]);
    WellFormedConcat(inner, [close]);
    WellFormedConcat([open], inner + [close]);
  }

  lemma PairWellFormed(key: Text, value: Text)
    requires WellFormed(value)
    ensures WellFormed(PairText(key, value))
  {
    JsonStringWellFormed(key);
    NoSurrogates([COLON]);
    WellFormedConcat([COLON], value);
    WellFormedConcat(JsonString(key), [COLON] + value);
  }

  /** Legal numbers and unique keys throughout, whatever the nesting. */
  ghost predicate Sound(j: Json) {
    match j
    case JNumber(raw) => IsNumber(raw)
    case JArray(items) => forall i | 0 <= i < |items| :: Sound(items[i])
    case JObject(ms) => DistinctKeys(ms) && forall i | 0 <= i < |ms| :: Sound(ms[i].value)
    case _ => true
  }

  /** How deep a parser has to descend. */
  function Nesting(j: Json): nat
    decreases j, 1
  {
    match j
    case JArray(items) => 1 + ItemsNesting(items)
    case JObject(ms) => 1 + MembersNesting(ms)
    case _ => 0
  }

  function Max(a: nat, b: nat): nat {
    if a < b then b else a
  }

  function ItemsNesting(items: seq<Json>): nat
    decreases items, 0
  {
    if items == [] then 0 else Max(Nesting(items[0]), ItemsNesting(items[1..]))
  }

  function MembersNesting(ms: seq<Member>): nat
    decreases ms, 0
  {
    if ms == [] then 0 else Max(Nesting(ms[0].value), MembersNesting(ms[1..]))
  }

  lemma {:induction false} ItemNesting(items: seq<Json>, i: nat)
    requires i < |items|
    ensures Nesting(items[i]) <= ItemsNesting(items)
  {
    if i > 0 {
      ItemNesting(items[1..], i - 1);
    }
  }

  lemma {:induction false} MemberNesting(ms: seq<Member>, i: nat)
    requires i < |ms|
    ensures Nesting(ms[i].value) <= MembersNesting(ms)
  {
    if i > 0 {
      MemberNesting(ms[1..], i - 1);
    }
  }

  lemma {:induction false} SoundIsPrintable(j: Json, depth: int)
    requires Sound(j) && depth + Nesting(j) <= MAX_STRUCTURAL_DEPTH
    ensures Printable(j, depth)
    decreases j
  {
    match j
    case JArray(items) =>
      forall i | 0 <= i < |items| ensures Printable(items[i], depth + 1) {
        ItemNesting(items, i);
        SoundIsPrintable(items[i], depth + 1);
      }
    case JObject(ms) =>
      forall i | 0 <= i < |ms| ensures Printable(ms[i].value, depth + 1) {
        MemberNesting(ms, i);
        assert ms[i] < j && ms[i].value < ms[i];
        SoundIsPrintable(ms[i].value, depth + 1);
      }
    case _ =>
  }

  lemma PrintReads(j: Json, room: int)
    requires Printable(j, room)
    ensures P.ParseValue(Print(j), 0, room) == P.Done(j, |Print(j)|)
  {
    hide Render, Value, Valid, P.ParseValue, Print, Compact, Printable;
    CompactDenotes(j, room);
    PrintIsRender(j);
    D.ValueReads(Print(j), 0, Compact(j), room);
  }

  /** Different trees are printed differently, however deep they nest. */
  lemma PrintIsInjective(j: Json, k: Json)
    requires Sound(j) && Sound(k) && Print(j) == Print(k)
    ensures j == k
  {
    hide Print, Sound, Nesting, Printable, P.ParseValue;
    var room := MAX_STRUCTURAL_DEPTH - Max(Nesting(j), Nesting(k));
    SoundIsPrintable(j, room);
    SoundIsPrintable(k, room);
    PrintReads(j, room);
    PrintReads(k, room);
  }

  lemma {:induction false} PrintWellFormed(j: Json)
    requires Sound(j)
    ensures WellFormed(Print(j))
    decreases j, 1
  {
    match j
    case JNull => NoSurrogates(Print(j));
    case JBool(b) => NoSurrogates(Print(j));
    case JNumber(raw) => NumberWellFormed(raw);
    case JString(t) => JsonStringWellFormed(t);
    case JArray(items) =>
      ItemsWellFormed(items);
      JoinWellFormed(PrintItems(items));
      BracketsWellFormed(OPEN_BRACKET, Join(PrintItems(items)), CLOSE_BRACKET);
    case JObject(ms) =>
      MembersWellFormed(ms);
      JoinWellFormed(PrintMembers(ms));
      BracketsWellFormed(OPEN_BRACE, Join(PrintMembers(ms)), CLOSE_BRACE);
  }

  lemma {:induction false} ItemsWellFormed(items: seq<Json>)
    requires forall i | 0 <= i < |items| :: Sound(items[i])
    ensures forall i | 0 <= i < |items| :: WellFormed(PrintItems(items)[i])
    decreases items, 0
  {
    if items != [] {
      PrintWellFormed(items[0]);
      ItemsWellFormed(items[1..]);
    }
  }

  lemma {:induction false} MembersWellFormed(ms: seq<Member>)
    requires forall i | 0 <= i < |ms| :: Sound(ms[i].value)
    ensures forall i | 0 <= i < |ms| :: WellFormed(PrintMembers(ms)[i])
    decreases ms, 0
  {
    if ms != [] {
      PrintWellFormed(ms[0].value);
      PairWellFormed(ms[0].key, Print(ms[0].value));
      hide PairText, Sound;
      MembersWellFormed(ms[1..]);
    }
  }

  // ---- documents are sound ---------------------------------------------------------------

  lemma {:induction false} ValueIsSound(c: Con, depth: int)
    requires Valid(c, depth)
    ensures Sound(Value(c))
    decreases c, 1
  {
    match c
    case CArray(_, es) => ElemsAreSound(es, depth + 1);
    case CObject(_, fs) => FieldsAreSound(fs, depth + 1);
    case _ =>
  }

  lemma {:induction false} ElemsAreSound(es: seq<Elem>, depth: int)
    requires ValidElems(es, depth)
    ensures forall i | 0 <= i < |es| :: Sound(ElemValues(es)[i])
    decreases es, 0
  {
    if es != [] {
      ValueIsSound(es[0].value, depth);
      ElemsAreSound(es[1..], depth);
    }
  }

  lemma {:induction false} FieldsAreSound(fs: seq<Field>, depth: int)
    requires ValidFields(fs, depth)
    ensures forall i | 0 <= i < |fs| :: Sound(FieldMembers(fs)[i].value)
    decreases fs, 0
  {
    if fs != [] {
      ValueIsSound(fs[0].value, depth);
      FieldsAreSound(fs[1..], depth);
    }
  }

  lemma DocumentIsSound(t: Text, j: Json)
    requires D.Denotes(t, j)
    ensures Sound(j)
  {
    var before, c, after :| AllSpace(before) && AllSpace(after) && Valid(c, 0) && t == before + (Render(c) + after) && Value(c) == j;
    ValueIsSound(c, 0);
  }
}
