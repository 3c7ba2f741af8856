/** The JSON format as literal characters: what the parser reads and the serializers write, character by character. */
module JsonLiterals {
  import opened Unicode
  import opened Json
  import opened JsonPrinter
  import P = JsonParser
  import D = JsonDocuments
  import S = JsonSyntax

  // ---- reading string literals -------------------------------------------------------------

  /** The document is a string literal with this value. */
  ghost predicate Reads(t: Text, value: Text) {
    P.ParseDocument(t) == P.Done(JString(value), |t|)
  }

  lemma PiecesRead(ps: seq<Piece>)
    requires ValidPieces(ps)
    ensures Reads(RenderString(ps), PiecesText(ps))
  {
    var c := CString(ps);
    assert [] + (Render(c) + []) == RenderString(ps);
    D.DocumentReads(RenderString(ps), [], c, []);
  }

  lemma OnePiece(p: Piece)
    requires ValidPiece(p)
    ensures Reads([QUOTE] + RenderPiece(p) + [QUOTE], [PieceUnit(p)])
  {
    PiecesRead([p]);
    SinglePiece(p);
    hide Reads;
  }

  lemma SinglePiece(p: Piece)
    requires ValidPiece(p)
    ensures RenderString([p]) == [QUOTE] + RenderPiece(p) + [QUOTE] && PiecesText([p]) == [PieceUnit(p)]
  {
    assert [p][1..] == [];
    assert RenderPieces([p]) == RenderPiece(p) + [] == RenderPiece(p);
    assert PiecesText([p]) == [PieceUnit(p)] + [] == [PieceUnit(p)];
  }

  lemma ShortRead(letter: Unit, unit: Unit)
    requires ShortEscape(letter) == unit
    ensures Reads([QUOTE, BACKSLASH, letter, QUOTE], [unit])
  {
    OnePiece(Short(letter));
    assert [QUOTE] + [BACKSLASH, letter] + [QUOTE] == [QUOTE, BACKSLASH, letter, QUOTE];
  }

  /** The eight two-character escapes. */
  lemma ShortEscapesAreRead()
    ensures Reads(U("\"\\\"\""), ['"' as int]) && Reads(U("\"\\\\\""), ['\\' as int]) && Reads(U("\"\\/\""), ['/' as int])
    ensures Reads(U("\"\\b\""), [0x08]) && Reads(U("\"\\f\""), [0x0c]) && Reads(U("\"\\n\""), [0x0a])
    ensures Reads(U("\"\\r\""), [0x0d]) && Reads(U("\"\\t\""), [0x09])
  {
    hide Reads;
    ShortRead('"' as int, '"' as int);
    ShortRead('\\' as int, '\\' as int);
    ShortRead('/' as int, '/' as int);
    ShortRead('b' as int, 0x08);
    ShortRead('f' as int, 0x0c);
    ShortRead('n' as int, 0x0a);
    ShortRead('r' as int, 0x0d);
    ShortRead('t' as int, 0x09);
    assert U("\"\\\"\"") == [QUOTE, BACKSLASH, '"' as int, QUOTE] && U("\"\\\\\"") == [QUOTE, BACKSLASH, '\\' as int, QUOTE];
    assert U("\"\\/\"") == [QUOTE, BACKSLASH, '/' as int, QUOTE] && U("\"\\b\"") == [QUOTE, BACKSLASH, 'b' as int, QUOTE];
    assert U("\"\\f\"") == [QUOTE, BACKSLASH, 'f' as int, QUOTE] && U("\"\\n\"") == [QUOTE, BACKSLASH, 'n' as int, QUOTE];
    assert U("\"\\r\"") == [QUOTE, BACKSLASH, 'r' as int, QUOTE] && U("\"\\t\"") == [QUOTE, BACKSLASH, 't' as int, QUOTE];
  }

  /** After a backslash no other letter is accepted. */
  lemma OtherEscapesAreRefused(letter: Unit, rest: Text)
    requires letter != '"' as int && letter != '\\' as int && letter != '/' as int && letter != 'b' as int && letter != 'f' as int
    requires letter != 'n' as int && letter != 'r' as int && letter != 't' as int && letter != 'u' as int
    ensures P.ParseDocument(['"' as int, '\\' as int, letter] + rest).Abort?
  {
    var t := ['"' as int, '\\' as int, letter] + rest;
    assert t[0] == QUOTE && t[1] == BACKSLASH && t[2] == letter;
    assert P.SkipSpace(t, 0) == 0;
    assert P.ParseEscape(t, 1).Abort?;
    assert P.ParseString(t, 1, []).Abort?;
  }

  /** `0`-`9` and `a`-`f`, or `A`-`F`. */
  function HexChar(digit: nat, upper: bool): Unit
    requires digit < 16
  {
    if digit < 10 then '0' as int + digit else (if upper then 'A' as int else 'a' as int) + (digit - 10)
  }

  /** Four hex digits of either case, the most significant first. */
  lemma HexEscapesAreRead(a: nat, b: nat, c: nat, d: nat, upper: bool)
    requires a < 16 && b < 16 && c < 16 && d < 16
    ensures Reads(['"' as int, '\\' as int, 'u' as int, HexChar(a, upper), HexChar(b, upper), HexChar(c, upper), HexChar(d, upper), '"' as int],
                  [((a * 16 + b) * 16 + c) * 16 + d])
  {
    var p := Hex(HexChar(a, upper), HexChar(b, upper), HexChar(c, upper), HexChar(d, upper));
    OnePiece(p);
    assert [QUOTE] + RenderPiece(p) + [QUOTE]
        == ['"' as int, '\\' as int, 'u' as int, HexChar(a, upper), HexChar(b, upper), HexChar(c, upper), HexChar(d, upper), '"' as int];
  }

  /** Any other character from the space on stands for itself; control characters are refused. */
  lemma PlainCharactersAreRead(u: Unit, rest: Text)
    ensures u >= ' ' as int && u != '"' as int && u != '\\' as int ==> Reads(['"' as int, u, '"' as int], [u])
    ensures u < ' ' as int ==> P.ParseDocument(['"' as int, u] + rest).Abort?
  {
    if u >= ' ' as int && u != '"' as int && u != '\\' as int {
      OnePiece(Raw(u));
      assert [QUOTE] + [u] + [QUOTE] == ['"' as int, u, '"' as int];
    }
    if u < ' ' as int {
      var t := ['"' as int, u] + rest;
      assert t[0] == QUOTE && t[1] == u;
      assert P.SkipSpace(t, 0) == 0;
      assert P.ParseString(t, 1, []).Abort?;
    }
  }

  lemma NoSpaceAround(t: Text, before: Text, middle: Text, after: Text)
    requires t == before + (middle + after) && AllSpace(before) && AllSpace(after)
    requires t != [] && !Space(t[0]) && !Space(t[|t| - 1])
    ensures before == [] && after == [] && middle == t
  {
  }

  lemma LiteralHasPieces(a: Text, x: Text) returns (ps: seq<Piece>)
    requires Reads([QUOTE] + a + [QUOTE], x)
    ensures ValidPieces(ps) && RenderPieces(ps) == a && PiecesText(ps) == x
  {
    var t := [QUOTE] + a + [QUOTE];
    assert t[0] == QUOTE && t[|t| - 1] == QUOTE;
    var before, c, after := D.DocumentSound(t);
    NoSpaceAround(t, before, Render(c), after);
    assert c.CString?;
    ps := c.pieces;
    assert RenderPieces(ps) == t[1..|t| - 1] == a;
  }

  lemma {:induction false} RenderConcat(ps: seq<Piece>, qs: seq<Piece>)
    ensures RenderPieces(ps + qs) == RenderPieces(ps) + RenderPieces(qs)
  {
    hide RenderPiece;
    if ps == [] {
      assert ps + qs == qs;
    } else {
      RenderConcat(ps[1..], qs);
      assert (ps + qs)[1..] == ps[1..] + qs && (ps + qs)[0] == ps[0];
      assert RenderPieces(ps + qs) == RenderPiece(ps[0]) + RenderPieces(ps[1..] + qs);
      assert RenderPieces(ps) == RenderPiece(ps[0]) + RenderPieces(ps[1..]);
    }
  }

  lemma {:induction false} TextConcat(ps: seq<Piece>, qs: seq<Piece>)
    requires ValidPieces(ps) && ValidPieces(qs)
    ensures ValidPieces(ps + qs) && PiecesText(ps + qs) == PiecesText(ps) + PiecesText(qs)
  {
    hide ValidPiece, PieceUnit;
    if ps == [] {
      assert ps + qs == qs;
    } else {
      TextConcat(ps[1..], qs);
      assert (ps + qs)[1..] == ps[1..] + qs && (ps + qs)[0] == ps[0];
      assert PiecesText(ps + qs) == [PieceUnit(ps[0])] + PiecesText(ps[1..] + qs);
      assert PiecesText(ps) == [PieceUnit(ps[0])] + PiecesText(ps[1..]);
    }
  }

  lemma PiecesConcat(ps: seq<Piece>, qs: seq<Piece>)
    requires ValidPieces(ps) && ValidPieces(qs)
    ensures ValidPieces(ps + qs) && RenderPieces(ps + qs) == RenderPieces(ps) + RenderPieces(qs)
    ensures PiecesText(ps + qs) == PiecesText(ps) + PiecesText(qs)
  {
    hide RenderPieces, PiecesText, ValidPieces;
    RenderConcat(ps, qs);
    TextConcat(ps, qs);
  }

  /** String literals concatenate, so the single characters above say what every literal means. */
  lemma LiteralsConcatenate(a: Text, x: Text, b: Text, y: Text)
    requires Reads([QUOTE] + a + [QUOTE], x) && Reads([QUOTE] + b + [QUOTE], y)
    ensures Reads([QUOTE] + (a + b) + [QUOTE], x + y)
  {
    var ps := LiteralHasPieces(a, x);
    var qs := LiteralHasPieces(b, y);
    hide Reads;
    PiecesConcat(ps, qs);
    PiecesRead(ps + qs);
  }

  // ---- writing string literals ---------------------------------------------------------------

  lemma QuoteOne(u: Unit)
    requires !High(u) && !Low(u)
    ensures JsonString([u]) == [QUOTE] + RenderPiece(PlainPiece(u)) + [QUOTE]
    ensures RenderString(PlainPieces([u])) == [QUOTE] + RenderPiece(PlainPiece(u)) + [QUOTE]
  {
    assert [u][1..] == [];
    assert Quote([u]) == [PlainPiece(u)] + [] == [PlainPiece(u)];
    assert PlainPieces([u]) == [PlainPiece(u)];
    assert [PlainPiece(u)][1..] == [];
    assert RenderPieces([PlainPiece(u)]) == RenderPiece(PlainPiece(u)) + [];
  }

  /** What either serializer writes for one character. */
  predicate Writes(u: Unit, t: Text) {
    JsonString([u]) == t && RenderString(PlainPieces([u])) == t
  }

  lemma ShortWritten(u: Unit, letter: Unit)
    requires ShortFor(u) == letter && !High(u) && !Low(u)
    ensures Writes(u, [QUOTE, BACKSLASH, letter, QUOTE])
  {
    QuoteOne(u);
    assert [QUOTE] + [BACKSLASH, letter] + [QUOTE] == [QUOTE, BACKSLASH, letter, QUOTE];
  }

  /** The seven characters with a two-character escape. */
  lemma ShortEscapesAreWritten()
    ensures Writes('"' as int, U("\"\\\"\"")) && Writes('\\' as int, U("\"\\\\\""))
    ensures Writes(0x08, U("\"\\b\"")) && Writes(0x09, U("\"\\t\"")) && Writes(0x0a, U("\"\\n\""))
    ensures Writes(0x0c, U("\"\\f\"")) && Writes(0x0d, U("\"\\r\""))
  {
    hide Writes;
    ShortWritten('"' as int, '"' as int);
    ShortWritten('\\' as int, '\\' as int);
    ShortWritten(0x08, 'b' as int);
    ShortWritten(0x09, 't' as int);
    ShortWritten(0x0a, 'n' as int);
    ShortWritten(0x0c, 'f' as int);
    ShortWritten(0x0d, 'r' as int);
    assert U("\"\\\"\"") == [QUOTE, BACKSLASH, '"' as int, QUOTE] && U("\"\\\\\"") == [QUOTE, BACKSLASH, '\\' as int, QUOTE];
    assert U("\"\\b\"") == [QUOTE, BACKSLASH, 'b' as int, QUOTE] && U("\"\\t\"") == [QUOTE, BACKSLASH, 't' as int, QUOTE];
    assert U("\"\\n\"") == [QUOTE, BACKSLASH, 'n' as int, QUOTE] && U("\"\\f\"") == [QUOTE, BACKSLASH, 'f' as int, QUOTE];
    assert U("\"\\r\"") == [QUOTE, BACKSLASH, 'r' as int, QUOTE];
  }

  /** Other control characters are `\u00` and two lower-case hex digits; all else stands for itself. */
  lemma OthersAreWritten(u: Unit)
    requires u != '"' as int && u != '\\' as int && u != 0x08 && u != 0x09 && u != 0x0a && u != 0x0c && u != 0x0d
    requires !High(u) && !Low(u)
    ensures u < 0x20 ==>
              Writes(u, ['"' as int, '\\' as int, 'u' as int, '0' as int, '0' as int, HexChar(u / 16, false), HexChar(u % 16, false), '"' as int])
    ensures u >= 0x20 ==> Writes(u, ['"' as int, u, '"' as int])
  {
    QuoteOne(u);
    if u < 0x20 {
      assert PlainPiece(u) == Hex('0' as int, '0' as int, HexChar(u / 16, false), HexChar(u % 16, false));
      assert [QUOTE] + RenderPiece(PlainPiece(u)) + [QUOTE]
          == ['"' as int, '\\' as int, 'u' as int, '0' as int, '0' as int, HexChar(u / 16, false), HexChar(u % 16, false), '"' as int];
    } else {
      assert [QUOTE] + [u] + [QUOTE] == ['"' as int, u, '"' as int];
    }
  }

  lemma QuoteSurrogates(x: Unit, y: Unit, rest: Text)
    requires High(x) && Low(y)
    ensures Quote([x, y] + rest) == [Raw(x), Raw(y)] + Quote(rest)
  {
    hide HexPiece, PlainPiece;
    assert ([x, y] + rest)[2..] == rest;
  }

  lemma QuoteUnit(x: Unit, rest: Text)
    requires !High(x) && !Low(x)
    ensures Quote([x] + rest) == [PlainPiece(x)] + Quote(rest)
  {
    hide HexPiece, PlainPiece;
    assert ([x] + rest)[1..] == rest;
  }

  lemma {:induction false} QuoteConcat(a: Text, b: Text)
    requires WellFormed(a)
    ensures Quote(a + b) == Quote(a) + Quote(b)
  {
    hide Quote, PlainPiece;
    if a == [] {
      assert a + b == b && Quote(a) == [] by { QuoteNothing(); }
    } else if High(a[0]) {
      var rest := a[2..];
      QuoteConcat(rest, b);
      QuoteSurrogates(a[0], a[1], rest);
      QuoteSurrogates(a[0], a[1], rest + b);
      assert a == [a[0], a[1]] + rest && a + b == [a[0], a[1]] + (rest + b);
    } else {
      var rest := a[1..];
      QuoteConcat(rest, b);
      QuoteUnit(a[0], rest);
      QuoteUnit(a[0], rest + b);
      assert a == [a[0]] + rest && a + b == [a[0]] + (rest + b);
    }
  }

  lemma QuoteNothing()
    ensures Quote([]) == []
  {
  }

  /** What is between the quotes. */
  function Inside(t: Text): Text {
    RenderPieces(Quote(t))
  }

  lemma InsideIsBetween(t: Text)
    ensures JsonString(t) == ['"' as int] + Inside(t) + ['"' as int]
  {
  }

  /** Strings are written character by character. */
  lemma LiteralsAreWrittenPiecewise(a: Text, b: Text)
    requires WellFormed(a)
    ensures Inside(a + b) == Inside(a) + Inside(b)
  {
    QuoteConcat(a, b);
    QuoteDenotes(a);
    QuoteDenotes(b);
    hide Quote;
    PiecesConcat(Quote(a), Quote(b));
  }

  /** A surrogate pair stays as it is; a lone surrogate is escaped by `JSON.stringify`. */
  lemma SurrogatesAreWritten(high: Unit, low: Unit)
    requires High(high) && Low(low)
    ensures JsonString([high, low]) == ['"' as int, high, low, '"' as int]
    ensures JsonString([high])
         == ['"' as int, '\\' as int, 'u' as int, 'd' as int, HexChar(high / 0x100 % 16, false), HexChar(high / 16 % 16, false),
             HexChar(high % 16, false), '"' as int]
  {
    var t := [high, low];
    assert t[2..] == [] && Quote([]) == [];
    assert Quote(t) == [Raw(high), Raw(low)];
    assert [Raw(high), Raw(low)][1..] == [Raw(low)] && [Raw(low)][1..] == [];
    assert RenderPieces([Raw(low)]) == [low] + [];
    assert RenderPieces(Quote(t)) == [high] + [low];
    assert [high][1..] == [];
    assert Quote([high]) == [HexPiece(high)];
    assert [HexPiece(high)][1..] == [];
    assert high / 0x1000 == 13;
    assert RenderPieces([HexPiece(high)]) == RenderPiece(HexPiece(high)) + [];
  }

  // ---- punctuation ---------------------------------------------------------------------------

  lemma DocumentIs(t: Text, c: Con)
    requires Valid(c, 0) && t == Render(c)
    ensures P.ParseDocument(t) == P.Done(Value(c), |t|)
  {
    assert t == [] + (Render(c) + []);
    D.DocumentReads(t, [], c, []);
  }

  /** The three keywords. */
  lemma KeywordsAreRead()
    ensures P.ParseDocument(U("null")) == P.Done(JNull, 4)
    ensures P.ParseDocument(U("true")) == P.Done(JBool(true), 4) && P.ParseDocument(U("false")) == P.Done(JBool(false), 5)
  {
    DocumentIs(U("null"), CNull);
    DocumentIs(U("true"), CBool(true));
    DocumentIs(U("false"), CBool(false));
  }

  /** Brackets, braces, commas and colons around any two values. */
  lemma PunctuationIsRead(a: Con, b: Con)
    requires Valid(a, 1) && Valid(b, 1)
    ensures P.ParseDocument(U("[]")) == P.Done(JArray([]), 2) && P.ParseDocument(U("{}")) == P.Done(JObject([]), 2)
    ensures var t := U("[") + (Render(a) + (U(",") + (Render(b) + U("]"))));
      P.ParseDocument(t) == P.Done(JArray([Value(a), Value(b)]), |t|)
    ensures var t := U("{\"x\":") + (Render(a) + (U(",\"y\":") + (Render(b) + U("}"))));
      P.ParseDocument(t) == P.Done(JObject([Member(U("x"), Value(a)), Member(U("y"), Value(b))]), |t|)
  {
    EmptyContainers();
    ArrayOfTwo(a, b);
    ObjectOfTwo(a, b);
  }

  lemma EmptyContainers()
    ensures P.ParseDocument(U("[]")) == P.Done(JArray([]), 2) && P.ParseDocument(U("{}")) == P.Done(JObject([]), 2)
  {
    assert U("[]") == [OPEN_BRACKET] + ([] + [CLOSE_BRACKET]) && U("{}") == [OPEN_BRACE] + ([] + [CLOSE_BRACE]);
    DocumentIs(U("[]"), CArray([], []));
    DocumentIs(U("{}"), CObject([], []));
  }

  lemma TwoElems(x: Elem, y: Elem)
    ensures RenderElems([x, y]) == ElemText(x, Render(x.value), [COMMA] + ElemText(y, Render(y.value), [CLOSE_BRACKET]))
    ensures ElemValues([x, y]) == [Value(x.value), Value(y.value)]
  {
    hide ElemText, Render, Value;
    assert [x, y][1..] == [y] && [y][1..] == [];
    assert RenderElems([y]) == ElemText(y, Render(y.value), [CLOSE_BRACKET]);
    assert ElemValues([y]) == [Value(y.value)] + [];
  }

  lemma BothValid(x: Elem, y: Elem)
    requires x.before == x.after == y.before == y.after == [] && Valid(x.value, 1) && Valid(y.value, 1)
    ensures ValidElems([x, y], 1)
  {
    hide Valid;
    assert [x, y][1..] == [y] && [y][1..] == [];
    assert ValidElems([y], 1);
  }

  lemma ArrayOfTwo(a: Con, b: Con)
    requires Valid(a, 1) && Valid(b, 1)
    ensures var t := U("[") + (Render(a) + (U(",") + (Render(b) + U("]"))));
      P.ParseDocument(t) == P.Done(JArray([Value(a), Value(b)]), |t|)
  {
    hide P.ParseDocument;
    var t := U("[") + (Render(a) + (U(",") + (Render(b) + U("]"))));
    var x, y := Elem([], a, []), Elem([], b, []);
    var es := [x, y];
    assert es[1..] == [y] && [y][1..] == [];
    assert U("[") == [OPEN_BRACKET] && U(",") == [COMMA] && U("]") == [CLOSE_BRACKET];
    TwoElems(x, y);
    assert ElemText(y, Render(b), [CLOSE_BRACKET]) == Render(b) + [CLOSE_BRACKET];
    assert RenderElems(es) == Render(a) + ([COMMA] + (Render(b) + [CLOSE_BRACKET]));
    BothValid(x, y);
    assert Render(CArray([], es)) == t && Value(CArray([], es)) == JArray([Value(a), Value(b)]);
    DocumentIs(t, CArray([], es));
  }

  lemma KeyPiece(u: Unit)
    requires u > 0x20 && u != QUOTE && u != BACKSLASH
    ensures ValidPieces([Raw(u)]) && KeyText([Raw(u)]) == [u] && RenderString([Raw(u)]) == [QUOTE, u, QUOTE]
  {
    assert [Raw(u)][1..] == [];
    assert PiecesText([Raw(u)]) == [u] + [] && RenderPieces([Raw(u)]) == [u] + [];
  }

  lemma TwoFields(x: Field, y: Field)
    ensures RenderFields([x, y]) ==
            FieldText(x, RenderString(x.key), Render(x.value),
                      [COMMA] + FieldText(y, RenderString(y.key), Render(y.value), [CLOSE_BRACE]))
    ensures FieldMembers([x, y]) == [Member(KeyText(x.key), Value(x.value)), Member(KeyText(y.key), Value(y.value))]
  {
    hide FieldText, RenderString, KeyText, Render, Value;
    assert [x, y][1..] == [y] && [y][1..] == [];
    assert RenderFields([y]) == FieldText(y, RenderString(y.key), Render(y.value), [CLOSE_BRACE]);
    assert FieldMembers([y]) == [Member(KeyText(y.key), Value(y.value))] + [];
  }

  lemma KeyedFields(a: Text, b: Text, x: Field, y: Field)
    requires x.before == x.beforeColon == x.afterColon == x.after == y.before == y.beforeColon == y.afterColon == y.after == []
    ensures [OPEN_BRACE] + FieldText(x, [QUOTE, 'x' as int, QUOTE], a, [COMMA] + FieldText(y, [QUOTE, 'y' as int, QUOTE], b, [CLOSE_BRACE]))
         == U("{\"x\":") + (a + (U(",\"y\":") + (b + U("}"))))
  {
    assert U("{\"x\":") == [OPEN_BRACE, QUOTE, 'x' as int, QUOTE, COLON];
    assert U(",\"y\":") == [COMMA, QUOTE, 'y' as int, QUOTE, COLON] && U("}") == [CLOSE_BRACE];
    assert FieldText(y, [QUOTE, 'y' as int, QUOTE], b, [CLOSE_BRACE]) == [QUOTE, 'y' as int, QUOTE, COLON] + (b + [CLOSE_BRACE]);
    var more := [COMMA] + FieldText(y, [QUOTE, 'y' as int, QUOTE], b, [CLOSE_BRACE]);
    assert more == U(",\"y\":") + (b + U("}"));
    assert FieldText(x, [QUOTE, 'x' as int, QUOTE], a, more) == [QUOTE, 'x' as int, QUOTE, COLON] + (a + more);
  }

  lemma ObjectOfTwo(a: Con, b: Con)
    requires Valid(a, 1) && Valid(b, 1)
    ensures var t := U("{\"x\":") + (Render(a) + (U(",\"y\":") + (Render(b) + U("}"))));
      P.ParseDocument(t) == P.Done(JObject([Member(U("x"), Value(a)), Member(U("y"), Value(b))]), |t|)
  {
    hide P.ParseDocument, ValidPieces, KeyText, RenderString, FieldText, Value, RenderFields, FieldMembers;
    KeyPiece('x' as int);
    KeyPiece('y' as int);
    var x, y := Field([], [Raw('x' as int)], [], [], a, []), Field([], [Raw('y' as int)], [], [], b, []);
    TwoFields(x, y);
    KeyedFields(Render(a), Render(b), x, y);
    assert U("x") == ['x' as int] && U("y") == ['y' as int];
    assert [x, y][1..] == [y] && [y][1..] == [];
    assert ValidFields([y], 1);
    ObjectDocument(x, y);
  }

  lemma ObjectDocument(x: Field, y: Field)
    requires ValidFields([x, y], 1) && KeyText(x.key) != KeyText(y.key)
    ensures var t := [OPEN_BRACE] + RenderFields([x, y]);
      P.ParseDocument(t) == P.Done(JObject(FieldMembers([x, y])), |t|)
  {
    hide P.ParseDocument, RenderFields;
    TwoFields(x, y);
    var c := CObject([], [x, y]);
    DocumentIs(Render(c), c);
  }

  /** Blank, tab, line feed and carriage return, and nothing else, may surround a value. */
  lemma WhiteSpaceIsRead(u: Unit)
    ensures u == ' ' as int || u == '\t' as int || u == '\n' as int || u == '\r' as int ==>
              P.ParseDocument([u] + U("null") + [u]) == P.Done(JNull, 6)
    ensures u != ' ' as int && u != '\t' as int && u != '\n' as int && u != '\r' as int ==>
              P.ParseDocument(U("null") + [u]).Abort?
  {
    if Space(u) {
      D.DocumentReads([u] + U("null") + [u], [u], CNull, [u]);
      assert [u] + U("null") + [u] == [u] + (Render(CNull) + [u]);
    } else {
      var t := U("null") + [u];
      if P.ParseDocument(t).Done? {
        var before, c, after := D.DocumentSound(t);
        NullThen(t, u);
      }
    }
  }

  lemma NullThen(t: Text, u: Unit)
    requires t == U("null") + [u] && !Space(u)
    ensures P.ParseDocument(t).Abort?
  {
    assert t[0] == 'n' as int && t[4] == u && t[0..4] == U("null");
    assert P.SkipSpace(t, 0) == 0;
    assert P.ParseValue(t, 0, 0) == P.Done(JNull, 4);
    assert P.SkipSpace(t, 4) == 4;
  }

  // ---- numbers -------------------------------------------------------------------------------

  predicate Digits(t: Text) {
    t != [] && forall i | 0 <= i < |t| :: '0' as int <= t[i] <= '9' as int
  }

  predicate IsMark(m: Text) {
    m == U("e") || m == U("E") || m == U("e+") || m == U("e-") || m == U("E+") || m == U("E-")
  }

  lemma MarkedExponent(m: Text, e: Text)
    requires IsMark(m) && Digits(e)
    ensures IsExponent(m + e)
  {
    assert U("e") == [0x65] && U("E") == [0x45] && U("e+") == [0x65, 0x2b] && U("e-") == [0x65, 0x2d];
    assert U("E+") == [0x45, 0x2b] && U("E-") == [0x45, 0x2d];
    var t := m + e;
    assert t[|m|..] == e && t[0] == m[0];
    if |m| == 2 {
      assert t[1] == m[1];
    }
  }

  predicate IsExponentPart(t: Text, m: Text, e: Text) {
    IsMark(m) && Digits(e) && t == m + e
  }

  lemma ExponentIffMarked(t: Text)
    ensures IsExponent(t) <==> t == [] || exists m, e :: IsExponentPart(t, m, e)
  {
    assert U("e") == [0x65] && U("E") == [0x45] && U("e+") == [0x65, 0x2b] && U("e-") == [0x65, 0x2d];
    assert U("E+") == [0x45, 0x2b] && U("E-") == [0x45, 0x2d];
    if t != [] && IsExponent(t) {
      var n := if AllDigits(t[1..]) then 1 else 2;
      assert t == t[..n] + t[n..];
      assert n == 2 ==> t[..2] == [t[0], t[1]];
      assert t[..1] == [t[0]];
      assert IsExponentPart(t, t[..n], t[n..]);
    }
    forall m, e | IsExponentPart(t, m, e) ensures IsExponent(t) {
      MarkedExponent(m, e);
    }
  }

  /** The parts of a number: sign, digits without a leading zero, fraction and exponent. */
  ghost predicate IsNumeral(t: Text, s: Text, i: Text, f: Text, e: Text) {
    && t == s + i + f + e
    && (s == [] || s == U("-"))
    && Digits(i) && (i[0] == '0' as int ==> |i| == 1)
    && (f == [] || (f[0] == '.' as int && Digits(f[1..])))
    && (e == [] || exists m, d :: IsExponentPart(e, m, d))
  }

  lemma NumeralIsParts(t: Text, s: Text, i: Text, f: Text, e: Text)
    ensures IsNumeral(t, s, i, f, e) <==> NumberParts(t, s, i, f, e)
  {
    assert U("-") == [MINUS];
    ExponentIffMarked(e);
    assert AllDigits(i) <==> forall k | 0 <= k < |i| :: '0' as int <= i[k] <= '9' as int;
    if f != [] {
      assert AllDigits(f[1..]) <==> forall k | 0 <= k < |f[1..]| :: '0' as int <= f[1..][k] <= '9' as int;
    }
  }

  lemma NumberAlone(t: Text, before: Text, c: Con, after: Text)
    requires t == before + (Render(c) + after) && Valid(c, 0) && Value(c) == JNumber(t)
    ensures c == CNumber(t) && IsNumber(t)
  {
  }

  /** A text is read as a number exactly when it has such parts; anything else around or inside is refused. */
  lemma NumbersAreReadIffParts(t: Text)
    ensures P.ParseDocument(t) == P.Done(JNumber(t), |t|) <==> exists s, i, f, e :: IsNumeral(t, s, i, f, e)
  {
    hide P.ParseDocument, NumberParts;
    if P.ParseDocument(t) == P.Done(JNumber(t), |t|) {
      var before, c, after := D.DocumentSound(t);
      NumberAlone(t, before, c, after);
      var s, i, f, e :| NumberParts(t, s, i, f, e);
      NumeralIsParts(t, s, i, f, e);
    }
    forall s, i, f, e | IsNumeral(t, s, i, f, e) ensures P.ParseDocument(t) == P.Done(JNumber(t), |t|) {
      NumeralIsParts(t, s, i, f, e);
      DocumentIs(t, CNumber(t));
    }
  }

  // ---- nesting -------------------------------------------------------------------------------

  function Repeat(u: Unit, n: nat): (r: Text)
    ensures |r| == n && forall i | 0 <= i < n :: r[i] == u
  {
    seq(n, _ => u)
  }

  function Nest(n: nat): Con {
    if n == 0 then CNull else CArray([], [Elem([], Nest(n - 1), [])])
  }

  lemma NestStep(n: nat, inner: Text)
    requires n > 0 && Render(Nest(n - 1)) == inner
    ensures Render(Nest(n)) == [OPEN_BRACKET] + (inner + [CLOSE_BRACKET])
  {
    var e := Elem([], Nest(n - 1), []);
    assert RenderElems([e]) == [] + (inner + ([] + [CLOSE_BRACKET]));
  }

  lemma RepeatEnds(u: Unit, n: nat)
    requires n > 0
    ensures Repeat(u, n) == [u] + Repeat(u, n - 1) == Repeat(u, n - 1) + [u]
  {
  }

  lemma {:induction false} NestRenders(n: nat)
    ensures Render(Nest(n)) == Repeat('[' as int, n) + (U("null") + Repeat(']' as int, n))
  {
    hide Render;
    if n == 0 {
      assert Render(CNull) == U("null") by { NullRenders(); }
      assert Repeat('[' as int, 0) + (U("null") + Repeat(']' as int, 0)) == U("null");
    } else {
      NestRenders(n - 1);
      var inner := Render(Nest(n - 1));
      NestStep(n, inner);
      RepeatEnds('[' as int, n);
      RepeatEnds(']' as int, n);
      hide Repeat;
      assert Render(Nest(n)) == ([OPEN_BRACKET] + Repeat('[' as int, n - 1)) + (U("null") + (Repeat(']' as int, n - 1) + [CLOSE_BRACKET]));
    }
  }

  lemma NullRenders()
    ensures Render(CNull) == U("null")
  {
  }

  lemma {:induction false} NestIsValid(n: nat, depth: int)
    requires depth + n <= 4096
    ensures Valid(Nest(n), depth)
  {
    if n > 0 {
      NestIsValid(n - 1, depth + 1);
      assert [Elem([], Nest(n - 1), [])][1..] == [];
    }
  }

  lemma {:induction false} TooManyBrackets(t: Text, k: nat)
    requires k <= 4096 < |t| && forall i | 0 <= i <= 4096 :: t[i] == OPEN_BRACKET
    ensures P.ParseValue(t, k, k).Abort?
    decreases 4096 - k
  {
    if k < 4096 {
      TooManyBrackets(t, k + 1);
      assert P.SkipSpace(t, k + 1) == k + 1;
    }
  }

  /** Arrays may be nested 4096 deep and no deeper. */
  lemma NestingIsLimitedTo4096(n: nat)
    ensures var t := Repeat('[' as int, n) + (U("null") + Repeat(']' as int, n));
      P.ParseDocument(t).Done? <==> n <= 4096
  {
    var t := Repeat('[' as int, n) + (U("null") + Repeat(']' as int, n));
    if n <= 4096 {
      NestRenders(n);
      NestIsValid(n, 0);
      DocumentIs(t, Nest(n));
    } else {
      assert forall i | 0 <= i <= 4096 :: t[i] == OPEN_BRACKET;
      TooManyBrackets(t, 0);
      assert P.SkipSpace(t, 0) == 0;
    }
  }
}
