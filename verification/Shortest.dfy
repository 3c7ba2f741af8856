/**
 The encoder's text is the shortest accepted spelling of a value, in UTF-8 bytes;
 so what was accepted under the payload limit can be written under it again.
 */
module Shortest {
  import opened Wrappers
  import opened Unicode
  import opened Json
  import opened JsonPrinter
  import opened JsonSyntax
  import D = JsonDocuments

  // ---- bytes of a text -------------------------------------------------------------------

  /** UTF-8 bytes per code unit; a surrogate pair takes four. */
  function UnitWeight(u: Unit): nat {
    if u < 0x80 then 1 else if u < 0x800 || High(u) || Low(u) then 2 else 3
  }

  function Weight(t: Text): nat {
    if t == [] then 0 else UnitWeight(t[0]) + Weight(t[1..])
  }

  lemma {:induction false} WeightConcat(a: Text, b: Text)
    ensures Weight(a + b) == Weight(a) + Weight(b)
  {
    if a == [] {
      assert a + b == b;
    } else {
      WeightConcat(a[1..], b);
      assert (a + b)[1..] == a[1..] + b;
    }
  }

  lemma {:induction false} WeightIsUtf8Length(t: Text)
    requires WellFormed(t)
    ensures |EncodeUtf8(t)| == Weight(t)
  {
    if t != [] {
      var step := if High(t[0]) then 2 else 1;
      WeightIsUtf8Length(t[step..]);
      assert Scalars(t)[1..] == Scalars(t[step..]);
      if step == 2 {
        assert Weight(t) == UnitWeight(t[0]) + (UnitWeight(t[1]) + Weight(t[1..][1..])) && t[1..][1..] == t[2..];
      }
    }
  }

  lemma WeightOne(u: Unit)
    ensures Weight([u]) == UnitWeight(u)
  {
    assert Weight([u][1..]) == 0;
  }

  // ---- well-formed parts --------------------------------------------------------------------

  predicate NoSurrogate(t: Text) {
    forall i | 0 <= i < |t| :: !High(t[i]) && !Low(t[i])
  }

  lemma {:induction false} DropPlain(a: Text, b: Text)
    requires WellFormed(a + b) && NoSurrogate(a)
    ensures WellFormed(b)
  {
    if a == [] {
      assert a + b == b;
    } else {
      assert (a + b)[1..] == a[1..] + b;
      DropPlain(a[1..], b);
    }
  }

  lemma {:induction false} SplitPlain(a: Text, b: Text)
    requires WellFormed(a + b) && b != [] && !Low(b[0])
    ensures WellFormed(a) && WellFormed(b)
  {
    if a == [] {
      assert a + b == b;
    } else if High(a[0]) {
      assert Low((a + b)[1]);
      assert |a| > 1;
      assert (a + b)[2..] == a[2..] + b;
      SplitPlain(a[2..], b);
    } else {
      assert (a + b)[1..] == a[1..] + b;
      SplitPlain(a[1..], b);
    }
  }

  // ---- strings --------------------------------------------------------------------------------

  lemma PieceWeight(p: Piece)
    requires ValidPiece(p)
    ensures p.Raw? ==> RenderPiece(p) == [p.unit] && Weight(RenderPiece(p)) == UnitWeight(p.unit)
    ensures p.Short? ==> NoSurrogate(RenderPiece(p)) && Weight(RenderPiece(p)) == 2
    ensures p.Hex? ==> NoSurrogate(RenderPiece(p)) && Weight(RenderPiece(p)) == 6
  {
    if p.Raw? {
      WeightOne(p.unit);
    } else if p.Short? {
      WeightOne(p.letter);
      WeightConcat([BACKSLASH], [p.letter]);
      assert [BACKSLASH] + [p.letter] == RenderPiece(p);
    } else {
      AsciiWeight(RenderPiece(p));
    }
  }

  lemma {:induction false} AsciiWeight(t: Text)
    requires forall i | 0 <= i < |t| :: t[i] < 0x80
    ensures Weight(t) == |t| && NoSurrogate(t)
  {
    if t != [] {
      AsciiWeight(t[1..]);
    }
  }

  /** Quoting a unit takes no more bytes than any piece that denotes it. */
  lemma PlainPieceIsShortest(p: Piece)
    requires ValidPiece(p) && !High(PieceUnit(p)) && !Low(PieceUnit(p))
    ensures Weight(RenderPiece(PlainPiece(PieceUnit(p)))) <= Weight(RenderPiece(p))
  {
    var u := PieceUnit(p);
    PlainPieceDenotes(u);
    PieceWeight(PlainPiece(u));
    PieceWeight(p);
    hide HexPiece, RenderPiece, Weight;
  }

  lemma ConsWeight(p: Piece, ps: seq<Piece>)
    ensures Weight(RenderPieces([p] + ps)) == Weight(RenderPiece(p)) + Weight(RenderPieces(ps))
  {
    assert ([p] + ps)[1..] == ps;
    WeightConcat(RenderPiece(p), RenderPieces(ps));
  }

  /** A raw surrogate is written as half of a raw pair. */
  lemma RawPair(ps: seq<Piece>)
    requires ps != [] && ValidPieces(ps) && WellFormed(RenderPieces(ps)) && ps[0].Raw?
    ensures !Low(ps[0].unit)
    ensures High(ps[0].unit) ==> |ps| > 1 && ps[1].Raw? && Low(ps[1].unit)
    ensures High(ps[0].unit) ==> WellFormed(RenderPieces(ps[2..]))
  {
    var t := RenderPieces(ps);
    assert t == [ps[0].unit] + RenderPieces(ps[1..]);
    if High(ps[0].unit) {
      assert |ps| > 1 && t[1] == RenderPiece(ps[1])[0];
      assert ps[1].Raw?;
      assert ps[1..][1..] == ps[2..];
      assert t[2..] == RenderPieces(ps[2..]);
    }
  }

  predicate PairAhead(t: Text) {
    |t| > 1 && High(t[0]) && Low(t[1])
  }

  lemma PiecesUnits(ps: seq<Piece>)
    requires ValidPieces(ps)
    ensures |PiecesText(ps)| == |ps|
    ensures ps != [] ==> PiecesText(ps)[0] == PieceUnit(ps[0]) && PiecesText(ps)[1..] == PiecesText(ps[1..])
    ensures |ps| > 1 ==> PiecesText(ps)[1] == PieceUnit(ps[1]) && PiecesText(ps)[2..] == PiecesText(ps[2..])
  {
    if ps != [] {
      var rest := ps[1..];
      assert PiecesText(ps) == [PieceUnit(ps[0])] + PiecesText(rest);
      PiecesUnits(rest);
      if |ps| > 1 {
        assert rest[1..] == ps[2..] && PiecesText(ps)[2..] == PiecesText(rest)[1..];
      }
    }
  }

  lemma DropPiece(ps: seq<Piece>)
    requires ps != [] && ValidPieces(ps) && WellFormed(RenderPieces(ps)) && NoSurrogate(RenderPiece(ps[0]))
    ensures WellFormed(RenderPieces(ps[1..]))
  {
    DropPlain(RenderPiece(ps[0]), RenderPieces(ps[1..]));
  }

  lemma TailAfterPair(ps: seq<Piece>)
    requires |ps| > 1 && ValidPieces(ps) && WellFormed(RenderPieces(ps))
    requires High(PieceUnit(ps[0])) && Low(PieceUnit(ps[1]))
    ensures WellFormed(RenderPieces(ps[2..]))
  {
    hide RenderPieces, RenderPiece, WellFormed, Weight;
    PieceWeight(ps[0]);
    PieceWeight(ps[1]);
    assert ps[1..][1..] == ps[2..] && ps[1..][0] == ps[1];
    if ps[0].Raw? {
      RawPair(ps);
    } else {
      DropPiece(ps);
      if ps[1].Raw? {
        RawPair(ps[1..]);
      }
      DropPiece(ps[1..]);
    }
  }

  lemma ShortIsPlain(p: Piece)
    requires ValidPiece(p) && p.Short?
    ensures !High(PieceUnit(p)) && !Low(PieceUnit(p))
  {
  }

  lemma TailAfterUnit(ps: seq<Piece>)
    requires ps != [] && ValidPieces(ps) && WellFormed(RenderPieces(ps)) && !PairAhead(PiecesText(ps))
    ensures WellFormed(RenderPieces(ps[1..]))
    ensures High(PieceUnit(ps[0])) || Low(PieceUnit(ps[0])) ==> ps[0].Hex?
  {
    hide RenderPieces, Weight, WellFormed, PiecesText, ValidPiece, High, Low;
    PiecesUnits(ps);
    PieceWeight(ps[0]);
    if ps[0].Raw? {
      RawPair(ps);
    } else if ps[0].Short? {
      ShortIsPlain(ps[0]);
    }
    DropPiece(ps);
  }

  /** Canonical quoting is the shortest. */
  lemma {:induction false} QuoteIsShortest(ps: seq<Piece>)
    requires ValidPieces(ps) && WellFormed(RenderPieces(ps))
    ensures Weight(RenderPieces(Quote(PiecesText(ps)))) <= Weight(RenderPieces(ps))
    decreases |ps|
  {
    hide Weight, RenderPieces, WellFormed, PiecesText, Quote, ValidPiece;
    if ps == [] {
      NothingQuoted();
    } else if PairAhead(PiecesText(ps)) {
      PiecesUnits(ps);
      TailAfterPair(ps);
      QuoteIsShortest(ps[2..]);
      PairIsShortest(ps);
    } else {
      PiecesUnits(ps);
      TailAfterUnit(ps);
      QuoteIsShortest(ps[1..]);
      UnitIsShortest(ps[0], PiecesText(ps));
      ConsWeight(ps[0], ps[1..]);
      assert ps == [ps[0]] + ps[1..];
    }
  }

  lemma NothingQuoted()
    ensures PiecesText([]) == [] && Quote([]) == []
  {
  }

  lemma PairIsShortest(ps: seq<Piece>)
    requires ValidPieces(ps) && PairAhead(PiecesText(ps))
    requires |ps| > 1 && Weight(RenderPieces(Quote(PiecesText(ps)[2..]))) <= Weight(RenderPieces(ps[2..]))
    ensures Weight(RenderPieces(Quote(PiecesText(ps)))) <= Weight(RenderPieces(ps))
  {
    var t := PiecesText(ps);
    PiecesUnits(ps);
    PieceWeight(ps[0]);
    PieceWeight(ps[1]);
    assert ps == [ps[0]] + ([ps[1]] + ps[2..]);
    ConsWeight(ps[0], [ps[1]] + ps[2..]);
    ConsWeight(ps[1], ps[2..]);
    ConsWeight(Raw(t[0]), [Raw(t[1])] + Quote(t[2..]));
    ConsWeight(Raw(t[1]), Quote(t[2..]));
    WeightOne(t[0]);
    WeightOne(t[1]);
    assert Quote(t) == [Raw(t[0])] + ([Raw(t[1])] + Quote(t[2..]));
    hide Weight, RenderPieces;
  }

  lemma UnitIsShortest(p: Piece, t: Text)
    requires t != [] && ValidPiece(p) && PieceUnit(p) == t[0] && !(High(t[0]) && |t| > 1 && Low(t[1]))
    requires (High(t[0]) || Low(t[0])) ==> p.Hex?
    ensures Weight(RenderPieces(Quote(t))) <= Weight(RenderPiece(p)) + Weight(RenderPieces(Quote(t[1..])))
  {
    if High(t[0]) || Low(t[0]) {
      ConsWeight(HexPiece(t[0]), Quote(t[1..]));
      HexPieceDenotes(t[0]);
      PieceWeight(HexPiece(t[0]));
      PieceWeight(p);
    } else {
      ConsWeight(PlainPiece(t[0]), Quote(t[1..]));
      PlainPieceIsShortest(p);
    }
  }

  // ---- documents ------------------------------------------------------------------------------

  lemma SpaceIsPlain(ws: Text)
    requires AllSpace(ws)
    ensures NoSurrogate(ws)
  {
  }

  /** White space may be dropped from the front. */
  lemma AfterSpace(ws: Text, rest: Text)
    requires AllSpace(ws) && WellFormed(ws + rest)
    ensures WellFormed(rest)
  {
    SpaceIsPlain(ws);
    DropPlain(ws, rest);
  }

  lemma AfterMark(mark: Unit, rest: Text)
    requires WellFormed([mark] + rest) && mark < 0x80
    ensures WellFormed(rest)
  {
    DropPlain([mark], rest);
  }

  /** What comes after a value starts with white space or punctuation. */
  lemma AroundValue(value: Text, ws: Text, more: Text)
    requires AllSpace(ws) && more != [] && more[0] < 0x80 && WellFormed(value + (ws + more))
    ensures WellFormed(value) && WellFormed(more)
  {
    assert (ws + more)[0] < 0x80;
    SplitPlain(value, ws + more);
    AfterSpace(ws, more);
  }

  lemma StringIsShortest(ps: seq<Piece>)
    requires ValidPieces(ps) && WellFormed(RenderString(ps))
    ensures Weight(RenderString(Quote(PiecesText(ps)))) <= Weight(RenderString(ps))
  {
    hide Quote, PiecesText, RenderPieces, WellFormed, Weight;
    StringWeight(ps);
    StringWeight(Quote(PiecesText(ps)));
    assert RenderString(ps) == [QUOTE] + (RenderPieces(ps) + [QUOTE]);
    AfterMark(QUOTE, RenderPieces(ps) + [QUOTE]);
    SplitPlain(RenderPieces(ps), [QUOTE]);
    QuoteIsShortest(ps);
  }

  lemma StringWeight(ps: seq<Piece>)
    ensures Weight(RenderString(ps)) == 2 + Weight(RenderPieces(ps))
  {
    WeightConcat([QUOTE] + RenderPieces(ps), [QUOTE]);
    WeightConcat([QUOTE], RenderPieces(ps));
    WeightOne(QUOTE);
  }

  /** Written compactly, a document's value takes no more bytes than the document. */
  lemma {:induction false} CompactIsShortest(c: Con, depth: int)
    requires Valid(c, depth) && WellFormed(Render(c))
    ensures Weight(Render(Compact(Value(c)))) <= Weight(Render(c))
    decreases c, 1
  {
    hide Weight, WellFormed, Quote, PiecesText;
    match c
    case CString(ps) => StringIsShortest(ps);
    case CArray(pad, es) =>
      ArrayIsShortest(pad, es, depth);
    case CObject(pad, fs) =>
      ObjectIsShortest(pad, fs, depth);
    case _ =>
  }

  lemma EmptyIsShortest(open: Unit, pad: Text, close: Unit)
    requires open < 0x80 && close < 0x80
    ensures Weight([open] + ([] + [close])) <= Weight([open] + (pad + [close]))
  {
    WeightConcat([open], [] + [close]);
    WeightConcat([open], pad + [close]);
    WeightConcat(pad, [close]);
    WeightConcat([], [close]);
  }

  lemma {:induction false} ArrayIsShortest(pad: Text, es: seq<Elem>, depth: int)
    requires Valid(CArray(pad, es), depth) && WellFormed(Render(CArray(pad, es)))
    ensures Weight(Render(Compact(Value(CArray(pad, es))))) <= Weight(Render(CArray(pad, es)))
    decreases es, 2
  {
    hide Weight, WellFormed;
    var cs := CompactItems(ElemValues(es));
    if es == [] {
      EmptyIsShortest(OPEN_BRACKET, pad, CLOSE_BRACKET);
    } else {
      AfterMark(OPEN_BRACKET, RenderElems(es));
      ElemsAreShortest(es, depth + 1);
      WeightConcat([OPEN_BRACKET], RenderElems(es));
      WeightConcat([OPEN_BRACKET], RenderElems(cs));
    }
  }

  lemma ElemWeight(e: Elem, value: Text, more: Text)
    ensures Weight(ElemText(e, value, more)) == Weight(e.before) + Weight(value) + Weight(e.after) + Weight(more)
  {
    WeightConcat(e.before, value + (e.after + more));
    WeightConcat(value, e.after + more);
    WeightConcat(e.after, more);
  }

  lemma {:induction false} ElemsAreShortest(es: seq<Elem>, depth: int)
    requires es != [] && ValidElems(es, depth) && WellFormed(RenderElems(es))
    ensures Weight(RenderElems(CompactItems(ElemValues(es)))) <= Weight(RenderElems(es))
    decreases es, 0
  {
    hide Weight, WellFormed, Render, Compact, Value;
    var e, more := es[0], MoreElems(es);
    var cs := CompactItems(ElemValues(es));
    AfterSpace(e.before, Render(e.value) + (e.after + more));
    AroundValue(Render(e.value), e.after, more);
    CompactIsShortest(e.value, depth);
    ElemWeight(e, Render(e.value), more);
    ElemWeight(cs[0], Render(cs[0].value), MoreElems(cs));
    NoWeight();
    if |es| > 1 {
      AfterMark(COMMA, RenderElems(es[1..]));
      ElemsAreShortest(es[1..], depth);
      assert ElemValues(es)[1..] == ElemValues(es[1..]) && cs[1..] == CompactItems(ElemValues(es[1..]));
      WeightConcat([COMMA], RenderElems(es[1..]));
      WeightConcat([COMMA], RenderElems(cs[1..]));
    }
  }

  lemma NoWeight()
    ensures Weight([]) == 0
  {
  }

  lemma {:induction false} ObjectIsShortest(pad: Text, fs: seq<Field>, depth: int)
    requires Valid(CObject(pad, fs), depth) && WellFormed(Render(CObject(pad, fs)))
    ensures Weight(Render(Compact(Value(CObject(pad, fs))))) <= Weight(Render(CObject(pad, fs)))
    decreases fs, 2
  {
    hide Weight, WellFormed;
    var cs := CompactMembers(FieldMembers(fs));
    if fs == [] {
      EmptyIsShortest(OPEN_BRACE, pad, CLOSE_BRACE);
    } else {
      AfterMark(OPEN_BRACE, RenderFields(fs));
      FieldsAreShortest(fs, depth + 1);
      WeightConcat([OPEN_BRACE], RenderFields(fs));
      WeightConcat([OPEN_BRACE], RenderFields(cs));
    }
  }

  lemma FieldWeight(f: Field, key: Text, value: Text, more: Text)
    ensures Weight(FieldText(f, key, value, more)) ==
            Weight(f.before) + Weight(key) + Weight(f.beforeColon) + Weight([COLON]) + Weight(f.afterColon)
            + Weight(value) + Weight(f.after) + Weight(more)
  {
    hide Weight;
    var afterValue := f.after + more;
    var afterColon := f.afterColon + (value + afterValue);
    WeightConcat(f.before, key + (f.beforeColon + ([COLON] + afterColon)));
    WeightConcat(key, f.beforeColon + ([COLON] + afterColon));
    WeightConcat(f.beforeColon, [COLON] + afterColon);
    WeightConcat([COLON], afterColon);
    WeightConcat(f.afterColon, value + afterValue);
    WeightConcat(value, afterValue);
    WeightConcat(f.after, more);
  }

  /** The key, the value and the rest of a well-formed member are well-formed. */
  lemma FieldParts(f: Field, key: Text, value: Text, more: Text)
    requires AllSpace(f.before) && AllSpace(f.beforeColon) && AllSpace(f.afterColon) && AllSpace(f.after)
    requires more != [] && more[0] < 0x80 && WellFormed(FieldText(f, key, value, more))
    ensures WellFormed(key) && WellFormed(value) && WellFormed(more)
  {
    hide WellFormed, AllSpace;
    var afterColon := f.afterColon + (value + (f.after + more));
    AfterSpace(f.before, key + (f.beforeColon + ([COLON] + afterColon)));
    AroundValue(key, f.beforeColon, [COLON] + afterColon);
    AfterMark(COLON, afterColon);
    AfterSpace(f.afterColon, value + (f.after + more));
    AroundValue(value, f.after, more);
  }

  lemma {:induction false} FieldsAreShortest(fs: seq<Field>, depth: int)
    requires fs != [] && ValidFields(fs, depth) && WellFormed(RenderFields(fs))
    ensures Weight(RenderFields(CompactMembers(FieldMembers(fs)))) <= Weight(RenderFields(fs))
    decreases fs, 0
  {
    hide Weight, WellFormed, Render, Compact, Value, RenderString, Quote, PiecesText, FieldText;
    var f, more := fs[0], MoreFields(fs);
    var cs := CompactMembers(FieldMembers(fs));
    FieldParts(f, RenderString(f.key), Render(f.value), more);
    assert f.value < f;
    CompactIsShortest(f.value, depth);
    StringIsShortest(f.key);
    FieldWeight(f, RenderString(f.key), Render(f.value), more);
    FieldWeight(cs[0], RenderString(cs[0].key), Render(cs[0].value), MoreFields(cs));
    NoWeight();
    if |fs| > 1 {
      AfterMark(COMMA, RenderFields(fs[1..]));
      FieldsAreShortest(fs[1..], depth);
      assert FieldMembers(fs)[1..] == FieldMembers(fs[1..]) && cs[1..] == CompactMembers(FieldMembers(fs[1..]));
      WeightConcat([COMMA], RenderFields(fs[1..]));
      WeightConcat([COMMA], RenderFields(cs[1..]));
    }
  }

  /** A document takes at least the bytes of its value printed compactly. */
  lemma DocumentIsNoShorter(t: Text, j: Json)
    requires WellFormed(t) && D.Denotes(t, j)
    ensures Weight(Print(j)) <= Weight(t)
  {
    hide Weight, WellFormed, Print, Compact;
    var before, c, after :| AllSpace(before) && AllSpace(after) && Valid(c, 0) && t == before + (Render(c) + after) && Value(c) == j;
    hide Render, Value, Valid;
    AfterSpace(before, Render(c) + after);
    if after == [] {
      assert Render(c) + after == Render(c);
    } else {
      SplitPlain(Render(c), after);
    }
    WeightConcat(before, Render(c) + after);
    WeightConcat(Render(c), after);
    CompactIsShortest(c, 0);
    PrintIsRender(j);
  }
}
