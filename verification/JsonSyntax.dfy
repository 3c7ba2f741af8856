/** The parser accepts exactly the documents of the grammar, and reads each as its value. */
module JsonSyntax {
  import opened Unicode
  import opened Json
  import opened JsonParser

  /** `part` stands in `t` at `p`. */
  predicate At(t: Text, p: nat, part: Text) {
    p + |part| <= |t| && t[p..p + |part|] == part
  }

  lemma AtConcat(t: Text, p: nat, a: Text, b: Text)
    ensures At(t, p, a + b) <==> At(t, p, a) && At(t, p + |a|, b)
  {
    if At(t, p, a + b) {
      assert t[p..p + |a|] == t[p..p + |a + b|][..|a|];
      assert t[p + |a|..p + |a| + |b|] == t[p..p + |a + b|][|a|..];
    }
    if At(t, p, a) && At(t, p + |a|, b) {
      assert t[p..p + |a + b|] == t[p..p + |a|] + t[p + |a|..p + |a| + |b|];
    }
  }

  lemma AtIndex(t: Text, p: nat, part: Text, i: nat)
    requires At(t, p, part) && i < |part|
    ensures t[p + i] == part[i] == Peek(t, p + i)
  {
    assert t[p..p + |part|][i] == t[p + i];
  }

  lemma AtSlice(t: Text, p: nat, q: nat)
    requires p <= q <= |t|
    ensures At(t, p, t[p..q])
  {
  }

  lemma Slice(t: Text, p: nat, q: nat, r: nat)
    requires p <= q <= r <= |t|
    ensures t[p..r] == t[p..q] + t[q..r]
  {
  }

  // ---- white space and digits ----------------------------------------------------

  lemma {:induction false} SkipSpaceReads(t: Text, p: nat, ws: Text)
    requires At(t, p, ws) && AllSpace(ws) && !Space(Peek(t, p + |ws|))
    ensures SkipSpace(t, p) == p + |ws|
    decreases |ws|
  {
    if ws != [] {
      AtIndex(t, p, ws, 0);
      AtConcat(t, p, ws[..1], ws[1..]);
      assert ws == ws[..1] + ws[1..];
      SkipSpaceReads(t, p + 1, ws[1..]);
    }
  }

  lemma {:induction false} SkipSpaceStops(t: Text, p: nat)
    requires p <= |t|
    ensures AllSpace(t[p..SkipSpace(t, p)]) && !Space(Peek(t, SkipSpace(t, p)))
    decreases |t| - p
  {
    if Space(Peek(t, p)) {
      SkipSpaceStops(t, p + 1);
      assert t[p..SkipSpace(t, p)] == [t[p]] + t[p + 1..SkipSpace(t, p)];
    }
  }

  lemma {:induction false} SkipDigitsReads(t: Text, p: nat, ds: Text)
    requires At(t, p, ds) && AllDigits(ds) && !DigitChar(Peek(t, p + |ds|))
    ensures SkipDigits(t, p) == p + |ds|
    decreases |ds|
  {
    if ds != [] {
      AtIndex(t, p, ds, 0);
      AtConcat(t, p, ds[..1], ds[1..]);
      assert ds == ds[..1] + ds[1..];
      SkipDigitsReads(t, p + 1, ds[1..]);
    }
  }

  lemma {:induction false} SkipDigitsStops(t: Text, p: nat)
    requires p <= |t|
    ensures AllDigits(t[p..SkipDigits(t, p)]) && !DigitChar(Peek(t, SkipDigits(t, p)))
    decreases |t| - p
  {
    if DigitChar(Peek(t, p)) {
      SkipDigitsStops(t, p + 1);
      assert t[p..SkipDigits(t, p)] == [t[p]] + t[p + 1..SkipDigits(t, p)];
    }
  }

  // ---- numbers ---------------------------------------------------------------------

  /** A character that cannot continue a number. */
  predicate Stops(c: int) {
    !DigitChar(c) && c != DOT && c != 0x65 && c != 0x45
  }

  lemma IntegerReads(t: Text, p: nat, i: Text)
    requires At(t, p, i) && IsInt(i) && !DigitChar(Peek(t, p + |i|))
    ensures IntegerEnd(t, p) == p + |i|
  {
    AtIndex(t, p, i, 0);
    if i[0] != 0x30 {
      AtConcat(t, p, i[..1], i[1..]);
      assert i == i[..1] + i[1..];
      SkipDigitsReads(t, p + 1, i[1..]);
    }
  }

  lemma FractionReads(t: Text, p: nat, f: Text)
    requires At(t, p, f) && IsFraction(f) && !DigitChar(Peek(t, p + |f|)) && (f == [] ==> Peek(t, p) != DOT)
    ensures FractionEnd(t, p) == p + |f|
  {
    if f != [] {
      AtIndex(t, p, f, 0);
      AtIndex(t, p, f, 1);
      AtConcat(t, p, f[..1], f[1..]);
      assert f == f[..1] + f[1..];
      assert f[1..][0] == f[1];
      SkipDigitsReads(t, p + 1, f[1..]);
    }
  }

  lemma ExponentReads(t: Text, p: nat, e: Text)
    requires At(t, p, e) && IsExponent(e) && Stops(Peek(t, p + |e|))
    ensures ExponentEnd(t, p) == p + |e|
  {
    if e != [] {
      AtIndex(t, p, e, 0);
      AtIndex(t, p, e, 1);
      var k := if Sign(e[1]) then 2 else 1;
      assert AllDigits(e[k..]) by {
        if !Sign(e[1]) {
          assert |e| > 1 && AllDigits(e[1..]);
        } else {
          assert !DigitChar(e[1..][0]);
        }
      }
      AtConcat(t, p, e[..k], e[k..]);
      assert e == e[..k] + e[k..];
      AtIndex(t, p + k, e[k..], 0);
      SkipDigitsReads(t, p + k, e[k..]);
    }
  }

  lemma AtConcat4(t: Text, p: nat, a: Text, b: Text, c: Text, d: Text)
    requires At(t, p, a + b + c + d)
    ensures At(t, p, a) && At(t, p + |a|, b) && At(t, p + |a| + |b|, c) && At(t, p + |a| + |b| + |c|, d)
  {
    AtConcat(t, p, a + b + c, d);
    AtConcat(t, p, a + b, c);
    AtConcat(t, p, a, b);
  }

  /** The first character of a part, or of what follows an empty one. */
  lemma PeekPart(t: Text, p: nat, part: Text)
    requires At(t, p, part)
    ensures p + |part| <= |t|
    ensures part != [] ==> Peek(t, p) == part[0]
  {
    if part != [] {
      AtIndex(t, p, part, 0);
    }
  }

  lemma NumberPartsRead(t: Text, p: nat, s: Text, i: Text, f: Text, e: Text)
    requires At(t, p, s) && At(t, p + |s|, i) && At(t, p + |s| + |i|, f) && At(t, p + |s| + |i| + |f|, e)
    requires IsSign(s) && IsInt(i) && IsFraction(f) && IsExponent(e)
    requires Stops(Peek(t, p + |s| + |i| + |f| + |e|))
    ensures var end := p + |s| + |i| + |f| + |e|; ParseNumber(t, p) == Done(t[p..end], end)
    ensures Peek(t, p) == MINUS || DigitChar(Peek(t, p))
  {
    hide IntegerEnd, FractionEnd, ExponentEnd, At;
    var p1 := p + |s|;
    var p2 := p1 + |i|;
    var p3 := p2 + |f|;
    PeekPart(t, p, s);
    PeekPart(t, p1, i);
    PeekPart(t, p2, f);
    PeekPart(t, p3, e);
    IntegerReads(t, p1, i);
    FractionReads(t, p2, f);
    ExponentReads(t, p3, e);
  }

  lemma NumberReads(t: Text, p: nat, raw: Text)
    requires At(t, p, raw) && IsNumber(raw) && Stops(Peek(t, p + |raw|))
    ensures ParseNumber(t, p) == Done(raw, p + |raw|)
    ensures Peek(t, p) == MINUS || DigitChar(Peek(t, p))
  {
    hide ParseNumber, IsSign, IsInt, IsFraction, IsExponent;
    var s, i, f, e :| NumberParts(raw, s, i, f, e);
    AtConcat4(t, p, s, i, f, e);
    NumberPartsRead(t, p, s, i, f, e);
  }

  lemma IntegerSound(t: Text, p: nat)
    requires p <= |t| && IntegerEnd(t, p) != -1
    ensures IsInt(t[p..IntegerEnd(t, p)])
  {
    if t[p] != 0x30 {
      SkipDigitsStops(t, p + 1);
      assert t[p..IntegerEnd(t, p)] == [t[p]] + t[p + 1..IntegerEnd(t, p)];
    }
  }

  lemma FractionSound(t: Text, p: nat)
    requires p <= |t| && FractionEnd(t, p) != -1
    ensures IsFraction(t[p..FractionEnd(t, p)])
  {
    var f := t[p..FractionEnd(t, p)];
    if f != [] {
      SkipDigitsStops(t, p + 1);
      assert f[1..] == t[p + 1..FractionEnd(t, p)];
    }
  }

  lemma ExponentSound(t: Text, p: nat)
    requires p <= |t| && ExponentEnd(t, p) != -1
    ensures IsExponent(t[p..ExponentEnd(t, p)])
  {
    var e := t[p..ExponentEnd(t, p)];
    if e != [] {
      var k := if Sign(Peek(t, p + 1)) then 2 else 1;
      SkipDigitsStops(t, p + k);
      assert e[k..] == t[p + k..ExponentEnd(t, p)];
    }
  }

  lemma NumberSound(t: Text, p: nat)
    requires p <= |t| && ParseNumber(t, p).Done?
    ensures IsNumber(ParseNumber(t, p).value)
    ensures At(t, p, ParseNumber(t, p).value) && p + |ParseNumber(t, p).value| == ParseNumber(t, p).pos
  {
    var p1 := if Peek(t, p) == MINUS then p + 1 else p;
    var p2: nat := IntegerEnd(t, p1);
    var p3: nat := FractionEnd(t, p2);
    var p4: nat := ExponentEnd(t, p3);
    IntegerSound(t, p1);
    FractionSound(t, p2);
    ExponentSound(t, p3);
    hide IsInt, IsFraction, IsExponent, IntegerEnd, FractionEnd, ExponentEnd;
    var s, i, f, e := t[p..p1], t[p1..p2], t[p2..p3], t[p3..p4];
    Slice(t, p, p1, p2);
    Slice(t, p, p2, p3);
    Slice(t, p, p3, p4);
    assert IsSign(s);
    assert NumberParts(t[p..p4], s, i, f, e);
  }

  // ---- strings -----------------------------------------------------------------------

  lemma {:induction false} StringReads(t: Text, p: nat, ps: seq<Piece>, out: Text)
    requires At(t, p, RenderPieces(ps) + [QUOTE]) && ValidPieces(ps)
    ensures ParseString(t, p, out) == Done(out + PiecesText(ps), p + |RenderPieces(ps)| + 1)
    decreases |ps|
  {
    if ps == [] {
      assert RenderPieces(ps) + [QUOTE] == [QUOTE];
      AtIndex(t, p, [QUOTE], 0);
      assert out + PiecesText(ps) == out;
    } else {
      var piece := RenderPiece(ps[0]);
      assert RenderPieces(ps) + [QUOTE] == piece + (RenderPieces(ps[1..]) + [QUOTE]);
      AtConcat(t, p, piece, RenderPieces(ps[1..]) + [QUOTE]);
      PieceReads(t, p, ps[0]);
      StringReads(t, p + |piece|, ps[1..], out + [PieceUnit(ps[0])]);
      assert out + PiecesText(ps) == out + [PieceUnit(ps[0])] + PiecesText(ps[1..]);
    }
  }

  lemma PieceReads(t: Text, p: nat, piece: Piece)
    requires At(t, p, RenderPiece(piece)) && ValidPiece(piece)
    ensures piece.Raw? ==> t[p] == piece.unit
    ensures !piece.Raw? ==>
              t[p] == BACKSLASH && ParseEscape(t, p) == Done(PieceUnit(piece), p + |RenderPiece(piece)|)
  {
    var text := RenderPiece(piece);
    AtIndex(t, p, text, 0);
    if !piece.Raw? {
      AtIndex(t, p, text, 1);
    }
    if piece.Hex? {
      AtIndex(t, p, text, 2);
      AtIndex(t, p, text, 3);
      AtIndex(t, p, text, 4);
      AtIndex(t, p, text, 5);
    }
  }

  /** The piece a successful escape was written as. */
  lemma EscapeSound(t: Text, p: nat) returns (piece: Piece)
    requires p < |t| && t[p] == BACKSLASH && ParseEscape(t, p).Done?
    ensures ValidPiece(piece) && PieceUnit(piece) == ParseEscape(t, p).value
    ensures At(t, p, RenderPiece(piece)) && p + |RenderPiece(piece)| == ParseEscape(t, p).pos
  {
    if t[p + 1] == 0x75 {
      piece := Hex(t[p + 2], t[p + 3], t[p + 4], t[p + 5]);
      assert t[p..p + 6] == RenderPiece(piece);
    } else {
      piece := Short(t[p + 1]);
      assert t[p..p + 2] == RenderPiece(piece);
    }
  }

  /** One step of the string loop reads one piece. */
  lemma StepSound(t: Text, p: nat, out: Text) returns (piece: Piece)
    requires p < |t| && ParseString(t, p, out).Done? && t[p] != QUOTE
    ensures ValidPiece(piece) && At(t, p, RenderPiece(piece))
    ensures ParseString(t, p, out) == ParseString(t, p + |RenderPiece(piece)|, out + [PieceUnit(piece)])
  {
    if t[p] == BACKSLASH {
      piece := EscapeSound(t, p);
    } else {
      piece := Raw(t[p]);
      assert RenderPiece(piece) == t[p..p + 1];
    }
  }

  lemma ConsPiece(piece: Piece, rest: seq<Piece>)
    requires ValidPiece(piece) && ValidPieces(rest)
    ensures ValidPieces([piece] + rest)
    ensures PiecesText([piece] + rest) == [PieceUnit(piece)] + PiecesText(rest)
    ensures RenderPieces([piece] + rest) == RenderPiece(piece) + RenderPieces(rest)
  {
    assert ([piece] + rest)[1..] == rest;
  }

  lemma ConsRendered(t: Text, p: nat, piece: Piece, rest: seq<Piece>, out: Text)
    requires ValidPiece(piece) && ValidPieces(rest)
    requires At(t, p, RenderPiece(piece)) && At(t, p + |RenderPiece(piece)|, RenderPieces(rest) + [QUOTE])
    ensures var ps := [piece] + rest;
      && ValidPieces(ps) && At(t, p, RenderPieces(ps) + [QUOTE])
      && |RenderPieces(ps)| == |RenderPiece(piece)| + |RenderPieces(rest)|
      && out + PiecesText(ps) == out + [PieceUnit(piece)] + PiecesText(rest)
  {
    hide ValidPiece, PieceUnit, RenderPiece;
    ConsPiece(piece, rest);
    AtConcat(t, p, RenderPiece(piece), RenderPieces(rest) + [QUOTE]);
    assert RenderPiece(piece) + RenderPieces(rest) + [QUOTE] == RenderPiece(piece) + (RenderPieces(rest) + [QUOTE]);
    assert out + ([PieceUnit(piece)] + PiecesText(rest)) == out + [PieceUnit(piece)] + PiecesText(rest);
  }

  lemma {:induction false} StringSound(t: Text, p: nat, out: Text) returns (ps: seq<Piece>)
    requires p <= |t| && ParseString(t, p, out).Done?
    ensures ValidPieces(ps) && ParseString(t, p, out).value == out + PiecesText(ps)
    ensures At(t, p, RenderPieces(ps) + [QUOTE])
    ensures p + |RenderPieces(ps)| + 1 == ParseString(t, p, out).pos
    decreases |t| - p
  {
    if t[p] == QUOTE {
      ps := [];
      assert RenderPieces(ps) + [QUOTE] == t[p..p + 1];
      assert out + PiecesText(ps) == out;
    } else {
      hide ValidPiece, PieceUnit, ValidPieces;
      var piece := StepSound(t, p, out);
      hide ParseString;
      assert |RenderPiece(piece)| > 0;
      var rest := StringSound(t, p + |RenderPiece(piece)|, out + [PieceUnit(piece)]);
      ConsRendered(t, p, piece, rest, out);
      ps := [piece] + rest;
    }
  }

  lemma QuotedReads(t: Text, p: nat, ps: seq<Piece>)
    requires At(t, p, RenderString(ps)) && ValidPieces(ps)
    ensures t[p] == QUOTE
    ensures ParseString(t, p + 1, []) == Done(PiecesText(ps), p + |RenderString(ps)|)
  {
    assert RenderString(ps) == [QUOTE] + (RenderPieces(ps) + [QUOTE]);
    AtConcat(t, p, [QUOTE], RenderPieces(ps) + [QUOTE]);
    AtIndex(t, p, [QUOTE], 0);
    StringReads(t, p + 1, ps, []);
    assert [] + PiecesText(ps) == PiecesText(ps);
  }
}
