/** Decimal text: bigint `toString`, `BigInt(text)`, and the canonical integer and float grammars. */
module Numerals {
  import opened Unicode
  import opened Json
  import opened JsonParser
  import S = JsonSyntax

  const ZERO: Unit := 0x30

  function Digits(n: nat): Text {
    if n < 10 then [ZERO + n] else Digits(n / 10) + [ZERO + n % 10]
  }

  /** `value.toString()` of a bigint. */
  function Decimal(n: int): Text {
    if n < 0 then [MINUS] + Digits(-n) else Digits(n)
  }

  function DigitsValue(t: Text): nat
    requires AllDigits(t)
  {
    if t == [] then 0 else 10 * DigitsValue(t[..|t| - 1]) + (t[|t| - 1] - ZERO)
  }

  /** `^-?(0|[1-9][0-9]*)$`, other than `-0`. */
  predicate IsCanonicalInt(t: Text) {
    (IsInt(t) || (|t| > 1 && t[0] == MINUS && IsInt(t[1..]))) && t != [MINUS, ZERO]
  }

  /** `BigInt(text)` of canonical text. */
  function BigIntOf(t: Text): int
    requires IsCanonicalInt(t)
  {
    if t[0] == MINUS then 0 - DigitsValue(t[1..]) else DigitsValue(t)
  }

  lemma {:induction false} DigitsRead(n: nat)
    ensures IsInt(Digits(n)) && DigitsValue(Digits(n)) == n
    ensures Digits(n)[0] == ZERO <==> n == 0
  {
    if n >= 10 {
      DigitsRead(n / 10);
      assert Digits(n)[..|Digits(n)| - 1] == Digits(n / 10);
    } else {
      assert Digits(n)[..0] == [];
    }
  }

  lemma {:induction false} DigitsUnique(t: Text)
    requires IsInt(t)
    ensures Digits(DigitsValue(t)) == t
    ensures DigitsValue(t) == 0 ==> t == [ZERO]
  {
    var init, last := t[..|t| - 1], t[|t| - 1] - ZERO;
    assert t == init + [t[|t| - 1]];
    if init == [] {
      assert DigitsValue(t) == last;
    } else {
      assert init[0] == t[0];
      DigitsUnique(init);
      var n := DigitsValue(init);
      assert n > 0;
      assert (10 * n + last) / 10 == n && (10 * n + last) % 10 == last;
    }
  }

  /** Printing an integer and reading it back. */
  lemma DecimalReads(n: int)
    ensures IsCanonicalInt(Decimal(n)) && BigIntOf(Decimal(n)) == n
  {
    if n < 0 {
      DigitsRead(-n);
      assert Decimal(n)[1..] == Digits(-n);
    } else {
      DigitsRead(n);
    }
  }

  /** Each integer has one canonical text. */
  lemma DecimalUnique(t: Text)
    requires IsCanonicalInt(t)
    ensures Decimal(BigIntOf(t)) == t
  {
    if t[0] == MINUS {
      DigitsUnique(t[1..]);
      assert t == [MINUS] + t[1..];
    } else {
      DigitsUnique(t);
    }
  }

  lemma DecimalIsNumber(n: int)
    ensures IsNumber(Decimal(n))
  {
    var s: Text, i := if n < 0 then [MINUS] else [], Digits(if n < 0 then -n else n);
    DigitsRead(if n < 0 then -n else n);
    assert Decimal(n) == s + i + [] + [];
    assert NumberParts(Decimal(n), s, i, [], []);
  }

  // ---- canonical float text --------------------------------------------------------

  /** `(\.[0-9]*[1-9])?` */
  predicate IsFloatFraction(f: Text) {
    f == [] || (|f| > 1 && f[0] == DOT && AllDigits(f[1..]) && f[|f| - 1] != ZERO)
  }

  /** `(e[+-][1-9][0-9]*)?` */
  predicate IsFloatExponent(e: Text) {
    e == [] || (|e| > 2 && e[0] == 0x65 && Sign(e[1]) && AllDigits(e[2..]) && e[2] != ZERO)
  }

  predicate FloatParts(t: Text, s: Text, i: Text, f: Text, e: Text) {
    t == s + i + f + e && IsSign(s) && IsInt(i) && IsFloatFraction(f) && IsFloatExponent(e)
  }

  /** A zero magnitude is written `0`, and so is negative zero, which the flag carries. */
  predicate FloatRules(t: Text, i: Text, f: Text, negativeZero: bool) {
    (i == [ZERO] && f == [] ==> t == [ZERO]) && (negativeZero ==> t == [ZERO])
  }

  /** `isCanonicalFloat`: match greedily, then look at the parts. */
  predicate IsCanonicalFloat(t: Text, negativeZero: bool) {
    var p := if Peek(t, 0) == MINUS then 1 else 0;
    var q := IntegerEnd(t, p);
    q != -1 &&
    var r := FractionEnd(t, q);
    r != -1 && ExponentEnd(t, r) == |t|
    && IsFloatFraction(t[q..r]) && IsFloatExponent(t[r..])
    && FloatRules(t, t[p..q], t[q..r], negativeZero)
  }

  predicate PartsAt(t: Text, s: Text, i: Text, f: Text, e: Text) {
    S.At(t, 0, s) && S.At(t, |s|, i) && S.At(t, |s| + |i|, f) && S.At(t, |s| + |i| + |f|, e)
    && |t| == |s| + |i| + |f| + |e|
  }

  lemma PartsStand(t: Text, s: Text, i: Text, f: Text, e: Text)
    requires t == s + i + f + e
    ensures PartsAt(t, s, i, f, e)
  {
    assert S.At(t, 0, s + i + f + e);
    S.AtConcat4(t, 0, s, i, f, e);
  }

  lemma FloatPartsGiveEnds(t: Text, s: Text, i: Text, f: Text, e: Text)
    requires PartsAt(t, s, i, f, e) && IsSign(s) && IsInt(i) && IsFloatFraction(f) && IsFloatExponent(e)
    ensures |s| == if Peek(t, 0) == MINUS then 1 else 0
    ensures IntegerEnd(t, |s|) == |s| + |i| && FractionEnd(t, |s| + |i|) == |s| + |i| + |f|
    ensures ExponentEnd(t, |s| + |i| + |f|) == |t|
  {
    hide IntegerEnd, FractionEnd, ExponentEnd, S.At;
    S.PeekPart(t, 0, s);
    S.PeekPart(t, |s|, i);
    S.PeekPart(t, |s| + |i|, f);
    S.PeekPart(t, |s| + |i| + |f|, e);
    S.IntegerReads(t, |s|, i);
    S.FractionReads(t, |s| + |i|, f);
    S.ExponentReads(t, |s| + |i| + |f|, e);
  }

  lemma FloatPartsAccepted(t: Text, s: Text, i: Text, f: Text, e: Text, negativeZero: bool)
    requires FloatParts(t, s, i, f, e) && FloatRules(t, i, f, negativeZero)
    ensures IsCanonicalFloat(t, negativeZero)
  {
    PartsStand(t, s, i, f, e);
    FloatPartsGiveEnds(t, s, i, f, e);
    hide IsInt, IsFloatFraction, IsFloatExponent, IntegerEnd, FractionEnd, ExponentEnd;
    assert t[|s| + |i| + |f|..] == t[|s| + |i| + |f|..|t|];
  }

  lemma FloatPartsOf(t: Text, negativeZero: bool) returns (s: Text, i: Text, f: Text, e: Text)
    requires IsCanonicalFloat(t, negativeZero)
    ensures FloatParts(t, s, i, f, e) && FloatRules(t, i, f, negativeZero)
  {
    var p := if Peek(t, 0) == MINUS then 1 else 0;
    var q := IntegerEnd(t, p);
    var r := FractionEnd(t, q);
    S.IntegerSound(t, p);
    s, i, f, e := t[..p], t[p..q], t[q..r], t[r..];
    assert IsSign(s);
    hide IsInt, IsFloatFraction, IsFloatExponent, IntegerEnd, FractionEnd, ExponentEnd;
    assert t == s + i + f + e;
  }

  /** The scan decides the grammar. */
  lemma CanonicalFloatIffParts(t: Text, negativeZero: bool)
    ensures IsCanonicalFloat(t, negativeZero) <==>
            exists s, i, f, e :: FloatParts(t, s, i, f, e) && FloatRules(t, i, f, negativeZero)
  {
    hide IsCanonicalFloat, FloatParts, FloatRules;
    if IsCanonicalFloat(t, negativeZero) {
      var s, i, f, e := FloatPartsOf(t, negativeZero);
    }
    forall s, i, f, e | FloatParts(t, s, i, f, e) && FloatRules(t, i, f, negativeZero)
      ensures IsCanonicalFloat(t, negativeZero)
    {
      FloatPartsAccepted(t, s, i, f, e, negativeZero);
    }
  }
}
