/**
 Which canonical float texts are the one text of their value. The grammar alone
 admits several (`100` and `1e+2`); those laid out as Number::toString lays them
 out are unique, and every other canonical text has such a twin.
 */
module FloatLayout {
  import opened Unicode
  import opened Json
  import opened Numerals
  import opened FloatText

  function LeadingZeros(t: Text): nat {
    |t| - |LeftStrip(t)|
  }

  /** A guard on the parts: the thresholds of Number::toString. */
  predicate PlainLayout(i: Text, f: Text, e: Text)
    requires IsFloatExponent(e)
  {
    if e == [] then
      if i == [ZERO] then LeadingZeros(Decimals(f)) < 6 else |i| <= INTEGER_LIMIT
    else
      |i| == 1 && i != [ZERO] && (ExponentOf(e) >= INTEGER_LIMIT || ExponentOf(e) < -6)
  }

  /** The significant digits of a text, and where the decimal point stands among them. */
  function DigitsOf(i: Text, f: Text): Text {
    RightStrip(LeftStrip(i + Decimals(f)))
  }

  function PointOf(i: Text, f: Text, e: Text): int
    requires IsFloatExponent(e)
  {
    ExponentOf(e) - |Decimals(f)| + |LeftStrip(i + Decimals(f))|
  }

  ghost predicate IsFloat(t: Text, negative: bool, i: Text, f: Text, e: Text) {
    FloatParts(t, if negative then [MINUS] else [], i, f, e) && FloatRules(t, i, f, false) && t != [ZERO]
  }

  lemma FloatDigits(t: Text, negative: bool, i: Text, f: Text, e: Text)
    requires IsFloat(t, negative, i, f, e)
    ensures AllDigits(i + Decimals(f))
    ensures exists k :: 0 <= k < |i + Decimals(f)| && (i + Decimals(f))[k] != ZERO
  {
    var all := i + Decimals(f);
    if f == [] {
      assert i != [ZERO];
      assert all[0] != ZERO;
    } else {
      assert all[|all| - 1] == f[|f| - 1];
    }
  }

  lemma {:induction false} StripLeavesNonzero(t: Text, k: nat)
    requires AllDigits(t) && k < |t| && t[k] != ZERO
    ensures LeftStrip(t) != [] && RightStrip(LeftStrip(t)) != []
  {
    LeftStripKeeps(t);
    if t[0] == ZERO {
      StripLeavesNonzero(t[1..], k - 1);
    } else {
      FirstSurvives(t);
    }
  }

  lemma {:induction false} FirstSurvives(t: Text)
    requires t != [] && t[0] != ZERO
    ensures RightStrip(t) != []
  {
    if t[|t| - 1] == ZERO {
      FirstSurvives(t[..|t| - 1]);
    }
  }

  lemma DigitsAreSignificant(t: Text, negative: bool, i: Text, f: Text, e: Text)
    requires IsFloat(t, negative, i, f, e)
    ensures Significant(DigitsOf(i, f))
  {
    var all := i + Decimals(f);
    FloatDigits(t, negative, i, f, e);
    var k :| 0 <= k < |all| && all[k] != ZERO;
    StripLeavesNonzero(all, k);
    LeftStripKeeps(all);
    RightStripKeeps(LeftStrip(all));
  }

  // ---- the twin --------------------------------------------------------------------------

  function Twin(negative: bool, i: Text, f: Text, e: Text): Text
    requires IsFloatExponent(e) && DigitsOf(i, f) != []
  {
    (if negative then [MINUS] else []) + EcmaNumberText(DigitsOf(i, f), PointOf(i, f, e))
  }

  lemma SameItself(m: nat, p: int)
    ensures SameNumber(m, p, m, p)
  {
    assert Pow10(0) == 1;
  }

  /** The twin denotes the same number, and so does the text itself. */
  lemma TwinDenotesSame(t: Text, negative: bool, i: Text, f: Text, e: Text)
    requires IsFloat(t, negative, i, f, e)
    ensures DigitsOf(i, f) != [] && AllDigits(i + Decimals(f))
    ensures var m, p := DigitsValue(i + Decimals(f)), ExponentOf(e) - |Decimals(f)|;
      Denotes(t, negative, m, p) && Denotes(Twin(negative, i, f, e), negative, m, p)
  {
    hide DigitsValue, EcmaNumberText, Denotes, ExponentOf, IsInt, IsFloatFraction, IsFloatExponent;
    var all := i + Decimals(f);
    FloatDigits(t, negative, i, f, e);
    var m, p := DigitsValue(all), ExponentOf(e) - |Decimals(f)|;
    DigitsAreSignificant(t, negative, i, f, e);
    SameItself(m, p);
    PartsDenote(t, negative, i, f, e, m, p);
    LeftStripKeeps(all);
    var left := LeftStrip(all);
    RightStripKeeps(left);
    var digits, n := DigitsOf(i, f), PointOf(i, f, e);
    var dropped := |left| - |digits|;
    StrippedIsSame(digits, dropped, m, p);
    TextDenotesDigits(digits, n, negative);
    DenotesSame(Twin(negative, i, f, e), negative, digits, n - |digits|, m, p);
  }

  // ---- when the text is its own twin ----------------------------------------------------------

  lemma NothingToStrip(t: Text)
    requires t != []
    ensures t[0] != ZERO ==> LeftStrip(t) == t
    ensures t[|t| - 1] != ZERO ==> RightStrip(t) == t
  {
  }

  lemma {:induction false} LeftStripSplit(t: Text)
    ensures |LeftStrip(t)| <= |t| && t == Zeros(|t| - |LeftStrip(t)|) + LeftStrip(t)
  {
    if t != [] && t[0] == ZERO {
      LeftStripSplit(t[1..]);
      var z := |t| - |LeftStrip(t)|;
      assert Zeros(z) == [ZERO] + Zeros(z - 1);
      assert t == [ZERO] + t[1..];
    } else {
      assert t == Zeros(0) + t;
    }
  }

  lemma IntegerTwin(i: Text)
    requires IsInt(i) && i != [ZERO] && |i| <= INTEGER_LIMIT
    ensures DigitsOf(i, []) != [] && EcmaNumberText(DigitsOf(i, []), |LeftStrip(i + Decimals([]))|) == i
  {
    assert i + Decimals([]) == i;
    NothingToStrip(i);
    RightStripKeeps(i);
    FirstSurvives(i);
  }

  lemma FractionTwin(i: Text, f: Text)
    requires IsInt(i) && i != [ZERO] && |i| <= INTEGER_LIMIT && IsFloatFraction(f) && f != []
    ensures DigitsOf(i, f) == i + Decimals(f) && |LeftStrip(i + Decimals(f))| == |i| + |Decimals(f)|
    ensures EcmaNumberText(i + Decimals(f), |i|) == i + f
  {
    var all := i + Decimals(f);
    NothingToStrip(all);
    assert all[..|i|] == i && all[|i|..] == Decimals(f);
    assert [DOT] + Decimals(f) == f;
  }

  lemma SmallTwin(f: Text)
    requires IsFloatFraction(f) && f != [] && LeadingZeros(Decimals(f)) < 6
    ensures var digits := LeftStrip(Decimals(f));
      && digits != [] && DigitsOf([ZERO], f) == digits && LeftStrip([ZERO] + Decimals(f)) == digits
      && EcmaNumberText(digits, |digits| - |Decimals(f)|) == [ZERO] + f
  {
    var tail := Decimals(f);
    var digits := LeftStrip(tail);
    assert ([ZERO] + tail)[1..] == tail;
    LeftStripSplit(tail);
    assert tail[|tail| - 1] == f[|f| - 1] != ZERO;
    StripLeavesNonzero(tail, |tail| - 1);
    assert digits[|digits| - 1] == tail[|tail| - 1];
    NothingToStrip(digits);
    assert [ZERO, DOT] + (Zeros(LeadingZeros(tail)) + digits) == [ZERO] + f;
  }

  lemma ExponentUnique(e: Text)
    requires IsFloatExponent(e) && e != []
    ensures ExponentOf(e) != 0 && ExponentText(ExponentOf(e)) == e
  {
    var digits := e[2..];
    assert IsInt(digits);
    DigitsUnique(digits);
    PositiveValue(digits);
    assert e == [0x65] + ([e[1]] + digits);
  }

  lemma ScientificTwin(i: Text, f: Text, e: Text)
    requires IsInt(i) && |i| == 1 && i != [ZERO] && IsFloatFraction(f) && IsFloatExponent(e) && e != []
    requires ExponentOf(e) >= INTEGER_LIMIT || ExponentOf(e) < -6
    ensures DigitsOf(i, f) == i + Decimals(f) && |LeftStrip(i + Decimals(f))| == 1 + |Decimals(f)|
    ensures EcmaNumberText(i + Decimals(f), ExponentOf(e) + 1) == i + f + e
  {
    var all := i + Decimals(f);
    NothingToStrip(all);
    if f != [] {
      assert all[|all| - 1] == f[|f| - 1];
    } else {
      assert all == i;
    }
    assert RightStrip(all) == all;
    ExponentUnique(e);
    hide ExponentText, ExponentOf;
    if f == [] {
      assert i + f + e == i + e;
    } else {
      assert all[1..] == Decimals(f) && [all[0]] == i && [DOT] + Decimals(f) == f;
      assert i + ([DOT] + (Decimals(f) + e)) == i + f + e;
    }
  }

  lemma PlainIsTwin(t: Text, negative: bool, i: Text, f: Text, e: Text)
    requires IsFloat(t, negative, i, f, e) && PlainLayout(i, f, e)
    ensures DigitsOf(i, f) != [] && t == Twin(negative, i, f, e)
  {
    hide EcmaNumberText, LeftStrip, RightStrip, ExponentOf;
    var s: Text := if negative then [MINUS] else [];
    assert ExponentOf([]) == 0 by { NoExponent(); }
    if e != [] {
      ScientificTwin(i, f, e);
      assert t == s + (i + f + e);
    } else if i == [ZERO] {
      SmallTwin(f);
      assert t == s + ([ZERO] + f);
    } else if f == [] {
      IntegerTwin(i);
      assert t == s + i;
    } else {
      FractionTwin(i, f);
      assert t == s + (i + f);
    }
  }

  lemma NoExponent()
    ensures ExponentOf([]) == 0
  {
  }

  lemma PartsUnique(t: Text, s: Text, i: Text, f: Text, e: Text, s': Text, i': Text, f': Text, e': Text)
    requires FloatParts(t, s, i, f, e) && FloatParts(t, s', i', f', e')
    ensures i == i' && f == f' && e == e'
  {
    PartsStand(t, s, i, f, e);
    PartsStand(t, s', i', f', e');
    FloatPartsGiveEnds(t, s, i, f, e);
    FloatPartsGiveEnds(t, s', i', f', e');
    hide IsInt, IsFloatFraction, IsFloatExponent;
  }

  /** What Number::toString writes is in plain layout. */
  lemma TextIsPlain(digits: Text, n: int)
    requires Significant(digits)
    ensures IsFloatExponent(Exponent(digits, n)) && PlainLayout(Whole(digits, n), Fraction(digits, n), Exponent(digits, n))
  {
    ExponentIsCanonical(digits, n);
    if -6 < n <= 0 {
      var tail := Decimals(Fraction(digits, n));
      assert tail == Zeros(-n) + digits;
      LeadingZerosOf(-n, digits);
    } else if n > INTEGER_LIMIT || n <= -6 {
      assert Exponent(digits, n) != [];
    } else if 0 < n < |digits| {
      assert Whole(digits, n)[0] == digits[0];
    } else {
      assert Whole(digits, n)[0] == digits[0];
    }
  }

  lemma {:induction false} LeadingZerosOf(z: nat, digits: Text)
    requires digits != [] && digits[0] != ZERO
    ensures LeadingZeros(Zeros(z) + digits) == z
  {
    if z == 0 {
      assert Zeros(0) + digits == digits;
    } else {
      LeadingZerosOf(z - 1, digits);
      assert (Zeros(z) + digits)[1..] == Zeros(z - 1) + digits;
    }
  }

  lemma TwinIsPlain(t: Text, negative: bool, i: Text, f: Text, e: Text)
    requires IsFloat(t, negative, i, f, e) && DigitsOf(i, f) != [] && t == Twin(negative, i, f, e)
    ensures PlainLayout(i, f, e)
  {
    hide EcmaNumberText, Whole, Fraction, Exponent, IsInt, IsFloatFraction, IsFloatExponent, PlainLayout, DigitsOf, PointOf;
    var s: Text := if negative then [MINUS] else [];
    var digits, n := DigitsOf(i, f), PointOf(i, f, e);
    DigitsAreSignificant(t, negative, i, f, e);
    PartsOfText(digits, n);
    WholeIsInt(digits, n);
    FractionIsCanonical(digits, n);
    ExponentIsCanonical(digits, n);
    SignThen(s, Whole(digits, n), Fraction(digits, n), Exponent(digits, n));
    PartsUnique(t, s, i, f, e, s, Whole(digits, n), Fraction(digits, n), Exponent(digits, n));
    TextIsPlain(digits, n);
  }

  /**
   A nonzero canonical text is the Number::toString layout of its own value exactly
   when its parts pass the guard; otherwise its twin is a second text of the value.
   */
  lemma PlainIffOwnTwin(t: Text, negative: bool, i: Text, f: Text, e: Text)
    requires IsFloat(t, negative, i, f, e)
    ensures DigitsOf(i, f) != [] && (PlainLayout(i, f, e) <==> t == Twin(negative, i, f, e))
  {
    hide PlainLayout, Twin, DigitsOf, IsFloatFraction, IsFloatExponent, IsInt;
    DigitsAreSignificant(t, negative, i, f, e);
    if PlainLayout(i, f, e) {
      PlainIsTwin(t, negative, i, f, e);
    }
    if t == Twin(negative, i, f, e) {
      TwinIsPlain(t, negative, i, f, e);
    }
  }

  // ---- one text per value -----------------------------------------------------------------------

  lemma LastDigit(t: Text)
    requires AllDigits(t) && t != []
    ensures DigitsValue(t) % 10 == t[|t| - 1] - ZERO
  {
  }

  lemma MultipleOfTen(v: nat, n: nat)
    requires n > 0
    ensures v * Pow10(n) % 10 == 0
  {
    Tenfold(v, n);
  }

  lemma LastIsNonzero(t: Text)
    requires Significant(t)
    ensures DigitsValue(t) % 10 != 0
  {
    LastDigit(t);
  }

  lemma SameDigits(d: Text, c: Text)
    requires Significant(d) && Significant(c) && DigitsValue(d) == DigitsValue(c)
    ensures d == c
  {
    hide DigitsValue;
    DigitsUnique(d);
    DigitsUnique(c);
  }

  lemma SamePower(d: nat, p: int, c: nat, q: int)
    requires SameNumber(d, p, c, q) && d % 10 != 0 && c % 10 != 0
    ensures d == c && p == q
  {
    hide Pow10;
    if p > q {
      MultipleOfTen(d, p - q);
    } else if p < q {
      MultipleOfTen(c, q - p);
    } else {
      assert Pow10(0) == 1 by { PowSum(0, 0); PowPositive(0); }
    }
  }

  /** Significant digits and the place of the point are determined by the value. */
  lemma DigitsDetermined(d: Text, m: int, c: Text, n: int)
    requires Significant(d) && Significant(c)
    requires SameNumber(DigitsValue(d), m - |d|, DigitsValue(c), n - |c|)
    ensures d == c && m == n
  {
    hide DigitsValue, SameNumber;
    LastIsNonzero(d);
    LastIsNonzero(c);
    SamePower(DigitsValue(d), m - |d|, DigitsValue(c), n - |c|);
    SameDigits(d, c);
  }

  /** Compared at any common exponent, equal numbers have equal digits. */
  lemma AtCommonExponent(m: nat, p: int, d: nat, e: int, low: int)
    requires low <= p && low <= e
    ensures SameNumber(m, p, d, e) <==> m * Pow10(p - low) == d * Pow10(e - low)
  {
    hide Pow10;
    if p >= e {
      PowSum(p - e, e - low);
      PowPositive(e - low);
      Regroup(m, Pow10(p - e), Pow10(e - low));
      Cancel(m * Pow10(p - e), d, Pow10(e - low));
    } else {
      PowSum(e - p, p - low);
      PowPositive(p - low);
      Regroup(d, Pow10(e - p), Pow10(p - low));
      Cancel(m, d * Pow10(e - p), Pow10(p - low));
    }
  }

  lemma Cancel(a: nat, b: nat, z: nat)
    requires z > 0
    ensures a == b <==> a * z == b * z
  {
    if a < b {
      assert (b - a) * z > 0;
    } else if b < a {
      assert (a - b) * z > 0;
    }
  }

  lemma SameNumberTrans(a: nat, p: int, b: nat, q: int, c: nat, r: int)
    requires SameNumber(a, p, b, q) && SameNumber(b, q, c, r)
    ensures SameNumber(a, p, c, r) && SameNumber(b, q, a, p)
  {
    hide Pow10, SameNumber;
    var low := if p <= q && p <= r then p else if q <= r then q else r;
    AtCommonExponent(a, p, b, q, low);
    AtCommonExponent(b, q, c, r, low);
    AtCommonExponent(a, p, c, r, low);
    AtCommonExponent(b, q, a, p, low);
  }

  /** canonical_float_text depends on the value of a repr only, not on how the repr spells it. */
  lemma RenderingUnique(t: Text, t': Text, negative: bool, v: nat, x: int, v': nat, x': int)
    requires Renders(t, negative, v, x) && Renders(t', negative, v', x') && SameNumber(v, x, v', x')
    ensures t == t'
  {
    hide EcmaNumberText, SameNumber, DigitsValue;
    var c, n :| RendersWith(t, negative, v, x, c, n);
    var c', n' :| RendersWith(t', negative, v', x', c', n');
    var d, d', p, p' := DigitsValue(c), DigitsValue(c'), n - |c|, n' - |c'|;
    SameNumberTrans(d, p, v, x, v', x');
    SameItself(v', x');
    SameNumberTrans(d', p', v', x', v', x');
    SameNumberTrans(d, p, v', x', d', p');
    DigitsDetermined(c, n, c', n');
  }

  /** Every text in plain layout is such a rendering of its own value, so it is the only one. */
  lemma PlainIffRendered(t: Text, negative: bool, i: Text, f: Text, e: Text)
    requires IsFloat(t, negative, i, f, e)
    ensures AllDigits(i + Decimals(f))
    ensures PlainLayout(i, f, e) <==> Renders(t, negative, DigitsValue(i + Decimals(f)), ExponentOf(e) - |Decimals(f)|)
  {
    hide PlainLayout, EcmaNumberText, DigitsValue, SameNumber, IsInt, IsFloatFraction, IsFloatExponent, ExponentOf, RightStrip;
    FloatDigits(t, negative, i, f, e);
    PlainIffOwnTwin(t, negative, i, f, e);
    TwinIsRendered(t, negative, i, f, e);
    var v, x := DigitsValue(i + Decimals(f)), ExponentOf(e) - |Decimals(f)|;
    if Renders(t, negative, v, x) {
      SameItself(v, x);
      RenderingUnique(t, Twin(negative, i, f, e), negative, v, x, v, x);
    }
  }

  lemma TwinIsRendered(t: Text, negative: bool, i: Text, f: Text, e: Text)
    requires IsFloat(t, negative, i, f, e)
    ensures DigitsOf(i, f) != [] && AllDigits(i + Decimals(f))
    ensures Renders(Twin(negative, i, f, e), negative, DigitsValue(i + Decimals(f)), ExponentOf(e) - |Decimals(f)|)
  {
    hide DigitsValue, EcmaNumberText, ExponentOf, IsInt, IsFloatFraction, IsFloatExponent;
    var all := i + Decimals(f);
    FloatDigits(t, negative, i, f, e);
    DigitsAreSignificant(t, negative, i, f, e);
    LeftStripKeeps(all);
    var left := LeftStrip(all);
    RightStripKeeps(left);
    var digits, n := DigitsOf(i, f), PointOf(i, f, e);
    var v, x := DigitsValue(all), ExponentOf(e) - |Decimals(f)|;
    StrippedIsSame(digits, |left| - |digits|, v, x);
    assert RendersWith(Twin(negative, i, f, e), negative, v, x, digits, n);
  }
}
