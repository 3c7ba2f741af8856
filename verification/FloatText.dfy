/**
 Canonical float text (src/execution/runtimes/python/harness/canonical/grammar.py:114-176):
 the digits and exponent of a repr, reformatted by the rules of Number::toString
 (section 6.1.6.1.20 of ECMA-262). The shortest digits themselves are Python's.
 */
module FloatText {
  import opened Unicode
  import opened Json
  import opened Numerals

  function Pow10(n: nat): nat {
    if n == 0 then 1 else 10 * Pow10(n - 1)
  }

  /** `m * 10^p == d * 10^e`, without fractions. */
  predicate SameNumber(m: nat, p: int, d: nat, e: int) {
    if p >= e then m * Pow10(p - e) == d else m == d * Pow10(e - p)
  }

  function Zeros(n: nat): (r: Text)
    ensures |r| == n && forall i | 0 <= i < n :: r[i] == ZERO
  {
    seq(n, _ => ZERO)
  }

  // ---- what a text denotes ------------------------------------------------------------------

  /** The digits of a fraction part. */
  function Decimals(f: Text): Text {
    if f == [] then [] else f[1..]
  }

  function ExponentOf(e: Text): int
    requires IsFloatExponent(e)
  {
    if e == [] then 0 else if e[1] == MINUS then 0 - DigitsValue(e[2..]) else DigitsValue(e[2..])
  }

  /** `t` is a canonical float written with mantissa digits `m` and decimal exponent `p`. */
  ghost predicate Writes(t: Text, negative: bool, m: nat, p: int) {
    exists i, f, e ::
      && FloatParts(t, if negative then [MINUS] else [], i, f, e) && FloatRules(t, i, f, false)
      && AllDigits(i + Decimals(f))
      && m == DigitsValue(i + Decimals(f)) && p == ExponentOf(e) - |Decimals(f)|
  }

  /** `t` is canonical and denotes `± d * 10^e`. */
  ghost predicate Denotes(t: Text, negative: bool, d: nat, e: int) {
    exists m, p :: Writes(t, negative, m, p) && SameNumber(m, p, d, e)
  }

  // ---- digits -------------------------------------------------------------------------------

  lemma ValueSnoc(t: Text, c: Unit)
    requires AllDigits(t) && DigitChar(c)
    ensures AllDigits(t + [c]) && DigitsValue(t + [c]) == 10 * DigitsValue(t) + (c - ZERO)
  {
    assert (t + [c])[..|t|] == t;
  }

  lemma NoDigits(a: Text)
    requires AllDigits(a)
    ensures a + [] == a && DigitsValue([]) == 0 && Pow10(0) == 1
  {
  }

  lemma Tenfold(v: nat, n: nat)
    requires n > 0
    ensures v * Pow10(n) == 10 * (v * Pow10(n - 1))
  {
  }

  lemma {:induction false} ValueConcat(a: Text, b: Text)
    requires AllDigits(a) && AllDigits(b)
    ensures AllDigits(a + b) && DigitsValue(a + b) == DigitsValue(a) * Pow10(|b|) + DigitsValue(b)
  {
    hide DigitsValue, Pow10;
    if b == [] {
      NoDigits(a);
    } else {
      var init, last := b[..|b| - 1], b[|b| - 1];
      assert b == init + [last] && a + b == (a + init) + [last];
      ValueConcat(a, init);
      ValueSnoc(init, last);
      ValueSnoc(a + init, last);
      Tenfold(DigitsValue(a), |b|);
    }
  }

  lemma {:induction false} ZerosAreNothing(n: nat)
    ensures DigitsValue(Zeros(n)) == 0
  {
    if n > 0 {
      ZerosAreNothing(n - 1);
      assert Zeros(n)[..n - 1] == Zeros(n - 1);
    }
  }

  lemma ZerosBefore(n: nat, a: Text)
    requires AllDigits(a)
    ensures AllDigits(Zeros(n) + a) && DigitsValue(Zeros(n) + a) == DigitsValue(a)
  {
    ValueConcat(Zeros(n), a);
    ZerosAreNothing(n);
  }

  lemma ZerosAfter(a: Text, n: nat)
    requires AllDigits(a)
    ensures AllDigits(a + Zeros(n)) && DigitsValue(a + Zeros(n)) == DigitsValue(a) * Pow10(n)
  {
    ValueConcat(a, Zeros(n));
    ZerosAreNothing(n);
  }

  /** `text.lstrip("0")` and `text.rstrip("0")` */
  function LeftStrip(t: Text): (r: Text)
    ensures |r| <= |t|
  {
    if t != [] && t[0] == ZERO then LeftStrip(t[1..]) else t
  }

  function RightStrip(t: Text): Text {
    if t != [] && t[|t| - 1] == ZERO then RightStrip(t[..|t| - 1]) else t
  }

  lemma {:induction false} LeftStripKeeps(t: Text)
    requires AllDigits(t)
    ensures AllDigits(LeftStrip(t)) && DigitsValue(LeftStrip(t)) == DigitsValue(t)
    ensures LeftStrip(t) == [] || LeftStrip(t)[0] != ZERO
  {
    if t != [] && t[0] == ZERO {
      LeftStripKeeps(t[1..]);
      assert t == Zeros(1) + t[1..];
      ZerosBefore(1, t[1..]);
    }
  }

  lemma {:induction false} RightStripKeeps(t: Text)
    requires AllDigits(t)
    ensures var r := RightStrip(t);
      && |r| <= |t| && t == r + Zeros(|t| - |r|) && AllDigits(r)
      && (r == [] || r[|r| - 1] != ZERO) && (r != [] ==> r[0] == t[0])
  {
    if t != [] && t[|t| - 1] == ZERO {
      var init := t[..|t| - 1];
      RightStripKeeps(init);
      var r := RightStrip(init);
      assert t == init + [ZERO] && Zeros(|t| - |r|) == Zeros(|init| - |r|) + [ZERO];
    } else {
      assert t == t + Zeros(0);
    }
  }

  // ---- Number::toString ------------------------------------------------------------------------

  const INTEGER_LIMIT := 21

  function ExponentText(exponent: int): Text {
    [0x65] + ([if exponent >= 0 then 0x2b else MINUS] + Decimal(if exponent >= 0 then exponent else -exponent))
  }

  /** Digits `d1 d2 ... dk` with the decimal point after the n-th. */
  function EcmaNumberText(digits: Text, n: int): Text
    requires digits != []
  {
    var k := |digits|;
    if k <= n <= INTEGER_LIMIT then digits + Zeros(n - k)
    else if 0 < n <= INTEGER_LIMIT then digits[..n] + ([DOT] + digits[n..])
    else if -6 < n <= 0 then [ZERO, DOT] + (Zeros(-n) + digits)
    else if k == 1 then digits + ExponentText(n - 1)
    else [digits[0]] + ([DOT] + (digits[1..] + ExponentText(n - 1)))
  }

  /** Significant digits: no leading and no trailing zero. */
  predicate Significant(digits: Text) {
    digits != [] && AllDigits(digits) && digits[0] != ZERO && digits[|digits| - 1] != ZERO
  }

  /** The three parts written for significant digits, without a sign. */
  function Whole(digits: Text, n: int): Text
    requires digits != []
  {
    var k := |digits|;
    if k <= n <= INTEGER_LIMIT then digits + Zeros(n - k)
    else if 0 < n <= INTEGER_LIMIT then digits[..n]
    else if -6 < n <= 0 then [ZERO]
    else [digits[0]]
  }

  function Fraction(digits: Text, n: int): Text
    requires digits != []
  {
    var k := |digits|;
    if k <= n <= INTEGER_LIMIT then []
    else if 0 < n <= INTEGER_LIMIT then [DOT] + digits[n..]
    else if -6 < n <= 0 then [DOT] + (Zeros(-n) + digits)
    else if k == 1 then []
    else [DOT] + digits[1..]
  }

  function Exponent(digits: Text, n: int): Text
    requires digits != []
  {
    if -6 < n <= INTEGER_LIMIT then [] else ExponentText(n - 1)
  }

  lemma PartsOfText(digits: Text, n: int)
    requires digits != []
    ensures EcmaNumberText(digits, n) == [] + Whole(digits, n) + Fraction(digits, n) + Exponent(digits, n)
  {
    hide ExponentText;
    var k, e := |digits|, ExponentText(n - 1);
    if k == 1 {
      assert digits == [digits[0]];
    }
    if 0 < n <= INTEGER_LIMIT && n < k {
      assert digits[..n] + ([DOT] + digits[n..]) == [] + digits[..n] + ([DOT] + digits[n..]) + [];
    } else if -6 < n <= 0 {
      assert [ZERO, DOT] + (Zeros(-n) + digits) == [] + [ZERO] + ([DOT] + (Zeros(-n) + digits)) + [];
    } else if !(k <= n <= INTEGER_LIMIT) && k > 1 {
      assert [digits[0]] + ([DOT] + (digits[1..] + e)) == [] + [digits[0]] + ([DOT] + digits[1..]) + e;
    }
  }

  /** An exponent is written exactly from 10^21 on and below 10^-6; a point where digits remain after it. */
  lemma LayoutByMagnitude(digits: Text, n: int)
    requires digits != [] && AllDigits(digits)
    ensures 'e' as int in EcmaNumberText(digits, n) <==> n > 21 || n <= -6
    ensures '.' as int in EcmaNumberText(digits, n) <==> if -6 < n <= 21 then n < |digits| else |digits| > 1
  {
    var t, k := EcmaNumberText(digits, n), |digits|;
    assert forall i | 0 <= i < k :: digits[i] != 0x65 && digits[i] != 0x2e;
    DecimalHasNoPoint(if n >= 1 then n - 1 else 1 - n);
    if n > 21 || n <= -6 {
      var e := ExponentText(n - 1);
      assert e[0] == 0x65 && forall i | 0 <= i < |e| :: e[i] != 0x2e;
      assert t[if k == 1 then 1 else k + 1] == 0x65;
      assert k > 1 ==> t[1] == 0x2e;
    } else if 0 < n < k {
      assert t[n] == 0x2e;
    } else if n <= 0 {
      assert t[1] == 0x2e;
    }
  }

  lemma {:induction false} DecimalHasNoPoint(n: nat)
    ensures forall i | 0 <= i < |Decimal(n)| :: Decimal(n)[i] != 0x2e
  {
    if n >= 10 {
      DecimalHasNoPoint(n / 10);
      assert Decimal(n) == Decimal(n / 10) + [ZERO + n % 10];
    } else {
      assert Decimal(n) == [ZERO + n];
    }
  }

  lemma ExponentReads(exponent: int)
    requires exponent != 0
    ensures IsFloatExponent(ExponentText(exponent)) && ExponentOf(ExponentText(exponent)) == exponent
  {
    var size: nat := if exponent >= 0 then exponent else -exponent;
    DigitsRead(size);
    var e := ExponentText(exponent);
    assert e[2..] == Digits(size);
  }

  lemma WholeIsInt(digits: Text, n: int)
    requires Significant(digits)
    ensures IsInt(Whole(digits, n))
  {
  }

  lemma FractionIsCanonical(digits: Text, n: int)
    requires Significant(digits)
    ensures IsFloatFraction(Fraction(digits, n))
  {
    var f, k := Fraction(digits, n), |digits|;
    if f != [] {
      assert f[|f| - 1] == digits[k - 1];
      forall i | 0 <= i < |f| - 1 ensures DigitChar(f[1..][i]) {
      }
    }
  }

  lemma ExponentIsCanonical(digits: Text, n: int)
    requires digits != []
    ensures IsFloatExponent(Exponent(digits, n))
    ensures ExponentOf(Exponent(digits, n)) == if -6 < n <= INTEGER_LIMIT then 0 else n - 1
  {
    if !(-6 < n <= INTEGER_LIMIT) {
      ExponentReads(n - 1);
    }
  }

  /** What the mantissa of each range consists of. */
  lemma WrittenSplit(digits: Text, n: int)
    requires 0 < n <= INTEGER_LIMIT && n < |digits|
    ensures Whole(digits, n) + Decimals(Fraction(digits, n)) == digits && |Decimals(Fraction(digits, n))| == |digits| - n
  {
    assert Decimals(Fraction(digits, n)) == digits[n..];
  }

  lemma WrittenSmall(digits: Text, n: int)
    requires digits != [] && -6 < n <= 0
    ensures Whole(digits, n) + Decimals(Fraction(digits, n)) == Zeros(1 - n) + digits
    ensures |Decimals(Fraction(digits, n))| == |digits| - n
  {
    assert Decimals(Fraction(digits, n)) == Zeros(-n) + digits;
  }

  lemma WrittenScientific(digits: Text, n: int)
    requires digits != [] && !(-6 < n <= INTEGER_LIMIT)
    ensures Whole(digits, n) + Decimals(Fraction(digits, n)) == digits && |Decimals(Fraction(digits, n))| == |digits| - 1
  {
    assert |digits| > 1 ==> Decimals(Fraction(digits, n)) == digits[1..];
  }

  lemma WrittenInteger(digits: Text, n: int)
    requires digits != [] && |digits| <= n <= INTEGER_LIMIT
    ensures Whole(digits, n) + Decimals(Fraction(digits, n)) == digits + Zeros(n - |digits|)
    ensures |Decimals(Fraction(digits, n))| == 0
  {
  }

  /** All the digits are written, with zeros around them, at the right place. */
  lemma MantissaReads(digits: Text, n: int)
    requires Significant(digits)
    ensures var all, places := Whole(digits, n) + Decimals(Fraction(digits, n)), |Decimals(Fraction(digits, n))|;
      var shift := if -6 < n <= INTEGER_LIMIT then 0 else n - 1;
      AllDigits(all) && SameNumber(DigitsValue(all), shift - places, DigitsValue(digits), n - |digits|)
  {
    hide Whole, Fraction, Decimals, DigitsValue, AllDigits;
    var k := |digits|;
    assert Pow10(0) == 1;
    if k <= n <= INTEGER_LIMIT {
      WrittenInteger(digits, n);
      ZerosAfter(digits, n - k);
    } else if 0 < n <= INTEGER_LIMIT {
      WrittenSplit(digits, n);
    } else if -6 < n <= 0 {
      WrittenSmall(digits, n);
      ZerosBefore(1 - n, digits);
    } else {
      WrittenScientific(digits, n);
    }
  }

  lemma PartsWrite(t: Text, negative: bool, i: Text, f: Text, e: Text)
    requires FloatParts(t, if negative then [MINUS] else [], i, f, e) && FloatRules(t, i, f, false) && AllDigits(i + Decimals(f))
    ensures Writes(t, negative, DigitsValue(i + Decimals(f)), ExponentOf(e) - |Decimals(f)|)
  {
    hide IsInt, IsFloatFraction, IsFloatExponent, ExponentOf, DigitsValue;
  }

  lemma PartsDenote(t: Text, negative: bool, i: Text, f: Text, e: Text, d: nat, x: int)
    requires FloatParts(t, if negative then [MINUS] else [], i, f, e) && FloatRules(t, i, f, false) && AllDigits(i + Decimals(f))
    requires SameNumber(DigitsValue(i + Decimals(f)), ExponentOf(e) - |Decimals(f)|, d, x)
    ensures Denotes(t, negative, d, x)
  {
    hide Writes, SameNumber, IsInt, IsFloatFraction, IsFloatExponent, ExponentOf, DigitsValue;
    PartsWrite(t, negative, i, f, e);
  }

  lemma SignThen(s: Text, i: Text, f: Text, e: Text)
    ensures s + ([] + i + f + e) == s + i + f + e
  {
  }

  /** In all four ranges the text is canonical and denotes exactly `digits * 10^(n - k)`. */
  lemma TextDenotesDigits(digits: Text, n: int, negative: bool)
    requires Significant(digits)
    ensures var t := (if negative then [MINUS] else []) + EcmaNumberText(digits, n);
      Denotes(t, negative, DigitsValue(digits), n - |digits|)
  {
    hide EcmaNumberText, IsInt, IsFloatFraction, IsFloatExponent, Whole, Fraction, Exponent, SameNumber, ExponentOf,
         DigitsValue, Writes, Denotes, AllDigits;
    var s: Text := if negative then [MINUS] else [];
    var i, f, e := Whole(digits, n), Fraction(digits, n), Exponent(digits, n);
    PartsOfText(digits, n);
    WholeIsInt(digits, n);
    FractionIsCanonical(digits, n);
    ExponentIsCanonical(digits, n);
    MantissaReads(digits, n);
    WholeIsNotZero(digits, n);
    var t := s + EcmaNumberText(digits, n);
    SignThen(s, i, f, e);
    PartsDenote(t, negative, i, f, e, DigitsValue(digits), n - |digits|);
  }

  lemma WholeIsNotZero(digits: Text, n: int)
    requires Significant(digits)
    ensures Whole(digits, n) == [ZERO] ==> Fraction(digits, n) != []
  {
    if -6 < n <= 0 {
      assert Whole(digits, n) == [ZERO];
    } else {
      assert Whole(digits, n)[0] == digits[0];
    }
  }

  /** `t` is the Number::toString layout of significant digits `c` with the value `± d * 10^e`. */
  predicate RendersWith(t: Text, negative: bool, d: nat, e: int, c: Text, n: int) {
    && Significant(c) && SameNumber(DigitsValue(c), n - |c|, d, e)
    && t == (if negative then [MINUS] else []) + EcmaNumberText(c, n)
  }

  ghost predicate Renders(t: Text, negative: bool, d: nat, e: int) {
    exists c, n :: RendersWith(t, negative, d, e, c, n)
  }

  // ---- canonical_float_text -----------------------------------------------------------------------

  /** `|x|` read from a repr with mantissa `whole.fraction` and exponent `exponent`. */
  method CanonicalFloatText(negative: bool, whole: Text, fraction: Text, exponent: int) returns (text: Text)
    requires AllDigits(whole) && AllDigits(fraction)
    ensures AllDigits(whole + fraction)
    ensures var value := DigitsValue(whole + fraction);
      if value == 0 then text == [ZERO]
      else Denotes(text, negative, value, exponent - |fraction|) && Renders(text, negative, value, exponent - |fraction|)
  {
    hide DigitsValue, Denotes, EcmaNumberText;
    var allDigits := whole + fraction;
    ghost var value := DigitsValue(allDigits);
    var pointExponent := exponent - |fraction|;
    LeftStripKeeps(allDigits);
    allDigits := LeftStrip(allDigits);
    var stripped := RightStrip(allDigits);
    RightStripKeeps(allDigits);
    if stripped == [] {
      OnlyZeros(allDigits);
      return [ZERO];
    }
    var dropped := |allDigits| - |stripped|;
    pointExponent := pointExponent + dropped;
    var digits := stripped;
    var k := |digits|;
    var n := pointExponent + k;
    var rendered := EcmaNumberText(digits, n);
    TextDenotesDigits(digits, n, negative);
    StrippedIsSame(digits, dropped, value, exponent - |fraction|);
    text := (if negative then [MINUS] else []) + rendered;
    DenotesSame(text, negative, digits, pointExponent, value, exponent - |fraction|);
    assert RendersWith(text, negative, value, exponent - |fraction|, digits, n);
  }

  lemma OnlyZeros(t: Text)
    requires AllDigits(t) && t == [] + Zeros(|t|)
    ensures DigitsValue(t) == 0
  {
    ZerosAreNothing(|t|);
    assert t == Zeros(|t|);
  }

  lemma {:induction false} PositiveValue(t: Text)
    requires AllDigits(t) && t != [] && t[0] != ZERO
    ensures DigitsValue(t) > 0
  {
    if |t| > 1 {
      PositiveValue(t[..|t| - 1]);
    }
  }

  /** Dropped zeros move into the exponent. */
  lemma StrippedIsSame(digits: Text, dropped: nat, value: nat, e: int)
    requires Significant(digits) && AllDigits(digits + Zeros(dropped)) && DigitsValue(digits + Zeros(dropped)) == value
    ensures value > 0 && value == DigitsValue(digits) * Pow10(dropped)
  {
    ZerosAfter(digits, dropped);
    PositiveValue(digits);
    PowPositive(dropped);
    ProductPositive(DigitsValue(digits), Pow10(dropped));
  }

  lemma ProductPositive(a: nat, b: nat)
    requires a > 0 && b > 0
    ensures a * b > 0
  {
  }

  lemma {:induction false} PowPositive(n: nat)
    ensures Pow10(n) > 0
  {
    if n > 0 {
      PowPositive(n - 1);
    }
  }

  lemma {:induction false} PowSum(a: nat, b: nat)
    ensures Pow10(a + b) == Pow10(a) * Pow10(b)
  {
    if a > 0 {
      PowSum(a - 1, b);
      assert 10 * Pow10(a - 1) * Pow10(b) == 10 * (Pow10(a - 1) * Pow10(b));
    }
  }

  lemma Regroup(a: nat, b: nat, c: nat)
    ensures a * (b * c) == a * b * c
  {
  }

  /** Scaling the number by a power of ten and lowering its exponent changes nothing. */
  lemma Rescale(m: nat, p: int, d: nat, e: int, z: nat)
    requires SameNumber(m, p, d, e)
    ensures SameNumber(m, p, d * Pow10(z), e - z)
  {
    hide Pow10;
    if p >= e {
      PowSum(p - e, z);
      Regroup(m, Pow10(p - e), Pow10(z));
    } else if p >= e - z {
      PowSum(e - p, p - (e - z));
      Regroup(d, Pow10(e - p), Pow10(p - (e - z)));
    } else {
      PowSum(z, e - z - p);
      Regroup(d, Pow10(z), Pow10(e - z - p));
    }
  }

  lemma DenotesSame(t: Text, negative: bool, digits: Text, e: int, value: nat, low: int)
    requires AllDigits(digits) && e >= low && value == DigitsValue(digits) * Pow10(e - low)
    requires Denotes(t, negative, DigitsValue(digits), e)
    ensures Denotes(t, negative, value, low)
  {
    hide Writes, SameNumber, DigitsValue;
    var m, p :| Writes(t, negative, m, p) && SameNumber(m, p, DigitsValue(digits), e);
    Rescale(m, p, DigitsValue(digits), e, e - low);
  }

  // ---- the grammar alone is not enough ------------------------------------------------------------

  /** What is denoted is canonical in the codec's sense, so the encoder accepts it. */
  lemma DenotedIsCanonical(t: Text, negative: bool, d: nat, e: int)
    requires Denotes(t, negative, d, e)
    ensures IsCanonicalFloat(t, false)
  {
    var m, p :| Writes(t, negative, m, p) && SameNumber(m, p, d, e);
    var i, f, x :| FloatParts(t, if negative then [MINUS] else [], i, f, x) && FloatRules(t, i, f, false);
    CanonicalFloatIffParts(t, false);
  }

  /** The grammar admits two texts of one value: `100` and `1e+2`. */
  lemma GrammarIsNotUnique()
    ensures var a: Text, b: Text := [0x31, ZERO, ZERO], [0x31, 0x65, 0x2b, 0x32];
      a != b && Denotes(a, false, 100, 0) && Denotes(b, false, 100, 0)
  {
    var a: Text, b: Text := [0x31, ZERO, ZERO], [0x31, 0x65, 0x2b, 0x32];
    assert a == [] + a + [] + [] && FloatParts(a, [], a, [], []);
    assert a[..2][..1][..0] == [] && a[..2][..1] == [0x31] && a[..2] == [0x31, ZERO];
    assert DigitsValue([0x31]) == 1 && DigitsValue(a[..2]) == 10 && DigitsValue(a) == 100;
    assert a + Decimals([]) == a;
    PartsWrite(a, false, a, [], []);
    var one: Text, e: Text := [0x31], [0x65, 0x2b, 0x32];
    assert b == [] + one + [] + e;
    assert e[2..] == [0x32] && [0x32][..0] == [] && DigitsValue(e[2..]) == 2 && ExponentOf(e) == 2;
    assert FloatParts(b, [], one, [], e);
    assert one + Decimals([]) == one && one[..0] == [];
    PartsWrite(b, false, one, [], e);
    assert Pow10(2) == 100 && Pow10(0) == 1;
    assert SameNumber(1, 2, 100, 0) && SameNumber(100, 0, 100, 0);
  }
}
