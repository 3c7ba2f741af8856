/** The text leaves of src/judging/codec/leaf-grammar.ts: decimals, dates, times and UUIDs. */
module LeafGrammar {
  import opened Unicode
  import opened Json
  import opened JsonParser
  import S = JsonSyntax

  // ---- decimal literals ------------------------------------------------------------------

  /** `([eE][+-]?[0-9]+)?$` from position `p` on. */
  predicate ExponentToEnd(t: Text, p: nat)
    requires p <= |t|
  {
    p == |t|
    || ((t[p] == 0x65 || t[p] == 0x45)
        && var q := if Sign(Peek(t, p + 1)) then p + 2 else p + 1;
        q < |t| && SkipDigits(t, q) == |t|)
  }

  /** `[+-]?([0-9]+\.?[0-9]*|\.[0-9]+)([eE][+-]?[0-9]+)?`, matched greedily. */
  predicate IsDecimalLiteral(t: Text) {
    var start := if Sign(Peek(t, 0)) then 1 else 0;
    var whole := SkipDigits(t, start);
    var point := if Peek(t, whole) == DOT then whole + 1 else whole;
    var end := if point > whole then SkipDigits(t, point) else whole;
    (whole > start || end > point) && ExponentToEnd(t, end)
  }

  predicate IsPlusMinus(s: Text) {
    s == [] || (|s| == 1 && Sign(s[0]))
  }

  /** `12`, `12.`, `12.5` or `.5`, unpadded or not. */
  predicate DecimalParts(t: Text, s: Text, whole: Text, point: Text, fraction: Text, e: Text) {
    && t == s + (whole + (point + (fraction + e)))
    && IsPlusMinus(s) && AllDigits(whole) && AllDigits(fraction) && IsExponent(e)
    && (point == [DOT] || (point == [] && fraction == []))
    && (whole != [] || fraction != [])
  }

  lemma SkipsPart(t: Text, p: nat, ds: Text, rest: Text)
    requires p <= |t| && t[p..] == ds + rest && AllDigits(ds) && (rest == [] || !DigitChar(rest[0]))
    ensures SkipDigits(t, p) == p + |ds| && t[p + |ds|..] == rest
  {
    assert |t| == p + |ds| + |rest|;
    assert S.At(t, p, ds);
    assert t[p + |ds|..] == t[p..][|ds|..];
    assert rest != [] ==> t[p + |ds|] == rest[0];
    S.SkipDigitsReads(t, p, ds);
  }

  lemma ExponentReaches(t: Text, p: nat)
    requires p <= |t|
    ensures ExponentToEnd(t, p) <==> IsExponent(t[p..])
  {
    var e := t[p..];
    if e != [] {
      var q := if Sign(Peek(t, p + 1)) then p + 2 else p + 1;
      if q <= |t| {
        S.SkipDigitsStops(t, q);
        assert t[q..|t|] == t[q..] == e[q - p..];
        if AllDigits(e[q - p..]) {
          SkipsPart(t, q, e[q - p..], []);
        }
      }
      if |e| > 1 {
        assert e[1] == t[p + 1];
      }
    }
  }

  lemma ExponentStart(e: Text)
    requires IsExponent(e) && e != []
    ensures !DigitChar(e[0]) && e[0] != DOT
  {
  }

  lemma WholeReads(t: Text, start: nat, whole: Text, point: Text, fraction: Text, e: Text)
    requires start <= |t| && t[start..] == whole + (point + (fraction + e))
    requires AllDigits(whole) && IsExponent(e) && (point == [DOT] || (point == [] && fraction == []))
    ensures var mid := start + |whole|;
      SkipDigits(t, start) == mid <= |t| && t[mid..] == point + (fraction + e) && (Peek(t, mid) == DOT <==> point == [DOT])
  {
    hide SkipDigits, IsExponent;
    var mid, rest := start + |whole|, point + (fraction + e);
    if e != [] {
      ExponentStart(e);
    }
    assert point == [] ==> rest == e;
    SkipsPart(t, start, whole, rest);
    assert rest != [] ==> t[mid] == t[mid..][0] == rest[0];
  }

  lemma FractionReads(t: Text, p: nat, fraction: Text, e: Text)
    requires p <= |t| && t[p..] == fraction + e && AllDigits(fraction) && IsExponent(e)
    ensures SkipDigits(t, p) == p + |fraction| <= |t| && t[p + |fraction|..] == e
  {
    hide SkipDigits, IsExponent;
    if e != [] {
      ExponentStart(e);
    }
    SkipsPart(t, p, fraction, e);
  }

  lemma SignReads(t: Text, s: Text, rest: Text)
    requires t == s + rest && IsPlusMinus(s) && rest != [] && !Sign(rest[0])
    ensures |s| == if Sign(Peek(t, 0)) then 1 else 0
    ensures t[|s|..] == rest
  {
  }

  lemma FirstUnit(whole: Text, point: Text, fraction: Text, e: Text)
    requires AllDigits(whole) && (whole != [] || point == [DOT])
    ensures var rest := whole + (point + (fraction + e)); rest != [] && !Sign(rest[0])
  {
    var rest := whole + (point + (fraction + e));
    assert rest[0] == if whole == [] then DOT else whole[0];
  }

  lemma PartsAccepted(t: Text, s: Text, whole: Text, point: Text, fraction: Text, e: Text)
    requires DecimalParts(t, s, whole, point, fraction, e)
    ensures IsDecimalLiteral(t)
  {
    hide SkipDigits, IsExponent, ExponentToEnd;
    var rest := whole + (point + (fraction + e));
    FirstUnit(whole, point, fraction, e);
    SignReads(t, s, rest);
    hide IsPlusMinus;
    WholeReads(t, |s|, whole, point, fraction, e);
    var mid := |s| + |whole|;
    if point == [DOT] {
      assert t[mid + 1..] == t[mid..][1..] == fraction + e;
      FractionReads(t, mid + 1, fraction, e);
      ExponentReaches(t, mid + 1 + |fraction|);
    } else {
      assert point + (fraction + e) == e;
      ExponentReaches(t, mid);
    }
  }

  predicate CutsAt(t: Text, a: nat, b: nat, c: nat, d: nat) {
    && a <= b <= c <= d <= |t|
    && IsPlusMinus(t[..a]) && AllDigits(t[a..b]) && AllDigits(t[c..d]) && IsExponent(t[d..])
    && (c == b || (c == b + 1 && t[b] == DOT)) && (c == b ==> d == c) && (a < b || c < d)
  }

  lemma CutIsParts(t: Text, a: nat, b: nat, c: nat, d: nat)
    requires CutsAt(t, a, b, c, d)
    ensures DecimalParts(t, t[..a], t[a..b], t[b..c], t[c..d], t[d..])
  {
    hide IsExponent, AllDigits, IsPlusMinus;
    Cut(t, a, b, c, d);
    assert t[b..c] == if c == b then [] else [DOT];
  }

  lemma PartsOf(t: Text) returns (s: Text, whole: Text, point: Text, fraction: Text, e: Text)
    requires IsDecimalLiteral(t)
    ensures DecimalParts(t, s, whole, point, fraction, e)
  {
    hide SkipDigits, IsExponent, ExponentToEnd, DecimalParts;
    var start := if Sign(Peek(t, 0)) then 1 else 0;
    var w := SkipDigits(t, start);
    var p := if Peek(t, w) == DOT then w + 1 else w;
    var q := if p > w then SkipDigits(t, p) else w;
    S.SkipDigitsStops(t, start);
    if p > w {
      S.SkipDigitsStops(t, p);
    }
    ExponentReaches(t, q);
    CutIsParts(t, start, w, p, q);
    s, whole, point, fraction, e := t[..start], t[start..w], t[w..p], t[p..q], t[q..];
  }

  lemma Cut(t: Text, a: nat, b: nat, c: nat, d: nat)
    requires a <= b <= c <= d <= |t|
    ensures t == t[..a] + (t[a..b] + (t[b..c] + (t[c..d] + t[d..])))
  {
    assert t[c..] == t[c..d] + t[d..];
    assert t[b..] == t[b..c] + t[c..];
    assert t[a..] == t[a..b] + t[b..];
  }

  /** The scan decides the grammar. */
  lemma DecimalLiteralIffParts(t: Text)
    ensures IsDecimalLiteral(t) <==> exists s, whole, point, fraction, e :: DecimalParts(t, s, whole, point, fraction, e)
  {
    if IsDecimalLiteral(t) {
      var s, whole, point, fraction, e := PartsOf(t);
    }
    hide IsDecimalLiteral, DecimalParts;
    forall s, whole, point, fraction, e | DecimalParts(t, s, whole, point, fraction, e) ensures IsDecimalLiteral(t) {
      PartsAccepted(t, s, whole, point, fraction, e);
    }
  }

  // ---- fixed-width numbers -----------------------------------------------------------------

  predicate DigitsAt(t: Text, p: nat, n: nat) {
    p + n <= |t| && AllDigits(t[p..p + n])
  }

  function NumberAt(t: Text, p: nat, n: nat): nat
    requires DigitsAt(t, p, n)
  {
    if n == 0 then 0
    else
      assert t[p..p + n][..n - 1] == t[p..p + (n - 1)];
      assert DigitChar(t[p..p + n][n - 1]);
      10 * NumberAt(t, p, n - 1) + (t[p + n - 1] - 0x30)
  }

  /** `n` decimal digits, zero-padded. */
  function Padded(v: nat, n: nat): (r: Text)
    ensures |r| == n && AllDigits(r)
  {
    if n == 0 then [] else Padded(v / 10, n - 1) + [0x30 + v % 10]
  }

  function Power(n: nat): nat {
    if n == 0 then 1 else 10 * Power(n - 1)
  }

  lemma {:induction false} NumberIsPadded(t: Text, p: nat, n: nat)
    requires DigitsAt(t, p, n)
    ensures NumberAt(t, p, n) < Power(n) && t[p..p + n] == Padded(NumberAt(t, p, n), n)
  {
    if n > 0 {
      assert t[p..p + n][..n - 1] == t[p..p + (n - 1)];
      assert DigitChar(t[p..p + n][n - 1]);
      NumberIsPadded(t, p, n - 1);
      assert t[p..p + n] == t[p..p + (n - 1)] + [t[p + n - 1]];
    }
  }

  lemma {:induction false} PaddedIsNumber(t: Text, p: nat, n: nat, v: nat)
    requires p + n <= |t| && t[p..p + n] == Padded(v, n) && v < Power(n)
    ensures DigitsAt(t, p, n) && NumberAt(t, p, n) == v
  {
    if n > 0 {
      assert t[p..p + n][..n - 1] == t[p..p + (n - 1)];
      assert Padded(v, n)[..n - 1] == Padded(v / 10, n - 1);
      assert t[p + n - 1] == t[p..p + n][n - 1] == 0x30 + v % 10;
      PaddedIsNumber(t, p, n - 1, v / 10);
    }
  }

  // ---- dates -----------------------------------------------------------------------------------

  predicate IsLeapYear(year: nat) {
    year % 4 == 0 && (year % 100 != 0 || year % 400 == 0)
  }

  function MonthLength(year: nat, month: nat): nat {
    if month == 2 then (if IsLeapYear(year) then 29 else 28)
    else if month == 4 || month == 6 || month == 9 || month == 11 then 30
    else 31
  }

  predicate IsCalendarDay(year: nat, month: nat, day: nat) {
    year < 10000 && 1 <= month <= 12 && 1 <= day <= MonthLength(year, month)
  }

  /** `YYYY-MM-DD` of a real day. */
  predicate IsDate(t: Text) {
    && |t| == 10 && DigitsAt(t, 0, 4) && t[4] == MINUS && DigitsAt(t, 5, 2) && t[7] == MINUS && DigitsAt(t, 8, 2)
    && IsCalendarDay(NumberAt(t, 0, 4), NumberAt(t, 5, 2), NumberAt(t, 8, 2))
  }

  function DateText(year: nat, month: nat, day: nat): (r: Text)
    ensures |r| == 10
  {
    Padded(year, 4) + [MINUS] + Padded(month, 2) + [MINUS] + Padded(day, 2)
  }

  lemma Powers()
    ensures Power(2) == 100 && Power(4) == 10000
  {
    assert Power(2) == 10 * Power(1) && Power(3) == 10 * Power(2);
  }

  /** The accepted dates are exactly the texts of calendar days, one each. */
  lemma DateIffCalendarDay(t: Text)
    ensures IsDate(t) <==> exists y: nat, m: nat, d: nat :: IsCalendarDay(y, m, d) && t == DateText(y, m, d)
  {
    hide NumberAt, Padded, Power;
    Powers();
    if IsDate(t) {
      NumberIsPadded(t, 0, 4);
      NumberIsPadded(t, 5, 2);
      NumberIsPadded(t, 8, 2);
      assert t == t[0..4] + [t[4]] + t[5..7] + [t[7]] + t[8..10];
      assert t == DateText(NumberAt(t, 0, 4), NumberAt(t, 5, 2), NumberAt(t, 8, 2));
    }
    forall y: nat, m: nat, d: nat | IsCalendarDay(y, m, d) && t == DateText(y, m, d) ensures IsDate(t) {
      assert t[0..4] == Padded(y, 4) && t[5..7] == Padded(m, 2) && t[8..10] == Padded(d, 2);
      PaddedIsNumber(t, 0, 4, y);
      PaddedIsNumber(t, 5, 2, m);
      PaddedIsNumber(t, 8, 2, d);
    }
  }

  // ---- times ---------------------------------------------------------------------------------

  /** `(\.\d{1,6})?$` from position 8 on. */
  predicate IsSecondFraction(t: Text) {
    t == [] || (2 <= |t| <= 7 && t[0] == DOT && AllDigits(t[1..]))
  }

  /** `HH:MM:SS`, with a fraction of up to six digits. */
  predicate IsTimeOfDay(t: Text) {
    && |t| >= 8 && DigitsAt(t, 0, 2) && t[2] == COLON && DigitsAt(t, 3, 2) && t[5] == COLON && DigitsAt(t, 6, 2)
    && NumberAt(t, 0, 2) <= 23 && NumberAt(t, 3, 2) <= 59 && NumberAt(t, 6, 2) <= 59
    && IsSecondFraction(t[8..])
  }

  function TimeText(hour: nat, minute: nat, second: nat, fraction: Text): Text {
    Padded(hour, 2) + [COLON] + Padded(minute, 2) + [COLON] + Padded(second, 2) + fraction
  }

  predicate IsClockTime(hour: nat, minute: nat, second: nat, fraction: Text) {
    hour <= 23 && minute <= 59 && second <= 59 && IsSecondFraction(fraction)
  }

  /** The accepted times are exactly the texts of clock times. */
  lemma TimeIffClockTime(t: Text)
    ensures IsTimeOfDay(t) <==>
            exists h: nat, m: nat, s: nat, f :: IsClockTime(h, m, s, f) && t == TimeText(h, m, s, f)
  {
    hide NumberAt, Padded, Power, IsSecondFraction;
    Powers();
    if IsTimeOfDay(t) {
      NumberIsPadded(t, 0, 2);
      NumberIsPadded(t, 3, 2);
      NumberIsPadded(t, 6, 2);
      assert t == t[0..2] + [t[2]] + t[3..5] + [t[5]] + t[6..8] + t[8..];
      assert t == TimeText(NumberAt(t, 0, 2), NumberAt(t, 3, 2), NumberAt(t, 6, 2), t[8..]);
    }
    forall h: nat, m: nat, s: nat, f | IsClockTime(h, m, s, f) && t == TimeText(h, m, s, f) ensures IsTimeOfDay(t) {
      assert t[0..2] == Padded(h, 2) && t[3..5] == Padded(m, 2) && t[6..8] == Padded(s, 2) && t[8..] == f;
      PaddedIsNumber(t, 0, 2, h);
      PaddedIsNumber(t, 3, 2, m);
      PaddedIsNumber(t, 6, 2, s);
    }
  }

  const LETTER_T: Unit := 0x54

  /** `value.indexOf("T")`, or the length. */
  function IndexOfT(t: Text): (r: nat)
    ensures r <= |t| && (r < |t| ==> t[r] == LETTER_T)
  {
    if t == [] || t[0] == LETTER_T then 0 else 1 + IndexOfT(t[1..])
  }

  predicate IsDatetime(t: Text) {
    var i := IndexOfT(t);
    i < |t| && IsDate(t[..i]) && IsTimeOfDay(t[i + 1..])
  }

  lemma {:induction false} FirstT(a: Text, b: Text)
    requires forall i | 0 <= i < |a| :: a[i] != LETTER_T
    ensures IndexOfT(a + ([LETTER_T] + b)) == |a|
  {
    if a == [] {
      assert a + ([LETTER_T] + b) == [LETTER_T] + b;
    } else {
      assert (a + ([LETTER_T] + b))[1..] == a[1..] + ([LETTER_T] + b);
      FirstT(a[1..], b);
    }
  }

  lemma DigitsAreNotT(t: Text, p: nat, n: nat)
    requires DigitsAt(t, p, n)
    ensures forall i | p <= i < p + n :: t[i] != LETTER_T
  {
    forall i | p <= i < p + n ensures t[i] != LETTER_T {
      assert DigitChar(t[p..p + n][i - p]);
    }
  }

  /** The separator is unambiguous: a date, `T` and a time, and nothing else. */
  lemma DatetimeIffBoth(t: Text)
    ensures IsDatetime(t) <==> exists d, c :: IsDate(d) && IsTimeOfDay(c) && t == d + ([LETTER_T] + c)
  {
    hide IsTimeOfDay;
    var i := IndexOfT(t);
    if IsDatetime(t) {
      assert t == t[..i] + ([LETTER_T] + t[i + 1..]);
    }
    forall d, c | IsDate(d) && IsTimeOfDay(c) && t == d + ([LETTER_T] + c) ensures IsDatetime(t) {
      DigitsAreNotT(d, 0, 4);
      DigitsAreNotT(d, 5, 2);
      DigitsAreNotT(d, 8, 2);
      FirstT(d, c);
      assert t[..|d|] == d && t[|d| + 1..] == c;
    }
  }

  const MAX_OFFSET := 1439

  predicate IsOffset(n: int) {
    -MAX_OFFSET <= n <= MAX_OFFSET
  }

  // ---- UUIDs -----------------------------------------------------------------------------------

  predicate LowerHex(c: int) {
    DigitChar(c) || 0x61 <= c <= 0x66
  }

  /** Lower-case hex digits grouped 8-4-4-4-12. */
  predicate IsUuid(t: Text) {
    |t| == 36
    && forall i | 0 <= i < 36 ::
         if i == 8 || i == 13 || i == 18 || i == 23 then t[i] == MINUS else LowerHex(t[i])
  }
}
