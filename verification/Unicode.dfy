/**
 JavaScript strings as sequences of UTF-16 code units, and the UTF-8 byte order
 the codec sorts by (src/judging/codec/utf8.ts).
 */
module Unicode {
  type Unit = c: int | 0 <= c < 0x10000
  type Text = seq<Unit>
  type Scalar = c: int | 0 <= c < 0x110000 && !(0xD800 <= c < 0xE000)
  type Byte = b: int | 0 <= b < 0x100

  predicate High(c: int) {
    0xD800 <= c <= 0xDBFF
  }

  predicate Low(c: int) {
    0xDC00 <= c <= 0xDFFF
  }

  function Pair(high: Unit, low: Unit): Scalar
    requires High(high) && Low(low)
  {
    0x10000 + (high - 0xD800) * 0x400 + (low - 0xDC00)
  }

  /** No unpaired surrogate. */
  predicate WellFormed(t: Text) {
    if t == [] then true
    else if High(t[0]) then |t| > 1 && Low(t[1]) && WellFormed(t[2..])
    else !Low(t[0]) && WellFormed(t[1..])
  }

  /** How TextEncoder reads a string: unpaired surrogates become U+FFFD. */
  function Scalars(t: Text): seq<Scalar> {
    if t == [] then []
    else if High(t[0]) && |t| > 1 && Low(t[1]) then [Pair(t[0], t[1])] + Scalars(t[2..])
    else if High(t[0]) || Low(t[0]) then [0xFFFD] + Scalars(t[1..])
    else [t[0]] + Scalars(t[1..])
  }

  function Units(c: Scalar): Text {
    if c < 0x10000 then [c]
    else [0xD800 + (c - 0x10000) / 0x400, 0xDC00 + (c - 0x10000) % 0x400]
  }

  function Utf16(cs: seq<Scalar>): Text {
    if cs == [] then [] else Units(cs[0]) + Utf16(cs[1..])
  }

  // ---- well-formed text is exactly UTF-16 ------------------------------------

  lemma {:induction false} Utf16IsWellFormed(cs: seq<Scalar>)
    ensures WellFormed(Utf16(cs)) && Scalars(Utf16(cs)) == cs
  {
    if cs != [] {
      var head := Units(cs[0]);
      Utf16IsWellFormed(cs[1..]);
      assert Utf16(cs)[|head|..] == Utf16(cs[1..]);
      assert cs == [cs[0]] + cs[1..];
      if |head| == 2 {
        assert Utf16(cs)[0] == head[0] && Utf16(cs)[1] == head[1] && Pair(head[0], head[1]) == cs[0];
      } else {
        assert Utf16(cs)[0] == cs[0];
      }
    }
  }

  lemma {:induction false} WellFormedIsUtf16(t: Text)
    requires WellFormed(t)
    ensures Utf16(Scalars(t)) == t
  {
    if t != [] {
      var step := if High(t[0]) then 2 else 1;
      WellFormedIsUtf16(t[step..]);
      assert Scalars(t)[1..] == Scalars(t[step..]);
      assert t == t[..step] + t[step..];
      assert Units(Scalars(t)[0]) == t[..step];
    }
  }

  /** No lone surrogate exactly when the units are the UTF-16 form of some code points. */
  lemma WellFormedIffUtf16(t: Text)
    ensures WellFormed(t) <==> exists cs :: Utf16(cs) == t
  {
    if WellFormed(t) {
      WellFormedIsUtf16(t);
    }
    forall cs | Utf16(cs) == t ensures WellFormed(t) {
      Utf16IsWellFormed(cs);
    }
  }

  lemma {:induction false} NoSurrogates(t: Text)
    requires forall i | 0 <= i < |t| :: !High(t[i]) && !Low(t[i])
    ensures WellFormed(t)
  {
    if t != [] {
      NoSurrogates(t[1..]);
    }
  }

  method HasLoneSurrogate(text: Text) returns (lone: bool)
    ensures lone <==> !WellFormed(text)
  {
    var i := 0;
    while i < |text|
      invariant 0 <= i <= |text|
      invariant WellFormed(text) <==> WellFormed(text[i..])
    {
      var code := text[i];
      assert text[i..][0] == code && text[i..][1..] == text[i + 1..];
      if High(code) {
        if i + 1 < |text| && Low(text[i + 1]) {
          assert text[i..][1] == text[i + 1] && text[i..][2..] == text[i + 2..];
          i := i + 2;
          continue;
        }
        return true;
      }
      if Low(code) { return true; }
      i := i + 1;
    }
    return false;
  }

  /** The first character of well-formed text, and the rest. */
  lemma FirstScalar(t: Text, rest: Text)
    requires t != [] && (if High(t[0]) then |t| == 2 && Low(t[1]) else |t| == 1 && !Low(t[0]))
    ensures WellFormed(t + rest) <==> WellFormed(rest)
    ensures Scalars(t + rest) == [if High(t[0]) then Pair(t[0], t[1]) else t[0]] + Scalars(rest)
  {
    assert (t + rest)[|t|..] == rest;
  }

  lemma {:induction false} WellFormedConcat(a: Text, b: Text)
    requires WellFormed(a) && WellFormed(b)
    ensures WellFormed(a + b)
    ensures Scalars(a + b) == Scalars(a) + Scalars(b)
  {
    if a == [] {
      assert a + b == b;
    } else {
      var step := if High(a[0]) then 2 else 1;
      var first, rest := a[..step], a[step..];
      WellFormedConcat(rest, b);
      FirstScalar(first, rest);
      FirstScalar(first, rest + b);
      assert a == first + rest && a + b == first + (rest + b);
    }
  }

  // ---- lexicographic order ---------------------------------------------------

  predicate Less(a: seq<int>, b: seq<int>) {
    b != [] && (a == [] || a[0] < b[0] || (a[0] == b[0] && Less(a[1..], b[1..])))
  }

  lemma LessTrichotomy(a: seq<int>, b: seq<int>)
    ensures Less(a, b) || a == b || Less(b, a)
    ensures !(Less(a, b) && Less(b, a)) && !Less(a, a)
  {
    if a != [] && b != [] && a[0] == b[0] {
      LessTrichotomy(a[1..], b[1..]);
      assert a == [a[0]] + a[1..] && b == [b[0]] + b[1..];
    }
  }

  lemma {:induction false} LessTransitive(a: seq<int>, b: seq<int>, c: seq<int>)
    requires Less(a, b) && Less(b, c)
    ensures Less(a, c)
  {
    if a != [] && a[0] == b[0] == c[0] {
      LessTransitive(a[1..], b[1..], c[1..]);
    }
  }

  lemma {:induction false} LessCommonPrefix(p: seq<int>, a: seq<int>, b: seq<int>)
    ensures Less(p + a, p + b) <==> Less(a, b)
  {
    if p == [] {
      assert p + a == a && p + b == b;
    } else {
      LessCommonPrefix(p[1..], a, b);
      assert (p + a)[1..] == p[1..] + a && (p + b)[1..] == p[1..] + b;
    }
  }

  /** The first difference, at `k`, decides. */
  lemma {:induction false} LessAt(a: seq<int>, b: seq<int>, k: nat)
    requires k < |a| && k < |b| && a[..k] == b[..k] && a[k] < b[k]
    ensures Less(a, b) && !Less(b, a)
  {
    if k > 0 {
      assert a[0] == a[..k][0] == b[..k][0] == b[0];
      assert a[1..][..k - 1] == a[..k][1..] && b[1..][..k - 1] == b[..k][1..];
      LessAt(a[1..], b[1..], k - 1);
    }
  }

  // ---- UTF-8 ------------------------------------------------------------------

  function Utf8Char(c: Scalar): seq<Byte> {
    if c < 0x80 then [c]
    else if c < 0x800 then [0xC0 + c / 0x40, 0x80 + c % 0x40]
    else if c < 0x10000 then [0xE0 + c / 0x1000, 0x80 + c / 0x40 % 0x40, 0x80 + c % 0x40]
    else [0xF0 + c / 0x40000, 0x80 + c / 0x1000 % 0x40, 0x80 + c / 0x40 % 0x40, 0x80 + c % 0x40]
  }

  function Utf8(cs: seq<Scalar>): seq<Byte> {
    if cs == [] then [] else Utf8Char(cs[0]) + Utf8(cs[1..])
  }

  function EncodeUtf8(t: Text): seq<Byte> {
    Utf8(Scalars(t))
  }

  predicate Continues(b: int) {
    0x80 <= b <= 0xBF
  }

  /** The table of RFC 3629, section 4, read from the bytes to the code point. */
  lemma Utf8CharIsRfc3629(c: Scalar)
    ensures var b: seq<int> := Utf8Char(c);
      match |b|
      case 1 => c <= 0x7F && b[0] == c
      case 2 => 0x80 <= c <= 0x7FF && 0xC2 <= b[0] <= 0xDF && Continues(b[1])
                && c == (b[0] - 0xC0) * 0x40 + (b[1] - 0x80)
      case 3 => 0x800 <= c <= 0xFFFF && 0xE0 <= b[0] <= 0xEF && Continues(b[1]) && Continues(b[2])
                && c == ((b[0] - 0xE0) * 0x40 + (b[1] - 0x80)) * 0x40 + (b[2] - 0x80)
      case _ => 0x10000 <= c <= 0x10FFFF && |b| == 4 && 0xF0 <= b[0] <= 0xF4
                && Continues(b[1]) && Continues(b[2]) && Continues(b[3])
                && c == (((b[0] - 0xF0) * 0x40 + (b[1] - 0x80)) * 0x40 + (b[2] - 0x80)) * 0x40 + (b[3] - 0x80)
  {
    assert c / 0x1000 == c / 0x40 / 0x40 && c / 0x40000 == c / 0x1000 / 0x40;
  }

  /** The six-bit digits of a number above position `k`, and the one at `k`. */
  function Above(c: nat, k: nat): nat {
    if k == 0 then c / 0x40 else if k == 1 then c / 0x1000 else if k == 2 then c / 0x40000 else 0
  }

  function Digit(c: nat, k: nat): nat {
    if k == 0 then c % 0x40 else if k == 1 then c / 0x40 % 0x40 else if k == 2 then c / 0x1000 % 0x40
    else c / 0x40000
  }

  lemma SplitOrder(c: nat, d: nat)
    requires c < d
    ensures c / 0x40 < d / 0x40 || (c / 0x40 == d / 0x40 && c % 0x40 < d % 0x40)
  {
  }

  lemma Nested(c: nat)
    ensures c / 0x1000 == c / 0x40 / 0x40 && c / 0x40000 == c / 0x1000 / 0x40
  {
  }

  /** A smaller number is smaller in the highest digit where the two differ. */
  lemma DigitOrder(c: nat, d: nat) returns (k: nat)
    requires c < d
    ensures k <= 3 && Above(c, k) == Above(d, k) && Digit(c, k) < Digit(d, k)
  {
    SplitOrder(c, d);
    if c / 0x40 == d / 0x40 { return 0; }
    Nested(c);
    Nested(d);
    SplitOrder(c / 0x40, d / 0x40);
    if c / 0x1000 == d / 0x1000 { return 1; }
    SplitOrder(c / 0x1000, d / 0x1000);
    if c / 0x40000 == d / 0x40000 { return 2; }
    return 3;
  }

  lemma AboveNests(c: nat, d: nat, k: nat)
    requires k < 3 && Above(c, k) == Above(d, k)
    ensures forall j | k < j <= 3 :: Digit(c, j) == Digit(d, j)
  {
    Nested(c);
    Nested(d);
  }

  lemma Utf8CharDigits(c: Scalar)
    ensures var x := Utf8Char(c);
      && (|x| == 1 <==> c < 0x80) && (|x| == 2 <==> 0x80 <= c < 0x800) && (|x| == 3 <==> 0x800 <= c < 0x10000)
      && 1 <= |x| <= 4
      && (|x| > 1 ==> forall j | 0 <= j < |x| - 1 :: x[|x| - 1 - j] == 0x80 + Digit(c, j))
      && (|x| == 2 ==> x[0] == 0xC0 + Digit(c, 1) && Digit(c, 2) == Digit(c, 3) == 0)
      && (|x| == 3 ==> x[0] == 0xE0 + Digit(c, 2) && Digit(c, 3) == 0)
      && (|x| == 4 ==> x[0] == 0xF0 + Digit(c, 3))
  {
  }

  /** Two different characters already differ inside the shorter of their encodings. */
  lemma Utf8CharOrder(c: Scalar, d: Scalar) returns (k: nat)
    requires c < d
    ensures k < |Utf8Char(c)| && k < |Utf8Char(d)|
    ensures Utf8Char(c)[..k] == Utf8Char(d)[..k] && Utf8Char(c)[k] < Utf8Char(d)[k]
  {
    var x, y := Utf8Char(c), Utf8Char(d);
    if |x| < |y| || |x| == 1 { return 0; }
    Utf8CharDigits(c);
    Utf8CharDigits(d);
    var j := DigitOrder(c, d);
    if j < 3 {
      AboveNests(c, d, j);
    }
    hide Utf8Char, Digit, Above;
    return |x| - 1 - j;
  }

  lemma {:induction false} Utf8KeepsOrder(cs: seq<Scalar>, ds: seq<Scalar>)
    ensures Less(Utf8(cs), Utf8(ds)) <==> Less(cs, ds)
  {
    if cs != [] && ds != [] {
      var a, b := Utf8(cs), Utf8(ds);
      if cs[0] == ds[0] {
        LessCommonPrefix(Utf8Char(cs[0]), Utf8(cs[1..]), Utf8(ds[1..]));
        Utf8KeepsOrder(cs[1..], ds[1..]);
      } else if cs[0] < ds[0] {
        var k := Utf8CharOrder(cs[0], ds[0]);
        assert a[..k] == Utf8Char(cs[0])[..k] && b[..k] == Utf8Char(ds[0])[..k];
        LessAt(a, b, k);
      } else {
        var k := Utf8CharOrder(ds[0], cs[0]);
        assert a[..k] == Utf8Char(cs[0])[..k] && b[..k] == Utf8Char(ds[0])[..k];
        LessAt(b, a, k);
      }
    }
  }

  // ---- compareUtf8 -------------------------------------------------------------

  /** `compareUtf8(a, b) < 0`. */
  predicate TextLess(a: Text, b: Text) {
    Less(EncodeUtf8(a), EncodeUtf8(b))
  }

  method CompareUtf8(a: Text, b: Text) returns (sign: int)
    ensures sign < 0 <==> Less(EncodeUtf8(a), EncodeUtf8(b))
    ensures sign > 0 <==> Less(EncodeUtf8(b), EncodeUtf8(a))
    ensures sign == 0 <==> EncodeUtf8(a) == EncodeUtf8(b)
  {
    hide EncodeUtf8;
    var x, y := EncodeUtf8(a), EncodeUtf8(b);
    var shared := if |x| < |y| then |x| else |y|;
    LessTrichotomy(x, y);
    var i := 0;
    while i < shared
      invariant 0 <= i <= shared
      invariant x[..i] == y[..i]
    {
      if x[i] != y[i] {
        if x[i] < y[i] {
          LessAt(x, y, i);
        } else {
          LessAt(y, x, i);
        }
        var p: int, q: int := x[i], y[i];
        return p - q;
      }
      i := i + 1;
    }
    assert x == x[..shared] + x[shared..] && y == y[..shared] + y[shared..];
    LessCommonPrefix(x[..shared], x[shared..], y[shared..]);
    LessCommonPrefix(x[..shared], y[shared..], x[shared..]);
    return |x| - |y|;
  }

  /** UTF-8 byte order is code-point order, whatever the UTF-16 units look like. */
  lemma CompareIsCodePointOrder(a: Text, b: Text)
    ensures TextLess(a, b) <==> Less(Scalars(a), Scalars(b))
  {
    Utf8KeepsOrder(Scalars(a), Scalars(b));
  }

  /** On strings without lone surrogates the comparison is a total order. */
  lemma CompareIsTotalOrder(a: Text, b: Text, c: Text)
    requires WellFormed(a) && WellFormed(b) && WellFormed(c)
    ensures !TextLess(a, a)
    ensures TextLess(a, b) && TextLess(b, c) ==> TextLess(a, c)
    ensures TextLess(a, b) || TextLess(b, a) || a == b
    ensures EncodeUtf8(a) == EncodeUtf8(b) <==> a == b
  {
    LessTrichotomy(EncodeUtf8(a), EncodeUtf8(b));
    CompareIsCodePointOrder(a, b);
    CompareIsCodePointOrder(b, a);
    LessTrichotomy(Scalars(a), Scalars(b));
    WellFormedIsUtf16(a);
    WellFormedIsUtf16(b);
    LessTrichotomy(EncodeUtf8(a), EncodeUtf8(a));
    if TextLess(a, b) && TextLess(b, c) {
      LessTransitive(EncodeUtf8(a), EncodeUtf8(b), EncodeUtf8(c));
    }
  }
}
