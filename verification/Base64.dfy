/** Unpadded base64url (section 5 of RFC 4648), src/judging/codec/leaf-grammar.ts:141-204. */
module Base64 {
  import opened Arithmetic
  import opened Wrappers
  import opened Unicode

  type Sextet = s: int | 0 <= s < 64

  /** The character of a sextet. */
  function Letter(s: Sextet): Unit {
    if s < 26 then 0x41 + s
    else if s < 52 then 0x61 + s - 26
    else if s < 62 then 0x30 + s - 52
    else if s == 62 then 0x2d
    else 0x5f
  }

  /** The sextet of a character, or -1. */
  function SextetOf(c: int): int {
    if 0x41 <= c <= 0x5a then c - 0x41
    else if 0x61 <= c <= 0x7a then c - 0x61 + 26
    else if 0x30 <= c <= 0x39 then c - 0x30 + 52
    else if c == 0x2d then 62
    else if c == 0x5f then 63
    else -1
  }

  lemma LetterReads(s: Sextet)
    ensures SextetOf(Letter(s)) == s
  {
  }

  // ---- what the encoding is ------------------------------------------------------

  /** Three bytes are four sextets; a last group of one or two bytes is two or three, padded with zero bits. */
  function Group(b: seq<Byte>): Text
    requires 0 < |b| <= 3
  {
    if |b| == 1 then [Letter(b[0] / 4), Letter(b[0] % 4 * 16)]
    else if |b| == 2 then [Letter(b[0] / 4), Letter(b[0] % 4 * 16 + b[1] / 16), Letter(b[1] % 16 * 4)]
    else [Letter(b[0] / 4), Letter(b[0] % 4 * 16 + b[1] / 16), Letter(b[1] % 16 * 4 + b[2] / 64), Letter(b[2] % 64)]
  }

  function Encode(b: seq<Byte>): Text {
    if |b| == 0 then []
    else if |b| <= 3 then Group(b)
    else Group(b[..3]) + Encode(b[3..])
  }

  function Prepend(b: seq<Byte>, r: Option<seq<Byte>>): Option<seq<Byte>> {
    match r
    case None => None
    case Some(rest) => Some(b + rest)
  }

  lemma PrependNothing(r: Option<seq<Byte>>)
    ensures Prepend([], r) == r
  {
    if r.Some? {
      assert [] + r.value == r.value;
    }
  }

  lemma PrependTwice(a: seq<Byte>, b: seq<Byte>, r: Option<seq<Byte>>)
    ensures Prepend(a, Prepend(b, r)) == Prepend(a + b, r)
  {
    if r.Some? {
      assert a + (b + r.value) == a + b + r.value;
    }
  }

  /** The bytes completed by reading `t`, `bits` bits worth `pending` having been left over. */
  function Lenient(t: Text, bits: nat, pending: nat): (r: Option<seq<Byte>>)
    requires (bits == 0 && pending == 0) || (bits == 2 && pending < 4) || (bits == 4 && pending < 16) ||
             (bits == 6 && pending < 64)
  {
    if t == [] then Some([])
    else
      var s := SextetOf(t[0]);
      if s < 0 then None
      else if bits == 0 then Lenient(t[1..], 6, s)
      else
        var all := pending * 64 + s;
        var left := bits - 2;
        var weight := if left == 0 then 1 else if left == 2 then 4 else 16;
        Prepend([all / weight], Lenient(t[1..], left, all % weight))
  }

  function Decode(t: Text): Option<seq<Byte>> {
    if |t| % 4 == 1 then None
    else
      match Lenient(t, 0, 0)
      case None => None
      case Some(b) => if Encode(b) == t then Some(b) else None
  }

  lemma {:induction false} EncodeLength(b: seq<Byte>)
    ensures |Encode(b)| % 4 != 1
  {
    hide Letter;
    if |b| > 3 {
      EncodeLength(b[3..]);
    }
  }

  /** A second sextet completes a byte, and so do the third and fourth. */
  lemma LenientSecond(b0: Byte, x: nat, rest: Text)
    requires x < 16
    ensures Lenient([Letter(b0 / 4), Letter(b0 % 4 * 16 + x)] + rest, 0, 0) == Prepend([b0], Lenient(rest, 4, x))
  {
    var s0, s1 := b0 / 4, b0 % 4 * 16 + x;
    LetterReads(s0);
    LetterReads(s1);
    hide Letter, SextetOf, Prepend;
    var t := [Letter(s0), Letter(s1)] + rest;
    assert t[1..] == [Letter(s1)] + rest && t[1..][1..] == rest;
    DivAt(s0 * 64 + s1, 16, b0, x);
  }

  lemma LenientThird(b1: Byte, y: nat, rest: Text)
    requires y < 4
    ensures Lenient([Letter(b1 % 16 * 4 + y)] + rest, 4, b1 / 16) == Prepend([b1], Lenient(rest, 2, y))
  {
    var s2 := b1 % 16 * 4 + y;
    LetterReads(s2);
    hide Letter, SextetOf, Prepend;
    assert ([Letter(s2)] + rest)[1..] == rest;
    DivAt(b1 / 16 * 64 + s2, 4, b1, y);
  }

  lemma LenientFourth(b2: Byte, rest: Text)
    ensures Lenient([Letter(b2 % 64)] + rest, 2, b2 / 64) == Prepend([b2], Lenient(rest, 0, 0))
  {
    LetterReads(b2 % 64);
    hide Letter, SextetOf, Prepend;
    assert ([Letter(b2 % 64)] + rest)[1..] == rest;
  }

  /** Four characters that came from three bytes give the three bytes back. */
  lemma LenientGroup(b0: Byte, b1: Byte, b2: Byte, rest: Text)
    ensures
      var t := [Letter(b0 / 4), Letter(b0 % 4 * 16 + b1 / 16), Letter(b1 % 16 * 4 + b2 / 64), Letter(b2 % 64)] + rest;
      Lenient(t, 0, 0) == Prepend([b0, b1, b2], Lenient(rest, 0, 0))
  {
    hide Letter, SextetOf, Prepend, Lenient;
    var l0, l1, l2, l3 := Letter(b0 / 4), Letter(b0 % 4 * 16 + b1 / 16), Letter(b1 % 16 * 4 + b2 / 64), Letter(b2 % 64);
    assert [l0, l1, l2, l3] + rest == [l0, l1] + ([l2] + ([l3] + rest));
    LenientSecond(b0, b1 / 16, [l2] + ([l3] + rest));
    LenientThird(b1, b2 / 64, [l3] + rest);
    LenientFourth(b2, rest);
    PrependTwice([b0], [b1], Prepend([b2], Lenient(rest, 0, 0)));
    PrependTwice([b0] + [b1], [b2], Lenient(rest, 0, 0));
    assert [b0] + [b1] + [b2] == [b0, b1, b2];
  }

  lemma LenientOne(b0: Byte)
    ensures Lenient([Letter(b0 / 4), Letter(b0 % 4 * 16)], 0, 0) == Some([b0])
  {
    hide Letter, SextetOf;
    var t := [Letter(b0 / 4), Letter(b0 % 4 * 16 + 0)];
    assert t == t + [];
    LenientSecond(b0, 0, []);
    assert [b0] + [] == [b0];
  }

  lemma LenientTwo(b0: Byte, b1: Byte)
    ensures Lenient([Letter(b0 / 4), Letter(b0 % 4 * 16 + b1 / 16), Letter(b1 % 16 * 4)], 0, 0) == Some([b0, b1])
  {
    assert Lenient([], 2, 0) == Some([]);
    hide Letter, SextetOf, Lenient;
    var l0, l1, l2 := Letter(b0 / 4), Letter(b0 % 4 * 16 + b1 / 16), Letter(b1 % 16 * 4 + 0);
    assert [l0, l1, l2] == [l0, l1] + ([l2] + []);
    LenientSecond(b0, b1 / 16, [l2] + []);
    LenientThird(b1, 0, []);
    assert [b0] + ([b1] + []) == [b0, b1];
  }

  lemma GroupUndoes(b: seq<Byte>, rest: Text)
    requires 0 < |b| <= 3 && (|b| < 3 ==> rest == [])
    ensures Lenient(Group(b) + rest, 0, 0) == Prepend(b, Lenient(rest, 0, 0))
  {
    assert Lenient([], 0, 0) == Some([]);
    hide Letter, Lenient;
    assert Group(b) + [] == Group(b) && b + [] == b;
    if |b| == 1 {
      LenientOne(b[0]);
      assert b == [b[0]];
    } else if |b| == 2 {
      LenientTwo(b[0], b[1]);
      assert b == [b[0], b[1]];
    } else {
      LenientGroup(b[0], b[1], b[2], rest);
      assert b == [b[0], b[1], b[2]];
    }
  }

  lemma {:induction false} LenientUndoes(b: seq<Byte>)
    ensures Lenient(Encode(b), 0, 0) == Some(b)
  {
    hide Group;
    assert Lenient([], 0, 0) == Some([]);
    if |b| == 0 {
    } else if |b| <= 3 {
      GroupUndoes(b, []);
      assert Group(b) + [] == Group(b);
      assert b + [] == b;
    } else {
      LenientUndoes(b[3..]);
      GroupUndoes(b[..3], Encode(b[3..]));
      assert b == b[..3] + b[3..];
    }
  }

  /** Decoding accepts exactly the encodings, each as the bytes it encodes; so encoding loses nothing. */
  lemma DecodeIffEncode(t: Text, b: seq<Byte>)
    ensures Decode(t) == Some(b) <==> Encode(b) == t
  {
    if Encode(b) == t {
      EncodeLength(b);
      LenientUndoes(b);
    }
  }

  // ---- how the source computes it -----------------------------------------------------

  method EncodeBase64Url(bytes: seq<Byte>) returns (out: Text)
    ensures out == Encode(bytes)
  {
    hide Letter, Encode, Group;
    out := [];
    var i := 0;
    assert bytes[0..] == bytes && Encode([]) == [] by { EncodeNothing(); }
    while i < |bytes|
      invariant 0 <= i <= |bytes| + 2
      invariant if i <= |bytes| then out + Encode(bytes[i..]) == Encode(bytes) else out == Encode(bytes)
    {
      var b0: int := bytes[i];
      var b1: int := if i + 1 < |bytes| then bytes[i + 1] else 0;
      var b2: int := if i + 2 < |bytes| then bytes[i + 2] else 0;
      var triple := b0 * 0x10000 + b1 * 0x100 + b2;
      Triple(b0, b1, b2);
      ghost var before := out;
      out := out + [Letter(triple / 0x40000 % 64)];
      out := out + [Letter(triple / 0x1000 % 64)];
      if i + 1 < |bytes| {
        out := out + [Letter(triple / 0x40 % 64)];
      }
      if i + 2 < |bytes| {
        out := out + [Letter(triple % 64)];
      }
      ghost var end := if i + 3 <= |bytes| then i + 3 else |bytes|;
      assert out == before + Group(bytes[i..end]) by { GroupComputed(bytes[i..end], b0, b1, b2); }
      EncodeStep(bytes, i, before);
      assert bytes[i..|bytes|] == bytes[i..];
      i := i + 3;
    }
    if i <= |bytes| {
      assert bytes[i..] == [];
      EncodeNothing();
    }
  }

  lemma EncodeNothing()
    ensures Encode([]) == []
  {
  }

  lemma GroupComputed(b: seq<Byte>, b0: Byte, b1: Byte, b2: Byte)
    requires 0 < |b| <= 3
    requires b0 == b[0] && b1 == (if |b| > 1 then b[1] else 0) && b2 == (if |b| > 2 then b[2] else 0)
    ensures Group(b) ==
      [Letter(b0 / 4)] + [Letter(b0 % 4 * 16 + b1 / 16)]
      + (if |b| > 1 then [Letter(b1 % 16 * 4 + b2 / 64)] else [])
      + (if |b| > 2 then [Letter(b2 % 64)] else [])
  {
    hide Letter;
  }

  /** Shifting and masking the 24-bit group gives its four sextets. */
  lemma Triple(b0: Byte, b1: Byte, b2: Byte)
    ensures var triple := b0 * 0x10000 + b1 * 0x100 + b2;
      && triple / 0x40000 % 64 == b0 / 4
      && triple / 0x1000 % 64 == b0 % 4 * 16 + b1 / 16
      && triple / 0x40 % 64 == b1 % 16 * 4 + b2 / 64
      && triple % 64 == b2 % 64
  {
    var triple := b0 * 0x10000 + b1 * 0x100 + b2;
    var x0, y0, x1, y1, x2, y2 := b0 / 4, b0 % 4, b1 / 16, b1 % 16, b2 / 64, b2 % 64;
    assert b0 == 4 * x0 + y0 && b1 == 16 * x1 + y1 && b2 == 64 * x2 + y2;
    DivAt(triple, 0x40000, x0, y0 * 0x10000 + b1 * 0x100 + b2);
    DivAt(x0, 64, 0, x0);
    DivAt(triple, 0x1000, b0 * 16 + x1, y1 * 0x100 + b2);
    DivAt(b0 * 16 + x1, 64, x0, y0 * 16 + x1);
    DivAt(triple, 0x40, b0 * 0x400 + b1 * 4 + x2, y2);
    DivAt(b0 * 0x400 + b1 * 4 + x2, 64, b0 * 16 + x1, y1 * 4 + x2);
  }

  lemma EncodeUnfolds(b: seq<Byte>)
    requires b != []
    ensures |b| >= 3 ==> Encode(b) == Group(b[..3]) + Encode(b[3..])
    ensures |b| < 3 ==> Encode(b) == Group(b)
  {
    hide Group;
    if |b| == 3 {
      assert b[..3] == b && Encode(b[3..]) == [];
    }
  }

  lemma EncodeStep(bytes: seq<Byte>, i: nat, before: Text)
    requires i < |bytes| && before + Encode(bytes[i..]) == Encode(bytes)
    ensures i + 3 <= |bytes| ==> before + Group(bytes[i..i + 3]) + Encode(bytes[i + 3..]) == Encode(bytes)
    ensures i + 3 > |bytes| ==> before + Group(bytes[i..]) == Encode(bytes)
  {
    hide Group, Encode;
    EncodeUnfolds(bytes[i..]);
    if i + 3 <= |bytes| {
      assert bytes[i..][..3] == bytes[i..i + 3] && bytes[i..][3..] == bytes[i + 3..];
      var group, more := Group(bytes[i..i + 3]), Encode(bytes[i + 3..]);
      assert before + (group + more) == before + group + more;
    }
  }

  /** JavaScript's conversion to a signed 32-bit integer. */
  function ToInt32(n: int): (r: int)
    ensures -0x8000_0000 <= r < 0x8000_0000
  {
    var m := n % 0x1_0000_0000;
    if m >= 0x8000_0000 then m - 0x1_0000_0000 else m
  }

  function Weight(bits: nat): nat {
    if bits == 0 then 1 else if bits == 2 then 4 else if bits == 4 then 16 else 64
  }

  /** The accumulator is never masked, but only its low bits are ever looked at. */
  lemma LowBits(buffer: int, bits: nat, pending: nat, s: Sextet)
    requires bits == 2 || bits == 4 || bits == 6
    requires buffer % Weight(bits) == pending
    ensures var next := ToInt32(buffer * 64 + s);
      var w := Weight(bits - 2);
      next / w % 0x100 == (pending * 64 + s) / w && next % w == (pending * 64 + s) % w
  {
    var w := Weight(bits - 2);
    var q := buffer / Weight(bits);
    var all := pending * 64 + s;
    var next, k := Wrapped(buffer * 64 + s);
    var x := if bits == 2 then q - k * 0x100_0000 else if bits == 4 then q - k * 0x40_0000 else q - k * 0x10_0000;
    assert next == w * (0x100 * x + all / w) + all % w;
    DivAt(next, w, 0x100 * x + all / w, all % w);
    DivAt(0x100 * x + all / w, 0x100, x, all / w);
  }

  lemma Wrapped(n: int) returns (r: int, k: int)
    ensures r == ToInt32(n) && n == r + k * 0x1_0000_0000
  {
    r := ToInt32(n);
    k := n / 0x1_0000_0000;
    if n % 0x1_0000_0000 >= 0x8000_0000 {
      k := k + 1;
    }
  }

  method DecodeBase64Url(value: Text) returns (r: Option<seq<Byte>>)
    ensures r == Decode(value)
  {
    if |value| % 4 == 1 { return None; }
    var bytes: seq<Byte> := [];
    var buffer, bits := 0, 0;
    var i := 0;
    ghost var pending := 0;
    assert value[0..] == value;
    PrependNothing(Lenient(value, 0, 0));
    while i < |value|
      invariant 0 <= i <= |value|
      invariant bits == 0 || bits == 2 || bits == 4 || bits == 6
      invariant buffer % Weight(bits) == pending < Weight(bits)
      invariant Lenient(value, 0, 0) == Prepend(bytes, Lenient(value[i..], bits, pending))
    {
      hide Letter, SextetOf, ToInt32, Encode;
      assert value[i..][0] == value[i] && value[i..][1..] == value[i + 1..];
      var sextet := SextetOf(value[i]);
      if sextet < 0 { return None; }
      assert 0 <= sextet < 64 by { SextetRange(value[i]); }
      if bits == 0 {
        FirstBits(buffer, sextet);
      } else {
        LowBits(buffer, bits, pending, sextet);
      }
      buffer := ToInt32(buffer * 64 + sextet);
      bits := bits + 6;
      if bits >= 8 {
        pending := (pending * 64 + sextet) % Weight(bits - 8);
        bits := bits - 8;
        var byte := buffer / Weight(bits) % 0x100;
        PrependTwice(bytes, [byte], Lenient(value[i + 1..], bits, pending));
        bytes := bytes + [byte];
      } else {
        pending := sextet;
      }
      i := i + 1;
    }
    assert value[i..] == [];
    assert bytes + [] == bytes;
    var again := EncodeBase64Url(bytes);
    if again != value { return None; }
    return Some(bytes);
  }

  lemma SextetRange(c: int)
    ensures -1 <= SextetOf(c) < 64
  {
  }

  lemma FirstBits(buffer: int, s: Sextet)
    ensures ToInt32(buffer * 64 + s) % 64 == s
  {
    var next, k := Wrapped(buffer * 64 + s);
    DivAt(next, 64, buffer - k * 0x400_0000, s);
  }

  // ---- the format, as literal characters ------------------------------------------------------

  /** Table 2 of RFC 4648: `A`-`Z`, `a`-`z`, `0`-`9`, `-` and `_` are the digits 0 to 63, and nothing else is one. */
  lemma AlphabetIsTable2(s: Sextet, c: Unit)
    ensures s < 26 ==> Letter(s) == 'A' as int + s
    ensures 26 <= s < 52 ==> Letter(s) == 'a' as int + (s - 26)
    ensures 52 <= s < 62 ==> Letter(s) == '0' as int + (s - 52)
    ensures Letter(62) == '-' as int && Letter(63) == '_' as int
    ensures SextetOf(c) == s <==> c == Letter(s)
    ensures SextetOf(c) == -1 <==>
            !('A' as int <= c <= 'Z' as int) && !('a' as int <= c <= 'z' as int) && !('0' as int <= c <= '9' as int)
            && c != '-' as int && c != '_' as int
  {
    LetterReads(s);
  }

  lemma SextetsOfThree(a: Byte, b: Byte, c: Byte)
    ensures var n: int := (a as int) * 0x10000 + (b as int) * 0x100 + c;
      && n / 0x40000 == a / 4 && n / 0x1000 % 64 == a % 4 * 16 + b / 16
      && n / 64 % 64 == b % 16 * 4 + c / 64 && n % 64 == c % 64
  {
    var n: int := (a as int) * 0x10000 + (b as int) * 0x100 + c;
    DivAt(n, 0x40000, a / 4, (a % 4) * 0x10000 + b * 0x100 + c);
    DivAt(n, 0x1000, a * 16 + b / 16, (b % 16) * 0x100 + c);
    DivAt(a * 16 + b / 16, 64, a / 4, a % 4 * 16 + b / 16);
    DivAt(n, 64, a * 0x400 + b * 4 + c / 64, c % 64);
    DivAt(a * 0x400 + b * 4 + c / 64, 64, a * 16 + b / 16, b % 16 * 4 + c / 64);
  }

  /** The 24-bit number of up to three bytes, padded with zero bits. */
  function Word24(b: seq<Byte>): nat
    requires 0 < |b| <= 3
  {
    (b[0] as int) * 0x10000 + (if |b| > 1 then b[1] as int else 0) * 0x100 + if |b| > 2 then b[2] as int else 0
  }

  lemma Word24Sextets(b: seq<Byte>)
    requires 0 < |b| <= 3
    ensures var x: int, y: int, z: int := b[0], if |b| > 1 then b[1] else 0, if |b| > 2 then b[2] else 0;
      && Word24(b) / 0x40000 == x / 4 && Word24(b) / 0x1000 % 64 == x % 4 * 16 + y / 16
      && Word24(b) / 64 % 64 == y % 16 * 4 + z / 64 && Word24(b) % 64 == z % 64
      && 0 <= Word24(b) / 0x40000 < 64
  {
    SextetsOfThree(b[0], if |b| > 1 then b[1] else 0, if |b| > 2 then b[2] else 0);
  }

  /** Up to three bytes are one 24-bit number, padded with zero bits, written in base 64 from the left. */
  lemma GroupIsBase64(b: seq<Byte>)
    requires 0 < |b| <= 3
    ensures Word24(b) / 0x40000 < 64
    ensures var n := Word24(b);
      Encode(b) == [Letter(n / 0x40000), Letter(n / 0x1000 % 64), Letter(n / 64 % 64), Letter(n % 64)][..|b| + 1]
  {
    hide Letter, Word24;
    Word24Sextets(b);
  }

  /** Longer inputs are encoded three bytes at a time. */
  lemma GroupsConcatenate(b: seq<Byte>, rest: seq<Byte>)
    requires |b| == 3
    ensures Encode(b + rest) == Encode(b) + Encode(rest)
  {
    assert (b + rest)[..3] == b && (b + rest)[3..] == rest;
    if rest == [] {
      assert b + rest == b;
    }
  }
}
