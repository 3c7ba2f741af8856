/** Bitwise operations on natural numbers, as JavaScript's BigInt has them, and their algebra. */
module Bits {
  /** `a ^ b` */
  function Xor(a: nat, b: nat): nat
    decreases a + b
  {
    if a == 0 && b == 0 then 0 else (a + b) % 2 + 2 * Xor(a / 2, b / 2)
  }

  /** `a | b` */
  function Or(a: nat, b: nat): nat
    decreases a + b
  {
    if a == 0 && b == 0 then 0 else (if a % 2 == 1 || b % 2 == 1 then 1 else 0) + 2 * Or(a / 2, b / 2)
  }

  /** `a >> k` */
  function Shr(a: nat, k: nat): nat {
    if k == 0 then a else Shr(a / 2, k - 1)
  }

  function Pow2(k: nat): nat {
    if k == 0 then 1 else 2 * Pow2(k - 1)
  }

  // ---- exclusive or ---------------------------------------------------------------------

  /** The half and the parity of an exclusive or. */
  lemma XorHalves(a: nat, b: nat)
    ensures Xor(a, b) / 2 == Xor(a / 2, b / 2) && Xor(a, b) % 2 == (a + b) % 2
  {
  }

  lemma {:induction false} XorComm(a: nat, b: nat)
    ensures Xor(a, b) == Xor(b, a)
    decreases a + b
  {
    if a != 0 || b != 0 {
      XorComm(a / 2, b / 2);
    }
  }

  lemma {:induction false} XorZero(a: nat)
    ensures Xor(a, 0) == a
  {
    if a != 0 {
      XorZero(a / 2);
    }
  }

  lemma {:induction false} XorSelf(a: nat)
    ensures Xor(a, a) == 0
  {
    if a != 0 {
      XorSelf(a / 2);
    }
  }

  lemma Parity(x: nat, y: nat, c: nat)
    requires x % 2 == y % 2
    ensures (x + c) % 2 == (y + c) % 2
  {
  }

  lemma SameNumber(l: nat, r: nat)
    requires l / 2 == r / 2 && l % 2 == r % 2
    ensures l == r
  {
  }

  lemma {:induction false} XorAssoc(a: nat, b: nat, c: nat)
    ensures Xor(Xor(a, b), c) == Xor(a, Xor(b, c))
    decreases a + b + c
  {
    hide Xor;
    if a == 0 && b == 0 && c == 0 {
      XorZero(0);
    } else {
      XorAssoc(a / 2, b / 2, c / 2);
      XorHalves(a, b);
      XorHalves(b, c);
      XorHalves(Xor(a, b), c);
      XorHalves(a, Xor(b, c));
      Parity(Xor(a, b), a + b, c);
      Parity(Xor(b, c), b + c, a);
      SameNumber(Xor(Xor(a, b), c), Xor(a, Xor(b, c)));
    }
  }

  lemma {:induction false} XorBound(a: nat, b: nat, k: nat)
    requires a < Pow2(k) && b < Pow2(k)
    ensures Xor(a, b) < Pow2(k)
  {
    if k > 0 && (a != 0 || b != 0) {
      XorBound(a / 2, b / 2, k - 1);
    }
  }

  /** Xoring the same number twice does nothing. */
  lemma XorCancel(a: nat, b: nat)
    ensures Xor(Xor(a, b), b) == a && Xor(b, Xor(b, a)) == a
  {
    XorAssoc(a, b, b);
    XorAssoc(b, b, a);
    XorSelf(b);
    XorZero(a);
    XorComm(0, a);
  }

  // ---- shifts ------------------------------------------------------------------------------

  lemma {:induction false} XorShr(a: nat, b: nat, k: nat)
    ensures Shr(Xor(a, b), k) == Xor(Shr(a, k), Shr(b, k))
  {
    if k > 0 {
      XorHalves(a, b);
      XorShr(a / 2, b / 2, k - 1);
    }
  }

  lemma {:induction false} ShrShr(a: nat, j: nat, k: nat)
    ensures Shr(Shr(a, j), k) == Shr(a, j + k)
    decreases j
  {
    if j > 0 {
      ShrShr(a / 2, j - 1, k);
    }
  }

  lemma {:induction false} ShrGone(a: nat, bits: nat, k: nat)
    requires a < Pow2(bits) && bits <= k
    ensures Shr(a, k) == 0
    decreases k
  {
    if k > 0 {
      ShrGone(a / 2, if bits == 0 then 0 else bits - 1, k - 1);
    }
  }

  lemma {:induction false} ShrBound(a: nat, k: nat)
    ensures Shr(a, k) <= a
  {
    if k > 0 {
      ShrBound(a / 2, k - 1);
    }
  }

  // ---- xor-shift ---------------------------------------------------------------------------

  function XorShift(x: nat, k: nat): nat {
    Xor(x, Shr(x, k))
  }

  function UnXorShift(y: nat, k: nat): nat {
    Xor(y, Xor(Shr(y, k), Shr(y, k + k)))
  }

  /** `x ^ (x >> k)` telescopes: xoring in the shifts by k and 2k leaves x and its shift by 3k. */
  lemma Telescope(x: nat, k: nat)
    ensures UnXorShift(XorShift(x, k), k) == Xor(x, Shr(x, k + k + k))
    ensures XorShift(UnXorShift(x, k), k) == Xor(x, Shr(x, k + k + k))
  {
    var a, b, c := Shr(x, k), Shr(x, k + k), Shr(x, k + k + k);
    ShrShr(x, k, k);
    ShrShr(x, k, k + k);
    ShrShr(x, k + k, k);
    XorShr(x, a, k);
    XorShr(x, a, k + k);
    XorShr(a, b, k);
    XorShr(x, Xor(a, b), k);
    hide Xor, Shr;
    var y, z := Xor(x, a), Xor(x, Xor(a, b));
    assert Shr(y, k) == Xor(a, b) && Shr(y, k + k) == Xor(b, c);
    XorAssoc(a, b, Xor(b, c));
    XorCancel(c, b);
    XorAssoc(x, a, Xor(a, c));
    XorCancel(c, a);
    assert Xor(y, Xor(Xor(a, b), Xor(b, c))) == Xor(x, c);
    assert Shr(z, k) == Xor(a, Xor(b, c));
    XorAssoc(x, Xor(a, b), Xor(a, Xor(b, c)));
    XorAssoc(a, b, c);
    XorCancel(c, Xor(a, b));
    assert Xor(z, Shr(z, k)) == Xor(x, c);
  }

  /** On `bits`-bit words a xor-shift by at least a third of the width is undone. */
  lemma XorShiftUndone(x: nat, k: nat, bits: nat)
    requires x < Pow2(bits) && bits <= 3 * k
    ensures UnXorShift(XorShift(x, k), k) == x && XorShift(UnXorShift(x, k), k) == x
    ensures XorShift(x, k) < Pow2(bits) && UnXorShift(x, k) < Pow2(bits)
  {
    Telescope(x, k);
    ShrGone(x, bits, k + k + k);
    XorZero(x);
    ShrBound(x, k);
    ShrBound(x, k + k);
    XorBound(x, Shr(x, k), bits);
    XorBound(Shr(x, k), Shr(x, k + k), bits);
    XorBound(x, Xor(Shr(x, k), Shr(x, k + k)), bits);
  }

  // ---- or ----------------------------------------------------------------------------------

  lemma OrEven(m: nat, b: nat)
    ensures Or(2 * m, b) == b % 2 + 2 * Or(m, b / 2)
  {
  }

  /** Oring into bits that are zero is adding. */
  lemma {:induction false} OrDisjoint(a: nat, b: nat, k: nat)
    requires b < Pow2(k)
    ensures Or(a * Pow2(k), b) == a * Pow2(k) + b
  {
    if k == 0 {
      OrZero(a);
    } else {
      OrDisjoint(a, b / 2, k - 1);
      var m := a * Pow2(k - 1);
      assert a * Pow2(k) == 2 * m;
      OrEven(m, b);
    }
  }

  lemma {:induction false} OrZero(a: nat)
    ensures Or(a, 0) == a
  {
    if a != 0 {
      OrZero(a / 2);
    }
  }

  lemma Pow2Values()
    ensures Pow2(32) == 0x1_0000_0000 && Pow2(64) == 0x1_0000_0000_0000_0000
  {
    assert Pow2(4) == 16;
    Pow2Sum(4, 4);
    Pow2Sum(8, 8);
    Pow2Sum(16, 16);
    Pow2Sum(32, 32);
  }

  lemma {:induction false} Pow2Sum(a: nat, b: nat)
    ensures Pow2(a + b) == Pow2(a) * Pow2(b)
  {
    if a > 0 {
      Pow2Sum(a - 1, b);
      assert 2 * Pow2(a - 1) * Pow2(b) == 2 * (Pow2(a - 1) * Pow2(b));
    }
  }
}
