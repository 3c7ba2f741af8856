/** The paired benchmark order (src/benchmark/ordering.ts): generator, rejection sampling, shuffle. */
module Ordering {
  import opened Arithmetic
  import opened Wrappers
  import opened Bits

  const MODULUS := 0x1_0000_0000_0000_0000
  const INCREMENT := 0x9e3779b97f4a7c15
  const MIX_A := 0xbf58476d1ce4e5b9
  const MIX_B := 0x94d049bb133111eb

  /** Multiplicative inverses of the three odd constants modulo 2^64. */
  const INCREMENT_INVERSE := 0xf1de83e19937733d
  const MIX_A_INVERSE := 0x96de1b173f119089
  const MIX_B_INVERSE := 0x319642b2d24d8ec3

  type Uint64 = n: nat | n < 0x1_0000_0000_0000_0000

  // ---- mix64 ----------------------------------------------------------------------------

  lemma ShiftIsWord(x: Uint64, k: nat)
    requires 64 <= 3 * k
    ensures XorShift(x, k) < MODULUS && UnXorShift(x, k) < MODULUS
    ensures UnXorShift(XorShift(x, k), k) == x && XorShift(UnXorShift(x, k), k) == x
  {
    hide Pow2;
    Pow2Values();
    XorShiftUndone(x, k, 64);
  }

  function Shift(x: Uint64, k: nat): Uint64
    requires 64 <= 3 * k
  {
    ShiftIsWord(x, k);
    XorShift(x, k)
  }

  function Unshift(y: Uint64, k: nat): Uint64
    requires 64 <= 3 * k
  {
    ShiftIsWord(y, k);
    UnXorShift(y, k)
  }

  function Times(x: nat, c: nat): Uint64 {
    x * c % MODULUS
  }

  function Mix64(value: nat): Uint64 {
    Shift(Times(Shift(Times(Shift(value % MODULUS, 30), MIX_A), 27), MIX_B), 31)
  }

  function Unmix64(word: Uint64): Uint64 {
    Unshift(Times(Unshift(Times(Unshift(word, 31), MIX_B_INVERSE), 27), MIX_A_INVERSE), 30)
  }

  /** `n` is the remainder of `n + k * MODULUS`. */
  lemma RemainderOf(n: int, k: int)
    requires 0 <= n < MODULUS
    ensures (n + k * MODULUS) % MODULUS == n
  {
  }

  lemma TimesUndone(x: Uint64, c: nat, d: nat, j: nat)
    requires c * d == 1 + j * MODULUS
    ensures Times(Times(x, c), d) == x
  {
    var q := x * c / MODULUS;
    var r := x * c % MODULUS;
    assert x * c == q * MODULUS + r;
    assert r * d == x * c * d - q * MODULUS * d;
    assert x * c * d == x * (c * d) == x + x * j * MODULUS;
    assert r * d == x + (x * j - q * d) * MODULUS;
    RemainderOf(x, x * j - q * d);
  }

  lemma MixFactorsInvert(x: Uint64)
    ensures Times(Times(x, MIX_A), MIX_A_INVERSE) == x && Times(Times(x, MIX_A_INVERSE), MIX_A) == x
    ensures Times(Times(x, MIX_B), MIX_B_INVERSE) == x && Times(Times(x, MIX_B_INVERSE), MIX_B) == x
  {
    hide Times;
    TimesUndone(x, MIX_A, MIX_A_INVERSE, (MIX_A * MIX_A_INVERSE - 1) / MODULUS);
    TimesUndone(x, MIX_A_INVERSE, MIX_A, (MIX_A * MIX_A_INVERSE - 1) / MODULUS);
    TimesUndone(x, MIX_B, MIX_B_INVERSE, (MIX_B * MIX_B_INVERSE - 1) / MODULUS);
    TimesUndone(x, MIX_B_INVERSE, MIX_B, (MIX_B * MIX_B_INVERSE - 1) / MODULUS);
  }

  lemma ShiftsInvert(x: Uint64, k: nat)
    requires 64 <= 3 * k
    ensures Unshift(Shift(x, k), k) == x && Shift(Unshift(x, k), k) == x
  {
    ShiftIsWord(x, k);
  }

  /** mix64 is a bijection on 64-bit words. */
  lemma MixIsBijective(x: Uint64)
    ensures Unmix64(Mix64(x)) == x && Mix64(Unmix64(x)) == x
  {
    hide Times, Shift, Unshift;
    var a := Shift(x, 30);
    var b := Times(a, MIX_A);
    var c := Shift(b, 27);
    var d := Times(c, MIX_B);
    ShiftsInvert(x, 30);
    MixFactorsInvert(a);
    ShiftsInvert(b, 27);
    MixFactorsInvert(c);
    ShiftsInvert(d, 31);
    assert Unmix64(Mix64(x)) == x;
    var p := Unshift(x, 31);
    var q := Times(p, MIX_B_INVERSE);
    var r := Unshift(q, 27);
    var s := Times(r, MIX_A_INVERSE);
    ShiftsInvert(x, 31);
    MixFactorsInvert(p);
    ShiftsInvert(q, 27);
    MixFactorsInvert(r);
    ShiftsInvert(s, 30);
  }

  // ---- the generator ------------------------------------------------------------------------

  function Advance(state: Uint64): Uint64 {
    (state + INCREMENT) % MODULUS
  }

  /** The state after `n` advances. */
  function Steps(state: Uint64, n: nat): Uint64 {
    if n == 0 then state else Advance(Steps(state, n - 1))
  }

  /** Advances needed to reach a state. */
  function DistanceTo(state: Uint64, target: Uint64): Uint64 {
    (target - state) * INCREMENT_INVERSE % MODULUS
  }

  lemma IncrementInverts()
    ensures INCREMENT * INCREMENT_INVERSE == 1 + (INCREMENT * INCREMENT_INVERSE - 1) / MODULUS * MODULUS
  {
  }

  lemma {:induction false} StepsAdd(state: Uint64, n: nat) returns (k: nat)
    ensures Steps(state, n) == state + n * INCREMENT - k * MODULUS
  {
    if n == 0 {
      k := 0;
    } else {
      k := StepsAdd(state, n - 1);
      if Steps(state, n - 1) + INCREMENT >= MODULUS {
        k := k + 1;
      }
    }
  }

  lemma SameRemainder(a: Uint64, b: Uint64, k: int)
    requires a == b + k * MODULUS
    ensures a == b
  {
  }

  lemma DistanceReaches(state: Uint64, target: Uint64)
    ensures Steps(state, DistanceTo(state, target)) == target
  {
    hide Steps;
    var d, j := DistanceTo(state, target), (INCREMENT * INCREMENT_INVERSE - 1) / MODULUS;
    IncrementInverts();
    var q := (target - state) * INCREMENT_INVERSE / MODULUS;
    assert (target - state) * INCREMENT_INVERSE == q * MODULUS + d;
    var k := StepsAdd(state, d);
    assert d * INCREMENT == (target - state) * INCREMENT_INVERSE * INCREMENT - q * MODULUS * INCREMENT;
    assert (target - state) * INCREMENT_INVERSE * INCREMENT == (target - state) + (target - state) * j * MODULUS;
    SameRemainder(Steps(state, d), target, (target - state) * j - q * INCREMENT - k);
  }

  lemma DistanceIsUnique(state: Uint64, n: Uint64)
    ensures DistanceTo(state, Steps(state, n)) == n
  {
    hide Steps;
    var j := (INCREMENT * INCREMENT_INVERSE - 1) / MODULUS;
    IncrementInverts();
    var k := StepsAdd(state, n);
    var far := (Steps(state, n) - state) * INCREMENT_INVERSE;
    assert far == (n * INCREMENT - k * MODULUS) * INCREMENT_INVERSE;
    assert far == n + (n * j - k * INCREMENT_INVERSE) * MODULUS;
    RemainderOf(n, n * j - k * INCREMENT_INVERSE);
  }

  /**
   Full period: within 2^64 advances every state is reached from every other,
   after exactly one number of advances; and the state itself not before 2^64.
   */
  lemma FullPeriod(state: Uint64, target: Uint64)
    ensures Steps(state, DistanceTo(state, target)) == target
    ensures forall n: nat | n < MODULUS && Steps(state, n) == target :: n == DistanceTo(state, target)
    ensures Steps(state, MODULUS) == state
    ensures forall n: nat | 0 < n < MODULUS :: Steps(state, n) != state
  {
    hide Steps, DistanceTo;
    DistanceReaches(state, target);
    forall n: nat | n < MODULUS && Steps(state, n) == target ensures n == DistanceTo(state, target) {
      DistanceIsUnique(state, n);
    }
    NothingToGo(state);
    forall n: nat | 0 < n < MODULUS ensures Steps(state, n) != state {
      DistanceIsUnique(state, n);
    }
    var k := StepsAdd(state, MODULUS);
    SameRemainder(Steps(state, MODULUS), state, INCREMENT - k);
  }

  lemma NothingToGo(state: Uint64)
    ensures DistanceTo(state, state) == 0
  {
  }

  /** Advances needed to reach the state that mixes to zero. */
  function Distance(state: Uint64): Uint64 {
    DistanceTo(state, Unmix64(0))
  }

  lemma {:induction false} StepsLater(state: Uint64, n: nat)
    ensures Steps(Advance(state), n) == Steps(state, n + 1)
  {
    if n > 0 {
      StepsLater(state, n - 1);
    }
  }

  /** Each advance is one step closer. */
  lemma AdvanceApproaches(state: Uint64)
    requires Distance(state) > 0
    ensures Distance(Advance(state)) == Distance(state) - 1
  {
    hide Unmix64, Steps, DistanceTo, Advance;
    var n := Distance(state) - 1;
    DistanceReaches(state, Unmix64(0));
    StepsLater(state, n);
    DistanceIsUnique(Advance(state), n);
  }

  lemma DistanceZero(state: Uint64)
    requires Distance(state) == 0
    ensures Mix64(state) == 0
  {
    hide Unmix64, Mix64, DistanceTo;
    DistanceReaches(state, Unmix64(0));
    MixIsBijective(0);
  }

  // ---- rejection sampling --------------------------------------------------------------------

  /** The largest multiple of the bound that fits; candidates below it are accepted. */
  function AcceptedBelow(bound: nat): nat
    requires 0 < bound
  {
    MODULUS - MODULUS % bound
  }

  lemma AcceptsMultiples(bound: nat)
    requires 0 < bound <= MODULUS
    ensures 0 < AcceptedBelow(bound) <= MODULUS
    ensures AcceptedBelow(bound) == bound * (AcceptedBelow(bound) / bound)
  {
    var q := MODULUS / bound;
    assert AcceptedBelow(bound) == bound * q;
    MultipleDivides(bound, q);
  }

  lemma MultipleDivides(b: nat, q: nat)
    requires b > 0
    ensures b * q / b == q && b * q % b == 0
  {
    DivAt(b * q, b, q, 0);
  }

  /** The state in which a candidate is accepted, `state` being that of the candidate at hand. */
  function Accepted(state: Uint64, bound: nat): Uint64
    requires 0 < bound <= MODULUS
    decreases Distance(state)
  {
    if Mix64(state) < AcceptedBelow(bound) then state
    else
      AcceptsMultiples(bound);
      assert Distance(state) > 0 by { if Distance(state) == 0 { DistanceZero(state); } }
      AdvanceApproaches(state);
      Accepted(Advance(state), bound)
  }

  function StateAfter(state: Uint64, bound: nat): Uint64
    requires 0 < bound <= MODULUS
  {
    Accepted(Advance(state), bound)
  }

  function IndexAfter(state: Uint64, bound: nat): (index: nat)
    requires 0 < bound <= MODULUS
  {
    Mix64(StateAfter(state, bound)) % bound
  }

  /** The word after `k` advances is the first one below the largest multiple of the bound. */
  predicate FirstBelow(state: Uint64, bound: nat, k: nat)
    requires 0 < bound <= MODULUS
  {
    && k > 0 && Mix64(Steps(state, k)) < 0x1_0000_0000_0000_0000 - 0x1_0000_0000_0000_0000 % bound
    && forall j | 1 <= j < k :: Mix64(Steps(state, j)) >= 0x1_0000_0000_0000_0000 - 0x1_0000_0000_0000_0000 % bound
  }

  lemma {:induction false} AcceptedIsFirst(state: Uint64, bound: nat, from: nat) returns (k: nat)
    requires 0 < bound <= MODULUS && from > 0
    requires forall j | 1 <= j < from :: Mix64(Steps(state, j)) >= AcceptedBelow(bound)
    ensures FirstBelow(state, bound, k) && Accepted(Steps(state, from), bound) == Steps(state, k)
    decreases Distance(Steps(state, from))
  {
    hide Mix64, Advance, Distance;
    var s := Steps(state, from);
    if Mix64(s) < AcceptedBelow(bound) {
      k := from;
    } else {
      AcceptsMultiples(bound);
      if Distance(s) == 0 {
        DistanceZero(s);
      }
      AdvanceApproaches(s);
      k := AcceptedIsFirst(state, bound, from + 1);
    }
  }

  /** The index is the remainder of the first acceptable word. */
  lemma IndexIsFirstAcceptable(state: Uint64, bound: nat) returns (k: nat)
    requires 0 < bound <= MODULUS
    ensures FirstBelow(state, bound, k) && StateAfter(state, bound) == Steps(state, k)
    ensures IndexAfter(state, bound) == Mix64(Steps(state, k)) % bound
  {
    hide Mix64, Advance, Distance;
    assert Steps(state, 1) == Advance(Steps(state, 0)) == Advance(state);
    k := AcceptedIsFirst(state, bound, 1);
  }

  class GeneratorState {
    var value: Uint64

    constructor (value: Uint64)
      ensures this.value == value
    {
      this.value := value;
    }

    method NextUint64() returns (word: Uint64)
      modifies this
      ensures value == Advance(old(value)) && word == Mix64(value)
    {
      value := (value + INCREMENT) % MODULUS;
      word := Mix64(value);
    }

    /** The loop ends from every state. */
    method NextIndex(bound: nat) returns (index: nat)
      requires 0 < bound <= MODULUS
      modifies this
      ensures value == StateAfter(old(value), bound) && index == IndexAfter(old(value), bound)
      ensures index < bound
    {
      hide Mix64, Advance, Distance;
      var acceptedBelow := MODULUS - MODULUS % bound;
      var candidate := NextUint64();
      while candidate >= acceptedBelow
        invariant candidate == Mix64(value)
        invariant Accepted(value, bound) == StateAfter(old(value), bound)
        decreases Distance(value)
      {
        AcceptsMultiples(bound);
        if Distance(value) == 0 {
          DistanceZero(value);
        }
        AdvanceApproaches(value);
        candidate := NextUint64();
      }
      index := candidate % bound;
    }
  }

  // ---- no modulo bias --------------------------------------------------------------------------

  ghost function WordsFor(limit: nat, bound: nat, index: nat): set<nat>
    requires 0 < bound
  {
    set w: nat | w < limit && w % bound == index
  }

  lemma {:induction false} BlocksGiveOneEach(blocks: nat, bound: nat, index: nat)
    requires index < bound
    ensures |WordsFor(bound * blocks, bound, index)| == blocks
  {
    if blocks == 0 {
      assert WordsFor(bound * 0, bound, index) == {};
    } else {
      BlocksGiveOneEach(blocks - 1, bound, index);
      var before, after := WordsFor(bound * (blocks - 1), bound, index), WordsFor(bound * blocks, bound, index);
      var next := bound * (blocks - 1) + index;
      forall w: nat ensures w in after <==> w in before || w == next {
        LastBlock(w, bound, blocks, index);
      }
      assert after == before + {next};
    }
  }

  lemma LastBlock(w: nat, bound: nat, blocks: nat, index: nat)
    requires index < bound && blocks > 0
    ensures w < bound * blocks && w % bound == index <==>
            (w < bound * (blocks - 1) && w % bound == index) || w == bound * (blocks - 1) + index
  {
    var start := bound * (blocks - 1);
    assert bound * blocks == start + bound;
    if start <= w < start + bound {
      DivAt(w, bound, blocks - 1, w - start);
    }
  }

  lemma {:induction false} ImageSize(words: set<nat>)
    requires forall w | w in words :: w < MODULUS
    ensures var states := set w | w in words :: Unmix64(w);
      |states| == |words| && forall s: Uint64 :: s in states <==> Mix64(s) in words
    decreases |words|
  {
    hide Mix64, Unmix64;
    var states := set w | w in words :: Unmix64(w);
    forall s: Uint64 ensures s in states <==> Mix64(s) in words {
      MixIsBijective(s);
      if s in states {
        var w :| w in words && Unmix64(w) == s;
        MixIsBijective(w);
      }
    }
    if words != {} {
      var w :| w in words;
      var rest := words - {w};
      ImageSize(rest);
      var others := set v | v in rest :: Unmix64(v);
      assert states == others + {Unmix64(w)};
      MixIsBijective(w);
    }
  }

  /**
   Every index below the bound is given by the same number of accepted words,
   and so by the same number of generator states.
   */
  lemma SamplingIsUnbiased(bound: nat, index: nat)
    requires index < bound <= MODULUS
    ensures var words := WordsFor(AcceptedBelow(bound), bound, index);
      |words| == AcceptedBelow(bound) / bound
    ensures exists states: set<Uint64> ::
              && |states| == AcceptedBelow(bound) / bound
              && forall s: Uint64 :: s in states <==> Mix64(s) < AcceptedBelow(bound) && Mix64(s) % bound == index
  {
    hide Mix64, Unmix64;
    AcceptsMultiples(bound);
    BlocksGiveOneEach(AcceptedBelow(bound) / bound, bound, index);
    var words := WordsFor(AcceptedBelow(bound), bound, index);
    ImageSize(words);
    var states: set<Uint64> := set w | w in words :: Unmix64(w);
    assert |states| == AcceptedBelow(bound) / bound;
  }

  // ---- streams -----------------------------------------------------------------------------------

  const CASE_OFFSET := 0x243f6a8885a308d3
  const ORDINAL_OFFSET := 0x13198a2e03707344
  const MAX_SAFE_INTEGER := 0x1f_ffff_ffff_ffff

  /** `rotateLeft(value, 32n)`: the halves change places. */
  function RotateHalf(value: Uint64): Uint64 {
    Or(value * Pow2(32), Shr(value, 32)) % MODULUS
  }

  /** Shifting right divides. */
  lemma {:induction false} ShrDivides(a: nat, k: nat) returns (rest: nat)
    ensures a == Shr(a, k) * Pow2(k) + rest && rest < Pow2(k)
  {
    if k == 0 {
      rest := 0;
    } else {
      var less := ShrDivides(a / 2, k - 1);
      rest := 2 * less + a % 2;
      DoubleProduct(Shr(a / 2, k - 1), Pow2(k - 1));
    }
  }

  lemma DoubleProduct(q: nat, p: nat)
    ensures q * (2 * p) == 2 * (q * p)
  {
  }

  lemma RotateSwapsHalves(value: Uint64)
    ensures RotateHalf(value) == value % 0x1_0000_0000 * 0x1_0000_0000 + value / 0x1_0000_0000
  {
    hide Or, Shr, Pow2;
    Pow2Values();
    var rest := ShrDivides(value, 32);
    var high := Shr(value, 32);
    assert high == value / 0x1_0000_0000;
    OrDisjoint(value, high, 32);
    var low := value % 0x1_0000_0000;
    assert value == high * 0x1_0000_0000 + low;
    assert value * 0x1_0000_0000 + high == (low * 0x1_0000_0000 + high) + high * MODULUS;
    RemainderOf(low * 0x1_0000_0000 + high, high);
  }

  lemma RotateIsInjective(v: Uint64, w: Uint64)
    requires RotateHalf(v) == RotateHalf(w)
    ensures v == w
  {
    RotateSwapsHalves(v);
    RotateSwapsHalves(w);
    hide RotateHalf;
    var a, b, c, d := v / 0x1_0000_0000, v % 0x1_0000_0000, w / 0x1_0000_0000, w % 0x1_0000_0000;
    assert v == a * 0x1_0000_0000 + b && w == c * 0x1_0000_0000 + d;
  }

  lemma XorIsWord(a: Uint64, b: Uint64)
    ensures Xor(a, b) < MODULUS
  {
    hide Pow2;
    Pow2Values();
    XorBound(a, b, 64);
  }

  datatype OrdinalError = SeedOutOfRange | OrdinalOutOfRange

  function CasePart(caseOrdinal: nat): Uint64 {
    Mix64(caseOrdinal + CASE_OFFSET)
  }

  function OrdinalPart(ordinal: nat): Uint64 {
    RotateHalf(Mix64(ordinal + ORDINAL_OFFSET))
  }

  function Combine(seed: Uint64, c: Uint64, o: Uint64): Uint64 {
    XorIsWord(seed, c);
    XorIsWord(Xor(seed, c), o);
    Mix64(Xor(Xor(seed, c), o))
  }

  function CreateState(seed: int, caseOrdinal: int, ordinal: int): Result<Uint64, OrdinalError> {
    if !(0 <= seed < MODULUS) then Err(SeedOutOfRange)
    else if !(0 <= caseOrdinal <= MAX_SAFE_INTEGER) || !(0 <= ordinal <= MAX_SAFE_INTEGER) then Err(OrdinalOutOfRange)
    else Ok(Combine(seed, CasePart(caseOrdinal), OrdinalPart(ordinal)))
  }

  lemma MixIsInjective(x: Uint64, y: Uint64)
    requires Mix64(x) == Mix64(y)
    ensures x == y
  {
    hide Mix64, Unmix64;
    MixIsBijective(x);
    MixIsBijective(y);
  }

  lemma XorIsInjective(a: nat, b: nat, c: nat)
    ensures Xor(a, c) == Xor(b, c) ==> a == b
    ensures Xor(c, a) == Xor(c, b) ==> a == b
  {
    hide Xor;
    XorCancel(a, c);
    XorCancel(b, c);
  }

  lemma CombineIsInjective(s: Uint64, t: Uint64, c: Uint64, d: Uint64, o: Uint64, p: Uint64)
    requires Combine(s, c, o) == Combine(t, d, p)
    ensures c == d && o == p ==> s == t
    ensures s == t && o == p ==> c == d
    ensures s == t && c == d ==> o == p
  {
    hide Mix64, Xor;
    XorIsWord(s, c);
    XorIsWord(t, d);
    XorIsWord(Xor(s, c), o);
    XorIsWord(Xor(t, d), p);
    MixIsInjective(Xor(Xor(s, c), o), Xor(Xor(t, d), p));
    XorIsInjective(Xor(s, c), Xor(t, d), o);
    XorIsInjective(s, t, c);
    XorIsInjective(c, d, s);
    XorIsInjective(o, p, Xor(s, c));
  }

  lemma PartsAreInjective(m: int, n: int)
    requires 0 <= m <= MAX_SAFE_INTEGER && 0 <= n <= MAX_SAFE_INTEGER
    ensures CasePart(m) == CasePart(n) ==> m == n
    ensures OrdinalPart(m) == OrdinalPart(n) ==> m == n
  {
    hide Mix64, RotateHalf;
    if CasePart(m) == CasePart(n) {
      MixIsInjective(m + CASE_OFFSET, n + CASE_OFFSET);
    }
    if OrdinalPart(m) == OrdinalPart(n) {
      RotateIsInjective(Mix64(m + ORDINAL_OFFSET), Mix64(n + ORDINAL_OFFSET));
      MixIsInjective(m + ORDINAL_OFFSET, n + ORDINAL_OFFSET);
    }
  }

  /** Two streams that differ in one coordinate start in different states. */
  lemma StreamsAreSeparate(s: int, t: int, c: int, d: int, o: int, p: int)
    requires CreateState(s, c, o).Ok? && CreateState(s, c, o) == CreateState(t, d, p)
    ensures (c == d && o == p ==> s == t) && (s == t && o == p ==> c == d) && (s == t && c == d ==> o == p)
  {
    hide Combine, CasePart, OrdinalPart;
    CombineIsInjective(s, t, CasePart(c), CasePart(d), OrdinalPart(o), OrdinalPart(p));
    PartsAreInjective(c, d);
    PartsAreInjective(o, p);
  }

  /** From state zero the generator steps by the golden ratio of SplitMix64. */
  lemma StepsByGoldenRatio(state: Uint64)
    ensures Advance(state) == if state < 0x1_0000_0000_0000_0000 - 0x9e3779b97f4a7c15 then state + 0x9e3779b97f4a7c15
                              else state + 0x9e3779b97f4a7c15 - 0x1_0000_0000_0000_0000
  {
  }

  /** Undoing the mixing and the rotation shows what the coordinates were offset by. */
  lemma CoordinatesAreOffset(c: nat, o: nat)
    requires c <= MAX_SAFE_INTEGER && o <= MAX_SAFE_INTEGER
    ensures Unmix64(CasePart(c)) == 0x243f6a8885a308d3 + c
    ensures var part := OrdinalPart(o);
      Unmix64(part % 0x1_0000_0000 * 0x1_0000_0000 + part / 0x1_0000_0000) == 0x13198a2e03707344 + o
  {
    hide Mix64, Unmix64, RotateHalf;
    MixIsBijective(c + CASE_OFFSET);
    MixIsBijective(o + ORDINAL_OFFSET);
    var word := Mix64(o + ORDINAL_OFFSET);
    RotateSwapsHalves(word);
    HalvesBack(word);
  }

  lemma HalvesBack(word: Uint64)
    ensures var part := word % 0x1_0000_0000 * 0x1_0000_0000 + word / 0x1_0000_0000;
      part % 0x1_0000_0000 * 0x1_0000_0000 + part / 0x1_0000_0000 == word
  {
    var low, high := word % 0x1_0000_0000, word / 0x1_0000_0000;
    DivAt(low * 0x1_0000_0000 + high, 0x1_0000_0000, low, high);
  }
}
