/** The texts of floats and decimals, character by character (src/judging/codec/leaf-grammar.ts:71-122). */
module NumberTexts {
  import opened Unicode
  import opened Json
  import J = JsonLiterals
  import N = Numerals
  import G = LeafGrammar

  /** Nothing but `0` to `9`. */
  predicate OnlyDigits(t: Text) {
    forall i | 0 <= i < |t| :: '0' as int <= t[i] <= '9' as int
  }

  lemma OnlyDigitsIs(t: Text)
    ensures OnlyDigits(t) <==> AllDigits(t)
    ensures J.Digits(t) <==> t != [] && OnlyDigits(t)
  {
  }

  /** No leading zero, no trailing zero in the fraction, a signed exponent without leading zero, and zero as `0`. */
  predicate FloatNumeral(t: Text, s: Text, i: Text, f: Text, e: Text) {
    && t == s + i + f + e
    && (s == [] || s == U("-"))
    && i != [] && OnlyDigits(i) && (i[0] == '0' as int ==> |i| == 1)
    && (f == [] || (|f| > 1 && f[0] == '.' as int && OnlyDigits(f[1..]) && f[|f| - 1] != '0' as int))
    && (e == [] || (|e| > 2 && e[0] == 'e' as int && (e[1] == '+' as int || e[1] == '-' as int)
                    && OnlyDigits(e[2..]) && e[2] != '0' as int))
    && (i == U("0") && f == [] ==> t == U("0"))
  }

  lemma FloatNumeralIs(t: Text, s: Text, i: Text, f: Text, e: Text)
    ensures FloatNumeral(t, s, i, f, e) <==> N.FloatParts(t, s, i, f, e) && N.FloatRules(t, i, f, false)
  {
    assert U("-") == [MINUS] && U("0") == [N.ZERO];
    OnlyDigitsIs(i);
    if f != [] {
      OnlyDigitsIs(f[1..]);
    }
    if |e| > 2 {
      OnlyDigitsIs(e[2..]);
    }
    hide OnlyDigits, AllDigits;
  }

  lemma RulesSplit(t: Text, i: Text, f: Text, negativeZero: bool)
    ensures N.FloatRules(t, i, f, negativeZero) <==> N.FloatRules(t, i, f, false) && (negativeZero ==> t == U("0"))
  {
    assert U("0") == [N.ZERO];
  }

  /** A float text is accepted exactly when it is such a numeral; the flag of negative zero goes with `0` only. */
  lemma FloatIffNumeral(t: Text, negativeZero: bool)
    ensures N.IsCanonicalFloat(t, negativeZero) <==>
            (exists s, i, f, e :: FloatNumeral(t, s, i, f, e)) && (negativeZero ==> t == U("0"))
  {
    hide N.IsCanonicalFloat, N.FloatParts, N.FloatRules, FloatNumeral, U;
    N.CanonicalFloatIffParts(t, negativeZero);
    if N.IsCanonicalFloat(t, negativeZero) {
      var s, i, f, e :| N.FloatParts(t, s, i, f, e) && N.FloatRules(t, i, f, negativeZero);
      RulesSplit(t, i, f, negativeZero);
      FloatNumeralIs(t, s, i, f, e);
    }
    forall s, i, f, e | FloatNumeral(t, s, i, f, e) && (negativeZero ==> t == U("0"))
      ensures N.IsCanonicalFloat(t, negativeZero)
    {
      FloatNumeralIs(t, s, i, f, e);
      RulesSplit(t, i, f, negativeZero);
    }
  }

  /** A sign, digits, a point, digits and an exponent: only a digit before the exponent is required. */
  ghost predicate DecimalNumeral(t: Text, s: Text, whole: Text, point: Text, fraction: Text, e: Text) {
    && t == s + (whole + (point + (fraction + e)))
    && (s == [] || s == U("+") || s == U("-"))
    && OnlyDigits(whole) && OnlyDigits(fraction)
    && (point == U(".") || (point == [] && fraction == []))
    && (whole != [] || fraction != [])
    && (e == [] || exists m, d :: J.IsExponentPart(e, m, d))
  }

  lemma DecimalNumeralIs(t: Text, s: Text, whole: Text, point: Text, fraction: Text, e: Text)
    ensures DecimalNumeral(t, s, whole, point, fraction, e) <==> G.DecimalParts(t, s, whole, point, fraction, e)
  {
    assert U("+") == [0x2b] && U("-") == [0x2d] && U(".") == [DOT];
    J.ExponentIffMarked(e);
    OnlyDigitsIs(whole);
    OnlyDigitsIs(fraction);
    hide OnlyDigits, AllDigits, IsExponent;
    assert |s| == 1 ==> s == [s[0]];
  }

  lemma DecimalIffNumeral(t: Text)
    ensures G.IsDecimalLiteral(t) <==> exists s, whole, point, fraction, e :: DecimalNumeral(t, s, whole, point, fraction, e)
  {
    hide G.IsDecimalLiteral, G.DecimalParts, DecimalNumeral;
    G.DecimalLiteralIffParts(t);
    if G.IsDecimalLiteral(t) {
      var s, whole, point, fraction, e :| G.DecimalParts(t, s, whole, point, fraction, e);
      DecimalNumeralIs(t, s, whole, point, fraction, e);
    }
    forall s, whole, point, fraction, e | DecimalNumeral(t, s, whole, point, fraction, e) ensures G.IsDecimalLiteral(t) {
      DecimalNumeralIs(t, s, whole, point, fraction, e);
    }
  }
}
