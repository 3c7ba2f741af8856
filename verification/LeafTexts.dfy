/** UUIDs and relative paths, described by their parts. */
module LeafTexts {
  import opened Unicode
  import opened Json
  import opened LeafGrammar
  import opened Encoding

  // ---- UUIDs -----------------------------------------------------------------------------

  /** Characters of `0123456789abcdef`. */
  predicate AllHex(t: Text) {
    forall i | 0 <= i < |t| :: '0' as int <= t[i] <= '9' as int || 'a' as int <= t[i] <= 'f' as int
  }

  predicate UuidParts(t: Text, a: Text, b: Text, c: Text, d: Text, e: Text) {
    && |a| == 8 && |b| == 4 && |c| == 4 && |d| == 4 && |e| == 12
    && AllHex(a) && AllHex(b) && AllHex(c) && AllHex(d) && AllHex(e)
    && t == a + (U("-") + (b + (U("-") + (c + (U("-") + (d + (U("-") + e)))))))
  }

  lemma HexAt(t: Text, from: nat, to: nat)
    requires from <= to <= |t|
    ensures AllHex(t[from..to]) <==> forall i | from <= i < to :: LowerHex(t[i])
  {
    if AllHex(t[from..to]) {
      forall i | from <= i < to ensures LowerHex(t[i]) {
        assert t[i] == t[from..to][i - from];
      }
    }
  }

  lemma UuidCut(t: Text)
    requires |t| == 36 && t[8] == t[13] == t[18] == t[23] == '-' as int
    ensures t == t[0..8] + (U("-") + (t[9..13] + (U("-") + (t[14..18] + (U("-") + (t[19..23] + (U("-") + t[24..36])))))))
  {
    assert U("-") == ['-' as int];
    assert t[23..] == U("-") + t[24..36];
    assert t[18..] == U("-") + (t[19..23] + t[23..]);
    assert t[13..] == U("-") + (t[14..18] + t[18..]);
    assert t[8..] == U("-") + (t[9..13] + t[13..]);
    assert t == t[0..8] + t[8..];
  }

  lemma UuidJoined(t: Text, a: Text, b: Text, c: Text, d: Text, e: Text)
    requires |a| == 8 && |b| == 4 && |c| == 4 && |d| == 4 && |e| == 12
    requires t == a + (U("-") + (b + (U("-") + (c + (U("-") + (d + (U("-") + e)))))))
    ensures |t| == 36 && t[8] == t[13] == t[18] == t[23] == '-' as int
    ensures t[0..8] == a && t[9..13] == b && t[14..18] == c && t[19..23] == d && t[24..36] == e
  {
    assert U("-") == ['-' as int];
    var t23 := U("-") + e;
    var t18 := U("-") + (d + t23);
    var t13 := U("-") + (c + t18);
    var t8 := U("-") + (b + t13);
    assert t[8..] == t8 && t8[5..] == t13 && t13[5..] == t18 && t18[5..] == t23;
    assert t[13..] == t8[5..] && t[18..] == t13[5..] && t[23..] == t18[5..];
    assert t[8] == t8[0] && t[13] == t13[0] && t[18] == t18[0] && t[23] == t23[0];
    assert t[9..13] == t8[1..5] && t[14..18] == t13[1..5] && t[19..23] == t18[1..5] && t[24..36] == t23[1..13];
  }

  /** Five groups of lower-case hex digits, 8-4-4-4-12, joined by `-`. */
  lemma UuidIffGroups(t: Text)
    ensures IsUuid(t) <==> exists a, b, c, d, e :: UuidParts(t, a, b, c, d, e)
  {
    if IsUuid(t) {
      assert t[8] == MINUS && t[13] == MINUS && t[18] == MINUS && t[23] == MINUS;
      UuidCut(t);
      HexAt(t, 0, 8);
      HexAt(t, 9, 13);
      HexAt(t, 14, 18);
      HexAt(t, 19, 23);
      HexAt(t, 24, 36);
      hide IsUuid, AllHex;
      assert UuidParts(t, t[0..8], t[9..13], t[14..18], t[19..23], t[24..36]);
    }
    forall a, b, c, d, e | UuidParts(t, a, b, c, d, e) ensures IsUuid(t) {
      UuidJoined(t, a, b, c, d, e);
      HexAt(t, 0, 8);
      HexAt(t, 9, 13);
      HexAt(t, 14, 18);
      HexAt(t, 19, 23);
      HexAt(t, 24, 36);
    }
  }

  // ---- paths -----------------------------------------------------------------------------

  function Joined(segments: seq<Text>, separator: Unit): Text
    requires segments != []
  {
    if |segments| == 1 then segments[0] else segments[0] + ([separator] + Joined(segments[1..], separator))
  }

  predicate NoneHas(segments: seq<Text>, c: Unit) {
    forall i | 0 <= i < |segments| :: c !in segments[i]
  }

  lemma {:induction false} SplitJoins(t: Text, separator: Unit)
    ensures Joined(Split(t, separator), separator) == t && NoneHas(Split(t, separator), separator)
  {
    if t != [] {
      SplitJoins(t[1..], separator);
      var rest := Split(t[1..], separator);
      assert t == [t[0]] + t[1..];
      if t[0] == separator {
        assert ([[]] + rest)[1..] == rest;
        assert [] + ([separator] + t[1..]) == t;
      } else {
        var all := [[t[0]] + rest[0]] + rest[1..];
        assert all[1..] == rest[1..];
        if |rest| > 1 {
          assert [t[0]] + rest[0] + ([separator] + Joined(rest[1..], separator))
              == [t[0]] + (rest[0] + ([separator] + Joined(rest[1..], separator)));
        }
        forall i | 0 <= i < |all| ensures separator !in all[i] {
          assert i > 0 ==> all[i] == rest[i];
        }
      }
    }
  }

  lemma {:induction false} SplitPlain(segment: Text, separator: Unit)
    requires separator !in segment
    ensures Split(segment, separator) == [segment]
  {
    if segment != [] {
      SplitPlain(segment[1..], separator);
      assert [segment[0]] + segment[1..] == segment;
    }
  }

  lemma {:induction false} SplitFirst(segment: Text, rest: Text, separator: Unit)
    requires separator !in segment
    ensures Split(segment + ([separator] + rest), separator) == [segment] + Split(rest, separator)
  {
    var t := segment + ([separator] + rest);
    if segment == [] {
      assert t == [separator] + rest && t[1..] == rest;
    } else {
      SplitFirst(segment[1..], rest, separator);
      assert t[1..] == segment[1..] + ([separator] + rest);
      assert [segment[0]] + segment[1..] == segment;
      assert ([segment[1..]] + Split(rest, separator))[1..] == Split(rest, separator);
    }
  }

  lemma {:induction false} JoinSplits(segments: seq<Text>, separator: Unit)
    requires segments != [] && NoneHas(segments, separator)
    ensures Split(Joined(segments, separator), separator) == segments
  {
    if |segments| == 1 {
      SplitPlain(segments[0], separator);
      assert segments == [segments[0]];
    } else {
      forall i | 0 <= i < |segments[1..]| ensures separator !in segments[1..][i] {
        assert segments[1..][i] == segments[i + 1];
      }
      JoinSplits(segments[1..], separator);
      SplitFirst(segments[0], Joined(segments[1..], separator), separator);
      assert segments == [segments[0]] + segments[1..];
    }
  }

  /** A name that is not empty, `.` or `..`. */
  predicate IsSegment(segment: Text) {
    segment != [] && segment != U(".") && segment != U("..")
  }

  predicate AllSegments(segments: seq<Text>) {
    forall i | 0 <= i < |segments| :: IsSegment(segments[i])
  }

  /** A letter and a colon at the front. */
  predicate HasDrive(t: Text) {
    |t| > 1 && ('A' as int <= t[0] <= 'Z' as int || 'a' as int <= t[0] <= 'z' as int) && t[1] == ':' as int
  }

  function SeparatorOf(windows: bool): Unit {
    if windows then '\\' as int else '/' as int
  }

  ghost predicate PathOf(t: Text, segments: seq<Text>, windows: bool) {
    && segments != [] && NoneHas(segments, SeparatorOf(windows)) && AllSegments(segments)
    && t == Joined(segments, SeparatorOf(windows))
  }

  /** Segments joined by `/`; or by a backslash, without any `/` and without a drive. */
  lemma RelativePathIffSegments(t: Text, windows: bool)
    ensures IsRelativePath(t, windows) <==>
            (exists segments :: PathOf(t, segments, windows)) && (windows ==> '/' as int !in t && !HasDrive(t))
  {
    var separator := SeparatorOf(windows);
    SplitJoins(t, separator);
    SegmentsAreNames(Split(t, separator));
    if IsRelativePath(t, windows) {
      assert ProperSegments(Split(t, separator));
      assert PathOf(t, Split(t, separator), windows);
    }
    if exists segments :: PathOf(t, segments, windows) {
      var segments :| PathOf(t, segments, windows);
      JoinSplits(segments, separator);
      FirstOfJoined(segments, separator);
    }
  }

  lemma SegmentsAreNames(segments: seq<Text>)
    ensures AllSegments(segments) <==> ProperSegments(segments)
  {
    assert U(".") == [DOT] && U("..") == [DOT, DOT];
  }

  lemma FirstOfJoined(segments: seq<Text>, separator: Unit)
    requires segments != [] && NoneHas(segments, separator) && AllSegments(segments)
    ensures var t := Joined(segments, separator); t != [] && t[0] != separator
  {
    assert IsSegment(segments[0]) && segments[0][0] in segments[0];
    assert Joined(segments, separator)[0] == segments[0][0];
  }

  // ---- dates and times -------------------------------------------------------------------

  function Two(n: nat): Text
    requires n < 100
  {
    ['0' as int + n / 10, '0' as int + n % 10]
  }

  function Four(n: nat): Text
    requires n < 10000
  {
    ['0' as int + n / 1000, '0' as int + n / 100 % 10, '0' as int + n / 10 % 10, '0' as int + n % 10]
  }

  lemma OneDigit(n: nat)
    ensures Padded(n, 1) == [0x30 + n % 10]
  {
    assert Padded(n / 10, 0) == [];
  }

  lemma TwoDigits(n: nat)
    ensures Padded(n, 2) == [0x30 + n / 10 % 10, 0x30 + n % 10]
  {
    OneDigit(n / 10);
  }

  lemma FourDigits(n: nat)
    ensures Padded(n, 4) == [0x30 + n / 10 / 10 / 10 % 10, 0x30 + n / 10 / 10 % 10, 0x30 + n / 10 % 10, 0x30 + n % 10]
  {
    var m := n / 10;
    TwoDigits(m / 10);
    assert Padded(m, 3) == Padded(m / 10, 2) + [0x30 + m % 10];
    assert Padded(n, 4) == Padded(m, 3) + [0x30 + n % 10];
  }

  lemma PaddedIs(n: nat)
    ensures n < 100 ==> Padded(n, 2) == Two(n)
    ensures n < 10000 ==> Padded(n, 4) == Four(n)
  {
    hide Padded;
    TwoDigits(n);
    FourDigits(n);
    assert n / 100 == n / 10 / 10 && n / 1000 == n / 10 / 10 / 10;
  }

  /** A day of the proleptic Gregorian calendar. */
  predicate RealDay(y: nat, m: nat, d: nat) {
    && y <= 9999 && 1 <= m <= 12 && 1 <= d
    && (if m == 2 then if y % 400 == 0 || (y % 4 == 0 && y % 100 != 0) then d <= 29 else d <= 28
        else if m in [4, 6, 9, 11] then d <= 30 else d <= 31)
  }

  lemma RealDayIs(y: nat, m: nat, d: nat)
    ensures RealDay(y, m, d) <==> IsCalendarDay(y, m, d)
  {
    if y % 400 == 0 {
      assert y % 4 == 0;
    }
  }

  predicate DayText(t: Text, y: nat, m: nat, d: nat) {
    RealDay(y, m, d) && t == Four(y) + U("-") + Two(m) + U("-") + Two(d)
  }

  lemma DayTextIs(y: nat, m: nat, d: nat)
    requires y < 10000 && m < 100 && d < 100
    ensures DateText(y, m, d) == Four(y) + U("-") + Two(m) + U("-") + Two(d)
  {
    hide Padded, Four, Two;
    assert U("-") == ['-' as int];
    PaddedIs(y);
    PaddedIs(m);
    PaddedIs(d);
  }

  lemma DaysAreShort(y: nat, m: nat, d: nat)
    requires RealDay(y, m, d)
    ensures y < 10000 && m < 100 && d < 100
  {
  }

  /** Four digits, two digits and two digits, joined by `-`, that name a day. */
  lemma DateIffDigits(t: Text)
    ensures IsDate(t) <==> exists y: nat, m: nat, d: nat :: DayText(t, y, m, d)
  {
    hide IsDate, DateText, RealDay, IsCalendarDay, Four, Two;
    DateIffCalendarDay(t);
    if IsDate(t) {
      var y: nat, m: nat, d: nat :| IsCalendarDay(y, m, d) && t == DateText(y, m, d);
      RealDayIs(y, m, d);
      DaysAreShort(y, m, d);
      DayTextIs(y, m, d);
      assert DayText(t, y, m, d);
    }
    forall y: nat, m: nat, d: nat | DayText(t, y, m, d) ensures IsDate(t) {
      RealDayIs(y, m, d);
      DaysAreShort(y, m, d);
      DayTextIs(y, m, d);
    }
  }

  /** Nothing, or a point and one to six digits. */
  predicate SecondFraction(f: Text) {
    f == [] || (2 <= |f| <= 7 && f[0] == '.' as int && forall i | 1 <= i < |f| :: '0' as int <= f[i] <= '9' as int)
  }

  lemma FractionIs(f: Text)
    ensures IsSecondFraction(f) <==> SecondFraction(f)
  {
    if IsSecondFraction(f) && f != [] {
      forall i | 1 <= i < |f| ensures '0' as int <= f[i] <= '9' as int {
        assert f[i] == f[1..][i - 1];
      }
    }
  }

  predicate ClockText(t: Text, h: nat, m: nat, s: nat, f: Text) {
    h <= 23 && m <= 59 && s <= 59 && SecondFraction(f) && t == Two(h) + U(":") + Two(m) + U(":") + Two(s) + f
  }

  /** Two digits three times, joined by `:`, that name a time of day, and perhaps a fraction of a second. */
  lemma TimeIffDigits(t: Text)
    ensures IsTimeOfDay(t) <==> exists h: nat, m: nat, s: nat, f :: ClockText(t, h, m, s, f)
  {
    hide IsTimeOfDay, Padded, IsSecondFraction, SecondFraction;
    assert U(":") == [':' as int];
    TimeIffClockTime(t);
    if IsTimeOfDay(t) {
      var h: nat, m: nat, s: nat, f :| IsClockTime(h, m, s, f) && t == TimeText(h, m, s, f);
      PaddedIs(h);
      PaddedIs(m);
      PaddedIs(s);
      FractionIs(f);
      assert ClockText(t, h, m, s, f);
    }
    forall h: nat, m: nat, s: nat, f | ClockText(t, h, m, s, f) ensures IsTimeOfDay(t) {
      PaddedIs(h);
      PaddedIs(m);
      PaddedIs(s);
      FractionIs(f);
      assert IsClockTime(h, m, s, f) && t == TimeText(h, m, s, f);
    }
  }

  predicate BothText(t: Text, day: Text, clock: Text) {
    IsDate(day) && IsTimeOfDay(clock) && t == day + U("T") + clock
  }

  /** A date, the letter T and a time; offsets stay under one day. */
  lemma DatetimeIffParts(t: Text, minutes: int)
    ensures IsDatetime(t) <==> exists day, clock :: BothText(t, day, clock)
    ensures IsOffset(minutes) <==> -24 * 60 < minutes < 24 * 60
  {
    hide IsDate, IsTimeOfDay, IsDatetime;
    assert U("T") == [LETTER_T];
    DatetimeIffBoth(t);
    if IsDatetime(t) {
      var d, c :| IsDate(d) && IsTimeOfDay(c) && t == d + ([LETTER_T] + c);
      assert BothText(t, d, c);
    }
    forall day, clock | BothText(t, day, clock) ensures IsDatetime(t) {
      assert t == day + ([LETTER_T] + clock);
    }
  }
}
