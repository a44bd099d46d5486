/** `parse_duration`: the time-designator form of ISO 8601 durations
    (`PT#H#M#S`, section 4.4.3.2 of ISO 8601:2004) rendered as a clock
    reading. The source matches `PT(?:(\d+)H)?(?:(\d+)M)?(?:(\d+)S)?` with
    `re.match`, which anchors only at the start; every group is optional, so
    every text that begins with `PT` matches and whatever follows the last
    group is ignored. */
module Duration {
  import opened Prelude
  import opened Numerals

  predicate StartsWithPT(d: string) { |d| >= 2 && d[0] == 'P' && d[1] == 'T' }

  /** Length of the longest run of ASCII digits at the start of `s`: what a
      greedy `\d+` takes before it backtracks. */
  function DigitRun(s: string): (n: nat)
    ensures n <= |s|
    ensures forall j :: 0 <= j < n ==> IsDigit(s[j])
    ensures n == |s| || !IsDigit(s[n])
  {
    if s != [] && IsDigit(s[0]) then 1 + DigitRun(s[1..]) else 0
  }

  /** What one optional group `(?:(\d+)U)?` captures at the start of a text,
      and the text the rest of the pattern sees. */
  datatype Capture = Capture(value: Option<nat>, rest: string)

  function MatchGroup(s: string, unit: char): (g: Capture)
    ensures g.value.None? ==> g.rest == s
    ensures g.value.Some? ==> |g.rest| < |s| && g.rest == s[|s| - |g.rest|..]
  {
    var n := DigitRun(s);
    if 0 < n < |s| && s[n] == unit then Capture(Some(DigitsValue(s[..n])), s[n + 1..])
    else Capture(None, s)
  }

  /** The group can match by taking the first `k` characters as its digits. */
  predicate GroupMatches(s: string, unit: char, k: int) {
    1 <= k < |s| && AllDigits(s[..k]) && s[k] == unit
  }

  /** MatchGroup is the regular-expression group: it captures exactly when some
      run of digits followed by the unit letter is there, and then it
      captures that run. Trying shorter runs (backtracking) never helps,
      because a shorter run is followed by a digit, not by the unit. */
  lemma MatchGroupIsRegexGroup(s: string, unit: char)
    requires !IsDigit(unit)
    ensures MatchGroup(s, unit).value.Some? <==> exists k :: GroupMatches(s, unit, k)
    ensures forall k :: GroupMatches(s, unit, k) ==>
      MatchGroup(s, unit) == Capture(Some(DigitsValue(s[..k])), s[k + 1..])
  {
    forall k | GroupMatches(s, unit, k) ensures DigitRun(s) == k {
      assert forall j :: 0 <= j < k ==> s[..k][j] == s[j];
    }
    var n := DigitRun(s);
    if 0 < n < |s| && s[n] == unit {
      assert forall j :: 0 <= j < n ==> s[..n][j] == s[j];
      assert GroupMatches(s, unit, n);
    }
  }

  datatype Hms = Hms(hours: nat, minutes: nat, seconds: nat)

  /** `f"{h}:{m:02d}:{s:02d}"` when there are hours, else `f"{m}:{s:02d}"`;
      minutes are not folded into hours. */
  function Clock(t: Hms): (r: string)
    ensures |r| >= 4 && IsDigit(r[0])
  {
    assert (Decimal(t.hours) + ":")[|Decimal(t.hours)|] == ':';
    assert (Decimal(t.minutes) + ":")[|Decimal(t.minutes)|] == ':';
    if t.hours > 0 then Decimal(t.hours) + ":" + ZeroPad2(t.minutes) + ":" + ZeroPad2(t.seconds)
    else Decimal(t.minutes) + ":" + ZeroPad2(t.seconds)
  }

  /** `parse_duration`: empty text gives empty text, text the pattern does not
      match is passed through unchanged, and a match is rendered by Clock with
      an absent group read as 0. */
  function ParseDuration(d: string): (r: string)
    ensures d == "" ==> r == ""
    ensures !StartsWithPT(d) ==> r == d
    ensures StartsWithPT(d) ==> |r| >= 4 && IsDigit(r[0])
  {
    if d == "" then ""
    else if !StartsWithPT(d) then d
    else
      var h := MatchGroup(d[2..], 'H');
      var m := MatchGroup(h.rest, 'M');
      var s := MatchGroup(m.rest, 'S');
      Clock(Hms(h.value.GetOr(0), m.value.GetOr(0), s.value.GetOr(0)))
  }

  // ---------------------------------------------------------------------
  // The designator text and what parsing makes of it

  function Part(o: Option<nat>, unit: char): string {
    if o.Some? then Decimal(o.value) + [unit] else ""
  }

  /** `PT[<h>H][<m>M][<s>S]` for the components present. */
  function Designator(h: Option<nat>, m: Option<nat>, s: Option<nat>): string {
    "PT" + Part(h, 'H') + Part(m, 'M') + Part(s, 'S')
  }

  lemma GroupHit(n: nat, unit: char, t: string)
    requires !IsDigit(unit)
    ensures MatchGroup(Decimal(n) + [unit] + t, unit) == Capture(Some(n), t)
  {
    var s := Decimal(n) + [unit] + t;
    var k := |Decimal(n)|;
    assert s[..k] == Decimal(n);
    assert s[k + 1..] == t;
    MatchGroupIsRegexGroup(s, unit);
    DecimalRoundTrip(n);
  }

  lemma GroupMiss(n: nat, other: char, unit: char, t: string)
    requires !IsDigit(other) && other != unit
    ensures MatchGroup(Decimal(n) + [other] + t, unit) == Capture(None, Decimal(n) + [other] + t)
  {
    var s := Decimal(n) + [other] + t;
    var k := |Decimal(n)|;
    assert forall j :: 0 <= j < k ==> s[j] == Decimal(n)[j];
    assert s[k] == other;
  }

  lemma GroupNone(t: string, unit: char)
    requires t == [] || !IsDigit(t[0])
    ensures MatchGroup(t, unit) == Capture(None, t)
  {
  }

  /** A group whose part is present captures it; an absent part captures
      nothing, provided the group cannot match the text that follows. */
  lemma PartStep(o: Option<nat>, unit: char, t: string)
    requires !IsDigit(unit)
    requires o.None? ==> MatchGroup(t, unit).value.None?
    ensures MatchGroup(Part(o, unit) + t, unit) == Capture(o, t)
  {
    if o.Some? {
      GroupHit(o.value, unit, t);
    } else {
      assert Part(o, unit) + t == t;
    }
  }

  /** A group cannot match at a part of another unit, nor at an absent part
      followed by text where it cannot match. */
  lemma PartBlocks(o: Option<nat>, u: char, unit: char, t: string)
    requires !IsDigit(u) && u != unit
    requires o.None? ==> MatchGroup(t, unit).value.None?
    ensures MatchGroup(Part(o, u) + t, unit).value.None?
  {
    if o.Some? {
      GroupMiss(o.value, u, unit, t);
    } else {
      assert Part(o, u) + t == t;
    }
  }

  /** With no seconds part, the text after the designator cannot start a
      group of any unit. */
  lemma RestBlocks(s: Option<nat>, rest: string, unit: char)
    requires s.Some? || rest == [] || !IsDigit(rest[0])
    ensures s.None? ==> MatchGroup(rest, unit).value.None?
  {
    if s.None? {
      GroupNone(rest, unit);
    }
  }

  lemma DropPrefix(p: string, a: string, b: string, c: string, r: string)
    ensures (p + a + b + c + r)[|p|..] == a + (b + (c + r))
  {
    assert p + a + b + c + r == p + (a + (b + (c + r)));
  }

  lemma DesignatorTail(h: Option<nat>, m: Option<nat>, s: Option<nat>, rest: string)
    ensures (Designator(h, m, s) + rest)[2..] == Part(h, 'H') + (Part(m, 'M') + (Part(s, 'S') + rest))
  {
    DropPrefix("PT", Part(h, 'H'), Part(m, 'M'), Part(s, 'S'), rest);
  }

  /** The three groups, tried in turn on the text after `PT`, capture the
      designator's components. */
  lemma DesignatorGroups(h: Option<nat>, m: Option<nat>, s: Option<nat>, rest: string)
    requires s.Some? || rest == [] || !IsDigit(rest[0])
    ensures var g := MatchGroup((Designator(h, m, s) + rest)[2..], 'H');
      && g.value == h
      && MatchGroup(g.rest, 'M').value == m
      && MatchGroup(MatchGroup(g.rest, 'M').rest, 'S').value == s
  {
    var tS := Part(s, 'S') + rest;
    var tM := Part(m, 'M') + tS;
    DesignatorTail(h, m, s, rest);
    RestBlocks(s, rest, 'H');
    RestBlocks(s, rest, 'M');
    RestBlocks(s, rest, 'S');
    PartBlocks(s, 'S', 'H', rest);
    PartBlocks(s, 'S', 'M', rest);
    PartBlocks(m, 'M', 'H', tS);
    PartStep(h, 'H', tM);
    PartStep(m, 'M', tS);
    PartStep(s, 'S', rest);
  }

  /** Parsing a designator recovers its components: an absent component reads
      as 0, and whatever follows the seconds group is ignored. When the seconds
      are absent, the text after the designator must not start with a digit
      (or it could supply a seconds group of its own). */
  lemma ParseDesignator(h: Option<nat>, m: Option<nat>, s: Option<nat>, rest: string)
    requires s.Some? || rest == [] || !IsDigit(rest[0])
    ensures ParseDuration(Designator(h, m, s) + rest) == Clock(Hms(h.GetOr(0), m.GetOr(0), s.GetOr(0)))
  {
    var d := Designator(h, m, s) + rest;
    assert d[0] == 'P' && d[1] == 'T';
    DesignatorGroups(h, m, s, rest);
  }

  lemma ClockFieldsWithHours(t: Hms)
    requires t.hours > 0
    ensures SplitOn(Clock(t), ':') == [Decimal(t.hours), ZeroPad2(t.minutes), ZeroPad2(t.seconds)]
  {
    var hh, mm, sec := Decimal(t.hours), ZeroPad2(t.minutes), ZeroPad2(t.seconds);
    SplitOnWhole(sec, ':');
    SplitOnAtSeparator(mm, sec, ':');
    assert Clock(t) == hh + [':'] + (mm + [':'] + sec);
    SplitOnAtSeparator(hh, mm + [':'] + sec, ':');
  }

  lemma ClockFieldsNoHours(t: Hms)
    requires t.hours == 0
    ensures SplitOn(Clock(t), ':') == [Decimal(t.minutes), ZeroPad2(t.seconds)]
  {
    var mm, sec := Decimal(t.minutes), ZeroPad2(t.seconds);
    SplitOnWhole(sec, ':');
    SplitOnAtSeparator(mm, sec, ':');
  }

  /** Reading the clock text back: splitting at ':' gives two fields (three
      when there are hours) of decimal digits holding the components, and the
      fields after the first have at least two digits. */
  lemma ClockFields(t: Hms)
    ensures var f := SplitOn(Clock(t), ':');
      && |f| == (if t.hours > 0 then 3 else 2)
      && (forall i :: 0 <= i < |f| ==> AllDigits(f[i]) && f[i] != [])
      && DigitsValue(f[|f| - 1]) == t.seconds && |f[|f| - 1]| >= 2
      && DigitsValue(f[|f| - 2]) == t.minutes
      && (t.hours > 0 ==> DigitsValue(f[0]) == t.hours && |f[1]| >= 2)
  {
    ZeroPad2Value(t.seconds);
    if t.hours > 0 {
      ClockFieldsWithHours(t);
      DecimalRoundTrip(t.hours);
      ZeroPad2Value(t.minutes);
    } else {
      ClockFieldsNoHours(t);
      DecimalRoundTrip(t.minutes);
    }
  }

  // ---------------------------------------------------------------------
  // Worked examples: what the groups capture, then how Clock renders it

  lemma ParsesMinutesSeconds()
    ensures ParseDuration("PT4M13S") == Clock(Hms(0, 4, 13))
  {
    assert Designator(None, Some(4), Some(13)) + "" == "PT4M13S" by {
      assert Decimal(4) == "4" && Decimal(13) == "13";
    }
    ParseDesignator(None, Some(4), Some(13), "");
  }

  lemma ParsesHoursMinutesSeconds()
    ensures ParseDuration("PT1H2M3S") == Clock(Hms(1, 2, 3))
  {
    assert Designator(Some(1), Some(2), Some(3)) + "" == "PT1H2M3S" by {
      assert Decimal(1) == "1" && Decimal(2) == "2" && Decimal(3) == "3";
    }
    ParseDesignator(Some(1), Some(2), Some(3), "");
  }

  lemma ParsesSecondsOnly()
    ensures ParseDuration("PT45S") == Clock(Hms(0, 0, 45))
  {
    assert Designator(None, None, Some(45)) + "" == "PT45S" by {
      assert Decimal(45) == "45";
    }
    ParseDesignator(None, None, Some(45), "");
  }

  /** Minutes above 59 are kept as they are. */
  lemma ParsesLargeMinutes()
    ensures ParseDuration("PT90M") == Clock(Hms(0, 90, 0))
  {
    assert Designator(None, Some(90), None) + "" == "PT90M" by {
      assert Decimal(90) == "90";
    }
    ParseDesignator(None, Some(90), None, "");
  }

  /** A group out of order is not seen: the match ends after `3S`. */
  lemma ParsesUpToTrailingText()
    ensures ParseDuration("PT3S4M") == Clock(Hms(0, 0, 3))
  {
    assert Designator(None, None, Some(3)) + "4M" == "PT3S4M" by {
      assert Decimal(3) == "3";
    }
    ParseDesignator(None, None, Some(3), "4M");
  }

  lemma DocumentedClockTexts()
    ensures Clock(Hms(0, 4, 13)) == "4:13"
    ensures Clock(Hms(1, 2, 3)) == "1:02:03"
    ensures Clock(Hms(0, 0, 45)) == "0:45"
  {
    assert Decimal(0) == "0" && Decimal(1) == "1" && Decimal(4) == "4";
    assert ZeroPad2(2) == "02" && ZeroPad2(3) == "03";
    assert ZeroPad2(13) == "13" && ZeroPad2(45) == "45";
  }

  lemma LenientClockTexts()
    ensures Clock(Hms(0, 0, 0)) == "0:00"
    ensures Clock(Hms(0, 90, 0)) == "90:00"
    ensures Clock(Hms(0, 0, 3)) == "0:03"
  {
    assert Decimal(0) == "0" && Decimal(90) == "90";
    assert ZeroPad2(0) == "00" && ZeroPad2(3) == "03";
  }

  /** The documented conversions: the doc comment's `PT4M13S`, the hours form
      and a seconds-only duration. */
  lemma DocumentedExamples()
    ensures ParseDuration("PT4M13S") == "4:13"
    ensures ParseDuration("PT1H2M3S") == "1:02:03"
    ensures ParseDuration("PT45S") == "0:45"
  {
    DocumentedClockTexts();
    ParsesMinutesSeconds();
    ParsesHoursMinutesSeconds();
    ParsesSecondsOnly();
  }

  /** Consequences of the lenient pattern: a bare `PT`, unnormalised minutes,
      ignored trailing text. */
  lemma LenientExamples()
    ensures ParseDuration("PT") == "0:00"
    ensures ParseDuration("PT90M") == "90:00"
    ensures ParseDuration("PT3S4M") == "0:03"
  {
    LenientClockTexts();
    ParsesLargeMinutes();
    ParsesUpToTrailingText();
  }
}
