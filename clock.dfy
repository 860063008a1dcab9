/** Times of day as the work-log forms read and show them: the `H:mm`/`HH:mm`
    patterns of the form schemas, date-fns `parse(s, 'HH:mm', day)` reduced to
    minutes since midnight, and the decimal text that `${n}` prints for the
    duration column. */
module Clock {
  import opened Data

  predicate IsDigit(c: char) { '0' <= c <= '9' }

  predicate AllDigits(s: string) { forall i :: 0 <= i < |s| ==> IsDigit(s[i]) }

  function DigitValue(c: char): (d: nat)
    requires IsDigit(c)
    ensures d < 10
  {
    c as int - '0' as int
  }

  function DigitChar(d: nat): (c: char)
    requires d < 10
    ensures IsDigit(c) && DigitValue(c) == d
  {
    ('0' as int + d) as char
  }

  /** Value of a run of decimal digits. */
  function Decimal(s: string): nat
    requires AllDigits(s)
  {
    if |s| == 0 then 0 else Decimal(s[..|s| - 1]) * 10 + DigitValue(s[|s| - 1])
  }

  /** The text `${n}` gives for a non-negative integer: no sign, no leading zeros. */
  function NatText(n: nat): (s: string)
    ensures 1 <= |s| && AllDigits(s)
    ensures |s| > 1 ==> s[0] != '0'
  {
    if n < 10 then [DigitChar(n)] else NatText(n / 10) + [DigitChar(n % 10)]
  }

  lemma {:induction false} DecimalOfNatText(n: nat)
    ensures Decimal(NatText(n)) == n
  {
    if n >= 10 {
      DecimalOfNatText(n / 10);
      var s := NatText(n);
      assert s[..|s| - 1] == NatText(n / 10);
    }
  }

  // ---------------------------------------------------------------------------
  // The schema patterns

  /** The hour alternative `([0-1]?[0-9]|2[0-3])`. */
  predicate HourPattern(h: string) {
    || (|h| == 1 && IsDigit(h[0]))
    || (|h| == 2 && (h[0] == '0' || h[0] == '1') && IsDigit(h[1]))
    || (|h| == 2 && h[0] == '2' && '0' <= h[1] <= '3')
  }

  /** `^([0-1]?[0-9]|2[0-3]):[T][0-9]$`, where `tens` is the character class T
      allowed for the first digit of the minutes. */
  predicate MatchesTime(s: string, tens: set<char>) {
    && 4 <= |s| <= 5
    && HourPattern(s[..|s| - 3])
    && s[|s| - 3] == ':'
    && s[|s| - 2] in tens
    && IsDigit(s[|s| - 1])
  }

  /** The class `[0-5]`. */
  const MinuteTens: set<char> := {'0', '1', '2', '3', '4', '5'}

  /** The class `[0*5]`: the characters '0', '*' and '5'. */
  const TypoMinuteTens: set<char> := {'0', '*', '5'}

  /** The time of day `h:m` as the user types it: "H:mm" (narrow, hours below
      ten) or "HH:mm" (wide). */
  function ClockText(h: nat, m: nat, wide: bool): string
    requires h < 24 && m < 60 && (wide || h < 10)
  {
    (if wide then [DigitChar(h / 10), DigitChar(h % 10)] else [DigitChar(h)])
    + [':', DigitChar(m / 10), DigitChar(m % 10)]
  }

  // ---------------------------------------------------------------------------
  // date-fns parse with the format 'HH:mm'

  /** Length of the leading digit run, at most two: `HH` and `mm` each read `\d{1,2}`. */
  function DigitRun(s: string): (n: nat)
    ensures n <= 2 && n <= |s| && AllDigits(s[..n])
    ensures n < 2 && n < |s| ==> !IsDigit(s[n])
  {
    if |s| >= 1 && IsDigit(s[0]) then (if |s| >= 2 && IsDigit(s[1]) then 2 else 1) else 0
  }

  /** Minutes since midnight of the date that `parse(s, 'HH:mm', day)` yields,
      or None where it yields an Invalid Date: the hour must be 0..23, the
      minute 0..59, and nothing may follow the minutes. */
  function ParseClock(s: string): (r: Option<nat>)
    ensures r.Some? ==> r.value < 24 * 60
  {
    var hl := DigitRun(s);
    if hl == 0 || hl == |s| || s[hl] != ':' then None
    else
      var rest := s[hl + 1..];
      var ml := DigitRun(rest);
      if ml == 0 || ml != |rest| then None
      else
        assert rest[..ml] == rest;
        var h := Decimal(s[..hl]);
        var m := Decimal(rest);
        if h <= 23 && m <= 59 then Some(h * 60 + m) else None
  }

  lemma DecimalOfOne(s: string)
    requires |s| == 1 && IsDigit(s[0])
    ensures AllDigits(s) && Decimal(s) == DigitValue(s[0])
  {
    assert s[..0] == [];
  }

  lemma DecimalOfTwo(s: string)
    requires |s| == 2 && IsDigit(s[0]) && IsDigit(s[1])
    ensures AllDigits(s) && Decimal(s) == 10 * DigitValue(s[0]) + DigitValue(s[1])
  {
    DecimalOfOne(s[..1]);
  }

  /** One or two digits, ':' and two digits: parsing reads the two numbers
      and keeps them when they are in range. */
  lemma ParseClockOf(s: string, hl: nat)
    requires (hl == 1 || hl == 2) && |s| == hl + 3 && s[hl] == ':'
    requires AllDigits(s[..hl]) && IsDigit(s[hl + 1]) && IsDigit(s[hl + 2])
    ensures AllDigits(s[hl + 1..])
    ensures ParseClock(s) == if Decimal(s[..hl]) <= 23 && Decimal(s[hl + 1..]) <= 59
                             then Some(Decimal(s[..hl]) * 60 + Decimal(s[hl + 1..])) else None
  {
    assert IsDigit(s[0]) && (hl == 2 ==> IsDigit(s[1]));
    assert DigitRun(s) == hl;
    var rest := s[hl + 1..];
    assert rest[0] == s[hl + 1] && rest[1] == s[hl + 2];
    assert DigitRun(rest) == 2;
  }

  lemma DigitCharOfValue(c: char)
    requires IsDigit(c)
    ensures DigitChar(DigitValue(c)) == c
  {
  }

  /** Every rendered time of day matches the `[0-5]` pattern and parses back to itself. */
  lemma ClockTextAccepted(h: nat, m: nat, wide: bool)
    requires h < 24 && m < 60 && (wide || h < 10)
    ensures MatchesTime(ClockText(h, m, wide), MinuteTens)
    ensures ParseClock(ClockText(h, m, wide)) == Some(h * 60 + m)
  {
    var s := ClockText(h, m, wide);
    var hl := if wide then 2 else 1;
    ClockTextFields(h, m, wide);
    if wide {
      DigitsValue(h / 10, h % 10);
    } else {
      DecimalOfOne(s[..hl]);
    }
    DigitsValue(m / 10, m % 10);
    ParseClockOf(s, hl);
  }

  /** The hour digits, the ':' and the minute digits of a rendered time. */
  lemma ClockTextFields(h: nat, m: nat, wide: bool)
    requires h < 24 && m < 60 && (wide || h < 10)
    ensures var s := ClockText(h, m, wide);
      var hl := if wide then 2 else 1;
      && |s| == hl + 3 && s[hl] == ':'
      && s[..hl] == (if wide then [DigitChar(h / 10), DigitChar(h % 10)] else [DigitChar(h)])
      && s[hl + 1..] == [DigitChar(m / 10), DigitChar(m % 10)]
      && HourPattern(s[..hl]) && s[hl + 1] in MinuteTens
  {
  }

  /** Two digit characters read back as their tens and units. */
  lemma DigitsValue(tens: nat, units: nat)
    requires tens < 10 && units < 10
    ensures AllDigits([DigitChar(tens), DigitChar(units)])
    ensures Decimal([DigitChar(tens), DigitChar(units)]) == 10 * tens + units
  {
    DecimalOfTwo([DigitChar(tens), DigitChar(units)]);
  }

  /** The hour field the pattern accepts is a number below 24, written with
      its digits. */
  lemma HourFieldValue(hs: string)
    requires HourPattern(hs)
    ensures AllDigits(hs) && Decimal(hs) < 24
    ensures |hs| == 1 ==> Decimal(hs) < 10 && hs == [DigitChar(Decimal(hs))]
    ensures |hs| == 2 ==> hs == [DigitChar(Decimal(hs) / 10), DigitChar(Decimal(hs) % 10)]
  {
    if |hs| == 1 {
      DecimalOfOne(hs);
      DigitCharOfValue(hs[0]);
    } else {
      TwoDigitField(hs);
    }
  }

  /** Two digits are the value's tens and units. */
  lemma TwoDigitField(s: string)
    requires |s| == 2 && IsDigit(s[0]) && IsDigit(s[1])
    ensures AllDigits(s) && Decimal(s) == 10 * DigitValue(s[0]) + DigitValue(s[1])
    ensures s == [DigitChar(Decimal(s) / 10), DigitChar(Decimal(s) % 10)]
  {
    DecimalOfTwo(s);
    DigitCharOfValue(s[0]);
    DigitCharOfValue(s[1]);
  }

  /** The minute field `[0-5][0-9]` is a number below 60, written with its digits. */
  lemma MinuteFieldValue(ms: string)
    requires |ms| == 2 && ms[0] in MinuteTens && IsDigit(ms[1])
    ensures AllDigits(ms) && Decimal(ms) < 60
    ensures ms == [DigitChar(Decimal(ms) / 10), DigitChar(Decimal(ms) % 10)]
  {
    TwoDigitField(ms);
  }

  /** Conversely, every string the `[0-5]` pattern accepts is a rendered time
      of day, and parsing gives its minutes since midnight. */
  lemma AcceptedTimeIsClockText(s: string)
    requires MatchesTime(s, MinuteTens)
    ensures ParseClock(s).Some?
    ensures var t := ParseClock(s).value;
      (|s| == 5 || t / 60 < 10) && s == ClockText(t / 60, t % 60, |s| == 5)
  {
    var hl := |s| - 3;
    var hs, ms := s[..hl], s[hl + 1..];
    assert s == hs + [':'] + ms;
    assert ms[0] == s[|s| - 2] && ms[1] == s[|s| - 1];
    ClockTextOfFields(hs, ms);
    ParseClockOf(s, hl);
    var h, m := Decimal(hs), Decimal(ms);
    assert ParseClock(s) == Some(h * 60 + m);
    MinutesOfDay(h, m);
  }

  /** An accepted hour field, ':' and an accepted minute field form the
      rendered time of the two numbers. */
  lemma ClockTextOfFields(hs: string, ms: string)
    requires HourPattern(hs) && |ms| == 2 && ms[0] in MinuteTens && IsDigit(ms[1])
    ensures Decimal(hs) < 24 && Decimal(ms) < 60 && (|hs| == 2 || Decimal(hs) < 10)
    ensures hs + [':'] + ms == ClockText(Decimal(hs), Decimal(ms), |hs| == 2)
  {
    HourFieldValue(hs);
    MinuteFieldValue(ms);
  }

  lemma MinutesOfDay(h: nat, m: nat)
    requires m < 60
    ensures (h * 60 + m) / 60 == h && (h * 60 + m) % 60 == m
  {
  }

  /** On rendered times, the `[0*5]` class accepts exactly the minutes whose
      tens digit is 0 or 5. */
  lemma TypoPatternOnClockText(h: nat, m: nat, wide: bool)
    requires h < 24 && m < 60 && (wide || h < 10)
    ensures MatchesTime(ClockText(h, m, wide), TypoMinuteTens) <==> (m < 10 || 50 <= m)
  {
    var s := ClockText(h, m, wide);
    ClockTextAccepted(h, m, wide);
    assert s[|s| - 2] == DigitChar(m / 10);
  }

  /** A string the `[0*5]` pattern accepts that also parses is a well-formed
      time whose minutes are 00-09 or 50-59; one with '*' never parses. */
  lemma TypoPatternParsed(s: string)
    requires MatchesTime(s, TypoMinuteTens) && ParseClock(s).Some?
    ensures MatchesTime(s, MinuteTens)
    ensures ParseClock(s).value % 60 < 10 || 50 <= ParseClock(s).value % 60
  {
    var hl := DigitRun(s);
    assert hl == |s| - 3;
    assert s[|s| - 2] == s[hl + 1..][0];
    assert s[|s| - 2] != '*';
    AcceptedTimeIsClockText(s);
    var t := ParseClock(s).value;
    TypoPatternOnClockText(t / 60, t % 60, |s| == 5);
  }

  // ---------------------------------------------------------------------------
  // Duration text

  /** `${hours}h ${minutes}m`. */
  function DurationText(hours: nat, minutes: nat): string {
    NatText(hours) + "h " + NatText(minutes) + "m"
  }

  /** Length of the leading run of digits. */
  function LeadingDigits(s: string): (n: nat)
    ensures n <= |s|
  {
    if |s| > 0 && IsDigit(s[0]) then 1 + LeadingDigits(s[1..]) else 0
  }

  lemma {:induction false} LeadingDigitsAreDigits(s: string)
    ensures AllDigits(s[..LeadingDigits(s)])
  {
    if |s| > 0 && IsDigit(s[0]) {
      LeadingDigitsAreDigits(s[1..]);
      assert s[..LeadingDigits(s)] == [s[0]] + s[1..][..LeadingDigits(s[1..])];
    }
  }

  lemma {:induction false} LeadingDigitsOf(d: string, rest: string)
    requires AllDigits(d)
    requires |rest| > 0 && !IsDigit(rest[0])
    ensures LeadingDigits(d + rest) == |d|
  {
    if |d| > 0 {
      assert (d + rest)[1..] == d[1..] + rest;
      LeadingDigitsOf(d[1..], rest);
    } else {
      assert d + rest == rest;
    }
  }

  /** Reads "{h}h {m}m" back into its two numbers. */
  function ReadDuration(s: string): Option<(nat, nat)> {
    var i := LeadingDigits(s);
    if i == 0 || |s| < i + 2 || s[i] != 'h' || s[i + 1] != ' ' then None
    else
      var rest := s[i + 2..];
      var j := LeadingDigits(rest);
      if j == 0 || rest[j..] != "m" then None
      else
        LeadingDigitsAreDigits(s);
        LeadingDigitsAreDigits(rest);
        Some((Decimal(s[..i]), Decimal(rest[..j])))
  }

  /** The hours field of a duration text and what follows it. */
  lemma HoursField(a: string, tail: string)
    requires |a| > 0 && AllDigits(a)
    ensures LeadingDigits(a + "h " + tail) == |a|
    ensures (a + "h " + tail)[..|a|] == a
    ensures (a + "h " + tail)[|a|] == 'h' && (a + "h " + tail)[|a| + 1] == ' '
    ensures (a + "h " + tail)[|a| + 2..] == tail
  {
    assert a + "h " + tail == a + ("h " + tail);
    LeadingDigitsOf(a, "h " + tail);
  }

  /** The minutes field of a duration text and its closing unit. */
  lemma MinutesField(b: string)
    requires |b| > 0 && AllDigits(b)
    ensures LeadingDigits(b + "m") == |b|
    ensures (b + "m")[..|b|] == b && (b + "m")[|b|..] == "m"
  {
    LeadingDigitsOf(b, "m");
  }

  /** Any two digit runs joined as "{a}h {b}m" read back as their values. */
  lemma ReadDurationOf(a: string, b: string)
    requires |a| > 0 && AllDigits(a) && |b| > 0 && AllDigits(b)
    ensures ReadDuration(a + "h " + (b + "m")) == Some((Decimal(a), Decimal(b)))
  {
    HoursField(a, b + "m");
    MinutesField(b);
  }

  /** The duration text carries both numbers unambiguously. */
  lemma DurationTextRoundTrip(hours: nat, minutes: nat)
    ensures ReadDuration(DurationText(hours, minutes)) == Some((hours, minutes))
  {
    var a, b := NatText(hours), NatText(minutes);
    DecimalOfNatText(hours);
    DecimalOfNatText(minutes);
    assert DurationText(hours, minutes) == a + "h " + (b + "m");
    ReadDurationOf(a, b);
  }
}
