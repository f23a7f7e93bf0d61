/** Rendering of whole numbers and durations as display text (formatDuration),
    with a reader for the rendered text that recovers what was shown. */
module Formatting {
  import opened Wrappers

  const SECONDS_PER_HOUR := 3600
  const SECONDS_PER_MINUTE := 60

  predicate IsDigit(c: char) {
    '0' <= c <= '9'
  }

  predicate AllDigits(s: string) {
    forall i :: 0 <= i < |s| ==> IsDigit(s[i])
  }

  function DigitChar(d: nat): (c: char)
    requires d < 10
    ensures IsDigit(c)
  {
    ('0' as int + d) as char
  }

  function DigitValue(c: char): (d: nat)
    requires IsDigit(c)
    ensures d < 10
  {
    c as int - '0' as int
  }

  /** The decimal text of a whole number, as a template literal renders it:
      at least one digit, only digits, and no leading zero except for 0. */
  function NatToString(n: nat): (s: string)
    ensures |s| >= 1 && AllDigits(s)
    ensures s[0] == '0' ==> n == 0
    decreases n
  {
    if n < 10 then [DigitChar(n)] else NatToString(n / 10) + [DigitChar(n % 10)]
  }

  /** The value of a string of decimal digits. */
  function ParseNat(s: string): nat
    requires AllDigits(s)
  {
    if s == [] then 0 else ParseNat(s[..|s| - 1]) * 10 + DigitValue(s[|s| - 1])
  }

  /** Reading the decimal text back gives the number that was rendered. */
  lemma {:induction false} ParseNatToString(n: nat)
    ensures ParseNat(NatToString(n)) == n
  {
    if n >= 10 {
      var s := NatToString(n / 10);
      ParseNatToString(n / 10);
      assert (s + [DigitChar(n % 10)])[..|s|] == s;
    }
  }

  /** The length of the longest run of digits at the front of `s`. */
  function DigitRun(s: string): (k: nat)
    ensures k <= |s| && AllDigits(s[..k])
    ensures k < |s| ==> !IsDigit(s[k])
  {
    if s == [] || !IsDigit(s[0]) then 0 else 1 + DigitRun(s[1..])
  }

  /** Reads a number followed by a one-character unit, returning the number,
      the unit and the text after the unit. */
  function ReadField(s: string): Option<(nat, char, string)> {
    var k := DigitRun(s);
    if k == 0 || k == |s| then None else Some((ParseNat(s[..k]), s[k], s[k + 1..]))
  }

  /** A rendered number followed by a non-digit unit reads back as itself. */
  lemma ReadFieldOf(n: nat, unit: char, rest: string)
    requires !IsDigit(unit)
    ensures ReadField(NatToString(n) + [unit] + rest) == Some((n, unit, rest))
  {
    var d := NatToString(n);
    var s := d + [unit] + rest;
    assert s[..|d|] == d;
    assert s[|d|] == unit;
    assert s[|d| + 1..] == rest;
    assert DigitRun(s) == |d|;
    ParseNatToString(n);
  }

  /** What formatDuration shows: hours and minutes from one hour on,
      minutes and seconds below it. */
  datatype DurationText = HoursMinutes(hours: nat, minutes: nat) | MinutesSeconds(minutes: nat, seconds: nat)

  /** The split of formatDuration: whole hours, the whole minutes left over,
      and the seconds left over, choosing the pair to show by whether there
      is at least one hour. The hours form drops the seconds; the minutes
      form is exact. */
  function DurationParts(seconds: nat): (p: DurationText)
    ensures p.HoursMinutes? <==> seconds >= SECONDS_PER_HOUR
    ensures p.HoursMinutes? ==>
              p.minutes < 60 &&
              p.hours * SECONDS_PER_HOUR + p.minutes * SECONDS_PER_MINUTE <= seconds
                < p.hours * SECONDS_PER_HOUR + p.minutes * SECONDS_PER_MINUTE + SECONDS_PER_MINUTE
    ensures p.MinutesSeconds? ==>
              p.minutes < 60 && p.seconds < 60 && p.minutes * SECONDS_PER_MINUTE + p.seconds == seconds
  {
    var hours := seconds / SECONDS_PER_HOUR;
    var minutes := (seconds % SECONDS_PER_HOUR) / SECONDS_PER_MINUTE;
    var secs := seconds % SECONDS_PER_MINUTE;
    assert seconds == hours * SECONDS_PER_HOUR + minutes * SECONDS_PER_MINUTE + secs;
    if hours > 0 then HoursMinutes(hours, minutes) else MinutesSeconds(minutes, secs)
  }

  /** The text "Hh Mm" or "Mm Ss". */
  function Render(p: DurationText): string {
    match p
    case HoursMinutes(h, m) => NatToString(h) + "h " + NatToString(m) + "m"
    case MinutesSeconds(m, s) => NatToString(m) + "m " + NatToString(s) + "s"
  }

  /** Reads "Hh Mm" or "Mm Ss" back into the numbers it shows. */
  function ParseDuration(text: string): Option<DurationText> {
    match ReadField(text)
    case None => None
    case Some((a, firstUnit, rest)) =>
      if rest == [] || rest[0] != ' ' then None
      else
        match ReadField(rest[1..])
        case None => None
        case Some((b, secondUnit, tail)) =>
          if tail != [] then None
          else if firstUnit == 'h' && secondUnit == 'm' then Some(HoursMinutes(a, b))
          else if firstUnit == 'm' && secondUnit == 's' then Some(MinutesSeconds(a, b))
          else None
  }

  /** formatDuration: the rendered text reads back as exactly the hours and
      minutes (or minutes and seconds) of DurationParts. */
  function FormatDuration(seconds: nat): (text: string)
    ensures ParseDuration(text) == Some(DurationParts(seconds))
  {
    var p := DurationParts(seconds);
    RenderReadsBack(p);
    Render(p)
  }

  lemma RenderReadsBack(p: DurationText)
    ensures ParseDuration(Render(p)) == Some(p)
  {
    match p
    case HoursMinutes(h, m) =>
      var second := NatToString(m) + ['m'] + [];
      assert Render(p) == NatToString(h) + ['h'] + ([' '] + second);
      ReadFieldOf(h, 'h', [' '] + second);
      assert ([' '] + second)[1..] == second;
      ReadFieldOf(m, 'm', []);
    case MinutesSeconds(m, s) =>
      var second := NatToString(s) + ['s'] + [];
      assert Render(p) == NatToString(m) + ['m'] + ([' '] + second);
      ReadFieldOf(m, 'm', [' '] + second);
      assert ([' '] + second)[1..] == second;
      ReadFieldOf(s, 's', []);
  }

  /** Below one hour the text determines the duration: two different
      durations never look the same. */
  lemma FormatDurationInjectiveBelowAnHour(s1: nat, s2: nat)
    requires s1 < SECONDS_PER_HOUR && s2 < SECONDS_PER_HOUR
    requires FormatDuration(s1) == FormatDuration(s2)
    ensures s1 == s2
  {
    assert Some(DurationParts(s1)) == ParseDuration(FormatDuration(s1));
  }

  /** 3725 s shows as "1h 2m" (the 5 s are dropped); 125 s as "2m 5s". */
  lemma FormatDurationExamples()
    ensures FormatDuration(3725) == "1h 2m"
    ensures FormatDuration(125) == "2m 5s"
  {
    assert DurationParts(3725) == HoursMinutes(1, 2);
    assert NatToString(1) == "1" && NatToString(2) == "2";
    assert Render(HoursMinutes(1, 2)) == "1h 2m";
    assert DurationParts(125) == MinutesSeconds(2, 5);
    assert NatToString(5) == "5";
    assert Render(MinutesSeconds(2, 5)) == "2m 5s";
  }
}
