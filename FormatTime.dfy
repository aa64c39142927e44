/**
 * Time-code formatting (src/lib/FormatTime.tsx). A time is a number of
 * seconds, modelled as a `real`; `Math.floor` is `.Floor`, which rounds
 * toward negative infinity for every real, as `Math.floor` does.
 */
module FormatTime {
  import opened Strings

  datatype Option<T> = None | Some(value: T)

  /**
   * `formatText`: the decimal rendering of `num`,
   * left-padded with zeros to `length` characters and never cut short.
   */
  function FormatText(num: int, length: int): (r: string)
    ensures var digits := IntToString(num);
      && |r| == (if length > |digits| then length else |digits|)
      && r[|r| - |digits|..] == digits
      && forall i :: 0 <= i < |r| - |digits| ==> r[i] == '0'
  {
    var digits := IntToString(num);
    if |digits| < length then Zeros(length - |digits|) + digits else digits
  }

  /** Hours, minutes and seconds of a time, as the three formatters compute them. */
  datatype Clock = Clock(hours: int, minutes: int, seconds: int)

  /**
   * The floor-based decomposition shared by the three formatters. Minutes and
   * seconds are always in [0, 60) and the parts add up to `floor(time)`.
   */
  function Decompose(time: real): (c: Clock)
    ensures 0 <= c.minutes < 60 && 0 <= c.seconds < 60
    ensures c.hours * 3600 + c.minutes * 60 + c.seconds == time.Floor
    ensures time >= 0.0 <==> c.hours >= 0
  {
    var hours := (time / 3600.0).Floor;
    assert hours as real * 3600.0 <= time < hours as real * 3600.0 + 3600.0;
    var minutes := ((time - hours as real * 3600.0) / 60.0).Floor;
    var seconds := (time - hours as real * 3600.0 - minutes as real * 60.0).Floor;
    assert (hours * 3600 + minutes * 60 + seconds) as real <= time;
    assert time < (hours * 3600 + minutes * 60 + seconds) as real + 1.0;
    Clock(hours, minutes, seconds)
  }

  /** The millisecond part, `floor((time - whole seconds) * 1000)`. */
  function Milliseconds(time: real): (ms: int)
    ensures 0 <= ms < 1000
    ensures time.Floor as real + ms as real / 1000.0 <= time
    ensures time < time.Floor as real + (ms + 1) as real / 1000.0
  {
    var c := Decompose(time);
    var fraction := time - c.hours as real * 3600.0 - c.minutes as real * 60.0 - c.seconds as real;
    assert fraction == time - time.Floor as real;
    (fraction * 1000.0).Floor
  }

  /** `convertTimeToText`: `H:MM:SS`, hours unpadded. */
  function ConvertTimeToText(time: real): string
  {
    ClockText(Decompose(time))
  }

  /** `convertTimeToShortText`: `H:MM:SS` when there are hours, else `M:SS` with minutes unpadded. */
  function ConvertTimeToShortText(time: real): string
  {
    var c := Decompose(time);
    if 0 < c.hours then ClockText(c)
    else MinutesText(c)
  }

  /** `convertMilliSecondsTimeToText`: `H:MM:SS.mmm`. */
  function ConvertMilliSecondsTimeToText(time: real): string
  {
    var c := Decompose(time);
    ClockText(c) + "." + FormatText(Milliseconds(time), 3)
  }

  // ---------------------------------------------------------------------
  // Reading the texts back

  predicate IsNumeral(s: string)
  {
    |s| >= 1 && AllDigits(s)
  }

  /** Whole seconds denoted by `H:MM:SS` or `M:SS`. */
  function ParseClockText(s: string): Option<int>
  {
    var parts := Split(s, ':');
    if |parts| == 3 && IsNumeral(parts[0]) && IsNumeral(parts[1]) && IsNumeral(parts[2]) then
      Some(ParseNat(parts[0]) * 3600 + ParseNat(parts[1]) * 60 + ParseNat(parts[2]))
    else if |parts| == 2 && IsNumeral(parts[0]) && IsNumeral(parts[1]) then
      Some(ParseNat(parts[0]) * 60 + ParseNat(parts[1]))
    else None
  }

  /** Seconds denoted by `H:MM:SS.mmm`. */
  function ParsePreciseText(s: string): Option<real>
  {
    var parts := Split(s, '.');
    if |parts| == 2 && IsNumeral(parts[1]) then
      match ParseClockText(parts[0])
      case Some(whole) => Some(whole as real + ParseNat(parts[1]) as real / 1000.0)
      case None => None
    else None
  }

  /** A zero-padded non-negative number reads back as itself. */
  lemma PaddedReadsBack(num: nat, length: int)
    ensures IsNumeral(FormatText(num, length))
    ensures ParseNat(FormatText(num, length)) == num
  {
    var digits := IntToString(num);
    assert digits == NatToString(num);
    ParseNatToString(num);
    var r := FormatText(num, length);
    if |digits| < length {
      assert r == Zeros(length - |digits|) + digits;
      ParseNatLeadingZeros(length - |digits|, digits);
    } else {
      assert r == digits;
    }
  }

  /** Minutes and seconds below 60 are padded to exactly two characters. */
  lemma TwoDigitsWide(n: nat)
    requires n < 60
    ensures |FormatText(n, 2)| == 2
  {
    assert Pow10(2) == 100;
    NatToStringWidth(n, 2);
  }

  lemma NumeralHasNoSeparator(s: string)
    requires AllDigits(s)
    ensures ':' !in s && '.' !in s
  {
  }

  /** Three parts joined with colons. */
  lemma ThreeFieldJoin(a: string, b: string, c: string, sep: char)
    ensures Join([a, b, c], sep) == a + [sep] + b + [sep] + c
  {
    assert [a, b, c][1..] == [b, c];
    TwoFieldJoin(b, c, sep);
  }

  lemma TwoFieldJoin(a: string, b: string, sep: char)
    ensures Join([a, b], sep) == a + [sep] + b
  {
    assert [a, b][1..] == [b];
  }

  /** The three colon-separated fields of an `H:MM:SS` text. */
  lemma {:induction false} ClockFieldsSplit(h: string, mm: string, ss: string)
    requires AllDigits(h) && AllDigits(mm) && AllDigits(ss)
    ensures Split(h + ":" + mm + ":" + ss, ':') == [h, mm, ss]
    ensures '.' !in h + ":" + mm + ":" + ss
  {
    NumeralHasNoSeparator(h);
    NumeralHasNoSeparator(mm);
    NumeralHasNoSeparator(ss);
    ThreeFieldJoin(h, mm, ss, ':');
    SplitJoin([h, mm, ss], ':');
  }

  /** The `H:MM:SS` rendering of a clock, as the formatters write it. */
  function ClockText(c: Clock): string
  {
    IntToString(c.hours) + ":" + FormatText(c.minutes, 2) + ":" + FormatText(c.seconds, 2)
  }

  /**
   * An `H:MM:SS` text splits into the unpadded hours and the two-digit
   * minutes and seconds, each field reading back as its part, and the whole
   * reads back as its seconds.
   */
  lemma ClockTextReadsBack(c: Clock)
    requires c.hours >= 0 && 0 <= c.minutes < 60 && 0 <= c.seconds < 60
    ensures var parts := Split(ClockText(c), ':');
      && |parts| == 3 && parts[0] == NatToString(c.hours) && |parts[1]| == 2 && |parts[2]| == 2
      && AllDigits(parts[1]) && AllDigits(parts[2])
      && ParseNat(parts[1]) == c.minutes && ParseNat(parts[2]) == c.seconds
    ensures '.' !in ClockText(c)
    ensures ParseClockText(ClockText(c)) == Some(c.hours * 3600 + c.minutes * 60 + c.seconds)
  {
    ClockTextFields(c);
    ClockTextParses(c);
  }

  lemma ClockTextFields(c: Clock)
    requires c.hours >= 0 && 0 <= c.minutes < 60 && 0 <= c.seconds < 60
    ensures var parts := Split(ClockText(c), ':');
      && |parts| == 3 && parts[0] == NatToString(c.hours) && |parts[1]| == 2 && |parts[2]| == 2
      && AllDigits(parts[1]) && AllDigits(parts[2])
      && ParseNat(parts[1]) == c.minutes && ParseNat(parts[2]) == c.seconds
    ensures '.' !in ClockText(c)
  {
    var h, mm, ss := IntToString(c.hours), FormatText(c.minutes, 2), FormatText(c.seconds, 2);
    ClockFieldsAreNumerals(c);
    assert h == NatToString(c.hours);
    TwoDigitsWide(c.minutes);
    TwoDigitsWide(c.seconds);
    ClockFieldsSplit(h, mm, ss);
  }

  lemma ClockTextParses(c: Clock)
    requires c.hours >= 0 && 0 <= c.minutes < 60 && 0 <= c.seconds < 60
    ensures ParseClockText(ClockText(c)) == Some(c.hours * 3600 + c.minutes * 60 + c.seconds)
  {
    ClockFieldsAreNumerals(c);
    ParseThreeFields(ClockText(c), IntToString(c.hours), FormatText(c.minutes, 2), FormatText(c.seconds, 2), c);
  }

  /** The three fields of a clock's text are numerals denoting its parts. */
  lemma ClockFieldsAreNumerals(c: Clock)
    requires c.hours >= 0 && 0 <= c.minutes < 60 && 0 <= c.seconds < 60
    ensures var h, mm, ss := IntToString(c.hours), FormatText(c.minutes, 2), FormatText(c.seconds, 2);
      && ClockText(c) == h + ":" + mm + ":" + ss
      && IsNumeral(h) && ParseNat(h) == c.hours
      && IsNumeral(mm) && ParseNat(mm) == c.minutes
      && IsNumeral(ss) && ParseNat(ss) == c.seconds
  {
    assert IntToString(c.hours) == NatToString(c.hours);
    ParseNatToString(c.hours);
    PaddedReadsBack(c.minutes, 2);
    PaddedReadsBack(c.seconds, 2);
  }

  /** Three numerals joined by colons read back as hours, minutes and seconds. */
  lemma ParseThreeFields(s: string, h: string, mm: string, ss: string, c: Clock)
    requires s == h + ":" + mm + ":" + ss
    requires IsNumeral(h) && IsNumeral(mm) && IsNumeral(ss)
    requires ParseNat(h) == c.hours && ParseNat(mm) == c.minutes && ParseNat(ss) == c.seconds
    ensures Split(s, ':') == [h, mm, ss]
    ensures '.' !in s
    ensures ParseClockText(s) == Some(c.hours * 3600 + c.minutes * 60 + c.seconds)
  {
    ClockFieldsSplit(h, mm, ss);
  }

  /**
   * `convertTimeToText` of a non-negative time reads back as the whole
   * seconds of that time, with the hours unpadded and minutes and seconds
   * exactly two digits wide, each field reading back as its part.
   */
  lemma {:induction false} TextReadsBack(time: real)
    requires time >= 0.0
    ensures var parts := Split(ConvertTimeToText(time), ':');
      && |parts| == 3 && parts[0] == NatToString(Decompose(time).hours) && |parts[1]| == 2 && |parts[2]| == 2
      && AllDigits(parts[1]) && AllDigits(parts[2])
      && ParseNat(parts[1]) == Decompose(time).minutes && ParseNat(parts[2]) == Decompose(time).seconds
    ensures ParseClockText(ConvertTimeToText(time)) == Some(time.Floor)
  {
    var c := Decompose(time);
    assert ConvertTimeToText(time) == ClockText(c);
    ClockTextReadsBack(c);
  }

  /**
   * `convertTimeToShortText` reads back as the whole seconds too: it is the
   * full `H:MM:SS` text when there are hours, else `M:SS`.
   */
  lemma {:induction false} ShortTextReadsBack(time: real)
    requires time >= 0.0
    ensures Decompose(time).hours > 0 ==> ConvertTimeToShortText(time) == ConvertTimeToText(time)
    ensures Decompose(time).hours == 0 ==>
      var parts := Split(ConvertTimeToShortText(time), ':');
      && |parts| == 2 && parts[0] == NatToString(Decompose(time).minutes) && |parts[1]| == 2
    ensures ParseClockText(ConvertTimeToShortText(time)) == Some(time.Floor)
  {
    var c := Decompose(time);
    if c.hours > 0 {
      TextReadsBack(time);
    } else {
      assert ConvertTimeToShortText(time) == MinutesText(c);
      MinutesTextReadsBack(c);
    }
  }

  /** The `M:SS` rendering of a clock without hours. */
  function MinutesText(c: Clock): string
  {
    IntToString(c.minutes) + ":" + FormatText(c.seconds, 2)
  }

  /**
   * An `M:SS` text splits into the unpadded minutes and two-digit seconds,
   * and reads back as its seconds.
   */
  lemma MinutesTextReadsBack(c: Clock)
    requires c.hours == 0 && 0 <= c.minutes < 60 && 0 <= c.seconds < 60
    ensures var parts := Split(MinutesText(c), ':');
      |parts| == 2 && parts[0] == NatToString(c.minutes) && |parts[1]| == 2
    ensures ParseClockText(MinutesText(c)) == Some(c.hours * 3600 + c.minutes * 60 + c.seconds)
  {
    var m, ss := IntToString(c.minutes), FormatText(c.seconds, 2);
    assert m == NatToString(c.minutes);
    ParseNatToString(c.minutes);
    PaddedReadsBack(c.seconds, 2);
    TwoDigitsWide(c.seconds);
    ParseTwoFields(m, ss, c);
  }

  /** Two numerals joined by a colon read back as minutes and seconds. */
  lemma ParseTwoFields(m: string, ss: string, c: Clock)
    requires IsNumeral(m) && IsNumeral(ss) && c.hours == 0
    requires ParseNat(m) == c.minutes && ParseNat(ss) == c.seconds
    ensures Split(m + ":" + ss, ':') == [m, ss]
    ensures ParseClockText(m + ":" + ss) == Some(c.hours * 3600 + c.minutes * 60 + c.seconds)
  {
    NumeralHasNoSeparator(m);
    NumeralHasNoSeparator(ss);
    TwoFieldJoin(m, ss, ':');
    SplitJoin([m, ss], ':');
  }

  /** An `H:MM:SS.mmm` text reads back as its seconds plus its milliseconds. */
  lemma PreciseFieldsReadBack(c: Clock, ms: nat)
    requires c.hours >= 0 && 0 <= c.minutes < 60 && 0 <= c.seconds < 60 && ms < 1000
    ensures |FormatText(ms, 3)| == 3
    ensures ParsePreciseText(ClockText(c) + "." + FormatText(ms, 3))
         == Some((c.hours * 3600 + c.minutes * 60 + c.seconds) as real + ms as real / 1000.0)
  {
    ClockTextFields(c);
    ClockTextParses(c);
    PaddedReadsBack(ms, 3);
    ThreeDigitsWide(ms);
    ParseTwoParts(ClockText(c), FormatText(ms, 3), c, ms);
  }

  /** Milliseconds are padded to exactly three characters. */
  lemma ThreeDigitsWide(n: nat)
    requires n < 1000
    ensures |FormatText(n, 3)| == 3
  {
    assert Pow10(3) == 1000;
    NatToStringWidth(n, 3);
  }

  /** A dot-free clock text, a dot and a numeral read back as seconds plus thousandths. */
  lemma ParseTwoParts(whole: string, fraction: string, c: Clock, ms: nat)
    requires '.' !in whole && IsNumeral(fraction) && ParseNat(fraction) == ms
    requires ParseClockText(whole) == Some(c.hours * 3600 + c.minutes * 60 + c.seconds)
    ensures ParsePreciseText(whole + "." + fraction)
         == Some((c.hours * 3600 + c.minutes * 60 + c.seconds) as real + ms as real / 1000.0)
  {
    NumeralHasNoSeparator(fraction);
    TwoFieldJoin(whole, fraction, '.');
    SplitJoin([whole, fraction], '.');
    assert Split(whole + "." + fraction, '.') == [whole, fraction];
  }

  /**
   * `convertMilliSecondsTimeToText` is the `H:MM:SS` text, a dot and three
   * millisecond digits, and it reads back as the time truncated to the
   * millisecond: a value `v` with `v <= time < v + 0.001`.
   */
  lemma {:induction false} PreciseTextReadsBack(time: real)
    requires time >= 0.0
    ensures ConvertMilliSecondsTimeToText(time)
         == ConvertTimeToText(time) + "." + FormatText(Milliseconds(time), 3)
    ensures |FormatText(Milliseconds(time), 3)| == 3
    ensures match ParsePreciseText(ConvertMilliSecondsTimeToText(time))
      case Some(v) => v <= time < v + 0.001
      case None => false
  {
    PreciseFieldsReadBack(Decompose(time), Milliseconds(time));
  }

  /** A character a time text may hold: a digit, a minus sign, a colon or a dot. */
  predicate TimeTextChar(ch: char)
  {
    ch == '-' || ch == ':' || ch == '.' || IsDigit(ch)
  }

  predicate AllTimeTextChars(s: string)
  {
    forall k :: 0 <= k < |s| ==> TimeTextChar(s[k])
  }

  lemma AllTimeTextCharsAppend(a: string, b: string)
    requires AllTimeTextChars(a) && AllTimeTextChars(b)
    ensures AllTimeTextChars(a + b)
  {
    forall k | 0 <= k < |a + b| ensures TimeTextChar((a + b)[k]) {
      if k >= |a| { assert (a + b)[k] == b[k - |a|]; }
    }
  }

  /** Every character of a number rendering is a digit or a minus sign. */
  lemma PaddedCharacters(num: int, length: int)
    ensures forall k :: 0 <= k < |FormatText(num, length)| ==>
      FormatText(num, length)[k] == '-' || IsDigit(FormatText(num, length)[k])
    ensures AllTimeTextChars(FormatText(num, length))
  {
    var digits := IntToString(num);
    var r := FormatText(num, length);
    forall k | 0 <= k < |r| ensures r[k] == '-' || IsDigit(r[k]) {
      if k >= |r| - |digits| {
        assert r[k] == digits[k - (|r| - |digits|)];
      }
    }
  }

  /** A clock's text, a dot and a padded number consist of time-text characters only. */
  lemma PreciseFieldsCharacters(c: Clock, ms: int)
    ensures AllTimeTextChars(ClockText(c) + "." + FormatText(ms, 3))
  {
    var h, mm, ss := IntToString(c.hours), FormatText(c.minutes, 2), FormatText(c.seconds, 2);
    PaddedCharacters(c.hours, 0);
    assert FormatText(c.hours, 0) == h;
    PaddedCharacters(c.minutes, 2);
    PaddedCharacters(c.seconds, 2);
    PaddedCharacters(ms, 3);
    assert AllTimeTextChars(":") && AllTimeTextChars(".");
    AllTimeTextCharsAppend(h, ":");
    AllTimeTextCharsAppend(h + ":", mm);
    AllTimeTextCharsAppend(h + ":" + mm, ":");
    AllTimeTextCharsAppend(h + ":" + mm + ":", ss);
    assert ClockText(c) == h + ":" + mm + ":" + ss;
    AllTimeTextCharsAppend(ClockText(c), ".");
    AllTimeTextCharsAppend(ClockText(c) + ".", FormatText(ms, 3));
  }

  /** The precise text consists of digits, `-`, `:` and `.` only: it holds no line break. */
  lemma PreciseTextCharacters(time: real)
    ensures forall k :: 0 <= k < |ConvertMilliSecondsTimeToText(time)| ==>
      var ch := ConvertMilliSecondsTimeToText(time)[k];
      ch == '-' || ch == ':' || ch == '.' || IsDigit(ch)
    ensures '\n' !in ConvertMilliSecondsTimeToText(time)
  {
    var text := ConvertMilliSecondsTimeToText(time);
    assert text == ClockText(Decompose(time)) + "." + FormatText(Milliseconds(time), 3);
    PreciseFieldsCharacters(Decompose(time), Milliseconds(time));
    assert AllTimeTextChars(text);
  }

  /** `convertTimeToText(0)` is `0:00:00`. */
  lemma TextOfZero()
    ensures ConvertTimeToText(0.0) == "0:00:00"
  {
    assert Decompose(0.0) == Clock(0, 0, 0);
  }

  /** `convertMilliSecondsTimeToText(3661.5)` is `1:01:01.500`. */
  lemma PreciseTextExample()
    ensures ConvertMilliSecondsTimeToText(3661.5) == "1:01:01.500"
  {
    assert Decompose(3661.5) == Clock(1, 1, 1);
    assert Milliseconds(3661.5) == 500;
    assert NatToString(500) == "500" by {
      assert NatToString(50) == "50";
    }
  }

  /** Below an hour the short text drops the hours: 65 seconds is `1:05`. */
  lemma ShortTextUnderAnHour()
    ensures ConvertTimeToShortText(65.0) == "1:05"
  {
    assert Decompose(65.0) == Clock(0, 1, 5);
  }

  /** From an hour on the short text is the full text: 3605 seconds is `1:00:05`. */
  lemma ShortTextOverAnHour()
    ensures ConvertTimeToShortText(3605.0) == "1:00:05"
  {
    assert Decompose(3605.0) == Clock(1, 0, 5);
  }
}
