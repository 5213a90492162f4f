/**
 * Times of day as java.time.LocalTime sees them: a nano-of-day, parsed
 * from text with the pattern "HH:mm" (`UserStateService.TIME_FORMATTER`),
 * and truncated to the minute with `withSecond(0).withNano(0)`.
 */
module LocalTimes {
  import opened Base
  import Text

  const NANOS_PER_SECOND: int := 1_000_000_000
  const NANOS_PER_MINUTE: int := 60 * NANOS_PER_SECOND
  const NANOS_PER_HOUR: int := 60 * NANOS_PER_MINUTE
  const NANOS_PER_DAY: int := 24 * NANOS_PER_HOUR

  /** A LocalTime, as its nano-of-day. */
  type LocalTime = t: int | 0 <= t < NANOS_PER_DAY

  /**
   * The instant a handler runs at, read once per call: the epoch
   * milliseconds `System.currentTimeMillis()` and `LocalDateTime.now()` give,
   * and the time of day `LocalTime.now()` gives.
   */
  datatype Clock = Clock(epochMillis: int, timeOfDay: LocalTime)

  /** `LocalTime.of(hour, minute)`. */
  function OfHourMinute(hour: int, minute: int): (t: LocalTime)
    requires 0 <= hour < 24 && 0 <= minute < 60
    ensures t % NANOS_PER_MINUTE == 0
  {
    hour * NANOS_PER_HOUR + minute * NANOS_PER_MINUTE
  }

  /** `t.isBefore(u)`. */
  predicate IsBefore(t: LocalTime, u: LocalTime)
    ensures IsBefore(t, u) ==> t != u
  {
    t < u
  }

  /** `isBefore` is a strict total order: exactly one of "before", "equal" and "after" holds. */
  lemma IsBeforeTrichotomy(t: LocalTime, u: LocalTime)
    ensures IsBefore(t, u) || t == u || IsBefore(u, t)
    ensures !(IsBefore(t, u) && IsBefore(u, t))
  {
  }

  /** `t.withSecond(0).withNano(0)`: the start of t's minute. */
  function TruncateToMinute(t: LocalTime): (r: LocalTime)
    ensures r % NANOS_PER_MINUTE == 0
    ensures r <= t < r + NANOS_PER_MINUTE
  {
    (t / NANOS_PER_MINUTE) * NANOS_PER_MINUTE
  }

  /** A time that is already a whole minute is its own truncation. */
  lemma TruncateWholeMinute(t: LocalTime)
    requires t % NANOS_PER_MINUTE == 0
    ensures TruncateToMinute(t) == t
  {
  }

  /** Two times share a truncation exactly when neither lies in another minute. */
  lemma TruncateUnique(t: LocalTime, m: LocalTime)
    requires m % NANOS_PER_MINUTE == 0
    ensures TruncateToMinute(t) == m <==> m <= t < m + NANOS_PER_MINUTE
  {
    var r := TruncateToMinute(t);
    var q := m / NANOS_PER_MINUTE;
    assert m == q * NANOS_PER_MINUTE;
    if m <= t < m + NANOS_PER_MINUTE {
      assert t / NANOS_PER_MINUTE == q;
    }
  }

  function TwoDigits(a: char, b: char): (v: nat)
    requires Text.IsAsciiDigit(a) && Text.IsAsciiDigit(b)
    ensures v < 100
  {
    10 * Text.DigitValue(a) + Text.DigitValue(b)
  }

  /**
   * `LocalTime.parse(s, DateTimeFormatter.ofPattern("HH:mm"))`: exactly two
   * ASCII digits, a colon and two ASCII digits; the minute must be 0-59 and
   * the hour 0-23, except that the default SMART resolver accepts "24:00"
   * as midnight. None stands for the DateTimeParseException.
   */
  function ParseTime(s: string): (r: Option<LocalTime>)
    ensures r.Some? ==> |s| == 5 && s[2] == ':'
    ensures r.Some? ==> r.value % NANOS_PER_MINUTE == 0
  {
    if |s| != 5 || s[2] != ':' || !Text.IsAsciiDigit(s[0]) || !Text.IsAsciiDigit(s[1])
       || !Text.IsAsciiDigit(s[3]) || !Text.IsAsciiDigit(s[4]) then None
    else
      var hour := TwoDigits(s[0], s[1]);
      var minute := TwoDigits(s[3], s[4]);
      if minute > 59 then None
      else if hour == 24 && minute == 0 then Some(0)
      else if hour > 23 then None
      else Some(OfHourMinute(hour, minute))
  }

  /** An accepted time text is one five-character word. */
  lemma ParsedTimeIsOneWord(s: string)
    requires ParseTime(s).Some?
    ensures s != [] && Text.NoWhitespace(s)
  {
  }

  /** `t.format(TIME_FORMATTER)`: two-digit hour, colon, two-digit minute. */
  function Format(t: LocalTime): (s: string)
    ensures |s| == 5
  {
    var hour := t / NANOS_PER_HOUR;
    var minute := (t % NANOS_PER_HOUR) / NANOS_PER_MINUTE;
    [Text.DigitChar(hour / 10), Text.DigitChar(hour % 10), ':',
     Text.DigitChar(minute / 10), Text.DigitChar(minute % 10)]
  }

  lemma TwoDigitsOfDigitChars(v: nat)
    requires v < 100
    ensures TwoDigits(Text.DigitChar(v / 10), Text.DigitChar(v % 10)) == v
  {
  }

  /** A whole-minute time splits into its hour and its minute. */
  lemma HourMinuteOf(t: LocalTime)
    requires t % NANOS_PER_MINUTE == 0
    ensures t / NANOS_PER_HOUR < 24 && (t % NANOS_PER_HOUR) / NANOS_PER_MINUTE < 60
    ensures t == (t / NANOS_PER_HOUR) * NANOS_PER_HOUR + ((t % NANOS_PER_HOUR) / NANOS_PER_MINUTE) * NANOS_PER_MINUTE
  {
    var q := t / NANOS_PER_MINUTE;
    assert t == q * NANOS_PER_MINUTE;
    assert t / NANOS_PER_HOUR == q / 60;
    assert t % NANOS_PER_HOUR == (q % 60) * NANOS_PER_MINUTE;
  }

  /** Formatting a whole-minute time and parsing it back gives the same time. */
  lemma ParseFormat(t: LocalTime)
    requires t % NANOS_PER_MINUTE == 0
    ensures ParseTime(Format(t)) == Some(t)
  {
    var hour := t / NANOS_PER_HOUR;
    var minute := (t % NANOS_PER_HOUR) / NANOS_PER_MINUTE;
    HourMinuteOf(t);
    var s := Format(t);
    TwoDigitsOfDigitChars(hour);
    TwoDigitsOfDigitChars(minute);
    assert TwoDigits(s[0], s[1]) == hour;
    assert TwoDigits(s[3], s[4]) == minute;
  }

  /** Every accepted text other than "24:00" is what formatting its time prints. */
  lemma FormatParse(s: string)
    requires ParseTime(s).Some? && s != "24:00"
    ensures Format(ParseTime(s).value) == s
  {
    var hour := TwoDigits(s[0], s[1]);
    var minute := TwoDigits(s[3], s[4]);
    var t := ParseTime(s).value;
    assert hour < 24;
    assert t == hour * NANOS_PER_HOUR + minute * NANOS_PER_MINUTE;
    assert t / NANOS_PER_HOUR == hour;
    assert (t % NANOS_PER_HOUR) / NANOS_PER_MINUTE == minute;
    var f := Format(t);
    assert f[0] == s[0] && f[1] == s[1] && f[2] == s[2] && f[3] == s[3] && f[4] == s[4];
  }
}
