/**
 * Date and time helpers of the calculator. A moment in time is an integer
 * count of microseconds (the resolution of Python's datetime); a
 * calculation date is the YYYYMMDD text of the tariff dataset.
 */
module DateUtils {
  import opened Wrappers
  import opened Text

  /** A naive datetime, as microseconds since a fixed origin. */
  type Timestamp = int

  const MicrosPerMinute: int := 60_000_000

  /** `int(a / b)`: division that truncates toward zero. */
  function TruncDiv(a: int, b: int): (q: int)
    requires b > 0
    ensures a >= 0 ==> 0 <= q && q * b <= a < q * b + b
    ensures a < 0 ==> q <= 0 && a <= q * b < a + b
  {
    if a >= 0 then DivBounds(a, b); a / b
    else DivBounds(-a, b); -((-a) / b)
  }

  /** The quotient of a natural number by a positive one bounds it from below by less than one divisor. */
  lemma DivBounds(a: int, b: int)
    requires a >= 0 && b > 0
    ensures 0 <= a / b && (a / b) * b <= a < (a / b) * b + b
  {
    var q, r := a / b, a % b;
    assert a == q * b + r && 0 <= r < b;
  }

  /** Whole minutes from `startTime` to `endTime`; 0 unless the interval is proper. */
  function CalculateDurationMinutes(startTime: Timestamp, endTime: Timestamp): (minutes: int)
    ensures startTime >= endTime ==> minutes == 0
    ensures startTime < endTime ==>
      0 <= minutes && minutes * MicrosPerMinute <= endTime - startTime < (minutes + 1) * MicrosPerMinute
    ensures minutes > 0 ==> ValidateTimeRange(startTime, endTime)
  {
    if startTime >= endTime then 0 else TruncDiv(endTime - startTime, MicrosPerMinute)
  }

  /**
   * Whether a YYYYMMDD date lies in an inclusive date range. A date text
   * that is not an integer makes the answer false instead of an error.
   */
  function IsDateInRange(checkDate: string, startDate: string, endDate: string): (r: bool)
    ensures r <==> && ParseInt(checkDate).Some? && ParseInt(startDate).Some? && ParseInt(endDate).Some?
                   && ParseInt(startDate).value <= ParseInt(checkDate).value <= ParseInt(endDate).value
  {
    match (ParseInt(checkDate), ParseInt(startDate), ParseInt(endDate))
    case (Some(c), Some(s), Some(e)) => s <= c <= e
    case _ => false
  }

  /** On dates written as integers the range test is exactly `start <= check <= end`. */
  lemma IsDateInRangeOnIntegers(checkDate: int, startDate: int, endDate: int)
    ensures IsDateInRange(IntToString(checkDate), IntToString(startDate), IntToString(endDate))
        <==> startDate <= checkDate <= endDate
  {
    ParseIntToString(checkDate);
    ParseIntToString(startDate);
    ParseIntToString(endDate);
  }

  /**
   * A duration as Dutch text: "m minuten" under an hour, otherwise whole
   * hours "h uur", followed by " en r minuten" when minutes remain.
   */
  function FormatDurationDisplay(minutes: int): string
  {
    if minutes < 60 then IntToString(minutes) + " minuten"
    else
      var hours := minutes / 60;
      var remainingMinutes := minutes % 60;
      if remainingMinutes == 0 then IntToString(hours) + " uur"
      else IntToString(hours) + " uur en " + IntToString(remainingMinutes) + " minuten"
  }

  /** Splits at the first space: the text before it, and the rest from the space on. */
  function SplitAtSpace(s: string): (p: (string, string))
    ensures p.0 + p.1 == s
  {
    if s == [] || s[0] == ' ' then ([], s)
    else var q := SplitAtSpace(s[1..]); ([s[0]] + q.0, q.1)
  }

  lemma {:induction false} SplitAtSpaceAfterWord(a: string, b: string)
    requires forall i :: 0 <= i < |a| ==> a[i] != ' '
    requires b == [] || b[0] == ' '
    ensures SplitAtSpace(a + b) == (a, b)
  {
    if a != [] {
      assert (a + b)[0] == a[0];
      assert (a + b)[1..] == a[1..] + b;
      SplitAtSpaceAfterWord(a[1..], b);
      assert [a[0]] + a[1..] == a;
    } else {
      assert a + b == b;
    }
  }

  /** Reads a duration text back into minutes: the inverse of FormatDurationDisplay. */
  function ParseDurationDisplay(text: string): Option<int>
  {
    ParseNumberAndUnit(SplitAtSpace(text))
  }

  /** Reads a leading number and the unit text that follows it. */
  function ParseNumberAndUnit(p: (string, string)): Option<int>
  {
    match ParseInt(p.0)
    case None => None
    case Some(n) =>
      if p.1 == " minuten" then Some(n)
      else if p.1 == " uur" then Some(n * 60)
      else if |p.1| >= 8 && p.1[..8] == " uur en " then ParseMinutesAfterHours(n, p.1[8..])
      else None
  }

  /** Reads "r minuten" following "h uur en ". */
  function ParseMinutesAfterHours(hours: int, text: string): Option<int>
  {
    var q := SplitAtSpace(text);
    match ParseInt(q.0)
    case None => None
    case Some(k) => if q.1 == " minuten" then Some(hours * 60 + k) else None
  }

  lemma ReadBackMinutes(m: int)
    ensures ParseDurationDisplay(IntToString(m) + " minuten") == Some(m)
  {
    IntToStringChars(m);
    ParseIntToString(m);
    SplitAtSpaceAfterWord(IntToString(m), " minuten");
  }

  lemma ReadBackHours(h: int)
    ensures ParseDurationDisplay(IntToString(h) + " uur") == Some(h * 60)
  {
    IntToStringChars(h);
    ParseIntToString(h);
    SplitAtSpaceAfterWord(IntToString(h), " uur");
  }

  lemma ReadBackMinutesAfterHours(h: int, r: int)
    ensures ParseMinutesAfterHours(h, IntToString(r) + " minuten") == Some(h * 60 + r)
  {
    IntToStringChars(r);
    SplitAtSpaceAfterWord(IntToString(r), " minuten");
    ParseIntToString(r);
  }

  lemma HoursAndMinutesTail(rs: string)
    ensures var tail := " uur en " + rs + " minuten";
      && tail != " minuten" && tail != " uur"
      && |tail| >= 8 && tail[..8] == " uur en " && tail[8..] == rs + " minuten"
  {
    var tail := " uur en " + rs + " minuten";
    assert |tail| > 8;
    assert tail[..8] == " uur en ";
    assert tail[8..] == rs + " minuten";
  }

  lemma ReadBackHoursAndMinutes(h: int, r: int)
    ensures ParseDurationDisplay(IntToString(h) + " uur en " + IntToString(r) + " minuten") == Some(h * 60 + r)
  {
    var hs, rs := IntToString(h), IntToString(r);
    var tail := " uur en " + rs + " minuten";
    assert hs + " uur en " + rs + " minuten" == hs + tail;
    IntToStringChars(h);
    SplitAtSpaceAfterWord(hs, tail);
    ParseIntToString(h);
    HoursAndMinutesTail(rs);
    ReadBackMinutesAfterHours(h, r);
  }

  /** Every displayed duration reads back as the minutes it was made from. */
  lemma FormatDurationRoundTrip(minutes: int)
    ensures ParseDurationDisplay(FormatDurationDisplay(minutes)) == Some(minutes)
  {
    if minutes < 60 {
      ReadBackMinutes(minutes);
    } else if minutes % 60 == 0 {
      ReadBackHours(minutes / 60);
    } else {
      ReadBackHoursAndMinutes(minutes / 60, minutes % 60);
    }
  }

  /** Different durations never share a display text. */
  lemma FormatDurationInjective(a: int, b: int)
    requires FormatDurationDisplay(a) == FormatDurationDisplay(b)
    ensures a == b
  {
    FormatDurationRoundTrip(a);
    FormatDurationRoundTrip(b);
  }

  /** A time range is valid when it starts strictly before it ends. */
  function ValidateTimeRange(startTime: Timestamp, endTime: Timestamp): (valid: bool)
    ensures valid <==> startTime < endTime
  {
    startTime < endTime
  }
}
