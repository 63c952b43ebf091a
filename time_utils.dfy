/**
 * The front end's time helpers (frontend/src/utils/timeUtils.js). Times are
 * whole minutes on the browser's local clock; a JavaScript `Date` is the
 * number of minutes since a local midnight epoch.
 */
module TimeUtils {
  import opened Wrappers
  import opened Text

  const MINUTES_PER_HOUR := 60
  const HOURS_PER_DAY := 24
  const MINUTES_PER_DAY := 24 * 60
  const MILLISECONDS_PER_MINUTE := 60 * 1000
  const MILLISECONDS_PER_HOUR := 60 * 60 * 1000
  const MILLISECONDS_PER_DAY := 24 * 60 * 60 * 1000
  const MIN_BOOKING_DURATION := 30
  const TIME_SLOT_UNIT := 30
  const TOTAL_TIME_CELLS := 48

  /** The day is 1440 minutes, exactly the 48 half-hour cells of the timeline. */
  lemma DayIsAllCells()
    ensures MINUTES_PER_DAY == 1440 == TOTAL_TIME_CELLS * TIME_SLOT_UNIT
    ensures MILLISECONDS_PER_DAY == MINUTES_PER_DAY * MILLISECONDS_PER_MINUTE
    ensures MILLISECONDS_PER_HOUR == MINUTES_PER_HOUR * MILLISECONDS_PER_MINUTE
  {
  }

  /** JavaScript's `a % 60`: the remainder carries the dividend's sign. */
  function MinuteRemainder(a: int): (r: int)
    ensures -60 < r < 60
    ensures (a - r) % 60 == 0
    ensures a >= 0 ==> r >= 0
    ensures a <= 0 ==> r <= 0
  {
    if a >= 0 then a % 60 else -((-a) % 60)
  }

  /** Two decimal digits of `n`. */
  function TwoDigit(n: nat): (s: string)
    requires n < 100
    ensures |s| == 2 && AllDigits(s)
  {
    [DigitChar(n / 10), DigitChar(n % 10)]
  }

  /** `formatHour`: the hour padded to two characters with '0', then ":00". */
  function FormatHour(hour: int): (s: string)
    ensures 0 <= hour < 100 ==> s == TwoDigit(hour) + ":00"
    ensures |s| >= 5 && s[|s| - 3..] == ":00"
  {
    var text := PadStart(IntToString(hour), 2, '0') + ":00";
    if 0 <= hour < 100 then TwoDigits(hour); text else text
  }

  /** The hour and minute of the start of cell `cellIndex`. */
  lemma CellArithmetic(cellIndex: int)
    requires 1 <= cellIndex <= 48
    ensures ((cellIndex - 1) * 30) / 60 == (cellIndex - 1) / 2
    ensures MinuteRemainder((cellIndex - 1) * 30) == if cellIndex % 2 == 1 then 0 else 30
  {
    var k := cellIndex - 1;
    var q, r := k / 2, k % 2;
    assert k * 30 == 60 * q + 30 * r;
  }

  /** `getCellTime`: the "HH:MM" cellLabel of the start of a half-hour cell, counting cells from 1. */
  function GetCellTime(cellIndex: int): (s: string)
    ensures 1 <= cellIndex <= 48 ==>
      s == TwoDigit((cellIndex - 1) / 2) + ":" + (if cellIndex % 2 == 1 then "00" else "30")
  {
    var totalMinutes := (cellIndex - 1) * TIME_SLOT_UNIT;
    var hours := totalMinutes / MINUTES_PER_HOUR;
    var minutes := MinuteRemainder(totalMinutes);
    var text := PadStart(IntToString(hours), 2, '0') + ":" + PadStart(IntToString(minutes), 2, '0');
    if 1 <= cellIndex <= 48 then
      CellArithmetic(cellIndex);
      TwoDigits(hours);
      TwoDigits(minutes);
      text
    else
      text
  }

  /** The first cell is labelled "00:00". */
  lemma FirstCell()
    ensures GetCellTime(1) == "00:00"
  {
    CellArithmetic(1);
    var cellLabel := GetCellTime(1);
    assert |cellLabel| == 5;
    assert cellLabel[0] == '0' && cellLabel[1] == '0' && cellLabel[2] == ':' && cellLabel[3] == '0' && cellLabel[4] == '0';
  }

  /** The last cell is labelled "23:30". */
  lemma LastCell()
    ensures GetCellTime(48) == "23:30"
  {
    CellArithmetic(48);
    var cellLabel := GetCellTime(48);
    assert |cellLabel| == 5;
    assert cellLabel[0] == '2' && cellLabel[1] == '3' && cellLabel[2] == ':' && cellLabel[3] == '3' && cellLabel[4] == '0';
  }

  lemma HourCell(h: nat)
    requires h < 24
    ensures GetCellTime(2 * h + 1) == TwoDigit(h) + ":" + "00"
  {
    var c := 2 * h + 1;
    assert c % 2 == 1;
    assert (c - 1) / 2 == h;
  }

  lemma AppendColonZeros(s: string)
    ensures s + ":" + "00" == s + ":00"
  {
  }

  /** Every odd cell opens an hour and carries that hour's cellLabel. */
  lemma HourCellIsFormatHour(h: nat)
    requires h < 24
    ensures GetCellTime(2 * h + 1) == FormatHour(h)
  {
    HourCell(h);
    AppendColonZeros(TwoDigit(h));
  }

  /**
   * `getTimeDuration`: "" when an endpoint is missing; otherwise the
   * difference in minutes written as hours and minutes.
   */
  function GetTimeDuration(startTime: Option<int>, endTime: Option<int>): (s: string)
    ensures s == "" <==> startTime.None? || endTime.None?
  {
    if startTime.None? || endTime.None? then ""
    else
      var minutes := endTime.value - startTime.value;
      var hours := minutes / MINUTES_PER_HOUR;
      var mins := MinuteRemainder(minutes);
      if hours > 0 && mins > 0 then IntToString(hours) + "小时" + IntToString(mins) + "分钟"
      else if hours > 0 then IntToString(hours) + "小时"
      else IntToString(mins) + "分钟"
  }

  /** A duration of at least an hour that is not whole hours reads "h小时m分钟". */
  lemma DurationHoursAndMinutes(start: int, d: nat)
    requires d / 60 > 0 && d % 60 > 0
    ensures GetTimeDuration(Some(start), Some(start + d)) == NatToString(d / 60) + "小时" + NatToString(d % 60) + "分钟"
  {
    assert start + d - start == d;
    assert MinuteRemainder(d) == d % 60;
  }

  /** A duration of whole hours reads "h小时". */
  lemma DurationWholeHours(start: int, d: nat)
    requires d / 60 > 0 && d % 60 == 0
    ensures GetTimeDuration(Some(start), Some(start + d)) == NatToString(d / 60) + "小时"
  {
    assert start + d - start == d;
    assert MinuteRemainder(d) == d % 60;
  }

  /** A duration under an hour, zero included, reads "m分钟". */
  lemma DurationUnderAnHour(start: int, d: nat)
    requires d < 60
    ensures GetTimeDuration(Some(start), Some(start + d)) == NatToString(d) + "分钟"
  {
    assert start + d - start == d;
    assert MinuteRemainder(d) == d;
  }

  /** Number of leading decimal digits. */
  function LeadingDigits(s: string): (n: nat)
    ensures n <= |s| && AllDigits(s[..n])
    ensures n < |s| ==> !IsDigit(s[n])
  {
    if |s| == 0 || !IsDigit(s[0]) then 0 else 1 + LeadingDigits(s[1..])
  }

  lemma {:induction false} LeadingDigitsOf(d: string, t: string)
    requires AllDigits(d)
    requires |t| > 0 ==> !IsDigit(t[0])
    ensures LeadingDigits(d + t) == |d|
  {
    if |d| > 0 {
      assert (d + t)[1..] == d[1..] + t;
      LeadingDigitsOf(d[1..], t);
    } else {
      assert d + t == t;
    }
  }

  /** A leading decimal number and the text after it. */
  function ReadNumberPrefix(s: string): Option<(nat, string)> {
    var n := LeadingDigits(s);
    if n == 0 then None else Some((ParseNat(s[..n]), s[n..]))
  }

  /** Reads a duration text back into minutes: the inverse of `GetTimeDuration` on durations that are not negative. */
  function ParseDuration(s: string): Option<nat> {
    match ReadNumberPrefix(s)
    case None => None
    case Some((value, rest)) =>
      if rest == "分钟" then Some(value)
      else if rest == "小时" then Some(60 * value)
      else if |rest| > 2 && rest[..2] == "小时" then
        match ReadNumberPrefix(rest[2..])
        case Some((minutes, unit)) => if unit == "分钟" then Some(60 * value + minutes) else None
        case None => None
      else None
  }

  /** A number followed by a unit reads as that number and that unit. */
  lemma ReadNumber(n: nat, unit: string)
    requires |unit| > 0 && !IsDigit(unit[0])
    ensures ReadNumberPrefix(NatToString(n) + unit) == Some((n, unit))
  {
    LeadingDigitsOf(NatToString(n), unit);
    var s := NatToString(n) + unit;
    assert s[..|NatToString(n)|] == NatToString(n);
    assert s[|NatToString(n)|..] == unit;
    ParseNatToString(n);
  }

  lemma ParseMinutesText(m: nat)
    ensures ParseDuration(NatToString(m) + "分钟") == Some(m)
  {
    ReadNumber(m, "分钟");
  }

  lemma ParseHoursText(h: nat)
    ensures ParseDuration(NatToString(h) + "小时") == Some(60 * h)
  {
    ReadNumber(h, "小时");
  }

  /** "h小时m分钟" parses to 60h + m whenever its two numbers read back. */
  lemma ParseHoursMinutes(hs: string, ms: string, h: nat, m: nat)
    requires ReadNumberPrefix(hs + ("小时" + (ms + "分钟"))) == Some((h, "小时" + (ms + "分钟")))
    requires ReadNumberPrefix(ms + "分钟") == Some((m, "分钟"))
    ensures ParseDuration(hs + ("小时" + (ms + "分钟"))) == Some(60 * h + m)
  {
    var rest := "小时" + (ms + "分钟");
    assert rest[..2] == "小时" && rest[2..] == ms + "分钟";
    assert |rest| > 2 by {
      assert |ms + "分钟"| >= 2;
    }
    assert rest != "分钟" && rest != "小时";
  }

  lemma ParseHoursMinutesText(h: nat, m: nat)
    ensures ParseDuration(NatToString(h) + "小时" + NatToString(m) + "分钟") == Some(60 * h + m)
  {
    var hs, ms := NatToString(h), NatToString(m);
    ReadNumber(h, "小时" + (ms + "分钟"));
    ReadNumber(m, "分钟");
    ParseHoursMinutes(hs, ms, h, m);
    ConcatAssoc(hs, "小时", ms, "分钟");
  }

  lemma ConcatAssoc(a: string, b: string, c: string, d: string)
    ensures a + b + c + d == a + (b + (c + d))
  {
  }

  /** The duration text loses nothing for durations that are not negative. */
  lemma DurationRoundTrip(start: int, d: nat)
    ensures ParseDuration(GetTimeDuration(Some(start), Some(start + d))) == Some(d)
  {
    var h, m := d / 60, d % 60;
    assert d == 60 * h + m;
    if h > 0 && m > 0 {
      DurationHoursAndMinutes(start, d);
      ParseHoursMinutesText(h, m);
    } else if h > 0 {
      DurationWholeHours(start, d);
      ParseHoursText(h);
    } else {
      DurationUnderAnHour(start, d);
      ParseMinutesText(d);
    }
  }

  /** Negative durations lose information: ninety and thirty minutes backwards read alike. */
  lemma NegativeDurationsCollide()
    ensures GetTimeDuration(Some(90), Some(0)) == GetTimeDuration(Some(30), Some(0)) == "-30分钟"
  {
    var a := GetTimeDuration(Some(90), Some(0));
    var b := GetTimeDuration(Some(30), Some(0));
    assert MinuteRemainder(-90) == -30 && MinuteRemainder(-30) == -30;
    assert NatToString(30) == "30";
    assert a == "-30" + "分钟";
    assert b == "-30" + "分钟";
  }

  /**
   * `isTimeOverlap`: the first interval starts inside the second, ends inside
   * it, or contains it.
   */
  function IsTimeOverlap(start1: int, end1: int, start2: int, end2: int): (r: bool)
    ensures start1 < end1 && start2 < end2 ==> (r <==> start1 < end2 && end1 > start2)
  {
    (start1 >= start2 && start1 < end2) ||
    (end1 > start2 && end1 <= end2) ||
    (start1 <= start2 && end1 >= end2)
  }

  /** Symmetric on well-formed intervals; touching intervals do not overlap; equal or nested ones do. */
  lemma OverlapCases(start1: int, end1: int, start2: int, end2: int)
    requires start1 < end1 && start2 < end2
    ensures IsTimeOverlap(start1, end1, start2, end2) == IsTimeOverlap(start2, end2, start1, end1)
    ensures end1 == start2 ==> !IsTimeOverlap(start1, end1, start2, end2)
    ensures IsTimeOverlap(start1, end1, start1, end1)
    ensures start2 <= start1 && end1 <= end2 ==> IsTimeOverlap(start1, end1, start2, end2)
    ensures start1 <= start2 && end2 <= end1 ==> IsTimeOverlap(start1, end1, start2, end2)
  {
  }

  /**
   * `getDayStart`, `getDayEnd` and `isSameDay` on minute times: midnight of
   * the day, its last minute, and equality of day numbers.
   */
  function DayStart(t: int): (d: int)
    ensures d <= t < d + MINUTES_PER_DAY && d % MINUTES_PER_DAY == 0
  {
    (t / MINUTES_PER_DAY) * MINUTES_PER_DAY
  }

  function DayEnd(t: int): (d: int)
    ensures DayStart(t) <= t <= d && d == DayStart(t) + MINUTES_PER_DAY - 1
  {
    DayStart(t) + MINUTES_PER_DAY - 1
  }

  predicate SameDay(a: int, b: int) {
    a / MINUTES_PER_DAY == b / MINUTES_PER_DAY
  }

  /** Two times fall on the same day exactly when their day starts agree. */
  lemma SameDayIffSameStart(a: int, b: int)
    ensures SameDay(a, b) <==> DayStart(a) == DayStart(b)
    ensures SameDay(a, b) ==> DayStart(a) <= b <= DayEnd(a)
  {
  }
}
