/**
 * JavaScript `Date` as the booking components use it: a time value in
 * milliseconds since 1970-01-01T00:00:00Z, read on the proleptic Gregorian
 * calendar. Local time is taken to be UTC.
 */
module JsDate {
  import opened JsText

  const MsPerSecond := 1000
  const MsPerMinute := 60 * MsPerSecond
  const MsPerHour := 60 * MsPerMinute
  const MsPerDay := 24 * MsPerHour

  /** The calendar day (days since 1970-01-01) that time value `t` falls on. */
  function DayOf(t: int): int {
    t / MsPerDay
  }

  /** Milliseconds since the start of `t`'s day. */
  function TimeInDay(t: int): (r: int)
    ensures 0 <= r < MsPerDay
    ensures DayOf(t) * MsPerDay + r == t
  {
    t % MsPerDay
  }

  /** `d.setHours(0, 0, 0, 0)`: midnight at the start of `t`'s day. */
  function StartOfDay(t: int): (r: int)
    ensures r <= t < r + MsPerDay
    ensures DayOf(r) == DayOf(t)
  {
    DayOf(t) * MsPerDay
  }

  /** A time value lies before the midnight that starts `now`'s day exactly when its day is earlier. */
  lemma BeforeStartOfDay(t: int, now: int)
    ensures t < StartOfDay(now) <==> DayOf(t) < DayOf(now)
  {
    var m := StartOfDay(now);
    var r := TimeInDay(t);
    if DayOf(t) < DayOf(now) {
      assert DayOf(t) * MsPerDay <= (DayOf(now) - 1) * MsPerDay;
    } else {
      assert DayOf(t) * MsPerDay >= DayOf(now) * MsPerDay;
    }
  }

  /** `getDay()`: 0 is Sunday and 6 is Saturday; day 0, 1970-01-01, was a Thursday. */
  function Weekday(day: int): (w: int)
    ensures 0 <= w < 7
  {
    (day + 4) % 7
  }

  /** The weekday repeats every seven days. */
  lemma WeekdayPeriodic(day: int)
    ensures Weekday(day + 7) == Weekday(day)
  {
  }

  predicate IsLeapYear(y: int) {
    y % 4 == 0 && (y % 100 != 0 || y % 400 == 0)
  }

  function YearLength(y: int): int {
    if IsLeapYear(y) then 366 else 365
  }

  /** Days of year `y` before the first of month `m`; month 13 stands for the next new year. */
  function MonthStart(y: int, m: int): (r: int)
    requires 1 <= m <= 13
    ensures m == 1 ==> r == 0
    ensures m == 13 ==> r == YearLength(y)
  {
    [0, 31, 59, 90, 120, 151, 181, 212, 243, 273, 304, 334, 365][m - 1]
      + if m > 2 && IsLeapYear(y) then 1 else 0
  }

  function MonthLength(y: int, m: int): (r: int)
    requires 1 <= m <= 12
    ensures 28 <= r <= 31
    ensures m == 2 ==> (r == 29 <==> IsLeapYear(y))
  {
    MonthStart(y, m + 1) - MonthStart(y, m)
  }

  /** Leap years among 1..y (counted with floor division, so also for y <= 0). */
  function LeapYearsThrough(y: int): int {
    y / 4 - y / 100 + y / 400
  }

  /** The day number of January 1 of year `y`. */
  function YearStart(y: int): int {
    365 * (y - 1970) + LeapYearsThrough(y - 1) - LeapYearsThrough(1969)
  }

  lemma FloorStep(y: int, k: int)
    requires k == 4 || k == 100 || k == 400
    ensures y / k - (y - 1) / k == if y % k == 0 then 1 else 0
  {
  }

  /** Consecutive years follow one another without gap or overlap. */
  lemma YearStartStep(y: int)
    ensures YearStart(y + 1) == YearStart(y) + YearLength(y)
  {
    FloorStep(y, 4);
    FloorStep(y, 100);
    FloorStep(y, 400);
    DivisorChain(y);
    var step := LeapYearsThrough(y) - LeapYearsThrough(y - 1);
    assert step == if IsLeapYear(y) then 1 else 0;
  }

  lemma DivisorChain(y: int)
    ensures y % 400 == 0 ==> y % 100 == 0
    ensures y % 100 == 0 ==> y % 4 == 0
  {
    if y % 400 == 0 {
      var q := y / 400;
      assert y == 100 * (4 * q);
      WholeHundreds(4 * q);
    }
    if y % 100 == 0 {
      var q := y / 100;
      assert y == 4 * (25 * q);
      WholeFours(25 * q);
    }
  }

  lemma WholeHundreds(k: int)
    ensures (100 * k) % 100 == 0
  {
  }

  lemma WholeFours(k: int)
    ensures (4 * k) % 4 == 0
  {
  }

  /** Years start later the later they are. */
  lemma {:induction false} YearStartMonotone(a: int, b: int)
    requires a < b
    ensures YearStart(b) >= YearStart(a) + YearLength(a)
    decreases b - a
  {
    YearStartStep(b - 1);
    if b > a + 1 {
      YearStartMonotone(a, b - 1);
    }
  }

  /** The year containing day `YearStart(y) + d`, and the day's offset within it. */
  function LocateYear(y: int, d: int): (r: (int, int))
    ensures 0 <= r.1 < YearLength(r.0)
    ensures YearStart(r.0) + r.1 == YearStart(y) + d
    decreases if d < 0 then 1 else 0, if d < 0 then -d else d
  {
    if d < 0 then
      YearStartStep(y - 1);
      LocateYear(y - 1, d + YearLength(y - 1))
    else if d < YearLength(y) then (y, d)
    else
      YearStartStep(y);
      LocateYear(y + 1, d - YearLength(y))
  }

  /** The month containing day `d` of year `y` counted from month `m`, and the day's offset in it. */
  function LocateMonth(y: int, m: int, d: int): (r: (int, int))
    requires 1 <= m <= 12 && 0 <= d
    requires MonthStart(y, m) + d < YearLength(y)
    ensures 1 <= r.0 <= 12 && 0 <= r.1 < MonthLength(y, r.0)
    ensures MonthStart(y, r.0) + r.1 == MonthStart(y, m) + d
    decreases 12 - m
  {
    if d < MonthLength(y, m) then (m, d)
    else LocateMonth(y, m + 1, d - MonthLength(y, m))
  }

  datatype Civil = Civil(year: int, month: int, day: int)

  predicate ValidCivil(c: Civil) {
    1 <= c.month <= 12 && 1 <= c.day <= MonthLength(c.year, c.month)
  }

  /** The day number of a calendar date. */
  function DaysFromCivil(c: Civil): int
    requires 1 <= c.month <= 12
  {
    YearStart(c.year) + MonthStart(c.year, c.month) + c.day - 1
  }

  /** The calendar date of a day number: a valid date that names that same day. */
  function CivilFromDays(n: int): (c: Civil)
    ensures ValidCivil(c)
    ensures DaysFromCivil(c) == n
  {
    var (y, offset) := LocateYear(1970, n);
    var (m, d) := LocateMonth(y, 1, offset);
    Civil(y, m, d + 1)
  }

  lemma {:induction false} MonthStartMonotone(y: int, a: int, b: int)
    requires 1 <= a < b <= 13
    ensures MonthStart(y, b) >= MonthStart(y, a) + MonthLength(y, a)
    decreases b - a
  {
    if b > a + 1 {
      MonthStartMonotone(y, a, b - 1);
    }
  }

  /** Every valid calendar date is the date of exactly one day number. */
  lemma CivilRoundTrip(c: Civil)
    requires ValidCivil(c)
    ensures CivilFromDays(DaysFromCivil(c)) == c
  {
    var n := DaysFromCivil(c);
    var c' := CivilFromDays(n);
    var doy := MonthStart(c.year, c.month) + c.day - 1;
    var doy' := MonthStart(c'.year, c'.month) + c'.day - 1;
    MonthStartMonotone(c.year, c.month, 13);
    MonthStartMonotone(c'.year, c'.month, 13);
    if c.year < c'.year {
      YearStartMonotone(c.year, c'.year);
      assert false;
    } else if c'.year < c.year {
      YearStartMonotone(c'.year, c.year);
      assert false;
    }
    if c.month < c'.month {
      MonthStartMonotone(c.year, c.month, c'.month);
      assert false;
    } else if c'.month < c.month {
      MonthStartMonotone(c.year, c'.month, c.month);
      assert false;
    }
  }

  /**
   * Weekday numbers against the calendar: day 0 is 1970-01-01, a Thursday (4);
   * 2024-12-25 was a Wednesday (3) and 2025-09-20 a Saturday (6).
   */
  lemma WeekdayAnchors()
    ensures DaysFromCivil(Civil(1970, 1, 1)) == 0 && Weekday(0) == 4
    ensures Weekday(DaysFromCivil(Civil(2024, 12, 25))) == 3
    ensures Weekday(DaysFromCivil(Civil(2025, 9, 20))) == 6
  {
    assert YearStart(1970) == 0;
    assert YearStart(2024) == 19723;
    assert YearStart(2025) == 20089;
  }

  /** The broken-down UTC fields of a time value. */
  datatype Fields = Fields(date: Civil, hour: int, minute: int, second: int, millisecond: int)

  function FieldsOf(t: int): (f: Fields)
    ensures ValidCivil(f.date)
    ensures 0 <= f.hour < 24 && 0 <= f.minute < 60 && 0 <= f.second < 60 && 0 <= f.millisecond < 1000
    ensures TimeOf(f) == t
  {
    var ms := TimeInDay(t);
    var seconds := ms / MsPerSecond;
    var minutes := seconds / 60;
    Fields(CivilFromDays(DayOf(t)), minutes / 60, minutes % 60, seconds % 60, ms % MsPerSecond)
  }

  /** The time value named by broken-down UTC fields. */
  function TimeOf(f: Fields): int
    requires 1 <= f.date.month <= 12
  {
    DaysFromCivil(f.date) * MsPerDay + f.hour * MsPerHour + f.minute * MsPerMinute
      + f.second * MsPerSecond + f.millisecond
  }

  /** The year as `toISOString` writes it: four digits, or a sign and six digits outside 0..9999. */
  function IsoYear(y: int): string {
    if 0 <= y <= 9999 then ZeroPad(y, 4)
    else (if y < 0 then "-" else "+") + ZeroPad(if y < 0 then -y else y, 6)
  }

  /** `new Date(t).toISOString()`: "YYYY-MM-DDTHH:mm:ss.sssZ". */
  function ToIsoString(t: int): string {
    IsoOfFields(FieldsOf(t))
  }

  /** The ISO 8601 extended layout of broken-down fields. */
  function IsoOfFields(f: Fields): string
    requires ValidCivil(f.date) && 0 <= f.hour && 0 <= f.minute && 0 <= f.second && 0 <= f.millisecond
  {
    IsoYear(f.date.year) + "-" + ZeroPad(f.date.month, 2) + "-" + ZeroPad(f.date.day, 2)
      + "T" + ZeroPad(f.hour, 2) + ":" + ZeroPad(f.minute, 2) + ":" + ZeroPad(f.second, 2)
      + "." + ZeroPad(f.millisecond, 3) + "Z"
  }
}
