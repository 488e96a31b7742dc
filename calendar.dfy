/** Naive wall-clock calendar: the proleptic Gregorian calendar that PHP's
    cal_days_in_month, mktime and getdate share, without timezones. */
module Calendar {

  type MonthNumber = m: int | 1 <= m <= 12 witness 1

  /** A date-time at minute granularity. */
  datatype Stamp = Stamp(year: int, month: MonthNumber, day: int, hour: int, minute: int)

  /** Chronological order on stamps: lexicographic on (year, month, day, hour, minute). */
  predicate Before(a: Stamp, b: Stamp) {
    || a.year < b.year
    || (a.year == b.year && a.month < b.month)
    || (a.year == b.year && a.month == b.month && a.day < b.day)
    || (a.year == b.year && a.month == b.month && a.day == b.day && a.hour < b.hour)
    || (a.year == b.year && a.month == b.month && a.day == b.day && a.hour == b.hour && a.minute < b.minute)
  }

  lemma BeforeIsStrictOrder(a: Stamp, b: Stamp, c: Stamp)
    ensures !Before(a, a)
    ensures Before(a, b) ==> !Before(b, a)
    ensures Before(a, b) && Before(b, c) ==> Before(a, c)
    ensures a == b || Before(a, b) || Before(b, a)
  {
  }

  predicate IsLeapYear(y: int) {
    y % 4 == 0 && (y % 100 != 0 || y % 400 == 0)
  }

  /** cal_days_in_month(CAL_GREGORIAN, m, y). */
  function DaysInMonth(m: MonthNumber, y: int): (n: int)
    ensures 28 <= n <= 31
    ensures n == 29 <==> m == 2 && IsLeapYear(y)
    ensures n == 28 <==> m == 2 && !IsLeapYear(y)
    ensures n == 30 <==> m == 4 || m == 6 || m == 9 || m == 11
  {
    if m == 2 then (if IsLeapYear(y) then 29 else 28)
    else if m == 4 || m == 6 || m == 9 || m == 11 then 30
    else 31
  }

  /** A day that exists on the calendar. */
  predicate ValidDate(y: int, m: MonthNumber, d: int) {
    1 <= d <= DaysInMonth(m, y)
  }

  /** Days from 1 March of year 0 to the given date (proleptic Gregorian). */
  function DayNumber(y: int, m: MonthNumber, d: int): int {
    var y' := if m <= 2 then y - 1 else y;
    var m' := if m <= 2 then m + 9 else m - 3;   // March = 0 ... February = 11
    365 * y' + y' / 4 - y' / 100 + y' / 400 + (153 * m' + 2) / 5 + d - 1
  }

  /** Day of the week, 0 = Sunday ... 6 = Saturday, as getdate reports it. */
  function DayOfWeek(y: int, m: MonthNumber, d: int): (w: int)
    ensures 0 <= w <= 6
  {
    (DayNumber(y, m, d) + 3) % 7
  }

  /** The English weekday names getdate puts under 'weekday', by DayOfWeek. */
  const WeekdayNames: seq<string> :=
    ["Sunday", "Monday", "Tuesday", "Wednesday", "Thursday", "Friday", "Saturday"]

  function WeekdayOf(s: Stamp): (name: string)
    ensures name in WeekdayNames
  {
    WeekdayNames[DayOfWeek(s.year, s.month, s.day)]
  }

  /** 1 January 1970 was a Thursday. */
  lemma EpochIsThursday()
    ensures DayOfWeek(1970, 1, 1) == 4
  {
  }

  /** The next day on the calendar. */
  function NextDay(y: int, m: MonthNumber, d: int): (r: (int, MonthNumber, int))
    requires ValidDate(y, m, d)
    ensures ValidDate(r.0, r.1, r.2)
  {
    if d < DaysInMonth(m, y) then (y, m, d + 1)
    else if m < 12 then (y, m + 1, 1)
    else (y + 1, 1, 1)
  }

  /** Leap days counted up to year y: floor(y/4) - floor(y/100) + floor(y/400). */
  function LeapCount(y: int): int {
    y / 4 - y / 100 + y / 400
  }

  lemma Drop4(y: int)
    ensures (y - 1) / 4 == if y % 4 == 0 then y / 4 - 1 else y / 4
  {
  }

  lemma Drop100(y: int)
    ensures (y - 1) / 100 == if y % 100 == 0 then y / 100 - 1 else y / 100
  {
  }

  lemma Drop400(y: int)
    ensures (y - 1) / 400 == if y % 400 == 0 then y / 400 - 1 else y / 400
  {
  }

  lemma Multiple400Is100(y: int)
    requires y % 400 == 0
    ensures y % 100 == 0
  {
    var q := y / 400;
    assert y == 100 * (4 * q);
  }

  lemma Multiple100Is4(y: int)
    requires y % 100 == 0
    ensures y % 4 == 0
  {
    var q := y / 100;
    assert y == 4 * (25 * q);
  }

  /** Exactly the leap years add one to the leap-day count. */
  lemma {:induction false} LeapCountStep(y: int)
    ensures LeapCount(y) - LeapCount(y - 1) == if IsLeapYear(y) then 1 else 0
  {
    Drop4(y);
    Drop100(y);
    Drop400(y);
    var a, b, c := y % 4 == 0, y % 100 == 0, y % 400 == 0;
    if c { Multiple400Is100(y); }
    if b { Multiple100Is4(y); }
    assert LeapCount(y) - LeapCount(y - 1)
        == (if a then 1 else 0) - (if b then 1 else 0) + (if c then 1 else 0);
  }

  /** Consecutive calendar days have consecutive day numbers, across month and
      year ends included. */
  lemma {:induction false} DayNumberNext(y: int, m: MonthNumber, d: int)
    requires ValidDate(y, m, d)
    ensures var (y2, m2, d2) := NextDay(y, m, d); DayNumber(y2, m2, d2) == DayNumber(y, m, d) + 1
  {
    if d == DaysInMonth(m, y) && m == 2 {
      LeapCountStep(y);
      assert DayNumber(y, 3, 1) == 365 * y + LeapCount(y);
      assert DayNumber(y, 2, d) == 365 * (y - 1) + LeapCount(y - 1) + 337 + d - 1;
    }
  }

  /** The weekday advances by one every day. */
  lemma WeekdayAdvances(y: int, m: MonthNumber, d: int)
    requires ValidDate(y, m, d)
    ensures var (y2, m2, d2) := NextDay(y, m, d); DayOfWeek(y2, m2, d2) == (DayOfWeek(y, m, d) + 1) % 7
  {
    DayNumberNext(y, m, d);
    var (y2, m2, d2) := NextDay(y, m, d);
    var n := DayNumber(y, m, d);
    assert DayNumber(y2, m2, d2) == n + 1;
    ModSuccessor(n + 3);
  }

  lemma ModSuccessor(n: int)
    ensures (n + 1) % 7 == (n % 7 + 1) % 7
  {
  }
}
