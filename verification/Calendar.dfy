/** The proleptic Gregorian calendar that `datetime` works on, at minute resolution.
    Years start at 1 and are unbounded above; `InRange` is the range a Python
    `datetime` can hold. */
module Calendar {

  const MAXYEAR := 9999
  const MINUTES_PER_DAY := 1440

  datatype DateTime = DateTime(year: int, month: int, day: int, hour: int, minute: int)

  predicate IsLeap(year: int) {
    year % 4 == 0 && (year % 100 != 0 || year % 400 == 0)
  }

  function DaysInMonth(year: int, month: int): (n: int)
    ensures 28 <= n <= 31
  {
    if month == 2 then (if IsLeap(year) then 29 else 28)
    else if month == 4 || month == 6 || month == 9 || month == 11 then 30
    else 31
  }

  function DaysInYear(year: int): int {
    if IsLeap(year) then 366 else 365
  }

  predicate Valid(t: DateTime) {
    && 1 <= t.year
    && 1 <= t.month <= 12
    && 1 <= t.day <= DaysInMonth(t.year, t.month)
    && 0 <= t.hour < 24
    && 0 <= t.minute < 60
  }

  /** What a `datetime` object can be. */
  predicate InRange(t: DateTime) {
    Valid(t) && t.year <= MAXYEAR
  }

  /** Days in the years before `year`, counted one year at a time. */
  function DaysBeforeYear(year: int): int
    requires 1 <= year
    decreases year
  {
    if year == 1 then 0 else DaysBeforeYear(year - 1) + DaysInYear(year - 1)
  }

  /** Days of `year` before the first of `month`, counted one month at a time. */
  function DaysBeforeMonth(year: int, month: int): int
    requires 1 <= month <= 13
    decreases month
  {
    if month == 1 then 0 else DaysBeforeMonth(year, month - 1) + DaysInMonth(year, month - 1)
  }

  /** The proleptic ordinal: 1 January of year 1 is day 1, a Monday. */
  function Ordinal(t: DateTime): int
    requires Valid(t)
  {
    DaysBeforeYear(t.year) + DaysBeforeMonth(t.year, t.month) + t.day
  }

  /** A minute count that orders valid date-times. */
  function Minutes(t: DateTime): int
    requires Valid(t)
  {
    Ordinal(t) * MINUTES_PER_DAY + t.hour * 60 + t.minute
  }

  /** Day of the week with Sunday as 0, as cron counts it: (weekday() + 1) % 7. */
  function CronWeekday(t: DateTime): int
    requires Valid(t)
  {
    Ordinal(t) % 7
  }

  // ---- year and month lengths ----

  /** Stepping past y moves the quotient by k exactly at the multiples of k. */
  lemma QuotientStep(y: int, k: int)
    requires k == 4 || k == 100 || k == 400
    ensures y / k - (y - 1) / k == if y % k == 0 then 1 else 0
  {
    if k == 4 { assert y == 4 * (y / 4) + y % 4; }
    else if k == 100 { assert y == 100 * (y / 100) + y % 100; }
    else { assert y == 400 * (y / 400) + y % 400; }
  }

  lemma CenturyRule(y: int)
    ensures y % 400 == 0 ==> y % 100 == 0
    ensures y % 100 == 0 ==> y % 4 == 0
  {
    var q := y / 400;
    assert y == 400 * q + y % 400;
    assert y % 400 == 0 ==> y == 100 * (4 * q);
    HundredsAreFours(y);
  }

  lemma HundredsAreFours(y: int)
    ensures y % 100 == 0 ==> y % 4 == 0
  {
    var q := y / 100;
    assert y == 100 * q + y % 100;
    assert y % 100 == 0 ==> y == 4 * (25 * q);
  }

  /** Counting leap years one at a time gives the closed form with the century rules. */
  lemma {:induction false} DaysBeforeYearClosed(year: int)
    requires 1 <= year
    ensures DaysBeforeYear(year) == (year - 1) * 365 + (year - 1) / 4 - (year - 1) / 100 + (year - 1) / 400
    decreases year
  {
    if year > 1 {
      DaysBeforeYearClosed(year - 1);
      QuotientStep(year - 1, 4);
      QuotientStep(year - 1, 100);
      QuotientStep(year - 1, 400);
      CenturyRule(year - 1);
    }
  }

  lemma {:induction false} YearsGrow(a: int, b: int)
    requires 1 <= a <= b
    ensures DaysBeforeYear(b) >= DaysBeforeYear(a) + 365 * (b - a)
    decreases b
  {
    if a < b { YearsGrow(a, b - 1); }
  }

  lemma MonthTable(year: int)
    ensures DaysBeforeMonth(year, 2) == 31
    ensures DaysBeforeMonth(year, 3) == 31 + DaysInMonth(year, 2)
    ensures DaysBeforeMonth(year, 4) == 62 + DaysInMonth(year, 2)
    ensures DaysBeforeMonth(year, 5) == 92 + DaysInMonth(year, 2)
    ensures DaysBeforeMonth(year, 6) == 123 + DaysInMonth(year, 2)
    ensures DaysBeforeMonth(year, 7) == 153 + DaysInMonth(year, 2)
    ensures DaysBeforeMonth(year, 8) == 184 + DaysInMonth(year, 2)
    ensures DaysBeforeMonth(year, 9) == 215 + DaysInMonth(year, 2)
    ensures DaysBeforeMonth(year, 10) == 245 + DaysInMonth(year, 2)
    ensures DaysBeforeMonth(year, 11) == 276 + DaysInMonth(year, 2)
    ensures DaysBeforeMonth(year, 12) == 306 + DaysInMonth(year, 2)
    ensures DaysBeforeMonth(year, 13) == DaysInYear(year)
  {
    assert DaysBeforeMonth(year, 2) == 31;
    assert DaysBeforeMonth(year, 4) == DaysBeforeMonth(year, 3) + 31;
    assert DaysBeforeMonth(year, 6) == DaysBeforeMonth(year, 5) + 31;
    assert DaysBeforeMonth(year, 8) == DaysBeforeMonth(year, 7) + 31;
    assert DaysBeforeMonth(year, 10) == DaysBeforeMonth(year, 9) + 30;
    assert DaysBeforeMonth(year, 12) == DaysBeforeMonth(year, 11) + 30;
  }

  lemma {:induction false} MonthsGrow(year: int, a: int, b: int)
    requires 1 <= a <= b <= 13
    ensures DaysBeforeMonth(year, a) <= DaysBeforeMonth(year, b)
    ensures a < b ==> DaysBeforeMonth(year, a) + DaysInMonth(year, a) <= DaysBeforeMonth(year, b)
    decreases b
  {
    if a < b { MonthsGrow(year, a, b - 1); }
  }

  // ---- the minute count orders date-times as their fields do ----

  /** Order by year, month, day, hour and minute, most significant first. */
  predicate Before(a: DateTime, b: DateTime) {
    || a.year < b.year
    || (a.year == b.year && a.month < b.month)
    || (a.year == b.year && a.month == b.month && a.day < b.day)
    || (a.year == b.year && a.month == b.month && a.day == b.day && a.hour * 60 + a.minute < b.hour * 60 + b.minute)
  }

  lemma OrdinalInYear(t: DateTime)
    requires Valid(t)
    ensures DaysBeforeYear(t.year) < Ordinal(t) <= DaysBeforeYear(t.year + 1)
    ensures Ordinal(t) <= DaysBeforeYear(t.year) + DaysBeforeMonth(t.year, t.month) + DaysInMonth(t.year, t.month)
    ensures 1 <= Ordinal(t)
  {
    hide IsLeap;
    MonthsGrow(t.year, 1, t.month);
    MonthsGrow(t.year, t.month, 13);
    MonthTable(t.year);
    YearsGrow(1, t.year);
  }

  lemma EarlierIsFewerMinutes(a: DateTime, b: DateTime)
    requires Valid(a) && Valid(b) && Before(a, b)
    ensures Minutes(a) < Minutes(b)
    ensures Ordinal(a) <= Ordinal(b)
  {
    hide IsLeap;
    if a.year < b.year {
      OrdinalInYear(a);
      OrdinalInYear(b);
      YearsGrow(a.year + 1, b.year);
    } else if a.month < b.month {
      OrdinalInYear(a);
      MonthsGrow(a.year, a.month, b.month);
    }
  }

  /** The minute count is an order embedding: it neither merges nor reorders instants. */
  lemma OrderAgrees(a: DateTime, b: DateTime)
    requires Valid(a) && Valid(b)
    ensures Minutes(a) < Minutes(b) <==> Before(a, b)
    ensures Minutes(a) == Minutes(b) <==> a == b
  {
    hide IsLeap;
    if Before(a, b) {
      EarlierIsFewerMinutes(a, b);
    } else if Before(b, a) {
      EarlierIsFewerMinutes(b, a);
    } else {
      assert a.hour == b.hour;
    }
  }

  // ---- the steps of datetime arithmetic that the search takes ----

  function Midnight(t: DateTime): DateTime {
    t.(hour := 0, minute := 0)
  }

  function FirstOfMonth(t: DateTime): DateTime {
    DateTime(t.year, t.month, 1, 0, 0)
  }

  function FirstOfNextMonth(t: DateTime): (r: DateTime)
    requires Valid(t)
    ensures Valid(r)
    ensures Minutes(r) ==
      (DaysBeforeYear(t.year) + DaysBeforeMonth(t.year, t.month) + DaysInMonth(t.year, t.month) + 1) * MINUTES_PER_DAY
  {
    MonthTable(t.year);
    if t.month == 12 then DateTime(t.year + 1, 1, 1, 0, 0) else DateTime(t.year, t.month + 1, 1, 0, 0)
  }

  /** t + timedelta(days=1) */
  function AddDay(t: DateTime): (r: DateTime)
    requires Valid(t)
    ensures Valid(r) && Minutes(r) == Minutes(t) + MINUTES_PER_DAY
  {
    if t.day < DaysInMonth(t.year, t.month) then t.(day := t.day + 1)
    else FirstOfNextMonth(t).(hour := t.hour, minute := t.minute)
  }

  /** t + timedelta(hours=1) */
  function AddHour(t: DateTime): (r: DateTime)
    requires Valid(t)
    ensures Valid(r) && Minutes(r) == Minutes(t) + 60
  {
    if t.hour < 23 then t.(hour := t.hour + 1) else AddDay(t).(hour := 0)
  }

  /** t + timedelta(minutes=1) */
  function AddMinute(t: DateTime): (r: DateTime)
    requires Valid(t)
    ensures Valid(r) && Minutes(r) == Minutes(t) + 1
  {
    if t.minute < 59 then t.(minute := t.minute + 1) else AddHour(t).(minute := 0)
  }

  const MIN := DateTime(1, 1, 1, 0, 0)

  function LastMinuteOfYear(year: int): (r: DateTime)
    requires 1 <= year
    ensures Valid(r) && Minutes(r) + 1 == Minutes(DateTime(year + 1, 1, 1, 0, 0))
  {
    MonthTable(year);
    DateTime(year, 12, 31, 23, 59)
  }

  /** t - timedelta(minutes=1), which the first representable minute does not have. */
  function SubMinute(t: DateTime): (r: DateTime)
    requires Valid(t) && t != MIN
    ensures Valid(r) && Minutes(r) == Minutes(t) - 1
  {
    if t.minute > 0 then t.(minute := t.minute - 1)
    else if t.hour > 0 then t.(hour := t.hour - 1, minute := 59)
    else if t.day > 1 then t.(day := t.day - 1, hour := 23, minute := 59)
    else if t.month > 1 then DateTime(t.year, t.month - 1, DaysInMonth(t.year, t.month - 1), 23, 59)
    else LastMinuteOfYear(t.year - 1)
  }

  lemma MinIsFirst(t: DateTime)
    requires Valid(t)
    ensures Minutes(MIN) == MINUTES_PER_DAY
    ensures Minutes(MIN) <= Minutes(t)
  {
    OrderAgrees(t, MIN);
  }

  /** 13 August 2026 is a Thursday: the ordinal carries the real weekday. */
  lemma WeekdayAnchor(t: DateTime)
    requires Valid(t) && t.year == 2026 && t.month == 8 && t.day == 13
    ensures CronWeekday(t) == 4
  {
    DaysBeforeYearClosed(t.year);
    MonthTable(t.year);
    assert Ordinal(t) == 739841;
  }
}
