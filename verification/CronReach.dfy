/** How far apart ticks can be. Every accepted expression has a tick in every
    window of 2921 days, 2921 days is the least such bound, and an expression
    the constructor refuses matches no date. */
module CronReach {
  import opened Calendar
  import opened CronFields

  /** 29 February 2096 to 29 February 2104, over the missing leap year. */
  const LONGEST_GAP_DAYS := 2921

  predicate DateMatches(c: Cron, t: DateTime)
    requires Valid(t)
  {
    t.month in c.months && DayMatches(c, t)
  }

  // ---- distances between dates ----

  lemma {:induction false} YearsGrowAtMost(a: int, b: int)
    requires 1 <= a <= b
    ensures DaysBeforeYear(b) <= DaysBeforeYear(a) + 366 * (b - a)
    decreases b
  {
    if a < b { YearsGrowAtMost(a, b - 1); }
  }

  /** A date in a later year is later, and no further than the years between allow. */
  lemma LaterYear(a: DateTime, b: DateTime)
    requires Valid(a) && Valid(b) && a.year < b.year
    ensures Ordinal(a) < Ordinal(b) <= Ordinal(a) + 366 * (b.year + 1 - a.year)
  {
    OrdinalInYear(a);
    OrdinalInYear(b);
    YearsGrow(a.year + 1, b.year);
    YearsGrowAtMost(a.year, b.year + 1);
  }

  /** Among the first seven days of a month, every weekday occurs. */
  lemma WeekdayInMonth(year: int, month: int, weekday: int) returns (t: DateTime)
    requires 1 <= year && 1 <= month <= 12 && 0 <= weekday <= 6
    ensures Valid(t) && t.year == year && t.month == month && t.hour == t.minute == 0
    ensures CronWeekday(t) == weekday
  {
    var start := DaysBeforeYear(year) + DaysBeforeMonth(year, month);
    var day := 1 + (weekday - start - 1) % 7;
    t := DateTime(year, month, day, 0, 0);
    assert (start + day) % 7 == weekday;
  }

  // ---- leap years ----

  /** From a common year the next leap year is at most seven years off. */
  lemma NextLeapFromCommon(y: int) returns (l: int)
    requires 1 <= y && !IsLeap(y)
    ensures y < l <= y + 7 && IsLeap(l)
  {
    CenturyRule(y);
    var up := y + 4 - y % 4;
    if IsLeap(up) {
      l := up;
    } else {
      l := up + 4;
      CenturyRule(up);
      assert up % 100 == 0;
    }
  }

  /** From a leap year it is four years off, or eight over a skipped century. */
  lemma NextLeapFromLeap(y: int) returns (l: int)
    requires 1 <= y && IsLeap(y)
    ensures IsLeap(l)
    ensures l == y + 4 || (l == y + 8 && !IsLeap(y + 4))
  {
    if IsLeap(y + 4) {
      l := y + 4;
    } else {
      l := y + 8;
      assert (y + 4) % 100 == 0;
    }
  }

  lemma FoursApart(y: int, l: int)
    requires y % 4 == 0 && l % 4 == 0 && y < l
    ensures l == y + 4 || y + 8 <= l
  {
    var a, b := y / 4, l / 4;
    assert y == 4 * a && l == 4 * b;
  }

  lemma LeapYearsAreFours(y: int)
    ensures IsLeap(y) ==> y % 4 == 0
  { }

  /** A century whose last year is no multiple of 400 skips its leap year. */
  lemma SkippedLeapYear(century: nat)
    requires (century + 1) % 4 != 0
    ensures IsLeap(100 * century + 96) && !IsLeap(100 * century + 100) && IsLeap(100 * century + 104)
  {
    var q := (century + 1) / 4;
    assert 100 * century + 100 == 400 * q + 100 * ((century + 1) % 4);
    assert 100 * century + 104 == 100 * (century + 1) + 4;
  }

  lemma NoLeapYearBetween(century: nat, l: int)
    requires (century + 1) % 4 != 0 && IsLeap(l) && 100 * century + 96 < l
    ensures 100 * century + 104 <= l
  {
    SkippedLeapYear(century);
    LeapYearsAreFours(l);
    FoursApart(100 * century + 96, l);
  }

  lemma EightYearsOverACentury(y: int)
    requires 1 <= y && IsLeap(y) && !IsLeap(y + 4)
    ensures DaysBeforeYear(y + 8) == DaysBeforeYear(y) + LONGEST_GAP_DAYS
  {
    assert DaysBeforeYear(y + 1) == DaysBeforeYear(y) + 366;
    assert DaysBeforeYear(y + 3) == DaysBeforeYear(y + 1) + 730;
    assert DaysBeforeYear(y + 5) == DaysBeforeYear(y + 3) + 730;
    assert DaysBeforeYear(y + 7) == DaysBeforeYear(y + 5) + 730;
  }

  predicate IsLeapDay(t: DateTime) { t.month == 2 && t.day == 29 }

  lemma LeapDayFromCommonYear(cur: DateTime) returns (t: DateTime)
    requires Valid(cur) && !IsLeap(cur.year)
    ensures Valid(t) && IsLeapDay(t) && t.hour == t.minute == 0
    ensures Ordinal(cur) < Ordinal(t) < Ordinal(cur) + LONGEST_GAP_DAYS
  {
    var l := NextLeapFromCommon(cur.year);
    hide IsLeap;
    t := DateTime(l, 2, 29, 0, 0);
    LaterYear(cur, t);
    OrdinalInYear(cur);
    YearsGrowAtMost(cur.year, l);
  }

  lemma LeapDayOfThisYear(cur: DateTime, t: DateTime)
    requires Valid(cur) && Valid(t) && IsLeapDay(t) && t.hour == t.minute == 0 && t.year == cur.year
    ensures Before(Midnight(cur), t) ==> Ordinal(cur) < Ordinal(t) <= Ordinal(cur) + 366
    ensures !Before(Midnight(cur), t) ==> Ordinal(t) <= Ordinal(cur)
    ensures !Before(Midnight(cur), t) && !IsLeapDay(cur) ==> Ordinal(t) < Ordinal(cur)
  {
    hide IsLeap;
    OrderAgrees(Midnight(cur), t);
    OrdinalInYear(cur);
    OrdinalInYear(t);
    YearsGrowAtMost(cur.year, cur.year + 1);
  }

  lemma LeapDayOfAnotherYear(here: DateTime, t: DateTime)
    requires Valid(here) && IsLeapDay(here) && Valid(t) && IsLeapDay(t)
    requires t.year == here.year + 4 || (t.year == here.year + 8 && IsLeap(here.year) && !IsLeap(here.year + 4))
    ensures Ordinal(here) < Ordinal(t) <= Ordinal(here) + LONGEST_GAP_DAYS
  {
    hide IsLeap;
    LaterYear(here, t);
    if t.year == here.year + 4 {
      YearsGrowAtMost(here.year, t.year);
    } else {
      EightYearsOverACentury(here.year);
    }
    assert DaysBeforeMonth(here.year, 2) == DaysBeforeMonth(t.year, 2);
  }

  /** The next 29 February after a date: the one case whose gap is not bounded by two years. */
  lemma NextLeapDay(cur: DateTime) returns (t: DateTime)
    requires Valid(cur)
    ensures Valid(t) && IsLeapDay(t) && t.hour == t.minute == 0
    ensures Ordinal(cur) < Ordinal(t)
    ensures Ordinal(t) <= Ordinal(cur) + (if IsLeapDay(cur) then LONGEST_GAP_DAYS else LONGEST_GAP_DAYS - 1)
  {
    if !IsLeap(cur.year) {
      t := LeapDayFromCommonYear(cur);
    } else {
      var here := DateTime(cur.year, 2, 29, 0, 0);
      LeapDayOfThisYear(cur, here);
      var l := NextLeapFromLeap(cur.year);
      hide IsLeap;
      if Before(Midnight(cur), here) {
        t := here;
      } else {
        t := DateTime(l, 2, 29, 0, 0);
        LeapDayOfAnotherYear(here, t);
        LaterYear(cur, t);
      }
    }
  }

  // ---- the next matching date ----

  /** After any date an accepted expression has another matching date, within
      the longest gap when it starts on a matching one and a day less otherwise. */
  lemma NextMatchingDate(c: Cron, cur: DateTime) returns (t: DateTime)
    requires Accepted(c) && Valid(cur)
    ensures Valid(t) && DateMatches(c, t) && t.hour == t.minute == 0
    ensures Ordinal(cur) < Ordinal(t)
    ensures Ordinal(t) <= Ordinal(cur) + (if DateMatches(c, cur) then LONGEST_GAP_DAYS else LONGEST_GAP_DAYS - 1)
  {
    if c.dowRestricted || !c.domRestricted {
      assert c.months[0] in c.months && c.daysOfWeek[0] in c.daysOfWeek;
      t := WeekdayInMonth(cur.year + 1, c.months[0], c.daysOfWeek[0]);
      LaterYear(cur, t);
    } else {
      var month, day :| month in c.months && day in c.daysOfMonth && day <= MaxDays(month);
      if month == 2 && day == 29 {
        t := NextLeapDay(cur);
      } else {
        t := DateTime(cur.year + 1, month, day, 0, 0);
        LaterYear(cur, t);
      }
      assert CronWeekday(t) in c.daysOfWeek;
      assert cur.month == 2 && cur.day == 29 ==> (month == 2 && day == 29 ==> DateMatches(c, cur)) by {
        assert CronWeekday(cur) in c.daysOfWeek;
      }
    }
  }

  // ---- the window theorem ----

  /** Every window of 2921 days, opened at any minute, holds a tick. */
  lemma WindowHasTick(c: Cron, cur: DateTime) returns (t: DateTime)
    requires Accepted(c) && Valid(cur)
    ensures Valid(t) && Matches(c, t)
    ensures Minutes(cur) <= Minutes(t) < Minutes(cur) + LONGEST_GAP_DAYS * MINUTES_PER_DAY
  {
    var h, m := c.hours[0], c.minutes[0];
    assert h in c.hours && m in c.minutes;
    var today := cur.(hour := h, minute := m);
    if DateMatches(c, cur) && Minutes(cur) <= Minutes(today) {
      t := today;
    } else {
      var date := NextMatchingDate(c, cur);
      t := date.(hour := h, minute := m);
    }
  }

  /** 0 0 29 2 * */
  function LeapDayCron(): (c: Cron)
    ensures Accepted(c)
  {
    assert 2 in [2] && 29 in [29];
    Cron([0], [0], [29], [2], Range(0, 6), true, false)
  }

  lemma LeapDayMatches(t: DateTime)
    requires Valid(t)
    ensures Matches(LeapDayCron(), t) <==> t.month == 2 && t.day == 29 && t.hour == t.minute == 0
  { }

  /** The 29 February that many years after the first of a century. */
  function LeapDay(century: nat, years: nat): DateTime {
    DateTime(100 * century + years, 2, 29, 0, 0)
  }

  /** The bound is tight: over any skipped century leap year, as after 2096, the
      yearly leap-day expression ticks 2921 days later and at no minute between. */
  lemma LongestGapIsAttained(century: nat, t: DateTime)
    requires (century + 1) % 4 != 0 && Valid(t)
    ensures var from, next := LeapDay(century, 96), LeapDay(century, 104);
      && Valid(from) && Matches(LeapDayCron(), from)
      && Valid(next) && Matches(LeapDayCron(), next)
      && Minutes(next) == Minutes(from) + LONGEST_GAP_DAYS * MINUTES_PER_DAY
      && (Matches(LeapDayCron(), t) && Minutes(from) < Minutes(t) ==> Minutes(next) <= Minutes(t))
  {
    hide Matches, LeapDayCron, DaysBeforeYear, DaysBeforeMonth;
    SkippedLeapYear(century);
    var from, next := LeapDay(century, 96), LeapDay(century, 104);
    LeapDayMatches(from);
    LeapDayMatches(next);
    LeapDayMatches(t);
    EightYearsOverACentury(from.year);
    FebruaryIsSecond(from.year);
    FebruaryIsSecond(next.year);
    if Matches(LeapDayCron(), t) && Minutes(from) < Minutes(t) {
      OrderAgrees(from, t);
      NoLeapYearBetween(century, t.year);
      OrderAgrees(t, next);
    }
  }

  lemma FebruaryIsSecond(year: int)
    ensures DaysBeforeMonth(year, 2) == 31
  { }

  // ---- the constructor's refusal is exact ----

  /** A refused expression matches no date, and one that matches no date is refused. */
  lemma RefusalIsExact(c: Cron)
    requires WellFormed(c)
    ensures Impossible(c) <==> forall t | Valid(t) :: !Matches(c, t)
  {
    if Impossible(c) {
      forall t | Valid(t) ensures !Matches(c, t) {
        assert t.day <= MaxDays(t.month);
      }
    } else {
      var t := WindowHasTick(c, MIN);
    }
  }
}
