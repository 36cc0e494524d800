/** A parsed cron expression, when a minute matches it, and which ones are refused. */
module CronFields {
  import opened Calendar
  import opened Ordering

  datatype Cron = Cron(
    minutes: seq<int>, hours: seq<int>, daysOfMonth: seq<int>, months: seq<int>, daysOfWeek: seq<int>,
    domRestricted: bool, dowRestricted: bool)

  /** A non-empty tuple of allowed values, each once, in order. */
  predicate Domain(xs: seq<int>, low: int, high: int) {
    xs != [] && Ascending(xs) && forall x <- xs :: low <= x <= high
  }

  /** tuple(sorted(values)) for values between low and high */
  function Sorted(values: set<int>, low: int, high: int): (r: seq<int>)
    requires forall v | v in values :: low <= v <= high
    ensures Ascending(r)
    ensures forall v :: v in r <==> v in values
    ensures r == [] <==> values == {}
    decreases high - low + 1
  {
    if high < low then []
    else
      var rest := Sorted(values - {low}, low + 1, high);
      Prepended(low, rest);
      if low in values then [low] + rest else rest
  }

  /** tuple(range(low, high + 1)) */
  function Range(low: int, high: int): (r: seq<int>)
    requires low <= high
    ensures Domain(r, low, high)
    ensures forall v | low <= v <= high :: v in r
    decreases high - low
  {
    if low == high then [low]
    else
      Prepended(low, Range(low + 1, high));
      [low] + Range(low + 1, high)
  }

  predicate WellFormed(c: Cron) {
    && Domain(c.minutes, 0, 59)
    && Domain(c.hours, 0, 23)
    && Domain(c.daysOfMonth, 1, 31)
    && Domain(c.months, 1, 12)
    && Domain(c.daysOfWeek, 0, 6)
    && (!c.domRestricted ==> forall d | 1 <= d <= 31 :: d in c.daysOfMonth)
    && (!c.dowRestricted ==> forall d | 0 <= d <= 6 :: d in c.daysOfWeek)
  }

  predicate DayMatches(c: Cron, t: DateTime)
    requires Valid(t)
  {
    var domOk := t.day in c.daysOfMonth;
    var dowOk := CronWeekday(t) in c.daysOfWeek;
    if c.domRestricted && c.dowRestricted then domOk || dowOk else domOk && dowOk
  }

  predicate Matches(c: Cron, t: DateTime)
    requires Valid(t)
  {
    && t.minute in c.minutes
    && t.hour in c.hours
    && t.month in c.months
    && DayMatches(c, t)
  }

  /** The day rule, by what each half says alone. With both day fields restricted a minute
      ticks when it does with either of them left open; otherwise when it does with each. */
  lemma EitherDayFieldTicks(c: Cron, t: DateTime)
    requires WellFormed(c) && Valid(t)
    ensures var byDate, byWeekday := c.(daysOfWeek := Range(0, 6), dowRestricted := false),
                                     c.(daysOfMonth := Range(1, 31), domRestricted := false);
      && (c.domRestricted && c.dowRestricted ==> (Matches(c, t) <==> Matches(byDate, t) || Matches(byWeekday, t)))
      && (!c.domRestricted || !c.dowRestricted ==> (Matches(c, t) <==> Matches(byDate, t) && Matches(byWeekday, t)))
  { }

  /** Each of the four cases written out: an open field says nothing. */
  lemma TicksByFields(c: Cron, t: DateTime)
    requires WellFormed(c) && Valid(t)
    ensures Matches(c, t) ==> t.minute in c.minutes && t.hour in c.hours && t.month in c.months
    ensures t.minute in c.minutes && t.hour in c.hours && t.month in c.months ==>
      var date, weekday := t.day in c.daysOfMonth, CronWeekday(t) in c.daysOfWeek;
      && (c.domRestricted && c.dowRestricted ==> (Matches(c, t) <==> date || weekday))
      && (c.domRestricted && !c.dowRestricted ==> (Matches(c, t) <==> date))
      && (!c.domRestricted && c.dowRestricted ==> (Matches(c, t) <==> weekday))
      && (!c.domRestricted && !c.dowRestricted ==> Matches(c, t))
  { }

  /** The most days a month ever has. */
  function MaxDays(month: int): int {
    if month == 2 then 29
    else if month == 4 || month == 6 || month == 9 || month == 11 then 30
    else 31
  }

  /** The constructor's refusal: only day-of-month restricts days, and no listed month is long enough. */
  predicate Impossible(c: Cron) {
    && c.domRestricted
    && !c.dowRestricted
    && !(exists month <- c.months :: exists day <- c.daysOfMonth :: day <= MaxDays(month))
  }

  /** What the constructor lets through. */
  predicate Accepted(c: Cron) {
    WellFormed(c) && !Impossible(c)
  }
}
