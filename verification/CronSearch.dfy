/** The two search loops, and what walking with them visits. */
module CronSearch {
  import opened Calendar
  import opened Ordering
  import opened CronFields
  import opened CronReach

  const SEARCH_DAYS := 366 * 9

  /** The minute count of 1 January 10000, which no `datetime` reaches. */
  const END := 3652060 * MINUTES_PER_DAY

  lemma EndOfTime(t: DateTime)
    requires Valid(t)
    ensures Minutes(DateTime(10000, 1, 1, 0, 0)) == END
    ensures Minutes(t) < END <==> InRange(t)
  {
    DaysBeforeYearClosed(10000);
    OrderAgrees(t, DateTime(10000, 1, 1, 0, 0));
  }

  // ---- what the two directions look for ----

  predicate Tick(c: Cron, t: DateTime) {
    Valid(t) && Matches(c, t)
  }

  /** t is the earliest tick from minute n on. */
  ghost predicate FirstTick(c: Cron, n: int, t: DateTime) {
    && Tick(c, t)
    && n <= Minutes(t)
    && forall x | Tick(c, x) && n <= Minutes(x) :: Minutes(t) <= Minutes(x)
  }

  /** t is the latest tick up to minute n. */
  ghost predicate LastTick(c: Cron, n: int, t: DateTime) {
    && Tick(c, t)
    && Minutes(t) <= n
    && forall x | Tick(c, x) && Minutes(x) <= n :: Minutes(x) <= Minutes(t)
  }

  lemma {:induction false} EarliestOf(c: Cron, n: int, t: DateTime) returns (first: DateTime)
    requires Tick(c, t) && n <= Minutes(t)
    ensures FirstTick(c, n, first) && Minutes(first) <= Minutes(t)
    decreases Minutes(t) - n
  {
    if x :| Tick(c, x) && n <= Minutes(x) < Minutes(t) {
      first := EarliestOf(c, n, x);
    } else {
      first := t;
    }
  }

  lemma {:induction false} LatestOf(c: Cron, n: int, t: DateTime) returns (last: DateTime)
    requires Tick(c, t) && Minutes(t) <= n
    ensures LastTick(c, n, last) && Minutes(t) <= Minutes(last)
    decreases n - Minutes(t)
  {
    if x :| Tick(c, x) && Minutes(t) < Minutes(x) <= n {
      last := LatestOf(c, n, x);
    } else {
      last := t;
    }
  }

  /** Every minute count from the first minute on is some instant's. */
  lemma {:induction false} MinuteExists(n: int) returns (t: DateTime)
    requires MINUTES_PER_DAY <= n
    ensures Valid(t) && Minutes(t) == n
    decreases n
  {
    if n == MINUTES_PER_DAY {
      t := MIN;
      MinIsFirst(t);
    } else {
      var before := MinuteExists(n - 1);
      t := AddMinute(before);
    }
  }

  /** From any minute on, the next tick exists and is under 2921 days away. */
  lemma FirstTickExists(c: Cron, n: int) returns (t: DateTime)
    requires Accepted(c) && MINUTES_PER_DAY <= n
    ensures FirstTick(c, n, t) && Minutes(t) < n + LONGEST_GAP_DAYS * MINUTES_PER_DAY
  {
    var cur := MinuteExists(n);
    var some := WindowHasTick(c, cur);
    t := EarliestOf(c, n, some);
  }

  /** Up to any minute whose window starts in year 1, the last tick exists and is as near. */
  lemma LastTickExists(c: Cron, n: int) returns (t: DateTime)
    requires Accepted(c) && MINUTES_PER_DAY <= n - LONGEST_GAP_DAYS * MINUTES_PER_DAY + 1
    ensures LastTick(c, n, t) && n - LONGEST_GAP_DAYS * MINUTES_PER_DAY < Minutes(t)
  {
    var cur := MinuteExists(n - LONGEST_GAP_DAYS * MINUTES_PER_DAY + 1);
    var some := WindowHasTick(c, cur);
    t := LatestOf(c, n, some);
  }

  // ---- the clock reading both searches start from ----

  /** A `datetime`: the minute it falls in, its seconds and microseconds, and
      whether it carries a time zone. */
  datatype Reading = Reading(at: DateTime, second: nat, microsecond: nat, aware: bool)

  predicate ValidReading(dt: Reading) {
    InRange(dt.at) && dt.second < 60 && dt.microsecond < 1_000_000
  }

  function Micros(dt: Reading): int
    requires ValidReading(dt)
  {
    (Minutes(dt.at) * 60 + dt.second) * 1_000_000 + dt.microsecond
  }

  function TickMicros(t: DateTime): int
    requires Valid(t)
  {
    Minutes(t) * 60 * 1_000_000
  }

  /** A result, the two errors a reading can cause, and the error that says the bound was hit. */
  datatype Found = At(tick: DateTime) | AwareReading | DateOverflow | NoTick

  // ---- the jumps of following(): none passes the next tick ----

  function Above(xs: seq<int>, v: int): (r: seq<int>)
    requires Ascending(xs)
    ensures forall x :: x in r <==> x in xs && v < x
    ensures Ascending(r)
  {
    if xs == [] then []
    else if v < xs[0] then xs
    else Above(xs[1..], v)
  }

  function Below(xs: seq<int>, v: int): (r: seq<int>)
    requires Ascending(xs)
    ensures forall x :: x in r <==> x in xs && x < v
    ensures Ascending(r)
  {
    if xs == [] then []
    else if xs[|xs| - 1] < v then xs
    else
      assert xs == xs[..|xs| - 1] + [xs[|xs| - 1]];
      Below(xs[..|xs| - 1], v)
  }

  predicate SameMonth(a: DateTime, b: DateTime) { a.year == b.year && a.month == b.month }

  predicate SameDate(a: DateTime, b: DateTime) { SameMonth(a, b) && a.day == b.day }

  lemma MonthJumpUp(cur: DateTime, goal: DateTime)
    requires Valid(cur) && Valid(goal) && Minutes(cur) <= Minutes(goal) && !SameMonth(cur, goal)
    ensures Minutes(cur) < Minutes(FirstOfNextMonth(cur)) <= Minutes(goal)
  {
    hide IsLeap, DaysBeforeYear, DaysBeforeMonth;
    OrderAgrees(goal, cur);
    OrderAgrees(goal, FirstOfNextMonth(cur));
    OrderAgrees(cur, FirstOfNextMonth(cur));
  }

  lemma DayJumpUp(cur: DateTime, goal: DateTime)
    requires Valid(cur) && Valid(goal) && Minutes(cur) <= Minutes(goal) && !SameDate(cur, goal)
    ensures Minutes(cur) < Minutes(AddDay(Midnight(cur))) <= Minutes(goal)
  {
    hide IsLeap, DaysBeforeYear, DaysBeforeMonth;
    OrderAgrees(Midnight(goal), Midnight(cur));
    assert Minutes(Midnight(goal)) == Ordinal(goal) * MINUTES_PER_DAY;
    assert Minutes(Midnight(cur)) == Ordinal(cur) * MINUTES_PER_DAY;
    assert Ordinal(cur) < Ordinal(goal);
  }

  lemma MonthJumpDown(cur: DateTime, goal: DateTime)
    requires Valid(cur) && Valid(goal) && Minutes(goal) <= Minutes(cur) && !SameMonth(cur, goal)
    ensures Minutes(goal) < Minutes(FirstOfMonth(cur)) <= Minutes(cur) && FirstOfMonth(cur) != MIN
  {
    hide IsLeap, DaysBeforeYear, DaysBeforeMonth;
    OrderAgrees(cur, goal);
    OrderAgrees(goal, FirstOfMonth(cur));
    OrderAgrees(cur, FirstOfMonth(cur));
    MinIsFirst(goal);
  }

  lemma DayJumpDown(cur: DateTime, goal: DateTime)
    requires Valid(cur) && Valid(goal) && Minutes(goal) <= Minutes(cur) && !SameDate(cur, goal)
    ensures Minutes(goal) < Minutes(Midnight(cur)) <= Minutes(cur) && Midnight(cur) != MIN
  {
    hide IsLeap, DaysBeforeYear, DaysBeforeMonth;
    OrderAgrees(cur, goal);
    OrderAgrees(goal, Midnight(cur));
    OrderAgrees(cur, Midnight(cur));
    MinIsFirst(goal);
  }

  lemma HourJumpUp(cur: DateTime, goal: DateTime)
    requires Valid(cur) && Valid(goal) && Minutes(cur) <= Minutes(goal)
    requires !SameDate(cur, goal) || cur.hour != goal.hour
    ensures Minutes(cur) < Minutes(AddHour(cur.(minute := 0))) <= Minutes(goal)
  {
    hide IsLeap, DaysBeforeYear, DaysBeforeMonth;
    OrderAgrees(goal, cur);
    if !SameDate(cur, goal) { DayJumpUp(cur, goal); }
  }

  lemma HourJumpDown(cur: DateTime, goal: DateTime)
    requires Valid(cur) && Valid(goal) && Minutes(goal) <= Minutes(cur)
    requires !SameDate(cur, goal) || cur.hour != goal.hour
    ensures Minutes(goal) < Minutes(cur.(minute := 0)) <= Minutes(cur) && cur.(minute := 0) != MIN
  {
    hide IsLeap, DaysBeforeYear, DaysBeforeMonth;
    OrderAgrees(cur, goal);
    OrderAgrees(goal, cur.(minute := 0));
    OrderAgrees(cur, cur.(minute := 0));
    MinIsFirst(goal);
  }

  /** Replacing the hour by the next allowed one stays at or before the goal, or the goal is on another day. */
  lemma HourReplacedUp(c: Cron, cur: DateTime, goal: DateTime)
    requires WellFormed(c) && Valid(cur) && Valid(goal) && Minutes(cur) <= Minutes(goal)
    requires goal.hour in c.hours && cur.hour !in c.hours
    ensures var later := Above(c.hours, cur.hour);
      if later == [] then !SameDate(cur, goal)
      else
        var next := cur.(hour := later[0], minute := 0);
        Valid(next) && Minutes(cur) < Minutes(next) <= Minutes(goal)
  {
    hide IsLeap, DaysBeforeYear, DaysBeforeMonth;
    var later := Above(c.hours, cur.hour);
    OrderAgrees(goal, cur);
    if later != [] {
      assert later[0] in later;
      OrderAgrees(goal, cur.(hour := later[0], minute := 0));
    }
  }

  lemma MinuteReplacedUp(c: Cron, cur: DateTime, goal: DateTime)
    requires WellFormed(c) && Valid(cur) && Valid(goal) && Minutes(cur) <= Minutes(goal)
    requires goal.minute in c.minutes && cur.minute !in c.minutes
    ensures var later := Above(c.minutes, cur.minute);
      if later == [] then !SameDate(cur, goal) || cur.hour != goal.hour
      else
        var next := cur.(minute := later[0]);
        Valid(next) && Minutes(cur) < Minutes(next) <= Minutes(goal)
  {
    hide IsLeap, DaysBeforeYear, DaysBeforeMonth;
    var later := Above(c.minutes, cur.minute);
    OrderAgrees(goal, cur);
    if later != [] {
      assert later[0] in later;
      OrderAgrees(goal, cur.(minute := later[0]));
    }
  }

  lemma HourReplacedDown(c: Cron, cur: DateTime, goal: DateTime)
    requires WellFormed(c) && Valid(cur) && Valid(goal) && Minutes(goal) <= Minutes(cur)
    requires goal.hour in c.hours && cur.hour !in c.hours
    ensures var earlier := Below(c.hours, cur.hour);
      if earlier == [] then !SameDate(cur, goal)
      else
        var next := cur.(hour := earlier[|earlier| - 1], minute := 59);
        Valid(next) && Minutes(goal) <= Minutes(next) < Minutes(cur)
  {
    hide IsLeap, DaysBeforeYear, DaysBeforeMonth;
    var earlier := Below(c.hours, cur.hour);
    OrderAgrees(cur, goal);
    if earlier != [] {
      assert earlier[|earlier| - 1] in earlier;
      OrderAgrees(cur.(hour := earlier[|earlier| - 1], minute := 59), goal);
    }
  }

  lemma MinuteReplacedDown(c: Cron, cur: DateTime, goal: DateTime)
    requires WellFormed(c) && Valid(cur) && Valid(goal) && Minutes(goal) <= Minutes(cur)
    requires goal.minute in c.minutes && cur.minute !in c.minutes
    ensures var earlier := Below(c.minutes, cur.minute);
      if earlier == [] then !SameDate(cur, goal) || cur.hour != goal.hour
      else
        var next := cur.(minute := earlier[|earlier| - 1]);
        Valid(next) && Minutes(goal) <= Minutes(next) < Minutes(cur)
  {
    hide IsLeap, DaysBeforeYear, DaysBeforeMonth;
    var earlier := Below(c.minutes, cur.minute);
    OrderAgrees(cur, goal);
    if earlier != [] {
      assert earlier[|earlier| - 1] in earlier;
      OrderAgrees(cur.(minute := earlier[|earlier| - 1]), goal);
    }
  }

  // ---- one correction of each search ----

  /** The earliest instant that could fix cur's first mismatch. Whatever tick
      lies ahead, the correction moves towards it and not past it. */
  method CorrectUp(c: Cron, cur: DateTime, ghost goal: DateTime) returns (next: DateTime)
    requires WellFormed(c) && Valid(cur) && !Matches(c, cur)
    requires Tick(c, goal) && Minutes(cur) <= Minutes(goal)
    ensures Valid(next) && Minutes(cur) < Minutes(next) <= Minutes(goal)
  {
    hide IsLeap, DaysBeforeYear, DaysBeforeMonth;
    if cur.month !in c.months {
      MonthJumpUp(cur, goal);
      next := FirstOfNextMonth(cur);
    } else if !DayMatches(c, cur) {
      DayJumpUp(cur, goal);
      next := AddDay(Midnight(cur));
    } else if cur.hour !in c.hours {
      var later := Above(c.hours, cur.hour);
      HourReplacedUp(c, cur, goal);
      if later != [] {
        next := cur.(hour := later[0], minute := 0);
      } else {
        DayJumpUp(cur, goal);
        next := AddDay(Midnight(cur));
      }
    } else {
      var later := Above(c.minutes, cur.minute);
      MinuteReplacedUp(c, cur, goal);
      if later != [] {
        next := cur.(minute := later[0]);
      } else {
        HourJumpUp(cur, goal);
        next := AddHour(cur.(minute := 0));
      }
    }
  }

  /** The mirror image: the latest instant that could fix cur's first mismatch. */
  method CorrectDown(c: Cron, cur: DateTime, ghost goal: DateTime) returns (next: DateTime)
    requires WellFormed(c) && Valid(cur) && !Matches(c, cur)
    requires Tick(c, goal) && Minutes(goal) <= Minutes(cur)
    ensures Valid(next) && Minutes(goal) <= Minutes(next) < Minutes(cur)
  {
    hide IsLeap, DaysBeforeYear, DaysBeforeMonth;
    if cur.month !in c.months {
      MonthJumpDown(cur, goal);
      next := SubMinute(FirstOfMonth(cur));
    } else if !DayMatches(c, cur) {
      DayJumpDown(cur, goal);
      next := SubMinute(Midnight(cur));
    } else if cur.hour !in c.hours {
      var earlier := Below(c.hours, cur.hour);
      HourReplacedDown(c, cur, goal);
      if earlier != [] {
        next := cur.(hour := earlier[|earlier| - 1], minute := 59);
      } else {
        DayJumpDown(cur, goal);
        next := SubMinute(Midnight(cur));
      }
    } else {
      var earlier := Below(c.minutes, cur.minute);
      MinuteReplacedDown(c, cur, goal);
      if earlier != [] {
        next := cur.(minute := earlier[|earlier| - 1]);
      } else {
        HourJumpDown(cur, goal);
        next := SubMinute(cur.(minute := 0));
      }
    }
  }

  // ---- the two searches ----

  /** The earliest tick strictly after dt. The loop never passes the answer and
      never reaches the error behind it; the only failures are an aware reading
      and a bound that no `datetime` can hold. */
  method Following(c: Cron, dt: Reading) returns (r: Found)
    requires Accepted(c) && ValidReading(dt)
    ensures r.AwareReading? <==> dt.aware
    ensures r.DateOverflow? <==> !dt.aware && Minutes(dt.at) + 1 + SEARCH_DAYS * MINUTES_PER_DAY >= END
    ensures !r.NoTick?
    ensures r.At? ==> FirstTick(c, Minutes(dt.at) + 1, r.tick) && InRange(r.tick)
  {
    hide Matches;
    if dt.aware { return AwareReading; }
    var cur := AddMinute(dt.at);
    ghost var start := Minutes(cur);
    var bound := Minutes(cur) + SEARCH_DAYS * MINUTES_PER_DAY;
    if bound >= END { return DateOverflow; }
    MinIsFirst(dt.at);
    ghost var goal := FirstTickExists(c, start);
    EndOfTime(goal);
    r := NoTick;
    while Minutes(cur) < bound
      invariant Valid(cur)
      invariant start <= Minutes(cur) <= Minutes(goal)
      decreases bound - Minutes(cur)
    {
      if Matches(c, cur) {
        OrderAgrees(cur, goal);
        return At(cur);
      }
      cur := CorrectUp(c, cur, goal);
    }
    assert false;
  }

  /** The latest tick at or before dt, seconds ignored; dt's own minute exactly when it matches. */
  method Previous(c: Cron, dt: Reading) returns (r: Found)
    requires Accepted(c) && ValidReading(dt)
    ensures r.AwareReading? <==> dt.aware
    ensures r.DateOverflow? <==> !dt.aware && Minutes(dt.at) - SEARCH_DAYS * MINUTES_PER_DAY < MINUTES_PER_DAY
    ensures !r.NoTick?
    ensures r.At? ==> LastTick(c, Minutes(dt.at), r.tick) && InRange(r.tick)
    ensures r.At? ==> (r.tick == dt.at <==> Matches(c, dt.at))
  {
    hide Matches;
    if dt.aware { return AwareReading; }
    var cur := dt.at;
    var bound := Minutes(cur) - SEARCH_DAYS * MINUTES_PER_DAY;
    if bound < MINUTES_PER_DAY { return DateOverflow; }
    ghost var goal := LastTickExists(c, Minutes(cur));
    EndOfTime(dt.at);
    EndOfTime(goal);
    OrderAgrees(goal, dt.at);
    r := NoTick;
    while Minutes(cur) > bound
      invariant Valid(cur)
      invariant Minutes(goal) <= Minutes(cur) <= Minutes(dt.at)
      decreases Minutes(cur) - bound
    {
      if Matches(c, cur) {
        OrderAgrees(cur, goal);
        return At(cur);
      }
      cur := CorrectDown(c, cur, goal);
    }
    assert false;
  }

  /** In microseconds: the first tick from the next minute on is the first strictly
      after the reading, and the last up to its minute is the last at or before it. */
  lemma SecondsAreIgnored(c: Cron, dt: Reading, t: DateTime)
    requires ValidReading(dt) && Valid(t)
    ensures Micros(dt) < TickMicros(t) <==> Minutes(dt.at) + 1 <= Minutes(t)
    ensures TickMicros(t) <= Micros(dt) <==> Minutes(t) <= Minutes(dt.at)
  { }

  // ---- walking with them ----

  /** The earliest tick from minute m on. */
  ghost function TickFrom(c: Cron, m: int): (t: DateTime)
    requires Accepted(c) && MINUTES_PER_DAY <= m
    ensures FirstTick(c, m, t)
  {
    assert exists t :: FirstTick(c, m, t) by { var found := FirstTickExists(c, m); }
    var t :| FirstTick(c, m, t);
    t
  }

  /** What following() answers for a reading in minute n. */
  ghost function NextTick(c: Cron, n: int): (t: DateTime)
    requires Accepted(c) && MINUTES_PER_DAY <= n + 1
    ensures FirstTick(c, n + 1, t) && Tick(c, t) && n < Minutes(t)
  {
    TickFrom(c, n + 1)
  }

  /** k + 1 applications of following(), the first from minute n. */
  ghost function Walk(c: Cron, n: int, k: nat): (t: DateTime)
    requires Accepted(c) && MINUTES_PER_DAY <= n + 1
    ensures Tick(c, t) && n < Minutes(t)
    decreases k
  {
    if k == 0 then NextTick(c, n) else NextTick(c, Minutes(Walk(c, n, k - 1)))
  }

  /** following() then previous() comes back to the tick; previous() then
      following() lands on the same tick following() alone would. */
  lemma ThereAndBack(c: Cron, n: int, next: DateTime, last: DateTime)
    requires Accepted(c)
    requires FirstTick(c, n + 1, next)
    ensures LastTick(c, Minutes(next), last) <==> last == next
    ensures LastTick(c, n, last) ==> FirstTick(c, Minutes(last) + 1, next)
  {
    if LastTick(c, Minutes(next), last) { OrderAgrees(last, next); }
    if LastTick(c, n, last) {
      forall x | Tick(c, x) && Minutes(last) + 1 <= Minutes(x) ensures Minutes(next) <= Minutes(x) {
        assert n + 1 <= Minutes(x);
      }
    }
  }

  lemma {:induction false} WalkAscends(c: Cron, n: int, j: nat, k: nat)
    requires Accepted(c) && MINUTES_PER_DAY <= n + 1 && j < k
    ensures Minutes(Walk(c, n, j)) < Minutes(Walk(c, n, k))
    decreases k
  {
    hide Matches, FirstTick, NextTick;
    if j < k - 1 { WalkAscends(c, n, j, k - 1); }
  }

  /** Walking reaches every later tick: no tick lies between two neighbours of the walk. */
  lemma {:induction false} WalkReaches(c: Cron, n: int, t: DateTime) returns (k: nat)
    requires Accepted(c) && MINUTES_PER_DAY <= n + 1
    requires Tick(c, t) && n < Minutes(t)
    ensures Walk(c, n, k) == t
    decreases Minutes(t) - n
  {
    hide Matches, NextTick;
    var first := NextTick(c, n);
    OrderAgrees(first, t);
    if first == t {
      k := 0;
    } else {
      var j := WalkReaches(c, Minutes(first), t);
      WalkShift(c, n, j);
      k := j + 1;
    }
  }

  lemma {:induction false} WalkShift(c: Cron, n: int, j: nat)
    requires Accepted(c) && MINUTES_PER_DAY <= n + 1
    ensures Walk(c, n, j + 1) == Walk(c, Minutes(NextTick(c, n)), j)
    decreases j
  {
    hide Matches, FirstTick, NextTick;
    if j > 0 { WalkShift(c, n, j - 1); }
  }

  /** t is one of the instants that iterating following() from minute n visits. */
  ghost predicate Visited(c: Cron, n: int, t: DateTime)
    requires Accepted(c) && MINUTES_PER_DAY <= n + 1
  {
    exists k: nat :: Walk(c, n, k) == t
  }

  /** Iterating following() enumerates exactly the matching minutes after n. */
  lemma WalkEnumeratesTicks(c: Cron, n: int, t: DateTime)
    requires Accepted(c) && MINUTES_PER_DAY <= n + 1
    ensures Visited(c, n, t) <==> Tick(c, t) && n < Minutes(t)
  {
    hide Matches, FirstTick, NextTick;
    if Tick(c, t) && n < Minutes(t) {
      var k := WalkReaches(c, n, t);
    }
    if Visited(c, n, t) {
      var k: nat :| Walk(c, n, k) == t;
    }
  }
}
