/** Interval schedules: ticks at epoch + n * every + phase, in microseconds since
    the start of year 1. */
module IntervalTrigger {
  import opened Calendar

  const SECOND := 1_000_000
  const DAY := 86_400 * SECOND

  /** 1 January 1970; datetime.min is 0. */
  const EPOCH := 719_162 * DAY
  /** datetime.max */
  const LATEST := 3_652_059 * DAY - 1

  const MIN_INTERVAL := SECOND
  const MAX_INTERVAL := EPOCH

  /** The two constants are the calendar's: the days before 1970 and before year 10000. */
  lemma EpochIsTheCalendars(year: int)
    requires 1 <= year
    ensures year == 1970 ==> EPOCH == DaysBeforeYear(year) * DAY
    ensures year == 10000 ==> LATEST + 1 == DaysBeforeYear(year) * DAY
  {
    DaysBeforeYearClosed(year);
  }

  predicate Representable(t: int) { 0 <= t <= LATEST }

  /** A wall-clock reading, with the flag that tells the passes of a repeated hour apart. */
  datatype Clock = Clock(at: int, fold: bool)

  datatype Answer = Tick(clock: Clock) | DateOverflow

  datatype Check = Fine | TooShort | TooLong | BadPhase

  /** The refusals of a SCHEDULES entry, in their order. */
  function Validate(every: int, phase: int): Check {
    if every < MIN_INTERVAL then TooShort
    else if every > MAX_INTERVAL then TooLong
    else if phase < 0 || phase >= every then BadPhase
    else Fine
  }

  /** What is let through: every second to every 719,162 days, and a phase within one
      interval; the interval is refused before the phase. */
  lemma AcceptsExactly(every: int, phase: int)
    ensures Validate(every, phase) == Fine <==> 1_000_000 <= every <= 62_135_596_800_000_000 && 0 <= phase < every
    ensures Validate(every, phase) == TooShort <==> every < 1_000_000
    ensures Validate(every, phase) == TooLong <==> 62_135_596_800_000_000 < every
  { }

  /** The latest tick at or before dt, or the OverflowError of a sum no `datetime` holds. */
  function Previous(every: int, phase: int, dt: Clock): Answer
    requires 1 <= every
  {
    var elapsed := dt.at - EPOCH - phase;
    var stepped := EPOCH + elapsed / every * every;
    if !Representable(stepped) || !Representable(stepped + phase) then DateOverflow
    else Tick(Clock(stepped + phase, dt.fold))
  }

  /** t is on the schedule. */
  predicate OnSchedule(every: int, phase: int, t: int)
    requires 1 <= every
  {
    (t - EPOCH - phase) % every == 0
  }

  /** t is the schedule's last tick up to dt: on the schedule, and the next one is later. */
  predicate Due(every: int, phase: int, dt: int, t: int)
    requires 1 <= every
  {
    OnSchedule(every, phase, t) && t <= dt < t + every
  }

  // ---- division ----

  lemma FloorDivision(a: int, m: int)
    requires 1 <= m
    ensures a / m * m <= a < a / m * m + m
    ensures 0 <= a ==> 0 <= a / m * m
    ensures -m <= a < 0 ==> a / m * m == -m
    ensures (a / m * m) % m == 0
  {
    var q := a / m;
    assert a == m * q + a % m;
    assert 0 <= a ==> 0 <= q;
    if -m <= a < 0 {
      assert q >= 0 ==> m * q >= 0;
      assert q <= -2 ==> m * q <= -2 * m;
      assert q == -1;
    }
    MultipleLeavesNothing(q, m);
  }

  lemma MultipleLeavesNothing(q: int, m: int)
    requires 1 <= m
    ensures (q * m) % m == 0
  {
    var d := (q * m) / m - q;
    assert q * m == m * ((q * m) / m) + (q * m) % m;
    assert m * d == -((q * m) % m);
    assert d <= -1 ==> m * d <= -m;
    assert d >= 1 ==> m * d >= m;
  }

  /** Two multiples of m less than m apart are the same. */
  lemma NearMultiplesAgree(a: int, b: int, m: int)
    requires 1 <= m && a % m == 0 && b % m == 0 && -m < a - b < m
    ensures a == b
  {
    var d := a / m - b / m;
    assert a - b == m * d;
    assert d >= 1 ==> m * d >= m;
    assert d <= -1 ==> m * d <= -m;
  }

  // ---- what the trigger promises ----

  /** From the epoch on, the arithmetic fails exactly when the clock has not
      reached the first phase and the interval is over the maximum. */
  lemma OverflowsExactlyWhen(every: int, phase: int, dt: Clock)
    requires 1 <= every && 0 <= phase < every
    requires EPOCH <= dt.at <= LATEST
    ensures Previous(every, phase, dt).DateOverflow? <==> dt.at < EPOCH + phase && every > MAX_INTERVAL
  {
    FloorDivision(dt.at - EPOCH - phase, every);
  }

  /** A validated interval never overflows from 1970 on, and yields the one
      scheduled instant that is the latest at or before the clock, fold kept. */
  lemma PreviousIsTheDueTick(every: int, phase: int, dt: Clock)
    requires Validate(every, phase) == Fine
    requires EPOCH <= dt.at <= LATEST
    ensures Previous(every, phase, dt).Tick?
    ensures Previous(every, phase, dt).clock.fold == dt.fold
    ensures forall t :: Due(every, phase, dt.at, t) <==> t == Previous(every, phase, dt).clock.at
  {
    OverflowsExactlyWhen(every, phase, dt);
    FloorDivision(dt.at - EPOCH - phase, every);
    var p := Previous(every, phase, dt).clock.at;
    forall t ensures Due(every, phase, dt.at, t) <==> t == p {
      if Due(every, phase, dt.at, t) {
        NearMultiplesAgree(t - EPOCH - phase, p - EPOCH - phase, every);
      }
    }
  }

  /** A later clock never derives an earlier tick. */
  lemma PreviousIsMonotone(every: int, phase: int, a: Clock, b: Clock)
    requires Validate(every, phase) == Fine
    requires EPOCH <= a.at <= b.at <= LATEST
    ensures Previous(every, phase, a).Tick? && Previous(every, phase, b).Tick?
    ensures Previous(every, phase, a).clock.at <= Previous(every, phase, b).clock.at
  {
    PreviousIsTheDueTick(every, phase, a);
    PreviousIsTheDueTick(every, phase, b);
    var p, q := Previous(every, phase, a).clock.at, Previous(every, phase, b).clock.at;
    assert Due(every, phase, a.at, p) && Due(every, phase, b.at, q);
    if q < p { NearMultiplesAgree(p - EPOCH - phase, q - EPOCH - phase, every); }
  }

  /** A tick's own latest tick is itself, even where it falls before the epoch. */
  lemma PreviousIsIdempotent(every: int, phase: int, dt: Clock)
    requires Validate(every, phase) == Fine
    requires EPOCH <= dt.at <= LATEST
    ensures Previous(every, phase, dt).Tick?
    ensures Previous(every, phase, Previous(every, phase, dt).clock) == Previous(every, phase, dt)
  {
    OverflowsExactlyWhen(every, phase, dt);
    var q := (dt.at - EPOCH - phase) / every;
    FloorDivision(q * every, every);
    MultipleLeavesNothing(q, every);
    NearMultiplesAgree(q * every / every * every, q * every, every);
  }

  /** The maximum interval is tight: any longer one with a phase fails at the epoch itself. */
  lemma MaximumIsTight(every: int, phase: int, fold: bool)
    requires MAX_INTERVAL < every && 0 < phase < every
    ensures Previous(every, phase, Clock(EPOCH, fold)).DateOverflow?
  {
    OverflowsExactlyWhen(every, phase, Clock(EPOCH, fold));
  }
}
