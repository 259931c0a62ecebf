/** Cron schedules on one time line of seconds, local wall-clock time, with day 0 a
    Monday starting at second 0. */
module Schedules {
  import opened Tables

  const Day: int := 86400
  const Week: int := 604800

  datatype Unit = Seconds | Minutes | Hours | Days

  function SecondsIn(unit: Unit): int {
    match unit
    case Seconds => 1
    case Minutes => 60
    case Hours => 3600
    case Days => 86400
  }

  datatype Schedule =
    | Every(value: nat, unit: Unit)
    | Daily(hour: nat, minute: nat)
    | Weekly(weekday: nat, hour: nat, minute: nat)

  /** What parsing accepts. */
  predicate Acceptable(s: Schedule) {
    match s
    case Every(value, _) => value > 0
    case Daily(hour, minute) => hour <= 23 && minute <= 59
    case Weekly(weekday, hour, minute) => weekday <= 6 && hour <= 23 && minute <= 59
  }

  function Interval(s: Schedule): int
    requires s.Every? && Acceptable(s)
    ensures Interval(s) > 0
  {
    s.value * SecondsIn(s.unit)
  }

  function DayStart(t: int): int {
    t - t % Day
  }

  function Weekday(t: int): int {
    (t % Week) / Day
  }

  function Clock(s: Schedule): int
    requires s.Daily? || s.Weekly?
  {
    s.hour * 3600 + s.minute * 60
  }

  /** The times at which a schedule may fire; an interval counts from its base. */
  predicate Slot(s: Schedule, base: int, t: int)
    requires Acceptable(s)
  {
    match s
    case Every(_, _) => t > base && (t - base) % Interval(s) == 0
    case Daily(_, _) => t % Day == Clock(s)
    case Weekly(weekday, _, _) => t % Week == weekday * Day + Clock(s)
  }

  /** The interval a job counts from: its last run, or now. */
  function Base(reference: int, lastRun: Option<int>): int {
    if lastRun.Some? then lastRun.value else reference
  }

  /** Catching up: from the base in whole intervals until past the reference. */
  method NextInterval(interval: int, reference: int, base: int) returns (candidate: int, steps: nat)
    requires interval > 0
    ensures steps >= 1 && candidate == base + steps * interval
    ensures candidate > reference
    ensures forall j: nat | 1 <= j < steps :: base + j * interval <= reference
    ensures steps == if base + interval > reference then 1 else (reference - base) / interval + 1
  {
    candidate, steps := base + interval, 1;
    while candidate <= reference
      invariant steps >= 1 && candidate == base + steps * interval
      invariant forall j: nat | 1 <= j < steps :: base + j * interval <= reference
      invariant steps > 1 ==> base + interval <= reference
      decreases reference - candidate
    {
      OneMoreInterval(steps, interval);
      candidate := candidate + interval;
      steps := steps + 1;
    }
    if steps > 1 { ClosedForm(interval, reference - base, steps); }
  }

  lemma OneMoreInterval(steps: nat, interval: int)
    ensures (steps + 1) * interval == steps * interval + interval
  {}

  lemma ClosedForm(interval: int, distance: int, steps: nat)
    requires interval > 0 && steps > 1
    requires (steps - 1) * interval <= distance < steps * interval
    ensures steps == distance / interval + 1
  {
    var q := distance / interval;
    assert distance == q * interval + distance % interval;
    if q < steps - 1 {
      MultiplesAreOrdered(interval, q + 1, steps - 1);
      OneMoreIntervalInt(q, interval);
      assert false;
    }
    if q > steps - 1 {
      MultiplesAreOrdered(interval, steps, q);
      assert false;
    }
  }

  lemma OneMoreIntervalInt(q: int, interval: int)
    ensures (q + 1) * interval == q * interval + interval
  {}

  lemma MultiplesAreOrdered(interval: int, a: int, b: int)
    requires interval > 0 && a <= b
    ensures a * interval <= b * interval
  {}

  /** The candidate of the reference's own day, or the next day's. */
  function NextDaily(s: Schedule, reference: int): int
    requires s.Daily? && Acceptable(s)
  {
    var candidate := DayStart(reference) + Clock(s);
    if candidate <= reference then candidate + Day else candidate
  }

  /** Days ahead modulo seven, or a week later when that is already past. */
  function NextWeekly(s: Schedule, reference: int): int
    requires s.Weekly? && Acceptable(s)
  {
    var daysAhead := (s.weekday - Weekday(reference)) % 7;
    var candidate := DayStart(reference) + Clock(s) + daysAhead * Day;
    if candidate <= reference then candidate + Week else candidate
  }

  function IntervalSteps(interval: int, reference: int, base: int): int
    requires interval > 0
  {
    if base + interval > reference then 1 else (reference - base) / interval + 1
  }

  /** The next firing time after the reference. */
  function NextAfter(s: Schedule, reference: int, lastRun: Option<int>): int
    requires Acceptable(s)
  {
    match s
    case Every(_, _) =>
      var base := Base(reference, lastRun);
      base + IntervalSteps(Interval(s), reference, base) * Interval(s)
    case Daily(_, _) => NextDaily(s, reference)
    case Weekly(_, _, _) => NextWeekly(s, reference)
  }

  method ComputeNextAfter(s: Schedule, reference: int, lastRun: Option<int>) returns (next: int)
    requires Acceptable(s)
    ensures next == NextAfter(s, reference, lastRun)
  {
    if s.Every? {
      var steps;
      next, steps := NextInterval(Interval(s), reference, Base(reference, lastRun));
    } else if s.Daily? {
      next := reference - reference % Day + s.hour * 3600 + s.minute * 60;
      if next <= reference { next := next + Day; }
    } else {
      var daysAhead := (s.weekday - (reference % Week) / Day) % 7;
      next := reference - reference % Day + s.hour * 3600 + s.minute * 60 + daysAhead * Day;
      if next <= reference { next := next + Week; }
    }
  }

  // ------------------------------------------------------------ least next slot

  lemma DivModUnique(t: int, d: int, q: int, r: int)
    requires d > 0 && t == q * d + r && 0 <= r < d
    ensures t / d == q && t % d == r
  {
    var k := t / d - q;
    assert t == (t / d) * d + t % d;
    assert k * d == r - t % d;
    if k >= 1 { MultiplesAreOrdered(d, 1, k); assert false; }
    if k <= -1 { MultiplesAreOrdered(d, k, -1); assert false; }
  }

  /** `next` is the first slot strictly after the reference. */
  ghost predicate LeastSlotAfter(s: Schedule, base: int, reference: int, next: int)
    requires Acceptable(s)
  {
    next > reference && Slot(s, base, next) && forall t: int | reference < t < next :: !Slot(s, base, t)
  }

  /** Between the last multiple up to the reference and the next there is none. */
  lemma NoMultipleBetween(interval: int, base: int, reference: int, steps: int, t: int)
    requires interval > 0 && steps >= 1
    requires steps == 1 || base + (steps - 1) * interval <= reference
    requires base < t && reference < t < base + steps * interval
    ensures (t - base) % interval != 0
  {
    if (t - base) % interval == 0 {
      var k := (t - base) / interval;
      assert t - base == k * interval;
      if k >= steps {
        MultiplesAreOrdered(interval, steps, k);
      } else if k >= 1 {
        MultiplesAreOrdered(interval, k, steps - 1);
      } else {
        MultiplesAreOrdered(interval, k, 0);
      }
      assert false;
    }
  }

  lemma StepsReachPast(interval: int, base: int, reference: int)
    requires interval > 0
    ensures var steps := IntervalSteps(interval, reference, base);
            && steps >= 1 && base + steps * interval > reference && steps * interval >= interval
            && (steps == 1 || base + (steps - 1) * interval <= reference)
  {
    if base + interval <= reference {
      var q := (reference - base) / interval;
      assert reference - base == q * interval + (reference - base) % interval;
      OneMoreIntervalInt(q, interval);
      if q < 1 { MultiplesAreOrdered(interval, q, 0); assert false; }
      MultiplesAreOrdered(interval, 1, q + 1);
    }
  }

  lemma IntervalIsLeast(s: Schedule, reference: int, lastRun: Option<int>)
    requires s.Every? && Acceptable(s)
    ensures LeastSlotAfter(s, Base(reference, lastRun), reference, NextAfter(s, reference, lastRun))
  {
    var interval := Interval(s);
    var base := Base(reference, lastRun);
    var steps := IntervalSteps(interval, reference, base);
    StepsReachPast(interval, base, reference);
    DivModUnique(steps * interval, interval, steps, 0);
    forall t: int | reference < t < base + steps * interval ensures !Slot(s, base, t) {
      if t > base { NoMultipleBetween(interval, base, reference, steps, t); }
    }
  }

  /** Both calendar forms are one residue of one period. */
  lemma ResidueIsLeast(period: int, residue: int, reference: int, next: int)
    requires period > 0 && 0 <= residue < period
    requires next % period == residue && reference < next <= reference + period
    ensures forall t: int | reference < t < next :: t % period != residue
  {
    forall t: int | reference < t < next ensures t % period != residue {
      if t % period == residue {
        assert next == (next / period) * period + residue;
        assert t == (t / period) * period + residue;
        var k := next / period - t / period;
        assert k * period == next - t;
        if k >= 1 { MultiplesAreOrdered(period, 1, k); } else { MultiplesAreOrdered(period, k, 0); }
        assert false;
      }
    }
  }

  lemma DailyIsLeast(s: Schedule, base: int, reference: int)
    requires s.Daily? && Acceptable(s)
    ensures LeastSlotAfter(s, base, reference, NextDaily(s, reference))
    ensures NextDaily(s, reference) <= reference + Day
  {
    var next := NextDaily(s, reference);
    var d := reference / Day;
    assert reference == d * Day + reference % Day;
    DivModUnique(next, Day, if d * Day + Clock(s) <= reference then d + 1 else d, Clock(s));
    ResidueIsLeast(Day, Clock(s), reference, next);
  }

  lemma WeeklyIsLeast(s: Schedule, base: int, reference: int)
    requires s.Weekly? && Acceptable(s)
    ensures LeastSlotAfter(s, base, reference, NextWeekly(s, reference))
    ensures NextWeekly(s, reference) <= reference + Week
  {
    var next := NextWeekly(s, reference);
    var w := reference / Week;
    var inWeek := reference % Week;
    assert reference == w * Week + inWeek;
    var today := inWeek / Day;
    var inDay := inWeek % Day;
    assert inWeek == today * Day + inDay;
    DivModUnique(reference, Day, 7 * w + today, inDay);
    assert DayStart(reference) == w * Week + today * Day;
    assert 0 <= today <= 6;
    var ahead := (s.weekday - today) % 7;
    assert ahead == if s.weekday >= today then s.weekday - today else s.weekday - today + 7;
    var residue := s.weekday * Day + Clock(s);
    var candidate := w * Week + today * Day + Clock(s) + ahead * Day;
    assert candidate == (if s.weekday >= today then w else w + 1) * Week + residue;
    DivModUnique(next, Week,
                 (if s.weekday >= today then w else w + 1) + (if candidate <= reference then 1 else 0), residue);
    ResidueIsLeast(Week, residue, reference, next);
  }

  /** Whatever the schedule, the next firing time is the least slot strictly after the
      reference. */
  lemma NextAfterIsLeast(s: Schedule, reference: int, lastRun: Option<int>)
    requires Acceptable(s)
    ensures LeastSlotAfter(s, Base(reference, lastRun), reference, NextAfter(s, reference, lastRun))
  {
    match s
    case Every(_, _) => IntervalIsLeast(s, reference, lastRun);
    case Daily(_, _) => DailyIsLeast(s, Base(reference, lastRun), reference);
    case Weekly(_, _, _) => WeeklyIsLeast(s, Base(reference, lastRun), reference);
  }

  /** A later reference never gives an earlier calendar slot. */
  lemma CalendarIsMonotone(s: Schedule, a: int, b: int)
    requires Acceptable(s) && !s.Every? && a <= b
    ensures NextAfter(s, a, None) <= NextAfter(s, b, None)
  {
    NextAfterIsLeast(s, a, None);
    NextAfterIsLeast(s, b, None);
    assert Slot(s, b, NextAfter(s, b, None)) == Slot(s, a, NextAfter(s, b, None));
  }

  /** Firing again and again from each slot to the next. */
  function Firings(s: Schedule, from: int, n: nat): int
    requires Acceptable(s)
  {
    if n == 0 then from else NextAfter(s, Firings(s, from, n - 1), None)
  }

  /** Iterating enumerates every calendar slot: none between two firings is skipped,
      and any slot after the start is eventually fired. */
  lemma {:induction false} NoCalendarSlotIsSkipped(s: Schedule, from: int, t: int) returns (n: nat)
    requires Acceptable(s) && !s.Every? && Slot(s, from, t) && t > from
    ensures Firings(s, from, n) == t
    decreases t - from
  {
    NextAfterIsLeast(s, from, None);
    var next := NextAfter(s, from, None);
    if next == t {
      assert Firings(s, from, 0) == from;
      n := 1;
    } else {
      assert Slot(s, from, t) == Slot(s, next, t);
      var m := NoCalendarSlotIsSkipped(s, next, t);
      FiringsFromNext(s, from, m);
      n := m + 1;
    }
  }

  lemma {:induction false} FiringsFromNext(s: Schedule, from: int, n: nat)
    requires Acceptable(s)
    ensures Firings(s, from, n + 1) == Firings(s, NextAfter(s, from, None), n)
  {
    if n > 0 { FiringsFromNext(s, from, n - 1); }
  }
}
