/** When jobs fire: every plan is the least slot of its own schedule, on the clock of its
    own zone, over whole histories. */
module CronPlans {
  import opened Tables
  import opened Schedules
  import opened ScheduleText
  import opened CronJobs

  // ------------------------------------------------------------- clock terms

  /** The lengths of the units. */
  lemma UnitsAre()
    ensures UnitOf('s') == Some(Seconds) && UnitOf('m') == Some(Minutes)
    ensures UnitOf('h') == Some(Hours) && UnitOf('d') == Some(Days)
    ensures SecondsIn(Seconds) == 1 && SecondsIn(Minutes) == 60 && SecondsIn(Hours) == 60 * 60
    ensures SecondsIn(Days) == 24 * 60 * 60 == Day && Week == 7 * Day
  {}

  /** The names of the days, Monday first. */
  lemma DaysAre()
    ensures DayIndex("mon", 0) == Some(0) && DayIndex("tue", 0) == Some(1) && DayIndex("wed", 0) == Some(2)
    ensures DayIndex("thu", 0) == Some(3) && DayIndex("fri", 0) == Some(4) && DayIndex("sat", 0) == Some(5)
    ensures DayIndex("sun", 0) == Some(6)
  {
    assert DayNames == ["mon", "tue", "wed", "thu", "fri", "sat", "sun"];
    NamesDiffer();
    forall i: nat | i < 7 ensures DayIndex(DayNames[i], 0) == Some(i) { DayNameReadsBack(i); }
    assert DayNames[0] == "mon" && DayNames[1] == "tue" && DayNames[2] == "wed" && DayNames[3] == "thu";
    assert DayNames[4] == "fri" && DayNames[5] == "sat" && DayNames[6] == "sun";
  }

  /** A daily slot is the times that read its hour and minute on the clock, on the second. */
  lemma DailySlotReads(hour: nat, minute: nat, base: int, t: int)
    requires hour <= 23 && minute <= 59
    ensures Slot(Daily(hour, minute), base, t) <==>
              (t % 86400) / 3600 == hour && (t % 3600) / 60 == minute && t % 60 == 0
  {
    ClockReads(t % 86400, hour, minute);
    SameRemainder(t, 3600, 24);
    SameRemainder(t, 60, 1440);
  }

  /** A weekly slot is besides on its day of the week, counted from a Monday. */
  lemma WeeklySlotReads(weekday: nat, hour: nat, minute: nat, base: int, t: int)
    requires weekday <= 6 && hour <= 23 && minute <= 59
    ensures Slot(Weekly(weekday, hour, minute), base, t) <==>
              (t % 604800) / 86400 == weekday && (t % 86400) / 3600 == hour && (t % 3600) / 60 == minute && t % 60 == 0
  {
    var inWeek := t % 604800;
    SameRemainder(t, 86400, 7);
    DailySlotReads(hour, minute, base, t);
    if inWeek == weekday * 86400 + hour * 3600 + minute * 60 {
      DivModUnique(inWeek, 86400, weekday, hour * 3600 + minute * 60);
    }
    assert inWeek == (inWeek / 86400) * 86400 + inWeek % 86400;
  }

  /** An interval slot is a whole number of intervals, at least one, past its base. */
  lemma EverySlotReads(value: nat, unit: Unit, base: int, t: int)
    requires value > 0
    ensures Slot(Every(value, unit), base, t) <==>
              exists k: nat :: k >= 1 && t == base + k * (value * SecondsIn(unit))
  {
    var length := value * SecondsIn(unit);
    assert length == Interval(Every(value, unit));
    if t > base && (t - base) % length == 0 {
      var k := (t - base) / length;
      assert t - base == k * length;
      if k < 1 { MultiplesAreOrdered(length, k, 0); }
      assert t == base + k * length;
    }
    if k: nat :| k >= 1 && t == base + k * length {
      MultiplesAreOrdered(length, 1, k);
      DivModUnique(t - base, length, k, 0);
    }
  }

  lemma ClockReads(inDay: int, hour: nat, minute: nat)
    requires 0 <= inDay < 86400 && hour <= 23 && minute <= 59
    ensures inDay == hour * 3600 + minute * 60 <==>
              inDay / 3600 == hour && (inDay % 3600) / 60 == minute && inDay % 60 == 0
  {
    if inDay == hour * 3600 + minute * 60 {
      DivModUnique(inDay, 3600, hour, minute * 60);
      DivModUnique(minute * 60, 60, minute, 0);
      DivModUnique(inDay, 60, hour * 60 + minute, 0);
    }
    SameRemainder(inDay, 60, 60);
  }

  /** Taking a remainder in two steps. */
  lemma SameRemainder(t: int, small: int, times: int)
    requires small > 0 && times > 0
    ensures small * times > 0 && (t % (small * times)) % small == t % small
  {
    MultiplesAreOrdered(small, 1, times);
    var large := small * times;
    var q, rest := t / large, t % large;
    var k, r := rest / small, rest % small;
    assert rest == k * small + r && 0 <= r < small;
    assert t == q * large + rest;
    Regroup(q, small, times, k);
    DivModUnique(t, small, q * times + k, r);
  }

  lemma Regroup(q: int, small: int, times: int, k: int)
    ensures q * (small * times) + k * small == (q * times + k) * small
  {}

  // ------------------------------------------------------------------- plans

  /** `next` is the first time after `at` at which the text fires: an interval counts from
      `base`, a calendar schedule goes by the clock of its zone. */
  ghost predicate OnTime(zones: map<string, int>, text: string, zone: string, base: int, at: int, next: int) {
    && ParseSchedule(text).Some? && Acceptable(ParseSchedule(text).value)
    && var s := ParseSchedule(text).value;
       if s.Every? then LeastSlotAfter(s, base, at, next)
       else zone in zones && LeastSlotAfter(s, base, at + zones[zone], next + zones[zone])
  }

  /** Whenever there is a next run, it is on time. */
  lemma NextRunIsOnTime(zones: map<string, int>, text: string, zone: string, reference: int, lastRun: Option<int>)
    requires NextRun(zones, text, zone, reference, lastRun).Some?
    ensures OnTime(zones, text, zone, if lastRun.Some? then lastRun.value else reference, reference,
                   NextRun(zones, text, zone, reference, lastRun).value)
  {
    var s := Parse(zones, text, zone).value;
    ParsedIsAcceptable(text);
    NextAfterIsLeast(s, reference, lastRun);
    if zone in zones {
      NextAfterIsLeast(s, reference + zones[zone], lastRun);
      if !s.Every? {
        BaseIsForIntervals(s, Base(reference + zones[zone], lastRun), Base(reference, lastRun),
                           reference + zones[zone], NextAfter(s, reference + zones[zone], lastRun));
      }
    }
  }

  lemma BaseIsForIntervals(s: Schedule, a: int, b: int, reference: int, next: int)
    requires Acceptable(s) && !s.Every? && LeastSlotAfter(s, a, reference, next)
    ensures LeastSlotAfter(s, b, reference, next)
  {
    forall t: int | reference < t < next ensures !Slot(s, b, t) { assert !Slot(s, a, t); }
  }

  /** The stored form of a text is on time exactly when the text is. */
  lemma StoredFormIsOnTime(zones: map<string, int>, text: string, zone: string, base: int, at: int, next: int)
    ensures OnTime(zones, Normalized(text), zone, base, at, next) <==> OnTime(zones, text, zone, base, at, next)
  {
    StoredTextParses(text);
  }

  /** The plan of a job, made at some moment: the next slot of its own schedule after that
      moment, an interval counting from its last run. */
  ghost predicate PlannedAt(zones: map<string, int>, job: CronJob, at: int) {
    && job.nextRun.Some?
    && OnTime(zones, job.schedule, job.zone, if job.lastRun.Some? then job.lastRun.value else at, at, job.nextRun.value)
  }

  /** A job that is active has its plan from some moment up to now. */
  ghost predicate JobPlanned(c: Cron, job: CronJob) {
    job.status == JobActive ==> exists at: int :: at <= c.now && PlannedAt(c.zones, job, at)
  }

  ghost predicate PlansOnTime(c: Cron) {
    forall j: nat | j < |c.jobs| :: JobPlanned(c, c.jobs[j])
  }

  lemma NewPlan(c: Cron, job: CronJob, text: string, lastRun: Option<int>)
    requires job.nextRun.Some? && job.nextRun == NextRun(c.zones, text, job.zone, c.now, lastRun)
    requires job.schedule == text || job.schedule == Normalized(text)
    requires job.lastRun == lastRun
    ensures PlannedAt(c.zones, job, c.now) && JobPlanned(c, job)
  {
    NextRunIsOnTime(c.zones, text, job.zone, c.now, lastRun);
    StoredFormIsOnTime(c.zones, text, job.zone, if lastRun.Some? then lastRun.value else c.now, c.now,
                       job.nextRun.value);
    assert PlannedAt(c.zones, job, c.now);
  }

  lemma PlansKept(c: Cron, d: Cron)
    requires PlansOnTime(c) && c.zones == d.zones && c.now <= d.now
    requires forall j: nat | j < |d.jobs| :: (j < |c.jobs| && d.jobs[j] == c.jobs[j]) || JobPlanned(d, d.jobs[j])
    ensures PlansOnTime(d)
  {
    forall j: nat | j < |d.jobs| ensures JobPlanned(d, d.jobs[j]) {
      if j < |c.jobs| && d.jobs[j] == c.jobs[j] { assert JobPlanned(c, c.jobs[j]); }
    }
  }

  lemma CreateKeepsPlans(c: Cron, text: string, zone: string)
    requires PlansOnTime(c)
    ensures PlansOnTime(Create(c, text, zone))
  {
    var d := Create(c, text, zone);
    if d != c { NewPlan(c, d.jobs[|c.jobs|], text, None); }
    PlansKept(c, d);
  }

  lemma UpdateKeepsPlans(c: Cron, j: nat, newText: Option<string>, newZone: Option<string>)
    requires PlansOnTime(c)
    ensures PlansOnTime(Update(c, j, newText, newZone))
  {
    if Found(c, j) && UpdatedJob(c, j, newText, newZone).Some? {
      var job := UpdatedJob(c, j, newText, newZone).value;
      var text := if newText.Some? then Normalized(newText.value) else c.jobs[j].schedule;
      if job.status == JobActive { NewPlan(c, job, text, job.lastRun); }
      assert JobPlanned(c, job);
      PlansKept(c, Update(c, j, newText, newZone));
    }
  }

  lemma ActivateKeepsPlans(c: Cron, j: nat)
    requires PlansOnTime(c)
    ensures PlansOnTime(Activate(c, j))
  {
    if Found(c, j) && NextRun(c.zones, c.jobs[j].schedule, c.jobs[j].zone, c.now, c.jobs[j].lastRun).Some? {
      var d := Activate(c, j);
      NewPlan(c, d.jobs[j], d.jobs[j].schedule, d.jobs[j].lastRun);
    }
    PlansKept(c, Activate(c, j));
  }

  lemma RepairKeepsPlans(c: Cron)
    requires Sound(c) && PlansOnTime(c)
    ensures PlansOnTime(Repair(c))
  {
    RepairChangesNothing(c);
  }

  lemma FinishKeepsPlans(c: Cron, a: nat, ok: bool)
    requires Sound(c) && PlansOnTime(c) && Resolves(c, a)
    ensures PlansOnTime(Finished(c, a, ok))
    ensures JobOf(c, a).Some? ==>
              var d := Finished(c, a, ok);
              var j := JobOf(c, a).value;
              && d.jobs[j].lastRun == Some(c.now) && PlannedAt(c.zones, d.jobs[j], c.now)
              && d.jobs[j].schedule == c.jobs[j].schedule && d.jobs[j].zone == c.jobs[j].zone
  {
    var d := Finished(c, a, ok);
    if JobOf(c, a).Some? {
      var j := JobOf(c, a).value;
      assert JobSound(c.zones, c.jobs[j]);
      NextRunIsLater(c.zones, c.jobs[j].schedule, c.jobs[j].zone, c.now, Some(c.now));
      NewPlan(c, d.jobs[j], d.jobs[j].schedule, Some(c.now));
    }
    PlansKept(c, d);
  }

  lemma ApplyKeepsPlans(c: Cron, op: Op)
    requires Sound(c) && PlansOnTime(c)
    ensures PlansOnTime(Apply(c, op))
  {
    match op
    case CreateJob(text, zone) => CreateKeepsPlans(c, text, zone);
    case UpdateJob(j, text, zone) => UpdateKeepsPlans(c, j, text, zone);
    case ActivateJob(j) => ActivateKeepsPlans(c, j);
    case RepairSchedules => RepairKeepsPlans(c);
    case Finish(a, ok) => if Resolves(c, a) { FinishKeepsPlans(c, a, ok); }
    case _ => PlansKept(c, Apply(c, op));
  }

  /** Over any history the plan of every active job is the least slot of its own schedule,
      by the clock of its own zone, after the moment it was made. */
  lemma {:induction false} HistoryKeepsPlans(c: Cron, ops: seq<Op>)
    requires Sound(c) && PlansOnTime(c)
    ensures PlansOnTime(Replay(c, ops))
    decreases |ops|
  {
    if |ops| > 0 {
      ApplyKeepsPlans(c, ops[0]);
      ApplyKeepsSound(c, ops[0]);
      HistoryKeepsPlans(Apply(c, ops[0]), ops[1..]);
    }
  }
}
