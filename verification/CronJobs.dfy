/** Cron jobs with their tasks and attempts, and every step that can change them: the
    user's edits, the scheduler's tick and the heartbeat, in any interleaving. */
module CronJobs {
  import opened Tables
  import opened Schedules
  import opened ScheduleText

  datatype JobStatus = JobActive | JobPaused | JobRemoved

  datatype CronJob = CronJob(
    status: JobStatus, schedule: string, zone: string, lastRun: Option<int>, nextRun: Option<int>)

  datatype Progress = Idle | Underway | Succeeded | Faulted

  /** The task of a cron job, or of the heartbeat when it has no job. */
  datatype JobTask = JobTask(job: Option<nat>, progress: Progress)

  datatype Attempt = Attempt(
    task: nat, number: nat, progress: Progress, startedAt: int, finishedAt: Option<int>)

  /** `zones` are the time zones that exist, each with its offset from UTC. */
  datatype Cron = Cron(
    zones: map<string, int>, jobs: seq<CronJob>, tasks: seq<JobTask>, attempts: seq<Attempt>, now: int)

  datatype Op =
    | CreateJob(text: string, zone: string)
    | UpdateJob(job: nat, newText: Option<string>, newZone: Option<string>)
    | PauseJob(job: nat)
    | ActivateJob(job: nat)
    | RemoveJob(job: nat)
    | RepairSchedules
    | Begin(owner: Option<nat>)
    | Finish(attempt: nat, ok: bool)
    | Sweep(staleAfter: nat)
    | Elapse(ticks: nat)

  // ---------------------------------------------------------------- schedules

  /** Only calendar schedules have their time zone checked. */
  function Parse(zones: map<string, int>, text: string, zone: string): Option<Schedule> {
    var parsed := ParseSchedule(text);
    if parsed.Some? && !parsed.value.Every? && zone !in zones then None else parsed
  }

  /** The next firing time on the UTC time line. */
  function NextIn(zones: map<string, int>, s: Schedule, zone: string, reference: int, lastRun: Option<int>): int
    requires Acceptable(s)
  {
    if s.Every? || zone !in zones then NextAfter(s, reference, lastRun)
    else NextAfter(s, reference + zones[zone], lastRun) - zones[zone]
  }

  function NextRun(zones: map<string, int>, text: string, zone: string, reference: int,
      lastRun: Option<int>): Option<int>
  {
    var parsed := Parse(zones, text, zone);
    if parsed.None? then None
    else
      assert Acceptable(parsed.value) by { ParsedIsAcceptable(text); }
      Some(NextIn(zones, parsed.value, zone, reference, lastRun))
  }

  /** A next run exists exactly for a schedule that parses, and lies in the future. */
  lemma NextRunIsLater(zones: map<string, int>, text: string, zone: string, reference: int, lastRun: Option<int>)
    ensures NextRun(zones, text, zone, reference, lastRun).Some? <==> Parse(zones, text, zone).Some?
    ensures NextRun(zones, text, zone, reference, lastRun).Some? ==>
              NextRun(zones, text, zone, reference, lastRun).value > reference
  {
    if Parse(zones, text, zone).Some? {
      var s := Parse(zones, text, zone).value;
      ParsedIsAcceptable(text);
      NextAfterIsLeast(s, reference, lastRun);
      if zone in zones { NextAfterIsLeast(s, reference + zones[zone], lastRun); }
    }
  }

  /** The stored form of a schedule has the same next runs. */
  lemma StoredFormIsTheSame(zones: map<string, int>, text: string, zone: string, reference: int, lastRun: Option<int>)
    ensures Parse(zones, Normalized(text), zone) == Parse(zones, text, zone)
    ensures NextRun(zones, Normalized(text), zone, reference, lastRun) == NextRun(zones, text, zone, reference, lastRun)
  {
    StoredTextParses(text);
  }

  // -------------------------------------------------------------------- steps

  /** The first task of an owner, or the number of tasks. */
  function FindTask(tasks: seq<JobTask>, owner: Option<nat>): (t: nat)
    ensures t <= |tasks|
    ensures t < |tasks| ==> tasks[t].job == owner
    ensures forall i: nat | i < t :: tasks[i].job != owner
  {
    if |tasks| == 0 then 0
    else
      var earlier := FindTask(tasks[..|tasks|-1], owner);
      assert forall i: nat | i < |tasks| - 1 :: tasks[..|tasks|-1][i] == tasks[i];
      if earlier < |tasks| - 1 || tasks[|tasks|-1].job == owner then earlier else |tasks|
  }

  function WithTask(c: Cron, owner: Option<nat>): Cron {
    if FindTask(c.tasks, owner) < |c.tasks| then c else c.(tasks := c.tasks + [JobTask(owner, Idle)])
  }

  /** How many attempts a task has. */
  function AttemptsOf(attempts: seq<Attempt>, t: nat): nat {
    if |attempts| == 0 then 0
    else AttemptsOf(attempts[..|attempts|-1], t) + (if attempts[|attempts|-1].task == t then 1 else 0)
  }

  function Create(c: Cron, text: string, zone: string): Cron {
    var next := NextRun(c.zones, text, zone, c.now, None);
    if next.None? then c
    else WithTask(c.(jobs := c.jobs + [CronJob(JobActive, Normalized(text), zone, None, next)]), Some(|c.jobs|))
  }

  /** A removed job is not found any more. */
  predicate Found(c: Cron, j: nat) {
    j < |c.jobs| && c.jobs[j].status != JobRemoved
  }

  function UpdatedJob(c: Cron, j: nat, newText: Option<string>, newZone: Option<string>): Option<CronJob>
    requires j < |c.jobs|
  {
    var job := c.jobs[j];
    var text := if newText.Some? then Normalized(newText.value) else job.schedule;
    var zone := if newZone.Some? then newZone.value else job.zone;
    var next := NextRun(c.zones, text, zone, c.now, job.lastRun);
    if next.None? then None
    else Some(job.(schedule := Normalized(text), zone := zone,
                   nextRun := if job.status == JobActive then next else job.nextRun))
  }

  function Update(c: Cron, j: nat, newText: Option<string>, newZone: Option<string>): Cron {
    if !Found(c, j) || UpdatedJob(c, j, newText, newZone).None? then c
    else WithTask(c.(jobs := c.jobs[j := UpdatedJob(c, j, newText, newZone).value]), Some(j))
  }

  function Activate(c: Cron, j: nat): Cron {
    if !Found(c, j) then c
    else
      var next := NextRun(c.zones, c.jobs[j].schedule, c.jobs[j].zone, c.now, c.jobs[j].lastRun);
      if next.None? then c else c.(jobs := c.jobs[j := c.jobs[j].(status := JobActive, nextRun := next)])
  }

  function Repaired(zones: map<string, int>, now: int, job: CronJob): CronJob {
    if job.status == JobActive && job.nextRun.None?
    then job.(nextRun := NextRun(zones, job.schedule, job.zone, now, job.lastRun))
    else job
  }

  function Repair(c: Cron): Cron {
    c.(jobs := seq(|c.jobs|, j requires 0 <= j < |c.jobs| => Repaired(c.zones, c.now, c.jobs[j])))
  }

  /** A new attempt with the given number. */
  function StartedAs(c: Cron, t: nat, number: nat): Cron
    requires t < |c.tasks|
  {
    c.(tasks := c.tasks[t := c.tasks[t].(progress := Underway)],
       attempts := c.attempts + [Attempt(t, number, Underway, c.now, None)])
  }

  function Started(c: Cron, t: nat): Cron
    requires t < |c.tasks|
  {
    StartedAs(c, t, AttemptsOf(c.attempts, t) + 1)
  }

  function Start(c: Cron, owner: Option<nat>): Cron {
    if owner.Some? && owner.value >= |c.jobs| then c
    else
      var d := WithTask(c, owner);
      Started(d, FindTask(d.tasks, owner))
  }

  function Closed(c: Cron, a: nat, ok: bool): Cron
    requires a < |c.attempts| && c.attempts[a].task < |c.tasks|
  {
    var end := if ok then Succeeded else Faulted;
    c.(attempts := c.attempts[a := c.attempts[a].(progress := end, finishedAt := Some(c.now))],
       tasks := c.tasks[c.attempts[a].task := c.tasks[c.attempts[a].task].(progress := end)])
  }

  predicate Resolves(c: Cron, a: nat) {
    && a < |c.attempts| && c.attempts[a].task < |c.tasks|
    && (c.tasks[c.attempts[a].task].job.Some? ==> c.tasks[c.attempts[a].task].job.value < |c.jobs|)
  }

  /** The job an attempt works for. */
  function JobOf(c: Cron, a: nat): Option<nat>
    requires Resolves(c, a)
  {
    c.tasks[c.attempts[a].task].job
  }

  /** The end of an attempt; that of a cron job reschedules it, whatever its status. */
  function Finished(c: Cron, a: nat, ok: bool): Cron
    requires Resolves(c, a)
  {
    if JobOf(c, a).None? then Closed(c, a, ok)
    else
      var j := JobOf(c, a).value;
      var next := NextRun(c.zones, c.jobs[j].schedule, c.jobs[j].zone, c.now, Some(c.now));
      if next.None? then Closed(c, a, false)
      else Closed(c, a, ok).(jobs := c.jobs[j := c.jobs[j].(lastRun := Some(c.now), nextRun := next)])
  }

  predicate Stale(a: Attempt, cutoff: int) {
    a.progress == Underway && a.startedAt <= cutoff
  }

  predicate HasStale(attempts: seq<Attempt>, cutoff: int, t: nat) {
    exists a: nat :: a < |attempts| && Stale(attempts[a], cutoff) && attempts[a].task == t
  }

  /** Attempts that have been under way for too long are given up. */
  function Swept(c: Cron, cutoff: int): Cron {
    c.(attempts := seq(|c.attempts|, a requires 0 <= a < |c.attempts| =>
                     if Stale(c.attempts[a], cutoff)
                     then c.attempts[a].(progress := Faulted, finishedAt := Some(c.now)) else c.attempts[a]),
       tasks := seq(|c.tasks|, t requires 0 <= t < |c.tasks| =>
                  if HasStale(c.attempts, cutoff, t) then c.tasks[t].(progress := Faulted) else c.tasks[t]))
  }

  function Apply(c: Cron, op: Op): Cron {
    match op
    case CreateJob(text, zone) => Create(c, text, zone)
    case UpdateJob(j, text, zone) => Update(c, j, text, zone)
    case PauseJob(j) =>
      if Found(c, j) then c.(jobs := c.jobs[j := c.jobs[j].(status := JobPaused, nextRun := None)]) else c
    case ActivateJob(j) => Activate(c, j)
    case RemoveJob(j) =>
      if Found(c, j) then c.(jobs := c.jobs[j := c.jobs[j].(status := JobRemoved, nextRun := None)]) else c
    case RepairSchedules => Repair(c)
    case Begin(owner) => Start(c, owner)
    case Finish(a, ok) => if Resolves(c, a) then Finished(c, a, ok) else c
    case Sweep(staleAfter) => Swept(c, c.now - staleAfter)
    case Elapse(ticks) => c.(now := c.now + ticks)
  }

  function Replay(c: Cron, ops: seq<Op>): Cron
    decreases |ops|
  {
    if |ops| == 0 then c else Replay(Apply(c, ops[0]), ops[1..])
  }

  // --------------------------------------------------------------- invariants

  /** Each job is as a parse left it, and an active one has a next run. */
  ghost predicate JobSound(zones: map<string, int>, job: CronJob) {
    && Normalized(job.schedule) == job.schedule && Parse(zones, job.schedule, job.zone).Some?
    && (job.status == JobActive ==> job.nextRun.Some?)
  }

  ghost predicate JobsSound(c: Cron) {
    forall j: nat | j < |c.jobs| :: JobSound(c.zones, c.jobs[j])
  }

  /** At most one task an owner, and every owner exists. */
  ghost predicate TasksSound(c: Cron) {
    && (forall t: nat | t < |c.tasks| && c.tasks[t].job.Some? :: c.tasks[t].job.value < |c.jobs|)
    && (forall t: nat, u: nat | t < u < |c.tasks| :: c.tasks[t].job != c.tasks[u].job)
  }

  /** Each attempt is numbered one more than its task's earlier ones, and has a finish
      time exactly when it is no longer under way. */
  ghost predicate AttemptSound(c: Cron, a: nat)
    requires a < |c.attempts|
  {
    var x := c.attempts[a];
    && x.task < |c.tasks|
    && x.number == AttemptsOf(c.attempts[..a], x.task) + 1
    && x.progress != Idle && (x.finishedAt.Some? <==> x.progress != Underway)
    && x.startedAt <= c.now && (x.finishedAt.Some? ==> x.startedAt <= x.finishedAt.value <= c.now)
  }

  ghost predicate AttemptsSound(c: Cron) {
    forall a: nat | a < |c.attempts| :: AttemptSound(c, a)
  }

  ghost predicate Sound(c: Cron) {
    JobsSound(c) && TasksSound(c) && AttemptsSound(c)
  }

  /** A next run is planned for the active jobs and for no others. */
  ghost predicate Scheduled(c: Cron) {
    forall j: nat | j < |c.jobs| :: c.jobs[j].nextRun.Some? <==> c.jobs[j].status == JobActive
  }

  predicate Due(c: Cron, j: nat, t: int) {
    j < |c.jobs| && c.jobs[j].status == JobActive && c.jobs[j].nextRun.Some? && c.jobs[j].nextRun.value <= t
  }

  lemma UpdatedJobIsSound(c: Cron, j: nat, newText: Option<string>, newZone: Option<string>)
    requires JobsSound(c) && Found(c, j) && UpdatedJob(c, j, newText, newZone).Some?
    ensures JobSound(c.zones, UpdatedJob(c, j, newText, newZone).value)
    ensures UpdatedJob(c, j, newText, newZone).value.status == c.jobs[j].status
    ensures c.jobs[j].status == JobActive ==> UpdatedJob(c, j, newText, newZone).value.nextRun.value > c.now
  {
    var text := if newText.Some? then Normalized(newText.value) else c.jobs[j].schedule;
    var zone := if newZone.Some? then newZone.value else c.jobs[j].zone;
    NextRunIsLater(c.zones, text, zone, c.now, c.jobs[j].lastRun);
    StoredFormIsTheSame(c.zones, text, zone, c.now, c.jobs[j].lastRun);
    StoredTextParses(text);
  }

  lemma {:induction false} AttemptsIgnoreProgress(a: seq<Attempt>, b: seq<Attempt>, t: nat)
    requires |a| == |b| && forall i: nat | i < |a| :: a[i].task == b[i].task
    ensures AttemptsOf(a, t) == AttemptsOf(b, t)
  {
    if |a| > 0 { AttemptsIgnoreProgress(a[..|a|-1], b[..|b|-1], t); }
  }

  /** Ending attempts, in whatever way, keeps their numbers right. */
  lemma EndingKeepsAttempts(c: Cron, d: Cron)
    requires AttemptsSound(c) && |c.attempts| == |d.attempts| && |c.tasks| == |d.tasks| && c.now == d.now
    requires forall a: nat | a < |c.attempts| ::
               d.attempts[a] == c.attempts[a]
               || (d.attempts[a].progress in {Succeeded, Faulted}
                   && d.attempts[a] == c.attempts[a].(progress := d.attempts[a].progress, finishedAt := Some(c.now)))
    ensures AttemptsSound(d)
  {
    forall a: nat | a < |d.attempts| ensures AttemptSound(d, a) {
      assert AttemptSound(c, a);
      AttemptsIgnoreProgress(c.attempts[..a], d.attempts[..a], d.attempts[a].task);
    }
  }

  lemma StartKeepsSound(c: Cron, owner: Option<nat>)
    requires Sound(c)
    ensures Sound(Start(c, owner))
  {
    if !(owner.Some? && owner.value >= |c.jobs|) {
      TaskKeepsSound(c, owner);
      var d := WithTask(c, owner);
      StartedKeepsAttempts(d, FindTask(d.tasks, owner));
    }
  }

  lemma StartedKeepsAttempts(c: Cron, t: nat)
    requires AttemptsSound(c) && t < |c.tasks|
    ensures AttemptsSound(Started(c, t))
  {
    var d := Started(c, t);
    forall a: nat | a < |d.attempts| ensures AttemptSound(d, a) {
      if a < |c.attempts| {
        assert AttemptSound(c, a);
        assert d.attempts[..a] == c.attempts[..a];
      } else {
        assert d.attempts[..a] == c.attempts;
      }
    }
  }

  lemma FinishKeepsSound(c: Cron, a: nat, ok: bool)
    requires Sound(c) && a < |c.attempts|
    ensures Resolves(c, a) && Sound(Finished(c, a, ok))
    ensures JobOf(c, a).Some? ==>
              var j := JobOf(c, a).value;
              && Finished(c, a, ok).jobs[j].nextRun.Some? && Finished(c, a, ok).jobs[j].nextRun.value > c.now
              && Finished(c, a, ok).jobs ==
                   c.jobs[j := c.jobs[j].(lastRun := Some(c.now), nextRun := Finished(c, a, ok).jobs[j].nextRun)]
  {
    assert AttemptSound(c, a);
    var d := Finished(c, a, ok);
    if JobOf(c, a).Some? {
      var j := JobOf(c, a).value;
      assert JobSound(c.zones, c.jobs[j]);
      NextRunIsLater(c.zones, c.jobs[j].schedule, c.jobs[j].zone, c.now, Some(c.now));
    }
    EndingKeepsAttempts(c, d);
    assert TasksSound(d);
    forall j: nat | j < |d.jobs| ensures JobSound(d.zones, d.jobs[j]) { assert JobSound(c.zones, c.jobs[j]); }
  }

  lemma TaskKeepsSound(c: Cron, owner: Option<nat>)
    requires Sound(c) && (owner.Some? ==> owner.value < |c.jobs|)
    ensures Sound(WithTask(c, owner))
  {
    var d := WithTask(c, owner);
    forall a: nat | a < |d.attempts| ensures AttemptSound(d, a) { assert AttemptSound(c, a); }
  }

  lemma JobsKeepSound(c: Cron, jobs: seq<CronJob>)
    requires Sound(c) && |jobs| >= |c.jobs|
    requires forall j: nat | j < |jobs| :: JobSound(c.zones, jobs[j])
    ensures Sound(c.(jobs := jobs))
  {
    var d := c.(jobs := jobs);
    forall a: nat | a < |d.attempts| ensures AttemptSound(d, a) { assert AttemptSound(c, a); }
  }

  lemma CreateKeepsSound(c: Cron, text: string, zone: string)
    requires Sound(c)
    ensures Sound(Create(c, text, zone))
    ensures |Create(c, text, zone).jobs| > |c.jobs| ==>
              var job := Create(c, text, zone).jobs[|c.jobs|];
              job.status == JobActive && job.nextRun.Some? && job.nextRun.value > c.now
  {
    NextRunIsLater(c.zones, text, zone, c.now, None);
    StoredFormIsTheSame(c.zones, text, zone, c.now, None);
    StoredTextParses(text);
    var next := NextRun(c.zones, text, zone, c.now, None);
    if next.Some? {
      var jobs := c.jobs + [CronJob(JobActive, Normalized(text), zone, None, next)];
      assert JobSound(c.zones, jobs[|c.jobs|]);
      JobsKeepSound(c, jobs);
      TaskKeepsSound(c.(jobs := jobs), Some(|c.jobs|));
    }
  }

  lemma UpdateKeepsSound(c: Cron, j: nat, newText: Option<string>, newZone: Option<string>)
    requires Sound(c)
    ensures Sound(Update(c, j, newText, newZone))
  {
    if Found(c, j) && UpdatedJob(c, j, newText, newZone).Some? {
      UpdatedJobIsSound(c, j, newText, newZone);
      var jobs := c.jobs[j := UpdatedJob(c, j, newText, newZone).value];
      JobsKeepSound(c, jobs);
      TaskKeepsSound(c.(jobs := jobs), Some(j));
    }
  }

  lemma ActivateKeepsSound(c: Cron, j: nat)
    requires Sound(c)
    ensures Sound(Activate(c, j))
    ensures Found(c, j) ==> Activate(c, j).jobs[j].nextRun.Some? && Activate(c, j).jobs[j].nextRun.value > c.now
                            && Activate(c, j).jobs[j].status == JobActive
  {
    if Found(c, j) {
      assert JobSound(c.zones, c.jobs[j]);
      NextRunIsLater(c.zones, c.jobs[j].schedule, c.jobs[j].zone, c.now, c.jobs[j].lastRun);
      JobsKeepSound(c, Activate(c, j).jobs);
    }
  }

  lemma SweepKeepsSound(c: Cron, cutoff: int)
    requires Sound(c)
    ensures Sound(Swept(c, cutoff))
  {
    EndingKeepsAttempts(c, Swept(c, cutoff));
  }

  /** Stored schedules always parse, active jobs always have a next run, each owner has
      one task and the attempts of a task stay numbered: every step keeps it. */
  lemma ApplyKeepsSound(c: Cron, op: Op)
    requires Sound(c)
    ensures Sound(Apply(c, op))
  {
    match op
    case CreateJob(text, zone) => CreateKeepsSound(c, text, zone);
    case UpdateJob(j, text, zone) => UpdateKeepsSound(c, j, text, zone);
    case PauseJob(j) => if Found(c, j) { JobsKeepSound(c, Apply(c, op).jobs); }
    case ActivateJob(j) => ActivateKeepsSound(c, j);
    case RemoveJob(j) => if Found(c, j) { JobsKeepSound(c, Apply(c, op).jobs); }
    case RepairSchedules => JobsKeepSound(c, Repair(c).jobs);
    case Begin(owner) => StartKeepsSound(c, owner);
    case Finish(a, ok) => if Resolves(c, a) { FinishKeepsSound(c, a, ok); }
    case Sweep(staleAfter) => SweepKeepsSound(c, c.now - staleAfter);
    case Elapse(ticks) =>
      forall a: nat | a < |c.attempts| ensures AttemptSound(Apply(c, op), a) { assert AttemptSound(c, a); }
  }

  lemma {:induction false} HistoryKeepsSound(c: Cron, ops: seq<Op>)
    requires Sound(c)
    ensures Sound(Replay(c, ops)) && Replay(c, ops).now >= c.now
    decreases |ops|
  {
    if |ops| > 0 {
      ApplyKeepsSound(c, ops[0]);
      HistoryKeepsSound(Apply(c, ops[0]), ops[1..]);
    }
  }

  /** The attempt numbers of a task, oldest first. */
  function NumbersOf(attempts: seq<Attempt>, t: nat): seq<nat> {
    if |attempts| == 0 then []
    else
      var earlier := NumbersOf(attempts[..|attempts|-1], t);
      if attempts[|attempts|-1].task == t then earlier + [attempts[|attempts|-1].number] else earlier
  }

  lemma {:induction false} NumbersCount(attempts: seq<Attempt>, t: nat)
    requires forall a: nat | a < |attempts| :: attempts[a].number == AttemptsOf(attempts[..a], attempts[a].task) + 1
    ensures NumbersOf(attempts, t) == seq(AttemptsOf(attempts, t), i => i + 1)
  {
    if |attempts| > 0 {
      var front := attempts[..|attempts|-1];
      forall a: nat | a < |front| ensures front[a].number == AttemptsOf(front[..a], front[a].task) + 1 {
        assert front[..a] == attempts[..a];
      }
      NumbersCount(front, t);
    }
  }

  /** After any history, the attempts of each task are exactly 1 to n. */
  lemma AttemptsAreOneToN(c: Cron, ops: seq<Op>, t: nat)
    requires Sound(c)
    ensures var d := Replay(c, ops);
            NumbersOf(d.attempts, t) == seq(AttemptsOf(d.attempts, t), i => i + 1)
  {
    HistoryKeepsSound(c, ops);
    var d := Replay(c, ops);
    forall a: nat | a < |d.attempts|
      ensures d.attempts[a].number == AttemptsOf(d.attempts[..a], d.attempts[a].task) + 1
    {
      assert AttemptSound(d, a);
    }
    NumbersCount(d.attempts, t);
  }

  // ------------------------------------------------------- planned iff active

  /** An attempt that ends finds its job still active. */
  predicate Steady(c: Cron, op: Op) {
    op.Finish? && Resolves(c, op.attempt) && JobOf(c, op.attempt).Some? ==>
      c.jobs[JobOf(c, op.attempt).value].status == JobActive
  }

  /** A job whose plan is as it was, or in the future for an active job and gone for
      any other. */
  predicate Replanned(c: Cron, j: nat, job: CronJob) {
    || (j < |c.jobs| && job.status == c.jobs[j].status && job.nextRun == c.jobs[j].nextRun)
    || (if job.status == JobActive then job.nextRun.Some? && job.nextRun.value > c.now else job.nextRun.None?)
  }

  ghost predicate AllReplanned(c: Cron, d: Cron) {
    |d.jobs| >= |c.jobs| && forall j: nat | j < |d.jobs| :: Replanned(c, j, d.jobs[j])
  }

  lemma StepReplans(c: Cron, op: Op)
    requires Sound(c) && !op.Finish?
    ensures AllReplanned(c, Apply(c, op))
  {
    match op
    case CreateJob(text, zone) => CreateReplans(c, text, zone);
    case UpdateJob(j, text, zone) => UpdateReplans(c, j, text, zone);
    case PauseJob(j) => if Found(c, j) { JobReplans(c, j, c.jobs[j].(status := JobPaused, nextRun := None)); }
    case ActivateJob(j) => ActivateReplans(c, j);
    case RemoveJob(j) => if Found(c, j) { JobReplans(c, j, c.jobs[j].(status := JobRemoved, nextRun := None)); }
    case RepairSchedules => RepairChangesNothing(c);
    case Begin(owner) => assert Start(c, owner).jobs == c.jobs;
    case Sweep(_) =>
    case Elapse(_) =>
  }

  lemma CreateReplans(c: Cron, text: string, zone: string)
    requires Sound(c)
    ensures AllReplanned(c, Create(c, text, zone))
  {
    CreateKeepsSound(c, text, zone);
  }

  lemma UpdateReplans(c: Cron, j: nat, text: Option<string>, zone: Option<string>)
    requires Sound(c)
    ensures AllReplanned(c, Update(c, j, text, zone))
  {
    if Found(c, j) && UpdatedJob(c, j, text, zone).Some? {
      UpdatedJobReplans(c, j, text, zone);
      JobReplans(c, j, UpdatedJob(c, j, text, zone).value);
    }
  }

  lemma UpdatedJobReplans(c: Cron, j: nat, text: Option<string>, zone: Option<string>)
    requires Sound(c) && Found(c, j) && UpdatedJob(c, j, text, zone).Some?
    ensures Replanned(c, j, UpdatedJob(c, j, text, zone).value)
  {
    UpdatedJobIsSound(c, j, text, zone);
  }

  lemma JobReplans(c: Cron, j: nat, job: CronJob)
    requires j < |c.jobs| && Replanned(c, j, job)
    ensures AllReplanned(c, c.(jobs := c.jobs[j := job]))
  {}

  lemma ActivateReplans(c: Cron, j: nat)
    requires Sound(c)
    ensures AllReplanned(c, Activate(c, j))
  {
    ActivateKeepsSound(c, j);
  }

  /** Every step keeps "planned exactly when active", except the end of an attempt
      whose job was paused or removed meanwhile, which always breaks it. */
  lemma ScheduledKeptExactly(c: Cron, op: Op)
    requires Sound(c) && Scheduled(c)
    ensures Scheduled(Apply(c, op)) <==> Steady(c, op)
  {
    if op.Finish? {
      if Resolves(c, op.attempt) { EndScheduledExactly(c, op.attempt, op.ok); }
    } else {
      StepReplans(c, op);
      ReplannedIsScheduled(c, Apply(c, op));
    }
  }

  lemma ReplannedIsScheduled(c: Cron, d: Cron)
    requires Scheduled(c) && AllReplanned(c, d)
    ensures Scheduled(d)
  {
    forall j: nat | j < |d.jobs| ensures d.jobs[j].nextRun.Some? <==> d.jobs[j].status == JobActive {
      assert Replanned(c, j, d.jobs[j]);
    }
  }

  lemma EndScheduledExactly(c: Cron, a: nat, ok: bool)
    requires Sound(c) && Scheduled(c) && Resolves(c, a)
    ensures Scheduled(Finished(c, a, ok)) <==>
              (JobOf(c, a).Some? ==> c.jobs[JobOf(c, a).value].status == JobActive)
  {
    FinishKeepsSound(c, a, ok);
  }

  ghost predicate AlwaysSteady(c: Cron, ops: seq<Op>)
    decreases |ops|
  {
    |ops| == 0 || (Steady(c, ops[0]) && AlwaysSteady(Apply(c, ops[0]), ops[1..]))
  }

  /** While no attempt outlives its job's active time, a next run is planned for the
      active jobs and for no others. */
  lemma {:induction false} HistoryKeepsScheduled(c: Cron, ops: seq<Op>)
    requires Sound(c) && Scheduled(c) && AlwaysSteady(c, ops)
    ensures Scheduled(Replay(c, ops))
    decreases |ops|
  {
    if |ops| > 0 {
      ScheduledKeptExactly(c, ops[0]);
      ApplyKeepsSound(c, ops[0]);
      HistoryKeepsScheduled(Apply(c, ops[0]), ops[1..]);
    }
  }

  /** Pausing any active job during its run leaves it paused with a next run planned. */
  lemma PausedDuringItsRun(c: Cron, j: nat, ok: bool)
    requires Sound(c) && Scheduled(c) && j < |c.jobs| && c.jobs[j].status == JobActive
    ensures var began := Apply(c, Begin(Some(j)));
            var paused := Apply(began, PauseJob(j));
            var d := Apply(paused, Finish(|c.attempts|, ok));
            j < |d.jobs| && d.jobs[j].status == JobPaused && d.jobs[j].nextRun.Some? && !Scheduled(d)
  {
    var began := Start(c, Some(j));
    StartKeepsSound(c, Some(j));
    BegunForItsJob(c, j);
    var paused := Apply(began, PauseJob(j));
    ApplyKeepsSound(began, PauseJob(j));
    assert paused.tasks == began.tasks && paused.attempts == began.attempts;
    EndPlansItsJob(paused, |c.attempts|, ok, j);
  }

  lemma BegunForItsJob(c: Cron, j: nat)
    requires j < |c.jobs|
    ensures var began := Start(c, Some(j));
            && began.jobs == c.jobs && |began.attempts| == |c.attempts| + 1
            && Resolves(began, |c.attempts|) && JobOf(began, |c.attempts|) == Some(j)
  {}

  lemma EndPlansItsJob(c: Cron, a: nat, ok: bool, j: nat)
    requires Sound(c) && a < |c.attempts| && Resolves(c, a) && JobOf(c, a) == Some(j)
    ensures var d := Apply(c, Finish(a, ok));
            j < |d.jobs| && d.jobs[j].status == c.jobs[j].status && d.jobs[j].nextRun.Some?
  {
    FinishKeepsSound(c, a, ok);
  }

  // ------------------------------------------------------------- what remains

  /** What no step takes back: rows stay, removed jobs stay as they are, tasks keep
      their owner, attempts their task, and an ended attempt has ended. */
  ghost predicate Later(c: Cron, d: Cron) {
    && c.zones == d.zones && c.now <= d.now
    && |c.jobs| <= |d.jobs| && |c.tasks| <= |d.tasks| && |c.attempts| <= |d.attempts|
    && (forall j: nat | j < |c.jobs| && c.jobs[j].status == JobRemoved ::
          d.jobs[j].status == JobRemoved && d.jobs[j].schedule == c.jobs[j].schedule
              && d.jobs[j].zone == c.jobs[j].zone)
    && (forall t: nat | t < |c.tasks| :: d.tasks[t].job == c.tasks[t].job)
    && (forall a: nat | a < |c.attempts| ::
          && d.attempts[a].task == c.attempts[a].task
          && (c.attempts[a].progress in {Succeeded, Faulted} ==> d.attempts[a].progress in {Succeeded, Faulted}))
  }

  lemma JobsAreLater(c: Cron, jobs: seq<CronJob>)
    requires |jobs| >= |c.jobs|
    requires forall j: nat | j < |c.jobs| && c.jobs[j].status == JobRemoved :: jobs[j] == c.jobs[j]
    ensures Later(c, c.(jobs := jobs))
  {}

  lemma TaskIsLater(c: Cron, jobs: seq<CronJob>, owner: Option<nat>)
    requires Later(c, c.(jobs := jobs))
    ensures Later(c, WithTask(c.(jobs := jobs), owner))
  {}

  lemma CreateIsLater(c: Cron, text: string, zone: string)
    ensures Later(c, Create(c, text, zone))
  {
    var next := NextRun(c.zones, text, zone, c.now, None);
    if next.Some? {
      var jobs := c.jobs + [CronJob(JobActive, Normalized(text), zone, None, next)];
      JobsAreLater(c, jobs);
      TaskIsLater(c, jobs, Some(|c.jobs|));
    }
  }

  lemma UpdateIsLater(c: Cron, j: nat, text: Option<string>, zone: Option<string>)
    ensures Later(c, Update(c, j, text, zone))
  {
    if Found(c, j) && UpdatedJob(c, j, text, zone).Some? {
      var jobs := c.jobs[j := UpdatedJob(c, j, text, zone).value];
      JobsAreLater(c, jobs);
      TaskIsLater(c, jobs, Some(j));
    }
  }

  lemma StartIsLater(c: Cron, owner: Option<nat>)
    ensures Later(c, Start(c, owner))
  {
    if !(owner.Some? && owner.value >= |c.jobs|) {
      var d := WithTask(c, owner);
      StartedIsLater(d, FindTask(d.tasks, owner));
      assert Later(c, d);
    }
  }

  lemma StartedIsLater(c: Cron, t: nat)
    requires t < |c.tasks|
    ensures Later(c, Started(c, t))
  {}

  lemma FinishIsLater(c: Cron, a: nat, ok: bool)
    requires Resolves(c, a)
    ensures Later(c, Finished(c, a, ok))
  {}

  lemma StepIsLater(c: Cron, op: Op)
    ensures Later(c, Apply(c, op))
  {
    match op
    case CreateJob(text, zone) => CreateIsLater(c, text, zone);
    case UpdateJob(j, text, zone) => UpdateIsLater(c, j, text, zone);
    case Begin(owner) => StartIsLater(c, owner);
    case Finish(a, ok) => if Resolves(c, a) { FinishIsLater(c, a, ok); }
    case Sweep(_) =>
    case Elapse(_) =>
    case _ => JobsAreLater(c, Apply(c, op).jobs);
  }

  lemma {:induction false} HistoryIsLater(c: Cron, ops: seq<Op>)
    ensures Later(c, Replay(c, ops))
    decreases |ops|
  {
    if |ops| > 0 {
      StepIsLater(c, ops[0]);
      HistoryIsLater(Apply(c, ops[0]), ops[1..]);
      LaterIsTransitive(c, Apply(c, ops[0]), Replay(c, ops));
    }
  }

  /** An attempt that works for a job does so for ever, and once ended has ended. */
  lemma LaterKeepsAttempt(c: Cron, d: Cron, a: nat)
    requires Later(c, d) && Resolves(c, a)
    ensures Resolves(d, a) && JobOf(d, a) == JobOf(c, a)
    ensures c.attempts[a].progress in {Succeeded, Faulted} ==> d.attempts[a].progress in {Succeeded, Faulted}
  {}

  lemma LaterIsTransitive(c: Cron, d: Cron, e: Cron)
    requires Later(c, d) && Later(d, e)
    ensures Later(c, e)
  {}

  /** Removal is for ever: no history brings the job back or edits it. */
  lemma RemovedIsForever(c: Cron, ops: seq<Op>, j: nat)
    requires j < |c.jobs| && c.jobs[j].status == JobRemoved
    ensures j < |Replay(c, ops).jobs|
    ensures var job := Replay(c, ops).jobs[j];
            job.status == JobRemoved && job.schedule == c.jobs[j].schedule && job.zone == c.jobs[j].zone
  {
    HistoryIsLater(c, ops);
  }

  // --------------------------------------------------------------- due at tick

  /** Of the jobs due at `t`, all are among the pending ones. */
  ghost predicate OnlyPendingDue(c: Cron, t: int, pending: set<nat>) {
    forall j: nat | Due(c, j, t) :: j in pending
  }

  /** No step taken at or after `t` makes a job due at `t`. */
  lemma StepMakesNothingDue(c: Cron, op: Op, t: int, pending: set<nat>)
    requires Sound(c) && c.now >= t && OnlyPendingDue(c, t, pending)
    ensures OnlyPendingDue(Apply(c, op), t, pending)
  {
    if op.Finish? {
      if Resolves(c, op.attempt) { EndSettlesItsJob(c, op.attempt, op.ok, t, pending); }
    } else {
      StepReplans(c, op);
      ReplannedIsNotDue(c, Apply(c, op), t, pending);
    }
  }

  lemma ReplannedIsNotDue(c: Cron, d: Cron, t: int, pending: set<nat>)
    requires c.now >= t && OnlyPendingDue(c, t, pending) && AllReplanned(c, d)
    ensures OnlyPendingDue(d, t, pending)
  {
    forall j: nat | Due(d, j, t) ensures j in pending {
      assert Replanned(c, j, d.jobs[j]);
      assert Due(c, j, t);
    }
  }

  /** The end of an attempt settles its job. */
  lemma EndSettlesItsJob(c: Cron, a: nat, ok: bool, t: int, pending: set<nat>)
    requires Sound(c) && c.now >= t && OnlyPendingDue(c, t, pending) && Resolves(c, a)
    ensures OnlyPendingDue(Finished(c, a, ok), t, pending)
    ensures JobOf(c, a).Some? ==> OnlyPendingDue(Finished(c, a, ok), t, pending - {JobOf(c, a).value})
  {
    FinishKeepsSound(c, a, ok);
    var d := Finished(c, a, ok);
    forall j: nat | Due(d, j, t) ensures j in pending && Some(j) != JobOf(c, a) { assert Due(c, j, t); }
  }

  ghost predicate AllParse(c: Cron) {
    forall j: nat | j < |c.jobs| :: Parse(c.zones, c.jobs[j].schedule, c.jobs[j].zone).Some?
  }

  /** The repair at the start of a tick never finds anything to do. */
  lemma RepairChangesNothing(c: Cron)
    requires JobsSound(c)
    ensures Repair(c) == c
  {
    forall j: nat | j < |c.jobs| ensures Repair(c).jobs[j] == c.jobs[j] { assert JobSound(c.zones, c.jobs[j]); }
    assert Repair(c).jobs == c.jobs;
  }

  lemma {:induction false} HistoryMakesNothingDue(c: Cron, ops: seq<Op>, t: int, pending: set<nat>)
    requires Sound(c) && c.now >= t && OnlyPendingDue(c, t, pending)
    ensures OnlyPendingDue(Replay(c, ops), t, pending)
    decreases |ops|
  {
    if |ops| > 0 {
      StepMakesNothingDue(c, ops[0], t, pending);
      ApplyKeepsSound(c, ops[0]);
      HistoryMakesNothingDue(Apply(c, ops[0]), ops[1..], t, pending);
    }
  }

  lemma {:induction false} ReplayConcat(c: Cron, a: seq<Op>, b: seq<Op>)
    ensures Replay(c, a + b) == Replay(Replay(c, a), b)
    decreases |a|
  {
    if |a| == 0 {
      assert a + b == b;
    } else {
      assert (a + b)[1..] == a[1..] + b;
      ReplayConcat(Apply(c, a[0]), a[1..], b);
    }
  }

  // ---------------------------------------------------------------- late inserts

  /** Looking for a task, or counting its attempts, and the insert are statements of
      their own.  An insert may act on an older look: a task for an owner that had none,
      an attempt with the number that was next. */
  datatype Deed = Whole(op: Op) | LateTask(owner: Option<nat>) | LateAttempt(task: nat, number: nat)

  function Do(c: Cron, deed: Deed): Cron {
    match deed
    case Whole(op) => Apply(c, op)
    case LateTask(owner) =>
      if owner.Some? && owner.value >= |c.jobs| then c else c.(tasks := c.tasks + [JobTask(owner, Idle)])
    case LateAttempt(t, number) => if t < |c.tasks| then StartedAs(c, t, number) else c
  }

  function DoAll(c: Cron, deeds: seq<Deed>): Cron
    decreases |deeds|
  {
    if |deeds| == 0 then c else DoAll(Do(c, deeds[0]), deeds[1..])
  }

  /** The owner has a task by now, or the number is no longer the next one. */
  predicate Overtaken(c: Cron, deed: Deed) {
    match deed
    case Whole(_) => false
    case LateTask(owner) => !(owner.Some? && owner.value >= |c.jobs|) && FindTask(c.tasks, owner) < |c.tasks|
    case LateAttempt(t, number) => t < |c.tasks| && number != AttemptsOf(c.attempts, t) + 1
  }

  /** Two tasks of one owner, or an attempt out of number. */
  ghost predicate Damaged(c: Cron) {
    || (exists t: nat, u: nat :: t < u < |c.tasks| && c.tasks[t].job == c.tasks[u].job)
    || (exists a: nat ::
          a < |c.attempts| && c.attempts[a].number != AttemptsOf(c.attempts[..a], c.attempts[a].task) + 1)
  }

  lemma DamagedIsUnsound(c: Cron)
    requires Damaged(c)
    ensures !Sound(c)
  {
    if Sound(c) {
      forall a: nat | a < |c.attempts|
        ensures c.attempts[a].number == AttemptsOf(c.attempts[..a], c.attempts[a].task) + 1
      {
        assert AttemptSound(c, a);
      }
    }
  }

  lemma DeedDamagesExactly(c: Cron, deed: Deed)
    requires Sound(c)
    ensures Sound(Do(c, deed)) <==> !Overtaken(c, deed)
    ensures Overtaken(c, deed) ==> Damaged(Do(c, deed))
  {
    match deed
    case Whole(op) => ApplyKeepsSound(c, op);
    case LateTask(owner) =>
      if Overtaken(c, deed) {
        var t := FindTask(c.tasks, owner);
        var d := Do(c, deed);
        assert d.tasks[t].job == d.tasks[|c.tasks|].job;
        DamagedIsUnsound(d);
      } else if !(owner.Some? && owner.value >= |c.jobs|) {
        TaskKeepsSound(c, owner);
      }
    case LateAttempt(t, number) =>
      if Overtaken(c, deed) {
        var d := Do(c, deed);
        assert d.attempts[..|c.attempts|] == c.attempts;
        assert d.attempts[|c.attempts|].number != AttemptsOf(d.attempts[..|c.attempts|], t) + 1;
        DamagedIsUnsound(d);
      } else if t < |c.tasks| {
        StartedKeepsAttempts(c, t);
      }
  }

  /** Owners and numbers are never rewritten. */
  ghost predicate RowsKept(c: Cron, d: Cron) {
    && |c.tasks| <= |d.tasks| && |c.attempts| <= |d.attempts|
    && (forall t: nat | t < |c.tasks| :: d.tasks[t].job == c.tasks[t].job)
    && (forall a: nat | a < |c.attempts| ::
          d.attempts[a].task == c.attempts[a].task && d.attempts[a].number == c.attempts[a].number)
  }

  lemma DeedKeepsRows(c: Cron, deed: Deed)
    ensures RowsKept(c, Do(c, deed))
  {
    match deed
    case Whole(op) => StepKeepsRows(c, op);
    case _ =>
  }

  lemma StepKeepsRows(c: Cron, op: Op)
    ensures RowsKept(c, Apply(c, op))
  {
    match op
    case CreateJob(text, zone) => CreationKeepsRows(c, text, zone);
    case UpdateJob(j, text, zone) => UpdateKeepsRows(c, j, text, zone);
    case Begin(owner) => StartKeepsRows(c, owner);
    case Finish(a, ok) => if Resolves(c, a) { EndKeepsRows(c, a, ok); }
    case Sweep(staleAfter) => SweepKeepsRows(c, c.now - staleAfter);
    case _ => assert Apply(c, op).tasks == c.tasks && Apply(c, op).attempts == c.attempts;
  }

  lemma CreationKeepsRows(c: Cron, text: string, zone: string)
    ensures RowsKept(c, Create(c, text, zone))
  {}

  lemma UpdateKeepsRows(c: Cron, j: nat, newText: Option<string>, newZone: Option<string>)
    ensures RowsKept(c, Update(c, j, newText, newZone))
  {}

  lemma StartKeepsRows(c: Cron, owner: Option<nat>)
    ensures RowsKept(c, Start(c, owner))
  {}

  lemma EndKeepsRows(c: Cron, a: nat, ok: bool)
    requires Resolves(c, a)
    ensures RowsKept(c, Finished(c, a, ok))
  {}

  lemma SweepKeepsRows(c: Cron, cutoff: int)
    ensures RowsKept(c, Swept(c, cutoff))
  {}

  lemma DeedKeepsDamage(c: Cron, deed: Deed)
    requires Damaged(c)
    ensures Damaged(Do(c, deed))
  {
    var d := Do(c, deed);
    DeedKeepsRows(c, deed);
    if t: nat, u: nat :| t < u < |c.tasks| && c.tasks[t].job == c.tasks[u].job {
      assert d.tasks[t].job == d.tasks[u].job;
    } else {
      var a: nat :| a < |c.attempts| && c.attempts[a].number != AttemptsOf(c.attempts[..a], c.attempts[a].task) + 1;
      AttemptsIgnoreProgress(c.attempts[..a], d.attempts[..a], d.attempts[a].task);
    }
  }

  lemma {:induction false} DamageIsForEver(c: Cron, deeds: seq<Deed>)
    requires Damaged(c)
    ensures !Sound(DoAll(c, deeds))
    decreases |deeds|
  {
    if |deeds| > 0 {
      DeedKeepsDamage(c, deeds[0]);
      DamageIsForEver(Do(c, deeds[0]), deeds[1..]);
    } else {
      DamagedIsUnsound(c);
    }
  }

  ghost predicate NoneOvertaken(c: Cron, deeds: seq<Deed>)
    decreases |deeds|
  {
    |deeds| == 0 || (!Overtaken(c, deeds[0]) && NoneOvertaken(Do(c, deeds[0]), deeds[1..]))
  }

  /** Over whole histories: the tables are sound at the end exactly if no insert was
      overtaken by another since its look. */
  lemma {:induction false} HistorySoundExactly(c: Cron, deeds: seq<Deed>)
    requires Sound(c)
    ensures Sound(DoAll(c, deeds)) <==> NoneOvertaken(c, deeds)
    decreases |deeds|
  {
    if |deeds| > 0 {
      DeedDamagesExactly(c, deeds[0]);
      if Overtaken(c, deeds[0]) {
        DamageIsForEver(Do(c, deeds[0]), deeds[1..]);
      } else {
        HistorySoundExactly(Do(c, deeds[0]), deeds[1..]);
      }
    }
  }
}
