/** The cron service and the scheduler on their tables, proved against `CronJobs`. */
module CronScheduler {
  import opened Tables
  import opened Schedules
  import opened ScheduleText
  import opened Sorting
  import opened CronJobs
  import opened CronPlans

  datatype Reply = Saved(job: nat) | NotFound | BadSchedule

  /** A run of a job from its start to its end, with what others do meanwhile. */
  function OneRun(c: Cron, j: nat, meanwhile: seq<Op>, ok: bool): Cron {
    Apply(Replay(Apply(c, Begin(Some(j))), meanwhile), Finish(|c.attempts|, ok))
  }

  class CronStore {
    const zones: map<string, int>
    const beatInterval: nat
    const staleAfter: nat
    var jobs: seq<CronJob>
    var tasks: seq<JobTask>
    var attempts: seq<Attempt>
    var now: int
    var lastBeat: Option<int>

    function Contents(): Cron
      reads this
    {
      Cron(zones, jobs, tasks, attempts, now)
    }

    ghost predicate Valid()
      reads this
    {
      Sound(Contents())
    }

    constructor (zones: map<string, int>, beatInterval: nat, staleAfter: nat)
      ensures Valid() && Scheduled(Contents())
      ensures Contents() == Cron(zones, [], [], [], 0) && lastBeat.None?
    {
      this.zones, this.beatInterval, this.staleAfter := zones, beatInterval, staleAfter;
      jobs, tasks, attempts, now, lastBeat := [], [], [], 0, None;
    }

    /** The API, or time, acts between two transactions of the scheduler. */
    method Interfere(ops: seq<Op>)
      modifies this`jobs, this`tasks, this`attempts, this`now
      ensures Contents() == Replay(old(Contents()), ops)
      ensures old(Valid()) ==> Valid()
    {
      if Sound(Contents()) { HistoryKeepsSound(Contents(), ops); }
      HistoryIsLater(Contents(), ops);
      var c := Replay(Contents(), ops);
      jobs, tasks, attempts, now := c.jobs, c.tasks, c.attempts, c.now;
    }

    method ComputeNextRun(text: string, zone: string, lastRun: Option<int>, reference: int) returns (next: Option<int>)
      ensures next == NextRun(zones, text, zone, reference, lastRun)
    {
      var parsed := Parse(zones, text, zone);
      if parsed.None? { return None; }
      ParsedIsAcceptable(text);
      if parsed.value.Every? || zone !in zones {
        var t := ComputeNextAfter(parsed.value, reference, lastRun);
        return Some(t);
      }
      var t := ComputeNextAfter(parsed.value, reference + zones[zone], lastRun);
      return Some(t - zones[zone]);
    }

    method GetOrCreateTask(owner: Option<nat>) returns (t: nat)
      modifies this`tasks
      ensures Contents() == WithTask(old(Contents()), owner)
      ensures t < |tasks| && t == FindTask(tasks, owner) && tasks[t].job == owner
      ensures if exists i: nat :: i < |old(tasks)| && old(tasks)[i].job == owner then tasks == old(tasks)
              else tasks == old(tasks) + [JobTask(owner, Idle)]
    {
      t := 0;
      while t < |tasks|
        invariant t <= |tasks|
        invariant forall i: nat | i < t :: tasks[i].job != owner
      {
        if tasks[t].job == owner { return; }
        t := t + 1;
      }
      tasks := tasks + [JobTask(owner, Idle)];
    }

    // ------------------------------------------------------------- service

    method NewJob(text: string, zone: string) returns (reply: Reply)
      requires Valid()
      modifies this`jobs, this`tasks
      ensures Valid() && Contents() == Apply(old(Contents()), CreateJob(text, zone))
      ensures reply == if Parse(zones, text, zone).Some? then Saved(|old(jobs)|) else BadSchedule
      ensures reply.Saved? ==>
                && jobs[reply.job].status == JobActive && jobs[reply.job].nextRun.Some?
                && jobs[reply.job].nextRun.value > now
                && jobs[reply.job].schedule == Normalized(text) && jobs[reply.job].zone == zone
                && jobs[reply.job].lastRun.None?
                && OnTime(zones, text, zone, now, now, jobs[reply.job].nextRun.value)
      ensures reply.BadSchedule? ==> Contents() == old(Contents())
    {
      ApplyKeepsSound(Contents(), CreateJob(text, zone));
      CreateKeepsSound(Contents(), text, zone);
      NextRunIsLater(zones, text, zone, now, None);
      var next := ComputeNextRun(text, zone, None, now);
      if next.None? { return BadSchedule; }
      NextRunIsOnTime(zones, text, zone, now, None);
      reply := Saved(|jobs|);
      jobs := jobs + [CronJob(JobActive, Normalized(text), zone, None, next)];
      var t := GetOrCreateTask(Some(reply.job));
    }

    /** An edit that does not parse changes nothing; only an active job is replanned. */
    method EditJob(j: nat, newText: Option<string>, newZone: Option<string>) returns (reply: Reply)
      requires Valid()
      modifies this`jobs, this`tasks
      ensures Valid() && Contents() == Apply(old(Contents()), UpdateJob(j, newText, newZone))
      ensures reply.NotFound? <==> !Found(old(Contents()), j)
      ensures !reply.Saved? ==> Contents() == old(Contents())
      ensures reply.Saved? ==> reply.job == j && j < |jobs| && jobs[j].status == old(jobs)[j].status
      ensures reply.Saved? && jobs[j].status != JobActive ==> jobs[j].nextRun == old(jobs)[j].nextRun
      ensures reply.Saved? && jobs[j].status == JobActive ==> jobs[j].nextRun.Some? && jobs[j].nextRun.value > now
      ensures reply.Saved? ==>
                && jobs[j].schedule == Normalized(if newText.Some? then newText.value else old(jobs)[j].schedule)
                && jobs[j].zone == (if newZone.Some? then newZone.value else old(jobs)[j].zone)
                && jobs[j].lastRun == old(jobs)[j].lastRun
                && (jobs[j].status == JobActive ==> PlannedAt(zones, jobs[j], now))
    {
      ApplyKeepsSound(Contents(), UpdateJob(j, newText, newZone));
      if !Found(Contents(), j) { return NotFound; }
      var job := jobs[j];
      if newZone.Some? { job := job.(zone := newZone.value); }
      if newText.Some? { job := job.(schedule := Normalized(newText.value)); }
      var next := ComputeNextRun(job.schedule, job.zone, job.lastRun, now);
      NextRunIsLater(zones, job.schedule, job.zone, now, job.lastRun);
      if next.None? { return BadSchedule; }
      ghost var text := job.schedule;
      StoredTextParses(if newText.Some? then newText.value else old(jobs)[j].schedule);
      job := job.(schedule := Normalized(job.schedule));
      if job.status == JobActive {
        job := job.(nextRun := next);
        NewPlan(Contents(), job, text, job.lastRun);
      }
      jobs := jobs[j := job];
      var t := GetOrCreateTask(Some(j));
      return Saved(j);
    }

    method Pause(j: nat) returns (reply: Reply)
      requires Valid()
      modifies this`jobs
      ensures Valid() && Contents() == Apply(old(Contents()), PauseJob(j))
      ensures reply == if Found(old(Contents()), j) then Saved(j) else NotFound
      ensures reply.Saved? ==> j < |jobs| && jobs[j].status == JobPaused && jobs[j].nextRun.None?
    {
      ApplyKeepsSound(Contents(), PauseJob(j));
      if !Found(Contents(), j) { return NotFound; }
      jobs := jobs[j := jobs[j].(status := JobPaused, nextRun := None)];
      return Saved(j);
    }

    /** A stored schedule always parses, so activating only fails when there is no such job. */
    method ActivateAgain(j: nat) returns (reply: Reply)
      requires Valid()
      modifies this`jobs
      ensures Valid() && Contents() == Apply(old(Contents()), ActivateJob(j))
      ensures reply == if Found(old(Contents()), j) then Saved(j) else NotFound
      ensures reply.Saved? ==>
                && j < |jobs| && jobs[j].status == JobActive && jobs[j].nextRun.Some? && jobs[j].nextRun.value > now
                && PlannedAt(zones, jobs[j], now)
                && jobs[j].schedule == old(jobs)[j].schedule && jobs[j].zone == old(jobs)[j].zone
    {
      ActivateKeepsSound(Contents(), j);
      if !Found(Contents(), j) { return NotFound; }
      assert JobSound(zones, jobs[j]);
      NextRunIsLater(zones, jobs[j].schedule, jobs[j].zone, now, jobs[j].lastRun);
      var next := ComputeNextRun(jobs[j].schedule, jobs[j].zone, jobs[j].lastRun, now);
      if next.None? { return BadSchedule; }
      jobs := jobs[j := jobs[j].(status := JobActive, nextRun := next)];
      NewPlan(Contents(), jobs[j], jobs[j].schedule, jobs[j].lastRun);
      return Saved(j);
    }

    method Remove(j: nat) returns (reply: Reply)
      requires Valid()
      modifies this`jobs
      ensures Valid() && Contents() == Apply(old(Contents()), RemoveJob(j))
      ensures reply == if Found(old(Contents()), j) then Saved(j) else NotFound
      ensures reply.Saved? ==> !Found(Contents(), j)
    {
      ApplyKeepsSound(Contents(), RemoveJob(j));
      if !Found(Contents(), j) { return NotFound; }
      jobs := jobs[j := jobs[j].(status := JobRemoved, nextRun := None)];
      return Saved(j);
    }

    // ------------------------------------------------------------ attempts

    method CreateTaskRun(t: nat) returns (a: nat)
      requires t < |tasks|
      modifies this`tasks, this`attempts
      ensures Contents() == Started(old(Contents()), t)
      ensures a == |old(attempts)|
    {
      var existing := 0;
      for i := 0 to |attempts|
        invariant existing == AttemptsOf(attempts[..i], t)
      {
        assert attempts[..i+1][..i] == attempts[..i];
        if attempts[i].task == t { existing := existing + 1; }
      }
      assert attempts[..|attempts|] == attempts;
      a := |attempts|;
      attempts := attempts + [Attempt(t, existing + 1, Underway, now, None)];
      tasks := tasks[t := tasks[t].(progress := Underway)];
    }

    method CompleteTaskRun(a: nat, ok: bool)
      requires a < |attempts| && attempts[a].task < |tasks|
      modifies this`tasks, this`attempts
      ensures Contents() == Closed(old(Contents()), a, ok)
    {
      var end := if ok then Succeeded else Faulted;
      tasks := tasks[attempts[a].task := tasks[attempts[a].task].(progress := end)];
      attempts := attempts[a := attempts[a].(progress := end, finishedAt := Some(now))];
    }

    method StartRun(owner: Option<nat>) returns (a: nat)
      requires Valid() && (owner.Some? ==> owner.value < |jobs|)
      modifies this`tasks, this`attempts
      ensures Valid() && Contents() == Apply(old(Contents()), Begin(owner))
      ensures a == |old(attempts)| && a < |attempts| && Resolves(Contents(), a) && JobOf(Contents(), a) == owner
    {
      ApplyKeepsSound(Contents(), Begin(owner));
      var t := GetOrCreateTask(owner);
      a := CreateTaskRun(t);
    }

    /** The end of an attempt; its job is planned again from there. */
    method EndRun(a: nat, ok: bool)
      requires Valid() && a < |attempts| && Resolves(Contents(), a) && JobOf(Contents(), a).Some?
      modifies this`jobs, this`tasks, this`attempts
      ensures Valid() && Contents() == Apply(old(Contents()), Finish(a, ok))
      ensures var j := old(tasks)[old(attempts)[a].task].job.value;
              j < |jobs| && jobs[j].lastRun == Some(now) && PlannedAt(zones, jobs[j], now)
    {
      var j := tasks[attempts[a].task].job.value;
      FinishKeepsSound(Contents(), a, ok);
      assert JobSound(zones, jobs[j]);
      NextRunIsLater(zones, jobs[j].schedule, jobs[j].zone, now, Some(now));
      CompleteTaskRun(a, ok);
      var next := ComputeNextRun(jobs[j].schedule, jobs[j].zone, Some(now), now);
      jobs := jobs[j := jobs[j].(lastRun := Some(now), nextRun := next)];
      NewPlan(Contents(), jobs[j], jobs[j].schedule, Some(now));
    }

    /** The job runs, well or badly, while others act. */
    method RunJob(j: nat, meanwhile: seq<Op>, ok: bool) returns (a: nat)
      requires Valid() && j < |jobs|
      modifies this`jobs, this`tasks, this`attempts, this`now
      ensures Valid() && a == |old(attempts)|
      ensures Contents() == OneRun(old(Contents()), j, meanwhile, ok)
      ensures j < |jobs| && jobs[j].lastRun == Some(now) && PlannedAt(zones, jobs[j], now)
    {
      a := StartRun(Some(j));
      HistoryIsLater(Contents(), meanwhile);
      LaterKeepsAttempt(Contents(), Replay(Contents(), meanwhile), a);
      Interfere(meanwhile);
      EndRun(a, ok);
    }

    method CleanStaleRuns(after: nat)
      modifies this`tasks, this`attempts
      requires Valid()
      ensures Valid() && Contents() == Apply(old(Contents()), Sweep(after))
      ensures |attempts| == |old(attempts)| && |tasks| == |old(tasks)|
      ensures forall a: nat | a < |attempts| ::
                attempts[a] == if old(attempts)[a].progress == Underway && now - old(attempts)[a].startedAt >= after
                               then old(attempts)[a].(progress := Faulted, finishedAt := Some(now))
                               else old(attempts)[a]
    {
      ghost var c := Contents();
      var cutoff := now - after;
      SweepKeepsSound(c, cutoff);
      for a := 0 to |attempts|
        invariant |attempts| == |c.attempts| && |tasks| == |c.tasks|
        invariant forall i: nat | i < |attempts| ::
            attempts[i] == if i < a then Swept(c, cutoff).attempts[i] else c.attempts[i]
        invariant forall t: nat | t < |tasks| ::
                    tasks[t] == if HasStale(c.attempts[..a], cutoff, t) then c.tasks[t].(progress := Faulted)
                        else c.tasks[t]
      {
        assert AttemptSound(c, a);
        StaleSoFar(c.attempts, cutoff, a);
        if Stale(attempts[a], cutoff) { CompleteTaskRun(a, false); }
      }
      assert c.attempts[..|attempts|] == c.attempts;
      assert attempts == Swept(c, cutoff).attempts && tasks == Swept(c, cutoff).tasks;
    }

    // ---------------------------------------------------------------- tick

    /** Plans the active jobs that have no next run, as rows from elsewhere may. */
    method RepairPlans()
      requires AllParse(Contents())
      modifies this`jobs
      ensures Contents() == Apply(old(Contents()), RepairSchedules)
      ensures forall j: nat | j < |jobs| && jobs[j].status == JobActive :: jobs[j].nextRun.Some?
      ensures |jobs| == |old(jobs)| && forall j: nat | j < |jobs| ::
                jobs[j] == old(jobs)[j]
                || (old(jobs)[j].status == JobActive && old(jobs)[j].nextRun.None? && PlannedAt(zones, jobs[j], now))
    {
      ghost var c := Contents();
      for j := 0 to |jobs|
        invariant |jobs| == |c.jobs|
        invariant forall i: nat | i < |jobs| :: jobs[i] == if i < j then Repaired(zones, now, c.jobs[i]) else c.jobs[i]
        invariant forall i: nat | i < j && jobs[i].status == JobActive :: jobs[i].nextRun.Some?
        invariant forall i: nat | i < |jobs| ::
                    jobs[i] == c.jobs[i]
                    || (c.jobs[i].status == JobActive && c.jobs[i].nextRun.None? && PlannedAt(zones, jobs[i], now))
      {
        if jobs[j].status == JobActive && jobs[j].nextRun.None? {
          NextRunIsLater(zones, jobs[j].schedule, jobs[j].zone, now, jobs[j].lastRun);
          var next := ComputeNextRun(jobs[j].schedule, jobs[j].zone, jobs[j].lastRun, now);
          jobs := jobs[j := jobs[j].(nextRun := next)];
          NewPlan(Contents(), jobs[j], jobs[j].schedule, jobs[j].lastRun);
        }
      }
      assert jobs == Repair(c).jobs;
    }

    method ListDueJobs(t: int) returns (due: seq<nat>)
      ensures Distinct(due) && forall j: nat :: j in due <==> Due(Contents(), j, t)
      ensures forall m: nat, n: nat | m < n < |due| :: PlannedFirst(jobs, due[m], due[n])
      ensures forall j: nat :: j in due <==>
                j < |jobs| && jobs[j].status == JobActive && jobs[j].nextRun.Some? && jobs[j].nextRun.value <= t
      ensures forall m: nat, n: nat | m < n < |due| :: due[m] in due && due[n] in due &&
                jobs[due[m]].nextRun.value <= jobs[due[n]].nextRun.value
    {
      var found: seq<nat> := [];
      for j := 0 to |jobs|
        invariant Distinct(found)
        invariant forall i: nat :: i in found <==> i < j && Due(Contents(), i, t)
      {
        if Due(Contents(), j, t) { found := found + [j]; }
      }
      var rows := jobs;
      var earlier := (a: nat, b: nat) => PlannedFirst(rows, a, b);
      due := Sort(found, earlier);
      SortKeepsMembers(found, earlier);
      SortKeepsDistinct(found, earlier);
      SortSorts(found, earlier);
      forall m: nat, n: nat | m < n < |due| ensures PlannedFirst(jobs, due[m], due[n]) {
        assert earlier(due[m], due[n]);
      }
    }

    /** Repair, list what is due now, run each once.  `env` is what others do before
        and during each run. */
    method RunDueJobs(env: seq<seq<Op>>, outcomes: seq<bool>) returns (due: seq<nat>, mine: seq<nat>)
      requires Valid()
      modifies this`jobs, this`tasks, this`attempts, this`now
      ensures Valid() && now >= old(now) && lastBeat == old(lastBeat) && |attempts| >= |old(attempts)|
      ensures forall j: nat :: j in due <==> Due(old(Contents()), j, old(now))
      ensures forall m: nat, n: nat | m < n < |due| :: PlannedFirst(old(jobs), due[m], due[n])
      ensures Distinct(due) && Distinct(mine)
      ensures AllRun(Contents(), |old(attempts)|, mine, due)
      ensures forall j: nat :: !Due(Contents(), j, old(now))
      ensures env == [] ==>
                && |attempts| == |old(attempts)| + |due| && |jobs| == |old(jobs)|
                && forall j: nat | j < |jobs| :: jobs[j] == AfterTick(old(Contents()), j)
      ensures env == [] ==> TickedOnTime(old(Contents()), Contents())
    {
      ghost var c := Contents();
      var t := now;
      RepairChangesNothing(c);
      RepairPlans();
      due := ListDueJobs(t);
      mine := [];
      TickBegins(c, due);
      for k := 0 to |due|
        invariant Ticking(c, Contents(), due, k, mine)
        invariant env == [] ==> TickedSoFar(c, Contents(), due, k)
      {
        assert due[k] in due;
        ghost var before := Contents();
        var first := if 2 * k < |env| then env[2*k] else [];
        var meanwhile := if 2 * k + 1 < |env| then env[2*k+1] else [];
        var ok := if k < |outcomes| then outcomes[k] else true;
        TickGoesOn(c, before, due, k, mine, first, meanwhile, ok);
        if env == [] { QuietRun(c, before, due, k, ok); }
        Interfere(first);
        var a := RunJob(due[k], meanwhile, ok);
        mine := mine + [a];
      }
      TickEnds(c, Contents(), due, mine);
      if env == [] {
        TickedJobs(c, Contents(), due);
        TickPlans(c, Contents());
      }
    }

    method HeartbeatDue() returns (isDue: bool)
      ensures isDue <==> BeatDue()
    {
      if lastBeat.None? { return true; }
      return now - lastBeat.value >= beatInterval;
    }

    /** No good heartbeat yet, or none within the interval. */
    predicate BeatDue()
      reads this
    {
      lastBeat.None? || now - lastBeat.value >= beatInterval
    }

    /** The heartbeat gives up stale attempts inside an attempt of its own. */
    method RunHeartbeat(ok: bool) returns (a: nat)
      requires Valid()
      modifies this`tasks, this`attempts, this`lastBeat
      ensures Valid() && a == |old(attempts)|
      ensures Contents() == OneBeat(old(Contents()), staleAfter, ok)
      ensures lastBeat == if ok then Some(now) else old(lastBeat)
    {
      a := StartRun(None);
      StepIsLater(Contents(), Sweep(staleAfter));
      LaterKeepsAttempt(Contents(), Apply(Contents(), Sweep(staleAfter)), a);
      CleanStaleRuns(staleAfter);
      ApplyKeepsSound(Contents(), Finish(a, ok));
      CompleteTaskRun(a, ok);
      if ok { lastBeat := Some(now); }
    }

    /** A whole tick: the due jobs, then, when its interval has passed, the heartbeat.
        `last` is what others do between the two. */
    method Tick(env: seq<seq<Op>>, last: seq<Op>, outcomes: seq<bool>, beatOk: bool)
      returns (due: seq<nat>, mine: seq<nat>, beat: Option<nat>)
      requires Valid()
      modifies this
      ensures Valid() && now >= old(now)
      ensures forall j: nat :: j in due <==> Due(old(Contents()), j, old(now))
      ensures forall m: nat, n: nat | m < n < |due| :: PlannedFirst(old(jobs), due[m], due[n])
      ensures Distinct(due) && Distinct(mine)
      ensures AllRun(Contents(), |old(attempts)|, mine, due)
      ensures forall j: nat :: !Due(Contents(), j, old(now))
      ensures beat.Some? <==> old(lastBeat).None? || now - old(lastBeat).value >= beatInterval
      ensures beat.Some? ==> beat.value !in mine && BeatBy(Contents(), |old(attempts)|, beat.value, beatOk)
      ensures lastBeat == if beat.Some? && beatOk then Some(now) else old(lastBeat)
      ensures env == [] && last == [] ==>
                && |attempts| == |old(attempts)| + |due| + (if beat.Some? then 1 else 0) && |jobs| == |old(jobs)|
                && TickedOnTime(old(Contents()), Contents())
    {
      ghost var t := now;
      due, mine := RunDueJobs(env, outcomes);
      ghost var before := Contents();
      HistoryIsLater(before, last);
      HistoryMakesNothingDue(before, last, t, {});
      Interfere(last);
      ghost var here := Contents();
      KeepRuns(before, here, here, |old(attempts)|, mine, due);
      beat := None;
      var isDue := HeartbeatDue();
      if isDue {
        BeatKeeps(here, staleAfter, beatOk, |old(attempts)|, mine, due, t);
        var a := RunHeartbeat(beatOk);
        beat := Some(a);
      }
    }
  }

  // ------------------------------------------------------------ proof of tick

  /** By the planned time; jobs without one do not occur among the due. */
  predicate PlannedFirst(jobs: seq<CronJob>, a: nat, b: nat) {
    PlanOf(jobs, a) <= PlanOf(jobs, b)
  }

  function PlanOf(jobs: seq<CronJob>, j: nat): int {
    if j < |jobs| && jobs[j].nextRun.Some? then jobs[j].nextRun.value else 0
  }

  /** Attempt `a`, newer than the first `old` ones, worked for job `j` and has ended. */
  ghost predicate RunBy(c: Cron, older: nat, a: nat, j: nat) {
    a >= older && Resolves(c, a) && JobOf(c, a) == Some(j) && c.attempts[a].progress in {Succeeded, Faulted}
  }

  ghost predicate Ascending(mine: seq<nat>, bound: nat) {
    && (forall m: nat, n: nat | m < n < |mine| :: mine[m] < mine[n])
    && (forall m: nat | m < |mine| :: mine[m] < bound)
  }

  ghost function Pending(due: seq<nat>, k: nat): set<nat>
    requires k <= |due|
  {
    set i: nat | k <= i < |due| :: due[i]
  }

  lemma StaleSoFar(attempts: seq<Attempt>, cutoff: int, a: nat)
    requires a < |attempts|
    ensures forall t: nat :: HasStale(attempts[..a+1], cutoff, t) <==>
              HasStale(attempts[..a], cutoff, t) || (Stale(attempts[a], cutoff) && attempts[a].task == t)
  {
    forall t: nat ensures HasStale(attempts[..a+1], cutoff, t) <==>
                     HasStale(attempts[..a], cutoff, t) || (Stale(attempts[a], cutoff) && attempts[a].task == t) {
      if Stale(attempts[a], cutoff) && attempts[a].task == t {
        assert attempts[..a+1][a] == attempts[a];
      }
      if HasStale(attempts[..a], cutoff, t) {
        var i: nat :| i < a && Stale(attempts[..a][i], cutoff) && attempts[..a][i].task == t;
        assert attempts[..a+1][i] == attempts[..a][i];
      }
      if HasStale(attempts[..a+1], cutoff, t) {
        var i: nat :| i < a + 1 && Stale(attempts[..a+1][i], cutoff) && attempts[..a+1][i].task == t;
        if i < a { assert attempts[..a][i] == attempts[..a+1][i]; }
      }
    }
  }

  /** The state of a tick after `k` of its runs. */
  ghost predicate Ticking(c: Cron, d: Cron, due: seq<nat>, k: nat, mine: seq<nat>)
    requires k <= |due|
  {
    && Sound(d) && Later(c, d) && |mine| == k && Ascending(mine, |d.attempts|)
    && AllRun(d, |c.attempts|, mine, due[..k])
    && OnlyPendingDue(d, c.now, Pending(due, k))
  }

  ghost predicate AllRun(d: Cron, older: nat, mine: seq<nat>, due: seq<nat>) {
    |mine| == |due| && forall m: nat | m < |mine| :: RunBy(d, older, mine[m], due[m])
  }

  lemma TickBegins(c: Cron, due: seq<nat>)
    requires Sound(c) && forall j: nat :: j in due <==> Due(c, j, c.now)
    ensures Ticking(c, c, due, 0, []) && TickedSoFar(c, c, due, 0)
  {}

  lemma TickEnds(c: Cron, d: Cron, due: seq<nat>, mine: seq<nat>)
    requires Ticking(c, d, due, |due|, mine)
    ensures forall j: nat :: !Due(d, j, c.now)
    ensures Distinct(mine) && AllRun(d, |c.attempts|, mine, due) && |c.attempts| <= |d.attempts|
  {
    assert Pending(due, |due|) == {};
    assert due[..|due|] == due;
  }

  lemma TickGoesOn(c: Cron, d: Cron, due: seq<nat>, k: nat, mine: seq<nat>, first: seq<Op>, meanwhile: seq<Op>,
      ok: bool)
    requires k < |due| && due[k] < |c.jobs| && Ticking(c, d, due, k, mine)
    ensures var here := Replay(d, first);
            && Sound(here) && due[k] < |here.jobs|
            && Ticking(c, OneRun(here, due[k], meanwhile, ok), due, k + 1, mine + [|here.attempts|])
  {
    var here := Replay(d, first);
    var e := OneRun(here, due[k], meanwhile, ok);
    HistoryKeepsSound(d, first);
    HistoryIsLater(d, first);
    HistoryMakesNothingDue(d, first, c.now, Pending(due, k));
    RunSettles(here, due[k], meanwhile, ok, c.now, Pending(due, k));
    LaterIsTransitive(c, d, here);
    LaterIsTransitive(c, here, e);
    KeepRuns(d, here, e, |c.attempts|, mine, due[..k]);
    PendingShrinks(due, k, e, c.now);
    MoreRuns(e, |c.attempts|, mine, due, k, |here.attempts|);
  }

  lemma MoreRuns(e: Cron, older: nat, mine: seq<nat>, due: seq<nat>, k: nat, a: nat)
    requires k < |due| && AllRun(e, older, mine, due[..k]) && RunBy(e, older, a, due[k])
    ensures AllRun(e, older, mine + [a], due[..k+1])
  {
    assert due[..k+1] == due[..k] + [due[k]];
  }

  /** A run, whatever happens meanwhile, ends with its job no longer due. */
  lemma RunSettles(c: Cron, j: nat, meanwhile: seq<Op>, ok: bool, t: int, pending: set<nat>)
    requires Sound(c) && j < |c.jobs| && c.now >= t && OnlyPendingDue(c, t, pending)
    ensures var e := OneRun(c, j, meanwhile, ok);
            && Sound(e) && Later(c, e) && |e.attempts| > |c.attempts|
            && RunBy(e, |c.attempts|, |c.attempts|, j)
            && OnlyPendingDue(e, t, pending - {j})
  {
    var began := Apply(c, Begin(Some(j)));
    BeginResolves(c, j);
    StepIsLater(c, Begin(Some(j)));
    ApplyKeepsSound(c, Begin(Some(j)));
    StepMakesNothingDue(c, Begin(Some(j)), t, pending);
    EndOfRun(c, began, j, meanwhile, ok, t, pending);
  }

  lemma EndOfRun(c: Cron, began: Cron, j: nat, meanwhile: seq<Op>, ok: bool, t: int, pending: set<nat>)
    requires Sound(began) && Later(c, began) && c.now >= t && OnlyPendingDue(began, t, pending)
    requires |began.attempts| > |c.attempts| && Resolves(began, |c.attempts|) && JobOf(began, |c.attempts|) == Some(j)
    ensures var e := Apply(Replay(began, meanwhile), Finish(|c.attempts|, ok));
            && Sound(e) && Later(c, e) && |e.attempts| > |c.attempts|
            && RunBy(e, |c.attempts|, |c.attempts|, j)
            && OnlyPendingDue(e, t, pending - {j})
  {
    var a := |c.attempts|;
    var here := Replay(began, meanwhile);
    HistoryIsLater(began, meanwhile);
    HistoryKeepsSound(began, meanwhile);
    HistoryMakesNothingDue(began, meanwhile, t, pending);
    LaterKeepsAttempt(began, here, a);
    LaterIsTransitive(c, began, here);
    LastStep(c, here, a, j, ok, t, pending);
  }

  lemma LastStep(c: Cron, here: Cron, a: nat, j: nat, ok: bool, t: int, pending: set<nat>)
    requires Sound(here) && Later(c, here) && here.now >= t && OnlyPendingDue(here, t, pending)
    requires a < |here.attempts| && Resolves(here, a) && JobOf(here, a) == Some(j)
    ensures var e := Apply(here, Finish(a, ok));
            && Sound(e) && Later(c, e) && a < |e.attempts|
            && RunBy(e, a, a, j) && OnlyPendingDue(e, t, pending - {j})
  {
    var e := Finished(here, a, ok);
    FinishKeepsSound(here, a, ok);
    EndSettlesItsJob(here, a, ok, t, pending);
    FinishIsLater(here, a, ok);
    LaterKeepsAttempt(here, e, a);
    LaterIsTransitive(c, here, e);
  }

  lemma BeginResolves(c: Cron, j: nat)
    requires j < |c.jobs|
    ensures var d := Start(c, Some(j));
            Resolves(d, |c.attempts|) && JobOf(d, |c.attempts|) == Some(j) && |d.attempts| == |c.attempts| + 1
            && d.jobs == c.jobs && d.now == c.now && d.zones == c.zones
  {
    TaskIsFound(c, Some(j));
  }

  lemma TaskIsFound(c: Cron, owner: Option<nat>)
    ensures var d := WithTask(c, owner);
            && FindTask(d.tasks, owner) < |d.tasks| && d.tasks[FindTask(d.tasks, owner)].job == owner
            && d.jobs == c.jobs && d.attempts == c.attempts && d.now == c.now && d.zones == c.zones
  {
    var d := WithTask(c, owner);
    if FindTask(c.tasks, owner) == |c.tasks| { assert d.tasks[|c.tasks|].job == owner; }
  }

  /** Earlier runs of a tick stay what they were while it goes on. */
  lemma KeepRuns(c: Cron, d: Cron, e: Cron, older: nat, mine: seq<nat>, due: seq<nat>)
    requires Later(c, d) && Later(d, e) && AllRun(c, older, mine, due)
    ensures AllRun(e, older, mine, due)
  {
    forall m: nat | m < |mine| ensures RunBy(e, older, mine[m], due[m]) {
      LaterKeepsAttempt(c, d, mine[m]);
      LaterKeepsAttempt(d, e, mine[m]);
    }
  }

  /** The heartbeat as one step: its attempt, and the stale ones given up inside it. */
  function OneBeat(c: Cron, staleAfter: nat, ok: bool): Cron {
    Apply(Apply(Apply(c, Begin(None)), Sweep(staleAfter)), Finish(|c.attempts|, ok))
  }

  /** Attempt `a`, newer than the first `older` ones, was the heartbeat's, and ended well
      or badly. */
  ghost predicate BeatBy(c: Cron, older: nat, a: nat, ok: bool) {
    && a >= older && Resolves(c, a) && JobOf(c, a).None?
    && c.attempts[a].progress == (if ok then Succeeded else Faulted) && c.attempts[a].finishedAt.Some?
  }

  /** A heartbeat leaves the jobs alone, and earlier runs what they were. */
  lemma BeatKeeps(c: Cron, staleAfter: nat, ok: bool, older: nat, mine: seq<nat>, due: seq<nat>, t: int)
    requires older <= |c.attempts| && AllRun(c, older, mine, due) && forall j: nat :: !Due(c, j, t)
    ensures var d := OneBeat(c, staleAfter, ok);
            && d.jobs == c.jobs && d.now == c.now && |d.attempts| == |c.attempts| + 1
            && BeatBy(d, older, |c.attempts|, ok) && |c.attempts| !in mine
            && AllRun(d, older, mine, due) && forall j: nat :: !Due(d, j, t)
  {
    var d := OneBeat(c, staleAfter, ok);
    OneBeatIs(c, staleAfter, ok);
    KeepRuns(c, c, d, older, mine, due);
    assert forall m: nat | m < |mine| :: RunBy(c, older, mine[m], due[m]);
    forall j: nat ensures !Due(d, j, t) { assert !Due(c, j, t); }
  }

  lemma OneBeatIs(c: Cron, staleAfter: nat, ok: bool)
    ensures var d := OneBeat(c, staleAfter, ok);
            && Later(c, c) && Later(c, d) && d.jobs == c.jobs && d.now == c.now
            && |d.attempts| == |c.attempts| + 1 && BeatBy(d, |c.attempts|, |c.attempts|, ok)
  {
    BeatBegins(c);
    StepIsLater(c, Begin(None));
    RestOfBeat(c, Apply(c, Begin(None)), staleAfter, ok);
  }

  lemma RestOfBeat(c: Cron, began: Cron, staleAfter: nat, ok: bool)
    requires Later(c, began) && Resolves(began, |c.attempts|) && JobOf(began, |c.attempts|).None?
    requires began.jobs == c.jobs && began.now == c.now && |began.attempts| == |c.attempts| + 1
    ensures var d := Apply(Apply(began, Sweep(staleAfter)), Finish(|c.attempts|, ok));
            && Later(c, d) && d.jobs == c.jobs && d.now == c.now
            && |d.attempts| == |c.attempts| + 1 && BeatBy(d, |c.attempts|, |c.attempts|, ok)
  {
    var swept := Apply(began, Sweep(staleAfter));
    StepIsLater(began, Sweep(staleAfter));
    LaterKeepsAttempt(began, swept, |c.attempts|);
    LaterIsTransitive(c, began, swept);
    LastOfBeat(c, swept, ok);
  }

  lemma LastOfBeat(c: Cron, swept: Cron, ok: bool)
    requires Later(c, swept) && Resolves(swept, |c.attempts|) && JobOf(swept, |c.attempts|).None?
    requires swept.jobs == c.jobs && swept.now == c.now && |swept.attempts| == |c.attempts| + 1
    ensures var d := Apply(swept, Finish(|c.attempts|, ok));
            && Later(c, d) && d.jobs == c.jobs && d.now == c.now
            && |d.attempts| == |c.attempts| + 1 && BeatBy(d, |c.attempts|, |c.attempts|, ok)
  {
    BeatEnds(swept, |c.attempts|, ok);
    LaterIsTransitive(c, swept, Closed(swept, |c.attempts|, ok));
  }

  lemma BeatBegins(c: Cron)
    ensures var d := Apply(c, Begin(None));
            && Resolves(d, |c.attempts|) && JobOf(d, |c.attempts|).None? && |d.attempts| == |c.attempts| + 1
            && d.jobs == c.jobs && d.now == c.now && d.zones == c.zones
  {
    TaskIsFound(c, None);
  }

  lemma BeatEnds(c: Cron, a: nat, ok: bool)
    requires Resolves(c, a) && JobOf(c, a).None?
    ensures var d := Closed(c, a, ok);
            && Finished(c, a, ok) == d && Later(c, d) && d.jobs == c.jobs && d.now == c.now
            && |d.attempts| == |c.attempts| && BeatBy(d, a, a, ok)
  {}

  lemma PendingShrinks(due: seq<nat>, k: nat, c: Cron, t: int)
    requires k < |due| && OnlyPendingDue(c, t, Pending(due, k) - {due[k]})
    ensures OnlyPendingDue(c, t, Pending(due, k + 1))
  {}

  // ------------------------------------------------------- undisturbed ticks

  /** What an undisturbed tick makes of a job. */
  ghost function AfterTick(c: Cron, j: nat): CronJob
    requires j < |c.jobs|
  {
    if Due(c, j, c.now)
    then c.jobs[j].(lastRun := Some(c.now),
                    nextRun := NextRun(c.zones, c.jobs[j].schedule, c.jobs[j].zone, c.now, Some(c.now)))
    else c.jobs[j]
  }

  /** An undisturbed tick in the fields of the rows: every active job whose plan had come
      has run now and is planned from now on, on time; no other job has changed. */
  ghost predicate TickedOnTime(c: Cron, d: Cron) {
    |d.jobs| == |c.jobs| && forall j: nat | j < |c.jobs| ::
      if c.jobs[j].status == JobActive && c.jobs[j].nextRun.Some? && c.jobs[j].nextRun.value <= c.now
      then && d.jobs[j].status == JobActive && d.jobs[j].lastRun == Some(c.now) && PlannedAt(c.zones, d.jobs[j], c.now)
           && d.jobs[j].schedule == c.jobs[j].schedule && d.jobs[j].zone == c.jobs[j].zone
      else d.jobs[j] == c.jobs[j]
  }

  lemma TickPlans(c: Cron, d: Cron)
    requires Sound(c) && |d.jobs| == |c.jobs|
    requires forall j: nat | j < |c.jobs| :: d.jobs[j] == AfterTick(c, j)
    ensures TickedOnTime(c, d)
  {
    forall j: nat | j < |c.jobs| && Due(c, j, c.now) ensures PlannedAt(c.zones, d.jobs[j], c.now) {
      assert JobSound(c.zones, c.jobs[j]);
      NextRunIsLater(c.zones, c.jobs[j].schedule, c.jobs[j].zone, c.now, Some(c.now));
      NewPlan(c, d.jobs[j], d.jobs[j].schedule, Some(c.now));
    }
  }

  ghost predicate TickedSoFar(c: Cron, d: Cron, due: seq<nat>, k: nat)
    requires k <= |due|
  {
    && d.zones == c.zones && d.now == c.now && |d.jobs| == |c.jobs| && |d.attempts| == |c.attempts| + k
    && forall j: nat | j < |c.jobs| :: d.jobs[j] == if j in due[..k] then AfterTick(c, j) else c.jobs[j]
  }

  lemma QuietRun(c: Cron, d: Cron, due: seq<nat>, k: nat, ok: bool)
    requires Sound(d) && k < |due| && Distinct(due) && TickedSoFar(c, d, due, k)
    requires forall j: nat | j in due :: Due(c, j, c.now)
    ensures TickedSoFar(c, OneRun(Replay(d, []), due[k], [], ok), due, k + 1)
  {
    var j := due[k];
    assert j in due;
    assert j !in due[..k];
    assert due[..k+1] == due[..k] + [j];
    QuietRunIs(d, j, ok);
    assert OneRun(Replay(d, []), j, [], ok).jobs == d.jobs[j := AfterTick(c, j)];
  }

  /** An undisturbed run adds an attempt and plans its job from now. */
  lemma QuietRunIs(d: Cron, j: nat, ok: bool)
    requires Sound(d) && j < |d.jobs|
    ensures var e := OneRun(Replay(d, []), j, [], ok);
            && e.zones == d.zones && e.now == d.now && |e.attempts| == |d.attempts| + 1
            && e.jobs ==
                 d.jobs[j := d.jobs[j].(lastRun := Some(d.now),
                                        nextRun := NextRun(d.zones, d.jobs[j].schedule, d.jobs[j].zone, d.now,
                                            Some(d.now)))]
  {
    QuietRunSteps(d, j, ok);
    QuietBegin(d, j);
    EndIs(Apply(d, Begin(Some(j))), |d.attempts|, j, ok);
  }

  lemma QuietRunSteps(d: Cron, j: nat, ok: bool)
    ensures OneRun(Replay(d, []), j, [], ok) == Apply(Apply(d, Begin(Some(j))), Finish(|d.attempts|, ok))
  {
    assert Replay(d, []) == d;
    assert Replay(Apply(d, Begin(Some(j))), []) == Apply(d, Begin(Some(j)));
  }

  lemma QuietBegin(d: Cron, j: nat)
    requires Sound(d) && j < |d.jobs|
    ensures var e := Apply(d, Begin(Some(j)));
            && Sound(e) && Resolves(e, |d.attempts|) && JobOf(e, |d.attempts|) == Some(j)
            && |e.attempts| == |d.attempts| + 1 && e.jobs == d.jobs && e.now == d.now && e.zones == d.zones
  {
    BeginResolves(d, j);
    StartKeepsSound(d, Some(j));
  }

  lemma EndIs(d: Cron, a: nat, j: nat, ok: bool)
    requires Sound(d) && Resolves(d, a) && JobOf(d, a) == Some(j)
    ensures var e := Apply(d, Finish(a, ok));
            && e.zones == d.zones && e.now == d.now && |e.attempts| == |d.attempts|
            && e.jobs ==
                 d.jobs[j := d.jobs[j].(lastRun := Some(d.now),
                                        nextRun := NextRun(d.zones, d.jobs[j].schedule, d.jobs[j].zone, d.now,
                                            Some(d.now)))]
  {
    assert JobSound(d.zones, d.jobs[j]);
    NextRunIsLater(d.zones, d.jobs[j].schedule, d.jobs[j].zone, d.now, Some(d.now));
  }

  lemma TickedJobs(c: Cron, d: Cron, due: seq<nat>)
    requires TickedSoFar(c, d, due, |due|)
    requires forall j: nat :: j in due <==> Due(c, j, c.now)
    ensures forall j: nat | j < |c.jobs| :: d.jobs[j] == AfterTick(c, j)
  {
    assert due[..|due|] == due;
  }
}
