/** The actors that drive the subagent tables: the API's cancel, the worker and the
    stuck-run sweeper.  Each reads in one transaction and writes in a later one;
    the `gap` parameters are what other actors commit in between. */
module SubagentService {
  import opened Tables
  import opened Transitions
  import opened Protocol
  import opened Agreement
  import opened MessageLog
  import opened Consistency
  import opened Lifecycle
  import opened Effects
  import opened Reports
  import opened SubagentRepository
  import opened Sorting

  /** What the summary builder makes of a finished run. */
  datatype Report = Report(summary: string, output: string, cost: Option<int>, parentText: string)

  /** How the agent kernel stopped. */
  datatype KernelEnd =
    | Answered(status: Status, text: string)
    | CancelledError
    | TimeoutError
    | OtherError

  /** A delegated run may not wait for an approval: that counts as a failure. */
  function NormalizeStatus(status: Status): Status {
    if status == AwaitingApproval then Failed else status
  }

  const ApprovalNeeded := "Subagent execution stopped because a tool requires approval."

  function ErrorCodeOf(end: KernelEnd): Option<string> {
    match end
    case Answered(AwaitingApproval, _) => Some("subagent_approval_required")
    case Answered(Failed, _) => Some("subagent_execution_failed")
    case Answered(_, _) => None
    case CancelledError => Some("subagent_cancelled")
    case TimeoutError => Some("subagent_timed_out")
    case OtherError => Some("subagent_execution_failed")
  }

  /** What the executor writes down; any answer that is neither a failure nor a
      request for approval counts as completed. */
  function OutcomeOf(end: KernelEnd): Outcome {
    match end
    case Answered(status, text) =>
      var normal := if status == AwaitingApproval then ApprovalNeeded else text;
      if NormalizeStatus(status) == Failed then Outcome(Failed, normal, None, Some(normal), None)
      else Outcome(Completed, normal, None, None, None)
    case CancelledError =>
      Outcome(Cancelled, "", None, Some("Subagent execution was cancelled before normal completion."), None)
    case TimeoutError =>
      Outcome(TimedOut, "", None, Some("Subagent execution timed out before normal completion."), None)
    case OtherError =>
      Outcome(Failed, "", None, Some("Subagent execution failed before producing a result."), None)
  }

  /** A delegated execution always ends in a terminal status. */
  lemma DelegatedOutcomeIsTerminal(end: KernelEnd)
    ensures Terminal(OutcomeOf(end).status)
    ensures OutcomeOf(end).status == Completed <==>
              end.Answered? && end.status != Failed && end.status != AwaitingApproval
  {}

  /** What the executor notes for each way to stop: the answer's own text unless it asked
      for an approval, an error text and code for everything but a completed answer. */
  lemma DelegatedOutcomeSays(end: KernelEnd)
    ensures var o := OutcomeOf(end);
            && o.output.None? && o.cost.None?
            && (o.error.Some? <==> o.status != Completed) && (ErrorCodeOf(end).Some? <==> o.status != Completed)
            && (end.Answered? ==> o.text == if end.status == AwaitingApproval then ApprovalNeeded else end.text)
            && (end.Answered? && o.status == Failed ==> o.error == Some(o.text))
            && (!end.Answered? ==> o.text == "")
            && (end.CancelledError? ==> o.status == Cancelled && ErrorCodeOf(end) == Some("subagent_cancelled"))
            && (end.TimeoutError? ==> o.status == TimedOut && ErrorCodeOf(end) == Some("subagent_timed_out"))
            && (end.OtherError? ==> o.status == Failed && ErrorCodeOf(end) == Some("subagent_execution_failed"))
            && (end.Answered? && end.status == Failed ==> ErrorCodeOf(end) == Some("subagent_execution_failed"))
            && (end.Answered? && end.status == AwaitingApproval ==>
                  ErrorCodeOf(end) == Some("subagent_approval_required"))
  {}

  function DeadlineBase(run: Run): int {
    if run.startedAt.Some? then run.startedAt.value else run.updatedAt
  }

  /** The time after which the sweeper gives a running run up. */
  function Deadline(s: Store, r: nat, defaultTimeout: int, grace: int): int
    requires r < |s.runs| && s.runs[r].child < |s.sessions|
  {
    var own := s.sessions[s.runs[r].child].timeout;
    var timeout := if own.Some? && own.value != 0 then own.value else defaultTimeout;
    DeadlineBase(s.runs[r]) + (timeout + grace)
  }

  predicate Stuck(s: Store, r: nat, defaultTimeout: int, grace: int)
    requires r < |s.runs| && s.runs[r].child < |s.sessions|
  {
    s.runs[r].status == Running && Deadline(s, r, defaultTimeout, grace) <= s.now
  }

  /** A running run is stuck once its own timeout, or the default if it has none or zero,
      and the grace have passed since it was started, or last changed if that is unknown. */
  lemma StuckMeans(s: Store, r: nat, d: int, g: int)
    requires r < |s.runs| && s.runs[r].child < |s.sessions|
    ensures var run, own := s.runs[r], s.sessions[s.runs[r].child].timeout;
            && (run.status != Running ==> !Stuck(s, r, d, g))
            && (run.status == Running && own.Some? && own.value != 0 && run.startedAt.Some? ==>
                  (Stuck(s, r, d, g) <==> s.now - run.startedAt.value >= own.value + g))
            && (run.status == Running && (own.None? || own == Some(0)) && run.startedAt.Some? ==>
                  (Stuck(s, r, d, g) <==> s.now - run.startedAt.value >= d + g))
            && (run.status == Running && own.Some? && own.value != 0 && run.startedAt.None? ==>
                  (Stuck(s, r, d, g) <==> s.now - run.updatedAt >= own.value + g))
            && (run.status == Running && (own.None? || own == Some(0)) && run.startedAt.None? ==>
                  (Stuck(s, r, d, g) <==> s.now - run.updatedAt >= d + g))
  {}

  /** While a run keeps running nothing moves its deadline, and time only helps. */
  ghost predicate Waits(s: Store, t: Store, r: nat)
    requires r < |s.runs| && r < |t.runs|
  {
    && t.runs[r].startedAt == s.runs[r].startedAt
    && t.runs[r].child == s.runs[r].child
    && s.runs[r].child < |s.sessions| <= |t.sessions|
    && t.sessions[s.runs[r].child].timeout == s.sessions[s.runs[r].child].timeout
    && s.now <= t.now
  }

  lemma StepWaits(s: Store, limit: int, e: Event, r: nat)
    requires Consistent(s, limit) && r < |s.runs| && s.runs[r].status == Running
    ensures r < |Step(s, limit, e).runs| && Waits(s, Step(s, limit, e), r)
  {
    assert RunShape(s, r);
    ClaimPicksQueued(s.runs);
    StepKeepsClock(s, limit, e);
    StepAdvances(s, limit, e);
    StepKeepsTimeouts(s, limit, e);
    if !WritesRuns(e) { OtherStepsKeepRuns(s, limit, e); }
  }

  lemma StepKeepsTimeouts(s: Store, limit: int, e: Event)
    ensures var t := Step(s, limit, e);
            && |s.sessions| <= |t.sessions|
            && forall x: nat | x < |s.sessions| :: t.sessions[x].timeout == s.sessions[x].timeout
  {}

  lemma {:induction false} StuckStaysStuck(s: Store, limit: int, es: seq<Event>, r: nat, d: int, g: int)
    requires Consistent(s, limit) && r < |s.runs| && s.runs[r].startedAt.Some?
    requires s.runs[r].child < |s.sessions| && Stuck(s, r, d, g)
    ensures var t := After(s, limit, es);
            && r < |t.runs| && t.runs[r].child < |t.sessions|
            && (t.runs[r].status == Running ==> t.runs[r].startedAt.Some? && Stuck(t, r, d, g))
            && (t.runs[r].status == Running || Terminal(t.runs[r].status))
    decreases |es|
  {
    if |es| > 0 {
      var u := Step(s, limit, es[0]);
      StepKeepsConsistent(s, limit, es[0]);
      StepWaits(s, limit, es[0], r);
      StepAdvances(s, limit, es[0]);
      assert Advances(s.runs[r], u.runs[r]);
      assert RunShape(u, r);
      if u.runs[r].status == Running {
        StuckStaysStuck(u, limit, es[1..], r, d, g);
      } else {
        HistoryGrows(u, limit, es[1..]);
        var t := After(u, limit, es[1..]);
        assert Advances(u.runs[r], t.runs[r]);
        AlwaysConsistent(u, limit, es[1..]);
        assert RunShape(t, r);
      }
    }
  }

  /** A run that is still running after a history was started when it was before. */
  lemma {:induction false} StartStays(s: Store, limit: int, es: seq<Event>, r: nat)
    requires Consistent(s, limit) && r < |s.runs| && s.runs[r].status == Running
    ensures var t := After(s, limit, es);
            && r < |t.runs| && (t.runs[r].status == Running ==> Waits(s, t, r))
    decreases |es|
  {
    assert RunShape(s, r);
    if |es| > 0 {
      var u := Step(s, limit, es[0]);
      StepKeepsConsistent(s, limit, es[0]);
      StepWaits(s, limit, es[0], r);
      RunsOnlyAdvance(u, limit, es[1..], r);
      StepAdvances(s, limit, es[0]);
      assert Advances(s.runs[r], u.runs[r]) && Advances(u.runs[r], After(u, limit, es[1..]).runs[r]);
      if u.runs[r].status == Running { StartStays(u, limit, es[1..], r); }
    }
  }

  lemma {:induction false} TimeoutsStay(s: Store, limit: int, es: seq<Event>)
    ensures var t := After(s, limit, es);
            && |s.sessions| <= |t.sessions|
            && forall x: nat | x < |s.sessions| :: t.sessions[x].timeout == s.sessions[x].timeout
    decreases |es|
  {
    if |es| > 0 {
      StepKeepsTimeouts(s, limit, es[0]);
      TimeoutsStay(Step(s, limit, es[0]), limit, es[1..]);
    }
  }

  /** Over whole histories: a run that was spawned with a timeout and claimed at some
      time is stuck, as long as it runs, exactly from that time plus its timeout plus the
      grace on; a timeout of zero stands for the default. */
  lemma StuckFromItsDeadlineOn(
    limit: int, before: seq<Event>, parent: nat, timeout: int, mid: seq<Event>, later: seq<Event>, d: int, g: int)
    requires SpawnCheck(After(EmptyStore, limit, before), parent, limit).Ok?
    requires var s := After(EmptyStore, limit, before);
             OldestQueued(After(Spawn(s, parent, timeout, limit), limit, mid).runs) == Some(|s.runs|)
    ensures var s := After(EmptyStore, limit, before);
            var u := After(Spawn(s, parent, timeout, limit), limit, mid);
            var t := After(Claim(u), limit, later);
            var r := |s.runs|;
            && r < |t.runs|
            && (StuckRow(t, r, d, g) <==>
                  t.runs[r].status == Running && t.now >= u.now + (if timeout == 0 then d else timeout) + g)
            && (t.runs[r].status == Running ==>
                  && t.runs[r].startedAt == Some(u.now) && t.runs[r].child < |t.sessions|
                  && t.sessions[t.runs[r].child].timeout == Some(timeout))
  {
    var s := After(EmptyStore, limit, before);
    var spawned := Spawn(s, parent, timeout, limit);
    var u := After(spawned, limit, mid);
    var r := |s.runs|;
    NothingHappened(limit);
    ReachableGoesOn(EmptyStore, limit, before);
    OneStep(s, limit, SpawnEvent(parent, timeout));
    ReachableGoesOn(spawned, limit, mid);
    OneStep(u, limit, ClaimEvent);
    ReachableIsConsistent(Claim(u), limit);
    SpawnWrites(s, parent, timeout, limit);
    RunThroughHistory(spawned, limit, mid, r);
    TimeoutsStay(spawned, limit, mid);
    ClaimWrites(u);
    var t := After(Claim(u), limit, later);
    StartStays(Claim(u), limit, later, r);
    TimeoutsStay(Claim(u), limit, later);
    RunThroughHistory(Claim(u), limit, later, r);
    StuckMeans(t, r, d, g);
  }

  predicate StartedFirst(s: Store, q: nat, r: nat) {
    if q < |s.runs| && r < |s.runs| then
      var a, b := DeadlineBase(s.runs[q]), DeadlineBase(s.runs[r]);
      a < b || (a == b && s.runs[q].createdAt <= s.runs[r].createdAt)
    else r >= |s.runs|
  }

  /** The running runs in the order a sweep takes them. */
  function SweepOrder(s: Store): seq<nat> {
    Sort(RunningIds(s.runs), StartOrder(s))
  }

  function StartOrder(s: Store): (nat, nat) -> bool {
    (q: nat, r: nat) => StartedFirst(s, q, r)
  }

  /** By the start, or by the last change if that is unknown, and then by creation. */
  ghost predicate StartsNoLater(a: Run, b: Run) {
    var from := if a.startedAt.Some? then a.startedAt.value else a.updatedAt;
    var to := if b.startedAt.Some? then b.startedAt.value else b.updatedAt;
    from <= to && (from == to ==> a.createdAt <= b.createdAt)
  }

  lemma StartOrderIsTotal(s: Store)
    ensures TotalPreorder(StartOrder(s))
  {}

  lemma StartedFirstMeans(s: Store, q: nat, r: nat)
    requires q < |s.runs| && r < |s.runs| && StartedFirst(s, q, r)
    ensures StartsNoLater(s.runs[q], s.runs[r])
  {}

  /** Every running run once, those that started earlier first, and of those that started
      together the ones created earlier. */
  lemma SweptInOrderOfStart(s: Store)
    ensures var ids := SweepOrder(s);
            && Distinct(ids)
            && (forall r: nat :: r in ids <==> r < |s.runs| && s.runs[r].status == Running)
            && (forall i: nat, j: nat | i < j < |ids| ::
                  ids[i] < |s.runs| && ids[j] < |s.runs| && StartsNoLater(s.runs[ids[i]], s.runs[ids[j]]))
  {
    var ids := SweepOrder(s);
    RunningIdsAreRunning(s.runs);
    SortKeepsMembers(RunningIds(s.runs), StartOrder(s));
    SortKeepsDistinct(RunningIds(s.runs), StartOrder(s));
    StartOrderIsTotal(s);
    SortSorts(RunningIds(s.runs), StartOrder(s));
    forall i: nat, j: nat | i < j < |ids|
      ensures ids[i] < |s.runs| && ids[j] < |s.runs| && StartsNoLater(s.runs[ids[i]], s.runs[ids[j]])
    {
      assert ids[i] in ids && ids[j] in ids;
      assert StartOrder(s)(ids[i], ids[j]);
      StartedFirstMeans(s, ids[i], ids[j]);
    }
  }

  function RunningIds(runs: seq<Run>): seq<nat> {
    if |runs| == 0 then [] else
    RunningIds(runs[..|runs|-1]) + if runs[|runs|-1].status == Running then [|runs|-1] else []
  }

  lemma {:induction false} RunningIdsAreRunning(runs: seq<Run>)
    ensures forall r: nat :: r in RunningIds(runs) <==> r < |runs| && runs[r].status == Running
    ensures Distinct(RunningIds(runs))
  {
    if |runs| > 0 {
      var before := RunningIds(runs[..|runs|-1]);
      RunningIdsAreRunning(runs[..|runs|-1]);
      assert forall i: nat | i < |before| :: before[i] in before;
    }
  }

  /** The verdict the sweeper reaches for a stuck run. */
  function SweepStatus(run: Run): TerminalStatus {
    if run.cancelRequestedAt.Some? then Cancelled else TimedOut
  }

  function SweepVerdict(run: Run, report: Report): Verdict {
    if run.cancelRequestedAt.Some? then
      Verdict(Cancelled, report.summary, report.output, report.cost, Some("subagent_cancelled"),
              Some("Subagent execution was cancelled after exceeding its timeout window."), report.parentText)
    else
      Verdict(TimedOut, report.summary, report.output, report.cost, Some("subagent_timed_out"),
              Some("Subagent execution timed out before normal completion."), report.parentText)
  }

  /** The worker's verdict: cancelled when that was asked for, else as it ended. */
  function ConcludingVerdict(run: Run, final: KernelEnd, report: Report): Verdict {
    DelegatedOutcomeIsTerminal(final);
    Verdict(if run.cancelRequestedAt.Some? then Cancelled else OutcomeOf(final).status,
            report.summary, report.output, report.cost, ErrorCodeOf(final), OutcomeOf(final).error, report.parentText)
  }

  /** The verdict of a cancel that found the run queued. */
  function CancelVerdict(report: Report): Verdict {
    Verdict(Cancelled, report.summary, report.output, None, Some("subagent_cancelled"), Some(report.summary),
            report.parentText)
  }

  /** What the verdicts say, field by field. */
  lemma VerdictsSay(run: Run, final: KernelEnd, report: Report)
    ensures var swept := SweepVerdict(run, report);
            && swept.summary == report.summary && swept.output == report.output && swept.cost == report.cost
            && swept.parentText == report.parentText && swept.errorSummary.Some?
            && (run.cancelRequestedAt.Some? ==>
                  swept.status == Cancelled && swept.errorCode == Some("subagent_cancelled"))
            && (run.cancelRequestedAt.None? ==>
                  swept.status == TimedOut && swept.errorCode == Some("subagent_timed_out"))
    ensures var own := ConcludingVerdict(run, final, report);
            && own.summary == report.summary && own.output == report.output && own.cost == report.cost
            && own.parentText == report.parentText
            && CancelVerdict(report).status == Cancelled && CancelVerdict(report).summary == report.summary
            && CancelVerdict(report).parentText == report.parentText
            && own.errorCode == ErrorCodeOf(final) && own.errorSummary == OutcomeOf(final).error
            && (run.cancelRequestedAt.Some? ==> own.status == Cancelled)
            && (run.cancelRequestedAt.None? ==> own.status == OutcomeOf(final).status)
  {}

  /** The status and the report of a run after it was swept. */
  ghost predicate SweptRow(before: Run, t: Store, r: nat, now: int, report: Report) {
    && r < |t.runs| && t.runs[r].status == SweepStatus(before) && t.runs[r].finishedAt == Some(now)
    && Reported(t, r, SweepVerdict(before, report))
  }

  class Service {
    const repo: Repository
    const defaultTimeout: int
    const grace: int

    constructor (repo: Repository, defaultTimeout: int, grace: int)
      ensures this.repo == repo && this.defaultTimeout == defaultTimeout && this.grace == grace
    {
      this.repo, this.defaultTimeout, this.grace := repo, defaultTimeout, grace;
    }

    method FindRun(parent: nat, child: nat) returns (found: Option<nat>)
      requires repo.Valid()
      ensures found.Some? ==>
                && found.value < |repo.runs| && repo.runs[found.value].child == child
                && repo.runs[found.value].launcher == parent
      ensures found.None? ==> forall r: nat | r < |repo.runs| ::
                !(repo.runs[r].child == child && repo.runs[r].launcher == parent)
    {
      for i := 0 to |repo.runs|
        invariant forall r: nat | r < i :: !(repo.runs[r].child == child && repo.runs[r].launcher == parent)
      {
        RunThroughHistory(repo.Tables(), repo.maxConcurrency, [], i);
        if repo.runs[i].child == child && repo.sessions[child].parent == Some(parent) {
          return Some(i);
        }
      }
      return None;
    }

    /** The API's cancel reads the run, and acts on what it read after others have had
        time to act: a run it read queued is finalized, one it read running is stamped,
        whatever its status is by then.  The cancellation is never lost; but it is
        respected only when the run had not ended completed or failed meanwhile. */
    method Cancel(parent: nat, child: nat, gap: seq<Event>, report: Report)
      returns (res: Result<nat>, ghost trace: seq<Event>)
      requires repo.Valid()
      modifies repo
      ensures repo.Valid()
      ensures repo.Tables() == After(old(repo.Tables()), repo.maxConcurrency, trace)
      ensures parent >= |old(repo.sessions)| ==> res == Err(SessionNotFound)
      ensures parent < |old(repo.sessions)| && !old(repo.sessions)[parent].kind.Main? ==> res == Err(OnlyMainSessions)
      ensures res.Err? ==> trace == []
      ensures res == Err(SubagentNotFound) ==> forall r: nat | r < |repo.runs| ::
                !(repo.runs[r].child == child && repo.runs[r].launcher == parent)
      ensures res.Ok? ==>
                && res.value < |old(repo.runs)| <= |repo.runs|
                && repo.runs[res.value].child == child && repo.runs[res.value].launcher == parent
                && (Terminal(repo.runs[res.value].status) || repo.runs[res.value].cancelRequestedAt.Some?)
                && (old(repo.runs)[res.value].status == Queued ==> Terminal(repo.runs[res.value].status))
                && (old(repo.runs)[res.value].status == Queued && gap == [] ==>
                      && repo.runs[res.value].status == Cancelled
                      && Reported(repo.Tables(), res.value, CancelVerdict(report)))
                && (old(repo.runs)[res.value].status == Running ==>
                      && repo.runs[res.value].cancelRequestedAt.Some?
                      && repo.runs[res.value].cancelRequestedAt == Some(repo.now)
                      && var t := After(old(repo.Tables()), repo.maxConcurrency, gap);
                         && res.value < |t.runs| && repo.runs[res.value].status == t.runs[res.value].status
                         && (Honoured(repo.runs[res.value]) <==> RespectsRequest(t.runs[res.value].status)))
    {
      trace := [];
      if parent >= |repo.sessions| { return Err(SessionNotFound), []; }
      if repo.sessions[parent].kind != Main { return Err(OnlyMainSessions), []; }
      var found := FindRun(parent, child);
      if found.None? { return Err(SubagentNotFound), []; }
      var r := found.value;
      var observed := repo.runs[r].status;
      ghost var s, limit := repo.Tables(), repo.maxConcurrency;
      RunThroughHistory(s, limit, gap, r);
      repo.Interfere(gap);
      ghost var t := repo.Tables();
      trace := gap;
      RunThroughHistory(t, limit, [], r);
      if observed == Queued {
        var v := CancelVerdict(report);
        trace := gap + [FinalizeEvent(r, v)];
        ThenOne(s, limit, gap, FinalizeEvent(r, v));
        RunThroughHistory(t, limit, [FinalizeEvent(r, v)], r);
        CancelQueued(r, report);
      } else if observed == Running {
        trace := gap + [RequestCancelEvent(r)];
        ThenOne(s, limit, gap, RequestCancelEvent(r));
        repo.RequestCancellation(r, observed);
      }
      res := Ok(r);
    }

    /** The verdict of the cancel, on a run that was queued when it was read. */
    method CancelQueued(r: nat, report: Report)
      requires repo.Valid() && r < |repo.runs|
      modifies repo
      ensures repo.Valid() && repo.Tables() == Finalize(old(repo.Tables()), r, CancelVerdict(report))
      ensures r < |repo.runs| && Terminal(repo.runs[r].status)
      ensures old(repo.runs)[r].status == Queued ==>
                repo.runs[r].status == Cancelled && Reported(repo.Tables(), r, CancelVerdict(report))
    {
      ReachableIsConsistent(repo.Tables(), repo.maxConcurrency);
      FinalizeEndsRun(repo.Tables(), repo.maxConcurrency, r, CancelVerdict(report));
      if repo.runs[r].status == Queued { FinalizeReports(repo.Tables(), r, CancelVerdict(report)); }
      var done := repo.FinalizeRun(r, CancelVerdict(report));
    }

    /** The sweeper looks at one run it saw running, and gives it up if its deadline has
        passed; others act in `gap` before the verdict is recorded. */
    method SweepOne(r: nat, gap: seq<Event>, report: Report) returns (swept: bool, ghost events: seq<Event>)
      requires repo.Valid() && r < |repo.runs| && repo.runs[r].status != Queued
      modifies repo
      ensures repo.Valid()
      ensures repo.Tables() == After(old(repo.Tables()), repo.maxConcurrency, events)
      ensures |old(repo.runs)| <= |repo.runs|
      ensures StuckRow(old(repo.Tables()), r, defaultTimeout, grace) ==> Terminal(repo.runs[r].status)
      ensures gap == [] ==> SweptOne(old(repo.Tables()), repo.Tables(), r, report, defaultTimeout, grace)
      ensures old(repo.runs)[r].status == Running ==>
                (swept <==> StuckRow(old(repo.Tables()), r, defaultTimeout, grace))
    {
      HasLineage(repo.Tables(), repo.maxConcurrency, r);
      if Deadline(repo.Tables(), r, defaultTimeout, grace) > repo.now {
        return false, [];
      }
      var v := SweepVerdict(repo.runs[r], report);
      SweepStep(repo.Tables(), repo.maxConcurrency, r, gap, v, report, defaultTimeout, grace);
      repo.Interfere(gap);
      var done := repo.FinalizeRun(r, v);
      return true, gap + [FinalizeEvent(r, v)];
    }

    /** The sweeper lists the running runs, oldest start first, and sweeps each; `env[i]`
        is committed by others between its reading of the i-th run and its verdict on it.
        Every run that was stuck at the start is terminal at the end, and a sweep that
        nobody disturbs changes exactly the stuck runs. */
    method CleanupStuckRuns(env: seq<seq<Event>>, report: Report) returns (cleaned: nat, ghost trace: seq<Event>)
      requires repo.Valid()
      modifies repo
      ensures repo.Valid()
      ensures repo.Tables() == After(old(repo.Tables()), repo.maxConcurrency, trace)
      ensures |old(repo.runs)| <= |repo.runs|
      ensures forall r: nat | r < |old(repo.runs)| && StuckRow(old(repo.Tables()), r, defaultTimeout, grace) ::
                Terminal(repo.runs[r].status)
      ensures env == [] ==>
                cleaned == |StuckAmong(old(repo.Tables()), RunningIds(old(repo.runs)), defaultTimeout, grace)|
      ensures env == [] ==> SweptOnTime(old(repo.Tables()), repo.Tables(), report, defaultTimeout, grace)
    {
      var s := repo.Tables();
      ghost var limit := repo.maxConcurrency;
      cleaned, trace := 0, [];
      var ids := SweepOrder(s);
      SweptInOrderOfStart(s);
      RunningIdsAreRunning(s.runs);
      for i := 0 to |ids|
        invariant repo.Valid()
        invariant Sweeping(s, limit, repo.Tables(), trace, ids, i, cleaned, env == [], report, defaultTimeout, grace)
      {
        ghost var here := repo.Tables();
        assert ids[i] in ids;
        RunThroughHistory(s, limit, trace, ids[i]);
        var swept, events := SweepOne(ids[i], if i < |env| then env[i] else [], report);
        SweepRound(s, limit, here, repo.Tables(), trace, events, swept, ids, i, cleaned, env == [], report,
                   defaultTimeout, grace);
        trace := trace + events;
        if swept { cleaned := cleaned + 1; }
      }
      SweepEnds(s, limit, repo.Tables(), trace, ids, cleaned, env == [], report, defaultTimeout, grace);
      if env == [] { SweptExactly(s, limit, repo.Tables(), report, defaultTimeout, grace); }
    }

    /** The worker writes down the task of a claimed run, then attaches it. */
    method StartTask(r: nat, gaps: seq<seq<Event>>) returns (tr: nat, ghost events: seq<Event>)
      requires repo.Valid() && r < |repo.runs|
      modifies repo
      ensures repo.Valid()
      ensures repo.Tables() == After(old(repo.Tables()), repo.maxConcurrency, events)
      ensures Owns(repo.Tables(), r, tr)
      ensures gaps == [] ==>
                && repo.runs[r].status == old(repo.runs)[r].status && repo.runs[r].taskRun == Some(tr)
                && repo.runs[r].cancelRequestedAt == old(repo.runs)[r].cancelRequestedAt
    {
      ghost var s, limit := repo.Tables(), repo.maxConcurrency;
      events := GapAt(gaps, 0);
      ReachableGoesOn(s, limit, events);
      RunThroughHistory(s, limit, events, r);
      repo.Interfere(GapAt(gaps, 0));
      ThenOne(s, limit, events, PrepareEvent(r));
      tr := repo.PrepareExecution(r);
      events := events + [PrepareEvent(r)];
      ThenGap(s, limit, events, GapAt(gaps, 1));
      OwnsThroughHistory(repo.Tables(), limit, GapAt(gaps, 1), r, tr);
      repo.Interfere(GapAt(gaps, 1));
      events := events + GapAt(gaps, 1);
      ThenOne(s, limit, events, AttachEvent(r, tr));
      repo.AttachExecutionIds(r, tr);
      events := events + [AttachEvent(r, tr)];
    }

    /** The kernel runs between two looks at the cancellation flag. */
    method RunKernel(r: nat, gaps: seq<seq<Event>>, end: KernelEnd) returns (final: KernelEnd)
      requires repo.Valid() && r < |repo.runs|
      modifies repo
      ensures repo.Valid()
      ensures repo.Tables() == After(old(repo.Tables()), repo.maxConcurrency, GapAt(gaps, 2) + GapAt(gaps, 3))
      ensures gaps == [] ==> repo.Tables() == old(repo.Tables())
      ensures final == end || final == CancelledError
      ensures gaps == [] && old(repo.runs)[r].status == Running && old(repo.runs)[r].cancelRequestedAt.None? ==>
                final == end
    {
      AfterConcat(repo.Tables(), repo.maxConcurrency, GapAt(gaps, 2), GapAt(gaps, 3));
      repo.Interfere(GapAt(gaps, 2));
      final := end;
      var stop := repo.ShouldCancel(r);
      if stop { final := CancelledError; }
      repo.Interfere(GapAt(gaps, 3));
      if final.Answered? {
        stop := repo.ShouldCancel(r);
        if stop { final := CancelledError; }
      }
    }

    /** What the kernel produced is written down in a transaction of its own, even when
        others have finalized the run since the last look at the flag.  The write raises
        exactly when its message has been overtaken by another one in the child session. */
    method Execute(r: nat, tr: nat, gaps: seq<seq<Event>>, end: KernelEnd)
      returns (final: KernelEnd, raised: bool, ghost seen: Reading, ghost events: seq<Event>)
      requires repo.Valid() && Owns(repo.Tables(), r, tr)
      modifies repo
      ensures repo.Valid()
      ensures repo.Tables() == After(old(repo.Tables()), repo.maxConcurrency, events)
      ensures r < |repo.runs|
      ensures events == KernelGaps(gaps) + [PersistEvent(tr, OutcomeOf(final), seen)]
      ensures var seenFrom := GapAt(gaps, 2) + GapAt(gaps, 3) + GapAt(gaps, 4);
              var here := After(old(repo.Tables()), repo.maxConcurrency, seenFrom);
              && r < |here.runs| && here.runs[r].child < |here.sessions|
              && seen == ReadAcross(here, After(here, repo.maxConcurrency, GapAt(gaps, 5)), here.runs[r].child)
      ensures var u := After(old(repo.Tables()), repo.maxConcurrency, KernelGaps(gaps));
              raised <==> !Persistable(u, tr, OutcomeOf(final), seen)
      ensures raised ==> OutcomeOf(final).text != "" && GapAt(gaps, 6) != []
      ensures final == end || final == CancelledError
      ensures gaps == [] ==> repo.runs == old(repo.runs)
      ensures gaps == [] && old(repo.runs)[r].status == Running && old(repo.runs)[r].cancelRequestedAt.None? ==>
                final == end
    {
      ghost var s, limit := repo.Tables(), repo.maxConcurrency;
      events := GapAt(gaps, 2) + GapAt(gaps, 3);
      OwnsThroughHistory(s, limit, events + GapAt(gaps, 4), r, tr);
      final := RunKernel(r, gaps, end);
      ThenGap(s, limit, events, GapAt(gaps, 4));
      repo.Interfere(GapAt(gaps, 4));
      events := events + GapAt(gaps, 4);
      DelegatedOutcomeIsTerminal(final);
      ghost var here := repo.Tables();
      ThenTwoGaps(s, limit, events, GapAt(gaps, 5), GapAt(gaps, 6));
      HasLineage(here, limit, r);
      seen := ReadAcross(here, After(here, limit, GapAt(gaps, 5)), here.runs[r].child);
      events := KernelGaps(gaps);
      ThenPersist(s, limit, events, tr, OutcomeOf(final), seen);
      PersistKeepsRuns(After(s, limit, events), tr, OutcomeOf(final), seen);
      RunThroughHistory(s, limit, events, r);
      var written := repo.PersistOutcome(tr, OutcomeOf(final), GapAt(gaps, 5), GapAt(gaps, 6));
      raised := written.Err?;
      events := events + [PersistEvent(tr, OutcomeOf(final), seen)];
    }

    /** Others act in `gap`, then the verdict is recorded. */
    method GiveVerdict(r: nat, gap: seq<Event>, v: Verdict) returns (ghost events: seq<Event>)
      requires repo.Valid() && r < |repo.runs|
      modifies repo
      ensures repo.Valid()
      ensures events == gap + [FinalizeEvent(r, v)]
      ensures repo.Tables() == After(old(repo.Tables()), repo.maxConcurrency, events)
      ensures r < |repo.runs| && Terminal(repo.runs[r].status)
    {
      ghost var s, limit := repo.Tables(), repo.maxConcurrency;
      RunThroughHistory(s, limit, gap, r);
      ThenFinalize(s, limit, gap, r, v);
      repo.Interfere(gap);
      FinalizeEndsRun(repo.Tables(), limit, r, v);
      var done := repo.FinalizeRun(r, v);
      events := gap + [FinalizeEvent(r, v)];
    }

    /** The worker gives its verdict, unless somebody else already has. */
    method Conclude(r: nat, gaps: seq<seq<Event>>, final: KernelEnd, report: Report)
      returns (ghost events: seq<Event>, ghost v: Verdict)
      requires repo.Valid() && r < |repo.runs|
      modifies repo
      ensures repo.Valid()
      ensures repo.Tables() == After(old(repo.Tables()), repo.maxConcurrency, events)
      ensures r < |repo.runs| && Terminal(repo.runs[r].status)
      ensures gaps == [] && !Terminal(old(repo.runs)[r].status) && old(repo.runs)[r].cancelRequestedAt.None? ==>
                v == WorkersVerdict(final, report) && events == [FinalizeEvent(r, v)]
    {
      ghost var s, limit := repo.Tables(), repo.maxConcurrency;
      RunThroughHistory(s, limit, GapAt(gaps, 7), r);
      repo.Interfere(GapAt(gaps, 7));
      events := GapAt(gaps, 7);
      var verdict := ConcludingVerdict(repo.runs[r], final, report);
      v := verdict;
      if Terminal(repo.runs[r].status) { return; }
      ghost var ended := GiveVerdict(r, GapAt(gaps, 8), verdict);
      AfterConcat(s, limit, events, ended);
      events := events + ended;
    }

    /** The worker claims the oldest queued run, starts its task, runs the kernel and
        concludes, each in its own transactions; `gaps[i]` is committed by others before
        the i-th of them.  A claimed run is terminal when the worker returns, whoever
        got there first, unless the worker raised: then it is left running for the
        sweeper, or is terminal already.  A worker that nobody disturbs leaves run and
        task with the kernel's outcome. */
    method ProcessNextQueuedRun(window: seq<seq<Event>>, gaps: seq<seq<Event>>, end: KernelEnd, report: Report)
      returns (claimed: Option<nat>, raised: bool, ghost trace: seq<Event>)
      requires repo.Valid()
      modifies repo
      ensures repo.Valid()
      ensures repo.Tables() == After(old(repo.Tables()), repo.maxConcurrency, trace)
      ensures claimed.None? ==> !raised && forall r: nat | r < |repo.runs| :: repo.runs[r].status != Queued
      ensures claimed.Some? ==> Worked(repo.Tables(), claimed.value, raised)
      ensures raised ==> GapAt(gaps, 6) != []
      ensures claimed.Some? && gaps == [] ==>
                && repo.runs[claimed.value].status == OutcomeOf(end).status
                && AttachedTo(repo.Tables(), claimed.value) && Agrees(repo.Tables(), claimed.value)
                && Reported(repo.Tables(), claimed.value, WorkersVerdict(end, report))
    {
      ghost var s0, limit := repo.Tables(), repo.maxConcurrency;
      var rounds;
      claimed, rounds := repo.ClaimNextQueuedRun(window);
      raised, trace := false, Joined(window, rounds);
      if claimed.None? { return; }
      var r := claimed.value;
      ThenOne(s0, limit, trace, ClaimEvent);
      NewlyClaimed(s0, limit, trace, r);
      trace := trace + [ClaimEvent];
      ghost var worked;
      raised, worked := WorkClaimed(r, gaps, end, report);
      ThenGap(s0, limit, trace, worked);
      trace := trace + worked;
    }

    method WorkClaimed(r: nat, gaps: seq<seq<Event>>, end: KernelEnd, report: Report)
      returns (raised: bool, ghost trace: seq<Event>)
      requires repo.Valid() && r < |repo.runs|
      requires repo.runs[r].status == Running && repo.runs[r].cancelRequestedAt.None?
      modifies repo
      ensures repo.Valid()
      ensures repo.Tables() == After(old(repo.Tables()), repo.maxConcurrency, trace)
      ensures Worked(repo.Tables(), r, raised)
      ensures raised ==> GapAt(gaps, 6) != []
      ensures gaps == [] ==>
                && repo.runs[r].status == OutcomeOf(end).status
                && AttachedTo(repo.Tables(), r) && Agrees(repo.Tables(), r)
                && Reported(repo.Tables(), r, WorkersVerdict(end, report))
    {
      ghost var s, limit := repo.Tables(), repo.maxConcurrency;
      var final;
      final, raised, trace := CarryOut(r, gaps, end);
      if raised { return; }
      ghost var w := repo.Tables();
      var concluded, v := Conclude(r, gaps, final, report);
      AfterConcat(s, limit, trace, concluded);
      trace := trace + concluded;
      if gaps == [] { UndisturbedEnd(w, limit, r, v); }
    }

    /** The part of the work before the verdict. */
    method CarryOut(r: nat, gaps: seq<seq<Event>>, end: KernelEnd)
      returns (final: KernelEnd, raised: bool, ghost trace: seq<Event>)
      requires repo.Valid() && r < |repo.runs|
      requires repo.runs[r].status == Running && repo.runs[r].cancelRequestedAt.None?
      modifies repo
      ensures repo.Valid()
      ensures repo.Tables() == After(old(repo.Tables()), repo.maxConcurrency, trace)
      ensures r < |repo.runs| && (repo.runs[r].status == Running || Terminal(repo.runs[r].status))
      ensures raised ==> GapAt(gaps, 6) != []
      ensures gaps == [] ==>
                && repo.runs[r].status == Running && repo.runs[r].cancelRequestedAt.None?
                && repo.runs[r].taskRun.Some? && final == end
    {
      ghost var s, limit := repo.Tables(), repo.maxConcurrency;
      var tr;
      tr, trace := StartTask(r, gaps);
      ghost var seen, ran;
      final, raised, seen, ran := Execute(r, tr, gaps, end);
      AfterConcat(s, limit, trace, ran);
      trace := trace + ran;
      RunThroughHistory(s, limit, trace, r);
    }
  }

  /** The verdict of a worker that nobody asked to stop. */
  function WorkersVerdict(end: KernelEnd, report: Report): Verdict {
    DelegatedOutcomeIsTerminal(end);
    Verdict(OutcomeOf(end).status, report.summary, report.output, report.cost, ErrorCodeOf(end), OutcomeOf(end).error,
            report.parentText)
  }

  /** A claimed run after its worker: terminal, or running if the worker raised. */
  predicate Worked(s: Store, r: nat, raised: bool) {
    r < |s.runs| && (Terminal(s.runs[r].status) || (raised && s.runs[r].status == Running))
  }

  /** What others commit from the first look at the flag to the insert. */
  function KernelGaps(gaps: seq<seq<Event>>): seq<Event> {
    GapAt(gaps, 2) + GapAt(gaps, 3) + GapAt(gaps, 4) + GapAt(gaps, 5) + GapAt(gaps, 6)
  }

  lemma ThenTwoGaps(s: Store, limit: int, es: seq<Event>, a: seq<Event>, b: seq<Event>)
    ensures After(s, limit, es + a + b) == After(After(After(s, limit, es), limit, a), limit, b)
  {
    AfterConcat(s, limit, es + a, b);
    AfterConcat(s, limit, es, a);
  }

  function GapAt(gaps: seq<seq<Event>>, i: nat): seq<Event> {
    if i < |gaps| then gaps[i] else []
  }

  lemma ThenFinalize(s: Store, limit: int, es: seq<Event>, r: nat, v: Verdict)
    ensures After(s, limit, es + [FinalizeEvent(r, v)]) == Finalize(After(s, limit, es), r, v)
  {
    ThenOne(s, limit, es, FinalizeEvent(r, v));
  }

  lemma ThenPersist(s: Store, limit: int, es: seq<Event>, tr: nat, o: Outcome, seen: Reading)
    ensures After(s, limit, es + [PersistEvent(tr, o, seen)]) == Persist(After(s, limit, es), tr, o, seen)
  {
    ThenOne(s, limit, es, PersistEvent(tr, o, seen));
  }

  lemma ThenGap(s: Store, limit: int, es: seq<Event>, gap: seq<Event>)
    ensures After(s, limit, es + gap) == After(After(s, limit, es), limit, gap)
    ensures Reachable(s, limit) ==> Reachable(After(s, limit, es), limit)
    ensures Reachable(s, limit) ==> Reachable(After(s, limit, es + gap), limit)
  {
    AfterConcat(s, limit, es, gap);
    if Reachable(s, limit) {
      ReachableGoesOn(s, limit, es);
      ReachableGoesOn(s, limit, es + gap);
    }
  }

  /** A claimed run starts out running, with no request to stop it. */
  lemma NewlyClaimed(s: Store, limit: int, es: seq<Event>, r: nat)
    requires Reachable(s, limit)
    requires r < |After(s, limit, es).runs| && OldestQueued(After(s, limit, es).runs) == Some(r)
    ensures var t := Claim(After(s, limit, es));
            r < |t.runs| && t.runs[r].status == Running && t.runs[r].cancelRequestedAt.None?
    ensures Reachable(Claim(After(s, limit, es)), limit)
  {
    var t := After(s, limit, es);
    ReachableGoesOn(s, limit, es);
    OneStep(t, limit, ClaimEvent);
    ReachableIsConsistent(t, limit);
    ClaimIsOldest(t.runs);
  }

  lemma OwnsThroughHistory(s: Store, limit: int, es: seq<Event>, r: nat, tr: nat)
    requires Reachable(s, limit) && Owns(s, r, tr)
    ensures Owns(After(s, limit, es), r, tr)
  {
    RunThroughHistory(s, limit, es, r);
    OwnersThroughHistory(s, limit, es);
  }

  /** A running, attached run that nobody disturbs ends in agreement with its task. */
  lemma UndisturbedEnd(w: Store, limit: int, r: nat, v: Verdict)
    requires Reachable(w, limit)
    requires r < |w.runs| && w.runs[r].status == Running && w.runs[r].cancelRequestedAt.None? && w.runs[r].taskRun.Some?
    ensures var t := After(w, limit, [FinalizeEvent(r, v)]);
            AttachedTo(t, r) && t.runs[r].status == v.status && Agrees(t, r) && Reported(t, r, v)
  {
    ReachableIsConsistent(w, limit);
    OneStep(w, limit, FinalizeEvent(r, v));
    FinalizeReports(w, r, v);
    FinalizeResolvesOnce(w, r, v);
  }

  lemma HasLineage(s: Store, limit: int, r: nat)
    requires Reachable(s, limit) && r < |s.runs|
    ensures s.runs[r].child < |s.sessions|
  {
    RunThroughHistory(s, limit, [], r);
  }

  lemma FinalizeEndsRun(s: Store, limit: int, r: nat, v: Verdict)
    requires Reachable(s, limit) && r < |s.runs|
    ensures var u := Finalize(s, r, v); |u.runs| == |s.runs| && Terminal(u.runs[r].status)
  {
    KnownRun(s, limit, r);
    FinalizeTouchesOneRun(s, r, v);
  }

  lemma UndisturbedSweep(s: Store, limit: int, r: nat, report: Report, d: int, g: int)
    requires Reachable(s, limit) && r < |s.runs| && s.runs[r].status != Queued
    requires s.runs[r].child < |s.sessions| && Deadline(s, r, d, g) <= s.now
    ensures SweptOne(s, Finalize(s, r, SweepVerdict(s.runs[r], report)), r, report, d, g)
  {
    var v := SweepVerdict(s.runs[r], report);
    KnownRun(s, limit, r);
    ReachableIsConsistent(s, limit);
    FinalizeTouchesOneRun(s, r, v);
    if !Terminal(s.runs[r].status) { FinalizeReports(s, r, v); }
    assert Resolve(s.runs[r], v.status) == SweepStatus(s.runs[r]);
    assert StuckRow(s, r, d, g) <==> s.runs[r].status == Running;
    SweptAlone(s, Finalize(s, r, v), r, report, d, g);
  }

  lemma SweptAlone(s: Store, t: Store, r: nat, report: Report, d: int, g: int)
    requires s.messages <= t.messages
    requires r < |s.runs| == |t.runs| && |t.sessions| == |s.sessions| && t.now == s.now
    requires forall x: nat | x < |s.sessions| :: t.sessions[x].timeout == s.sessions[x].timeout
    requires forall q: nat | q < |s.runs| && q != r :: t.runs[q] == s.runs[q]
    requires if StuckRow(s, r, d, g) then SweptRow(s.runs[r], t, r, s.now, report) else t.runs[r] == s.runs[r]
    ensures SweptOne(s, t, r, report, d, g)
  {}

  lemma KnownRun(s: Store, limit: int, r: nat)
    requires Reachable(s, limit) && r < |s.runs|
    ensures FinalizeCheck(s, r).Ok?
    ensures s.runs[r].status == Queued || s.runs[r].status == Running || Terminal(s.runs[r].status)
  {
    RunThroughHistory(s, limit, [], r);
  }

  lemma SweepStep(s: Store, limit: int, r: nat, gap: seq<Event>, v: Verdict, report: Report, d: int, g: int)
    requires Reachable(s, limit) && r < |s.runs| && s.runs[r].status != Queued
    requires s.runs[r].child < |s.sessions| && Deadline(s, r, d, g) <= s.now
    requires v == SweepVerdict(s.runs[r], report)
    ensures var u := Finalize(After(s, limit, gap), r, v);
            && u == After(s, limit, gap + [FinalizeEvent(r, v)])
            && |s.runs| <= |u.runs|
            && Terminal(u.runs[r].status)
            && (gap == [] ==> SweptOne(s, u, r, report, d, g))
  {
    ThenFinalize(s, limit, gap, r, v);
    ReachableGoesOn(s, limit, gap);
    RunThroughHistory(s, limit, gap, r);
    FinalizeEndsRun(After(s, limit, gap), limit, r, v);
    if gap == [] { UndisturbedSweep(s, limit, r, report, d, g); }
  }

  /** `Stuck`, for any row number. */
  predicate StuckRow(s: Store, r: nat, d: int, g: int) {
    r < |s.runs| && s.runs[r].child < |s.sessions| && Stuck(s, r, d, g)
  }

  lemma StuckThroughHistory(s: Store, limit: int, es: seq<Event>, r: nat, d: int, g: int)
    requires Reachable(s, limit) && r < |s.runs|
    ensures var t := After(s, limit, es);
            && r < |t.runs|
            && (StuckRow(s, r, d, g) ==> StuckRow(t, r, d, g) || Terminal(t.runs[r].status))
  {
    ReachableIsConsistent(s, limit);
    RunThroughHistory(s, limit, es, r);
    if StuckRow(s, r, d, g) { StuckStaysStuck(s, limit, es, r, d, g); }
  }

  lemma TerminalThroughHistory(s: Store, limit: int, es: seq<Event>)
    requires Reachable(s, limit)
    ensures var t := After(s, limit, es);
            && |s.runs| <= |t.runs|
            && forall r: nat | r < |s.runs| && Terminal(s.runs[r].status) :: Terminal(t.runs[r].status)
  {
    ReachableIsConsistent(s, limit);
    HistoryGrows(s, limit, es);
    var t := After(s, limit, es);
    forall r: nat | r < |s.runs| && Terminal(s.runs[r].status) ensures Terminal(t.runs[r].status) {
      assert Advances(s.runs[r], t.runs[r]);
    }
  }

  /** After sweeping `seen`: exactly its stuck runs have been finalized. */
  ghost predicate SweptSoFar(s: Store, t: Store, seen: seq<nat>, report: Report, d: int, g: int) {
    && s.messages <= t.messages
    && |t.runs| == |s.runs| && |s.sessions| == |t.sessions| && t.now == s.now
    && (forall x: nat | x < |s.sessions| :: t.sessions[x].timeout == s.sessions[x].timeout)
    && (forall r: nat | r < |s.runs| ::
          if r in seen && StuckRow(s, r, d, g) then SweptRow(s.runs[r], t, r, s.now, report)
          else t.runs[r] == s.runs[r])
  }

  /** What sweeping one run, undisturbed, does. */
  ghost predicate SweptOne(s: Store, t: Store, r: nat, report: Report, d: int, g: int) {
    && s.messages <= t.messages
    && |t.runs| == |s.runs| && |s.sessions| == |t.sessions| && t.now == s.now
    && (forall x: nat | x < |s.sessions| :: t.sessions[x].timeout == s.sessions[x].timeout)
    && (forall q: nat | q < |s.runs| && q != r :: t.runs[q] == s.runs[q])
    && r < |s.runs|
    && if StuckRow(s, r, d, g) then SweptRow(s.runs[r], t, r, s.now, report) else t.runs[r] == s.runs[r]
  }

  function StuckAmong(s: Store, seen: seq<nat>, d: int, g: int): set<nat> {
    set r: nat | r in seen && StuckRow(s, r, d, g)
  }

  lemma StuckAmongNext(s: Store, here: Store, ids: seq<nat>, i: nat, report: Report, d: int, g: int)
    requires i < |ids| && ids[i] < |s.runs| && Distinct(ids)
    requires SweptSoFar(s, here, ids[..i], report, d, g)
    ensures here.runs[ids[i]] == s.runs[ids[i]]
    ensures StuckRow(here, ids[i], d, g) == StuckRow(s, ids[i], d, g)
    ensures |StuckAmong(s, ids[..i+1], d, g)|
         == |StuckAmong(s, ids[..i], d, g)| + if StuckRow(s, ids[i], d, g) then 1 else 0
  {
    assert ids[..i+1] == ids[..i] + [ids[i]];
    assert ids[i] !in ids[..i];
    if StuckRow(s, ids[i], d, g) {
      assert StuckAmong(s, ids[..i+1], d, g) == StuckAmong(s, ids[..i], d, g) + {ids[i]};
    } else {
      assert StuckAmong(s, ids[..i+1], d, g) == StuckAmong(s, ids[..i], d, g);
    }
  }

  lemma SweepAdds(s: Store, here: Store, there: Store, ids: seq<nat>, i: nat, report: Report, d: int, g: int)
    requires i < |ids| && ids[i] < |s.runs| && Distinct(ids)
    requires SweptSoFar(s, here, ids[..i], report, d, g) && SweptOne(here, there, ids[i], report, d, g)
    ensures SweptSoFar(s, there, ids[..i+1], report, d, g)
  {
    assert ids[..i+1] == ids[..i] + [ids[i]];
    assert ids[i] !in ids[..i];
    assert StuckRow(here, ids[i], d, g) == StuckRow(s, ids[i], d, g);
    forall r: nat | r < |s.runs|
      ensures if r in ids[..i+1] && StuckRow(s, r, d, g) then SweptRow(s.runs[r], there, r, s.now, report)
              else there.runs[r] == s.runs[r]
    {
      if r in ids[..i] && StuckRow(s, r, d, g) { RowStaysSwept(s.runs[r], here, there, r, s.now, report); }
    }
  }

  ghost predicate SomeFinished(s: Store, t: Store, seen: seq<nat>, d: int, g: int) {
    forall r: nat | r in seen && StuckRow(s, r, d, g) :: r < |t.runs| && Terminal(t.runs[r].status)
  }

  /** A sweep that has dealt with the first `i` of its runs; `quiet` when nobody else
      has acted meanwhile. */
  ghost predicate Sweeping(
    s: Store, limit: int, t: Store, trace: seq<Event>, ids: seq<nat>, i: nat, cleaned: nat, quiet: bool, report: Report,
    d: int, g: int)
    requires i <= |ids|
  {
    && t == After(s, limit, trace) && |s.runs| <= |t.runs|
    && SomeFinished(s, t, ids[..i], d, g)
    && (quiet ==> SweptSoFar(s, t, ids[..i], report, d, g) && cleaned == |StuckAmong(s, ids[..i], d, g)|)
  }

  lemma SweepRound(
    s: Store, limit: int, here: Store, there: Store, trace: seq<Event>, events: seq<Event>, swept: bool,
    ids: seq<nat>, i: nat, cleaned: nat, quiet: bool, report: Report,
    d: int, g: int)
    requires i < |ids| && Reachable(s, limit) && Reachable(here, limit) && there == After(here, limit, events)
    requires Sweeping(s, limit, here, trace, ids, i, cleaned, quiet, report, d, g)
    requires Distinct(ids) && ids[i] < |s.runs| && s.runs[ids[i]].status == Running && ids[i] < |there.runs|
    requires StuckRow(here, ids[i], d, g) ==> Terminal(there.runs[ids[i]].status)
    requires here.runs[ids[i]].status == Running ==> (swept <==> StuckRow(here, ids[i], d, g))
    requires quiet ==> SweptOne(here, there, ids[i], report, d, g)
    ensures Sweeping(s, limit, there, trace + events, ids, i + 1, cleaned + if swept then 1 else 0, quiet, report, d, g)
  {
    AfterConcat(s, limit, trace, events);
    StuckThroughHistory(s, limit, trace, ids[i], d, g);
    TerminalThroughHistory(here, limit, events);
    SweepFinishes(s, here, there, ids, i, d, g);
    if quiet {
      StuckAmongNext(s, here, ids, i, report, d, g);
      SweepAdds(s, here, there, ids, i, report, d, g);
    }
  }

  lemma SweepEnds(
    s: Store, limit: int, t: Store, trace: seq<Event>, ids: seq<nat>, cleaned: nat, quiet: bool, report: Report,
    d: int, g: int)
    requires Sweeping(s, limit, t, trace, ids, |ids|, cleaned, quiet, report, d, g)
    requires forall r: nat :: r in ids <==> r in RunningIds(s.runs)
    requires forall r: nat :: r in RunningIds(s.runs) <==> r < |s.runs| && s.runs[r].status == Running
    ensures forall r: nat | r < |s.runs| && StuckRow(s, r, d, g) :: r < |t.runs| && Terminal(t.runs[r].status)
    ensures quiet ==>
              && cleaned == |StuckAmong(s, RunningIds(s.runs), d, g)| && |t.runs| == |s.runs|
              && forall r: nat | r < |s.runs| ::
                   if StuckRow(s, r, d, g) then SweptRow(s.runs[r], t, r, s.now, report) else t.runs[r] == s.runs[r]
  {
    assert ids[..|ids|] == ids;
    assert StuckAmong(s, ids, d, g) == StuckAmong(s, RunningIds(s.runs), d, g);
  }

  /** An undisturbed sweep in the fields of the rows: it ends exactly the running runs
      whose own timeout, or the default, and the grace have passed since their start, and
      leaves every other row as it was. */
  ghost predicate SweptOnTime(s: Store, t: Store, report: Report, defaultTimeout: int, grace: int) {
    |t.runs| == |s.runs| && forall r: nat | r < |s.runs| ::
      var run := s.runs[r];
      && run.child < |s.sessions|
      && var own := s.sessions[run.child].timeout;
         var start := if run.startedAt.Some? then run.startedAt.value else run.updatedAt;
         var allowed := if own.Some? && own.value != 0 then own.value else defaultTimeout;
         if run.status == Running && start + allowed + grace <= s.now
         then && t.runs[r].status == (if run.cancelRequestedAt.Some? then Cancelled else TimedOut)
              && t.runs[r].finishedAt == Some(s.now)
              && Reported(t, r, SweepVerdict(run, report))
         else t.runs[r] == run
  }

  lemma SweptExactly(s: Store, limit: int, t: Store, report: Report, d: int, g: int)
    requires Reachable(s, limit) && |t.runs| == |s.runs|
    requires forall r: nat | r < |s.runs| ::
               if StuckRow(s, r, d, g) then SweptRow(s.runs[r], t, r, s.now, report) else t.runs[r] == s.runs[r]
    ensures SweptOnTime(s, t, report, d, g)
  {
    forall r: nat | r < |s.runs| ensures s.runs[r].child < |s.sessions| { HasLineage(s, limit, r); }
  }

  lemma RowStaysSwept(before: Run, here: Store, there: Store, r: nat, now: int, report: Report)
    requires SweptRow(before, here, r, now, report) && here.messages <= there.messages
    requires r < |there.runs| && there.runs[r] == here.runs[r]
    ensures SweptRow(before, there, r, now, report)
  {}

  lemma SweepFinishes(s: Store, here: Store, there: Store, ids: seq<nat>, i: nat, d: int, g: int)
    requires i < |ids| && SomeFinished(s, here, ids[..i], d, g)
    requires |here.runs| <= |there.runs| && ids[i] < |here.runs|
    requires forall r: nat | r < |here.runs| && Terminal(here.runs[r].status) :: Terminal(there.runs[r].status)
    requires StuckRow(s, ids[i], d, g) ==> Terminal(there.runs[ids[i]].status)
    ensures SomeFinished(s, there, ids[..i+1], d, g)
  {
    assert ids[..i+1] == ids[..i] + [ids[i]];
  }

  lemma FinalizeTouchesOneRun(s: Store, r: nat, v: Verdict)
    requires FinalizeCheck(s, r).Ok?
    ensures var t := Finalize(s, r, v);
            && |t.runs| == |s.runs| && |t.sessions| == |s.sessions| && t.now == s.now
            && (forall x: nat | x < |s.sessions| :: t.sessions[x].timeout == s.sessions[x].timeout)
            && (if Terminal(s.runs[r].status) then t.runs[r] == s.runs[r]
                else t.runs[r].status == Resolve(s.runs[r], v.status))
            && forall q: nat | q < |s.runs| && q != r :: t.runs[q] == s.runs[q]
  {}
}
