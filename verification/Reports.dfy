/** What a finished run tells: its row, its child session, its task run and its launcher. */
module Reports {
  import opened Tables
  import opened Transitions
  import opened Protocol
  import opened Lifecycle
  import opened Effects

  /** The run carries the verdict, and its summary message, the launcher's own, carries
      the text that the verdict has for the parent. */
  ghost predicate Reported(s: Store, r: nat, v: Verdict) {
    && r < |s.runs|
    && s.runs[r].finalSummary == Some(v.summary) && s.runs[r].finalOutput == Some(v.output)
    && s.runs[r].cost == v.cost && s.runs[r].errorCode == v.errorCode && s.runs[r].errorSummary == v.errorSummary
    && s.runs[r].summaryMessage.Some? && s.runs[r].summaryMessage.value < |s.messages|
    && s.messages[s.runs[r].summaryMessage.value].text == v.parentText
    && s.messages[s.runs[r].summaryMessage.value].session == s.runs[r].launcher
    && s.messages[s.runs[r].summaryMessage.value].role == Assistant
  }

  /** Finalizing an open run: one message more, the launcher's, with the parent text; the
      verdict on the run; its summary on the child session; one audit event more. */
  lemma FinalizeReports(s: Store, r: nat, v: Verdict)
    requires Lineage(s) && r < |s.runs| && !Terminal(s.runs[r].status)
    ensures var t := Finalize(s, r, v);
            var run, child, parent := s.runs[r], s.runs[r].child, s.runs[r].launcher;
            && OneMore(s.messages, t.messages) && OneMore(s.audit, t.audit)
            && Reported(t, r, v) && t.runs[r].summaryMessage == Some(|s.messages|)
            && t.messages[|s.messages|].createdAt == s.now
            && t.messages[|s.messages|].conversation == s.sessions[parent].conversation
            && OnlyAt(s.runs, t.runs, r)
            && t.runs[r].finishedAt == Some(s.now) && t.runs[r].startedAt == run.startedAt
            && t.runs[r].task == run.task && t.runs[r].taskRun == run.taskRun
            && child < |t.sessions| && parent < |t.sessions| && child != parent
            && t.sessions[child].summary == Some(v.summary)
            && t.sessions[parent].lastMessageAt == Some(s.now)
            && t.sessions[parent].summary == s.sessions[parent].summary
            && t.sessions[parent].conversation == s.sessions[parent].conversation
            && (forall x: nat | x < |s.sessions| && x != child && x != parent :: t.sessions[x] == s.sessions[x])
  {
    assert RunShape(s, r);
  }

  /** Its task and task run: timed from their own start; cost, error and output follow
      the verdict or stay, each by its own rule. */
  lemma FinalizeClosesTask(s: Store, r: nat, v: Verdict)
    requires Lineage(s) && r < |s.runs| && !Terminal(s.runs[r].status)
    requires s.runs[r].task.Some? && s.runs[r].task.value < |s.tasks|
    requires s.runs[r].taskRun.Some? && s.runs[r].taskRun.value < |s.taskRuns|
    ensures var t := Finalize(s, r, v);
            var k, q := s.runs[r].task.value, s.runs[r].taskRun.value;
            && r < |t.runs| && |t.tasks| == |s.tasks| && |t.taskRuns| == |s.taskRuns|
            && var before, after, end := s.taskRuns[q], t.taskRuns[q], t.runs[r].status;
               && t.tasks[k].completedAt == Some(s.now) && t.tasks[k].session == s.tasks[k].session
               && after.task == before.task && after.createdAt == before.createdAt
               && after.startedAt == before.startedAt && after.finishedAt == Some(s.now)
               && (before.startedAt.Some? ==> after.duration == Some(s.now - before.startedAt.value))
               && (before.startedAt.None? ==> after.duration == before.duration)
               && (v.cost.Some? ==> after.cost == v.cost)
               && (v.cost.None? ==> after.cost == before.cost)
               && (v.errorSummary.Some? && end in {Failed, Cancelled, TimedOut} ==> after.error == v.errorSummary)
               && (v.errorSummary.None? || end == Completed ==> after.error == before.error)
               && (before.output.None? && end in {Cancelled, TimedOut} ==> after.output == Some(v.output))
               && (before.output.Some? || end in {Completed, Failed} ==> after.output == before.output)
  {
    assert RunShape(s, r);
  }

  /** Of all verdicts on a run in a history, the first one that finds it open. */
  function FirstVerdict(s: Store, limit: int, es: seq<Event>, r: nat): Option<Verdict>
    decreases |es|
  {
    if |es| == 0 then None
    else if es[0].FinalizeEvent? && es[0].run == r && r < |s.runs| && !Terminal(s.runs[r].status)
    then Some(es[0].verdict)
    else FirstVerdict(Step(s, limit, es[0]), limit, es[1..], r)
  }

  ghost predicate Open(s: Store, r: nat) {
    r < |s.runs| ==> !Terminal(s.runs[r].status)
  }

  /** Only a verdict on it ends a run. */
  lemma OtherStepsLeaveOpen(s: Store, limit: int, e: Event, r: nat)
    requires Open(s, r) && !(e.FinalizeEvent? && e.run == r && r < |s.runs|)
    ensures Open(Step(s, limit, e), r)
  {
    if !e.FinalizeEvent? { OtherStepsAreQuiet(s, limit, e); }
  }

  /** What a run has reported stays as it is. */
  lemma ReportStays(s: Store, limit: int, es: seq<Event>, r: nat, v: Verdict)
    requires RunStatuses(s) && Reported(s, r, v) && Terminal(s.runs[r].status)
    ensures var t := After(s, limit, es); Reported(t, r, v) && Terminal(t.runs[r].status)
  {
    RunsOnlyAdvance(s, limit, es, r);
    MessagesAreForEver(s, limit, es);
  }

  lemma {:induction false} ReportOfOpenRun(s: Store, limit: int, es: seq<Event>, r: nat)
    requires Invariant(s, limit) && Open(s, r)
    ensures var t := After(s, limit, es);
            var first := FirstVerdict(s, limit, es, r);
            && (first.None? ==> Open(t, r))
            && (first.Some? ==> Reported(t, r, first.value) && Terminal(t.runs[r].status))
    decreases |es|
  {
    if |es| > 0 {
      var u := Step(s, limit, es[0]);
      StepKeepsInvariant(s, limit, es[0]);
      if es[0].FinalizeEvent? && es[0].run == r && r < |s.runs| {
        FinalizeReports(s, r, es[0].verdict);
        assert RunShape(s, r);
        ReportStays(u, limit, es[1..], r, es[0].verdict);
      } else {
        OtherStepsLeaveOpen(s, limit, es[0], r);
        ReportOfOpenRun(u, limit, es[1..], r);
      }
    }
  }

  /** In every reachable state a run is terminal exactly if a verdict has found it open,
      and what it has told everybody is the first such verdict and no later one. */
  lemma FirstVerdictIsReported(limit: int, es: seq<Event>, r: nat)
    requires r < |After(EmptyStore, limit, es).runs|
    ensures var t := After(EmptyStore, limit, es);
            var first := FirstVerdict(EmptyStore, limit, es, r);
            && (Terminal(t.runs[r].status) <==> first.Some?)
            && (first.Some? ==> Reported(t, r, first.value))
  {
    EmptyStoreSatisfiesInvariant(limit);
    ReportOfOpenRun(EmptyStore, limit, es, r);
  }
}
