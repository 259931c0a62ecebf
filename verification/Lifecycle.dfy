/** The promises of the subagent protocol, over whole histories. */
module Lifecycle {
  import opened Tables
  import opened Transitions
  import opened Protocol

  // ------------------------------------------------- finished means finished

  /** A history never rewrites the verdict of a terminal run, whatever stamps and
      attachments still reach its row, and never drops a recorded request. */
  lemma {:induction false} RunsOnlyAdvance(s: Store, limit: int, es: seq<Event>, r: nat)
    requires RunStatuses(s) && r < |s.runs|
    ensures r < |After(s, limit, es).runs|
    ensures Advances(s.runs[r], After(s, limit, es).runs[r])
    decreases |es|
  {
    if |es| > 0 {
      StepAdvances(s, limit, es[0]);
      RunsOnlyAdvance(Step(s, limit, es[0]), limit, es[1..], r);
    }
  }

  /** Finalizing a terminal run again, at any later time and with any verdict,
      changes no table at all. */
  lemma LaterFinalizeChangesNothing(s: Store, limit: int, es: seq<Event>, r: nat, v: Verdict)
    requires RunStatuses(s) && r < |s.runs| && Terminal(s.runs[r].status)
    ensures var t := After(s, limit, es);
            && r < |t.runs|
            && Step(t, limit, FinalizeEvent(r, v)) == t
            && t.runs[r].status == s.runs[r].status
            && t.runs[r].finishedAt == s.runs[r].finishedAt
            && t.runs[r].summaryMessage == s.runs[r].summaryMessage
            && t.runs[r].finalSummary == s.runs[r].finalSummary
  {
    RunsOnlyAdvance(s, limit, es, r);
  }

  /** Cancellation wins: whoever finalizes afterwards, a run whose cancellation was
      recorded never ends completed or failed. */
  lemma CancellationWins(limit: int, before: seq<Event>, r: nat, later: seq<Event>)
    requires r < |After(EmptyStore, limit, before).runs|
    requires After(EmptyStore, limit, before).runs[r].status == Running
    ensures var t := After(EmptyStore, limit, before + [RequestCancelEvent(r)] + later);
            r < |t.runs| && t.runs[r].cancelRequestedAt.Some? && RespectsRequest(t.runs[r].status)
  {
    var s := After(EmptyStore, limit, before);
    var requested := RequestCancel(s, r);
    AfterConcat(EmptyStore, limit, before, [RequestCancelEvent(r)]);
    assert After(s, limit, [RequestCancelEvent(r)]) == requested;
    AfterConcat(EmptyStore, limit, before + [RequestCancelEvent(r)], later);
    RequestStaysRespected(requested, limit, later, r);
  }

  lemma {:induction false} RequestStaysRespected(s: Store, limit: int, es: seq<Event>, r: nat)
    requires r < |s.runs| && s.runs[r].cancelRequestedAt.Some? && RespectsRequest(s.runs[r].status)
    ensures var t := After(s, limit, es);
            r < |t.runs| && t.runs[r].cancelRequestedAt.Some? && RespectsRequest(t.runs[r].status)
    decreases |es|
  {
    if |es| > 0 {
      StepRespectsRequest(s, limit, es[0], r);
      RequestStaysRespected(Step(s, limit, es[0]), limit, es[1..], r);
    }
  }

  /** Over whole histories, every recorded request is respected exactly when no stamp
      comes too late; one that does is never made good. */
  lemma {:induction false} RequestsAreHonouredExactly(s: Store, limit: int, es: seq<Event>)
    requires RunStatuses(s) && CancelHonoured(s)
    ensures CancelHonoured(After(s, limit, es)) <==> StampsInTime(s, limit, es)
    decreases |es|
  {
    if |es| > 0 {
      var t := Step(s, limit, es[0]);
      StepAdvances(s, limit, es[0]);
      CancelHonouredLostExactlyByLateStamp(s, limit, es[0]);
      if StampsTooLate(s, es[0]) {
        var r := es[0].run;
        RunsOnlyAdvance(t, limit, es[1..], r);
        assert !Honoured(After(t, limit, es[1..]).runs[r]);
      } else {
        RequestsAreHonouredExactly(t, limit, es[1..]);
      }
    }
  }

  /** No interleaving puts more than `limit` runs of one session in flight. */
  lemma ConcurrencyIsBounded(limit: nat, es: seq<Event>, p: nat)
    ensures ActiveCount(After(EmptyStore, limit, es).runs, p) <= limit
  {
    EveryReachableState(EmptyStore, limit, es);
  }

  // ----------------------------------------------- one summary per finished run

  function TerminalCount(runs: seq<Run>, p: nat): nat {
    if |runs| == 0 then 0 else
    var last := runs[|runs|-1];
    TerminalCount(runs[..|runs|-1], p) + if last.launcher == p && Terminal(last.status) then 1 else 0
  }

  function SummaryCount(messages: seq<Message>, p: nat): nat {
    if |messages| == 0 then 0 else
    var last := messages[|messages|-1];
    SummaryCount(messages[..|messages|-1], p) + if last.session == p && last.origin.SummaryOf? then 1 else 0
  }

  lemma {:induction false} QuietRunsKeepCount(before: seq<Run>, after: seq<Run>, p: nat)
    requires |before| <= |after|
    requires forall r: nat | r < |before| :: QuietRun(before[r], after[r])
    requires forall r: nat | |before| <= r < |after| :: after[r].status == Queued
    ensures TerminalCount(after, p) == TerminalCount(before, p)
    decreases |after|
  {
    if |after| > 0 {
      var n := |after| - 1;
      if |before| == |after| {
        QuietRunsKeepCount(before[..n], after[..n], p);
        assert QuietRun(before[n], after[n]);
      } else {
        QuietRunsKeepCount(before, after[..n], p);
      }
    }
  }

  lemma {:induction false} QuietMessagesKeepCount(before: seq<Message>, after: seq<Message>, p: nat)
    requires before <= after
    requires forall m: nat | |before| <= m < |after| :: after[m].origin == Conversation
    ensures SummaryCount(after, p) == SummaryCount(before, p)
    decreases |after|
  {
    if |before| == |after| {
      assert before == after;
    } else {
      QuietMessagesKeepCount(before, after[..|after|-1], p);
    }
  }

  lemma {:induction false} FinishingOneCounts(runs: seq<Run>, r: nat, run: Run, p: nat)
    requires r < |runs| && !Terminal(runs[r].status) && Terminal(run.status) && run.launcher == runs[r].launcher
    ensures TerminalCount(runs[r := run], p) == TerminalCount(runs, p) + if run.launcher == p then 1 else 0
    decreases |runs|
  {
    var n := |runs| - 1;
    if r == n {
      assert runs[r := run][..n] == runs[..n];
    } else {
      assert runs[r := run][..n] == runs[..n][r := run];
      FinishingOneCounts(runs[..n], r, run, p);
    }
  }

  lemma StepKeepsSummaryCount(s: Store, limit: int, e: Event, p: nat)
    requires Invariant(s, limit)
    requires SummaryCount(s.messages, p) == TerminalCount(s.runs, p)
    ensures var t := Step(s, limit, e); SummaryCount(t.messages, p) == TerminalCount(t.runs, p)
  {
    var t := Step(s, limit, e);
    if !e.FinalizeEvent? {
      OtherStepsAreQuiet(s, limit, e);
      QuietKeepsCount(s, t, p);
    } else {
      FinalizeKeepsSummaryCount(s, e.run, e.verdict, p);
    }
  }

  lemma QuietKeepsCount(s: Store, t: Store, p: nat)
    requires Quiet(s, t) && SummaryCount(s.messages, p) == TerminalCount(s.runs, p)
    ensures SummaryCount(t.messages, p) == TerminalCount(t.runs, p)
  {
    QuietRunsKeepCount(s.runs, t.runs, p);
    QuietMessagesKeepCount(s.messages, t.messages, p);
  }

  /** One run more is terminal, and one summary more is in its launcher. */
  lemma FinalizeKeepsSummaryCount(s: Store, r: nat, v: Verdict, p: nat)
    requires SummaryCount(s.messages, p) == TerminalCount(s.runs, p)
    ensures var t := Finalize(s, r, v); SummaryCount(t.messages, p) == TerminalCount(t.runs, p)
  {
    if FinalizeCheck(s, r).Ok? && !Terminal(s.runs[r].status) {
      var t := FinalizeOpen(s, r, v);
      var run := FinishedRun(s.runs[r], v, |s.messages|, s.now);
      assert t.runs == s.runs[r := run];
      FinishingOneCounts(s.runs, r, run, p);
      var m := t.messages[|s.messages|];
      assert t.messages == s.messages + [m] && m.session == s.runs[r].launcher && m.origin == SummaryOf(r);
      assert t.messages[..|s.messages|] == s.messages;
    }
  }

  lemma {:induction false} SummaryCountOverHistory(s: Store, limit: int, es: seq<Event>, p: nat)
    requires Invariant(s, limit)
    requires SummaryCount(s.messages, p) == TerminalCount(s.runs, p)
    ensures var t := After(s, limit, es); SummaryCount(t.messages, p) == TerminalCount(t.runs, p)
    decreases |es|
  {
    if |es| > 0 {
      StepKeepsInvariant(s, limit, es[0]);
      StepKeepsSummaryCount(s, limit, es[0], p);
      SummaryCountOverHistory(Step(s, limit, es[0]), limit, es[1..], p);
    }
  }

  /** In every reachable state a run is terminal exactly when it is stamped, its one
      summary is in its parent, its child carries its status, and the parent holds as
      many summaries as it has terminal runs. */
  lemma OneSummaryPerTerminalRun(limit: int, es: seq<Event>, r: nat)
    requires r < |After(EmptyStore, limit, es).runs|
    ensures var t := After(EmptyStore, limit, es);
            var run := t.runs[r];
            && (Terminal(run.status) <==> run.finishedAt.Some?)
            && (Terminal(run.status) <==> exists m: nat | m < |t.messages| :: t.messages[m].origin == SummaryOf(r))
            && (forall m: nat, n: nat | m < |t.messages| && n < |t.messages|
                  && t.messages[m].origin == SummaryOf(r) && t.messages[n].origin == SummaryOf(r) ::
                  m == n && t.messages[m].session == run.launcher)
            && run.child < |t.sessions|
            && (Terminal(run.status) ==> t.sessions[run.child].status == run.status)
            && SummaryCount(t.messages, run.launcher) == TerminalCount(t.runs, run.launcher)
  {
    EveryReachableState(EmptyStore, limit, es);
    var t := After(EmptyStore, limit, es);
    assert RunFinished(t, r);
    SummaryCountOverHistory(EmptyStore, limit, es, t.runs[r].launcher);
  }

  // ------------------------------------------------------------- claims, changes

  /** How often a history claims run `r`. */
  function ClaimsOf(s: Store, limit: int, es: seq<Event>, r: nat): nat
    decreases |es|
  {
    if |es| == 0 then 0 else
    (if es[0].ClaimEvent? && OldestQueued(s.runs) == Some(r) then 1 else 0)
    + ClaimsOf(Step(s, limit, es[0]), limit, es[1..], r)
  }

  ghost predicate StampedWhenClaimed(s: Store) {
    forall r: nat | r < |s.runs| ::
      && (s.runs[r].status == Queued ==> s.runs[r].startedAt.None?)
      && (s.runs[r].status == Running ==> s.runs[r].startedAt.Some?)
  }

  function Started(s: Store, r: nat): nat {
    if r < |s.runs| && s.runs[r].startedAt.Some? then 1 else 0
  }

  lemma StepCountsClaims(s: Store, limit: int, e: Event, r: nat)
    requires RunStatuses(s) && StampedWhenClaimed(s)
    ensures StampedWhenClaimed(Step(s, limit, e))
    ensures Started(s, r) + (if e.ClaimEvent? && OldestQueued(s.runs) == Some(r) then 1 else 0)
         == Started(Step(s, limit, e), r) <= 1
  {
    if !WritesRuns(e) {
      OtherStepsKeepRuns(s, limit, e);
    } else {
      match e
      case ClaimEvent => ClaimStamps(s, r);
      case FinalizeEvent(q, v) => FinalizeKeepsStamps(s, q, v, r);
      case SpawnEvent(parent, timeout) => SpawnKeepsStamps(s, parent, timeout, limit, r);
      case _ =>
    }
  }

  lemma ClaimStamps(s: Store, r: nat)
    requires StampedWhenClaimed(s)
    ensures StampedWhenClaimed(Claim(s))
    ensures Started(s, r) + (if OldestQueued(s.runs) == Some(r) then 1 else 0) == Started(Claim(s), r)
  {
    ClaimPicksQueued(s.runs);
  }

  lemma FinalizeKeepsStamps(s: Store, q: nat, v: Verdict, r: nat)
    requires StampedWhenClaimed(s)
    ensures StampedWhenClaimed(Finalize(s, q, v)) && Started(Finalize(s, q, v), r) == Started(s, r)
  {}

  lemma SpawnKeepsStamps(s: Store, parent: nat, timeout: int, limit: int, r: nat)
    requires StampedWhenClaimed(s)
    ensures var t := Spawn(s, parent, timeout, limit); StampedWhenClaimed(t) && Started(t, r) == Started(s, r)
  {}

  /** The claims of a run over a whole history are counted by its start stamp, so a
      run is claimed at most once. */
  lemma {:induction false} ClaimedAtMostOnce(s: Store, limit: int, es: seq<Event>, r: nat)
    requires RunStatuses(s) && StampedWhenClaimed(s)
    ensures Started(s, r) + ClaimsOf(s, limit, es, r) == Started(After(s, limit, es), r) <= 1
    decreases |es|
  {
    if |es| > 0 {
      StepAdvances(s, limit, es[0]);
      StepCountsClaims(s, limit, es[0], r);
      ClaimedAtMostOnce(Step(s, limit, es[0]), limit, es[1..], r);
    }
  }

  function ExecutionClaimsOf(s: Store, limit: int, es: seq<Event>, tr: nat): nat
    decreases |es|
  {
    if |es| == 0 then 0 else
    (if es[0].ClaimExecutionEvent? && OldestExecution(s, |s.taskRuns|) == Some(tr) then 1 else 0)
    + ExecutionClaimsOf(Step(s, limit, es[0]), limit, es[1..], tr)
  }

  lemma {:induction false} ExecutionClaimIsOldest(s: Store, n: nat)
    requires n <= |s.taskRuns|
    ensures OldestExecution(s, n).None? <==> forall tr: nat | tr < n :: !QueuedExecution(s, tr)
    ensures OldestExecution(s, n).Some? ==>
              var c := OldestExecution(s, n).value;
              && c < n && QueuedExecution(s, c)
              && forall tr: nat | tr < n && QueuedExecution(s, tr) ::
                   || s.taskRuns[c].createdAt < s.taskRuns[tr].createdAt
                   || (s.taskRuns[c].createdAt == s.taskRuns[tr].createdAt && c <= tr)
  {
    if n > 0 { ExecutionClaimIsOldest(s, n - 1); }
  }

  /** An execution never comes back to the queue, and its claim takes it out. */
  lemma ExecutionLeavesQueue(s: Store, limit: int, e: Event, tr: nat)
    ensures var t := Step(s, limit, e);
            && (tr < |s.taskRuns| && s.taskRuns[tr].status != Queued ==>
                      && tr < |t.taskRuns|
                      && t.taskRuns[tr].status != Queued)
            && (e.ClaimExecutionEvent? && OldestExecution(s, |s.taskRuns|) == Some(tr) ==>
                  && tr < |s.taskRuns| && s.taskRuns[tr].status == Queued
                  && tr < |t.taskRuns| && t.taskRuns[tr].status != Queued)
  {
    ExecutionClaimIsOldest(s, |s.taskRuns|);
  }

  /** A queued execution is claimed at most once, and one that is no longer queued
      never again. */
  lemma {:induction false} ExecutionClaimedAtMostOnce(s: Store, limit: int, es: seq<Event>, tr: nat)
    ensures ExecutionClaimsOf(s, limit, es, tr)
         <= if tr < |s.taskRuns| && s.taskRuns[tr].status != Queued then 0 else 1
    decreases |es|
  {
    if |es| > 0 {
      ExecutionLeavesQueue(s, limit, es[0], tr);
      ExecutionClaimedAtMostOnce(Step(s, limit, es[0]), limit, es[1..], tr);
    }
  }

  function Potential(runs: seq<Run>): nat {
    if |runs| == 0 then 0 else Potential(runs[..|runs|-1]) + Rank(runs[|runs|-1].status)
  }

  /** How many of the rows of `before` have another status in `after`. */
  function StatusChanges(before: seq<Run>, after: seq<Run>): nat
    requires |before| <= |after|
  {
    if |before| == 0 then 0 else
    var n := |before| - 1;
    StatusChanges(before[..n], after) + if before[n].status != after[n].status then 1 else 0
  }

  function ChangesOver(s: Store, limit: int, es: seq<Event>): nat
    requires RunStatuses(s)
    decreases |es|
  {
    if |es| == 0 then 0 else
    StepAdvances(s, limit, es[0]);
    StatusChanges(s.runs, Step(s, limit, es[0]).runs) + ChangesOver(Step(s, limit, es[0]), limit, es[1..])
  }

  function Spawns(es: seq<Event>): nat {
    if |es| == 0 then 0 else (if es[0].SpawnEvent? then 1 else 0) + Spawns(es[1..])
  }

  lemma {:induction false} ChangesSpendPotential(before: seq<Run>, after: seq<Run>)
    requires |before| <= |after|
    requires forall r: nat | r < |before| :: Advances(before[r], after[r])
    ensures StatusChanges(before, after) + Potential(after[..|before|]) <= Potential(before)
  {
    if |before| > 0 {
      var n := |before| - 1;
      ChangesSpendPotential(before[..n], after);
      assert after[..|before|][..n] == after[..n];
      assert Advances(before[n], after[n]);
    }
  }

  lemma {:induction false} ChangesAreBounded(s: Store, limit: int, es: seq<Event>)
    requires RunStatuses(s)
    ensures ChangesOver(s, limit, es) <= Potential(s.runs) + 2 * Spawns(es)
    decreases |es|
  {
    if |es| > 0 {
      StepAdvances(s, limit, es[0]);
      StepSpendsPotential(s, limit, es[0]);
      ChangesAreBounded(Step(s, limit, es[0]), limit, es[1..]);
    }
  }

  lemma StepSpendsPotential(s: Store, limit: int, e: Event)
    requires RunStatuses(s)
    ensures var t := Step(s, limit, e);
            && |s.runs| <= |t.runs|
            && StatusChanges(s.runs, t.runs) + Potential(t.runs)
               <= Potential(s.runs) + if e.SpawnEvent? then 2 else 0
  {
    var t := Step(s, limit, e);
    StepAdvances(s, limit, e);
    ChangesSpendPotential(s.runs, t.runs);
    StepAddsOneRun(s, limit, e);
    if |t.runs| == |s.runs| {
      assert t.runs[..|s.runs|] == t.runs;
    } else {
      assert t.runs[..|t.runs|-1] == t.runs[..|s.runs|];
    }
  }

  lemma StepAddsOneRun(s: Store, limit: int, e: Event)
    ensures |Step(s, limit, e).runs| <= |s.runs| + if e.SpawnEvent? then 1 else 0
  {
    if !WritesRuns(e) { OtherStepsKeepRuns(s, limit, e); }
  }

  /** Lifecycles cannot spin: N spawns allow at most 2N status changes in all. */
  lemma LifecyclesTerminate(limit: int, es: seq<Event>)
    ensures ChangesOver(EmptyStore, limit, es) <= 2 * Spawns(es)
  {
    ChangesAreBounded(EmptyStore, limit, es);
  }
}
