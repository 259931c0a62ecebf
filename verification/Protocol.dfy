/** What every interleaving of the subagent transactions keeps. */
module Protocol {
  import opened Tables
  import opened Transitions

  // ----------------------------------------------------------------- lineage

  ghost predicate SessionShape(s: Store, x: nat)
    requires x < |s.sessions|
  {
    var row := s.sessions[x];
    match row.kind
    case Main => row.depth == 0 && row.parent.None? && row.root == Some(x)
    case Subagent =>
      && row.depth == 1
      && row.parent.Some? && row.parent.value < |s.sessions|
      && s.sessions[row.parent.value].kind.Main?
      && row.root == s.sessions[row.parent.value].root
  }

  ghost predicate RunShape(s: Store, r: nat)
    requires r < |s.runs|
  {
    var run := s.runs[r];
    && run.launcher < |s.sessions| && run.child < |s.sessions|
    && s.sessions[run.launcher].kind.Main?
    && s.sessions[run.child].kind.Subagent?
    && s.sessions[run.child].parent == Some(run.launcher)
  }

  /** Sessions form a forest of depth one, and each run has its own child. */
  ghost predicate Lineage(s: Store) {
    && (forall x: nat | x < |s.sessions| :: SessionShape(s, x))
    && (forall r: nat | r < |s.runs| :: RunShape(s, r))
    && (forall q: nat, r: nat | q < r < |s.runs| :: s.runs[q].child != s.runs[r].child)
  }

  /** Nothing that steers the lineage is ever rewritten. */
  ghost predicate SameTree(old_: Store, new_: Store) {
    && |old_.sessions| <= |new_.sessions|
    && forall x: nat | x < |old_.sessions| ::
         && new_.sessions[x].kind == old_.sessions[x].kind
         && new_.sessions[x].parent == old_.sessions[x].parent
         && new_.sessions[x].root == old_.sessions[x].root
         && new_.sessions[x].depth == old_.sessions[x].depth
  }

  lemma StepKeepsTree(s: Store, limit: int, e: Event)
    ensures SameTree(s, Step(s, limit, e))
  {}

  // --------------------------------------------------------- run lifecycles

  function Rank(status: Status): nat {
    match status
    case Queued => 2
    case Running => 1
    case _ => 0
  }

  /** One run, before and after any transaction. */
  ghost predicate Advances(before: Run, after: Run) {
    && after.launcher == before.launcher
    && after.child == before.child
    && after.createdAt == before.createdAt
    && (after.status != before.status ==> Rank(after.status) < Rank(before.status) && after.status != Queued)
    && (before.cancelRequestedAt.Some? ==> after.cancelRequestedAt.Some?)
    && (Terminal(before.status) ==>
          after == before.(task := after.task, taskRun := after.taskRun, updatedAt := after.updatedAt,
                           cancelRequestedAt := after.cancelRequestedAt))
  }

  ghost predicate AllAdvance(before: Store, after: Store) {
    && |before.runs| <= |after.runs|
    && (forall r: nat | r < |before.runs| :: Advances(before.runs[r], after.runs[r]))
    && (forall r: nat | |before.runs| <= r < |after.runs| :: after.runs[r].status == Queued)
  }

  /** The only statuses a run can have. */
  ghost predicate RunStatuses(s: Store) {
    forall r: nat | r < |s.runs| :: s.runs[r].status in {Queued, Running} || Terminal(s.runs[r].status)
  }

  /** The transactions that write to the table of runs. */
  predicate WritesRuns(e: Event) {
    e.SpawnEvent? || e.ClaimEvent? || e.RequestCancelEvent? || e.FinalizeEvent? || e.AttachEvent?
  }

  lemma OtherStepsKeepRuns(s: Store, limit: int, e: Event)
    requires !WritesRuns(e)
    ensures Step(s, limit, e).runs == s.runs
  {}

  lemma FinalizeAdvances(s: Store, r: nat, v: Verdict)
    requires RunStatuses(s)
    ensures RunStatuses(Finalize(s, r, v))
    ensures AllAdvance(s, Finalize(s, r, v))
  {}

  lemma ClaimAdvances(s: Store)
    requires RunStatuses(s)
    ensures RunStatuses(Claim(s))
    ensures AllAdvance(s, Claim(s))
  {
    ClaimPicksQueued(s.runs);
  }

  lemma SpawnAdvances(s: Store, parent: nat, timeout: int, limit: int)
    requires RunStatuses(s)
    ensures RunStatuses(Spawn(s, parent, timeout, limit))
    ensures AllAdvance(s, Spawn(s, parent, timeout, limit))
  {}

  lemma StepAdvances(s: Store, limit: int, e: Event)
    requires RunStatuses(s)
    ensures RunStatuses(Step(s, limit, e))
    ensures AllAdvance(s, Step(s, limit, e))
  {
    if !WritesRuns(e) {
      OtherStepsKeepRuns(s, limit, e);
    } else {
      match e
      case SpawnEvent(parent, timeout) => SpawnAdvances(s, parent, timeout, limit);
      case FinalizeEvent(r, v) => FinalizeAdvances(s, r, v);
      case ClaimEvent => ClaimAdvances(s);
      case _ =>
    }
  }

  lemma {:induction false} ClaimPicksQueued(runs: seq<Run>)
    ensures OldestQueued(runs).Some? ==>
              OldestQueued(runs).value < |runs| && runs[OldestQueued(runs).value].status == Queued
  {
    if |runs| > 0 { ClaimPicksQueued(runs[..|runs|-1]); }
  }

  /** The claim takes the oldest queued run, and finds one whenever there is one. */
  lemma {:induction false} ClaimIsOldest(runs: seq<Run>)
    ensures OldestQueued(runs).None? <==> forall r: nat | r < |runs| :: runs[r].status != Queued
    ensures OldestQueued(runs).Some? ==>
              var c := OldestQueued(runs).value;
              && c < |runs| && runs[c].status == Queued
              && forall r: nat | r < |runs| && runs[r].status == Queued ::
                   runs[c].createdAt < runs[r].createdAt || (runs[c].createdAt == runs[r].createdAt && c <= r)
  {
    if |runs| > 0 {
      var n := |runs| - 1;
      ClaimIsOldest(runs[..n]);
      assert forall r: nat | r < n :: runs[..n][r] == runs[r];
    }
  }

  /** A new run comes with a new child of a main session; nothing else adds either. */
  lemma NewRunsHaveNewChildren(s: Store, limit: int, e: Event)
    requires Lineage(s)
    ensures var t := Step(s, limit, e);
            && (forall x: nat | |s.sessions| <= x < |t.sessions| :: SessionShape(t, x))
            && (forall r: nat | |s.runs| <= r < |t.runs| ::
                  RunShape(t, r) && t.runs[r].child == |s.sessions| && r == |s.runs|)
  {
    if e.SpawnEvent? && SpawnCheck(s, e.parent, limit).Ok? { assert SessionShape(s, e.parent); }
  }

  lemma StepKeepsLineage(s: Store, limit: int, e: Event)
    requires Lineage(s) && RunStatuses(s)
    ensures Lineage(Step(s, limit, e))
  {
    var t := Step(s, limit, e);
    StepKeepsTree(s, limit, e);
    StepAdvances(s, limit, e);
    NewRunsHaveNewChildren(s, limit, e);
    forall x: nat | x < |t.sessions| ensures SessionShape(t, x) {
      if x < |s.sessions| { assert SessionShape(s, x); }
    }
    forall r: nat | r < |t.runs| ensures RunShape(t, r) {
      if r < |s.runs| { assert RunShape(s, r) && Advances(s.runs[r], t.runs[r]); }
    }
    forall q: nat, r: nat | q < r < |t.runs| ensures t.runs[q].child != t.runs[r].child {
      assert RunShape(s, q) && Advances(s.runs[q], t.runs[q]);
      if r < |s.runs| { assert Advances(s.runs[r], t.runs[r]); }
    }
  }

  // ------------------------------------------------------- terminal bookkeeping

  ghost predicate RunFinished(s: Store, r: nat)
    requires r < |s.runs|
  {
    var run := s.runs[r];
    && (Terminal(run.status) <==> run.finishedAt.Some?)
    && (Terminal(run.status) <==> run.summaryMessage.Some?)
    && (run.summaryMessage.Some? ==>
          var m := run.summaryMessage.value;
          && m < |s.messages|
          && s.messages[m].session == run.launcher
          && s.messages[m].role == Assistant
          && s.messages[m].origin == SummaryOf(r))
    && run.child < |s.sessions|
    && s.sessions[run.child].status == (if Terminal(run.status) then run.status else Queued)
  }

  /** A run is terminal exactly when it is stamped and has posted its summary,
      and no summary is posted for anything else. */
  ghost predicate Finished(s: Store) {
    && (forall r: nat | r < |s.runs| :: RunFinished(s, r))
    && (forall m: nat | m < |s.messages| && s.messages[m].origin.SummaryOf? ::
          var r := s.messages[m].origin.run;
          r < |s.runs| && s.runs[r].summaryMessage == Some(m))
  }

  lemma FinalizeKeepsFinished(s: Store, r: nat, v: Verdict)
    requires Lineage(s) && Finished(s) && RunStatuses(s)
    requires FinalizeCheck(s, r).Ok? && !Terminal(s.runs[r].status)
    ensures Finished(FinalizeOpen(s, r, v))
  {
    var t := FinalizeOpen(s, r, v);
    assert RunShape(s, r) && RunFinished(s, r);
    forall q: nat | q < |t.runs| ensures RunFinished(t, q) {
      assert RunShape(s, q) && RunFinished(s, q);
    }
  }

  /** What every transaction but the finalizing one leaves alone. */
  ghost predicate Quiet(s: Store, t: Store) {
    && s.messages <= t.messages
    && (forall m: nat | |s.messages| <= m < |t.messages| :: t.messages[m].origin == Conversation)
    && |s.sessions| <= |t.sessions|
    && (forall x: nat | x < |s.sessions| :: t.sessions[x].status == s.sessions[x].status)
    && |s.runs| <= |t.runs|
    && (forall r: nat | r < |s.runs| :: QuietRun(s.runs[r], t.runs[r]))
    && (forall r: nat | |s.runs| <= r < |t.runs| ::
          && t.runs[r].status == Queued && t.runs[r].summaryMessage.None? && t.runs[r].finishedAt.None?
          && t.runs[r].child < |t.sessions| && t.sessions[t.runs[r].child].status == Queued)
  }

  ghost predicate QuietRun(before: Run, after: Run) {
    && after.launcher == before.launcher && after.child == before.child
    && after.finishedAt == before.finishedAt
    && after.summaryMessage == before.summaryMessage
    && (Terminal(before.status) || Terminal(after.status) ==> after.status == before.status)
  }

  lemma OtherStepsAreQuiet(s: Store, limit: int, e: Event)
    requires !e.FinalizeEvent?
    ensures Quiet(s, Step(s, limit, e))
  {
    match e
    case SayEvent(x, role, text, seen) => SayIsQuiet(s, x, role, text, seen);
    case SpawnEvent(parent, timeout) => SpawnIsQuiet(s, parent, timeout, limit);
    case ClaimEvent => ClaimIsQuiet(s);
    case EnqueueEvent(x, text, seen) => SayIsQuiet(s, x, User, text, seen);
    case PersistEvent(tr, o, seen) => PersistIsQuiet(s, tr, o, seen);
    case _ =>
  }

  lemma SayIsQuiet(s: Store, x: nat, role: Role, text: string, seen: Reading)
    ensures Quiet(s, Say(s, x, role, text, seen))
  {}

  lemma SpawnIsQuiet(s: Store, parent: nat, timeout: int, limit: int)
    ensures Quiet(s, Spawn(s, parent, timeout, limit))
  {}

  lemma ClaimIsQuiet(s: Store)
    ensures Quiet(s, Claim(s))
  {
    ClaimPicksQueued(s.runs);
  }

  lemma PersistIsQuiet(s: Store, tr: nat, o: Outcome, seen: Reading)
    ensures Quiet(s, Persist(s, tr, o, seen))
  {}

  lemma QuietKeepsFinished(s: Store, t: Store)
    requires Finished(s) && Quiet(s, t)
    ensures Finished(t)
  {
    forall r: nat | r < |t.runs| ensures RunFinished(t, r) {
      if r < |s.runs| {
        assert RunFinished(s, r) && QuietRun(s.runs[r], t.runs[r]);
      }
    }
  }

  lemma StepKeepsFinished(s: Store, limit: int, e: Event)
    requires Lineage(s) && Finished(s) && RunStatuses(s)
    ensures Finished(Step(s, limit, e))
  {
    if e.FinalizeEvent? {
      if FinalizeCheck(s, e.run).Ok? && !Terminal(s.runs[e.run].status) {
        FinalizeKeepsFinished(s, e.run, e.verdict);
      }
    } else {
      OtherStepsAreQuiet(s, limit, e);
      QuietKeepsFinished(s, Step(s, limit, e));
    }
  }

  // --------------------------------------------------------------- cancellation

  /** The statuses that respect a cancellation request. */
  predicate RespectsRequest(status: Status) {
    status in {Running, Cancelled, TimedOut}
  }

  ghost predicate Honoured(run: Run) {
    run.cancelRequestedAt.Some? ==> RespectsRequest(run.status)
  }

  /** Every recorded request is respected: its run never ended completed or failed. */
  ghost predicate CancelHonoured(s: Store) {
    forall r: nat | r < |s.runs| :: Honoured(s.runs[r])
  }

  /** The transaction stamps a run that has completed or failed since it was read. */
  predicate StampsTooLate(s: Store, e: Event) {
    e.RequestCancelEvent? && e.run < |s.runs| && s.runs[e.run].status in {Completed, Failed}
  }

  /** Once a request is recorded and respected, every transaction keeps it so. */
  lemma StepRespectsRequest(s: Store, limit: int, e: Event, r: nat)
    requires r < |s.runs| && s.runs[r].cancelRequestedAt.Some? && RespectsRequest(s.runs[r].status)
    ensures var t := Step(s, limit, e);
            r < |t.runs| && t.runs[r].cancelRequestedAt.Some? && RespectsRequest(t.runs[r].status)
  {
    ClaimPicksQueued(s.runs);
    if !WritesRuns(e) { OtherStepsKeepRuns(s, limit, e); }
  }

  /** No run gets a request but by a stamp, and no new run has one. */
  lemma RequestsComeFromStamps(s: Store, limit: int, e: Event, r: nat)
    requires r < |Step(s, limit, e).runs| && Step(s, limit, e).runs[r].cancelRequestedAt.Some?
    ensures r < |s.runs| && (s.runs[r].cancelRequestedAt.Some?
        || (e == RequestCancelEvent(r) && s.runs[r].status != Queued))
  {
    ClaimPicksQueued(s.runs);
    if !WritesRuns(e) { OtherStepsKeepRuns(s, limit, e); }
  }

  /** Nobody has asked a queued run to stop: such a run is cancelled at once. */
  ghost predicate QueuedIsUnasked(s: Store) {
    forall r: nat | r < |s.runs| && s.runs[r].status == Queued :: s.runs[r].cancelRequestedAt.None?
  }

  lemma StepKeepsQueuedUnasked(s: Store, limit: int, e: Event)
    requires RunStatuses(s) && QueuedIsUnasked(s)
    ensures QueuedIsUnasked(Step(s, limit, e))
  {
    var t := Step(s, limit, e);
    StepAdvances(s, limit, e);
    forall r: nat | r < |t.runs| && t.runs[r].status == Queued ensures t.runs[r].cancelRequestedAt.None? {
      if t.runs[r].cancelRequestedAt.Some? {
        RequestsComeFromStamps(s, limit, e, r);
        assert Advances(s.runs[r], t.runs[r]);
      }
    }
  }

  /** Respect for requests is lost exactly by a stamp that comes too late. */
  lemma CancelHonouredLostExactlyByLateStamp(s: Store, limit: int, e: Event)
    requires RunStatuses(s) && CancelHonoured(s)
    ensures CancelHonoured(Step(s, limit, e)) <==> !StampsTooLate(s, e)
  {
    var t := Step(s, limit, e);
    if StampsTooLate(s, e) {
      assert !Honoured(t.runs[e.run]);
    } else {
      forall r: nat | r < |t.runs| ensures Honoured(t.runs[r]) {
        if t.runs[r].cancelRequestedAt.Some? {
          RequestsComeFromStamps(s, limit, e, r);
          assert Honoured(s.runs[r]);
          if s.runs[r].cancelRequestedAt.Some? { StepRespectsRequest(s, limit, e, r); }
        }
      }
    }
  }

  /** No stamp of the history comes too late. */
  ghost predicate StampsInTime(s: Store, limit: int, es: seq<Event>)
    decreases |es|
  {
    |es| == 0 || (!StampsTooLate(s, es[0]) && StampsInTime(Step(s, limit, es[0]), limit, es[1..]))
  }

  // ---------------------------------------------------------------- concurrency

  /** No session has more runs in flight than the configured limit. */
  ghost predicate Bounded(s: Store, limit: int) {
    forall p: nat :: ActiveCount(s.runs, p) <= if limit < 0 then 0 else limit
  }

  lemma {:induction false} AdvancingFreesSlots(before: seq<Run>, after: seq<Run>, p: nat)
    requires |before| == |after|
    requires forall r: nat | r < |before| :: Advances(before[r], after[r])
    requires forall r: nat | r < |before| :: before[r].status in {Queued, Running} || Terminal(before[r].status)
    ensures ActiveCount(after, p) <= ActiveCount(before, p)
  {
    if |before| > 0 {
      var n := |before| - 1;
      AdvancingFreesSlots(before[..n], after[..n], p);
      assert Advances(before[n], after[n]);
    }
  }

  lemma StepKeepsBound(s: Store, limit: int, e: Event)
    requires RunStatuses(s) && Bounded(s, limit)
    ensures Bounded(Step(s, limit, e), limit)
  {
    var t := Step(s, limit, e);
    StepAdvances(s, limit, e);
    forall p: nat ensures ActiveCount(t.runs, p) <= if limit < 0 then 0 else limit {
      if |t.runs| == |s.runs| {
        AdvancingFreesSlots(s.runs, t.runs, p);
      } else {
        assert t.runs[..|t.runs|-1] == s.runs;
      }
    }
  }

  // ------------------------------------------------------------------ the whole

  ghost predicate Invariant(s: Store, limit: int) {
    Lineage(s) && RunStatuses(s) && Finished(s) && QueuedIsUnasked(s) && Bounded(s, limit)
  }

  lemma StepKeepsInvariant(s: Store, limit: int, e: Event)
    requires Invariant(s, limit)
    ensures Invariant(Step(s, limit, e), limit)
  {
    StepKeepsLineage(s, limit, e);
    StepAdvances(s, limit, e);
    StepKeepsFinished(s, limit, e);
    StepKeepsQueuedUnasked(s, limit, e);
    StepKeepsBound(s, limit, e);
  }

  /** Under any interleaving, every reachable state satisfies the invariant. */
  lemma {:induction false} EveryReachableState(s: Store, limit: int, es: seq<Event>)
    requires Invariant(s, limit)
    ensures Invariant(After(s, limit, es), limit)
    decreases |es|
  {
    if |es| > 0 {
      StepKeepsInvariant(s, limit, es[0]);
      EveryReachableState(Step(s, limit, es[0]), limit, es[1..]);
    }
  }

  lemma EmptyStoreSatisfiesInvariant(limit: int)
    ensures Invariant(EmptyStore, limit)
  {}
}
