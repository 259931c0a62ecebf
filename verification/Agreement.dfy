/** How far the status of a run and of the task that carried it out agree. */
module Agreement {
  import opened Tables
  import opened Transitions
  import opened Protocol

  ghost predicate AttachedTo(s: Store, r: nat) {
    && r < |s.runs|
    && s.runs[r].taskRun.Some?
    && Owns(s, r, s.runs[r].taskRun.value)
    && s.runs[r].task == Some(s.taskRuns[s.runs[r].taskRun.value].task)
  }

  /** A run is attached to nothing, or to a task of its own child session. */
  ghost predicate Attachments(s: Store) {
    forall r: nat | r < |s.runs| ::
      (s.runs[r].task.None? && s.runs[r].taskRun.None?) || AttachedTo(s, r)
  }

  /** Tasks and task runs are never removed or moved to another owner. */
  ghost predicate SameOwners(s: Store, t: Store) {
    && |s.tasks| <= |t.tasks| && |s.taskRuns| <= |t.taskRuns|
    && (forall k: nat | k < |s.tasks| ::
          t.tasks[k].session == s.tasks[k].session && t.tasks[k].kind == s.tasks[k].kind)
    && (forall k: nat | k < |s.taskRuns| :: t.taskRuns[k].task == s.taskRuns[k].task)
  }

  lemma StepKeepsOwners(s: Store, limit: int, e: Event)
    ensures SameOwners(s, Step(s, limit, e))
  {}

  lemma {:induction false} OwnersThroughHistory(s: Store, limit: int, es: seq<Event>)
    ensures SameOwners(s, After(s, limit, es))
    decreases |es|
  {
    if |es| > 0 {
      StepKeepsOwners(s, limit, es[0]);
      OwnersThroughHistory(Step(s, limit, es[0]), limit, es[1..]);
    }
  }

  lemma StepAttaches(s: Store, limit: int, e: Event, r: nat)
    requires r < |s.runs| && RunStatuses(s)
    ensures r < |Step(s, limit, e).runs|
    ensures var before := s.runs[r]; var after := Step(s, limit, e).runs[r];
            || (after.task == before.task && after.taskRun == before.taskRun)
            || (e.AttachEvent? && e.run == r && Owns(s, r, e.taskRun)
                && after.task == Some(s.taskRuns[e.taskRun].task) && after.taskRun == Some(e.taskRun))
  {
    if !WritesRuns(e) { OtherStepsKeepRuns(s, limit, e); }
  }

  lemma StepKeepsAttachments(s: Store, limit: int, e: Event)
    requires RunStatuses(s) && Attachments(s)
    ensures Attachments(Step(s, limit, e))
  {
    var t := Step(s, limit, e);
    StepKeepsOwners(s, limit, e);
    StepAdvances(s, limit, e);
    forall r: nat | r < |t.runs|
      ensures (t.runs[r].task.None? && t.runs[r].taskRun.None?) || AttachedTo(t, r)
    {
      if r < |s.runs| {
        StepAttaches(s, limit, e, r);
        assert Advances(s.runs[r], t.runs[r]);
      } else {
        NewRunsAreUnattached(s, limit, e);
      }
    }
  }

  lemma NewRunsAreUnattached(s: Store, limit: int, e: Event)
    ensures var t := Step(s, limit, e);
            forall r: nat | |s.runs| <= r < |t.runs| :: t.runs[r].task.None? && t.runs[r].taskRun.None?
  {
    if !WritesRuns(e) { OtherStepsKeepRuns(s, limit, e); }
  }

  lemma {:induction false} AttachmentsInEveryState(s: Store, limit: int, es: seq<Event>)
    requires RunStatuses(s) && Attachments(s)
    ensures Attachments(After(s, limit, es))
    decreases |es|
  {
    if |es| > 0 {
      StepKeepsAttachments(s, limit, es[0]);
      StepAdvances(s, limit, es[0]);
      AttachmentsInEveryState(Step(s, limit, es[0]), limit, es[1..]);
    }
  }

  /** The attached task and task run carry exactly the run's status. */
  ghost predicate Agrees(s: Store, r: nat)
    requires AttachedTo(s, r)
  {
    && s.taskRuns[s.runs[r].taskRun.value].status == s.runs[r].status
    && s.tasks[s.runs[r].task.value].status == s.runs[r].status
  }

  /** When finalizing acts, the run, its child session, its task and its task run all
      take the one resolved status, and no other row of those tables changes status. */
  lemma FinalizeResolvesOnce(s: Store, r: nat, v: Verdict)
    requires Lineage(s) && Attachments(s)
    requires r < |s.runs| && !Terminal(s.runs[r].status)
    ensures var t := Finalize(s, r, v);
            && |t.runs| == |s.runs| && |t.sessions| == |s.sessions|
            && |t.tasks| == |s.tasks| && |t.taskRuns| == |s.taskRuns|
            && t.runs[r].child < |t.sessions|
            && (t.runs[r].status == Cancelled <==>
                  v.status == Cancelled || (s.runs[r].cancelRequestedAt.Some? && v.status != TimedOut))
            && (t.runs[r].status != Cancelled ==> t.runs[r].status == v.status)
            && t.sessions[t.runs[r].child].status == t.runs[r].status
            && (t.runs[r].taskRun.Some? ==> AttachedTo(t, r) && Agrees(t, r))
            && (forall q: nat | q < |s.runs| && q != r :: t.runs[q] == s.runs[q])
            && (forall x: nat | x < |s.sessions| && x != s.runs[r].child ::
                t.sessions[x].status == s.sessions[x].status)
            && (forall k: nat | k < |s.tasks| && Some(k) != s.runs[r].task :: t.tasks[k] == s.tasks[k])
            && (forall k: nat | k < |s.taskRuns| && Some(k) != s.runs[r].taskRun :: t.taskRuns[k] == s.taskRuns[k])
  {
    assert RunShape(s, r);
  }

  /** The two transactions that can part a terminal run from its task: the executor
      writing down another end of that task, or the worker attaching another task. */
  predicate Parts(s: Store, e: Event, r: nat)
    requires r < |s.runs|
  {
    match e
    case PersistEvent(tr, o, seen) =>
      && Persistable(s, tr, o, seen)
      && Some(s.taskRuns[tr].task) == s.runs[r].task
      && o.status != s.runs[r].status
    case AttachEvent(q, tr) =>
      && q == r && Owns(s, r, tr)
      && !(s.taskRuns[tr].status == s.runs[r].status
           && s.tasks[s.taskRuns[tr].task].status == s.runs[r].status)
    case _ => false
  }

  /** Agreement, once reached by a terminal run, is lost exactly by a parting
      transaction. */
  lemma AgreementLostExactlyByParting(s: Store, limit: int, e: Event, r: nat)
    requires Lineage(s) && RunStatuses(s) && Attachments(s)
    requires r < |s.runs| && Terminal(s.runs[r].status) && AttachedTo(s, r) && Agrees(s, r)
    ensures AttachedTo(Step(s, limit, e), r)
    ensures Agrees(Step(s, limit, e), r) <==> !Parts(s, e, r)
  {
    var t := Step(s, limit, e);
    StepKeepsAttachments(s, limit, e);
    StepAdvances(s, limit, e);
    StepAttaches(s, limit, e, r);
    assert Advances(s.runs[r], t.runs[r]);
    if e.FinalizeEvent? {
      FinalizeLeavesOthers(s, e.run, e.verdict, r);
    } else if e.ClaimExecutionEvent? {
      ClaimLeavesDelegated(s, r);
    } else if e.PersistEvent? {
      PersistSetsStatus(s, e.taskRun, e.outcome, e.seen);
    } else {
      RestKeepsTasks(s, limit, e);
    }
  }

  lemma FinalizeLeavesOthers(s: Store, q: nat, v: Verdict, r: nat)
    requires Lineage(s) && Attachments(s)
    requires r < |s.runs| && Terminal(s.runs[r].status) && AttachedTo(s, r)
    ensures var t := Finalize(s, q, v);
            && |t.tasks| == |s.tasks| && |t.taskRuns| == |s.taskRuns|
            && t.tasks[s.runs[r].task.value] == s.tasks[s.runs[r].task.value]
            && t.taskRuns[s.runs[r].taskRun.value] == s.taskRuns[s.runs[r].taskRun.value]
  {
    if q < |s.runs| && !Terminal(s.runs[q].status) {
      assert s.runs[q].child != s.runs[r].child by {
        if q < r { assert s.runs[q].child != s.runs[r].child; } else { assert s.runs[r].child != s.runs[q].child; }
      }
      FinalizeResolvesOnce(s, q, v);
    }
  }

  lemma ClaimLeavesDelegated(s: Store, r: nat)
    requires AttachedTo(s, r)
    ensures var t := ClaimExecution(s);
            && |t.tasks| == |s.tasks| && |t.taskRuns| == |s.taskRuns|
            && t.tasks[s.runs[r].task.value] == s.tasks[s.runs[r].task.value]
            && t.taskRuns[s.runs[r].taskRun.value] == s.taskRuns[s.runs[r].taskRun.value]
  {}

  lemma PersistSetsStatus(s: Store, tr: nat, o: Outcome, seen: Reading)
    ensures var t := Persist(s, tr, o, seen);
            && |t.tasks| == |s.tasks| && |t.taskRuns| == |s.taskRuns|
            && forall k: nat | k < |s.taskRuns| && s.taskRuns[k].task < |s.tasks| ::
                 var hit := Persistable(s, tr, o, seen);
                 && t.taskRuns[k].status == (if hit && k == tr then o.status else s.taskRuns[k].status)
                 && t.tasks[s.taskRuns[k].task].status
                    == (if hit && s.taskRuns[k].task == s.taskRuns[tr].task then o.status
                        else s.tasks[s.taskRuns[k].task].status)
  {}

  lemma RestKeepsTasks(s: Store, limit: int, e: Event)
    requires !e.FinalizeEvent? && !e.ClaimExecutionEvent? && !e.PersistEvent?
    ensures s.tasks <= Step(s, limit, e).tasks && s.taskRuns <= Step(s, limit, e).taskRuns
  {}

  // ------------------------------------------------------------ the late worker

  const Stuck := Verdict(TimedOut, "timed out", "{}", None, None, None, "timed out")
  const Late := Outcome(Completed, "done", None, None, None)

  lemma {:induction false} AfterCons(s: Store, limit: int, e: Event, es: seq<Event>)
    ensures After(s, limit, [e] + es) == After(Step(s, limit, e), limit, es)
  {
    assert ([e] + es)[1..] == es;
  }

  lemma TwoMore(s: Store, limit: int, es: seq<Event>, a: Event, b: Event)
    ensures After(s, limit, es + [a] + [b]) == Step(Step(After(s, limit, es), limit, a), limit, b)
  {
    AfterConcat(s, limit, es + [a], [b]);
    AfterConcat(s, limit, es, [a]);
    AfterCons(After(s, limit, es), limit, a, []);
    assert [a] + [] == [a];
    AfterCons(After(s, limit, es + [a]), limit, b, []);
    assert [b] + [] == [b];
  }

  /** A history that ends with the first run of the first session claimed. */
  lemma ClaimedHistory() returns (es: seq<Event>)
    ensures var t := After(EmptyStore, 3, es);
            && |t.runs| == 1 && t.runs[0].status == Running && t.runs[0].cancelRequestedAt.None?
            && FinalizeCheck(t, 0).Ok? && t.tasks == [] && t.taskRuns == []
  {
    var s1 := Step(EmptyStore, 3, CreateMainEvent);
    var s2 := Step(s1, 3, SpawnEvent(0, 3));
    assert s2.runs == [NewRun(s1, 0, 1)] && s2.runs[..0] == [];
    assert OldestQueued(s2.runs) == Some(0);
    var s3 := Step(s2, 3, ClaimEvent);
    es := [CreateMainEvent];
    AfterCons(EmptyStore, 3, CreateMainEvent, []);
    assert [CreateMainEvent] + [] == es;
    TwoMore(EmptyStore, 3, es, SpawnEvent(0, 3), ClaimEvent);
    es := es + [SpawnEvent(0, 3)] + [ClaimEvent];
    assert After(EmptyStore, 3, es) == s3;
  }

  /** Preparing and attaching the first task of a running run. */
  lemma FirstTaskAttached(s: Store)
    requires |s.runs| == 1 && s.runs[0].status == Running && s.tasks == [] && s.taskRuns == []
    ensures var t := Attach(Prepare(s, 0), 0, 0);
            AttachedTo(t, 0) && t.runs[0].status == Running && t.runs[0].taskRun == Some(0)
  {}

  /** A history in which a worker has claimed a run and attached its task. */
  lemma BusyHistory() returns (es: seq<Event>)
    ensures var t := After(EmptyStore, 3, es);
            && AttachedTo(t, 0) && t.runs[0].status == Running && t.runs[0].taskRun == Some(0)
  {
    var claimed := ClaimedHistory();
    FirstTaskAttached(After(EmptyStore, 3, claimed));
    TwoMore(EmptyStore, 3, claimed, PrepareEvent(0), AttachEvent(0, 0));
    es := claimed + [PrepareEvent(0)] + [AttachEvent(0, 0)];
  }

  /** Whenever the sweeper beats the worker, the two rows disagree.  The verdict is
      posted to the launcher, so the worker's reading of its own session still holds. */
  lemma SweeperBeatsWorker(s: Store, r: nat, o: Outcome, seen: Reading)
    requires Lineage(s) && Attachments(s) && AttachedTo(s, r) && s.runs[r].status == Running
    requires Terminal(o.status) && Insertable(s, s.runs[r].child, seen)
    ensures var t := Persist(Finalize(s, r, Stuck), s.runs[r].taskRun.value, o, seen);
            && AttachedTo(t, r) && t.runs[r].status == TimedOut
            && t.tasks[t.runs[r].task.value].status == o.status
            && (Agrees(t, r) <==> o.status == TimedOut)
  {
    FinalizeResolvesOnce(s, r, Stuck);
    var swept := Finalize(s, r, Stuck);
    assert AttachedTo(swept, r);
    SweepLeavesChild(s, r, seen);
    PersistSetsStatus(swept, s.runs[r].taskRun.value, o, seen);
    PersistKeepsRuns(swept, s.runs[r].taskRun.value, o, seen);
  }

  lemma SweepLeavesChild(s: Store, r: nat, seen: Reading)
    requires Lineage(s) && r < |s.runs| && !Terminal(s.runs[r].status)
    requires Insertable(s, s.runs[r].child, seen)
    ensures Insertable(Finalize(s, r, Stuck), s.runs[r].child, seen)
  {
    assert RunShape(s, r);
    var t := Finalize(s, r, Stuck);
    assert t.messages[..|t.messages|-1] == s.messages;
  }

  lemma PersistKeepsRuns(s: Store, tr: nat, o: Outcome, seen: Reading)
    ensures var t := Persist(s, tr, o, seen); t.runs == s.runs && SameOwners(s, t)
  {}

  lemma SweptThenPersisted(u: Store, limit: int, seen: Reading)
    requires Lineage(u) && Attachments(u) && AttachedTo(u, 0) && u.runs[0].status == Running
    requires u.runs[0].taskRun == Some(0) && Insertable(u, u.runs[0].child, seen)
    ensures var t := Step(Step(u, limit, FinalizeEvent(0, Stuck)), limit, PersistEvent(0, Late, seen));
            && AttachedTo(t, 0) && t.runs[0].status == TimedOut
            && t.tasks[t.runs[0].task.value].status == Completed
            && !Agrees(t, 0)
  {
    SweeperBeatsWorker(u, 0, Late, seen);
  }

  /** Agreement is not an invariant: a worker that finishes after the sweeper leaves
      a timed-out run with a completed task. */
  lemma LateWorkerDisagrees() returns (es: seq<Event>)
    ensures var t := After(EmptyStore, 3, es);
            && AttachedTo(t, 0) && t.runs[0].status == TimedOut
            && t.tasks[t.runs[0].task.value].status == Completed
            && !Agrees(t, 0)
  {
    var busy := BusyHistory();
    var u := After(EmptyStore, 3, busy);
    AttachmentsInEveryState(EmptyStore, 3, busy);
    EveryReachableState(EmptyStore, 3, busy);
    assert RunShape(u, 0);
    var seen := ReadingOf(u, u.runs[0].child);
    SweptThenPersisted(u, 3, seen);
    TwoMore(EmptyStore, 3, busy, FinalizeEvent(0, Stuck), PersistEvent(0, Late, seen));
    es := busy + [FinalizeEvent(0, Stuck)] + [PersistEvent(0, Late, seen)];
  }

  // ------------------------------------------------------ the late stamp, the audit

  const Success := Verdict(Completed, "done", "{}", None, None, None, "done")

  /** A finished run and a stamp that comes after it. */
  lemma StampedAfterwards(s: Store, limit: int)
    requires |s.runs| == 1 && s.runs[0].status == Running && s.runs[0].cancelRequestedAt.None?
    requires FinalizeCheck(s, 0).Ok?
    ensures var t := Step(Step(s, limit, FinalizeEvent(0, Success)), limit, RequestCancelEvent(0));
            && |t.runs| == 1 && t.runs[0].status == Completed && t.runs[0].cancelRequestedAt.Some?
            && !CancelHonoured(t)
  {
    var t := Step(Step(s, limit, FinalizeEvent(0, Success)), limit, RequestCancelEvent(0));
    assert !Honoured(t.runs[0]);
  }

  /** Respect for requests is not an invariant: a cancel that read the run running and
      writes after the worker has finished leaves a completed run with a request. */
  lemma LateStampIsRecorded() returns (es: seq<Event>)
    ensures var t := After(EmptyStore, 3, es);
            && |t.runs| == 1 && t.runs[0].status == Completed && t.runs[0].cancelRequestedAt.Some?
            && !CancelHonoured(t)
  {
    var claimed := ClaimedHistory();
    StampedAfterwards(After(EmptyStore, 3, claimed), 3);
    TwoMore(EmptyStore, 3, claimed, FinalizeEvent(0, Success), RequestCancelEvent(0));
    es := claimed + [FinalizeEvent(0, Success)] + [RequestCancelEvent(0)];
  }

  /** The terminal audit event announces the verdict it was handed; it differs from
      the run exactly when a recorded cancellation overrode that verdict. */
  lemma AuditMatchesUnlessOverridden(s: Store, r: nat, v: Verdict)
    requires FinalizeCheck(s, r).Ok? && !Terminal(s.runs[r].status)
    ensures var t := Finalize(s, r, v);
            && |t.audit| == |s.audit| + 1 && t.audit[|s.audit|].run == r
            && (t.audit[|s.audit|].announced == t.runs[r].status <==>
                  !(s.runs[r].cancelRequestedAt.Some? && v.status in {Completed, Failed}))
  {}

  lemma OverriddenVerdict(s: Store, limit: int)
    requires |s.runs| == 1 && s.runs[0].status == Running && FinalizeCheck(s, 0).Ok?
    ensures var t := Step(Step(s, limit, RequestCancelEvent(0)), limit, FinalizeEvent(0, Success));
            && |t.runs| == 1 && t.runs[0].status == Cancelled
            && |t.audit| > 0 && t.audit[|t.audit|-1] == TerminalEvent(0, Completed)
  {}

  /** A history whose audit says that a cancelled run completed. */
  lemma AuditDisagrees() returns (es: seq<Event>)
    ensures var t := After(EmptyStore, 3, es);
            && |t.runs| == 1 && t.runs[0].status == Cancelled
            && |t.audit| > 0 && t.audit[|t.audit|-1] == TerminalEvent(0, Completed)
  {
    var claimed := ClaimedHistory();
    OverriddenVerdict(After(EmptyStore, 3, claimed), 3);
    TwoMore(EmptyStore, 3, claimed, RequestCancelEvent(0), FinalizeEvent(0, Success));
    es := claimed + [RequestCancelEvent(0)] + [FinalizeEvent(0, Success)];
  }
}
