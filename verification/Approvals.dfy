/** Tool calls that wait for the user: requests, approvals and denials over whole runs. */
module Approvals {
  import opened Tables
  import opened ToolPolicy

  datatype CallStatus = CallAwaiting | CallDenied | CallCompleted | CallFailed

  datatype ToolCall = ToolCall(
    session: Option<nat>, message: Option<nat>, taskRun: Option<nat>, tool: string, status: CallStatus)

  datatype ApprovalStatus = Pending | Approved | Refused

  datatype Approval = Approval(call: Option<nat>, task: Option<nat>, status: ApprovalStatus)

  /** The audit events that matter: a tool was started, an approval was decided. */
  datatype Audit = Started(call: nat) | WasApproved(approval: nat) | WasDenied(approval: nat)

  /** `messages` and `sessions` are the rows that exist, `levels` the permission table. */
  datatype Desk = Desk(
    messages: set<nat>, sessions: set<nat>, levels: map<string, Level>,
    calls: seq<ToolCall>, approvals: seq<Approval>,
    tasks: seq<Status>, taskRuns: seq<Status>, audit: seq<Audit>)

  const EmptyDesk := Desk({}, {}, map[], [], [], [], [], [])

  /** How running a tool goes: its preview fails, it raises, or it returns. */
  datatype Ending = NeverStarted | Raised | Returned

  datatype Call = Call(
    session: nat, message: Option<nat>, task: nat, taskRun: nat, tool: string,
    offered: bool, override: bool, actionFails: bool)

  datatype Op =
    | Request(wanted: Call, ending: Ending)
    | Approve(approval: nat, ending: Ending)
    | DenyOp(approval: nat)
    | Persist(task: nat, taskRun: nat, status: Status)
    | NewTask
    | Environment(messages: set<nat>, sessions: set<nat>, levels: map<string, Level>)

  // -------------------------------------------------------------------- steps

  function EndStatus(ending: Ending): CallStatus {
    if ending == Returned then CallCompleted else CallFailed
  }

  /** The tool runs, unless its preview already fails. */
  function RunTool(d: Desk, c: nat, ending: Ending): Desk
    requires c < |d.calls|
  {
    d.(calls := d.calls[c := d.calls[c].(status := EndStatus(ending))],
       audit := d.audit + if ending == NeverStarted then [] else [Started(c)])
  }

  function Recorded(d: Desk, wanted: Call, status: CallStatus): Desk {
    d.(calls := d.calls + [ToolCall(Some(wanted.session), wanted.message, Some(wanted.taskRun), wanted.tool, status)])
  }

  predicate PolicyDenies(d: Desk, wanted: Call) {
    !wanted.offered || wanted.tool !in d.levels || (d.levels[wanted.tool] == Deny && !wanted.override)
  }

  predicate MustAsk(d: Desk, wanted: Call) {
    !PolicyDenies(d, wanted) && d.levels[wanted.tool] == Ask && !wanted.override
  }

  function Requested(d: Desk, wanted: Call, ending: Ending): Desk {
    if wanted.task >= |d.tasks| || wanted.taskRun >= |d.taskRuns| then d
    else if PolicyDenies(d, wanted) then Recorded(d, wanted, CallDenied)
    else if MustAsk(d, wanted) then
      if wanted.actionFails then Recorded(d, wanted, CallFailed)
      else Recorded(d, wanted, CallAwaiting).(
             approvals := d.approvals + [Approval(Some(|d.calls|), Some(wanted.task), Pending)])
    else RunTool(Recorded(d, wanted, CallFailed), |d.calls|, ending)
  }

  /** The approval's call, task and task run are all there. */
  predicate Context(d: Desk, a: nat) {
    && a < |d.approvals|
    && d.approvals[a].call.Some? && d.approvals[a].call.value < |d.calls|
    && d.approvals[a].task.Some? && d.approvals[a].task.value < |d.tasks|
    && d.calls[d.approvals[a].call.value].taskRun.Some?
    && d.calls[d.approvals[a].call.value].taskRun.value < |d.taskRuns|
  }

  predicate Decidable(d: Desk, a: nat) {
    Context(d, a) && d.approvals[a].status == Pending
  }

  /** Resuming needs the trigger message, the session and the tool's permission row. */
  predicate CanResume(d: Desk, a: nat)
    requires Context(d, a)
  {
    var call := d.calls[d.approvals[a].call.value];
    && call.message.Some? && call.message.value in d.messages
    && call.session.Some? && call.session.value in d.sessions
    && call.tool in d.levels
  }

  /** What approving writes once the approval was seen pending.  The decision is
      committed before it turns out whether the call can be resumed. */
  function ApprovalWrites(d: Desk, a: nat, ending: Ending): Desk
    requires Context(d, a)
  {
    var e := d.(approvals := d.approvals[a := d.approvals[a].(status := Approved)],
        audit := d.audit + [WasApproved(a)]);
    if CanResume(d, a) then RunTool(e, d.approvals[a].call.value, ending) else e
  }

  predicate Deniable(d: Desk, a: nat) {
    && Decidable(d, a)
    && d.calls[d.approvals[a].call.value].session.Some?
    && d.calls[d.approvals[a].call.value].session.value in d.sessions
  }

  function Denied(d: Desk, a: nat): Desk
    requires Context(d, a)
  {
    var c := d.approvals[a].call.value;
    d.(approvals := d.approvals[a := d.approvals[a].(status := Refused)],
       calls := d.calls[c := d.calls[c].(status := CallDenied)],
       tasks := d.tasks[d.approvals[a].task.value := Failed],
       taskRuns := d.taskRuns[d.calls[c].taskRun.value := Failed],
       audit := d.audit + [WasDenied(a)])
  }

  function Apply(d: Desk, op: Op): Desk {
    match op
    case Request(wanted, ending) => Requested(d, wanted, ending)
    case Approve(a, ending) => if Decidable(d, a) then ApprovalWrites(d, a, ending) else d
    case DenyOp(a) => if Deniable(d, a) then Denied(d, a) else d
    case Persist(t, r, status) =>
      if t < |d.tasks| && r < |d.taskRuns|
      then d.(tasks := d.tasks[t := status], taskRuns := d.taskRuns[r := status])
      else d
    case NewTask => d.(tasks := d.tasks + [Running], taskRuns := d.taskRuns + [Running])
    case Environment(messages, sessions, levels) => d.(messages := messages, sessions := sessions, levels := levels)
  }

  function Replay(d: Desk, ops: seq<Op>): Desk
    decreases |ops|
  {
    if |ops| == 0 then d else Replay(Apply(d, ops[0]), ops[1..])
  }

  // --------------------------------------------------------------- invariants

  function Times(d: Desk, e: Audit): nat {
    multiset(d.audit)[e]
  }

  /** Every start of the call comes after the approval was given. */
  ghost predicate StartedAfter(audit: seq<Audit>, c: nat, a: nat) {
    forall p: nat | p < |audit| && audit[p] == Started(c) :: exists q: nat :: q < p && audit[q] == WasApproved(a)
  }

  /** An approval is decided once, in one way, and its call starts only after that
      decision was to approve, and then at most once. */
  ghost predicate ApprovalSound(d: Desk, a: nat)
    requires a < |d.approvals|
  {
    var x := d.approvals[a];
    && Times(d, WasApproved(a)) == (if x.status == Approved then 1 else 0)
    && Times(d, WasDenied(a)) == (if x.status == Refused then 1 else 0)
    && (x.call.Some? ==>
          && x.call.value < |d.calls|
          && StartedAfter(d.audit, x.call.value, a)
          && (x.status == Pending ==> d.calls[x.call.value].status == CallAwaiting)
          && (x.status == Refused ==> d.calls[x.call.value].status == CallDenied)
          && (x.status != Approved || d.calls[x.call.value].status == CallAwaiting ==>
              Times(d, Started(x.call.value)) == 0)
          && (x.status == Approved ==> d.calls[x.call.value].status in {CallAwaiting, CallCompleted, CallFailed}))
  }

  ghost predicate ApprovalsSound(d: Desk) {
    && (forall a: nat | a < |d.approvals| :: ApprovalSound(d, a))
    && (forall a: nat, b: nat | a < b < |d.approvals| && d.approvals[a].call.Some? ::
        d.approvals[a].call != d.approvals[b].call)
  }

  /** No call starts twice, and the audit only speaks of rows that exist. */
  ghost predicate CallsSound(d: Desk) {
    && (forall c: nat :: Times(d, Started(c)) <= if c < |d.calls| then 1 else 0)
    && (forall a: nat | a >= |d.approvals| :: Times(d, WasApproved(a)) == 0 && Times(d, WasDenied(a)) == 0)
  }

  ghost predicate Sound(d: Desk) {
    ApprovalsSound(d) && CallsSound(d)
  }

  lemma StartsStay(audit: seq<Audit>, e: Audit, c: nat, a: nat)
    requires StartedAfter(audit, c, a) && e != Started(c)
    ensures StartedAfter(audit + [e], c, a)
  {
    var longer := audit + [e];
    forall p: nat | p < |longer| && longer[p] == Started(c)
      ensures exists q: nat :: q < p && longer[q] == WasApproved(a)
    {
      assert audit[p] == Started(c);
      var q: nat :| q < p && audit[q] == WasApproved(a);
      assert longer[q] == WasApproved(a);
    }
  }

  lemma NeverStartedYet(audit: seq<Audit>, c: nat, a: nat)
    requires multiset(audit)[Started(c)] == 0
    ensures StartedAfter(audit, c, a) && forall p: nat | p < |audit| :: audit[p] != Started(c)
  {
    forall p: nat | p < |audit| ensures audit[p] != Started(c) { assert audit[p] in multiset(audit); }
  }

  lemma ApprovedIsRecorded(d: Desk, a: nat) returns (q: nat)
    requires Times(d, WasApproved(a)) > 0
    ensures q < |d.audit| && d.audit[q] == WasApproved(a)
  {
    assert WasApproved(a) in multiset(d.audit);
    q :| q < |d.audit| && d.audit[q] == WasApproved(a);
  }

  /** A call that nobody's approval covers may be recorded with any status. */
  lemma RecordedKeepsSound(d: Desk, wanted: Call, status: CallStatus)
    requires Sound(d)
    ensures Sound(Recorded(d, wanted, status))
  {
    var e := Recorded(d, wanted, status);
    forall a: nat | a < |e.approvals| ensures ApprovalSound(e, a) { assert ApprovalSound(d, a); }
  }

  /** A call that no approval covers may run. */
  lemma UncoveredMayRun(d: Desk, c: nat, ending: Ending)
    requires Sound(d) && c < |d.calls| && Times(d, Started(c)) == 0
    requires forall a: nat | a < |d.approvals| :: d.approvals[a].call != Some(c)
    ensures Sound(RunTool(d, c, ending))
  {
    var e := RunTool(d, c, ending);
    forall a: nat | a < |e.approvals| ensures ApprovalSound(e, a) {
      assert ApprovalSound(d, a);
      if ending != NeverStarted && d.approvals[a].call.Some? {
        StartsStay(d.audit, Started(c), d.approvals[a].call.value, a);
      } else {
        assert ending == NeverStarted ==> e.audit == d.audit;
      }
    }
    assert ending == NeverStarted ==> e.audit == d.audit;
  }

  lemma AskingKeepsSound(d: Desk, wanted: Call)
    requires Sound(d)
    ensures Sound(Recorded(d, wanted, CallAwaiting).(
                    approvals := d.approvals + [Approval(Some(|d.calls|), Some(wanted.task), Pending)]))
  {
    var e := Recorded(d, wanted, CallAwaiting).(
      approvals := d.approvals + [Approval(Some(|d.calls|), Some(wanted.task), Pending)]);
    NeverStartedYet(d.audit, |d.calls|, |d.approvals|);
    forall a: nat | a < |e.approvals| ensures ApprovalSound(e, a) {
      if a < |d.approvals| { assert ApprovalSound(d, a); }
    }
    forall a: nat | a < |d.approvals| && d.approvals[a].call.Some? ensures d.approvals[a].call.value < |d.calls| {
      assert ApprovalSound(d, a);
    }
  }

  lemma RequestKeepsSound(d: Desk, wanted: Call, ending: Ending)
    requires Sound(d)
    ensures Sound(Requested(d, wanted, ending))
  {
    RecordedKeepsSound(d, wanted, CallDenied);
    RecordedKeepsSound(d, wanted, CallFailed);
    AskingKeepsSound(d, wanted);
    var e := Recorded(d, wanted, CallFailed);
    forall a: nat | a < |e.approvals| ensures e.approvals[a].call != Some(|d.calls|) { assert ApprovalSound(d, a); }
    UncoveredMayRun(e, |d.calls|, ending);
  }

  /** The first write of approving: the approval itself. */
  function Granted(d: Desk, a: nat): Desk
    requires a < |d.approvals|
  {
    d.(approvals := d.approvals[a := d.approvals[a].(status := Approved)], audit := d.audit + [WasApproved(a)])
  }

  lemma GrantKeepsSound(d: Desk, a: nat)
    requires Sound(d) && Decidable(d, a)
    ensures Sound(Granted(d, a))
  {
    var e := Granted(d, a);
    forall b: nat | b < |e.approvals| ensures ApprovalSound(e, b) {
      assert ApprovalSound(d, b);
      if d.approvals[b].call.Some? { StartsStay(d.audit, WasApproved(a), d.approvals[b].call.value, b); }
    }
  }

  /** Once granted, the waiting call may run. */
  lemma GrantedMayRun(d: Desk, a: nat, ending: Ending)
    requires Sound(d) && Context(d, a) && d.approvals[a].status == Approved
    requires d.calls[d.approvals[a].call.value].status == CallAwaiting
    ensures Sound(RunTool(d, d.approvals[a].call.value, ending))
  {
    var c := d.approvals[a].call.value;
    var e := RunTool(d, c, ending);
    assert ApprovalSound(d, a);
    var q := ApprovedIsRecorded(d, a);
    assert e.audit[q] == WasApproved(a);
    assert ending == NeverStarted ==> e.audit == d.audit;
    forall b: nat | b < |e.approvals| ensures ApprovalSound(e, b) {
      assert ApprovalSound(d, b);
      if b == a {
        GrantedStarts(d, e, c, a, q);
      } else if ending != NeverStarted && d.approvals[b].call.Some? {
        StartsStay(d.audit, Started(c), d.approvals[b].call.value, b);
      }
    }
  }

  lemma GrantedStarts(d: Desk, e: Desk, c: nat, a: nat, q: nat)
    requires Times(d, Started(c)) == 0 && q < |d.audit| && d.audit[q] == WasApproved(a)
    requires e.audit == d.audit || e.audit == d.audit + [Started(c)]
    ensures StartedAfter(e.audit, c, a)
  {
    NeverStartedYet(d.audit, c, a);
    forall p: nat | p < |e.audit| && e.audit[p] == Started(c)
      ensures exists q: nat :: q < p && e.audit[q] == WasApproved(a)
    {
      assert e.audit[q] == WasApproved(a);
    }
  }

  lemma ApprovalKeepsSound(d: Desk, a: nat, ending: Ending)
    requires Sound(d) && Decidable(d, a)
    ensures Sound(ApprovalWrites(d, a, ending))
  {
    GrantKeepsSound(d, a);
    assert ApprovalSound(d, a);
    if CanResume(d, a) { GrantedMayRun(Granted(d, a), a, ending); }
  }

  lemma DenialKeepsSound(d: Desk, a: nat)
    requires Sound(d) && Decidable(d, a)
    ensures Sound(Denied(d, a))
  {
    var e := Denied(d, a);
    assert ApprovalSound(d, a);
    forall b: nat | b < |e.approvals| ensures ApprovalSound(e, b) {
      assert ApprovalSound(d, b);
      if d.approvals[b].call.Some? { StartsStay(d.audit, WasDenied(a), d.approvals[b].call.value, b); }
    }
  }

  lemma SameRowsAreSound(d: Desk, e: Desk)
    requires Sound(d) && e.calls == d.calls && e.approvals == d.approvals && e.audit == d.audit
    ensures Sound(e)
  {
    forall a: nat | a < |e.approvals| ensures ApprovalSound(e, a) { assert ApprovalSound(d, a); }
  }

  lemma ApplyKeepsSound(d: Desk, op: Op)
    requires Sound(d)
    ensures Sound(Apply(d, op))
  {
    match op
    case Request(wanted, ending) => RequestKeepsSound(d, wanted, ending);
    case Approve(a, ending) => if Decidable(d, a) { ApprovalKeepsSound(d, a, ending); }
    case DenyOp(a) => if Deniable(d, a) { DenialKeepsSound(d, a); }
    case _ => SameRowsAreSound(d, Apply(d, op));
  }

  lemma {:induction false} HistoryKeepsSound(d: Desk, ops: seq<Op>)
    requires Sound(d)
    ensures Sound(Replay(d, ops))
    decreases |ops|
  {
    if |ops| > 0 {
      ApplyKeepsSound(d, ops[0]);
      HistoryKeepsSound(Apply(d, ops[0]), ops[1..]);
    }
  }

  // ------------------------------------------------------------------- gating

  /** Over any history from an empty desk: the call an approval covers starts at most
      once, only after the approval was given, and never if it was refused; and an
      approval is decided at most once. */
  lemma AskedRunsOnlyOnceApproved(ops: seq<Op>, a: nat)
    requires a < |Replay(EmptyDesk, ops).approvals| && Replay(EmptyDesk, ops).approvals[a].call.Some?
    ensures var d := Replay(EmptyDesk, ops);
            var c := d.approvals[a].call.value;
            && Times(d, Started(c)) <= 1 && StartedAfter(d.audit, c, a)
            && (d.approvals[a].status != Approved ==> Started(c) !in d.audit)
            && Times(d, WasApproved(a)) + Times(d, WasDenied(a)) == (if d.approvals[a].status == Pending then 0 else 1)
  {
    HistoryKeepsSound(EmptyDesk, ops);
    var d := Replay(EmptyDesk, ops);
    assert ApprovalSound(d, a);
    var c := d.approvals[a].call.value;
    assert Started(c) in d.audit <==> Started(c) in multiset(d.audit);
  }

  /** A decision is final, and covers the same call for ever. */
  ghost predicate DecisionsStay(d: Desk, e: Desk) {
    && |d.approvals| <= |e.approvals| && |d.calls| <= |e.calls|
    && forall a: nat | a < |d.approvals| ::
         && e.approvals[a].call == d.approvals[a].call && e.approvals[a].task == d.approvals[a].task
         && (d.approvals[a].status != Pending ==> e.approvals[a].status == d.approvals[a].status)
  }

  lemma {:induction false} DecisionsAreFinal(d: Desk, ops: seq<Op>)
    ensures DecisionsStay(d, Replay(d, ops))
    decreases |ops|
  {
    if |ops| > 0 {
      assert DecisionsStay(d, Apply(d, ops[0]));
      DecisionsAreFinal(Apply(d, ops[0]), ops[1..]);
    }
  }

  /** Denying fails the task and its run, and the call never starts afterwards. */
  lemma DeniedNeverRuns(d: Desk, a: nat, ops: seq<Op>)
    requires Sound(d) && Deniable(d, a)
    ensures var e := Apply(d, DenyOp(a));
            var c := d.approvals[a].call.value;
            && e.tasks[d.approvals[a].task.value] == Failed && e.taskRuns[d.calls[c].taskRun.value] == Failed
            && Started(c) !in Replay(e, ops).audit
  {
    var e := Denied(d, a);
    DenialKeepsSound(d, a);
    HistoryKeepsSound(e, ops);
    DecisionsAreFinal(e, ops);
    var f := Replay(e, ops);
    assert ApprovalSound(f, a);
    var c := d.approvals[a].call.value;
    assert Started(c) in f.audit <==> Started(c) in multiset(f.audit);
  }

  /** The step writes another end over a failed task or task run. */
  predicate Overwrites(d: Desk, op: Op, t: nat, r: nat) {
    && op.Persist? && op.task < |d.tasks| && op.taskRun < |d.taskRuns|
    && (op.task == t || op.taskRun == r) && op.status != Failed
  }

  ghost predicate BothFailed(d: Desk, t: nat, r: nat) {
    t < |d.tasks| && r < |d.taskRuns| && d.tasks[t] == Failed && d.taskRuns[r] == Failed
  }

  /** A failed task and its failed run stay failed under every step except exactly a
      result that is written over one of them. */
  lemma FailureLostExactlyByOverwriting(d: Desk, op: Op, t: nat, r: nat)
    requires BothFailed(d, t, r)
    ensures BothFailed(Apply(d, op), t, r) <==> !Overwrites(d, op, t, r)
  {}

  ghost predicate NeverOverwritten(d: Desk, ops: seq<Op>, t: nat, r: nat)
    decreases |ops|
  {
    |ops| == 0 || (!Overwrites(d, ops[0], t, r) && NeverOverwritten(Apply(d, ops[0]), ops[1..], t, r))
  }

  ghost predicate FailedThroughout(d: Desk, ops: seq<Op>, t: nat, r: nat)
    decreases |ops|
  {
    BothFailed(d, t, r) && (|ops| == 0 || FailedThroughout(Apply(d, ops[0]), ops[1..], t, r))
  }

  lemma {:induction false} FailedUnlessOverwritten(d: Desk, ops: seq<Op>, t: nat, r: nat)
    requires BothFailed(d, t, r)
    ensures FailedThroughout(d, ops, t, r) <==> NeverOverwritten(d, ops, t, r)
    ensures FailedThroughout(d, ops, t, r) ==> BothFailed(Replay(d, ops), t, r)
    decreases |ops|
  {
    if |ops| > 0 {
      FailureLostExactlyByOverwriting(d, ops[0], t, r);
      if !Overwrites(d, ops[0], t, r) { FailedUnlessOverwritten(Apply(d, ops[0]), ops[1..], t, r); }
    }
  }

  /** The task of a denied call and its run are failed at every later moment exactly
      when no other result is written over one of them. */
  lemma DeniedEndsFailedExactly(d: Desk, a: nat, ops: seq<Op>)
    requires Deniable(d, a)
    ensures var e := Apply(d, DenyOp(a));
            var t, r := d.approvals[a].task.value, d.calls[d.approvals[a].call.value].taskRun.value;
            && (FailedThroughout(e, ops, t, r) <==> NeverOverwritten(e, ops, t, r))
            && (NeverOverwritten(e, ops, t, r) ==> BothFailed(Replay(e, ops), t, r))
  {
    FailedUnlessOverwritten(Denied(d, a), ops, d.approvals[a].task.value,
                            d.calls[d.approvals[a].call.value].taskRun.value);
  }

  lemma ThreeSteps(d: Desk, a: Op, b: Op, c: Op)
    ensures Replay(d, [a, b, c]) == Apply(Apply(Apply(d, a), b), c)
  {
    ReplayCons(d, a, [b, c]);
    assert [a] + [b, c] == [a, b, c];
    ReplayCons(Apply(d, a), b, [c]);
    assert [b] + [c] == [b, c];
    ReplayCons(Apply(Apply(d, a), b), c, []);
    assert [c] + [] == [c];
  }

  lemma ReplayCons(d: Desk, op: Op, ops: seq<Op>)
    ensures Replay(d, [op] + ops) == Replay(Apply(d, op), ops)
  {
    assert ([op] + ops)[1..] == ops;
  }

  lemma {:induction false} ReplayConcat(d: Desk, a: seq<Op>, b: seq<Op>)
    ensures Replay(d, a + b) == Replay(Replay(d, a), b)
    decreases |a|
  {
    if |a| == 0 {
      assert a + b == b;
    } else {
      assert (a + b)[1..] == a[1..] + b;
      ReplayConcat(Apply(d, a[0]), a[1..], b);
    }
  }

  /** A call for a tool that must ask; `message` is what triggered it, if anything. */
  function AskingCall(message: Option<nat>): Call {
    Call(0, message, 0, 0, "shell", true, false, false)
  }

  const AskingDesk := Environment({0}, {0}, map["shell" := Ask])

  /** The same task may wait for two calls: deny one, approve the other, and the result
      of the resumed task replaces the failure. */
  lemma DenialOverwritten() returns (ops: seq<Op>, before: seq<Op>)
    ensures var d := Replay(EmptyDesk, before);
            && Deniable(d, 0) && d.approvals[0].task == Some(0)
            && ops == before + [DenyOp(0), Approve(1, Returned), Persist(0, 0, Completed)]
            && BothFailed(Apply(d, DenyOp(0)), 0, 0)
            && Replay(EmptyDesk, ops).tasks == [Completed]
  {
    var call := Request(AskingCall(Some(0)), Returned);
    before := [NewTask, AskingDesk, call] + [call];
    ThreeSteps(EmptyDesk, NewTask, AskingDesk, call);
    ReplayConcat(EmptyDesk, [NewTask, AskingDesk, call], [call]);
    var d := Apply(Replay(EmptyDesk, [NewTask, AskingDesk, call]), call);
    ReplayCons(Replay(EmptyDesk, [NewTask, AskingDesk, call]), call, []);
    assert [call] + [] == [call];
    assert Replay(EmptyDesk, before) == d;
    ops := before + [DenyOp(0), Approve(1, Returned), Persist(0, 0, Completed)];
    ReplayConcat(EmptyDesk, before, [DenyOp(0), Approve(1, Returned), Persist(0, 0, Completed)]);
    ThreeSteps(d, DenyOp(0), Approve(1, Returned), Persist(0, 0, Completed));
  }

  /** A call waits exactly while its approval is pending. */
  ghost predicate Agreed(d: Desk) {
    forall a: nat | a < |d.approvals| && d.approvals[a].call.Some? && d.approvals[a].call.value < |d.calls| ::
      d.calls[d.approvals[a].call.value].status == CallAwaiting <==> d.approvals[a].status == Pending
  }

  /** Every step keeps that, except approving a call that cannot be resumed: the
      approval is then given for good while its call goes on waiting. */
  lemma AgreementLostExactlyByLostContext(d: Desk, op: Op)
    requires Sound(d) && Agreed(d)
    ensures Agreed(Apply(d, op)) <==> !(op.Approve? && Decidable(d, op.approval) && !CanResume(d, op.approval))
  {
    match op
    case Request(wanted, ending) => RequestKeepsAgreed(d, wanted, ending);
    case Approve(a, ending) => if Decidable(d, a) { ApprovalKeepsAgreedExactly(d, a, ending); }
    case DenyOp(a) => if Deniable(d, a) { DenialKeepsAgreed(d, a); }
    case _ =>
  }

  lemma RequestKeepsAgreed(d: Desk, wanted: Call, ending: Ending)
    requires Sound(d) && Agreed(d)
    ensures Agreed(Requested(d, wanted, ending))
  {
    var e := Requested(d, wanted, ending);
    forall a: nat | a < |d.approvals| && d.approvals[a].call.Some?
      ensures d.approvals[a].call.value < |d.calls|
          && e.calls[d.approvals[a].call.value] == d.calls[d.approvals[a].call.value]
    {
      assert ApprovalSound(d, a);
    }
  }

  lemma ApprovalKeepsAgreedExactly(d: Desk, a: nat, ending: Ending)
    requires Sound(d) && Agreed(d) && Decidable(d, a)
    ensures Agreed(ApprovalWrites(d, a, ending)) <==> CanResume(d, a)
  {
    var e := ApprovalWrites(d, a, ending);
    var c := d.approvals[a].call.value;
    assert ApprovalSound(d, a);
    if !CanResume(d, a) {
      assert e.calls[c].status == CallAwaiting && e.approvals[a].status == Approved;
    } else {
      forall b: nat | b < |e.approvals| && e.approvals[b].call.Some? && e.approvals[b].call.value < |e.calls|
        ensures e.calls[e.approvals[b].call.value].status == CallAwaiting <==> e.approvals[b].status == Pending
      {
        assert b != a ==> e.approvals[b] == d.approvals[b] && e.approvals[b].call != d.approvals[a].call;
      }
    }
  }

  lemma DenialKeepsAgreed(d: Desk, a: nat)
    requires Sound(d) && Agreed(d) && Decidable(d, a)
    ensures Agreed(Denied(d, a))
  {
    var e := Denied(d, a);
    forall b: nat | b < |e.approvals| && e.approvals[b].call.Some? && e.approvals[b].call.value < |e.calls|
      ensures e.calls[e.approvals[b].call.value].status == CallAwaiting <==> e.approvals[b].status == Pending
    {
      assert b != a ==> e.approvals[b] == d.approvals[b] && e.approvals[b].call != d.approvals[a].call;
    }
  }

  /** A call that no message triggered, as those of a delegated run, is left waiting by
      its own approval. */
  lemma UntriggeredCallIsLeftWaiting() returns (ops: seq<Op>)
    ensures var d := Replay(EmptyDesk, ops);
            && |d.approvals| == 1 && d.approvals[0] == Approval(Some(0), Some(0), Approved)
            && |d.calls| == 1 && d.calls[0].status == CallAwaiting && !Agreed(d)
  {
    var call := Request(AskingCall(None), Returned);
    var approve := Approve(0, Returned);
    ops := [NewTask, AskingDesk, call] + [approve];
    ThreeSteps(EmptyDesk, NewTask, AskingDesk, call);
    ReplayConcat(EmptyDesk, [NewTask, AskingDesk, call], [approve]);
    var d := Apply(Replay(EmptyDesk, [NewTask, AskingDesk, call]), approve);
    ReplayCons(Replay(EmptyDesk, [NewTask, AskingDesk, call]), approve, []);
    assert [approve] + [] == [approve];
    assert Replay(EmptyDesk, ops) == d;
    assert d.approvals[0].call == Some(0);
  }

  lemma StuckStep(d: Desk, op: Op, a: nat)
    requires Sound(d) && a < |d.approvals| && d.approvals[a].call.Some? && d.approvals[a].call.value < |d.calls|
    requires d.approvals[a].status == Approved && d.calls[d.approvals[a].call.value].status == CallAwaiting
    ensures var e := Apply(d, op);
            && a < |e.approvals| && e.approvals[a] == d.approvals[a] && d.approvals[a].call.value < |e.calls|
            && e.calls[d.approvals[a].call.value].status == CallAwaiting
  {
    if op.Approve? && Decidable(d, op.approval) {
      assert d.approvals[op.approval].call != d.approvals[a].call;
    } else if op.DenyOp? && Deniable(d, op.approval) {
      assert d.approvals[op.approval].call != d.approvals[a].call;
    }
  }

  /** A call left waiting after its approval was given waits for ever: nothing can
      approve or deny it again. */
  lemma {:induction false} StuckForEver(d: Desk, ops: seq<Op>, a: nat)
    requires Sound(d) && a < |d.approvals| && d.approvals[a].call.Some? && d.approvals[a].call.value < |d.calls|
    requires d.approvals[a].status == Approved && d.calls[d.approvals[a].call.value].status == CallAwaiting
    ensures d.approvals[a].call.value < |Replay(d, ops).calls|
    ensures Replay(d, ops).calls[d.approvals[a].call.value].status == CallAwaiting
    decreases |ops|
  {
    if |ops| > 0 {
      StuckStep(d, ops[0], a);
      ApplyKeepsSound(d, ops[0]);
      StuckForEver(Apply(d, ops[0]), ops[1..], a);
    }
  }

  // ------------------------------------------------------------------- racing

  /** The check and the writes of approving are separate.  Writes made on a stale check
      keep the gate exactly when the approval is in fact still pending. */
  lemma StaleCheckBreaksTheGateExactly(d: Desk, a: nat, ending: Ending)
    requires Sound(d) && Context(d, a)
    ensures Sound(ApprovalWrites(d, a, ending)) <==> d.approvals[a].status == Pending
  {
    if d.approvals[a].status == Pending {
      ApprovalKeepsSound(d, a, ending);
    } else {
      var e := ApprovalWrites(d, a, ending);
      assert ApprovalSound(d, a);
      assert Times(e, WasApproved(a)) + Times(e, WasDenied(a)) == 2;
      assert !ApprovalSound(e, a);
    }
  }

  /** What can happen on the desk when the check of a decision may be older than its
      writes: a whole operation, or the writes of a decision that was seen pending. */
  datatype Deed = Whole(op: Op) | LateApproval(approval: nat, ending: Ending) | LateDenial(approval: nat)

  function Do(d: Desk, deed: Deed): Desk {
    match deed
    case Whole(op) => Apply(d, op)
    case LateApproval(a, ending) => if Context(d, a) then ApprovalWrites(d, a, ending) else d
    case LateDenial(a) => if Context(d, a) then Denied(d, a) else d
  }

  function DoAll(d: Desk, deeds: seq<Deed>): Desk
    decreases |deeds|
  {
    if |deeds| == 0 then d else DoAll(Do(d, deeds[0]), deeds[1..])
  }

  /** The approval has been decided since its check. */
  predicate TooLate(d: Desk, deed: Deed) {
    !deed.Whole? && Context(d, deed.approval) && d.approvals[deed.approval].status != Pending
  }

  /** An approval that was decided twice. */
  ghost predicate DecidedTwice(d: Desk, a: nat) {
    a < |d.approvals| && Times(d, WasApproved(a)) + Times(d, WasDenied(a)) > 1
  }

  lemma DeedBreaksTheGateExactly(d: Desk, deed: Deed)
    requires Sound(d)
    ensures Sound(Do(d, deed)) <==> !TooLate(d, deed)
    ensures TooLate(d, deed) ==> DecidedTwice(Do(d, deed), deed.approval)
  {
    match deed
    case Whole(op) => ApplyKeepsSound(d, op);
    case LateApproval(a, ending) =>
      if Context(d, a) {
        StaleCheckBreaksTheGateExactly(d, a, ending);
        assert ApprovalSound(d, a);
      }
    case LateDenial(a) =>
      if Context(d, a) {
        assert ApprovalSound(d, a);
        if d.approvals[a].status == Pending {
          DenialKeepsSound(d, a);
        } else {
          assert !ApprovalSound(Denied(d, a), a);
        }
      }
  }

  /** What was decided twice stays so: the audit only grows. */
  lemma DeedKeepsDecidedTwice(d: Desk, deed: Deed, a: nat)
    requires DecidedTwice(d, a)
    ensures DecidedTwice(Do(d, deed), a)
  {
    var e := Do(d, deed);
    assert e.audit == d.audit + e.audit[|d.audit|..];
  }

  lemma {:induction false} DecidedTwiceForEver(d: Desk, deeds: seq<Deed>, a: nat)
    requires DecidedTwice(d, a)
    ensures !Sound(DoAll(d, deeds))
    decreases |deeds|
  {
    if |deeds| > 0 {
      DeedKeepsDecidedTwice(d, deeds[0], a);
      DecidedTwiceForEver(Do(d, deeds[0]), deeds[1..], a);
    } else {
      assert !ApprovalSound(d, a);
    }
  }

  ghost predicate NoneTooLate(d: Desk, deeds: seq<Deed>)
    decreases |deeds|
  {
    |deeds| == 0 || (!TooLate(d, deeds[0]) && NoneTooLate(Do(d, deeds[0]), deeds[1..]))
  }

  /** Over whole histories: the gate holds at the end exactly if every decision still met
      its approval pending when it was written. */
  lemma {:induction false} GateHoldsExactly(d: Desk, deeds: seq<Deed>)
    requires Sound(d)
    ensures Sound(DoAll(d, deeds)) <==> NoneTooLate(d, deeds)
    decreases |deeds|
  {
    if |deeds| > 0 {
      DeedBreaksTheGateExactly(d, deeds[0]);
      if TooLate(d, deeds[0]) {
        DecidedTwiceForEver(Do(d, deeds[0]), deeds[1..], deeds[0].approval);
      } else {
        GateHoldsExactly(Do(d, deeds[0]), deeds[1..]);
      }
    }
  }

  /** Two approvals of one call that both saw it pending run its tool twice. */
  lemma RacingApprovalsRunTwice(d: Desk, a: nat)
    requires Sound(d) && Decidable(d, a) && CanResume(d, a)
    ensures var once := ApprovalWrites(d, a, Returned);
            Context(once, a) && Times(ApprovalWrites(once, a, Returned), Started(d.approvals[a].call.value)) == 2
  {
    assert ApprovalSound(d, a);
  }

  /** A level lowered to deny after the request does not stop an approved call. */
  lemma ApprovedRunsDespiteDeny(d: Desk, a: nat)
    requires Sound(d) && Decidable(d, a) && CanResume(d, a)
    ensures var c := d.approvals[a].call.value;
            var lowered := d.(levels := d.levels[d.calls[c].tool := Deny]);
            Apply(lowered, Approve(a, Returned)).calls[c].status == CallCompleted
  {}
}
