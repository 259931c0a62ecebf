/** The tool and approval services on their tables, proved against `Approvals`. */
module ApprovalService {
  import opened Tables
  import opened ToolPolicy
  import opened Approvals

  /** What the caller of a tool gets back. */
  datatype Outcome =
    | ToolDenied(call: nat)
    | NeedsApproval(call: nat, approval: nat)
    | ToolFailed(call: nat)
    | ToolReturned(call: nat)

  datatype Refusal =
    | ApprovalNotFound
    | NotPending
    | MissingContext
    | MessageMissing
    | SessionMissing
    | PermissionMissing

  datatype Decision = Resumed(call: nat, status: CallStatus) | Ended(call: nat) | NotDone(why: Refusal)

  class ToolDesk {
    var messages: set<nat>
    var sessions: set<nat>
    var levels: map<string, Level>
    var calls: seq<ToolCall>
    var approvals: seq<Approval>
    var tasks: seq<Status>
    var taskRuns: seq<Status>
    var audit: seq<Audit>

    function Contents(): Desk
      reads this
    {
      Desk(messages, sessions, levels, calls, approvals, tasks, taskRuns, audit)
    }

    ghost predicate Valid()
      reads this
    {
      Sound(Contents())
    }

    constructor ()
      ensures Valid() && Contents() == EmptyDesk
    {
      messages, sessions, levels := {}, {}, map[];
      calls, approvals, tasks, taskRuns, audit := [], [], [], [], [];
    }

    method CreateToolCall(wanted: Call, status: CallStatus) returns (c: nat)
      modifies this`calls
      ensures c == |old(calls)| && Contents() == Recorded(old(Contents()), wanted, status)
    {
      c := |calls|;
      calls := calls + [ToolCall(Some(wanted.session), wanted.message, Some(wanted.taskRun), wanted.tool, status)];
    }

    method UpdateToolCall(c: nat, status: CallStatus)
      requires c < |calls|
      modifies this`calls
      ensures calls == old(calls)[c := old(calls)[c].(status := status)]
    {
      calls := calls[c := calls[c].(status := status)];
    }

    /** Start, run, record: a failing preview or a raising tool both end as failed. */
    method ExecuteAndRecord(c: nat, ending: Ending) returns (status: CallStatus)
      requires c < |calls|
      modifies this`calls, this`audit
      ensures Contents() == RunTool(old(Contents()), c, ending)
      ensures status == if ending == Returned then CallCompleted else CallFailed
      ensures calls == old(calls)[c := old(calls)[c].(status := status)]
      ensures audit == if ending == NeverStarted then old(audit) else old(audit) + [Started(c)]
    {
      if ending == NeverStarted {
        UpdateToolCall(c, CallFailed);
        return CallFailed;
      }
      audit := audit + [Started(c)];
      status := if ending == Raised then CallFailed else CallCompleted;
      UpdateToolCall(c, status);
    }

    method ExecuteToolCall(wanted: Call, ending: Ending) returns (outcome: Outcome)
      requires Valid() && wanted.task < |tasks| && wanted.taskRun < |taskRuns|
      modifies this`calls, this`approvals, this`audit
      ensures Valid() && Contents() == Apply(old(Contents()), Request(wanted, ending))
      ensures outcome.call == |old(calls)| && |calls| == |old(calls)| + 1
      ensures outcome.ToolDenied? <==> PolicyDenies(old(Contents()), wanted)
      ensures outcome.NeedsApproval? <==> MustAsk(old(Contents()), wanted) && !wanted.actionFails
      ensures outcome.NeedsApproval? ==>
                && outcome.approval == |old(approvals)| && Decidable(Contents(), outcome.approval)
                && approvals[outcome.approval].call == Some(outcome.call)
      ensures PolicyDenies(old(Contents()), wanted) || MustAsk(old(Contents()), wanted) ==> audit == old(audit)
      ensures outcome.ToolDenied? <==>
                || !wanted.offered || wanted.tool !in levels
                || (levels[wanted.tool] == Deny && !wanted.override)
      ensures outcome.NeedsApproval? <==>
                && wanted.offered && wanted.tool in levels && levels[wanted.tool] == Ask && !wanted.override
                && !wanted.actionFails
      ensures audit == if wanted.offered && wanted.tool in levels && (levels[wanted.tool] == Allow || wanted.override)
                          && ending != NeverStarted
                       then old(audit) + [Started(outcome.call)] else old(audit)
      ensures outcome.ToolReturned? <==>
                && wanted.offered && wanted.tool in levels && (levels[wanted.tool] == Allow || wanted.override)
                && ending == Returned
    {
      RequestKeepsSound(Contents(), wanted, ending);
      if !wanted.offered {
        var c := CreateToolCall(wanted, CallDenied);
        return ToolDenied(c);
      }
      if wanted.tool !in levels || (levels[wanted.tool] == Deny && !wanted.override) {
        var c := CreateToolCall(wanted, CallDenied);
        return ToolDenied(c);
      }
      if levels[wanted.tool] == Ask && !wanted.override {
        if wanted.actionFails {
          var c := CreateToolCall(wanted, CallFailed);
          return ToolFailed(c);
        }
        var c := CreateToolCall(wanted, CallAwaiting);
        approvals := approvals + [Approval(Some(c), Some(wanted.task), Pending)];
        return NeedsApproval(c, |approvals| - 1);
      }
      var c := CreateToolCall(wanted, CallFailed);
      var status := ExecuteAndRecord(c, ending);
      return if status == CallCompleted then ToolReturned(c) else ToolFailed(c);
    }

    method RequirePending(a: nat) returns (why: Option<Refusal>)
      ensures why.None? <==> Decidable(Contents(), a)
      ensures why.Some? ==> why.value in {ApprovalNotFound, NotPending, MissingContext}
      ensures a >= |approvals| <==> why == Some(ApprovalNotFound)
      ensures a < |approvals| ==> (approvals[a].status != Pending <==> why == Some(NotPending))
    {
      if a >= |approvals| { return Some(ApprovalNotFound); }
      if approvals[a].status != Pending { return Some(NotPending); }
      if !Context(Contents(), a) { return Some(MissingContext); }
      return None;
    }

    /** The decision first, then what the resumed call needs, then the call itself. */
    method ApproveIt(a: nat, ending: Ending) returns (res: Decision)
      requires Valid()
      modifies this`calls, this`approvals, this`audit
      ensures Valid() && Contents() == Apply(old(Contents()), Approve(a, ending))
      ensures res.Resumed? <==> Decidable(old(Contents()), a) && CanResume(old(Contents()), a)
      ensures res.Resumed? <==>
                && Context(old(Contents()), a) && old(approvals)[a].status == Pending
                && var call := old(calls)[old(approvals)[a].call.value];
                   && call.message.Some? && call.message.value in messages
                   && call.session.Some? && call.session.value in sessions && call.tool in levels
      ensures res.Resumed? ==>
                && old(approvals)[a].call == Some(res.call) && res.call < |calls|
                && calls[res.call].status == res.status == (if ending == Returned then CallCompleted else CallFailed)
      ensures res.NotDone? && res.why in {ApprovalNotFound, NotPending, MissingContext} ==>
          Contents() == old(Contents())
      ensures res.NotDone? && res.why in {MessageMissing, SessionMissing, PermissionMissing} ==>
                a < |approvals| && approvals[a].status == Approved && calls == old(calls)
    {
      ghost var d := Contents();
      ApplyKeepsSound(d, Approve(a, ending));
      var refusal := RequirePending(a);
      if refusal.Some? { return NotDone(refusal.value); }
      var c := approvals[a].call.value;
      approvals := approvals[a := approvals[a].(status := Approved)];
      audit := audit + [WasApproved(a)];
      if calls[c].message.None? || calls[c].message.value !in messages { return NotDone(MessageMissing); }
      if calls[c].session.None? || calls[c].session.value !in sessions { return NotDone(SessionMissing); }
      if calls[c].tool !in levels { return NotDone(PermissionMissing); }
      var status := ExecuteAndRecord(c, ending);
      return Resumed(c, status);
    }

    method DenyIt(a: nat) returns (res: Decision)
      requires Valid()
      modifies this`calls, this`approvals, this`tasks, this`taskRuns, this`audit
      ensures Valid() && Contents() == Apply(old(Contents()), DenyOp(a))
      ensures res.Ended? <==> Deniable(old(Contents()), a)
      ensures res.Ended? <==>
                && Context(old(Contents()), a) && old(approvals)[a].status == Pending
                && old(calls)[old(approvals)[a].call.value].session.Some?
                && old(calls)[old(approvals)[a].call.value].session.value in sessions
      ensures res.Ended? ==>
                && res.call < |calls| && calls[res.call].status == CallDenied
                && approvals[a].status == Refused
                && old(approvals)[a].call == Some(res.call) && calls[res.call].taskRun.Some?
                && approvals[a].task.Some? && approvals[a].task.value < |tasks|
                && calls[res.call].taskRun.value < |taskRuns|
                && tasks[approvals[a].task.value] == Failed && taskRuns[calls[res.call].taskRun.value] == Failed
      ensures !res.Ended? ==> res.NotDone? && Contents() == old(Contents())
    {
      ApplyKeepsSound(Contents(), DenyOp(a));
      var refusal := RequirePending(a);
      if refusal.Some? { return NotDone(refusal.value); }
      var c := approvals[a].call.value;
      if calls[c].session.None? || calls[c].session.value !in sessions { return NotDone(SessionMissing); }
      approvals := approvals[a := approvals[a].(status := Refused)];
      UpdateToolCall(c, CallDenied);
      tasks := tasks[approvals[a].task.value := Failed];
      taskRuns := taskRuns[calls[c].taskRun.value := Failed];
      audit := audit + [WasDenied(a)];
      return Ended(c);
    }
  }
}
