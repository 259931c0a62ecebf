/** What a tool's level does: which calls may start at once, which have to ask, and which
    never start, over whole histories of the desk. */
module ToolGate {
  import opened Tables
  import opened ToolPolicy
  import opened Approvals

  /** Approvals and denials aside, one request in the fields of the call and of the levels:
      denied without a start, asked without a start, or started, by the stored level. */
  lemma LevelDecides(d: Desk, wanted: Call, ending: Ending)
    requires wanted.task < |d.tasks| && wanted.taskRun < |d.taskRuns|
    ensures var e := Apply(d, Request(wanted, ending));
            var c := |d.calls|;
            var stored := wanted.tool in d.levels;
            && |e.calls| == c + 1 && e.calls[..c] == d.calls && e.tasks == d.tasks && e.taskRuns == d.taskRuns
            && e.calls[c].tool == wanted.tool && e.calls[c].session == Some(wanted.session)
            && e.calls[c].message == wanted.message && e.calls[c].taskRun == Some(wanted.taskRun)
            && (!wanted.offered || !stored ==>
                  e.calls[c].status == CallDenied && e.audit == d.audit && e.approvals == d.approvals)
            && (stored && d.levels[wanted.tool] == Deny && !wanted.override ==>
                  e.calls[c].status == CallDenied && e.audit == d.audit && e.approvals == d.approvals)
            && (wanted.offered && stored && d.levels[wanted.tool] == Ask && !wanted.override ==>
                  && e.audit == d.audit
                  && (wanted.actionFails ==> e.calls[c].status == CallFailed && e.approvals == d.approvals)
                  && (!wanted.actionFails ==>
                        && e.calls[c].status == CallAwaiting
                        && e.approvals == d.approvals + [Approval(Some(c), Some(wanted.task), Pending)]))
            && (wanted.offered && stored && (d.levels[wanted.tool] == Allow || wanted.override) ==>
                  && e.approvals == d.approvals
                  && (ending == NeverStarted ==> e.audit == d.audit && e.calls[c].status == CallFailed)
                  && (ending == Raised ==> e.audit == d.audit + [Started(c)] && e.calls[c].status == CallFailed)
                  && (ending == Returned ==> e.audit == d.audit + [Started(c)] && e.calls[c].status == CallCompleted))
  {}

  /** An approval in the fields of its rows: it needs the trigger message, the session and
      a stored level, and without one of them only the decision is written. */
  lemma ApprovalNeedsItsContext(d: Desk, a: nat, ending: Ending)
    requires Context(d, a) && d.approvals[a].status == Pending
    ensures var e := Apply(d, Approve(a, ending));
            var c := d.approvals[a].call.value;
            var call := d.calls[c];
            && |e.approvals| == |d.approvals| && e.approvals[a] == d.approvals[a].(status := Approved)
            && |e.calls| == |d.calls| && e.tasks == d.tasks && e.taskRuns == d.taskRuns
            && (call.message.Some? && call.message.value in d.messages && call.session.Some?
                && call.session.value in d.sessions && call.tool in d.levels ==>
                  && (ending == NeverStarted ==>
                        e.audit == d.audit + [WasApproved(a)] && e.calls[c].status == CallFailed)
                  && (ending == Raised ==>
                        e.audit == d.audit + [WasApproved(a), Started(c)] && e.calls[c].status == CallFailed)
                  && (ending == Returned ==>
                        e.audit == d.audit + [WasApproved(a), Started(c)] && e.calls[c].status == CallCompleted))
            && (call.message.None? || call.message.value !in d.messages || call.session.None?
                || call.session.value !in d.sessions || call.tool !in d.levels ==>
                  e.calls == d.calls && e.audit == d.audit + [WasApproved(a)])
  {
    assert d.audit + [WasApproved(a)] + [Started(d.approvals[a].call.value)] ==
        d.audit + [WasApproved(a), Started(d.approvals[a].call.value)];
  }

  // ------------------------------------------------------------------ histories

  /** How a call was asked for, and what level its tool had then. */
  datatype Asked = Asked(wanted: Call, level: Option<Level>)

  /** The request that the step records, if it records one. */
  function AskedBy(d: Desk, op: Op): seq<Asked> {
    if op.Request? && op.wanted.task < |d.tasks| && op.wanted.taskRun < |d.taskRuns|
    then [Asked(op.wanted, if op.wanted.tool in d.levels then Some(d.levels[op.wanted.tool]) else None)]
    else []
  }

  /** The requests of a history in the order of their calls. */
  function AskedIn(d: Desk, ops: seq<Op>): seq<Asked>
    decreases |ops|
  {
    if |ops| == 0 then [] else AskedBy(d, ops[0]) + AskedIn(Apply(d, ops[0]), ops[1..])
  }

  /** Its tool was allowed, or an override stood in for the level. */
  predicate MayStart(a: Asked) {
    a.wanted.offered && a.level.Some? && (a.level == Some(Allow) || a.wanted.override)
  }

  predicate MayAsk(a: Asked) {
    a.wanted.offered && a.level == Some(Ask) && !a.wanted.override
  }

  predicate RefusedByLevel(a: Asked) {
    !a.wanted.offered || a.level.None? || (a.level == Some(Deny) && !a.wanted.override)
  }

  lemma OneOfThree(a: Asked)
    ensures RefusedByLevel(a) <==> !MayStart(a) && !MayAsk(a)
    ensures !(MayStart(a) && MayAsk(a))
  {
    if a.level.Some? {
      match a.level.value
      case Deny =>
      case Ask =>
      case Allow =>
    }
  }

  /** Some approval of the call has been given. */
  ghost predicate CoveredAndApproved(d: Desk, c: nat) {
    exists a: nat :: a < |d.approvals| && d.approvals[a].call == Some(c) && d.approvals[a].status == Approved
  }

  /** One call of the desk against the request it came from. */
  ghost predicate CallLicensed(d: Desk, log: seq<Asked>, c: nat)
    requires c < |d.calls| && c < |log|
  {
    && d.calls[c].tool == log[c].wanted.tool
    && (Started(c) in d.audit ==> MayStart(log[c]) || (MayAsk(log[c]) && CoveredAndApproved(d, c)))
    && (RefusedByLevel(log[c]) ==> d.calls[c].status == CallDenied)
    && (MayStart(log[c]) ==> d.calls[c].status in {CallCompleted, CallFailed})
  }

  ghost predicate Licensed(d: Desk, log: seq<Asked>) {
    && |log| == |d.calls|
    && (forall c: nat | c < |d.calls| :: CallLicensed(d, log, c))
    && (forall c: nat | Started(c) in d.audit :: c < |d.calls|)
    && (forall a: nat | a < |d.approvals| && d.approvals[a].call.Some? ::
          d.approvals[a].call.value < |log| && MayAsk(log[d.approvals[a].call.value]))
  }

  lemma RequestKeepsLicensed(d: Desk, wanted: Call, ending: Ending, log: seq<Asked>)
    requires Licensed(d, log) && wanted.task < |d.tasks| && wanted.taskRun < |d.taskRuns|
    ensures Licensed(Requested(d, wanted, ending), log + AskedBy(d, Request(wanted, ending)))
  {
    var e := Requested(d, wanted, ending);
    var longer := log + AskedBy(d, Request(wanted, ending));
    LevelDecides(d, wanted, ending);
    forall c: nat | c < |e.calls| ensures CallLicensed(e, longer, c) {
      if c < |d.calls| {
        assert CallLicensed(d, log, c) && e.calls[c] == e.calls[..|d.calls|][c];
        StaysCovered(d, e, c);
      }
    }
  }

  lemma StaysCovered(d: Desk, e: Desk, c: nat)
    requires |d.approvals| <= |e.approvals|
    requires forall a: nat | a < |d.approvals| ::
               e.approvals[a] == d.approvals[a]
               || (e.approvals[a].call == d.approvals[a].call && d.approvals[a].status != Approved)
    ensures CoveredAndApproved(d, c) ==> CoveredAndApproved(e, c)
  {
    if CoveredAndApproved(d, c) {
      var a: nat :| a < |d.approvals| && d.approvals[a].call == Some(c) && d.approvals[a].status == Approved;
      assert e.approvals[a].call == Some(c) && e.approvals[a].status == Approved;
    }
  }

  lemma ApprovalKeepsLicensed(d: Desk, a: nat, ending: Ending, log: seq<Asked>)
    requires Licensed(d, log) && Decidable(d, a)
    ensures Licensed(ApprovalWrites(d, a, ending), log)
  {
    var e := ApprovalWrites(d, a, ending);
    var k := d.approvals[a].call.value;
    assert e.approvals[a].call == Some(k) && e.approvals[a].status == Approved;
    OneOfThree(log[k]);
    forall c: nat | c < |e.calls| ensures CallLicensed(e, log, c) {
      assert CallLicensed(d, log, c);
      StaysCovered(d, e, c);
      assert c != k ==> e.calls[c] == d.calls[c] && (Started(c) in e.audit ==> Started(c) in d.audit);
    }
  }

  lemma DenialKeepsLicensed(d: Desk, a: nat, log: seq<Asked>)
    requires Licensed(d, log) && Decidable(d, a)
    ensures Licensed(Denied(d, a), log)
  {
    var e := Denied(d, a);
    OneOfThree(log[d.approvals[a].call.value]);
    forall c: nat | c < |e.calls| ensures CallLicensed(e, log, c) {
      assert CallLicensed(d, log, c);
      StaysCovered(d, e, c);
    }
  }

  lemma ApplyKeepsLicensed(d: Desk, op: Op, log: seq<Asked>)
    requires Licensed(d, log)
    ensures Licensed(Apply(d, op), log + AskedBy(d, op))
  {
    assert log + [] == log;
    match op
    case Request(wanted, ending) =>
      if wanted.task < |d.tasks| && wanted.taskRun < |d.taskRuns| { RequestKeepsLicensed(d, wanted, ending, log); }
    case Approve(a, ending) => if Decidable(d, a) { ApprovalKeepsLicensed(d, a, ending, log); }
    case DenyOp(a) => if Deniable(d, a) { DenialKeepsLicensed(d, a, log); }
    case _ =>
      forall c: nat | c < |d.calls| ensures CallLicensed(Apply(d, op), log, c) {
        assert CallLicensed(d, log, c);
        StaysCovered(d, Apply(d, op), c);
      }
  }

  lemma {:induction false} HistoryKeepsLicensed(d: Desk, ops: seq<Op>, log: seq<Asked>)
    requires Licensed(d, log)
    ensures Licensed(Replay(d, ops), log + AskedIn(d, ops))
    decreases |ops|
  {
    if |ops| == 0 {
      assert log + [] == log;
    } else {
      ApplyKeepsLicensed(d, ops[0], log);
      HistoryKeepsLicensed(Apply(d, ops[0]), ops[1..], log + AskedBy(d, ops[0]));
      assert log + AskedIn(d, ops) == log + AskedBy(d, ops[0]) + AskedIn(Apply(d, ops[0]), ops[1..]);
    }
  }

  /** From the empty desk: every start belongs to a call that was offered and whose tool
      was then allowed or overridden, or had to ask and whose approval has been given. */
  lemma StartsAreLicensed(ops: seq<Op>, c: nat)
    requires Started(c) in Replay(EmptyDesk, ops).audit
    ensures var d := Replay(EmptyDesk, ops);
            var log := AskedIn(EmptyDesk, ops);
            && c < |log| == |d.calls| && log[c].wanted.offered && d.calls[c].tool == log[c].wanted.tool
            && log[c].level.Some?
            && (log[c].level == Some(Allow) || log[c].wanted.override
                || (log[c].level == Some(Ask) && CoveredAndApproved(d, c)))
  {
    HistoryKeepsLicensed(EmptyDesk, ops, []);
    assert [] + AskedIn(EmptyDesk, ops) == AskedIn(EmptyDesk, ops);
    assert CallLicensed(Replay(EmptyDesk, ops), AskedIn(EmptyDesk, ops), c);
  }

  /** And a call that was not offered, or whose tool had no level or was denied without an
      override, is denied for ever and never starts. */
  lemma RefusedNeverStarts(ops: seq<Op>, c: nat)
    requires c < |AskedIn(EmptyDesk, ops)|
    requires var a := AskedIn(EmptyDesk, ops)[c];
             !a.wanted.offered || a.level.None? || (a.level == Some(Deny) && !a.wanted.override)
    ensures var d := Replay(EmptyDesk, ops);
            && c < |d.calls| && d.calls[c].status == CallDenied && Started(c) !in d.audit
            && forall a: nat | a < |d.approvals| :: d.approvals[a].call != Some(c)
  {
    HistoryKeepsLicensed(EmptyDesk, ops, []);
    assert [] + AskedIn(EmptyDesk, ops) == AskedIn(EmptyDesk, ops);
    OneOfThree(AskedIn(EmptyDesk, ops)[c]);
    assert CallLicensed(Replay(EmptyDesk, ops), AskedIn(EmptyDesk, ops), c);
  }
}
