/** The repository of subagent runs: tables updated in place, proved against the
    transactions of `Transitions`. */
module SubagentRepository {
  import opened Tables
  import opened Transitions
  import opened Protocol
  import opened Lifecycle
  import opened Agreement
  import opened MessageLog
  import opened Consistency

  class Repository {
    var sessions: seq<Session>
    var runs: seq<Run>
    var messages: seq<Message>
    var tasks: seq<Task>
    var taskRuns: seq<TaskRun>
    var audit: seq<TerminalEvent>
    var conversations: nat
    var now: int
    const maxConcurrency: int

    /** The tables as one value. */
    function Tables(): (s: Store)
      reads this
    {
      Store(sessions, runs, messages, tasks, taskRuns, audit, conversations, now)
    }

    ghost predicate Valid()
      reads this
    {
      Reachable(Tables(), maxConcurrency)
    }

    constructor (maxConcurrency: int)
      ensures Valid() && Tables() == EmptyStore && this.maxConcurrency == maxConcurrency
    {
      this.maxConcurrency := maxConcurrency;
      sessions, runs, messages, tasks, taskRuns, audit, conversations, now := [], [], [], [], [], [], 0, 0;
      new;
      NothingHappened(maxConcurrency);
    }

    /** Other actors commit some transactions of their own. */
    method Interfere(es: seq<Event>)
      modifies this
      ensures Tables() == After(old(Tables()), maxConcurrency, es)
      ensures old(Valid()) ==> Valid()
    {
      var t := After(Tables(), maxConcurrency, es);
      if Reachable(Tables(), maxConcurrency) { ReachableGoesOn(Tables(), maxConcurrency, es); }
      sessions, runs, messages, tasks := t.sessions, t.runs, t.messages, t.tasks;
      taskRuns, audit, conversations, now := t.taskRuns, t.audit, t.conversations, t.now;
    }

    // -------------------------------------------------------------- messages

    /** The number after the last message of a session. */
    method NextNumber(x: nat) returns (next: nat)
      ensures next == MaxSequence(messages, x) + 1
    {
      var latest := 0;
      var i := 0;
      while i < |messages|
        invariant i <= |messages|
        invariant latest == MaxSequence(messages[..i], x)
      {
        assert messages[..i+1][..i] == messages[..i];
        if messages[i].session == x && latest < messages[i].sequence {
          latest := messages[i].sequence;
        }
        i := i + 1;
      }
      assert messages[..i] == messages;
      next := latest + 1;
    }

    /** A message written under the lock of a transaction that began with it. */
    method CreateMessage(x: nat, role: Role, text: string, origin: Origin) returns (res: Result<nat>)
      modifies this`messages
      ensures x >= |sessions| ==> res == Err(SessionNotFound) && messages == old(messages)
      ensures x < |sessions| ==> res == Ok(|old(messages)|) && Tables() == Append(old(Tables()), x, role, text, origin)
    {
      if x >= |sessions| {
        return Err(SessionNotFound);
      }
      var next := NextNumber(x);
      res := Ok(|messages|);
      messages := messages + [Message(x, sessions[x].conversation, role, next, text, now, origin)];
    }

    /** The insert: the table refuses a number that its session already has. */
    method InsertMessage(x: nat, role: Role, text: string, seen: Reading) returns (res: Result<nat>)
      requires Valid() && x < |sessions| && seen.next >= 1
      requires seen.conversation <= sessions[x].conversation && seen.next <= MaxSequence(messages, x) + 1
      modifies this`messages, this`sessions
      ensures Valid() && Tables() == Say(old(Tables()), x, role, text, seen)
      ensures res == if Insertable(old(Tables()), x, seen) then Ok(|old(messages)|) else Err(NumberTaken)
      ensures |sessions| == |old(sessions)|
    {
      OneStep(Tables(), maxConcurrency, SayEvent(x, role, text, seen));
      ReachableIsConsistent(Tables(), maxConcurrency);
      TakenExactlyWhenOvertaken(messages, x, seen.next);
      for i := 0 to |messages|
        invariant forall j: nat | j < i :: !(messages[j].session == x && messages[j].sequence == seen.next)
      {
        if messages[i].session == x && messages[i].sequence == seen.next { return Err(NumberTaken); }
      }
      res := Ok(|messages|);
      messages := messages + [Message(x, seen.conversation, role, seen.next, text, now, Conversation)];
      TouchSession(x);
    }

    /** An ordinary message.  The session, its last number and the insert are statements
        of their own, and others commit `mid` and `late` between them: the message is
        refused exactly when one was written to the session in `late`, and otherwise goes
        to the conversation that was current at the start. */
    method PostMessage(x: nat, role: Role, text: string, mid: seq<Event>, late: seq<Event>) returns (res: Result<nat>)
      requires Valid()
      modifies this
      ensures Valid()
      ensures x >= |old(sessions)| ==> res == Err(SessionNotFound) && Tables() == old(Tables())
      ensures x < |old(sessions)| ==>
                var t := After(old(Tables()), maxConcurrency, mid);
                var u := After(t, maxConcurrency, late);
                && x < |u.sessions| && Tables() == Say(u, x, role, text, ReadAcross(old(Tables()), t, x))
                && (res.Ok? <==> LogOf(u.messages, x) == LogOf(t.messages, x))
                && (res.Ok? <==> Insertable(u, x, ReadAcross(old(Tables()), t, x)))
                && (if res.Ok? then res.value == |u.messages| else res.error == NumberTaken && Tables() == u)
    {
      if x >= |sessions| { return Err(SessionNotFound); }
      var conversation := sessions[x].conversation;
      ReadAcrossIsOvertaken(Tables(), maxConcurrency, mid, late, x);
      Interfere(mid);
      var next := NextNumber(x);
      Interfere(late);
      res := InsertMessage(x, role, text, Reading(conversation, next));
    }

    // -------------------------------------------------------------- spawning

    method CountActiveRuns(launcher: nat) returns (n: nat)
      ensures n == ActiveCount(runs, launcher)
    {
      n := 0;
      for i := 0 to |runs|
        invariant n == ActiveCount(runs[..i], launcher)
      {
        assert runs[..i+1][..i] == runs[..i];
        if runs[i].launcher == launcher && runs[i].status in {Queued, Running} {
          n := n + 1;
        }
      }
      assert runs[..|runs|] == runs;
    }

    /** Counting and inserting are one transaction. */
    method SpawnSubagent(parent: nat, timeout: int) returns (res: Result<(nat, nat)>)
      modifies this
      ensures Tables() == Spawn(old(Tables()), parent, timeout, maxConcurrency)
      ensures old(Valid()) ==> Valid()
      ensures res.Ok? <==> SpawnCheck(old(Tables()), parent, maxConcurrency).Ok?
      ensures res.Err? ==> res.error == SpawnCheck(old(Tables()), parent, maxConcurrency).error
      ensures res.Ok? ==>
                && res.value == (|old(sessions)|, |old(runs)|)
                && runs[res.value.1].launcher == parent && runs[res.value.1].child == res.value.0
                && ActiveCount(runs, parent) == ActiveCount(old(runs), parent) + 1 <= maxConcurrency
    {
      OneStep(Tables(), maxConcurrency, SpawnEvent(parent, timeout));
      if parent >= |sessions| { return Err(SessionNotFound); }
      var record := sessions[parent];
      if record.kind != Main { return Err(OnlyMainSessions); }
      if record.depth > 0 { return Err(DepthExceeded); }
      var active := CountActiveRuns(parent);
      if active >= maxConcurrency { return Err(ConcurrencyLimit); }
      var root := if record.root.Some? then record.root else Some(parent);
      var child := |sessions|;
      sessions := sessions + [
        Session(Subagent, Some(parent), root, record.depth + 1, conversations, Queued, None, Some(timeout), None, now)];
      conversations := conversations + 1;
      var run := |runs|;
      runs := runs + [Run(parent, child, Queued, now, now, None, None, None, None, None, None, None, None, None, None,
          None)];
      assert runs[..run] == old(runs);
      return Ok((child, run));
    }

    // -------------------------------------------------------------- claiming

    method SelectOldestQueued() returns (candidate: Option<nat>)
      ensures candidate == OldestQueued(runs)
    {
      candidate := None;
      for i := 0 to |runs|
        invariant candidate == OldestQueued(runs[..i])
        invariant candidate.Some? ==> candidate.value < i
      {
        assert runs[..i+1][..i] == runs[..i];
        if runs[i].status == Queued
           && (candidate.None? || runs[i].createdAt < runs[candidate.value].createdAt) {
          candidate := Some(i);
        }
      }
      assert runs[..|runs|] == runs;
    }

    /** The update that only succeeds while the candidate is still queued. */
    method ClaimIfQueued(c: nat) returns (rowCount: nat)
      requires c < |runs|
      modifies this`runs
      ensures old(runs)[c].status == Queued ==> rowCount == 1 && runs == old(runs)[c := ClaimedRun(old(runs)[c], now)]
      ensures old(runs)[c].status != Queued ==> rowCount == 0 && runs == old(runs)
    {
      if runs[c].status == Queued {
        runs := runs[c := runs[c].(status := Running, startedAt := Some(now), updatedAt := now)];
        return 1;
      }
      return 0;
    }

    /** Compare-and-set: select the oldest queued run, then take it if it is still
        queued.  `env[i]` is what other actors commit between the select and the update
        of round `i`.  Every failed round means that another actor took the candidate,
        so the rounds are bounded by the queue and what was added to it meanwhile. */
    method ClaimNextQueuedRun(env: seq<seq<Event>>) returns (claimed: Option<nat>, rounds: nat)
      requires Valid()
      modifies this
      ensures Valid()
      ensures rounds <= |env| + 1
      ensures rounds <= QueuedCount(old(runs)) + SpawnsIn(env) + 1
      ensures Tables() == if claimed.Some?
                          then Step(After(old(Tables()), maxConcurrency, Joined(env, rounds)), maxConcurrency,
                              ClaimEvent)
                          else After(old(Tables()), maxConcurrency, Joined(env, rounds))
      ensures claimed.None? ==> forall r: nat | r < |runs| :: runs[r].status != Queued
      ensures claimed.Some? ==>
                var before := After(old(Tables()), maxConcurrency, Joined(env, rounds)).runs;
                && OldestQueued(before) == claimed
                && claimed.value < |runs| == |before|
                && before[claimed.value].status == Queued && runs[claimed.value].status == Running
    {
      rounds := 0;
      while true
        invariant Valid()
        invariant rounds <= |env|
        invariant Tables() == After(old(Tables()), maxConcurrency, Joined(env, rounds))
        invariant QueuedCount(runs) + rounds <= QueuedCount(old(runs)) + SpawnsIn(env[..rounds])
        decreases |env| - rounds
      {
        var candidate := SelectOldestQueued();
        if candidate.None? {
          SpawnsInPrefix(env, rounds);
          ClaimIsOldest(runs);
          return None, rounds;
        }
        var c := candidate.value;
        var window := if rounds < |env| then env[rounds] else [];
        ClaimWindow(Tables(), maxConcurrency, window, c);
        JoinedWindow(old(Tables()), maxConcurrency, env, rounds);
        SpawnsInPrefix(env, rounds);
        Interfere(window);
        OneStep(Tables(), maxConcurrency, ClaimEvent);
        var rowCount := ClaimIfQueued(c);
        rounds := rounds + 1;
        if rowCount == 1 {
          return Some(c), rounds;
        }
      }
    }

    /** `seen` is the status of the row as its caller read it; the row itself may have
        moved on, and is stamped all the same. */
    method RequestCancellation(r: nat, seen: Status)
      requires r < |runs| && (seen == Running ==> runs[r].status != Queued)
      modifies this`runs
      ensures Tables() == if seen == Running then RequestCancel(old(Tables()), r) else old(Tables())
      ensures seen == Running ==> runs[r].cancelRequestedAt == Some(now) && runs[r].status == old(runs)[r].status
      ensures old(Valid()) ==> Valid()
    {
      OneStep(Tables(), maxConcurrency, RequestCancelEvent(r));
      if seen != Running { return; }
      runs := runs[r := runs[r].(cancelRequestedAt := Some(now), updatedAt := now)];
    }

    method AttachExecutionIds(r: nat, tr: nat)
      requires Owns(Tables(), r, tr)
      modifies this`runs
      ensures Tables() == Attach(old(Tables()), r, tr)
      ensures old(Valid()) ==> Valid()
    {
      OneStep(Tables(), maxConcurrency, AttachEvent(r, tr));
      runs := runs[r := runs[r].(task := Some(taskRuns[tr].task), taskRun := Some(tr), updatedAt := now)];
    }

    // ------------------------------------------------------------ finalizing

    method SyncTaskState(r: nat, v: Verdict)
      requires r < |runs| && Terminal(runs[r].status)
      modifies this`tasks, this`taskRuns
      ensures tasks == SyncTasks(old(tasks), runs[r], now)
      ensures taskRuns == SyncTaskRuns(old(taskRuns), runs[r], v, now)
    {
      var run := runs[r];
      if run.task.Some? && run.task.value < |tasks| {
        tasks := tasks[run.task.value := tasks[run.task.value].(status := run.status, completedAt := Some(now))];
      }
      if run.taskRun.None? || run.taskRun.value >= |taskRuns| { return; }
      var row := taskRuns[run.taskRun.value];
      row := row.(status := run.status, finishedAt := Some(now));
      if row.startedAt.Some? { row := row.(duration := Some(now - row.startedAt.value)); }
      if v.cost.Some? { row := row.(cost := v.cost); }
      if v.errorSummary.Some? && run.status in {Failed, Cancelled, TimedOut} { row := row.(error := v.errorSummary); }
      if row.output.None? && run.status in {Cancelled, TimedOut} { row := row.(output := Some(v.output)); }
      taskRuns := taskRuns[run.taskRun.value := row];
    }

    method FinalizeRun(r: nat, v: Verdict) returns (res: Result<nat>)
      requires Valid()
      modifies this
      ensures Valid()
      ensures Tables() == Finalize(old(Tables()), r, v)
      ensures res == FinalizeCheck(old(Tables()), r)
      ensures res.Ok? ==> r < |runs| && Terminal(runs[r].status)
    {
      OneStep(Tables(), maxConcurrency, FinalizeEvent(r, v));
      if r >= |runs| { return Err(RunNotFound); }
      var run := runs[r];
      if run.child >= |sessions| || run.launcher >= |sessions| { return Err(MissingLineage); }
      if Terminal(run.status) { return Ok(r); }
      var status: TerminalStatus := v.status;
      if run.cancelRequestedAt.Some? && v.status != TimedOut { status := Cancelled; }
      RecordVerdict(r, v, status);
      return Ok(r);
    }

    method RecordVerdict(r: nat, v: Verdict, status: TerminalStatus)
      requires FinalizeCheck(Tables(), r).Ok? && status == Resolve(runs[r], v.status)
      modifies this
      ensures Tables() == FinalizeOpen(old(Tables()), r, v)
    {
      var run := runs[r];
      run := run.(status := status, finishedAt := Some(now), updatedAt := now);
      run := run.(finalSummary := Some(v.summary), finalOutput := Some(v.output), cost := v.cost);
      run := run.(errorCode := v.errorCode, errorSummary := v.errorSummary);
      var child := sessions[run.child].(status := status, summary := Some(v.summary), updatedAt := now);
      sessions := sessions[run.child := child];
      var message := CreateMessage(run.launcher, Assistant, v.parentText, SummaryOf(r));
      sessions := sessions[run.launcher := sessions[run.launcher].(lastMessageAt := Some(now), updatedAt := now)];
      run := run.(summaryMessage := Some(message.value));
      assert run == FinishedRun(old(runs)[r], v, |old(messages)|, now);
      runs := runs[r := run];
      SyncTaskState(r, v);
      audit := audit + [TerminalEvent(r, v.status)];
    }

    // -------------------------------------------------------------- execution

    method PrepareExecution(r: nat) returns (tr: nat)
      requires r < |runs|
      modifies this
      ensures Tables() == Prepare(old(Tables()), r)
      ensures tr == |old(taskRuns)| && Owns(Tables(), r, tr)
      ensures old(Valid()) ==> Valid()
    {
      OneStep(Tables(), maxConcurrency, PrepareEvent(r));
      var task := |tasks|;
      tasks := tasks + [Task(runs[r].child, OtherTask, Running, None)];
      tr := |taskRuns|;
      taskRuns := taskRuns + [TaskRun(task, Running, now, Some(now), None, None, None, None, None)];
    }

    method TouchSession(x: nat)
      requires x < |sessions|
      modifies this`sessions
      ensures Tables() == Touch(old(Tables()), x)
    {
      sessions := sessions[x := sessions[x].(lastMessageAt := Some(now), updatedAt := now)];
    }

    /** The executor's own transaction: its message, if it has one, as any ordinary one,
        and then the task and its run; all or nothing. */
    method PersistOutcome(tr: nat, o: Outcome, mid: seq<Event>, late: seq<Event>) returns (res: Result<nat>)
      requires Valid()
      requires tr < |taskRuns| && taskRuns[tr].task < |tasks| && tasks[taskRuns[tr].task].session < |sessions|
      requires Terminal(o.status) || o.status == AwaitingApproval
      modifies this
      ensures Valid()
      ensures var x := old(tasks)[old(taskRuns)[tr].task].session;
              var t := After(old(Tables()), maxConcurrency, mid);
              var u := After(t, maxConcurrency, late);
              && Tables() == Persist(u, tr, o, ReadAcross(old(Tables()), t, x))
              && (res.Ok? <==> Persistable(u, tr, o, ReadAcross(old(Tables()), t, x)))
              && (res.Ok? <==> o.text == "" || LogOf(u.messages, x) == LogOf(t.messages, x))
              && (if res.Ok? then res.value == tr else res.error == NumberTaken && Tables() == u)
    {
      ghost var s := Tables();
      var x := tasks[taskRuns[tr].task].session;
      OwnersThroughHistory(s, maxConcurrency, mid);
      OwnersThroughHistory(After(s, maxConcurrency, mid), maxConcurrency, late);
      ReadAcrossIsOvertaken(s, maxConcurrency, mid, late, x);
      ghost var u := After(After(s, maxConcurrency, mid), maxConcurrency, late);
      ghost var seen := ReadAcross(s, After(s, maxConcurrency, mid), x);
      OneStep(u, maxConcurrency, PersistEvent(tr, o, seen));
      if o.text != "" {
        res := PostMessage(x, Assistant, o.text, mid, late);
        if res.Err? { return; }
      } else {
        Interfere(mid);
        Interfere(late);
      }
      RecordOutcome(tr, o);
      res := Ok(tr);
    }

    method RecordOutcome(tr: nat, o: Outcome)
      requires tr < |taskRuns| && taskRuns[tr].task < |tasks|
      modifies this`tasks, this`taskRuns
      ensures Tables() == Record(old(Tables()), tr, o)
    {
      var task := taskRuns[tr].task;
      var row := taskRuns[tr].(status := o.status, output := o.output, error := o.error);
      if o.status == AwaitingApproval {
        tasks := tasks[task := tasks[task].(status := o.status)];
      } else {
        tasks := tasks[task := tasks[task].(status := o.status, completedAt := Some(now))];
        row := row.(finishedAt := Some(now));
        if row.startedAt.Some? { row := row.(duration := Some(now - row.startedAt.value)); }
      }
      taskRuns := taskRuns[tr := row.(cost := o.cost)];
    }

    method ShouldCancel(r: nat) returns (stop: bool)
      ensures stop <==> r >= |runs| || Terminal(runs[r].status) || runs[r].cancelRequestedAt.Some?
    {
      if r >= |runs| { return true; }
      if Terminal(runs[r].status) { return true; }
      return runs[r].cancelRequestedAt.Some?;
    }
  }

  /** The conversation read in one state and the number read in a later one. */
  function ReadAcross(s: Store, t: Store, x: nat): Reading
    requires x < |s.sessions|
  {
    Reading(s.sessions[x].conversation, MaxSequence(t.messages, x) + 1)
  }

  /** Such a reading can be inserted exactly if nobody has written to the session after
      its number was read. */
  lemma ReadAcrossIsOvertaken(s: Store, limit: int, mid: seq<Event>, late: seq<Event>, x: nat)
    requires Reachable(s, limit) && x < |s.sessions|
    ensures var t := After(s, limit, mid);
            var u := After(t, limit, late);
            var seen := ReadAcross(s, t, x);
            && Reachable(t, limit) && Reachable(u, limit)
            && x < |t.sessions| && x < |u.sessions|
            && seen.conversation <= u.sessions[x].conversation && seen.next <= MaxSequence(u.messages, x) + 1
            && (Insertable(u, x, seen) <==> LogOf(u.messages, x) == LogOf(t.messages, x))
  {
    ReachableGoesOn(s, limit, mid);
    var t := After(s, limit, mid);
    ReachableGoesOn(t, limit, late);
    ReachableIsConsistent(s, limit);
    ReachableIsConsistent(t, limit);
    ReadingsAreOvertaken(s, limit, mid, x);
    ReadingsAreOvertaken(t, limit, late, x);
  }

  /** The interference of the first `n` windows, in order. */
  function Joined(env: seq<seq<Event>>, n: nat): seq<Event> {
    if n == 0 then [] else Joined(env, n - 1) + if n - 1 < |env| then env[n-1] else []
  }

  lemma JoinedWindow(s: Store, limit: int, env: seq<seq<Event>>, n: nat)
    ensures After(s, limit, Joined(env, n + 1))
         == After(After(s, limit, Joined(env, n)), limit, if n < |env| then env[n] else [])
  {
    AfterConcat(s, limit, Joined(env, n), if n < |env| then env[n] else []);
  }

  function SpawnsIn(env: seq<seq<Event>>): nat {
    if |env| == 0 then 0 else SpawnsIn(env[..|env|-1]) + Spawns(env[|env|-1])
  }

  lemma {:induction false} SpawnsInPrefix(env: seq<seq<Event>>, n: nat)
    requires n <= |env|
    ensures SpawnsIn(env[..n]) <= SpawnsIn(env)
    ensures n < |env| ==> SpawnsIn(env[..n+1]) == SpawnsIn(env[..n]) + Spawns(env[n])
    decreases |env|
  {
    if n < |env| {
      assert env[..n+1][..n] == env[..n];
      SpawnsInPrefix(env[..|env|-1], n);
      assert env[..|env|-1][..n] == env[..n];
    } else {
      assert env[..n] == env;
    }
  }
}
