/** What each transaction leaves in the fields of the rows it writes, and which rows it
    leaves alone. */
module Effects {
  import opened Tables
  import opened Transitions
  import opened Protocol

  /** All rows but one are what they were. */
  ghost predicate OnlyAt<T>(before: seq<T>, after: seq<T>, n: nat) {
    |after| == |before| && forall i: nat | i < |before| && i != n :: after[i] == before[i]
  }

  /** One row more, and the old ones are what they were. */
  ghost predicate OneMore<T>(before: seq<T>, after: seq<T>) {
    |after| == |before| + 1 && before <= after
  }

  /** An ordinary message carries the given role and text, the conversation that was read
      and the next number; its session is marked as used now. */
  lemma SayWrites(s: Store, x: nat, role: Role, text: string, seen: Reading)
    requires Insertable(s, x, seen)
    ensures var t := Say(s, x, role, text, seen);
            && OneMore(s.messages, t.messages) && OnlyAt(s.sessions, t.sessions, x)
            && var m := t.messages[|s.messages|];
               && m.session == x && m.role == role && m.text == text && m.createdAt == s.now
               && m.conversation == seen.conversation && m.origin == Conversation
               && m.sequence == MaxSequence(s.messages, x) + 1
               && t.sessions[x].lastMessageAt == Some(s.now) && t.sessions[x].updatedAt == s.now
               && t.sessions[x].conversation == s.sessions[x].conversation
               && t.sessions[x].status == s.sessions[x].status && t.sessions[x].timeout == s.sessions[x].timeout
               && t.runs == s.runs && t.tasks == s.tasks && t.taskRuns == s.taskRuns && t.audit == s.audit
  {}

  /** A reset gives a main session a conversation nobody has had, forgets its summary
      and its last message, and keeps every message. */
  lemma ResetClears(s: Store, x: nat)
    ensures var t := Reset(s, x);
            if x < |s.sessions| && s.sessions[x].kind.Main? then
              && OnlyAt(s.sessions, t.sessions, x) && t.messages == s.messages && t.runs == s.runs
              && t.sessions[x].conversation == s.conversations < t.conversations
              && t.sessions[x].summary.None? && t.sessions[x].lastMessageAt.None? && t.sessions[x].updatedAt == s.now
              && t.sessions[x].kind.Main? && t.sessions[x].status == s.sessions[x].status
            else t == s
  {}

  /** A spawned run waits, and its child session carries the limits it was given. */
  lemma SpawnWrites(s: Store, parent: nat, timeout: int, limit: int)
    requires SpawnCheck(s, parent, limit).Ok?
    ensures var t := Spawn(s, parent, timeout, limit);
            && OneMore(s.sessions, t.sessions) && OneMore(s.runs, t.runs)
            && t.messages == s.messages && t.tasks == s.tasks && t.taskRuns == s.taskRuns && t.audit == s.audit
            && var child, run := t.sessions[|s.sessions|], t.runs[|s.runs|];
               && child.kind.Subagent? && child.parent == Some(parent) && child.depth == 1
               && (s.sessions[parent].root.Some? ==> child.root == s.sessions[parent].root)
               && child.status == Queued && child.timeout == Some(timeout) && child.conversation == s.conversations
               && child.summary.None? && child.lastMessageAt.None?
               && run.launcher == parent && run.child == |s.sessions| && run.status == Queued
               && run.createdAt == s.now && run.startedAt.None? && run.finishedAt.None? && run.cancelRequestedAt.None?
               && run.task.None? && run.taskRun.None? && run.summaryMessage.None? && run.finalSummary.None?
               && run.finalOutput.None? && run.cost.None? && run.errorCode.None? && run.errorSummary.None?
  {}

  /** What a spawn demands of the parent, each check with its own refusal, in order. */
  lemma SpawnRefusals(s: Store, parent: nat, limit: int)
    ensures var check := SpawnCheck(s, parent, limit);
            && (check == Err(SessionNotFound) <==> parent >= |s.sessions|)
            && (check == Err(OnlyMainSessions) <==> parent < |s.sessions| && s.sessions[parent].kind == Subagent)
            && (check == Err(DepthExceeded) <==>
                  parent < |s.sessions| && s.sessions[parent].kind == Main && s.sessions[parent].depth > 0)
            && (check == Err(ConcurrencyLimit) <==>
                  && parent < |s.sessions| && s.sessions[parent].kind == Main && s.sessions[parent].depth == 0
                  && ActiveCount(s.runs, parent) >= limit)
            && (check.Ok? ==> ActiveCount(s.runs, parent) < limit)
  {}

  /** A slot is held by exactly the launcher's own runs that are queued or running. */
  lemma {:induction false} ActiveRunsAreCounted(runs: seq<Run>, p: nat)
    ensures ActiveCount(runs, p) == |set r: nat | r < |runs| && runs[r].launcher == p
                                                  && (runs[r].status == Queued || runs[r].status == Running)|
  {
    var all := set r: nat | r < |runs| && runs[r].launcher == p
                            && (runs[r].status == Queued || runs[r].status == Running);
    if |runs| > 0 {
      var n := |runs| - 1;
      var init := runs[..n];
      ActiveRunsAreCounted(init, p);
      var some := set r: nat | r < |init| && init[r].launcher == p
                               && (init[r].status == Queued || init[r].status == Running);
      assert all == some + if n in all then {n} else {};
    } else {
      assert all == {};
    }
  }

  /** A claim starts the oldest queued run now and touches no other row. */
  lemma ClaimWrites(s: Store)
    ensures var t := Claim(s);
            var c := OldestQueued(s.runs);
            if c.None? then t == s
            else && c.value < |s.runs| && t == s.(runs := t.runs) && OnlyAt(s.runs, t.runs, c.value)
                 && t.runs[c.value].status == Running && t.runs[c.value].startedAt == Some(s.now)
                 && t.runs[c.value].updatedAt == s.now && t.runs[c.value].createdAt == s.runs[c.value].createdAt
                 && t.runs[c.value].cancelRequestedAt == s.runs[c.value].cancelRequestedAt
                 && t.runs[c.value].child == s.runs[c.value].child && t.runs[c.value].task == s.runs[c.value].task
  {
    ClaimPicksQueued(s.runs);
  }

  /** The stamp of a cancellation is the present time, on that run alone. */
  lemma StampWrites(s: Store, r: nat)
    ensures var t := RequestCancel(s, r);
            if r < |s.runs| && s.runs[r].status != Queued then
              && t == s.(runs := t.runs) && OnlyAt(s.runs, t.runs, r)
              && t.runs[r].cancelRequestedAt == Some(s.now) && t.runs[r].updatedAt == s.now
              && t.runs[r].status == s.runs[r].status && t.runs[r].startedAt == s.runs[r].startedAt
            else t == s
  {}

  /** A task for a run is a running one of its child session, started now. */
  lemma PrepareWrites(s: Store, r: nat)
    requires r < |s.runs|
    ensures var t := Prepare(s, r);
            && OneMore(s.tasks, t.tasks) && OneMore(s.taskRuns, t.taskRuns)
            && t == s.(tasks := t.tasks, taskRuns := t.taskRuns)
            && var task, row := t.tasks[|s.tasks|], t.taskRuns[|s.taskRuns|];
               && task.session == s.runs[r].child && task.kind == OtherTask && task.status == Running
               && task.completedAt.None?
               && row.task == |s.tasks| && row.status == Running && row.createdAt == s.now
               && row.startedAt == Some(s.now) && row.finishedAt.None? && row.output.None? && row.error.None?
  {}

  /** An enqueued execution: the user's message, a queued task of the session, and its
      queued run that has not started. */
  lemma EnqueueWrites(s: Store, x: nat, text: string, seen: Reading)
    requires Insertable(s, x, seen)
    ensures var t := Enqueue(s, x, text, seen);
            && OneMore(s.messages, t.messages) && OneMore(s.tasks, t.tasks) && OneMore(s.taskRuns, t.taskRuns)
            && t.messages[|s.messages|].session == x && t.messages[|s.messages|].role == User
            && t.messages[|s.messages|].text == text
            && var task, row := t.tasks[|s.tasks|], t.taskRuns[|s.taskRuns|];
               && task.session == x && task.kind == AsyncExecution && task.status == Queued && task.completedAt.None?
               && row.task == |s.tasks| && row.status == Queued && row.createdAt == s.now && row.startedAt.None?
               && row.finishedAt.None? && row.output.None? && row.error.None? && row.cost.None?
  {}

  /** A claimed execution runs from now, its task with it, and nothing else changes. */
  lemma ClaimExecutionWrites(s: Store, c: nat)
    requires OldestExecution(s, |s.taskRuns|) == Some(c) && QueuedExecution(s, c)
    ensures var t := ClaimExecution(s);
            && t == s.(tasks := t.tasks, taskRuns := t.taskRuns)
            && OnlyAt(s.taskRuns, t.taskRuns, c) && OnlyAt(s.tasks, t.tasks, s.taskRuns[c].task)
            && t.taskRuns[c].status == Running && t.taskRuns[c].startedAt == Some(s.now)
            && t.taskRuns[c].task == s.taskRuns[c].task && t.taskRuns[c].createdAt == s.taskRuns[c].createdAt
            && t.tasks[s.taskRuns[c].task].status == Running
            && t.tasks[s.taskRuns[c].task].session == s.tasks[s.taskRuns[c].task].session
  {}

  /** A queued execution: a queued run of a task of the asynchronous kind. */
  lemma QueuedExecutionsAre(s: Store, k: nat)
    ensures QueuedExecution(s, k) <==>
              && k < |s.taskRuns| && s.taskRuns[k].status == Queued && s.taskRuns[k].task < |s.tasks|
              && s.tasks[s.taskRuns[k].task].kind != OtherTask
  {}

  /** The executor's write: status, output, error and cost of the outcome on the task run,
      the status on its task, and the text, if there is one, as the assistant's message.
      Only an end, no suspension, is stamped and timed. */
  lemma PersistWrites(s: Store, tr: nat, o: Outcome, seen: Reading)
    requires Persistable(s, tr, o, seen)
    ensures var t := Persist(s, tr, o, seen);
            var k := s.taskRuns[tr].task;
            var old_, row := s.taskRuns[tr], t.taskRuns[tr];
            && OnlyAt(s.taskRuns, t.taskRuns, tr) && OnlyAt(s.tasks, t.tasks, k) && t.runs == s.runs
            && row.status == o.status && row.output == o.output && row.error == o.error && row.cost == o.cost
            && row.task == k && row.createdAt == old_.createdAt && row.startedAt == old_.startedAt
            && t.tasks[k].status == o.status && t.tasks[k].session == s.tasks[k].session
            && (o.status == AwaitingApproval ==>
                  && row.finishedAt == old_.finishedAt && row.duration == old_.duration
                  && t.tasks[k].completedAt == s.tasks[k].completedAt)
            && (o.status != AwaitingApproval ==>
                  && row.finishedAt == Some(s.now) && t.tasks[k].completedAt == Some(s.now)
                  && (old_.startedAt.Some? ==> row.duration == Some(s.now - old_.startedAt.value))
                  && (old_.startedAt.None? ==> row.duration == old_.duration))
            && (o.text == "" ==> t.messages == s.messages && t.sessions == s.sessions)
            && (o.text != "" ==>
                  && OneMore(s.messages, t.messages)
                  && t.messages[|s.messages|].session == s.tasks[k].session
                  && t.messages[|s.messages|].role == Assistant && t.messages[|s.messages|].text == o.text)
  {}

  /** The executor may write exactly an end or a suspension of a run that exists, whose
      message, if it has one, still finds its number free. */
  lemma PersistRefusals(s: Store, tr: nat, o: Outcome, seen: Reading)
    requires tr < |s.taskRuns| && s.taskRuns[tr].task < |s.tasks| && s.tasks[s.taskRuns[tr].task].session < |s.sessions|
    requires seen.conversation <= s.sessions[s.tasks[s.taskRuns[tr].task].session].conversation
    ensures Persist(s, tr, o, seen) == s || Persistable(s, tr, o, seen)
    ensures Persistable(s, tr, o, seen) <==>
              && o.status in {Completed, Failed, Cancelled, TimedOut, AwaitingApproval}
              && (o.text == "" || seen.next == MaxSequence(s.messages, s.tasks[s.taskRuns[tr].task].session) + 1)
  {}

  /** No transaction changes or removes a message that was written. */
  lemma StepKeepsMessages(s: Store, limit: int, e: Event)
    ensures s.messages <= Step(s, limit, e).messages
  {
    if !e.FinalizeEvent? { OtherStepsAreQuiet(s, limit, e); }
  }

  lemma {:induction false} MessagesAreForEver(s: Store, limit: int, es: seq<Event>)
    ensures s.messages <= After(s, limit, es).messages
    decreases |es|
  {
    if |es| > 0 {
      StepKeepsMessages(s, limit, es[0]);
      MessagesAreForEver(Step(s, limit, es[0]), limit, es[1..]);
    }
  }
}
