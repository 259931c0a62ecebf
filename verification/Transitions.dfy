/** The committed transactions of the system as functions on the tables.

    Each function says what one transaction leaves behind.  A transaction that
    raises is rolled back, so it leaves the tables as they were. */
module Transitions {
  import opened Tables

  // ---------------------------------------------------------------- messages

  /** The largest sequence number a session has used, 0 if it has no message. */
  function MaxSequence(messages: seq<Message>, x: nat): nat {
    if |messages| == 0 then 0 else
    var before := MaxSequence(messages[..|messages|-1], x);
    var last := messages[|messages|-1];
    if last.session == x && before < last.sequence then last.sequence else before
  }

  /** What a writer that reads both at once would read. */
  function ReadingOf(s: Store, x: nat): Reading
    requires x < |s.sessions|
  {
    Reading(s.sessions[x].conversation, MaxSequence(s.messages, x) + 1)
  }

  function Insert(s: Store, x: nat, role: Role, text: string, origin: Origin, seen: Reading): Store {
    s.(messages := s.messages + [Message(x, seen.conversation, role, seen.next, text, s.now, origin)])
  }

  /** A message written under the lock that its reads were made under. */
  function Append(s: Store, x: nat, role: Role, text: string, origin: Origin): Store
    requires x < |s.sessions|
  {
    Insert(s, x, role, text, origin, ReadingOf(s, x))
  }

  /** An ordinary message is inserted on a reading that others may have overtaken.  The
      number read is still the next one, or it is taken and the insert is refused; the
      conversation read is still the current one or an earlier one. */
  predicate Insertable(s: Store, x: nat, seen: Reading) {
    && x < |s.sessions|
    && seen.conversation <= s.sessions[x].conversation
    && seen.next == MaxSequence(s.messages, x) + 1
  }

  function Touch(s: Store, x: nat): Store
    requires x < |s.sessions|
  {
    s.(sessions := s.sessions[x := s.sessions[x].(lastMessageAt := Some(s.now), updatedAt := s.now)])
  }

  /** An ordinary message: inserted, and the session is marked as used. */
  function Say(s: Store, x: nat, role: Role, text: string, seen: Reading): Store {
    if Insertable(s, x, seen) then Touch(Insert(s, x, role, text, Conversation, seen), x) else s
  }

  function Reset(s: Store, x: nat): Store {
    if x < |s.sessions| && s.sessions[x].kind.Main? then
      s.(sessions := s.sessions[x := s.sessions[x].(conversation := s.conversations,
                                                    summary := None,
                                                    lastMessageAt := None,
                                                    updatedAt := s.now)],
         conversations := s.conversations + 1)
    else s
  }

  function CreateMain(s: Store): Store {
    s.(sessions := s.sessions + [
         Session(Main, None, Some(|s.sessions|), 0, s.conversations, Active, None, None, None, s.now)],
       conversations := s.conversations + 1)
  }

  // ---------------------------------------------------------------- spawning

  predicate Occupies(run: Run, launcher: nat) {
    run.launcher == launcher && run.status in {Queued, Running}
  }

  /** How many runs of a launcher still hold one of its slots. */
  function ActiveCount(runs: seq<Run>, launcher: nat): nat {
    if |runs| == 0 then 0
    else ActiveCount(runs[..|runs|-1], launcher) + if Occupies(runs[|runs|-1], launcher) then 1 else 0
  }

  function SpawnCheck(s: Store, parent: nat, limit: int): Result<nat> {
    if parent >= |s.sessions| then Err(SessionNotFound)
    else if !s.sessions[parent].kind.Main? then Err(OnlyMainSessions)
    else if s.sessions[parent].depth > 0 then Err(DepthExceeded)
    else if ActiveCount(s.runs, parent) >= limit then Err(ConcurrencyLimit)
    else Ok(|s.runs|)
  }

  function NewChild(s: Store, parent: nat, timeout: int): Session
    requires parent < |s.sessions|
  {
    var p := s.sessions[parent];
    Session(Subagent, Some(parent), if p.root.Some? then p.root else Some(parent), p.depth + 1,
            s.conversations, Queued, None, Some(timeout), None, s.now)
  }

  function NewRun(s: Store, parent: nat, child: nat): Run {
    Run(parent, child, Queued, s.now, s.now, None, None, None, None, None, None, None, None, None, None, None)
  }

  function Spawn(s: Store, parent: nat, timeout: int, limit: int): Store {
    if SpawnCheck(s, parent, limit).Err? then s else
    s.(sessions := s.sessions + [NewChild(s, parent, timeout)],
       runs := s.runs + [NewRun(s, parent, |s.sessions|)],
       conversations := s.conversations + 1)
  }

  // ---------------------------------------------------------------- claiming

  /** The queued run with the smallest creation time, the first one on a tie. */
  function OldestQueued(runs: seq<Run>): Option<nat> {
    if |runs| == 0 then None else
    var n := |runs| - 1;
    var before := OldestQueued(runs[..n]);
    if runs[n].status == Queued
       && (before.None? || before.value >= n || runs[n].createdAt < runs[before.value].createdAt)
    then Some(n)
    else before
  }

  function ClaimedRun(run: Run, now: int): Run {
    run.(status := Running, startedAt := Some(now), updatedAt := now)
  }

  function Claim(s: Store): Store {
    var candidate := OldestQueued(s.runs);
    if candidate.None? || candidate.value >= |s.runs| then s
    else s.(runs := s.runs[candidate.value := ClaimedRun(s.runs[candidate.value], s.now)])
  }

  // ------------------------------------------------------------ cancellation

  /** The stamp of a cancellation.  Whoever writes it has seen the run running, in an
      earlier transaction, and the write does not look again: the run may have ended
      since, in any way.  What was running is never queued again, so a queued run is
      never stamped. */
  function RequestCancel(s: Store, r: nat): Store {
    if r < |s.runs| && s.runs[r].status != Queued then
      s.(runs := s.runs[r := s.runs[r].(cancelRequestedAt := Some(s.now), updatedAt := s.now)])
    else s
  }

  // -------------------------------------------------------------- finalizing

  function FinalizeCheck(s: Store, r: nat): Result<nat> {
    if r >= |s.runs| then Err(RunNotFound)
    else if s.runs[r].child >= |s.sessions| || s.runs[r].launcher >= |s.sessions| then Err(MissingLineage)
    else Ok(r)
  }

  /** A recorded cancellation request overrides every verdict except a timeout. */
  function Resolve(run: Run, status: TerminalStatus): TerminalStatus {
    if run.cancelRequestedAt.Some? && status != TimedOut then Cancelled else status
  }

  function FinishedRun(run: Run, v: Verdict, message: nat, now: int): Run {
    run.(status := Resolve(run, v.status),
         finishedAt := Some(now),
         finalSummary := Some(v.summary),
         finalOutput := Some(v.output),
         cost := v.cost,
         errorCode := v.errorCode,
         errorSummary := v.errorSummary,
         updatedAt := now,
         summaryMessage := Some(message))
  }

  function SyncedTaskRun(tr: TaskRun, status: TerminalStatus, v: Verdict, now: int): TaskRun {
    TaskRun(tr.task, status, tr.createdAt, tr.startedAt, Some(now),
            if tr.startedAt.Some? then Some(now - tr.startedAt.value) else tr.duration,
            if v.cost.Some? then v.cost else tr.cost,
            if v.errorSummary.Some? && status != Completed then v.errorSummary else tr.error,
            if tr.output.None? && status in {Cancelled, TimedOut} then Some(v.output) else tr.output)
  }

  function SyncTasks(tasks: seq<Task>, run: Run, now: int): seq<Task> {
    if run.task.Some? && run.task.value < |tasks|
    then tasks[run.task.value := tasks[run.task.value].(status := run.status, completedAt := Some(now))]
    else tasks
  }

  function SyncTaskRuns(taskRuns: seq<TaskRun>, run: Run, v: Verdict, now: int): seq<TaskRun>
    requires Terminal(run.status)
  {
    if run.taskRun.Some? && run.taskRun.value < |taskRuns|
    then taskRuns[run.taskRun.value := SyncedTaskRun(taskRuns[run.taskRun.value], run.status, v, now)]
    else taskRuns
  }

  function FinalizeOpen(s: Store, r: nat, v: Verdict): Store
    requires FinalizeCheck(s, r).Ok?
  {
    var run := FinishedRun(s.runs[r], v, |s.messages|, s.now);
    var child := s.sessions[run.child].(status := run.status, summary := Some(v.summary), updatedAt := s.now);
    var s1 := s.(runs := s.runs[r := run],
                 sessions := s.sessions[run.child := child],
                 tasks := SyncTasks(s.tasks, run, s.now),
                 taskRuns := SyncTaskRuns(s.taskRuns, run, v, s.now),
                 audit := s.audit + [TerminalEvent(r, v.status)]);
    Touch(Append(s1, run.launcher, Assistant, v.parentText, SummaryOf(r)), run.launcher)
  }

  function Finalize(s: Store, r: nat, v: Verdict): Store {
    if FinalizeCheck(s, r).Err? || Terminal(s.runs[r].status) then s else FinalizeOpen(s, r, v)
  }

  // --------------------------------------------------------------- execution

  /** The worker writes down the task it is about to carry out for a run. */
  function Prepare(s: Store, r: nat): Store {
    if r >= |s.runs| then s else
    s.(tasks := s.tasks + [Task(s.runs[r].child, OtherTask, Running, None)],
       taskRuns := s.taskRuns + [
         TaskRun(|s.tasks|, Running, s.now, Some(s.now), None, None, None, None, None)])
  }

  predicate Owns(s: Store, r: nat, tr: nat) {
    && r < |s.runs| && tr < |s.taskRuns|
    && s.taskRuns[tr].task < |s.tasks|
    && s.tasks[s.taskRuns[tr].task].kind.OtherTask?
    && s.tasks[s.taskRuns[tr].task].session == s.runs[r].child
  }

  function Attach(s: Store, r: nat, tr: nat): Store {
    if !Owns(s, r, tr) then s else
    s.(runs := s.runs[r := s.runs[r].(task := Some(s.taskRuns[tr].task), taskRun := Some(tr), updatedAt := s.now)])
  }

  function Enqueue(s: Store, x: nat, text: string, seen: Reading): Store {
    if !Insertable(s, x, seen) then s else
    var said := Say(s, x, User, text, seen);
    said.(tasks := said.tasks + [Task(x, AsyncExecution, Queued, None)],
          taskRuns := said.taskRuns + [
            TaskRun(|said.tasks|, Queued, said.now, None, None, None, None, None, None)])
  }

  predicate QueuedExecution(s: Store, tr: nat) {
    && tr < |s.taskRuns|
    && s.taskRuns[tr].status == Queued
    && s.taskRuns[tr].task < |s.tasks|
    && s.tasks[s.taskRuns[tr].task].kind.AsyncExecution?
  }

  /** The oldest queued task run among the first `n`. */
  function OldestExecution(s: Store, n: nat): Option<nat>
    requires n <= |s.taskRuns|
  {
    if n == 0 then None else
    var before := OldestExecution(s, n - 1);
    if QueuedExecution(s, n - 1)
       && (before.None? || before.value >= n || s.taskRuns[n-1].createdAt < s.taskRuns[before.value].createdAt)
    then Some(n - 1)
    else before
  }

  function ClaimExecution(s: Store): Store {
    var candidate := OldestExecution(s, |s.taskRuns|);
    if candidate.None? || !QueuedExecution(s, candidate.value) then s else
    var tr := s.taskRuns[candidate.value];
    s.(taskRuns := s.taskRuns[candidate.value := tr.(status := Running, startedAt := Some(s.now))],
       tasks := s.tasks[tr.task := s.tasks[tr.task].(status := Running)])
  }

  /** What an execution wrote down when it stopped. */
  datatype Outcome = Outcome(
    status: Status, text: string, output: Option<string>, error: Option<string>, cost: Option<int>)

  /** The row is there, and its message, if there is one, can be inserted. */
  predicate Persistable(s: Store, tr: nat, o: Outcome, seen: Reading) {
    && tr < |s.taskRuns| && s.taskRuns[tr].task < |s.tasks|
    && (Terminal(o.status) || o.status == AwaitingApproval)
    && (o.text == "" || Insertable(s, s.tasks[s.taskRuns[tr].task].session, seen))
  }

  /** The task and its run take the outcome's status; an outcome that waits for an
      approval is no end. */
  function Record(s: Store, tr: nat, o: Outcome): Store
    requires tr < |s.taskRuns| && s.taskRuns[tr].task < |s.tasks|
  {
    var t := s.taskRuns[tr].task;
    var row := s.taskRuns[tr].(status := o.status, output := o.output, error := o.error, cost := o.cost);
    if o.status == AwaitingApproval then
      s.(tasks := s.tasks[t := s.tasks[t].(status := o.status)], taskRuns := s.taskRuns[tr := row])
    else
      s.(tasks := s.tasks[t := s.tasks[t].(status := o.status, completedAt := Some(s.now))],
         taskRuns := s.taskRuns[tr := row.(
           finishedAt := Some(s.now),
           duration := if row.startedAt.Some? then Some(s.now - row.startedAt.value) else row.duration)])
  }

  /** The executor records the end, or the suspension, of a task run; a refused message
      takes all of it back. */
  function Persist(s: Store, tr: nat, o: Outcome, seen: Reading): Store {
    if !Persistable(s, tr, o, seen) then s else
    var x := s.tasks[s.taskRuns[tr].task].session;
    Record(if o.text == "" then s else Say(s, x, Assistant, o.text, seen), tr, o)
  }

  // ------------------------------------------------------------------ traces

  /** One committed transaction of any actor: the API, a worker, the sweeper. */
  datatype Event =
    | CreateMainEvent
    | SayEvent(session: nat, role: Role, text: string, seen: Reading)
    | ResetEvent(session: nat)
    | SpawnEvent(parent: nat, timeout: int)
    | ClaimEvent
    | RequestCancelEvent(run: nat)
    | FinalizeEvent(run: nat, verdict: Verdict)
    | PrepareEvent(run: nat)
    | AttachEvent(run: nat, taskRun: nat)
    | EnqueueEvent(session: nat, text: string, seen: Reading)
    | ClaimExecutionEvent
    | PersistEvent(taskRun: nat, outcome: Outcome, seen: Reading)
    | ElapseEvent(ticks: nat)

  /** `limit` is the configured number of runs a session may have in flight. */
  function Step(s: Store, limit: int, e: Event): Store {
    match e
    case CreateMainEvent => CreateMain(s)
    case SayEvent(x, role, text, seen) => Say(s, x, role, text, seen)
    case ResetEvent(x) => Reset(s, x)
    case SpawnEvent(parent, timeout) => Spawn(s, parent, timeout, limit)
    case ClaimEvent => Claim(s)
    case RequestCancelEvent(r) => RequestCancel(s, r)
    case FinalizeEvent(r, v) => Finalize(s, r, v)
    case PrepareEvent(r) => Prepare(s, r)
    case AttachEvent(r, tr) => Attach(s, r, tr)
    case EnqueueEvent(x, text, seen) => Enqueue(s, x, text, seen)
    case ClaimExecutionEvent => ClaimExecution(s)
    case PersistEvent(tr, o, seen) => Persist(s, tr, o, seen)
    case ElapseEvent(ticks) => s.(now := s.now + ticks)
  }

  /** The tables after a whole interleaving of transactions. */
  function After(s: Store, limit: int, es: seq<Event>): Store
    decreases |es|
  {
    if |es| == 0 then s else After(Step(s, limit, es[0]), limit, es[1..])
  }

  lemma {:induction false} AfterConcat(s: Store, limit: int, a: seq<Event>, b: seq<Event>)
    ensures After(s, limit, a + b) == After(After(s, limit, a), limit, b)
    decreases |a|
  {
    if |a| == 0 {
      assert a + b == b;
    } else {
      assert (a + b)[1..] == a[1..] + b;
      AfterConcat(Step(s, limit, a[0]), limit, a[1..], b);
    }
  }
}
