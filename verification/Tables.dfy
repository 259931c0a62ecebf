/** The rows the services keep, as values.

    A table is an append-only sequence and the identifier of a row is its position,
    so a new row always has a fresh identifier.  Times are integers read from one
    clock, `now`, that never goes back. */
module Tables {

  datatype Option<+T> = None | Some(value: T)

  datatype Result<+T> = Ok(value: T) | Err(error: Error)

  datatype Error =
    | SessionNotFound
    | OnlyMainSessions
    | DepthExceeded
    | ConcurrencyLimit
    | SubagentNotFound
    | RunNotFound
    | MissingLineage
    | NumberTaken

  /** Every lifecycle word used by sessions, subagent runs, tasks and task runs. */
  datatype Status =
    | Active
    | Queued
    | Running
    | AwaitingApproval
    | Completed
    | Failed
    | Cancelled
    | TimedOut

  predicate Terminal(status: Status) {
    status in {Completed, Failed, Cancelled, TimedOut}
  }

  type TerminalStatus = s: Status | Terminal(s) witness Completed

  datatype SessionKind = Main | Subagent

  datatype Session = Session(
    kind: SessionKind,
    parent: Option<nat>,
    root: Option<nat>,
    depth: nat,
    conversation: nat,
    status: Status,
    summary: Option<string>,
    timeout: Option<int>,
    lastMessageAt: Option<int>,
    updatedAt: int)

  /** One delegation: `launcher` asked for it, `child` carries it out. */
  datatype Run = Run(
    launcher: nat,
    child: nat,
    status: Status,
    createdAt: int,
    updatedAt: int,
    startedAt: Option<int>,
    finishedAt: Option<int>,
    cancelRequestedAt: Option<int>,
    task: Option<nat>,
    taskRun: Option<nat>,
    summaryMessage: Option<nat>,
    finalSummary: Option<string>,
    finalOutput: Option<string>,
    cost: Option<int>,
    errorCode: Option<string>,
    errorSummary: Option<string>)

  datatype Role = User | Assistant

  /** Which operation wrote a message.  The database has no such column: it names
      the provenance that the properties below talk about. */
  datatype Origin = Conversation | SummaryOf(run: nat)

  datatype Message = Message(
    session: nat,
    conversation: nat,
    role: Role,
    sequence: nat,
    text: string,
    createdAt: int,
    origin: Origin)

  /** What the writer of an ordinary message has read of its session before the insert:
      its conversation, and then the number after its last message. */
  datatype Reading = Reading(conversation: nat, next: nat)

  datatype TaskKind = AsyncExecution | OtherTask

  datatype Task = Task(session: nat, kind: TaskKind, status: Status, completedAt: Option<int>)

  datatype TaskRun = TaskRun(
    task: nat,
    status: Status,
    createdAt: int,
    startedAt: Option<int>,
    finishedAt: Option<int>,
    duration: Option<int>,
    cost: Option<int>,
    error: Option<string>,
    output: Option<string>)

  /** A terminal audit event: the status its event type announces for a run. */
  datatype TerminalEvent = TerminalEvent(run: nat, announced: Status)

  datatype Store = Store(
    sessions: seq<Session>,
    runs: seq<Run>,
    messages: seq<Message>,
    tasks: seq<Task>,
    taskRuns: seq<TaskRun>,
    audit: seq<TerminalEvent>,
    conversations: nat,
    now: int)

  const EmptyStore := Store([], [], [], [], [], [], 0, 0)

  /** What a caller of the finalizing transaction hands over. */
  datatype Verdict = Verdict(
    status: TerminalStatus,
    summary: string,
    output: string,
    cost: Option<int>,
    errorCode: Option<string>,
    errorSummary: Option<string>,
    parentText: string)
}
