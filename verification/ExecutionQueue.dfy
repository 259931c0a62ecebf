/** The queue of asynchronous executions while others act. */
module ExecutionQueue {
  import opened Tables
  import opened Transitions
  import opened Protocol
  import opened Lifecycle
  import opened Agreement
  import opened Consistency

  /** No task run was created in the future, and each has its task. */
  ghost predicate TaskRunsAged(s: Store) {
    forall k: nat | k < |s.taskRuns| :: s.taskRuns[k].createdAt <= s.now && s.taskRuns[k].task < |s.tasks|
  }

  /** How many of the first `n` task runs are queued executions. */
  function QueueLength(s: Store, n: nat): nat
    requires n <= |s.taskRuns|
  {
    if n == 0 then 0 else QueueLength(s, n - 1) + if QueuedExecution(s, n - 1) then 1 else 0
  }

  function Enqueues(es: seq<Event>): nat {
    if |es| == 0 then 0 else (if es[0].EnqueueEvent? then 1 else 0) + Enqueues(es[1..])
  }

  /** What others may do to the queue: take executions out of it, and add `more` at
      most, created no earlier than now. */
  ghost predicate QueueMoves(s: Store, t: Store, more: nat) {
    && s.now <= t.now && |s.taskRuns| <= |t.taskRuns|
    && (forall k: nat | k < |s.taskRuns| ::
          && t.taskRuns[k].createdAt == s.taskRuns[k].createdAt
          && (QueuedExecution(t, k) ==> QueuedExecution(s, k)))
    && (forall k: nat | |s.taskRuns| <= k < |t.taskRuns| :: s.now <= t.taskRuns[k].createdAt)
    && QueueLength(t, |t.taskRuns|) <= QueueLength(s, |s.taskRuns|) + more
  }

  /** An execution that was queued and is not any more has made the queue shorter. */
  ghost predicate LeftQueue(s: Store, t: Store, c: nat, more: nat) {
    QueuedExecution(s, c) && !QueuedExecution(t, c) ==>
      QueueLength(t, |t.taskRuns|) + 1 <= QueueLength(s, |s.taskRuns|) + more
  }

  /** At most one row is added, created now, and only an enqueue adds a queued one. */
  lemma StepTaskRows(s: Store, limit: int, e: Event)
    ensures var t := Step(s, limit, e);
            && |s.taskRuns| <= |t.taskRuns| <= |s.taskRuns| + 1 && s.now <= t.now
            && (forall k: nat | k < |s.taskRuns| :: t.taskRuns[k].createdAt == s.taskRuns[k].createdAt)
            && (|t.taskRuns| > |s.taskRuns| ==>
                  var row := t.taskRuns[|s.taskRuns|];
                  && row.createdAt == s.now && row.task < |t.tasks|
                  && (row.status == Queued ==> e.EnqueueEvent?))
  {}

  lemma StepKeepsAged(s: Store, limit: int, e: Event)
    requires TaskRunsAged(s)
    ensures TaskRunsAged(Step(s, limit, e))
  {
    var t := Step(s, limit, e);
    StepTaskRows(s, limit, e);
    StepKeepsOwners(s, limit, e);
    forall k: nat | k < |t.taskRuns| ensures t.taskRuns[k].createdAt <= t.now && t.taskRuns[k].task < |t.tasks| {
      if k < |s.taskRuns| { assert t.taskRuns[k].task == s.taskRuns[k].task; }
    }
  }

  lemma {:induction false} AlwaysAged(s: Store, limit: int, es: seq<Event>)
    requires TaskRunsAged(s)
    ensures TaskRunsAged(After(s, limit, es))
    decreases |es|
  {
    if |es| > 0 {
      StepKeepsAged(s, limit, es[0]);
      AlwaysAged(Step(s, limit, es[0]), limit, es[1..]);
    }
  }

  lemma ReachableIsAged(s: Store, limit: int)
    requires Reachable(s, limit)
    ensures TaskRunsAged(s)
  {
    var es: seq<Event> :| s == After(EmptyStore, limit, es);
    AlwaysAged(EmptyStore, limit, es);
  }

  lemma {:induction false} FewerQueued(s: Store, t: Store, n: nat, c: nat)
    requires n <= |s.taskRuns| && n <= |t.taskRuns|
    requires forall k: nat | k < n && QueuedExecution(t, k) :: QueuedExecution(s, k)
    ensures QueueLength(t, n) <= QueueLength(s, n)
    ensures c < n && QueuedExecution(s, c) && !QueuedExecution(t, c) ==> QueueLength(t, n) + 1 <= QueueLength(s, n)
  {
    if n > 0 { FewerQueued(s, t, n - 1, c); }
  }

  lemma StepMovesQueue(s: Store, limit: int, e: Event, c: nat)
    requires TaskRunsAged(s)
    ensures QueueMoves(s, Step(s, limit, e), if e.EnqueueEvent? then 1 else 0)
    ensures LeftQueue(s, Step(s, limit, e), c, if e.EnqueueEvent? then 1 else 0)
  {
    var t := Step(s, limit, e);
    StepTaskRows(s, limit, e);
    forall k: nat | k < |s.taskRuns| && QueuedExecution(t, k) ensures QueuedExecution(s, k) {
      NothingComesBack(s, limit, e, k);
    }
    RowsMoveQueue(s, t, c, if e.EnqueueEvent? then 1 else 0);
  }

  lemma NothingComesBack(s: Store, limit: int, e: Event, k: nat)
    requires TaskRunsAged(s) && k < |s.taskRuns| && QueuedExecution(Step(s, limit, e), k)
    ensures QueuedExecution(s, k)
  {
    StepKeepsOwners(s, limit, e);
    ExecutionLeavesQueue(s, limit, e, k);
    assert Step(s, limit, e).taskRuns[k].task == s.taskRuns[k].task;
  }

  lemma RowsMoveQueue(s: Store, t: Store, c: nat, more: nat)
    requires |s.taskRuns| <= |t.taskRuns| <= |s.taskRuns| + 1 && s.now <= t.now
    requires forall k: nat | k < |s.taskRuns| :: t.taskRuns[k].createdAt == s.taskRuns[k].createdAt
    requires forall k: nat | k < |s.taskRuns| && QueuedExecution(t, k) :: QueuedExecution(s, k)
    requires |t.taskRuns| > |s.taskRuns| ==>
               t.taskRuns[|s.taskRuns|].createdAt == s.now && (t.taskRuns[|s.taskRuns|].status == Queued ==> more > 0)
    ensures QueueMoves(s, t, more) && LeftQueue(s, t, c, more)
  {
    FewerQueued(s, t, |s.taskRuns|, c);
  }

  lemma {:induction false} HistoryMovesQueue(s: Store, limit: int, es: seq<Event>, c: nat)
    requires TaskRunsAged(s)
    ensures QueueMoves(s, After(s, limit, es), Enqueues(es))
    ensures LeftQueue(s, After(s, limit, es), c, Enqueues(es))
    decreases |es|
  {
    if |es| > 0 {
      var u := Step(s, limit, es[0]);
      StepMovesQueue(s, limit, es[0], c);
      StepKeepsAged(s, limit, es[0]);
      HistoryMovesQueue(u, limit, es[1..], c);
      MovesCompose(s, u, After(u, limit, es[1..]), c, if es[0].EnqueueEvent? then 1 else 0, Enqueues(es[1..]));
    }
  }

  lemma MovesCompose(s: Store, t: Store, u: Store, c: nat, a: nat, b: nat)
    requires QueueMoves(s, t, a) && QueueMoves(t, u, b) && LeftQueue(s, t, c, a) && LeftQueue(t, u, c, b)
    ensures QueueMoves(s, u, a + b) && LeftQueue(s, u, c, a + b)
  {
    forall k: nat | k < |s.taskRuns|
      ensures u.taskRuns[k].createdAt == s.taskRuns[k].createdAt && (QueuedExecution(u, k) ==> QueuedExecution(s, k))
    {
      assert t.taskRuns[k].createdAt == s.taskRuns[k].createdAt;
    }
    forall k: nat | |s.taskRuns| <= k < |u.taskRuns| ensures s.now <= u.taskRuns[k].createdAt {
      if k < |t.taskRuns| { assert u.taskRuns[k].createdAt == t.taskRuns[k].createdAt; }
    }
  }

  /** A selected execution that is still queued after any interference is still the
      oldest; one that is not has made the queue shorter. */
  lemma ExecutionWindow(s: Store, limit: int, window: seq<Event>, c: nat)
    requires Reachable(s, limit) && OldestExecution(s, |s.taskRuns|) == Some(c)
    ensures var t := After(s, limit, window);
            && c < |s.taskRuns| <= |t.taskRuns|
            && QueueLength(t, |t.taskRuns|) <= QueueLength(s, |s.taskRuns|) + Enqueues(window)
            && (QueuedExecution(t, c) <==> t.taskRuns[c].status == Queued)
            && (if QueuedExecution(t, c) then OldestExecution(t, |t.taskRuns|) == Some(c)
                else QueueLength(t, |t.taskRuns|) + 1 <= QueueLength(s, |s.taskRuns|) + Enqueues(window))
  {
    ReachableIsAged(s, limit);
    ExecutionClaimIsOldest(s, |s.taskRuns|);
    HistoryMovesQueue(s, limit, window, c);
    OwnersThroughHistory(s, limit, window);
    OldestExecutionStays(s, After(s, limit, window), Enqueues(window), c);
  }

  lemma OldestExecutionStays(s: Store, t: Store, more: nat, c: nat)
    requires TaskRunsAged(s) && QueueMoves(s, t, more) && SameOwners(s, t)
    requires OldestExecution(s, |s.taskRuns|) == Some(c) && c < |s.taskRuns| && QueuedExecution(s, c)
    ensures QueuedExecution(t, c) <==> t.taskRuns[c].status == Queued
    ensures QueuedExecution(t, c) ==> OldestExecution(t, |t.taskRuns|) == Some(c)
  {
    ExecutionClaimIsOldest(s, |s.taskRuns|);
    ExecutionClaimIsOldest(t, |t.taskRuns|);
    assert t.taskRuns[c].task == s.taskRuns[c].task;
    if QueuedExecution(t, c) {
      var d := OldestExecution(t, |t.taskRuns|).value;
      assert d < |s.taskRuns| ==> QueuedExecution(s, d) && t.taskRuns[d].createdAt == s.taskRuns[d].createdAt;
      assert t.taskRuns[c].createdAt == s.taskRuns[c].createdAt;
    }
  }
}
