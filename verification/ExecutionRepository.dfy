/** Main sessions and asynchronous executions on the same tables: new sessions, resets,
    posts, the queue and its claim loop. */
module ExecutionRepository {
  import opened Tables
  import opened Transitions
  import opened Protocol
  import opened Lifecycle
  import opened MessageLog
  import opened Consistency
  import opened SubagentRepository
  import opened ExecutionQueue

  class ExecutionRepository {
    const repo: Repository

    constructor (repo: Repository)
      ensures this.repo == repo
    {
      this.repo := repo;
    }

    method CreateMainSession() returns (x: nat)
      modifies repo`sessions, repo`conversations
      ensures repo.Tables() == CreateMain(old(repo.Tables()))
      ensures old(repo.Valid()) ==> repo.Valid()
      ensures x == |old(repo.sessions)| && x < |repo.sessions| && repo.sessions[x].root == Some(x)
    {
      OneStep(repo.Tables(), repo.maxConcurrency, CreateMainEvent);
      x := |repo.sessions|;
      var record := Session(Main, None, None, 0, repo.conversations, Active, None, None, None, repo.now);
      record := record.(root := Some(x));
      repo.conversations := repo.conversations + 1;
      repo.sessions := repo.sessions + [record];
    }

    /** Only a main session can be reset; its listing is empty afterwards, and every
        other session's is what it was. */
    method ResetConversation(x: nat) returns (res: Result<nat>)
      requires repo.Valid()
      modifies repo`sessions, repo`conversations
      ensures repo.Valid() && repo.Tables() == Reset(old(repo.Tables()), x)
      ensures x >= |old(repo.sessions)| ==> res == Err(SessionNotFound)
      ensures x < |old(repo.sessions)| && !old(repo.sessions)[x].kind.Main? ==> res == Err(OnlyMainSessions)
      ensures res.Err? ==> repo.Tables() == old(repo.Tables())
      ensures res.Ok? ==>
                && res.value == x < |repo.sessions| == |old(repo.sessions)| && Listing(repo.Tables(), x) == []
                && forall y: nat | y < |repo.sessions| && y != x ::
                     Listing(repo.Tables(), y) == Listing(old(repo.Tables()), y)
    {
      ghost var s := repo.Tables();
      OneStep(s, repo.maxConcurrency, ResetEvent(x));
      if x >= |repo.sessions| { return Err(SessionNotFound); }
      var record := repo.sessions[x];
      if record.kind != Main { return Err(OnlyMainSessions); }
      EmptyAfterReset(s, repo.maxConcurrency, x);
      record := record.(conversation := repo.conversations);
      record := record.(summary := None, lastMessageAt := None, updatedAt := repo.now);
      repo.conversations := repo.conversations + 1;
      repo.sessions := repo.sessions[x := record];
      return Ok(x);
    }

    /** The user's message as any ordinary one, and then a queued task and its queued run,
        in one transaction: all or nothing. */
    method EnqueueSimple(x: nat, text: string, mid: seq<Event>, late: seq<Event>) returns (res: Result<nat>)
      requires repo.Valid()
      modifies repo
      ensures repo.Valid()
      ensures x >= |old(repo.sessions)| ==> res == Err(SessionNotFound) && repo.Tables() == old(repo.Tables())
      ensures x < |old(repo.sessions)| ==>
                var t := After(old(repo.Tables()), repo.maxConcurrency, mid);
                var u := After(t, repo.maxConcurrency, late);
                && repo.Tables() == Enqueue(u, x, text, ReadAcross(old(repo.Tables()), t, x))
                && (res.Ok? <==> LogOf(u.messages, x) == LogOf(t.messages, x))
                && (res.Ok? ==> res.value == |u.taskRuns| && QueuedExecution(repo.Tables(), res.value))
                && (res.Err? ==> res.error == NumberTaken && repo.Tables() == u)
    {
      ghost var s := repo.Tables();
      var message := repo.PostMessage(x, User, text, mid, late);
      if message.Err? { return message; }
      ghost var t := After(s, repo.maxConcurrency, mid);
      ghost var u := After(t, repo.maxConcurrency, late);
      ReadAcrossIsOvertaken(s, repo.maxConcurrency, mid, late, x);
      OneStep(u, repo.maxConcurrency, EnqueueEvent(x, text, ReadAcross(s, t, x)));
      var task := |repo.tasks|;
      repo.tasks := repo.tasks + [Task(x, AsyncExecution, Queued, None)];
      res := Ok(|repo.taskRuns|);
      repo.taskRuns := repo.taskRuns + [TaskRun(task, Queued, repo.now, None, None, None, None, None, None)];
    }

    method SelectOldestExecution() returns (candidate: Option<nat>)
      ensures candidate == OldestExecution(repo.Tables(), |repo.taskRuns|)
    {
      candidate := None;
      for i := 0 to |repo.taskRuns|
        invariant candidate == OldestExecution(repo.Tables(), i)
        invariant candidate.Some? ==> candidate.value < i
      {
        if QueuedExecution(repo.Tables(), i)
           && (candidate.None? || repo.taskRuns[i].createdAt < repo.taskRuns[candidate.value].createdAt) {
          candidate := Some(i);
        }
      }
    }

    /** The guarded update of the run; only when it succeeds does the task follow. */
    method ClaimExecutionIfQueued(c: nat) returns (rowCount: nat)
      requires c < |repo.taskRuns| && repo.taskRuns[c].task < |repo.tasks|
      modifies repo`tasks, repo`taskRuns
      ensures rowCount == if old(repo.taskRuns)[c].status == Queued then 1 else 0
      ensures rowCount == 0 ==> repo.Tables() == old(repo.Tables())
      ensures rowCount == 1 ==>
                && repo.taskRuns ==
                     old(repo.taskRuns)[c := old(repo.taskRuns)[c].(status := Running, startedAt := Some(repo.now))]
                && var t := old(repo.taskRuns)[c].task;
                   repo.tasks == old(repo.tasks)[t := old(repo.tasks)[t].(status := Running)]
      ensures && OldestExecution(old(repo.Tables()), |old(repo.taskRuns)|) == Some(c)
              && QueuedExecution(old(repo.Tables()), c) ==>
                repo.Tables() == ClaimExecution(old(repo.Tables())) && (old(repo.Valid()) ==> repo.Valid())
    {
      OneStep(repo.Tables(), repo.maxConcurrency, ClaimExecutionEvent);
      if repo.taskRuns[c].status != Queued { return 0; }
      repo.taskRuns := repo.taskRuns[c := repo.taskRuns[c].(status := Running, startedAt := Some(repo.now))];
      var t := repo.taskRuns[c].task;
      repo.tasks := repo.tasks[t := repo.tasks[t].(status := Running)];
      return 1;
    }

    /** One round: select, let others act, take the candidate if it is still queued. */
    method TryClaim(window: seq<Event>) returns (candidate: Option<nat>, won: bool)
      requires repo.Valid()
      modifies repo
      ensures repo.Valid() && candidate == OldestExecution(old(repo.Tables()), |old(repo.taskRuns)|)
      ensures candidate.None? ==> !won && repo.Tables() == old(repo.Tables())
      ensures candidate.Some? ==>
                var u := After(old(repo.Tables()), repo.maxConcurrency, window);
                && candidate.value < |u.taskRuns|
                && (won <==> u.taskRuns[candidate.value].status == Queued)
                && (won ==> OldestExecution(u, |u.taskRuns|) == candidate)
                && repo.Tables() == (if won then ClaimExecution(u) else u)
      ensures won ==> candidate.value < |repo.taskRuns| && repo.taskRuns[candidate.value].status == Running
    {
      ghost var t := repo.Tables();
      candidate := SelectOldestExecution();
      if candidate.None? { return candidate, false; }
      var c := candidate.value;
      ExecutionWindow(t, repo.maxConcurrency, window, c);
      repo.Interfere(window);
      ReachableIsAged(repo.Tables(), repo.maxConcurrency);
      var rowCount := ClaimExecutionIfQueued(c);
      won := rowCount == 1;
    }

    /** Compare-and-set on the execution queue; `env[i]` is what others commit between
        the select and the update of round `i`. */
    method ClaimNextQueuedExecution(env: seq<seq<Event>>) returns (claimed: Option<nat>, rounds: nat)
      requires repo.Valid()
      modifies repo
      ensures repo.Valid()
      ensures rounds <= |env| + 1
      ensures rounds <= QueueLength(old(repo.Tables()), |old(repo.taskRuns)|) + EnqueuesIn(env) + 1
      ensures var before := After(old(repo.Tables()), repo.maxConcurrency, Joined(env, rounds));
              && repo.Tables() == (if claimed.Some? then ClaimExecution(before) else before)
              && claimed == OldestExecution(before, |before.taskRuns|)
      ensures claimed.Some? ==> claimed.value < |repo.taskRuns| && repo.taskRuns[claimed.value].status == Running
      ensures claimed.None? ==> forall k: nat | k < |repo.taskRuns| :: !QueuedExecution(repo.Tables(), k)
    {
      rounds := 0;
      ghost var s, limit := repo.Tables(), repo.maxConcurrency;
      while true
        invariant repo.Valid() && rounds <= |env|
        invariant Trying(s, limit, repo.Tables(), env, rounds)
        decreases |env| - rounds
      {
        ghost var t := repo.Tables();
        EnqueuesInPrefix(env, rounds);
        ExecutionClaimIsOldest(t, |t.taskRuns|);
        var candidate, won := TryClaim(if rounds < |env| then env[rounds] else []);
        if candidate.None? { return None, rounds; }
        ClaimRound(s, limit, t, env, rounds, candidate.value);
        rounds := rounds + 1;
        if won { return candidate, rounds; }
      }
    }
  }

  /** The claim loop after some failed rounds: each has made the queue shorter. */
  ghost predicate Trying(s: Store, limit: int, t: Store, env: seq<seq<Event>>, rounds: nat)
    requires rounds <= |env|
  {
    && t == After(s, limit, Joined(env, rounds))
    && QueueLength(t, |t.taskRuns|) + rounds <= QueueLength(s, |s.taskRuns|) + EnqueuesIn(env[..rounds])
  }

  lemma ClaimRound(s: Store, limit: int, t: Store, env: seq<seq<Event>>, rounds: nat, c: nat)
    requires rounds <= |env| && Trying(s, limit, t, env, rounds) && Reachable(t, limit)
    requires OldestExecution(t, |t.taskRuns|) == Some(c)
    ensures var u := After(t, limit, if rounds < |env| then env[rounds] else []);
            && u == After(s, limit, Joined(env, rounds + 1))
            && c < |u.taskRuns| && u.taskRuns[c].task < |u.tasks|
            && (u.taskRuns[c].status == Queued ==> QueuedExecution(u, c) && OldestExecution(u, |u.taskRuns|) == Some(c))
            && (u.taskRuns[c].status != Queued ==> rounds < |env| && Trying(s, limit, u, env, rounds + 1))
    ensures rounds + 1 <= QueueLength(s, |s.taskRuns|) + EnqueuesIn(env) + 1
  {
    var window := if rounds < |env| then env[rounds] else [];
    JoinedWindow(s, limit, env, rounds);
    EnqueuesInPrefix(env, rounds);
    ExecutionWindow(t, limit, window, c);
    ReachableGoesOn(t, limit, window);
    ReachableIsAged(After(t, limit, window), limit);
    ExecutionClaimIsOldest(t, |t.taskRuns|);
    if rounds == |env| { assert After(t, limit, window) == t; }
  }

  lemma EmptyAfterReset(s: Store, limit: int, x: nat)
    requires Reachable(s, limit) && x < |s.sessions| && s.sessions[x].kind.Main?
    ensures Listing(Reset(s, x), x) == []
    ensures forall y: nat | y < |s.sessions| && y != x :: Listing(Reset(s, x), y) == Listing(s, y)
  {
    ReachableIsConsistent(s, limit);
    ResetStartsAfresh(s, x);
    SuffixIsListing(LogOf(s.messages, x), Reset(s, x).sessions[x].conversation, |LogOf(s.messages, x)|);
  }

  function EnqueuesIn(env: seq<seq<Event>>): nat {
    if |env| == 0 then 0 else EnqueuesIn(env[..|env|-1]) + Enqueues(env[|env|-1])
  }

  lemma {:induction false} EnqueuesInPrefix(env: seq<seq<Event>>, n: nat)
    requires n <= |env|
    ensures EnqueuesIn(env[..n]) <= EnqueuesIn(env)
    ensures n < |env| ==> EnqueuesIn(env[..n+1]) == EnqueuesIn(env[..n]) + Enqueues(env[n])
    decreases |env|
  {
    if n < |env| {
      assert env[..n+1][..n] == env[..n];
      EnqueuesInPrefix(env[..|env|-1], n);
      assert env[..|env|-1][..n] == env[..n];
    } else {
      assert env[..n] == env;
    }
  }
}
