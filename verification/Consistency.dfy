/** All invariants together, and what the claim loop needs from interference. */
module Consistency {
  import opened Tables
  import opened Transitions
  import opened Protocol
  import opened Lifecycle
  import opened Agreement
  import opened MessageLog

  /** No run was created in the future. */
  ghost predicate ClockAhead(s: Store) {
    forall r: nat | r < |s.runs| :: s.runs[r].createdAt <= s.now
  }

  ghost predicate Consistent(s: Store, limit: int) {
    Invariant(s, limit) && Attachments(s) && LogInvariant(s) && StampedWhenClaimed(s) && ClockAhead(s)
  }

  lemma StepKeepsClock(s: Store, limit: int, e: Event)
    requires RunStatuses(s) && ClockAhead(s)
    ensures ClockAhead(Step(s, limit, e)) && s.now <= Step(s, limit, e).now
    ensures var t := Step(s, limit, e); forall r: nat | |s.runs| <= r < |t.runs| :: s.now <= t.runs[r].createdAt
  {
    StepAdvances(s, limit, e);
    if !WritesRuns(e) {
      OtherStepsKeepRuns(s, limit, e);
    } else {
      NewRunsAreUnattached(s, limit, e);
      assert Step(s, limit, e).now == s.now;
      var t := Step(s, limit, e);
      forall r: nat | r < |s.runs| ensures t.runs[r].createdAt <= t.now {
        assert Advances(s.runs[r], t.runs[r]);
      }
    }
  }

  lemma StepKeepsConsistent(s: Store, limit: int, e: Event)
    requires Consistent(s, limit)
    ensures Consistent(Step(s, limit, e), limit)
  {
    StepKeepsInvariant(s, limit, e);
    StepKeepsAttachments(s, limit, e);
    StepKeepsLog(s, limit, e);
    StepCountsClaims(s, limit, e, 0);
    StepKeepsClock(s, limit, e);
  }

  lemma {:induction false} AlwaysConsistent(s: Store, limit: int, es: seq<Event>)
    requires Consistent(s, limit)
    ensures Consistent(After(s, limit, es), limit)
    ensures s.now <= After(s, limit, es).now
    decreases |es|
  {
    if |es| > 0 {
      StepKeepsConsistent(s, limit, es[0]);
      StepKeepsClock(s, limit, es[0]);
      AlwaysConsistent(Step(s, limit, es[0]), limit, es[1..]);
    }
  }

  lemma EmptyStoreConsistent(limit: int)
    ensures Consistent(EmptyStore, limit)
  {
    EmptyStoreSatisfiesInvariant(limit);
  }

  // --------------------------------------------- the window of the claim loop

  function QueuedCount(runs: seq<Run>): nat {
    if |runs| == 0 then 0
    else QueuedCount(runs[..|runs|-1]) + if runs[|runs|-1].status == Queued then 1 else 0
  }

  lemma {:induction false} QueueShrinks(before: seq<Run>, after: seq<Run>, r: nat)
    requires |before| <= |after|
    requires forall q: nat | q < |before| :: Advances(before[q], after[q])
    ensures QueuedCount(after) <= QueuedCount(before) + |after| - |before|
    ensures r < |before| && before[r].status == Queued && after[r].status != Queued ==>
              QueuedCount(after) + 1 <= QueuedCount(before) + |after| - |before|
    decreases |after|
  {
    if |after| > 0 {
      var n := |after| - 1;
      if |before| == |after| {
        assert Advances(before[n], after[n]);
        QueueShrinks(before[..n], after[..n], r);
      } else {
        QueueShrinks(before, after[..n], r);
      }
    }
  }

  /** Rows that a history adds are created during that history. */
  lemma {:induction false} HistoryGrows(s: Store, limit: int, es: seq<Event>)
    requires Consistent(s, limit)
    ensures var t := After(s, limit, es);
            && |s.runs| <= |t.runs| <= |s.runs| + Spawns(es)
            && (forall r: nat | r < |s.runs| :: Advances(s.runs[r], t.runs[r]))
            && (forall r: nat | |s.runs| <= r < |t.runs| :: s.now <= t.runs[r].createdAt)
    decreases |es|
  {
    if |es| > 0 {
      var u := Step(s, limit, es[0]);
      StepKeepsConsistent(s, limit, es[0]);
      StepKeepsClock(s, limit, es[0]);
      StepAdvances(s, limit, es[0]);
      StepAddsOnlySpawns(s, limit, es[0]);
      HistoryGrows(u, limit, es[1..]);
      GrowthComposes(s, u, After(u, limit, es[1..]));
    }
  }

  lemma StepAddsOnlySpawns(s: Store, limit: int, e: Event)
    ensures |Step(s, limit, e).runs| <= |s.runs| + if e.SpawnEvent? then 1 else 0
  {
    if !WritesRuns(e) { OtherStepsKeepRuns(s, limit, e); }
  }

  lemma GrowthComposes(s: Store, u: Store, t: Store)
    requires |s.runs| <= |u.runs| <= |t.runs| && s.now <= u.now
    requires forall r: nat | r < |s.runs| :: Advances(s.runs[r], u.runs[r])
    requires forall r: nat | r < |u.runs| :: Advances(u.runs[r], t.runs[r])
    requires forall r: nat | |s.runs| <= r < |u.runs| :: s.now <= u.runs[r].createdAt
    requires forall r: nat | |u.runs| <= r < |t.runs| :: u.now <= t.runs[r].createdAt
    ensures forall r: nat | r < |s.runs| :: Advances(s.runs[r], t.runs[r])
    ensures forall r: nat | |s.runs| <= r < |t.runs| :: s.now <= t.runs[r].createdAt
  {
    forall r: nat | r < |s.runs| ensures Advances(s.runs[r], t.runs[r]) {
      assert Advances(s.runs[r], u.runs[r]) && Advances(u.runs[r], t.runs[r]);
    }
    forall r: nat | |s.runs| <= r < |t.runs| ensures s.now <= t.runs[r].createdAt {
      if r < |u.runs| { assert Advances(u.runs[r], t.runs[r]); }
    }
  }

  /** A candidate that is still queued after interference is still the oldest. */
  lemma CandidateStaysOldest(s: Store, limit: int, es: seq<Event>, c: nat)
    requires Consistent(s, limit)
    requires OldestQueued(s.runs) == Some(c)
    requires c < |After(s, limit, es).runs| && After(s, limit, es).runs[c].status == Queued
    ensures OldestQueued(After(s, limit, es).runs) == Some(c)
  {
    HistoryGrows(s, limit, es);
    OldestStaysOldest(s.runs, After(s, limit, es).runs, s.now, c);
  }

  lemma OldestStaysOldest(before: seq<Run>, after: seq<Run>, now: int, c: nat)
    requires |before| <= |after| && OldestQueued(before) == Some(c)
    requires forall r: nat | r < |before| :: Advances(before[r], after[r]) && before[r].createdAt <= now
    requires forall r: nat | |before| <= r < |after| :: now <= after[r].createdAt
    requires c < |after| && after[c].status == Queued
    ensures OldestQueued(after) == Some(c)
  {
    ClaimIsOldest(before);
    ClaimIsOldest(after);
    var d := OldestQueued(after).value;
    assert Advances(before[c], after[c]);
    if d < |before| { assert Advances(before[d], after[d]); }
  }

  // ------------------------------------------------------------- reachability

  /** Some history of transactions produces these tables. */
  ghost predicate Reachable(s: Store, limit: int) {
    exists es: seq<Event> :: s == After(EmptyStore, limit, es)
  }

  lemma NothingHappened(limit: int)
    ensures Reachable(EmptyStore, limit)
  {
    assert EmptyStore == After(EmptyStore, limit, []);
  }

  lemma ReachableGoesOn(s: Store, limit: int, es: seq<Event>)
    requires Reachable(s, limit)
    ensures Reachable(After(s, limit, es), limit)
  {
    var before: seq<Event> :| s == After(EmptyStore, limit, before);
    AfterConcat(EmptyStore, limit, before, es);
    assert After(s, limit, es) == After(EmptyStore, limit, before + es);
  }

  lemma OneStep(s: Store, limit: int, e: Event)
    ensures After(s, limit, [e]) == Step(s, limit, e)
    ensures Reachable(s, limit) ==> Reachable(Step(s, limit, e), limit)
  {
    AfterCons(s, limit, e, []);
    assert [e] + [] == [e];
    if Reachable(s, limit) { ReachableGoesOn(s, limit, [e]); }
  }

  lemma ThenOne(s: Store, limit: int, es: seq<Event>, e: Event)
    ensures After(s, limit, es + [e]) == Step(After(s, limit, es), limit, e)
    ensures Reachable(s, limit) ==> Reachable(After(s, limit, es + [e]), limit)
  {
    AfterConcat(s, limit, es, [e]);
    OneStep(After(s, limit, es), limit, e);
    if Reachable(s, limit) { ReachableGoesOn(s, limit, es + [e]); }
  }

  lemma ReachableIsConsistent(s: Store, limit: int)
    requires Reachable(s, limit)
    ensures Consistent(s, limit)
  {
    var es: seq<Event> :| s == After(EmptyStore, limit, es);
    EmptyStoreConsistent(limit);
    AlwaysConsistent(EmptyStore, limit, es);
  }

  /** A run through a history: same lineage, rank never rising. */
  lemma RunThroughHistory(s: Store, limit: int, es: seq<Event>, r: nat)
    requires Reachable(s, limit) && r < |s.runs|
    ensures var t := After(s, limit, es);
            && |s.runs| <= |t.runs| && Advances(s.runs[r], t.runs[r])
            && (t.runs[r].status in {Queued, Running} || Terminal(t.runs[r].status))
            && (s.runs[r].status == Queued || s.runs[r].status == Running || Terminal(s.runs[r].status))
            && s.runs[r].child < |s.sessions| && s.runs[r].launcher < |s.sessions|
            && s.sessions[s.runs[r].child].parent == Some(s.runs[r].launcher)
  {
    ReachableIsConsistent(s, limit);
    HistoryGrows(s, limit, es);
    AlwaysConsistent(s, limit, es);
    assert RunShape(s, r);
  }

  /** One round of the claim loop: what the interference in its window can do. */
  lemma ClaimWindow(s: Store, limit: int, window: seq<Event>, c: nat)
    requires Reachable(s, limit) && OldestQueued(s.runs) == Some(c)
    ensures var t := After(s, limit, window);
            && c < |t.runs|
            && (t.runs[c].status == Queued ==> OldestQueued(t.runs) == Some(c))
            && (t.runs[c].status == Queued ==> QueuedCount(t.runs) <= QueuedCount(s.runs) + Spawns(window))
            && (t.runs[c].status != Queued ==> QueuedCount(t.runs) + 1 <= QueuedCount(s.runs) + Spawns(window))
  {
    var t := After(s, limit, window);
    ReachableIsConsistent(s, limit);
    ClaimIsOldest(s.runs);
    HistoryGrows(s, limit, window);
    QueueShrinks(s.runs, t.runs, c);
    if t.runs[c].status == Queued { CandidateStaysOldest(s, limit, window, c); }
  }
}
