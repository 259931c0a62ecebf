/** The activity timeline: keyset paging by (created_at, id), newest first. */
module ActivityTimeline {
  import opened Tables
  import opened Sorting

  /** A task run as the timeline sees it; `shown` says that it belongs to the agent
      and is not a heartbeat. */
  datatype Row = Row(created: int, id: nat, shown: bool)

  predicate NotAfter(a: Row, b: Row) {
    a.created > b.created || (a.created == b.created && a.id >= b.id)
  }

  /** `b` comes strictly later in the timeline than the cursor row `a`. */
  predicate Passed(a: Row, b: Row) {
    b.created < a.created || (b.created == a.created && b.id < a.id)
  }

  const NewestFirst := (a: Row, b: Row) => NotAfter(a, b)

  function Candidates(rows: seq<Row>, cursor: Option<Row>): seq<Row> {
    if |rows| == 0 then [] else
    var last := rows[|rows|-1];
    Candidates(rows[..|rows|-1], cursor)
    + if last.shown && (cursor.None? || Passed(cursor.value, last)) then [last] else []
  }

  predicate DistinctIds(rows: seq<Row>) {
    forall i: nat, j: nat | i < j < |rows| :: rows[i].id != rows[j].id
  }

  /** Strictly newest first: in particular no row twice. */
  ghost predicate Descending(rows: seq<Row>) {
    forall i: nat, j: nat | i < j < |rows| :: Passed(rows[i], rows[j])
  }

  lemma {:induction false} CandidatesAre(rows: seq<Row>, cursor: Option<Row>)
    requires DistinctIds(rows)
    ensures forall r: Row :: r in Candidates(rows, cursor) <==>
              r in rows && r.shown && (cursor.None? || Passed(cursor.value, r))
    ensures DistinctIds(Candidates(rows, cursor)) && Distinct(Candidates(rows, cursor))
  {
    if |rows| > 0 {
      var init := rows[..|rows|-1];
      var cs := Candidates(init, cursor);
      CandidatesAre(init, cursor);
      assert rows == init + [rows[|rows|-1]];
      forall i: nat | i < |cs| ensures cs[i].id != rows[|rows|-1].id {
        assert cs[i] in init;
      }
    }
  }

  lemma NewestFirstIsTotal()
    ensures TotalPreorder(NewestFirst)
  {}

  /** The whole rest of the timeline below a cursor. */
  function Rest(rows: seq<Row>, cursor: Option<Row>): seq<Row> {
    Sort(Candidates(rows, cursor), NewestFirst)
  }

  lemma RestIsDescending(rows: seq<Row>, cursor: Option<Row>)
    requires DistinctIds(rows)
    ensures Descending(Rest(rows, cursor))
    ensures forall r: Row :: r in Rest(rows, cursor) <==>
              r in rows && r.shown && (cursor.None? || Passed(cursor.value, r))
  {
    var cs := Candidates(rows, cursor);
    CandidatesAre(rows, cursor);
    NewestFirstIsTotal();
    SortSorts(cs, NewestFirst);
    SortKeepsMembers(cs, NewestFirst);
    SortKeepsDistinct(cs, NewestFirst);
    var rest := Rest(rows, cursor);
    forall i: nat, j: nat | i < j < |rest| ensures Passed(rest[i], rest[j]) {
      assert NewestFirst(rest[i], rest[j]);
      assert rest[i] in cs && rest[j] in cs;
      SameIdSameRow(cs, rest[i], rest[j]);
    }
  }

  lemma SameIdSameRow(rows: seq<Row>, a: Row, b: Row)
    requires DistinctIds(rows) && a in rows && b in rows
    ensures a.id == b.id ==> a == b
  {}

  class ActivityRepository {
    var rows: seq<Row>

    ghost predicate Valid()
      reads this
    {
      DistinctIds(rows)
    }

    constructor ()
      ensures Valid() && rows == []
    {
      rows := [];
    }

    /** Other actors create task runs. */
    method Insert(more: seq<Row>)
      requires Valid() && DistinctIds(rows + more)
      modifies this
      ensures Valid() && rows == old(rows) + more
    {
      rows := rows + more;
    }

    method ListRecentTaskRunsPage(limit: nat, cursor: Option<Row>) returns (page: seq<Row>)
      ensures page == Rest(rows, cursor)[..if |Rest(rows, cursor)| < limit then |Rest(rows, cursor)| else limit]
    {
      var selected := [];
      for i := 0 to |rows|
        invariant selected == Candidates(rows[..i], cursor)
      {
        assert rows[..i+1][..i] == rows[..i];
        var row := rows[i];
        if row.shown && (cursor.None? || Passed(cursor.value, row)) { selected := selected + [row]; }
      }
      assert rows[..|rows|] == rows;
      page := Sort(selected, NewestFirst);
      if |page| > limit { page := page[..limit]; }
    }

    /** One page of the timeline and the cursor of the next. */
    method GetTimeline(limit: nat, cursor: Option<Row>) returns (items: seq<Row>, next: Option<Row>)
      ensures var rest := Rest(rows, cursor);
              && items == rest[..if |rest| < limit then |rest| else limit]
              && next == if |rest| > limit && limit > 0 then Some(rest[limit-1]) else None
      ensures DistinctIds(rows) ==> forall i: nat, j: nat | i < j < |items| ::
                && items[i].created >= items[j].created
                && (items[i].created == items[j].created ==> items[i].id > items[j].id)
      ensures DistinctIds(rows) ==> forall r: Row | r in items ::
                && r in rows && r.shown
                && (cursor.Some? ==> r.created < cursor.value.created
                                     || (r.created == cursor.value.created && r.id < cursor.value.id))
    {
      if DistinctIds(rows) { RestIsDescending(rows, cursor); }
      var page := ListRecentTaskRunsPage(limit + 1, cursor);
      var hasMore := |page| > limit;
      items := if hasMore then page[..limit] else page;
      next := if hasMore && items != [] then Some(items[|items|-1]) else None;
    }

    /** A client follows the cursors while task runs keep being created, `env[i]` after
        the i-th fetch.  It visits no row twice, every row of the first snapshot exactly
        once, and, when everything created meanwhile is newer than that snapshot,
        nothing else. */
    method WalkTimeline(limit: nat, env: seq<seq<Row>>) returns (visited: seq<Row>)
      requires Valid() && limit >= 1
      requires forall n: nat | n <= |env| :: DistinctIds(rows + Flat(env[..n]))
      modifies this
      ensures Valid()
      ensures Descending(visited)
      ensures forall r: Row | r in old(rows) && r.shown :: r in visited
      ensures forall r: Row | r in visited :: r.shown && r in rows
      ensures exists n: nat :: n <= |env| && rows == old(rows) + Flat(env[..n])
      ensures (forall r: Row, q: Row | r in old(rows) && q in Flat(env) :: Passed(q, r)) ==>
                visited == Rest(old(rows), None)
    {
      ghost var start := rows;
      visited := [];
      var cursor := None;
      var n := 0;
      assert env[..0] == [] && start + [] == start;
      while true
        invariant Snapshot(start, env, n, rows)
        invariant Walking(start, env, n, rows, visited, cursor)
        decreases |env| - n, |Rest(rows, cursor)|
      {
        WalkRound(start, env, n, rows, visited, cursor, limit);
        var items, next := GetTimeline(limit, cursor);
        visited := visited + items;
        if next.None? { return; }
        cursor := next;
        if n < |env| {
          NewerRowsKeepWalking(start, env, n, rows, visited, cursor);
          Insert(env[n]);
          n := n + 1;
        }
      }
    }
  }

  /** The rows after the first `n` insertions. */
  ghost predicate Snapshot(start: seq<Row>, env: seq<seq<Row>>, n: nat, rows: seq<Row>) {
    n <= |env| && rows == start + Flat(env[..n]) && DistinctIds(rows) && (n == 0 ==> rows == start)
  }

  /** Where the walk stands before a fetch. */
  ghost predicate Walking(
    start: seq<Row>, env: seq<seq<Row>>, n: nat, rows: seq<Row>, visited: seq<Row>, cursor: Option<Row>)
  {
    && Descending(visited)
    && (forall r: Row | r in visited :: r.shown && r in rows)
    && Caught(start, visited, cursor)
    && (if cursor.Some? then visited != [] && cursor.value == visited[|visited|-1] else visited == [] && n == 0)
    && (AllNewer(start, env) ==> forall r: Row | r in visited :: r in start)
  }

  lemma WalkRound(
    start: seq<Row>, env: seq<seq<Row>>, n: nat, rows: seq<Row>, visited: seq<Row>, cursor: Option<Row>, limit: nat)
    requires Snapshot(start, env, n, rows) && limit >= 1
    requires Walking(start, env, n, rows, visited, cursor)
    ensures var rest := Rest(rows, cursor);
            var items := rest[..if |rest| < limit then |rest| else limit];
            if |rest| > limit then
              && Walking(start, env, n, rows, visited + items, Some(rest[limit-1]))
              && |Rest(rows, Some(rest[limit-1]))| < |rest|
            else
              && Descending(visited + items)
              && (forall r: Row | r in start && r.shown :: r in visited + items)
              && (forall r: Row | r in visited + items :: r.shown && r in rows)
              && (AllNewer(start, env) ==> visited + items == Rest(start, None))
  {
    var rest := Rest(rows, cursor);
    var items := rest[..if |rest| < limit then |rest| else limit];
    FetchExtends(start, rows, visited, cursor, limit);
    if AllNewer(start, env) {
      NewRowsStayAhead(start, env, n, rows, visited, cursor);
      forall r: Row | r in visited + items ensures r in start {
        if r in items { assert r in rest; }
      }
      if |rest| <= limit { VisitedIsSnapshot(start, visited + items); }
    }
    if |rest| > limit { ShorterRest(rows, cursor, limit); }
  }

  lemma NewerRowsKeepWalking(
    start: seq<Row>, env: seq<seq<Row>>, n: nat, rows: seq<Row>, visited: seq<Row>, cursor: Option<Row>)
    requires n < |env| && cursor.Some? && Snapshot(start, env, n, rows) && Walking(start, env, n, rows, visited, cursor)
    requires DistinctIds(start + Flat(env[..n+1]))
    ensures Walking(start, env, n + 1, rows + env[n], visited, cursor)
    ensures Snapshot(start, env, n + 1, rows + env[n])
  {
    FlatNext(env, n);
    assert (start + Flat(env[..n])) + env[n] == start + (Flat(env[..n]) + env[n]);
  }

  function Flat(env: seq<seq<Row>>): seq<Row> {
    if |env| == 0 then [] else Flat(env[..|env|-1]) + env[|env|-1]
  }

  lemma FlatNext(env: seq<seq<Row>>, n: nat)
    requires n < |env|
    ensures Flat(env[..n+1]) == Flat(env[..n]) + env[n]
  {
    assert env[..n+1][..n] == env[..n];
  }

  /** Every row of the snapshot that is not below the cursor has been visited. */
  ghost predicate Caught(start: seq<Row>, visited: seq<Row>, cursor: Option<Row>) {
    forall r: Row | r in start && r.shown && cursor.Some? && !Passed(cursor.value, r) :: r in visited
  }

  ghost predicate AllNewer(start: seq<Row>, env: seq<seq<Row>>) {
    forall r: Row, q: Row | r in start && q in Flat(env) :: Passed(q, r)
  }

  lemma FetchExtends(start: seq<Row>, rows: seq<Row>, visited: seq<Row>, cursor: Option<Row>, limit: nat)
    requires DistinctIds(rows) && start <= rows && limit >= 1
    requires Descending(visited) && Caught(start, visited, cursor)
    requires if cursor.Some? then visited != [] && cursor.value == visited[|visited|-1] else visited == []
    ensures var rest := Rest(rows, cursor);
            var items := rest[..if |rest| < limit then |rest| else limit];
            && Descending(visited + items)
            && (|rest| > limit ==> Caught(start, visited + items, Some(rest[limit-1])))
            && (|rest| <= limit ==> forall r: Row | r in start && r.shown :: r in visited + items)
            && (forall r: Row | r in items :: r.shown && r in rows)
            && (items != [] ==> (visited + items)[|visited + items| - 1] == items[|items|-1])
  {
    RestIsDescending(rows, cursor);
    PageExtends(start, rows, visited, cursor, limit, Rest(rows, cursor));
  }

  /** The same for any descending listing of exactly the shown rows below the cursor. */
  lemma PageExtends(start: seq<Row>, rows: seq<Row>, visited: seq<Row>, cursor: Option<Row>, limit: nat, rest: seq<Row>)
    requires start <= rows && limit >= 1 && Descending(visited) && Caught(start, visited, cursor)
    requires if cursor.Some? then visited != [] && cursor.value == visited[|visited|-1] else visited == []
    requires Descending(rest)
    requires forall r: Row :: r in rest <==> r in rows && r.shown && (cursor.None? || Passed(cursor.value, r))
    ensures var items := rest[..if |rest| < limit then |rest| else limit];
            && Descending(visited + items)
            && (|rest| > limit ==> Caught(start, visited + items, Some(rest[limit-1])))
            && (|rest| <= limit ==> forall r: Row | r in start && r.shown :: r in visited + items)
            && (forall r: Row | r in items :: r.shown && r in rows)
            && (items != [] ==> (visited + items)[|visited + items| - 1] == items[|items|-1])
  {
    var items := rest[..if |rest| < limit then |rest| else limit];
    assert forall k: nat | k < |items| :: items[k] in rest;
    LaterRowsFollow(visited, items, cursor);
    forall r: Row | r in start && r.shown && r !in visited
      ensures r in items || (|rest| > limit && Passed(rest[limit-1], r))
    {
      assert r in rows;
      assert r in rest;
      var k: nat :| k < |rest| && rest[k] == r;
      if k < |items| { assert items[k] == r; }
    }
    forall r: Row | r in items ensures r.shown && r in rows { assert r in rest; }
  }

  /** Rows below the cursor continue a descending listing that ends there. */
  lemma LaterRowsFollow(visited: seq<Row>, items: seq<Row>, cursor: Option<Row>)
    requires Descending(visited) && Descending(items)
    requires if cursor.Some? then visited != [] && cursor.value == visited[|visited|-1] else visited == []
    requires forall k: nat | k < |items| :: cursor.None? || Passed(cursor.value, items[k])
    ensures Descending(visited + items)
  {
    forall i: nat, j: nat | i < j < |visited + items|
      ensures Passed((visited + items)[i], (visited + items)[j])
    {
      if i < |visited| <= j {
        assert Passed(cursor.value, items[j - |visited|]);
        if i < |visited| - 1 { assert Passed(visited[i], cursor.value); }
      }
    }
  }

  lemma ShorterRest(rows: seq<Row>, cursor: Option<Row>, limit: nat)
    requires DistinctIds(rows) && 1 <= limit < |Rest(rows, cursor)|
    ensures |Rest(rows, Some(Rest(rows, cursor)[limit-1]))| < |Rest(rows, cursor)|
  {
    var rest := Rest(rows, cursor);
    var at := rest[limit-1];
    var fewer := Rest(rows, Some(at));
    RestIsDescending(rows, cursor);
    RestIsDescending(rows, Some(at));
    forall r: Row | r in fewer ensures r in rest[limit..] {
      assert r in rest by { if cursor.Some? { assert at in rest; } }
      var k: nat :| k < |rest| && rest[k] == r;
      assert forall i: nat | i < limit - 1 :: Passed(rest[i], at);
      assert k >= limit;
      assert rest[limit..][k - limit] == r;
    }
    DescendingFits(fewer, rest[limit..]);
  }

  lemma DescendingFits(a: seq<Row>, b: seq<Row>)
    requires Descending(a) && forall r: Row | r in a :: r in b
    ensures |a| <= |b|
  {
    var sa := set r: Row | r in a;
    var sb := set r: Row | r in b;
    assert sa <= sb;
    DescendingSize(a);
    SetSize(b);
    SubsetSize(sa, sb);
  }

  lemma SubsetSize(a: set<Row>, b: set<Row>)
    requires a <= b
    ensures |a| <= |b|
  {
    assert b == a + (b - a);
  }

  lemma {:induction false} DescendingSize(a: seq<Row>)
    requires Descending(a)
    ensures |set r: Row | r in a| == |a|
  {
    if |a| > 0 {
      var n := |a| - 1;
      DescendingSize(a[..n]);
      assert (set r: Row | r in a) == (set r: Row | r in a[..n]) + {a[n]};
      assert a[n] !in a[..n];
    }
  }

  lemma {:induction false} SetSize(b: seq<Row>)
    ensures |set r: Row | r in b| <= |b|
  {
    if |b| > 0 {
      var n := |b| - 1;
      SetSize(b[..n]);
      assert (set r: Row | r in b) == (set r: Row | r in b[..n]) + {b[n]};
    }
  }

  lemma {:induction false} FlatContains(env: seq<seq<Row>>, n: nat, r: Row)
    requires n <= |env| && r in Flat(env[..n])
    ensures r in Flat(env)
    decreases |env| - n
  {
    if n < |env| {
      FlatNext(env, n);
      FlatContains(env, n + 1, r);
    } else {
      assert env[..n] == env;
    }
  }

  /** Rows that are all newer than the snapshot are never below a cursor inside it. */
  lemma NewRowsStayAhead(start: seq<Row>, env: seq<seq<Row>>, n: nat, rows: seq<Row>, visited: seq<Row>,
      cursor: Option<Row>)
    requires AllNewer(start, env) && n <= |env| && rows == start + Flat(env[..n]) && DistinctIds(rows)
    requires cursor.Some? ==> cursor.value in start
    requires cursor.None? ==> rows == start
    ensures forall r: Row | r in Rest(rows, cursor) :: r in start
  {
    RestIsDescending(rows, cursor);
    forall r: Row | r in Rest(rows, cursor) ensures r in start {
      if r !in start {
        FlatContains(env, n, r);
      }
    }
  }

  lemma HeadComesOnce(a: seq<Row>)
    requires Descending(a) && |a| > 0
    ensures a[0] !in a[1..]
    ensures forall r: Row | r in a :: r == a[0] || Passed(a[0], r)
  {}

  /** Two descending listings of the same rows are the same. */
  lemma {:induction false} DescendingIsUnique(a: seq<Row>, b: seq<Row>)
    requires Descending(a) && Descending(b)
    requires forall r: Row :: r in a <==> r in b
    ensures a == b
  {
    if |a| == 0 {
      DescendingFits(b, a);
    } else {
      assert a[0] in b;
      assert |b| > 0 && b[0] in a;
      assert a[0] == b[0];
      HeadComesOnce(a);
      HeadComesOnce(b);
      assert a == [a[0]] + a[1..] && b == [b[0]] + b[1..];
      forall r: Row ensures r in a[1..] <==> r in b[1..] {
        assert r in a <==> r in b;
      }
      DescendingIsUnique(a[1..], b[1..]);
    }
  }

  lemma VisitedIsSnapshot(start: seq<Row>, visited: seq<Row>)
    requires DistinctIds(start) && Descending(visited)
    requires forall r: Row | r in start && r.shown :: r in visited
    requires forall r: Row | r in visited :: r in start && r.shown
    ensures visited == Rest(start, None)
  {
    RestIsDescending(start, None);
    DescendingIsUnique(visited, Rest(start, None));
  }
}
