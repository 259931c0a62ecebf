/** Listing messages page by page, while others keep writing. */
module MessagePaging {
  import opened Tables
  import opened Transitions
  import opened Protocol
  import opened MessageLog
  import opened Consistency
  import opened SubagentRepository

  function Reversed<T>(s: seq<T>): (r: seq<T>)
    ensures |r| == |s| && forall i: nat | i < |s| :: r[i] == s[|s| - 1 - i]
  {
    if |s| == 0 then [] else Reversed(s[1..]) + [s[0]]
  }

  /** The rows a query on a session, a conversation and a cursor selects. */
  function Selected(messages: seq<Message>, x: nat, c: nat, before: Option<nat>): seq<Message> {
    Below(InConversation(LogOf(messages, x), c), before)
  }

  predicate Matches(m: Message, x: nat, c: nat, before: Option<nat>) {
    m.session == x && m.conversation == c && (before.None? || m.sequence < before.value)
  }

  lemma SelectedNext(messages: seq<Message>, x: nat, c: nat, before: Option<nat>, i: nat)
    requires i < |messages|
    ensures Selected(messages[..i+1], x, c, before)
         == Selected(messages[..i], x, c, before) + if Matches(messages[i], x, c, before) then [messages[i]] else []
  {
    var m := messages[i];
    assert messages[..i+1][..i] == messages[..i];
    var log := LogOf(messages[..i], x);
    if m.session == x {
      assert LogOf(messages[..i+1], x) == log + [m];
      assert (log + [m])[..|log|] == log;
      var rows := InConversation(log, c);
      if m.conversation == c {
        assert InConversation(log + [m], c) == rows + [m];
        assert (rows + [m])[..|rows|] == rows;
      } else {
        assert InConversation(log + [m], c) == rows + [] == rows;
      }
    } else {
      assert LogOf(messages[..i+1], x) == log + [] == log;
    }
  }

  /** One more row of a scan from the newest backwards. */
  lemma NewestNext(messages: seq<Message>, x: nat, c: nat, before: Option<nat>, i: nat, rows: seq<Message>)
    requires i < |messages|
    ensures Selected(messages[..i+1], x, c, before) + Reversed(rows)
         == Selected(messages[..i], x, c, before)
            + Reversed(if Matches(messages[i], x, c, before) then rows + [messages[i]] else rows)
  {
    SelectedNext(messages, x, c, before, i);
    if Matches(messages[i], x, c, before) {
      assert Reversed(rows + [messages[i]]) == [messages[i]] + Reversed(rows);
    }
  }

  lemma TailOfSum<T>(a: seq<T>, b: seq<T>)
    ensures (a + b)[|a + b| - |b|..] == b
  {}

  class MessageReader {
    const repo: Repository

    constructor (repo: Repository)
      ensures this.repo == repo
    {
      this.repo := repo;
    }

    /** All matching rows, oldest first. */
    method SelectAscending(x: nat, c: nat, before: Option<nat>) returns (rows: seq<Message>)
      ensures rows == Selected(repo.messages, x, c, before)
    {
      rows := [];
      for i := 0 to |repo.messages|
        invariant rows == Selected(repo.messages[..i], x, c, before)
      {
        SelectedNext(repo.messages, x, c, before, i);
        if Matches(repo.messages[i], x, c, before) { rows := rows + [repo.messages[i]]; }
      }
      assert repo.messages[..|repo.messages|] == repo.messages;
    }

    /** At most `count` matching rows, newest first. */
    method SelectNewest(x: nat, c: nat, before: Option<nat>, count: nat) returns (rows: seq<Message>)
      ensures var all := Selected(repo.messages, x, c, before);
              && |rows| == (if |all| < count then |all| else count)
              && Reversed(rows) == all[|all| - |rows|..]
    {
      rows := [];
      var i := |repo.messages|;
      assert repo.messages[..i] == repo.messages;
      while i > 0 && |rows| < count
        invariant i <= |repo.messages| && |rows| <= count
        invariant Selected(repo.messages, x, c, before) == Selected(repo.messages[..i], x, c, before) + Reversed(rows)
      {
        i := i - 1;
        NewestNext(repo.messages, x, c, before, i, rows);
        if Matches(repo.messages[i], x, c, before) { rows := rows + [repo.messages[i]]; }
      }
      assert i == 0 ==> Selected(repo.messages[..i], x, c, before) == [];
      TailOfSum(Selected(repo.messages[..i], x, c, before), Reversed(rows));
    }

    /** One fetch: a page, whether older rows remain, and the cursor of the next page. */
    method ListMessages(x: nat, limit: Option<nat>, before: Option<nat>)
      returns (items: seq<Message>, hasMore: bool, next: Option<nat>)
      ensures x >= |repo.sessions| ==> items == [] && !hasMore && next.None?
      ensures x < |repo.sessions| ==> Page(items, hasMore, next) == PageOf(Listing(repo.Tables(), x), limit, before)
      ensures x < |repo.sessions| && limit.None? && before.None? ==> items == Listing(repo.Tables(), x)
      ensures x < |repo.sessions| && limit.None? ==>
                forall m: Message :: m in items <==>
                  m in Listing(repo.Tables(), x) && (before.None? || m.sequence < before.value)
    {
      if x >= |repo.sessions| { return [], false, None; }
      var c := repo.sessions[x].conversation;
      if limit.None? {
        items := SelectAscending(x, c, before);
        BelowAre(Listing(repo.Tables(), x), before);
        return items, false, None;
      }
      var rows := SelectNewest(x, c, before, limit.value + 1);
      hasMore := |rows| > limit.value;
      ghost var all := Selected(repo.messages, x, c, before);
      if hasMore {
        items := Reversed(rows[..limit.value]);
        assert items == Reversed(rows)[1..];
        assert items == all[|all| - limit.value..];
      } else {
        items := Reversed(rows);
        assert items == all;
      }
      next := if hasMore && items != [] then Some(items[0].sequence) else None;
    }

    /** A client follows the cursors from the newest page back, while others act in
        `env[i]` after the i-th fetch.  The pages, oldest first, are exactly the listing
        at the first fetch: no gap, no repeat, however much is appended meanwhile. */
    method WalkMessages(x: nat, limit: nat, env: seq<seq<Event>>) returns (collected: seq<Message>, fetches: nat)
      requires repo.Valid() && x < |repo.sessions| && limit >= 1
      requires forall w: seq<Event> | w in env :: NoReset(w, x)
      modifies repo
      ensures repo.Valid()
      ensures fetches >= 1
      ensures collected == Listing(old(repo.Tables()), x)
      ensures (fetches - 1) * limit <= |collected| <= fetches * limit
      ensures |collected| > 0 ==> (fetches - 1) * limit < |collected|
    {
      ghost var rows := Listing(repo.Tables(), x);
      ghost var left: nat := |rows|;
      ghost var listed := rows;
      ListingAfter(repo.Tables(), repo.maxConcurrency, [], x);
      collected, fetches := [], 0;
      var cursor := None;
      while true
        invariant repo.Valid() && x < |repo.sessions|
        invariant listed == Listing(repo.Tables(), x) && Ascending(listed)
        invariant WalkedBack(rows, listed, left, limit, fetches, collected, cursor)
        decreases left + if fetches == 0 then 1 else 0
      {
        var items, hasMore, next := NextPage(x, limit, cursor, listed, rows, left, fetches, collected);
        collected := items + collected;
        fetches := fetches + 1;
        if !hasMore { return; }
        left := left - limit;
        cursor := next;
        ghost var before := listed;
        listed := OthersAct(if fetches - 1 < |env| then env[fetches-1] else [], x);
        GrownWalk(rows, before, listed, left, limit, fetches, collected, cursor);
      }
    }

    /** A fetch of the walk, seen from the rows that are still to come. */
    method NextPage(
      x: nat, limit: nat, cursor: Option<nat>, ghost listed: seq<Message>, ghost rows: seq<Message>, ghost left: nat,
      ghost fetches: nat, ghost collected: seq<Message>)
      returns (items: seq<Message>, hasMore: bool, next: Option<nat>)
      requires x < |repo.sessions| && limit >= 1 && listed == Listing(repo.Tables(), x) && Ascending(listed)
      requires WalkedBack(rows, listed, left, limit, fetches, collected, cursor)
      ensures hasMore == (left > limit)
      ensures if hasMore then WalkedBack(rows, listed, left - limit, limit, fetches + 1, items + collected, next)
              else WalkedThrough(rows, limit, fetches + 1, items + collected)
    {
      FetchStep(listed, rows, left, limit, cursor);
      items, hasMore, next := ListMessages(x, Some(limit), cursor);
      WalkStep(rows, listed, left, limit, fetches, collected, cursor, items, next);
    }

    /** What others commit between two fetches only adds to the end of the listing. */
    method OthersAct(window: seq<Event>, x: nat) returns (ghost listed: seq<Message>)
      requires repo.Valid() && x < |repo.sessions| && NoReset(window, x)
      modifies repo
      ensures repo.Valid() && x < |repo.sessions|
      ensures listed == Listing(repo.Tables(), x)
      ensures old(Listing(repo.Tables(), x)) <= listed && Ascending(listed)
    {
      ListingAfter(repo.Tables(), repo.maxConcurrency, window, x);
      repo.Interfere(window);
      listed := Listing(repo.Tables(), x);
    }
  }

  /** The rows from `left` on have been collected; the cursor stands there. */
  ghost predicate WalkedBack(
    rows: seq<Message>, listed: seq<Message>, left: nat, limit: nat, fetches: nat,
    collected: seq<Message>, cursor: Option<nat>)
  {
    && |rows| <= |listed| && listed[..|rows|] == rows
    && left <= |rows| && collected == rows[left..]
    && |rows| - left == fetches * limit
    && if fetches == 0 then cursor.None? && left == |rows| && listed == rows
       else 0 < left < |rows| && cursor == Some(rows[left].sequence)
  }

  /** All rows have been collected, in as many fetches as their number asks for. */
  ghost predicate WalkedThrough(rows: seq<Message>, limit: nat, fetches: nat, collected: seq<Message>) {
    && collected == rows && fetches >= 1
    && (fetches - 1) * limit <= |rows| <= fetches * limit
    && (|rows| > 0 ==> (fetches - 1) * limit < |rows|)
  }

  lemma WalkStep(
    rows: seq<Message>, listed: seq<Message>, left: nat, limit: nat, fetches: nat,
    collected: seq<Message>, cursor: Option<nat>, items: seq<Message>, next: Option<nat>)
    requires WalkedBack(rows, listed, left, limit, fetches, collected, cursor) && limit >= 1
    requires items + rows[left..] == rows[if left <= limit then 0 else left - limit..]
    requires left > limit ==> next == Some(rows[left-limit].sequence)
    ensures if left > limit then WalkedBack(rows, listed, left - limit, limit, fetches + 1, items + collected, next)
            else WalkedThrough(rows, limit, fetches + 1, items + collected)
  {
    assert (fetches + 1) * limit == fetches * limit + limit;
    assert rows[0..] == rows;
  }

  lemma GrownWalk(
    rows: seq<Message>, before: seq<Message>, listed: seq<Message>, left: nat, limit: nat, fetches: nat,
    collected: seq<Message>, cursor: Option<nat>)
    requires WalkedBack(rows, before, left, limit, fetches, collected, cursor) && fetches > 0 && before <= listed
    ensures WalkedBack(rows, listed, left, limit, fetches, collected, cursor)
  {
    assert listed[..|before|] == before;
    assert listed[..|rows|] == listed[..|before|][..|rows|];
  }

  /** What a fetch may still return: the rows above `left`, and all of them at first. */
  lemma EligibleRows(now: seq<Message>, rows: seq<Message>, left: nat, cursor: Option<nat>)
    requires Ascending(now) && |rows| <= |now| && now[..|rows|] == rows && left <= |rows|
    requires if left < |rows| then cursor == Some(rows[left].sequence) else cursor.None? && now == rows
    ensures Below(now, cursor) == rows[..left]
  {
    if left < |rows| {
      CursorCutsListing(now, left);
      assert now[left] == rows[left] && now[..left] == rows[..left];
    } else {
      NoCursorKeepsAll(now);
    }
  }

  /** One fetch of the walk: the rows just above the cursor join what was collected. */
  lemma FetchStep(now: seq<Message>, rows: seq<Message>, left: nat, limit: nat, cursor: Option<nat>)
    requires Ascending(now) && |rows| <= |now| && now[..|rows|] == rows && left <= |rows| && limit >= 1
    requires if left < |rows| then cursor == Some(rows[left].sequence) else cursor.None? && now == rows
    ensures var page := PageOf(now, Some(limit), cursor);
            && page.items + rows[left..] == rows[if left <= limit then 0 else left - limit..]
            && page.hasMore == (left > limit)
            && (left > limit ==> page.next == Some(rows[left-limit].sequence))
    ensures rows[0..] == rows
  {
    EligibleRows(now, rows, left, cursor);
    var from := if left <= limit then 0 else left - limit;
    SlicesJoin(rows, from, left);
    assert rows[..left][from..] == rows[from..left];
  }

  lemma SlicesJoin<T>(rows: seq<T>, from: nat, left: nat)
    requires from <= left <= |rows|
    ensures rows[from..left] + rows[left..] == rows[from..]
    ensures rows[..left] == rows[0..left] && rows[0..] == rows
  {}

  /** Between resets what others commit, late messages among it, only adds to the end of
      a listing, and its numbers go upwards. */
  lemma ListingAfter(s: Store, limit: int, es: seq<Event>, x: nat)
    requires Reachable(s, limit) && x < |s.sessions| && NoReset(es, x)
    ensures var t := After(s, limit, es);
            && x < |t.sessions|
            && Listing(s, x) <= Listing(t, x)
            && Ascending(Listing(t, x))
  {
    ReachableIsConsistent(s, limit);
    ConversationGrowsAtTheEnd(s, limit, es, x, 0);
    LogInvariantOverHistory(s, limit, es);
    var t := After(s, limit, es);
    ListingAscends(LogOf(t.messages, x), t.sessions[x].conversation);
  }
}
