/** The per-session message log: numbering, conversations, and keyset paging. */
module MessageLog {
  import opened Tables
  import opened Transitions
  import opened Protocol

  // -------------------------------------------------------------- numbering

  /** The messages of one session in the order they were written. */
  function LogOf(messages: seq<Message>, x: nat): seq<Message> {
    if |messages| == 0 then [] else
    LogOf(messages[..|messages|-1], x)
    + if messages[|messages|-1].session == x then [messages[|messages|-1]] else []
  }

  /** A session's sequence numbers are exactly 1, 2, ..., n. */
  ghost predicate NumberedLog(log: seq<Message>) {
    forall i: nat | i < |log| :: log[i].sequence == i + 1
  }

  ghost predicate Numbered(s: Store) {
    forall x: nat :: NumberedLog(LogOf(s.messages, x))
  }

  lemma {:induction false} LastNumberIsLength(messages: seq<Message>, x: nat)
    requires NumberedLog(LogOf(messages, x))
    ensures MaxSequence(messages, x) == |LogOf(messages, x)|
  {
    if |messages| > 0 {
      var before := LogOf(messages[..|messages|-1], x);
      forall i: nat | i < |before| ensures before[i].sequence == i + 1 {
        assert LogOf(messages, x)[i] == before[i];
      }
      LastNumberIsLength(messages[..|messages|-1], x);
      if messages[|messages|-1].session == x {
        assert LogOf(messages, x)[|before|] == messages[|messages|-1];
      }
    }
  }

  /** The number a writer has read is still free exactly when nobody has written to the
      session since; else the table already holds it, and refuses it. */
  predicate Taken(messages: seq<Message>, x: nat, n: nat) {
    exists i: nat :: i < |messages| && messages[i].session == x && messages[i].sequence == n
  }

  lemma {:induction false} TakenExactlyWhenOvertaken(messages: seq<Message>, x: nat, n: nat)
    requires NumberedLog(LogOf(messages, x)) && n >= 1
    ensures Taken(messages, x, n) <==> n <= MaxSequence(messages, x)
  {
    var log := LogOf(messages, x);
    LastNumberIsLength(messages, x);
    if n <= |log| {
      LogRowsAreRows(messages, x, n - 1);
      var i: nat :| i < |messages| && messages[i] == log[n-1];
      assert messages[i].session == x && messages[i].sequence == n;
    }
    if Taken(messages, x, n) {
      var i: nat :| i < |messages| && messages[i].session == x && messages[i].sequence == n;
      RowsAreBelowLast(messages, x, i);
    }
  }

  lemma {:induction false} RowsAreBelowLast(messages: seq<Message>, x: nat, i: nat)
    requires i < |messages| && messages[i].session == x
    ensures messages[i].sequence <= MaxSequence(messages, x)
  {
    var n := |messages| - 1;
    if i < n { RowsAreBelowLast(messages[..n], x, i); }
  }

  /** The session an ordinary message of this step is inserted into, and the reading it
      is inserted on. */
  function PostOf(s: Store, e: Event): Option<(nat, Reading)> {
    match e
    case SayEvent(x, _, _, seen) => if Insertable(s, x, seen) then Some((x, seen)) else None
    case EnqueueEvent(x, _, seen) => if Insertable(s, x, seen) then Some((x, seen)) else None
    case PersistEvent(tr, o, seen) =>
      if Persistable(s, tr, o, seen) && o.text != "" then Some((s.tasks[s.taskRuns[tr].task].session, seen)) else None
    case _ => None
  }

  /** The message goes to an earlier conversation of `x`: a reset has come between its
      reading of the session and its insert. */
  predicate Late(s: Store, e: Event, x: nat) {
    var post := PostOf(s, e);
    post.Some? && post.value.0 == x && x < |s.sessions| && post.value.1.conversation != s.sessions[x].conversation
  }

  /** A transaction writes at most one message, with the next number of its session;
      its conversation is the session's current one, or an earlier one. */
  ghost predicate AppendsAtMostOne(s: Store, t: Store) {
    || t.messages == s.messages
    || (&& |t.messages| == |s.messages| + 1
        && t.messages[..|s.messages|] == s.messages
        && var m := t.messages[|s.messages|];
           && m.session < |s.sessions|
           && m.sequence == MaxSequence(s.messages, m.session) + 1
           && m.conversation <= s.sessions[m.session].conversation)
  }

  /** The transaction writes a message of an earlier conversation of `x`. */
  ghost predicate AppendsLate(s: Store, t: Store, x: nat) {
    && |t.messages| > |s.messages| && x < |s.sessions|
    && t.messages[|s.messages|].session == x
    && t.messages[|s.messages|].conversation != s.sessions[x].conversation
  }

  lemma FinalizeAppendsOne(s: Store, r: nat, v: Verdict, x: nat)
    requires forall q: nat | q < |s.runs| :: s.runs[q].child != s.runs[q].launcher
    ensures AppendsAtMostOne(s, Finalize(s, r, v)) && !AppendsLate(s, Finalize(s, r, v), x)
  {}

  lemma StepAppendsOne(s: Store, limit: int, e: Event, x: nat)
    requires forall q: nat | q < |s.runs| :: s.runs[q].child != s.runs[q].launcher
    ensures AppendsAtMostOne(s, Step(s, limit, e))
    ensures AppendsLate(s, Step(s, limit, e), x) <==> Late(s, e, x)
  {
    if e.FinalizeEvent? { FinalizeAppendsOne(s, e.run, e.verdict, x); }
  }

  lemma AppendKeepsNumbering(s: Store, t: Store)
    requires Numbered(s) && AppendsAtMostOne(s, t)
    ensures Numbered(t)
  {
    if t.messages != s.messages {
      forall x: nat ensures NumberedLog(LogOf(t.messages, x)) {
        LastNumberIsLength(s.messages, x);
        assert LogOf(t.messages, x)[..|LogOf(s.messages, x)|] == LogOf(s.messages, x);
      }
    }
  }

  // ----------------------------------------------------------- conversations

  /** Conversation identifiers already handed out. */
  ghost predicate UsedConversations(s: Store) {
    && (forall x: nat | x < |s.sessions| :: s.sessions[x].conversation < s.conversations)
    && (forall m: nat | m < |s.messages| ::
          s.messages[m].session < |s.sessions| && s.messages[m].conversation < s.conversations)
  }

  /** The current conversation of `x` is exactly its log from position `k` on. */
  ghost predicate CurrentFrom(s: Store, x: nat, k: nat) {
    && x < |s.sessions|
    && k <= |LogOf(s.messages, x)|
    && forall i: nat | i < |LogOf(s.messages, x)| ::
         LogOf(s.messages, x)[i].conversation == s.sessions[x].conversation <==> k <= i
  }

  ghost predicate ConversationIsSuffix(s: Store, x: nat) {
    exists k: nat :: CurrentFrom(s, x, k)
  }

  /** The ordinary fate of a session's conversation: kept by all but its own reset. */
  ghost predicate KeepsConversations(s: Store, t: Store, except: Option<nat>) {
    && |s.sessions| <= |t.sessions|
    && s.conversations <= t.conversations
    && (forall x: nat | x < |s.sessions| && Some(x) != except ::
          t.sessions[x].conversation == s.sessions[x].conversation)
    && (forall x: nat | x < |t.sessions|
        && (x >= |s.sessions| || t.sessions[x].conversation != s.sessions[x].conversation) ::
          t.sessions[x].conversation == s.conversations < t.conversations)
  }

  lemma StepKeepsConversations(s: Store, limit: int, e: Event)
    ensures KeepsConversations(s, Step(s, limit, e), if e.ResetEvent? then Some(e.session) else None)
  {}

  lemma StepKeepsUsed(s: Store, limit: int, e: Event)
    requires UsedConversations(s)
    requires forall q: nat | q < |s.runs| :: s.runs[q].child != s.runs[q].launcher
    ensures UsedConversations(Step(s, limit, e))
  {
    StepAppendsOne(s, limit, e, 0);
    StepKeepsConversations(s, limit, e);
    var t := Step(s, limit, e);
    forall m: nat | m < |t.messages|
      ensures t.messages[m].session < |t.sessions| && t.messages[m].conversation < t.conversations
    {
      if m < |s.messages| { assert t.messages[m] == t.messages[..|s.messages|][m]; }
    }
  }

  /** While its session is not reset, a conversation keeps its start under every
      message except exactly a late one. */
  lemma MessageKeepsStartExactly(s: Store, t: Store, x: nat, k: nat)
    requires CurrentFrom(s, x, k) && AppendsAtMostOne(s, t)
    requires x < |t.sessions| && t.sessions[x].conversation == s.sessions[x].conversation
    ensures CurrentFrom(t, x, k) <==> !AppendsLate(s, t, x)
    ensures LogOf(s.messages, x) <= LogOf(t.messages, x)
  {
    var log, longer := LogOf(s.messages, x), LogOf(t.messages, x);
    if t.messages != s.messages {
      assert longer[..|log|] == log;
      if AppendsLate(s, t, x) { assert longer[|log|].conversation != t.sessions[x].conversation; }
    }
  }

  /** A conversation that is no suffix does not become one again, and one that is loses
      that exactly to a late message behind a message of its own. */
  lemma MessageKeepsSuffixExactly(s: Store, t: Store, x: nat)
    requires x < |s.sessions| && AppendsAtMostOne(s, t)
    requires x < |t.sessions| && t.sessions[x].conversation == s.sessions[x].conversation
    ensures ConversationIsSuffix(t, x) <==>
              ConversationIsSuffix(s, x) && !(AppendsLate(s, t, x) && Listing(s, x) != [])
  {
    var log, longer := LogOf(s.messages, x), LogOf(t.messages, x);
    var c := s.sessions[x].conversation;
    if t.messages != s.messages { assert longer[..|log|] == log; }
    if ConversationIsSuffix(s, x) {
      var k: nat :| CurrentFrom(s, x, k);
      MessageKeepsStartExactly(s, t, x, k);
      SuffixIsListing(log, c, k);
      if AppendsLate(s, t, x) {
        if k == |log| {
          assert CurrentFrom(t, x, k + 1);
        } else {
          assert longer[k] == log[k] && longer[|log|].conversation != c;
        }
      }
    } else if ConversationIsSuffix(t, x) {
      var l: nat :| CurrentFrom(t, x, l);
      assert CurrentFrom(s, x, if l < |log| then l else |log|);
      assert false;
    }
  }

  lemma {:induction false} LogRowsAreRows(messages: seq<Message>, x: nat, i: nat)
    requires i < |LogOf(messages, x)|
    ensures LogOf(messages, x)[i] in messages && LogOf(messages, x)[i].session == x
  {
    var n := |messages| - 1;
    if i < |LogOf(messages[..n], x)| { LogRowsAreRows(messages[..n], x, i); }
  }

  /** A reset opens an empty conversation behind everything already written. */
  lemma ResetStartsAfresh(s: Store, x: nat)
    requires UsedConversations(s) && x < |s.sessions| && s.sessions[x].kind.Main?
    ensures CurrentFrom(Reset(s, x), x, |LogOf(s.messages, x)|)
    ensures Reset(s, x).messages == s.messages
  {
    forall i: nat | i < |LogOf(s.messages, x)|
      ensures LogOf(s.messages, x)[i].conversation < s.conversations
    {
      LogRowsAreRows(s.messages, x, i);
    }
  }

  lemma StrangersHaveNoLog(s: Store, x: nat)
    requires UsedConversations(s) && x >= |s.sessions|
    ensures LogOf(s.messages, x) == []
  {
    if LogOf(s.messages, x) != [] { LogRowsAreRows(s.messages, x, 0); }
  }

  /** The step moves a main session on to a new conversation. */
  predicate Resets(s: Store, e: Event, x: nat) {
    e == ResetEvent(x) && x < |s.sessions| && s.sessions[x].kind.Main?
  }

  /** The step puts a message of an earlier conversation behind one of the current. */
  ghost predicate Misplaces(s: Store, e: Event, x: nat) {
    Late(s, e, x) && Listing(s, x) != []
  }

  ghost predicate InOrder(s: Store, x: nat) {
    x < |s.sessions| ==> ConversationIsSuffix(s, x)
  }

  /** Whether a conversation is in order after a step: a reset sets that right, and a
      misplaced message is all that upsets it. */
  lemma OrderAfterStepExactly(s: Store, limit: int, e: Event, x: nat)
    requires UsedConversations(s)
    requires forall q: nat | q < |s.runs| :: s.runs[q].child != s.runs[q].launcher
    ensures InOrder(Step(s, limit, e), x) <==> Resets(s, e, x) || (InOrder(s, x) && !Misplaces(s, e, x))
  {
    StepAppendsOne(s, limit, e, x);
    StepKeepsConversations(s, limit, e);
    if x >= |s.sessions| {
      if x < |Step(s, limit, e).sessions| { NewSessionHasNoLog(s, limit, e, x); }
    } else if Resets(s, e, x) {
      ResetStartsAfresh(s, x);
    } else {
      MessageKeepsSuffixExactly(s, Step(s, limit, e), x);
    }
  }

  lemma NewSessionHasNoLog(s: Store, limit: int, e: Event, x: nat)
    requires UsedConversations(s)
    requires |s.sessions| <= x < |Step(s, limit, e).sessions|
    ensures CurrentFrom(Step(s, limit, e), x, 0)
  {
    SessionStepsKeepMessages(s, limit, e);
    StrangersHaveNoLog(s, x);
  }

  lemma SessionStepsKeepMessages(s: Store, limit: int, e: Event)
    ensures |Step(s, limit, e).sessions| > |s.sessions| ==> Step(s, limit, e).messages == s.messages
  {}

  // ---------------------------------------------------------------- histories

  /** Everything the message log keeps. */
  ghost predicate LogInvariant(s: Store) {
    && Lineage(s) && RunStatuses(s)
    && Numbered(s) && UsedConversations(s)
  }

  lemma NoRunIsItsOwnLauncher(s: Store)
    requires Lineage(s)
    ensures forall q: nat | q < |s.runs| :: s.runs[q].child != s.runs[q].launcher
  {
    forall q: nat | q < |s.runs| ensures s.runs[q].child != s.runs[q].launcher {
      assert RunShape(s, q);
    }
  }

  lemma StepKeepsLog(s: Store, limit: int, e: Event)
    requires LogInvariant(s)
    ensures LogInvariant(Step(s, limit, e))
  {
    var t := Step(s, limit, e);
    StepKeepsLineage(s, limit, e);
    StepAdvances(s, limit, e);
    NoRunIsItsOwnLauncher(s);
    StepAppendsOne(s, limit, e, 0);
    AppendKeepsNumbering(s, t);
    StepKeepsUsed(s, limit, e);
  }

  /** Over any mix of messages, late ones among them, and resets, every session's
      numbers are exactly 1..n. */
  lemma {:induction false} LogInvariantOverHistory(s: Store, limit: int, es: seq<Event>)
    requires LogInvariant(s)
    ensures LogInvariant(After(s, limit, es))
    decreases |es|
  {
    if |es| > 0 {
      StepKeepsLog(s, limit, es[0]);
      LogInvariantOverHistory(Step(s, limit, es[0]), limit, es[1..]);
    }
  }

  /** Whether no message has been misplaced since the last reset of `x`; `clean` says
      whether that was so before. */
  ghost predicate CleanSinceReset(s: Store, limit: int, es: seq<Event>, x: nat, clean: bool)
    decreases |es|
  {
    if |es| == 0 then clean else
    CleanSinceReset(Step(s, limit, es[0]), limit, es[1..], x,
                    Resets(s, es[0], x) || (clean && !Misplaces(s, es[0], x)))
  }

  /** Over any history the current conversation is a contiguous suffix of its log exactly
      when no message has been misplaced since the session was last reset. */
  lemma {:induction false} ConversationIsSuffixExactly(s: Store, limit: int, es: seq<Event>, x: nat)
    requires LogInvariant(s)
    ensures InOrder(After(s, limit, es), x) <==> CleanSinceReset(s, limit, es, x, InOrder(s, x))
    decreases |es|
  {
    if |es| > 0 {
      NoRunIsItsOwnLauncher(s);
      OrderAfterStepExactly(s, limit, es[0], x);
      StepKeepsLog(s, limit, es[0]);
      ConversationIsSuffixExactly(Step(s, limit, es[0]), limit, es[1..], x);
    }
  }

  predicate NoReset(es: seq<Event>, x: nat) {
    ResetEvent(x) !in es
  }

  ghost predicate NoneLate(s: Store, limit: int, es: seq<Event>, x: nat)
    decreases |es|
  {
    |es| == 0 || (!Late(s, es[0], x) && NoneLate(Step(s, limit, es[0]), limit, es[1..], x))
  }

  /** What any history, with or without resets, does to one session. */
  ghost predicate LogGrows(s: Store, t: Store, x: nat)
    requires x < |s.sessions|
  {
    && x < |t.sessions|
    && LogOf(s.messages, x) <= LogOf(t.messages, x)
    && s.sessions[x].conversation <= t.sessions[x].conversation
  }

  lemma StepGrowsLog(s: Store, limit: int, e: Event, x: nat)
    requires LogInvariant(s) && x < |s.sessions|
    ensures LogGrows(s, Step(s, limit, e), x)
    ensures !Resets(s, e, x) ==> Step(s, limit, e).sessions[x].conversation == s.sessions[x].conversation
  {
    var t := Step(s, limit, e);
    NoRunIsItsOwnLauncher(s);
    StepAppendsOne(s, limit, e, x);
    StepKeepsConversations(s, limit, e);
    if t.messages != s.messages { assert LogOf(t.messages, x)[..|LogOf(s.messages, x)|] == LogOf(s.messages, x); }
  }

  /** Whatever happens, a log only grows at its end, and a session's conversation only
      gives way to later ones. */
  lemma {:induction false} HistoryGrowsLog(s: Store, limit: int, es: seq<Event>, x: nat)
    requires LogInvariant(s) && x < |s.sessions|
    ensures LogGrows(s, After(s, limit, es), x)
    ensures NoReset(es, x) ==> After(s, limit, es).sessions[x].conversation == s.sessions[x].conversation
    decreases |es|
  {
    if |es| > 0 {
      assert es[0] in es;
      assert NoReset(es, x) ==> NoReset(es[1..], x);
      StepGrowsLog(s, limit, es[0], x);
      StepKeepsLog(s, limit, es[0]);
      HistoryGrowsLog(Step(s, limit, es[0]), limit, es[1..], x);
    }
  }

  /** So a reading is never newer than what would be read later. */
  lemma ReadingsAreOvertaken(s: Store, limit: int, es: seq<Event>, x: nat)
    requires LogInvariant(s) && x < |s.sessions|
    ensures var t := After(s, limit, es);
            && x < |t.sessions|
            && ReadingOf(s, x).conversation <= ReadingOf(t, x).conversation
            && ReadingOf(s, x).next <= ReadingOf(t, x).next
            && (ReadingOf(s, x).next == ReadingOf(t, x).next <==> LogOf(t.messages, x) == LogOf(s.messages, x))
  {
    HistoryGrowsLog(s, limit, es, x);
    LogInvariantOverHistory(s, limit, es);
    LastNumberIsLength(s.messages, x);
    LastNumberIsLength(After(s, limit, es).messages, x);
  }

  /** Between resets of its session the listing of a conversation only grows at its end;
      and the conversation keeps its place in the log exactly while no message is late. */
  lemma {:induction false} ConversationGrowsAtTheEnd(s: Store, limit: int, es: seq<Event>, x: nat, k: nat)
    requires LogInvariant(s) && x < |s.sessions| && NoReset(es, x)
    ensures var t := After(s, limit, es);
            && LogGrows(s, t, x)
            && Listing(s, x) <= Listing(t, x)
            && (CurrentFrom(s, x, k) ==> (CurrentFrom(t, x, k) <==> NoneLate(s, limit, es, x)))
  {
    HistoryGrowsLog(s, limit, es, x);
    var t := After(s, limit, es);
    var log, longer := LogOf(s.messages, x), LogOf(t.messages, x);
    ConversationsJoin(log, longer[|log|..], s.sessions[x].conversation);
    assert longer == log + longer[|log|..];
    if CurrentFrom(s, x, k) { StartIsKeptExactly(s, limit, es, x, k); }
  }

  lemma {:induction false} StartIsKeptExactly(s: Store, limit: int, es: seq<Event>, x: nat, k: nat)
    requires LogInvariant(s) && CurrentFrom(s, x, k) && NoReset(es, x)
    ensures CurrentFrom(After(s, limit, es), x, k) <==> NoneLate(s, limit, es, x)
    decreases |es|
  {
    if |es| > 0 {
      var t := Step(s, limit, es[0]);
      assert es[0] in es;
      assert NoReset(es[1..], x);
      NoRunIsItsOwnLauncher(s);
      StepAppendsOne(s, limit, es[0], x);
      StepGrowsLog(s, limit, es[0], x);
      MessageKeepsStartExactly(s, t, x, k);
      StepKeepsLog(s, limit, es[0]);
      if CurrentFrom(t, x, k) {
        StartIsKeptExactly(t, limit, es[1..], x, k);
      } else {
        HistoryGrowsLog(t, limit, es[1..], x);
        LostStartStaysLost(s, t, After(t, limit, es[1..]), x, k);
      }
    }
  }

  lemma LostStartStaysLost(s: Store, t: Store, u: Store, x: nat, k: nat)
    requires CurrentFrom(s, x, k) && x < |t.sessions| && LogOf(s.messages, x) <= LogOf(t.messages, x)
    requires !CurrentFrom(t, x, k) && LogGrows(t, u, x)
    requires u.sessions[x].conversation == t.sessions[x].conversation == s.sessions[x].conversation
    ensures !CurrentFrom(u, x, k)
  {
    var i: nat :| i < |LogOf(t.messages, x)|
      && !(LogOf(t.messages, x)[i].conversation == t.sessions[x].conversation <==> k <= i);
    assert LogOf(u.messages, x)[i] == LogOf(t.messages, x)[i];
  }

  /** The messages of a session's current conversation, oldest first. */
  function Listing(s: Store, x: nat): seq<Message>
    requires x < |s.sessions|
  {
    InConversation(LogOf(s.messages, x), s.sessions[x].conversation)
  }

  function InConversation(log: seq<Message>, c: nat): seq<Message> {
    if |log| == 0 then [] else
    InConversation(log[..|log|-1], c) + if log[|log|-1].conversation == c then [log[|log|-1]] else []
  }

  lemma {:induction false} SuffixIsListing(log: seq<Message>, c: nat, k: nat)
    requires k <= |log|
    requires forall i: nat | i < |log| :: log[i].conversation == c <==> k <= i
    ensures InConversation(log, c) == log[k..]
  {
    if |log| > 0 {
      var n := |log| - 1;
      if k <= n {
        SuffixIsListing(log[..n], c, k);
        assert log[k..] == log[..n][k..] + [log[n]];
      } else {
        SuffixIsListing(log[..n], c, n);
        assert log[k..] == [] && log[..n][n..] == [];
      }
    }
  }

  lemma {:induction false} ConversationsJoin(a: seq<Message>, b: seq<Message>, c: nat)
    ensures InConversation(a + b, c) == InConversation(a, c) + InConversation(b, c)
    decreases |b|
  {
    if |b| == 0 {
      assert a + b == a;
    } else {
      var n := |b| - 1;
      ConversationsJoin(a, b[..n], c);
      assert (a + b)[..|a| + n] == a + b[..n];
    }
  }

  lemma {:induction false} WholeConversation(rows: seq<Message>, c: nat)
    ensures |InConversation(rows, c)| <= |rows|
    ensures InConversation(rows, c) == rows <==> forall i: nat | i < |rows| :: rows[i].conversation == c
    ensures (forall i: nat | i < |rows| :: rows[i].conversation != c) ==> InConversation(rows, c) == []
  {
    if |rows| > 0 {
      var n := |rows| - 1;
      WholeConversation(rows[..n], c);
      assert rows == rows[..n] + [rows[n]];
    }
  }

  /** After a reset the listing of a session is what has been written to its new
      conversation since; that is everything written to the session since, exactly when
      none of it was late. */
  lemma ListingIsWhatFollowsTheReset(s: Store, limit: int, es: seq<Event>, x: nat)
    requires LogInvariant(s) && x < |s.sessions| && s.sessions[x].kind.Main? && NoReset(es, x)
    ensures var u := Step(s, limit, ResetEvent(x));
            var t := After(u, limit, es);
            && x < |t.sessions|
            && LogOf(s.messages, x) <= LogOf(t.messages, x)
            && var since := LogOf(t.messages, x)[|LogOf(s.messages, x)|..];
               && Listing(t, x) == InConversation(since, t.sessions[x].conversation)
               && (Listing(t, x) == since <==> NoneLate(u, limit, es, x))
  {
    var log := LogOf(s.messages, x);
    var u := Reset(s, x);
    ResetStartsAfresh(s, x);
    StepKeepsLog(s, limit, ResetEvent(x));
    ConversationGrowsAtTheEnd(u, limit, es, x, |log|);
    var t := After(u, limit, es);
    var c := u.sessions[x].conversation;
    HistoryGrowsLog(u, limit, es, x);
    ListingSince(LogOf(t.messages, x), c, |log|);
  }

  /** The part of a log behind a point before which nothing belongs to a conversation. */
  lemma ListingSince(log: seq<Message>, c: nat, k: nat)
    requires k <= |log| && forall i: nat | i < k :: log[i].conversation != c
    ensures InConversation(log, c) == InConversation(log[k..], c)
    ensures InConversation(log, c) == log[k..] <==> forall i: nat | i < |log| :: log[i].conversation == c <==> k <= i
  {
    ConversationsJoin(log[..k], log[k..], c);
    assert log == log[..k] + log[k..];
    WholeConversation(log[..k], c);
    WholeConversation(log[k..], c);
    TailBelongs(log, c, k);
  }

  lemma TailBelongs(log: seq<Message>, c: nat, k: nat)
    requires k <= |log| && forall i: nat | i < k :: log[i].conversation != c
    ensures (forall i: nat | i < |log[k..]| :: log[k..][i].conversation == c) <==>
              forall i: nat | i < |log| :: log[i].conversation == c <==> k <= i
  {
    if forall i: nat | i < |log[k..]| :: log[k..][i].conversation == c {
      forall i: nat | k <= i < |log| ensures log[i].conversation == c { assert log[i] == log[k..][i-k]; }
    }
  }

  // ------------------------------------------------------------ the late message

  lemma SayIsListed(s: Store, x: nat, role: Role, text: string, seen: Reading)
    requires Insertable(s, x, seen)
    ensures var t := Say(s, x, role, text, seen);
            var m := Message(x, seen.conversation, role, seen.next, text, s.now, Conversation);
            && x < |t.sessions| && t.sessions[x].conversation == s.sessions[x].conversation
            && MaxSequence(t.messages, x) == seen.next
            && Listing(t, x) == Listing(s, x) + if seen.conversation == s.sessions[x].conversation then [m] else []
  {
    var m := Message(x, seen.conversation, role, seen.next, text, s.now, Conversation);
    OneMoreRow(s.messages, m);
    OneMoreInConversation(LogOf(s.messages, x), m, s.sessions[x].conversation);
  }

  lemma OneMoreRow(messages: seq<Message>, m: Message)
    ensures LogOf(messages + [m], m.session) == LogOf(messages, m.session) + [m]
    ensures m.sequence > MaxSequence(messages, m.session) ==> MaxSequence(messages + [m], m.session) == m.sequence
  {
    assert (messages + [m])[..|messages|] == messages;
  }

  lemma OneMoreInConversation(log: seq<Message>, m: Message, c: nat)
    ensures InConversation(log + [m], c) == InConversation(log, c) + if m.conversation == c then [m] else []
  {
    assert (log + [m])[..|log|] == log;
  }

  /** In every state: a writer reads the conversation of a main session, a reset and a
      message come first, and then it reads the number and inserts.  Its message lies
      between the first and the second of the new conversation, whose listing has a hole
      in its numbers. */
  lemma LateMessageBreaksTheSuffix(s: Store, limit: int, x: nat)
    requires LogInvariant(s) && x < |s.sessions| && s.sessions[x].kind.Main?
    ensures var u := Step(s, limit, ResetEvent(x));
            var v := Step(u, limit, SayEvent(x, User, "new", ReadingOf(u, x)));
            var late := Reading(ReadingOf(s, x).conversation, ReadingOf(v, x).next);
            var w := Step(v, limit, SayEvent(x, Assistant, "late", late));
            var z := Step(w, limit, SayEvent(x, Assistant, "next", ReadingOf(w, x)));
            && Misplaces(v, SayEvent(x, Assistant, "late", late), x)
            && ConversationIsSuffix(v, x) && !ConversationIsSuffix(w, x) && !ConversationIsSuffix(z, x)
            && |Listing(z, x)| == 2 && Listing(z, x)[1].sequence == Listing(z, x)[0].sequence + 2
  {
    var u := Reset(s, x);
    StepKeepsLog(s, limit, ResetEvent(x));
    ResetStartsAfresh(s, x);
    SuffixIsListing(LogOf(u.messages, x), u.sessions[x].conversation, |LogOf(s.messages, x)|);
    ThreePosts(u, limit, x, ReadingOf(s, x).conversation);
  }

  lemma ThreePosts(u: Store, limit: int, x: nat, c: nat)
    requires LogInvariant(u) && x < |u.sessions| && c < u.sessions[x].conversation
    requires ConversationIsSuffix(u, x) && Listing(u, x) == []
    ensures var v := Step(u, limit, SayEvent(x, User, "new", ReadingOf(u, x)));
            var late := Reading(c, ReadingOf(v, x).next);
            var w := Step(v, limit, SayEvent(x, Assistant, "late", late));
            var z := Step(w, limit, SayEvent(x, Assistant, "next", ReadingOf(w, x)));
            && Misplaces(v, SayEvent(x, Assistant, "late", late), x)
            && ConversationIsSuffix(v, x) && !ConversationIsSuffix(w, x) && !ConversationIsSuffix(z, x)
            && |Listing(z, x)| == 2 && Listing(z, x)[1].sequence == Listing(z, x)[0].sequence + 2
  {
    OrderContinues(u, limit, x, "new", User, ReadingOf(u, x));
    var v := Step(u, limit, SayEvent(x, User, "new", ReadingOf(u, x)));
    var late := Reading(c, ReadingOf(v, x).next);
    OrderContinues(v, limit, x, "late", Assistant, late);
    var w := Step(v, limit, SayEvent(x, Assistant, "late", late));
    OrderContinues(w, limit, x, "next", Assistant, ReadingOf(w, x));
  }

  lemma OrderContinues(s: Store, limit: int, x: nat, text: string, role: Role, seen: Reading)
    requires LogInvariant(s) && Insertable(s, x, seen)
    ensures var e := SayEvent(x, role, text, seen);
            var t := Step(s, limit, e);
            && LogInvariant(t) && x < |t.sessions| && t.sessions[x].conversation == s.sessions[x].conversation
            && (ConversationIsSuffix(t, x) <==> ConversationIsSuffix(s, x) && !Misplaces(s, e, x))
            && MaxSequence(t.messages, x) == seen.next
            && Listing(t, x) == Listing(s, x) +
                 if seen.conversation != s.sessions[x].conversation then []
                 else [Message(x, seen.conversation, role, seen.next, text, s.now, Conversation)]
  {
    var e := SayEvent(x, role, text, seen);
    NoRunIsItsOwnLauncher(s);
    StepKeepsLog(s, limit, e);
    OrderAfterStepExactly(s, limit, e, x);
    SayIsListed(s, x, role, text, seen);
  }

  // ------------------------------------------------------------------- paging

  datatype Page = Page(items: seq<Message>, hasMore: bool, next: Option<nat>)

  /** The rows a fetch may return: those below its cursor. */
  function Below(rows: seq<Message>, before: Option<nat>): seq<Message> {
    if |rows| == 0 then [] else
    Below(rows[..|rows|-1], before)
    + if before.None? || rows[|rows|-1].sequence < before.value then [rows[|rows|-1]] else []
  }

  /** One page: the newest `limit` rows below the cursor, oldest first. */
  function PageOf(rows: seq<Message>, limit: Option<nat>, before: Option<nat>): Page {
    var eligible := Below(rows, before);
    if limit.None? || |eligible| <= limit.value then Page(eligible, false, None) else
    var items := eligible[|eligible| - limit.value..];
    Page(items, true, if items == [] then None else Some(items[0].sequence))
  }

  /** What a cursor leaves: the rows with smaller numbers, in their order. */
  lemma {:induction false} BelowAre(rows: seq<Message>, before: Option<nat>)
    ensures forall m: Message :: m in Below(rows, before) <==>
              m in rows && (before.None? || m.sequence < before.value)
    ensures before.None? ==> Below(rows, before) == rows
  {
    if |rows| > 0 {
      BelowAre(rows[..|rows|-1], before);
      assert rows == rows[..|rows|-1] + [rows[|rows|-1]];
    }
  }

  /** A page in terms of the rows: all that are left without a limit, else the newest of
      them, as many as the limit or all; more are said to remain iff some do, and the next
      cursor is the oldest row shown. */
  lemma PageIs(rows: seq<Message>, limit: Option<nat>, before: Option<nat>)
    ensures var page, left := PageOf(rows, limit, before), Below(rows, before);
            && (limit.None? ==> page.items == left && !page.hasMore && page.next.None?)
            && (limit.Some? ==>
                  && |page.items| == (if |left| <= limit.value then |left| else limit.value)
                  && page.items == left[|left| - |page.items|..]
                  && (page.hasMore <==> |left| > limit.value)
                  && (page.next.Some? <==> |left| > limit.value > 0)
                  && (page.next.Some? ==> page.items != [] && page.next.value == page.items[0].sequence))
  {}

  ghost predicate Ascending(rows: seq<Message>) {
    forall i: nat, j: nat | i < j < |rows| :: rows[i].sequence < rows[j].sequence
  }

  /** A listing is numbered upwards, so a cursor taken from its row `j` cuts it exactly
      there, however much has been appended since. */
  lemma CursorCutsListing(rows: seq<Message>, j: nat)
    requires Ascending(rows) && j < |rows|
    ensures Below(rows, Some(rows[j].sequence)) == rows[..j]
  {
    BelowCuts(rows, rows[j].sequence, j);
  }

  lemma {:induction false} BelowCuts(rows: seq<Message>, before: nat, j: nat)
    requires j <= |rows|
    requires forall i: nat | i < |rows| :: rows[i].sequence < before <==> i < j
    ensures Below(rows, Some(before)) == rows[..j]
  {
    if |rows| > 0 {
      var n := |rows| - 1;
      BelowCuts(rows[..n], before, if j <= n then j else n);
      assert rows[..j] == rows[..n][..if j <= n then j else n] + if j <= n then [] else [rows[n]];
    }
  }

  /** A numbered log lists each of its conversations in ascending order. */
  lemma {:induction false} ListingAscends(log: seq<Message>, c: nat)
    requires NumberedLog(log)
    ensures Ascending(InConversation(log, c))
    ensures forall i: nat | i < |InConversation(log, c)| :: InConversation(log, c)[i].sequence <= |log|
  {
    if |log| > 0 { ListingAscends(log[..|log|-1], c); }
  }

  lemma {:induction false} NoCursorKeepsAll(rows: seq<Message>)
    ensures Below(rows, None) == rows
  {
    if |rows| > 0 {
      NoCursorKeepsAll(rows[..|rows|-1]);
      assert rows[..|rows|-1] + [rows[|rows|-1]] == rows;
    }
  }
}
