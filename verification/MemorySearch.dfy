/** Memory search: override substitution, merging, and ranking with a duplicate penalty.

    Scores are integers in millionths. */
module MemorySearch {
  import opened Tables
  import opened Sorting
  import opened MemoryTables

  /** A record that matched the query, with its lexical score. */
  datatype Hit = Hit(
    kind: RecordKind,
    id: nat,
    source: Source,
    importance: int,
    reach: Reach,
    target: Option<nat>,
    createdAt: int,
    updatedAt: int,
    text: string,
    lexical: int)

  /** A manual override of some record; its lexical score is that of what it replaces. */
  datatype OverrideRow = OverrideRow(hidden: bool, hit: Hit)

  datatype SearchScope = CurrentConversation | CurrentSessionTree | AgentScope | UserScope | WorkspaceScope

  datatype Context = Context(
    agent: Option<nat>, conversation: Option<nat>, root: Option<nat>, user: Option<nat>, workspace: Option<string>)

  function MatchedScopes(h: Hit, applied: set<SearchScope>, context: Context): set<SearchScope> {
    set s | s in applied && ScopeMatches(h, s, context)
  }

  predicate ScopeMatches(h: Hit, s: SearchScope, context: Context) {
    match s
    case CurrentConversation => context.conversation.Some? && h.reach.conversation == context.conversation
    case CurrentSessionTree => context.root.Some? && h.reach.root == context.root
    case AgentScope => context.agent.Some? && h.reach.agent == context.agent
    case UserScope => context.user.Some? && h.reach.user == context.user
    case WorkspaceScope => context.workspace.Some? && h.reach.workspace == context.workspace
  }

  datatype OverrideStatus = NotOverridden | OverridesAutomatic | OverriddenByManual

  datatype Working = Working(
    hit: Hit,
    scopes: set<SearchScope>,
    status: OverrideStatus,
    target: Option<nat>,
    substituted: bool,
    lexicalSource: nat,
    substitutedFor: Option<nat>)

  /** Everything a search is given besides its candidates. */
  datatype Setting = Setting(
    applied: set<SearchScope>,
    context: Context,
    entryOverrides: map<nat, OverrideRow>,
    summaryOverrides: map<nat, OverrideRow>,
    substitute: bool)

  predicate Automatic(h: Hit) {
    match h.kind
    case EntryRecord => h.source in {LegacyAutomatic, Autosaved}
    case SummaryRecord => h.source in {LegacyAutomatic, Summarized}
  }

  /** The live manual override of an automatic record, if there is one. */
  function OverrideOf(h: Hit, g: Setting): Option<OverrideRow> {
    var rows := if h.kind.EntryRecord? then g.entryOverrides else g.summaryOverrides;
    if Automatic(h) && h.id in rows then Some(rows[h.id]) else None
  }

  type Key = (RecordKind, nat)

  function KeyOf(h: Hit): Key {
    (h.kind, h.id)
  }

  /** What one candidate brings to the result, if anything. */
  function Contribution(h: Hit, g: Setting): Option<Working> {
    var scopes := MatchedScopes(h, g.applied, g.context);
    var row := OverrideOf(h, g);
    if scopes == {} then None
    else if h.target.Some? then Some(Working(h, scopes, OverridesAutomatic, h.target, false, h.id, None))
    else if row.None? then Some(Working(h, scopes, NotOverridden, None, false, h.id, None))
    else if !g.substitute then Some(Working(h, scopes, OverriddenByManual, Some(row.value.hit.id), false, h.id, None))
    else if row.value.hidden then None
    else
      var manual := row.value.hit.(kind := h.kind, lexical := h.lexical);
      Some(Working(manual, scopes, OverridesAutomatic, Some(h.id), true, h.id, Some(h.id)))
  }

  function Merge(a: Working, b: Working): Working {
    var better := b.hit.lexical > a.hit.lexical;
    var overrides := b.status == OverridesAutomatic;
    Working(
      if better then b.hit else a.hit,
      a.scopes + b.scopes,
      if overrides then b.status else a.status,
      if overrides then b.target else a.target,
      a.substituted || b.substituted,
      if better then b.lexicalSource else a.lexicalSource,
      if a.substitutedFor.Some? then a.substitutedFor else b.substitutedFor)
  }

  /** The merged item of one key. */
  function MergedFor(hits: seq<Hit>, g: Setting, key: Key): Option<Working> {
    if |hits| == 0 then None else
    var before := MergedFor(hits[..|hits|-1], g, key);
    var c := Contribution(hits[|hits|-1], g);
    if c.None? || KeyOf(c.value.hit) != key then before
    else if before.None? then c
    else Some(Merge(before.value, c.value))
  }

  /** The keys in the order they first appear. */
  function KeyOrder(hits: seq<Hit>, g: Setting): seq<Key> {
    if |hits| == 0 then [] else
    var before := KeyOrder(hits[..|hits|-1], g);
    var c := Contribution(hits[|hits|-1], g);
    if c.None? || KeyOf(c.value.hit) in before then before else before + [KeyOf(c.value.hit)]
  }

  /** Merges the candidates into a table keyed by record. */
  method PrepareWorkingItems(hits: seq<Hit>, g: Setting) returns (items: seq<Working>)
    ensures |items| == |KeyOrder(hits, g)|
    ensures forall n: nat | n < |items| :: Some(items[n]) == MergedFor(hits, g, KeyOrder(hits, g)[n])
  {
    var order: seq<Key> := [];
    var prepared: map<Key, Working> := map[];
    for n := 0 to |hits|
      invariant order == KeyOrder(hits[..n], g)
      invariant forall k: Key :: k in prepared <==> k in order
      invariant forall k: Key :: MergedFor(hits[..n], g, k) == if k in prepared then Some(prepared[k]) else None
    {
      assert hits[..n+1][..n] == hits[..n];
      var c := Contribution(hits[n], g);
      if c.None? { continue; }
      var key := KeyOf(c.value.hit);
      if key in prepared {
        prepared := prepared[key := Merge(prepared[key], c.value)];
      } else {
        order := order + [key];
        prepared := prepared[key := c.value];
      }
    }
    assert hits[..|hits|] == hits;
    items := [];
    for n := 0 to |order|
      invariant |items| == n
      invariant forall m: nat | m < n :: Some(items[m]) == MergedFor(hits, g, order[m])
    {
      assert order[n] in order;
      items := items + [prepared[order[n]]];
    }
  }

  /** `h` is one of the candidates that were merged into the item of `key`. */
  predicate Contributes(h: Hit, g: Setting, key: Key) {
    Contribution(h, g).Some? && KeyOf(Contribution(h, g).value.hit) == key
  }

  lemma {:induction false} MergedExistsExactly(hits: seq<Hit>, g: Setting, key: Key)
    ensures MergedFor(hits, g, key).Some? <==> exists h: Hit :: h in hits && Contributes(h, g, key)
    ensures key in KeyOrder(hits, g) <==> MergedFor(hits, g, key).Some?
    ensures MergedFor(hits, g, key).Some? ==> KeyOf(MergedFor(hits, g, key).value.hit) == key
    ensures Distinct(KeyOrder(hits, g))
  {
    if |hits| > 0 {
      var init := hits[..|hits|-1];
      var last := hits[|hits|-1];
      MergedExistsExactly(init, g, key);
      assert hits == init + [last];
      if MergedFor(init, g, key).Some? {
        var h: Hit :| h in init && Contributes(h, g, key);
        assert h in hits;
      } else if Contributes(last, g, key) {
        assert last in hits;
      }
    }
  }

  /** A merged item matched exactly the scopes that some contributor matched. */
  lemma {:induction false} MergedScopesAreUnion(hits: seq<Hit>, g: Setting, key: Key, s: SearchScope)
    requires MergedFor(hits, g, key).Some?
    ensures s in MergedFor(hits, g, key).value.scopes <==>
              exists h: Hit :: h in hits && Contributes(h, g, key) && s in MatchedScopes(h, g.applied, g.context)
  {
    var init := hits[..|hits|-1];
    var last := hits[|hits|-1];
    assert hits == init + [last];
    MergedExistsExactly(init, g, key);
    if MergedFor(init, g, key).Some? {
      MergedScopesAreUnion(init, g, key, s);
      if s in MergedFor(init, g, key).value.scopes {
        var h: Hit :| h in init && Contributes(h, g, key) && s in MatchedScopes(h, g.applied, g.context);
        assert h in hits;
      }
    }
    assert Contributes(last, g, key) && s in MatchedScopes(last, g.applied, g.context) ==> last in hits;
  }

  /** Its lexical score is the maximum over the contributors. */
  lemma {:induction false} MergedLexicalIsMaximum(hits: seq<Hit>, g: Setting, key: Key, h: Hit)
    requires h in hits && Contributes(h, g, key)
    ensures MergedFor(hits, g, key).Some? && h.lexical <= MergedFor(hits, g, key).value.hit.lexical
  {
    var init := hits[..|hits|-1];
    assert hits == init + [hits[|hits|-1]];
    MergedExistsExactly(hits, g, key);
    if h in init { MergedLexicalIsMaximum(init, g, key, h); }
  }

  /** Its content is what a contributor with that score brought. */
  lemma {:induction false} MergedHitIsContributed(hits: seq<Hit>, g: Setting, key: Key) returns (h: Hit)
    requires MergedFor(hits, g, key).Some?
    ensures h in hits && Contributes(h, g, key)
    ensures MergedFor(hits, g, key).value.hit == Contribution(h, g).value.hit
  {
    var init := hits[..|hits|-1];
    var last := hits[|hits|-1];
    assert hits == init + [last];
    h := last;
    if MergedFor(init, g, key).Some?
       && MergedFor(hits, g, key).value.hit == MergedFor(init, g, key).value.hit {
      h := MergedHitIsContributed(init, g, key);
    }
  }

  /** With substitution on, no returned record is automatic while it has a live manual
      override: the override stands in for it, or a hidden one drops it.  (An automatic
      record is never itself an override.) */
  lemma SubstitutionIsComplete(hits: seq<Hit>, g: Setting, key: Key)
    requires g.substitute
    requires forall h: Hit | h in hits && Automatic(h) :: h.target.None?
    requires forall id: nat | id in g.entryOverrides :: g.entryOverrides[id].hit.source == Manual
    requires forall id: nat | id in g.summaryOverrides :: g.summaryOverrides[id].hit.source == Manual
    requires MergedFor(hits, g, key).Some?
    ensures OverrideOf(MergedFor(hits, g, key).value.hit, g).None?
  {
    var h := MergedHitIsContributed(hits, g, key);
  }

  /** A hidden override silences its target: the search returns exactly what it would
      return had that candidate not matched at all. */
  lemma {:induction false} HiddenOverrideSilences(before: seq<Hit>, h: Hit, after: seq<Hit>, g: Setting, key: Key)
    requires g.substitute && h.target.None? && OverrideOf(h, g).Some? && OverrideOf(h, g).value.hidden
    ensures MergedFor(before + [h] + after, g, key) == MergedFor(before + after, g, key)
    ensures KeyOrder(before + [h] + after, g) == KeyOrder(before + after, g)
  {
    var all, rest := before + [h] + after, before + after;
    if |after| == 0 {
      assert all[..|all|-1] == before == rest;
      assert all[|all|-1] == h;
    } else {
      var init := after[..|after|-1];
      assert all[..|all|-1] == before + [h] + init;
      assert rest[..|rest|-1] == before + init;
      HiddenOverrideSilences(before, h, init, g, key);
    }
  }

  // ------------------------------------------------------------------ ranking

  const Day := 86400

  function RecencyBoost(h: Hit, now: int): int {
    var age := if h.updatedAt >= h.createdAt then h.updatedAt else h.createdAt;
    var elapsed := now - age;
    if elapsed <= Day then 600000
    else if elapsed <= 7 * Day then 300000
    else if elapsed <= 30 * Day then 100000
    else 0
  }

  function PreScore(w: Working, now: int): int {
    w.hit.lexical + RecencyBoost(w.hit, now) + w.hit.importance + if w.hit.source == Manual then 750000 else 0
  }

  datatype Ranked = Ranked(item: Working, pre: int, final: int)

  predicate RanksBefore(a: Working, b: Working, now: int) {
    || PreScore(a, now) > PreScore(b, now)
    || (PreScore(a, now) == PreScore(b, now)
        && (|| a.hit.updatedAt > b.hit.updatedAt
            || (a.hit.updatedAt == b.hit.updatedAt && a.hit.id <= b.hit.id)))
  }

  function RankOrder(now: int): (Working, Working) -> bool {
    (a: Working, b: Working) => RanksBefore(a, b, now)
  }

  /** How many of the items have this text. */
  function Copies(items: seq<Working>, text: string): nat {
    if |items| == 0 then 0
    else Copies(items[..|items|-1], text) + if items[|items|-1].hit.text == text then 1 else 0
  }

  /** The n-th result: charged 0.2 for every earlier one with the same text. */
  function RankedAt(ordered: seq<Working>, n: nat, now: int): Ranked
    requires n < |ordered|
  {
    var pre := PreScore(ordered[n], now);
    Ranked(ordered[n], pre, pre - 200000 * Copies(ordered[..n], ordered[n].hit.text))
  }

  lemma CopiesNext(ordered: seq<Working>, n: nat, text: string)
    requires n < |ordered|
    ensures Copies(ordered[..n+1], text) == Copies(ordered[..n], text) + if ordered[n].hit.text == text then 1 else 0
  {
    assert ordered[..n+1][..n] == ordered[..n];
  }

  ghost predicate Counted(seen: map<string, nat>, items: seq<Working>) {
    forall text: string :: Copies(items, text) == if text in seen then seen[text] else 0
  }

  lemma CountNext(seen: map<string, nat>, ordered: seq<Working>, n: nat)
    requires n < |ordered| && Counted(seen, ordered[..n])
    ensures var text := ordered[n].hit.text;
            Counted(seen[text := (if text in seen then seen[text] else 0) + 1], ordered[..n+1])
  {
    forall text: string
      ensures Copies(ordered[..n+1], text) == Copies(ordered[..n], text) + if ordered[n].hit.text == text then 1 else 0
    {
      CopiesNext(ordered, n, text);
    }
  }

  /** Orders by the score before penalties, then charges the duplicates. */
  method RankWorkingItems(items: seq<Working>, now: int) returns (ranked: seq<Ranked>)
    ensures |ranked| == |Sort(items, RankOrder(now))| == |items|
    ensures forall n: nat | n < |ranked| :: ranked[n] == RankedAt(Sort(items, RankOrder(now)), n, now)
  {
    var ordered := Sort(items, RankOrder(now));
    SortKeepsElements(items, RankOrder(now));
    var seen: map<string, nat> := map[];
    ranked := [];
    for n := 0 to |ordered|
      invariant |ranked| == n
      invariant Counted(seen, ordered[..n])
      invariant forall m: nat | m < n :: ranked[m] == RankedAt(ordered, m, now)
    {
      CountNext(seen, ordered, n);
      var text := ordered[n].hit.text;
      var duplicates := if text in seen then seen[text] else 0;
      assert duplicates == Copies(ordered[..n], text);
      var pre := PreScore(ordered[n], now);
      ranked := ranked + [Ranked(ordered[n], pre, pre - 200000 * duplicates)];
      seen := seen[text := duplicates + 1];
    }
  }

  lemma RankOrderIsTotal(now: int)
    ensures TotalPreorder(RankOrder(now))
  {}

  lemma {:induction false} CopiesGrow(items: seq<Working>, text: string, i: nat, j: nat)
    requires i < j <= |items| && items[i].hit.text == text
    ensures Copies(items[..i], text) < Copies(items[..j], text)
    decreases j - i
  {
    assert items[..j][..j-1] == items[..j-1];
    if i < j - 1 { CopiesGrow(items, text, i, j - 1); }
  }

  /** Ranking loses and invents nothing, orders by the score before penalties with ties
      to the newer and then the smaller identifier, and final scores strictly fall along
      the copies of one text. */
  lemma RankingIsFair(items: seq<Working>, now: int)
    ensures var ordered := Sort(items, RankOrder(now));
            && multiset(ordered) == multiset(items)
            && (forall i: nat, j: nat | i < j < |ordered| :: RanksBefore(ordered[i], ordered[j], now))
            && (forall i: nat, j: nat | i < j < |ordered| && ordered[i].hit.text == ordered[j].hit.text ::
                  RankedAt(ordered, i, now).final > RankedAt(ordered, j, now).final)
  {
    var ordered := Sort(items, RankOrder(now));
    SortKeepsElements(items, RankOrder(now));
    RankOrderIsTotal(now);
    SortSorts(items, RankOrder(now));
    forall i: nat, j: nat | i < j < |ordered| ensures RanksBefore(ordered[i], ordered[j], now) {
      assert RankOrder(now)(ordered[i], ordered[j]);
    }
    forall i: nat, j: nat | i < j < |ordered| && ordered[i].hit.text == ordered[j].hit.text
      ensures RankedAt(ordered, i, now).final > RankedAt(ordered, j, now).final
    {
      CopiesGrow(ordered, ordered[j].hit.text, i, j);
      assert RanksBefore(ordered[i], ordered[j], now);
    }
  }

  // -------------------------------------------------- results in their own fields

  /** What counts as automatic: entries that were saved automatically, summaries that were
      summarised, and what an old version left. */
  lemma AutomaticAre(h: Hit)
    ensures h.source == LegacyAutomatic ==> Automatic(h)
    ensures h.source == Autosaved ==> (Automatic(h) <==> h.kind == EntryRecord)
    ensures h.source == Summarized ==> (Automatic(h) <==> h.kind == SummaryRecord)
    ensures h.source in {Manual, UserOverride, PromotedFromSession, PromotedFromSubagent} ==> !Automatic(h)
  {}

  /** A returned record shares an applied scope with the search, field by field: it matched
      itself, or it is the visible override of an automatic record that matched. */
  lemma ReturnedSharesScope(hits: seq<Hit>, g: Setting, key: Key) returns (h: Hit, s: SearchScope)
    requires MergedFor(hits, g, key).Some?
    ensures h in hits && s in g.applied && s in MergedFor(hits, g, key).value.scopes
    ensures s == CurrentConversation ==>
              h.reach.conversation.Some? && h.reach.conversation == g.context.conversation
    ensures s == CurrentSessionTree ==> h.reach.root.Some? && h.reach.root == g.context.root
    ensures s == AgentScope ==> h.reach.agent.Some? && h.reach.agent == g.context.agent
    ensures s == UserScope ==> h.reach.user.Some? && h.reach.user == g.context.user
    ensures s == WorkspaceScope ==> h.reach.workspace.Some? && h.reach.workspace == g.context.workspace
    ensures key == (h.kind, h.id)
         || (g.substitute && Automatic(h) && OverrideOf(h, g).Some? && !OverrideOf(h, g).value.hidden
             && key == (h.kind, OverrideOf(h, g).value.hit.id))
  {
    h := MergedHitIsContributed(hits, g, key);
    var scopes := MatchedScopes(h, g.applied, g.context);
    assert scopes != {};
    s :| s in scopes;
    MergedScopesAreUnion(hits, g, key, s);
    assert MergedFor(hits, g, key).value.hit == Contribution(h, g).value.hit;
  }

  /** The converse: a candidate that shares an applied scope is returned under its own key
      unless substitution is on and a live manual override takes its place; then that one
      is returned, if it is visible. */
  lemma MatchesAreReturned(hits: seq<Hit>, g: Setting, h: Hit, s: SearchScope)
    requires h in hits && s in g.applied
    requires s == CurrentConversation ==>
               h.reach.conversation.Some? && h.reach.conversation == g.context.conversation
    requires s == CurrentSessionTree ==> h.reach.root.Some? && h.reach.root == g.context.root
    requires s == AgentScope ==> h.reach.agent.Some? && h.reach.agent == g.context.agent
    requires s == UserScope ==> h.reach.user.Some? && h.reach.user == g.context.user
    requires s == WorkspaceScope ==> h.reach.workspace.Some? && h.reach.workspace == g.context.workspace
    ensures h.target.Some? || !g.substitute || OverrideOf(h, g).None? ==> MergedFor(hits, g, (h.kind, h.id)).Some?
    ensures h.target.None? && g.substitute && OverrideOf(h, g).Some? && !OverrideOf(h, g).value.hidden ==>
              MergedFor(hits, g, (h.kind, OverrideOf(h, g).value.hit.id)).Some?
  {
    assert s in MatchedScopes(h, g.applied, g.context);
    var c := Contribution(h, g);
    if c.Some? {
      MergedExistsExactly(hits, g, KeyOf(c.value.hit));
      assert Contributes(h, g, KeyOf(c.value.hit));
    }
  }

  /** How a returned record is marked: what it overrides, or what overrides it, and whether
      it stands in for another. */
  lemma MarksAre(h: Hit, g: Setting)
    requires Contribution(h, g).Some?
    ensures var w := Contribution(h, g).value;
            && w.lexicalSource == h.id && w.hit.lexical == h.lexical
            && (h.target.Some? ==>
                  w.hit == h && w.status == OverridesAutomatic && w.target == h.target && !w.substituted)
            && (h.target.None? && OverrideOf(h, g).None? ==>
                  w.hit == h && w.status == NotOverridden && w.target.None? && !w.substituted)
            && (h.target.None? && OverrideOf(h, g).Some? && !g.substitute ==>
                  && w.hit == h && w.status == OverriddenByManual && !w.substituted
                  && w.target == Some(OverrideOf(h, g).value.hit.id))
            && (h.target.None? && OverrideOf(h, g).Some? && g.substitute ==>
                  && w.hit.id == OverrideOf(h, g).value.hit.id && w.hit.text == OverrideOf(h, g).value.hit.text
                  && w.substituted && w.substitutedFor == Some(h.id) && w.target == Some(h.id)
                  && w.status == OverridesAutomatic && !OverrideOf(h, g).value.hidden)
  {}

  /** The score before penalties: the lexical one, the importance, 0.75 for a manual record,
      and 0.6, 0.3 or 0.1 for one that was touched within a day, a week or thirty days. */
  lemma ScoreIs(w: Working, now: int)
    ensures var h := w.hit;
            var since := if h.updatedAt >= h.createdAt then now - h.updatedAt else now - h.createdAt;
            var bonus := PreScore(w, now) - h.lexical - h.importance - if h.source == Manual then 750000 else 0;
            && (since <= 24 * 3600 ==> bonus == 600000)
            && (24 * 3600 < since <= 7 * 24 * 3600 ==> bonus == 300000)
            && (7 * 24 * 3600 < since <= 30 * 24 * 3600 ==> bonus == 100000)
            && (30 * 24 * 3600 < since ==> bonus == 0)
  {}

  /** The places among the first `n` items where this text stands. */
  function Places(items: seq<Working>, n: nat, text: string): set<nat>
    requires n <= |items|
  {
    set i: nat | i < n && items[i].hit.text == text
  }

  lemma {:induction false} CopiesAreCounted(items: seq<Working>, n: nat, text: string)
    requires n <= |items|
    ensures Copies(items[..n], text) == |Places(items, n, text)|
  {
    if n == 0 {
      assert Places(items, 0, text) == {};
    } else {
      CopiesAreCounted(items, n - 1, text);
      CopiesNext(items, n - 1, text);
      var before := Places(items, n - 1, text);
      if items[n-1].hit.text == text {
        assert Places(items, n, text) == before + {n - 1} && n - 1 !in before;
      } else {
        assert Places(items, n, text) == before;
      }
    }
  }

  /** The ranking in the fields of its results: by score, then by update, then by
      identifier; and 0.2 less for each earlier result with the same text. */
  lemma RankedInOrder(items: seq<Working>, now: int, i: nat, j: nat)
    requires i < j < |Sort(items, RankOrder(now))|
    ensures var ordered := Sort(items, RankOrder(now));
            var a, b := RankedAt(ordered, i, now), RankedAt(ordered, j, now);
            && a.pre >= b.pre
            && (a.pre == b.pre ==> a.item.hit.updatedAt >= b.item.hit.updatedAt)
            && (a.pre == b.pre && a.item.hit.updatedAt == b.item.hit.updatedAt ==> a.item.hit.id <= b.item.hit.id)
            && a.item == ordered[i] && a.pre == PreScore(ordered[i], now)
            && b.final == b.pre - 200000 * |Places(ordered, j, ordered[j].hit.text)|
  {
    var ordered := Sort(items, RankOrder(now));
    RankingIsFair(items, now);
    assert RanksBefore(ordered[i], ordered[j], now);
    CopiesAreCounted(ordered, j, ordered[j].hit.text);
  }

  /** A contributor that is marked like this. */
  ghost predicate SomeContributor(hits: seq<Hit>, g: Setting, key: Key, mark: Working -> bool) {
    exists h: Hit :: h in hits && Contributes(h, g, key) && mark(Contribution(h, g).value)
  }

  const Overrides := (w: Working) => w.status == OverridesAutomatic
  const StandsIn := (w: Working) => w.substituted

  /** A merged item is marked as an override, or as standing in for another record,
      exactly if one of its contributors is. */
  lemma {:induction false} MergedMarksExactly(hits: seq<Hit>, g: Setting, key: Key)
    requires MergedFor(hits, g, key).Some?
    ensures MergedFor(hits, g, key).value.status == OverridesAutomatic <==> SomeContributor(hits, g, key, Overrides)
    ensures MergedFor(hits, g, key).value.substituted <==> SomeContributor(hits, g, key, StandsIn)
    ensures MergedFor(hits, g, key).value.substitutedFor.Some? <==> SomeContributor(hits, g, key, StandsIn)
  {
    var init := hits[..|hits|-1];
    var last := hits[|hits|-1];
    MergedExistsExactly(init, g, key);
    OneMoreContributor(hits, g, key, Overrides);
    OneMoreContributor(hits, g, key, StandsIn);
    if MergedFor(init, g, key).Some? {
      MergedMarksExactly(init, g, key);
    } else {
      NoContributor(init, g, key, Overrides);
      NoContributor(init, g, key, StandsIn);
    }
  }

  lemma OneMoreContributor(hits: seq<Hit>, g: Setting, key: Key, mark: Working -> bool)
    requires |hits| > 0
    ensures var init, last := hits[..|hits|-1], hits[|hits|-1];
            SomeContributor(hits, g, key, mark) <==>
              || SomeContributor(init, g, key, mark)
              || (Contributes(last, g, key) && mark(Contribution(last, g).value))
  {
    var init, last := hits[..|hits|-1], hits[|hits|-1];
    assert hits == init + [last];
    if SomeContributor(init, g, key, mark) {
      var h: Hit :| h in init && Contributes(h, g, key) && mark(Contribution(h, g).value);
      assert h in hits;
    }
    if Contributes(last, g, key) && mark(Contribution(last, g).value) { assert last in hits; }
  }

  lemma NoContributor(hits: seq<Hit>, g: Setting, key: Key, mark: Working -> bool)
    requires MergedFor(hits, g, key).None?
    ensures !SomeContributor(hits, g, key, mark)
  {
    MergedExistsExactly(hits, g, key);
  }

  /** What it overrides, or what overrides it, is what one contributor of the same mark says. */
  lemma {:induction false} MergedTargetIsContributed(hits: seq<Hit>, g: Setting, key: Key) returns (h: Hit)
    requires MergedFor(hits, g, key).Some?
    ensures h in hits && Contributes(h, g, key)
    ensures Contribution(h, g).value.status == MergedFor(hits, g, key).value.status
    ensures Contribution(h, g).value.target == MergedFor(hits, g, key).value.target
  {
    var init := hits[..|hits|-1];
    var last := hits[|hits|-1];
    assert hits == init + [last];
    h := last;
    if MergedFor(init, g, key).Some?
       && (!Contributes(last, g, key) || Contribution(last, g).value.status != OverridesAutomatic) {
      h := MergedTargetIsContributed(init, g, key);
    }
  }
}
