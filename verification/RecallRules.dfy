/** Which memories reach which layer of whose prompt, in the fields of the memories. */
module RecallRules {
  import opened Tables
  import opened MemoryTables
  import opened PromptPacking
  import opened PromptContext
  import opened PromptAssembly
  import opened MemoryHistory
  import opened MemoryRecall

  predicate InWorkspace(e: Entry, v: Viewer) {
    e.reach.workspace == Some(v.workspace) && v.workspace != ""
  }

  /** The entry belongs to the layer of this viewer: a delegated session is shown the
      episodes of its own session alone. */
  ghost predicate Belongs(e: Entry, v: Viewer, layer: Layer) {
    match layer
    case Episodic => e.scope == EpisodicScope && (v.delegated ==> e.reach.session == Some(v.session))
    case WorkspaceProject => e.scope != EpisodicScope && InWorkspace(e, v)
    case StableAutosaved => e.scope != EpisodicScope && !InWorkspace(e, v) && e.source == Autosaved
    case StableManual => e.scope != EpisodicScope && !InWorkspace(e, v) && e.source != Autosaved
    case ConversationSummary => false
  }

  lemma EntryLayerIs(e: Entry, v: Viewer, layer: Layer)
    ensures EntryLayer(e, v) == Some(layer) <==> Belongs(e, v, layer)
  {}

  /** Two entries compete for one place exactly if they override the same entry, or
      override none and share scope, scope key and title up to case and spacing. */
  lemma RivalsExactly(a: Entry, b: Entry)
    ensures EntryNaturalKey(a) == EntryNaturalKey(b) <==>
              || (a.target.Some? && a.target == b.target)
              || (a.target.None? && b.target.None? && a.scope == b.scope && a.scopeKey == b.scopeKey
                  && TitleKey(a.title) == TitleKey(b.title))
  {}

  /** Two summaries, if they override the same one, or override none and share scope key,
      session and conversation. */
  lemma RivalSummariesExactly(a: Summary, b: Summary)
    ensures SummaryNaturalKey(a) == SummaryNaturalKey(b) <==>
              || (a.target.Some? && a.target == b.target)
              || (a.target.None? && b.target.None? && a.scopeKey == b.scopeKey
                  && a.reach.session == b.reach.session && a.reach.conversation == b.reach.conversation)
  {}

  /** What the user wrote or approved outranks what was saved automatically. */
  lemma PrioritiesAre()
    ensures Priority(Manual) < Priority(UserOverride) < Priority(PromotedFromSession)
    ensures Priority(PromotedFromSession) == Priority(PromotedFromSubagent) < Priority(Autosaved)
    ensures Priority(Autosaved) < Priority(Summarized) < Priority(LegacyAutomatic)
  {}

  /** What the user wrote, edited or promoted is the user's; the rest is automatic. */
  lemma SourcesAre(source: Source)
    ensures UserManaged(source) <==> source != Autosaved && source != Summarized && source != LegacyAutomatic
  {}

  /** A candidate that won among entries or among summaries. */
  lemma WinnerKinds(entries: seq<Entry>, summaries: seq<Summary>, v: Viewer, score: Entry -> Score, c: Candidate)
    ensures c in Winners(Resolutions(EntryItems(entries, v, score))) ==> c.kind == EntryRecord
    ensures c in Winners(Resolutions(SummaryItems(summaries, v))) ==> c.kind == SummaryRecord
  {
    if c in Winners(Resolutions(EntryItems(entries, v, score))) {
      var e := OnlyVisibleEntriesAreIncluded(entries, v, score, c);
    }
    if c in Winners(Resolutions(SummaryItems(summaries, v))) {
      var items := SummaryItems(summaries, v);
      WinnersAndReports(Resolutions(items));
      var res: Resolution :| res in Resolutions(items) && res.Won? && res.candidate == c;
      var winner := WinnersAreVisible(items, res);
      var n: nat :| n < |items| && items[n] == winner;
    }
  }

  lemma RowsCandidate(
    entries: seq<Entry>, summaries: seq<Summary>, v: Viewer, score: Entry -> Score,
    texts: seq<string>, included: seq<Row>, excluded: seq<Row>, row: Row)
    returns (c: Candidate)
    requires Assembled(entries, summaries, v, score, texts, included, excluded) && row in included
    ensures row.id == c.id && row.kind == c.kind && row.layer == Some(c.layer)
    ensures if row.kind == EntryRecord then c in Winners(Resolutions(EntryItems(entries, v, score)))
            else c in Winners(Resolutions(SummaryItems(summaries, v)))
  {
    var won := Winners(Resolutions(EntryItems(entries, v, score))) + Winners(Resolutions(SummaryItems(summaries, v)));
    assert RowFrom(row, won);
    c :| c in won && c in LayerCandidates(won, c.layer) && row == CandidateRow(c, row.reason);
    WinnerKinds(entries, summaries, v, score, c);
  }

  /** After any history every entry row of a prompt stands for a stored entry that the
      session loads, visible and not overridden, in the layer it belongs to. */
  lemma IncludedEntryBelongs(
    m: Memory, ops: seq<Op>, v: Viewer, entries: seq<Entry>, summaries: seq<Summary>, score: Entry -> Score,
    texts: seq<string>, included: seq<Row>, excluded: seq<Row>, row: Row)
    returns (e: Entry)
    requires WellFormed(m) && LoadedFrom(Replay(m, ops), v, entries)
    requires Assembled(entries, summaries, v, score, texts, included, excluded)
    requires row in included && row.kind == EntryRecord
    ensures row.id in Replay(m, ops).entries && e == Replay(m, ops).entries[row.id]
    ensures !e.hidden && e.deletedAt.None? && !OverriddenAnywhere(Replay(m, ops), e)
    ensures row.layer.Some? && Belongs(e, v, row.layer.value)
    ensures row.layer == Some(Episodic) && v.delegated ==> e.reach.session == Some(v.session)
    ensures || e.reach.agent == Some(v.agent) || e.reach.session == Some(v.session) || e.reach.root == Some(v.root)
            || e.reach.conversation == Some(v.conversation) || e.reach.user == Some(LocalUser)
            || e.reach.workspace == Some(v.workspace)
  {
    var c := RowsCandidate(entries, summaries, v, score, texts, included, excluded, row);
    e := OnlyVisibleEntriesAreIncluded(entries, v, score, c);
    ReplayKeepsWellFormed(m, ops);
    OverridesAreLoadedToo(Replay(m, ops), v, entries, e);
    EntryLayerIs(e, v, c.layer);
  }

  /** And every summary row for a visible summary of the viewer's own conversation that
      belongs to no task run. */
  lemma IncludedSummaryBelongs(
    m: Memory, ops: seq<Op>, v: Viewer, entries: seq<Entry>, summaries: seq<Summary>, score: Entry -> Score,
    texts: seq<string>, included: seq<Row>, excluded: seq<Row>, row: Row)
    returns (s: Summary)
    requires SummariesFormed(m) && SummariesLoadedFrom(Replay(m, ops), v, summaries)
    requires Assembled(entries, summaries, v, score, texts, included, excluded)
    requires row in included && row.kind == SummaryRecord
    ensures row.id in Replay(m, ops).summaries && s == Replay(m, ops).summaries[row.id]
    ensures !s.hidden && s.deletedAt.None? && !SummaryOverridden(Replay(m, ops), s)
    ensures row.layer == Some(ConversationSummary)
    ensures s.taskRun.None? && s.reach.conversation == Some(v.conversation)
    ensures forall t: Summary :: t in summaries <==>
              && t.id in Replay(m, ops).summaries && Replay(m, ops).summaries[t.id] == t && t.taskRun.None?
              && (|| t.reach.agent == Some(v.agent) || t.reach.session == Some(v.session)
                  || t.reach.root == Some(v.root) || t.reach.conversation == Some(v.conversation)
                  || t.reach.user == Some(LocalUser))
  {
    var c := RowsCandidate(entries, summaries, v, score, texts, included, excluded, row);
    s := PromptShowsOnlyVisibleSummaries(m, ops, v, summaries, c);
  }

  /** No other visible loaded entry of its key has a stronger source, or the same and is
      newer, or the same age and a smaller identifier. */
  ghost predicate Unbeaten(m: Memory, v: Viewer, e: Entry) {
    forall id: nat | id in m.entries && id != e.id && Loads(v, m.entries[id].reach) ::
      var d := m.entries[id];
      !d.hidden && d.deletedAt.None? && !OverriddenAnywhere(m, d) && EntryNaturalKey(d) == EntryNaturalKey(e) ==>
        || Priority(e.source) < Priority(d.source)
        || (Priority(e.source) == Priority(d.source)
            && (e.updatedAt > d.updatedAt || (e.updatedAt == d.updatedAt && e.id < d.id)))
  }

  /** The converse: after any history a visible, unbeaten entry that the session loads and
      that belongs to a layer is a candidate of exactly that layer, with its own line. */
  lemma UnbeatenEntryIsCandidate(
    m: Memory, ops: seq<Op>, v: Viewer, entries: seq<Entry>, score: Entry -> Score, id: nat, layer: Layer)
    returns (c: Candidate)
    requires WellFormed(m) && LoadedFrom(Replay(m, ops), v, entries)
    requires id in Replay(m, ops).entries
    requires var reach := Replay(m, ops).entries[id].reach;
             || reach.agent == Some(v.agent) || reach.session == Some(v.session) || reach.root == Some(v.root)
             || reach.conversation == Some(v.conversation) || reach.user == Some(LocalUser)
             || reach.workspace == Some(v.workspace)
    requires !Replay(m, ops).entries[id].hidden && Replay(m, ops).entries[id].deletedAt.None?
    requires !OverriddenAnywhere(Replay(m, ops), Replay(m, ops).entries[id])
    requires Unbeaten(Replay(m, ops), v, Replay(m, ops).entries[id])
    requires Belongs(Replay(m, ops).entries[id], v, layer)
    ensures c in Winners(Resolutions(EntryItems(entries, v, score)))
    ensures c.id == id && c.kind == EntryRecord && c.layer == layer
    ensures c.rendered == RenderEntry(Replay(m, ops).entries[id])
  {
    var t := Replay(m, ops);
    ReplayKeepsWellFormed(m, ops);
    var e := t.entries[id];
    assert e.id == id && e in entries;
    OverridesAreLoadedToo(t, v, entries, e);
    var items := EntryItems(entries, v, score);
    var item := EntryItem(e, v, score);
    ItemOfEntry(entries, v, score, e);
    VisibleEntryIsVisibleItem(entries, v, score, e);
    EntryLayerIs(e, v, layer);
    var winner := ContestMeans(items, item.key);
    UnbeatenWins(t, v, entries, score, e, winner);
    c := CandidateOf(item);
    ContestIsIn(items, item);
    WinnersAndReports(Resolutions(items));
  }

  /** Who wins the key of an unbeaten entry is that entry. */
  lemma UnbeatenWins(t: Memory, v: Viewer, entries: seq<Entry>, score: Entry -> Score, e: Entry, winner: Item)
    requires WellFormed(t) && LoadedFrom(t, v, entries) && e in entries && Unbeaten(t, v, e)
    requires WinsKey(EntryItems(entries, v, score), winner, EntryItem(e, v, score).key)
    requires EntryItem(e, v, score) in EntryItems(entries, v, score)
    requires Visible(EntryItems(entries, v, score), EntryItem(e, v, score))
    ensures winner == EntryItem(e, v, score)
  {
    var items := EntryItems(entries, v, score);
    assert Stronger(winner, EntryItem(e, v, score));
    var n: nat :| n < |items| && items[n] == winner;
    var d := entries[n];
    assert d in entries && winner == EntryItem(d, v, score);
    assert t.entries[d.id] == d && t.entries[e.id] == e;
    VisibleItemIsVisibleEntry(entries, v, score, d);
    OverridesAreLoadedToo(t, v, entries, d);
  }

  lemma VisibleItemIsVisibleEntry(entries: seq<Entry>, v: Viewer, score: Entry -> Score, d: Entry)
    requires d in entries && Visible(EntryItems(entries, v, score), EntryItem(d, v, score))
    ensures !d.hidden && d.deletedAt.None? && !OverriddenIn(entries, d)
  {
    if OverriddenIn(entries, d) {
      var o: Entry :| o in entries && o.target == Some(d.id) && !o.hidden && o.deletedAt.None?;
      ItemOfEntry(entries, v, score, o);
    }
  }

  /** The contest of a visible item is among the resolutions. */
  lemma ContestIsIn(items: seq<Item>, i: Item)
    requires i in items && Visible(items, i)
    ensures forall res: Resolution | res in Contest(VisibleIn(items, items), i.key) :: res in Resolutions(items)
  {
    var visible := VisibleIn(items, items);
    VisibleInAre(items, items);
    KeysOfAre(visible);
    ContestsAre(visible, KeysOf(visible));
  }

  /** The line of an entry names its scope and title and ends with its trimmed text. */
  lemma LinesTell(e: Entry)
    ensures var line := RenderEntry(e);
            var head := "- [" + ScopeName(e.scope) + "/" + e.title + "] ";
            && |line| == |head| + |Strip(e.body)| && line[..|head|] == head && line[|head|..] == Strip(e.body)
  {}

  /** The line of a summary names its scope key and ends with its trimmed text. */
  lemma SummaryLinesTell(s: Summary, v: Viewer)
    ensures var line := SummaryItem(s, v).rendered;
            var head := "- [summary/" + s.scopeKey + "] ";
            && |line| == |head| + |Strip(s.text)| && line[..|head|] == head && line[|head|..] == Strip(s.text)
  {}
}
