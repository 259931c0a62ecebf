/** What the prompt of any session sees after any history of memory edits. */
module MemoryRecall {
  import opened Tables
  import opened MemoryTables
  import opened PromptPacking
  import opened PromptContext
  import opened PromptAssembly
  import opened MemoryHistory

  /** The entries a session loads, in some order. */
  ghost predicate LoadedFrom(m: Memory, v: Viewer, entries: seq<Entry>) {
    forall e: Entry :: e in entries <==> e.id in m.entries && m.entries[e.id] == e && Loads(v, e.reach)
  }

  /** Somewhere in the store a visible entry overrides this one. */
  ghost predicate OverriddenAnywhere(m: Memory, e: Entry) {
    exists id: nat :: id in m.entries && m.entries[id].target == Some(e.id)
                      && !m.entries[id].hidden && m.entries[id].deletedAt.None?
  }

  /** An entry and its overrides are one family. */
  function Family(e: Entry): nat {
    if e.target.Some? then e.target.value else e.id
  }

  /** An override is loaded wherever its target is. */
  lemma OverridesAreLoadedToo(m: Memory, v: Viewer, entries: seq<Entry>, e: Entry)
    requires WellFormed(m) && LoadedFrom(m, v, entries) && e in entries
    ensures OverriddenAnywhere(m, e) <==> OverriddenIn(entries, e)
  {
    if OverriddenAnywhere(m, e) {
      var id: nat :| id in m.entries && m.entries[id].target == Some(e.id)
                     && !m.entries[id].hidden && m.entries[id].deletedAt.None?;
      assert m.entries[id] in entries;
    }
    if OverriddenIn(entries, e) {
      var o: Entry :| o in entries && o.target == Some(e.id) && !o.hidden && o.deletedAt.None?;
      assert o.id in m.entries;
    }
  }

  /** After any history, whatever a prompt includes of an entry is visible, and not
      overridden by a visible entry anywhere, even if a restore has un-hidden it. */
  lemma PromptShowsOnlyVisibleMemory(
    m: Memory, ops: seq<Op>, v: Viewer, entries: seq<Entry>, score: Entry -> Score, c: Candidate)
    returns (e: Entry)
    requires WellFormed(m) && LoadedFrom(Replay(m, ops), v, entries)
    requires c in Winners(Resolutions(EntryItems(entries, v, score)))
    ensures e.id == c.id && e.id in Replay(m, ops).entries && Replay(m, ops).entries[e.id] == e && Loads(v, e.reach)
    ensures !e.hidden && e.deletedAt.None? && !OverriddenAnywhere(Replay(m, ops), e)
  {
    ReplayKeepsWellFormed(m, ops);
    e := OnlyVisibleEntriesAreIncluded(entries, v, score, c);
    OverridesAreLoadedToo(Replay(m, ops), v, entries, e);
  }

  /** After any history at most one member of a family, the entry or one of its
      overrides, reaches a prompt. */
  lemma OneVoicePerFamily(
    m: Memory, ops: seq<Op>, v: Viewer, entries: seq<Entry>, score: Entry -> Score, c: Candidate, d: Candidate)
    requires WellFormed(m) && LoadedFrom(Replay(m, ops), v, entries)
    requires c in Winners(Resolutions(EntryItems(entries, v, score)))
    requires d in Winners(Resolutions(EntryItems(entries, v, score)))
    requires c.id in Replay(m, ops).entries && d.id in Replay(m, ops).entries
    requires Family(Replay(m, ops).entries[c.id]) == Family(Replay(m, ops).entries[d.id])
    ensures c.id == d.id
  {
    var t := Replay(m, ops);
    ReplayKeepsWellFormed(m, ops);
    var a := OnlyVisibleEntriesAreIncluded(entries, v, score, c);
    var b := OnlyVisibleEntriesAreIncluded(entries, v, score, d);
    assert t.entries[a.id] == a && t.entries[b.id] == b;
    assert a.target.Some? && b.target.Some? ==> EntryNaturalKey(a) == EntryNaturalKey(b);
    assert a.target == Some(b.id) ==> OverriddenIn(entries, b);
    assert b.target == Some(a.id) ==> OverriddenIn(entries, a);
  }

  // ---------------------------------------------------------------- summaries

  ghost predicate SummariesLoadedFrom(m: Memory, v: Viewer, summaries: seq<Summary>) {
    forall s: Summary :: s in summaries <==> s.id in m.summaries && m.summaries[s.id] == s && LoadsSummary(v, s)
  }

  /** Somewhere in the store a visible summary overrides this one. */
  ghost predicate SummaryOverridden(m: Memory, s: Summary) {
    exists id: nat :: id in m.summaries && m.summaries[id].target == Some(s.id)
                      && !m.summaries[id].hidden && m.summaries[id].deletedAt.None?
  }

  /** The same for summaries, even for one that was hidden and that a later refresh of
      the conversation has written anew. */
  lemma PromptShowsOnlyVisibleSummaries(m: Memory, ops: seq<Op>, v: Viewer, summaries: seq<Summary>, c: Candidate)
    returns (s: Summary)
    requires SummariesFormed(m) && SummariesLoadedFrom(Replay(m, ops), v, summaries)
    requires c in Winners(Resolutions(SummaryItems(summaries, v)))
    ensures s.id == c.id && s.id in Replay(m, ops).summaries && Replay(m, ops).summaries[s.id] == s
    ensures LoadsSummary(v, s) && SummaryLayer(s, v) == Some(c.layer)
    ensures !s.hidden && s.deletedAt.None? && !SummaryOverridden(Replay(m, ops), s)
  {
    var t := Replay(m, ops);
    var items := SummaryItems(summaries, v);
    ReplayKeepsSummariesFormed(m, ops);
    WinnersAndReports(Resolutions(items));
    var res: Resolution :| res in Resolutions(items) && res.Won? && res.candidate == c;
    var winner := WinnersAreVisible(items, res);
    var n: nat :| n < |items| && items[n] == winner;
    s := summaries[n];
    assert s in summaries && winner == SummaryItem(s, v);
    if SummaryOverridden(t, s) {
      var id: nat :| id in t.summaries && t.summaries[id].target == Some(s.id)
                     && !t.summaries[id].hidden && t.summaries[id].deletedAt.None?;
      OverrideIsLoaded(t, v, summaries, id, s);
    }
  }

  /** A live override of a loaded summary is loaded, and drops it. */
  lemma OverrideIsLoaded(t: Memory, v: Viewer, summaries: seq<Summary>, id: nat, s: Summary)
    requires SummariesFormed(t) && SummariesLoadedFrom(t, v, summaries) && s in summaries
    requires id in t.summaries && t.summaries[id].target == Some(s.id)
    requires !t.summaries[id].hidden && t.summaries[id].deletedAt.None?
    ensures exists o: Item :: o in SummaryItems(summaries, v) && o.target == Some(s.id) && !o.hidden && !o.deleted
  {
    assert SummaryFormed(t, id);
    var o := t.summaries[id];
    assert o in summaries;
    var n: nat :| n < |summaries| && summaries[n] == o;
    assert SummaryItems(summaries, v)[n] == SummaryItem(o, v);
  }
}
