/** What a search with substitution returns after any history of memory edits. */
module SearchHistory {
  import opened Tables
  import opened MemoryTables
  import opened MemoryHistory
  import opened MemorySearch

  /** The hit is a stored record, as far as substitution looks at it. */
  ghost predicate HitOf(m: Memory, h: Hit) {
    match h.kind
    case EntryRecord =>
      h.id in m.entries && h.source == m.entries[h.id].source && h.target == m.entries[h.id].target
    case SummaryRecord =>
      h.id in m.summaries && h.source == m.summaries[h.id].source && h.target == m.summaries[h.id].target
  }

  /** The undeleted manual record `o` overrides the record `id` of the same kind. */
  ghost predicate LiveOverride(m: Memory, kind: RecordKind, id: nat, o: nat) {
    match kind
    case EntryRecord =>
      && o in m.entries && m.entries[o].target == Some(id)
      && m.entries[o].source == Manual && m.entries[o].deletedAt.None?
    case SummaryRecord =>
      && o in m.summaries && m.summaries[o].target == Some(id)
      && m.summaries[o].source == Manual && m.summaries[o].deletedAt.None?
  }

  ghost predicate FoundOverride(m: Memory, kind: RecordKind, id: nat, row: OverrideRow) {
    && LiveOverride(m, kind, id, row.hit.id) && row.hit.source == Manual
    && row.hidden == (if kind == EntryRecord then m.entries[row.hit.id].hidden else m.summaries[row.hit.id].hidden)
  }

  /** The two queries for the overrides of the candidates: what they find are live manual
      overrides, and they find one for every candidate that has any. */
  ghost predicate QueriedOverrides(m: Memory, hits: seq<Hit>, g: Setting) {
    && (forall id: nat | id in g.entryOverrides :: FoundOverride(m, EntryRecord, id, g.entryOverrides[id]))
    && (forall id: nat | id in g.summaryOverrides :: FoundOverride(m, SummaryRecord, id, g.summaryOverrides[id]))
    && (forall h: Hit, o: nat | h in hits && LiveOverride(m, h.kind, h.id, o) ::
          h.id in if h.kind == EntryRecord then g.entryOverrides.Keys else g.summaryOverrides.Keys)
  }

  /** An automatic record of the store is never itself an override. */
  lemma AutomaticIsNoOverride(m: Memory, h: Hit)
    requires WellFormed(m) && SummariesFormed(m) && HitOf(m, h)
    ensures Automatic(h) ==> h.target.None?
  {
    if h.kind == SummaryRecord { assert SummaryFormed(m, h.id); }
  }

  /** After any history of edits and captures, a search with substitution returns no
      automatic record that has a live manual override, be it visible or hidden. */
  lemma SearchReturnsNothingOverridden(m: Memory, ops: seq<Op>, hits: seq<Hit>, g: Setting, key: Key, o: nat)
    requires WellFormed(m) && SummariesFormed(m)
    requires forall h: Hit | h in hits :: HitOf(Replay(m, ops), h)
    requires QueriedOverrides(Replay(m, ops), hits, g) && g.substitute
    requires MergedFor(hits, g, key).Some? && LiveOverride(Replay(m, ops), key.0, key.1, o)
    ensures !Automatic(MergedFor(hits, g, key).value.hit)
  {
    ReplayKeepsWellFormed(m, ops);
    ReplayKeepsSummariesFormed(m, ops);
    MergedExistsExactly(hits, g, key);
    var h := MergedHitIsContributed(hits, g, key);
    ContributedIsNotOverridden(Replay(m, ops), hits, g, h, o);
  }

  lemma ContributedIsNotOverridden(t: Memory, hits: seq<Hit>, g: Setting, h: Hit, o: nat)
    requires WellFormed(t) && SummariesFormed(t) && h in hits && HitOf(t, h)
    requires QueriedOverrides(t, hits, g) && g.substitute && Contribution(h, g).Some?
    requires var made := Contribution(h, g).value.hit; LiveOverride(t, made.kind, made.id, o)
    ensures !Automatic(Contribution(h, g).value.hit)
  {
    AutomaticIsNoOverride(t, h);
    if h.target.Some? || OverrideOf(h, g).None? { assert LiveOverride(t, h.kind, h.id, o); }
  }
}
