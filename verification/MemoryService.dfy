/** The memory services on their tables, proved against `MemoryHistory`. */
module MemoryService {
  import opened Tables
  import opened MemoryTables
  import opened MemoryHistory
  import opened MemoryText

  datatype MemoryError = NotFound | Unacceptable | Conflict(existing: nat)

  datatype Outcome = Done(id: nat) | Refused(why: MemoryError)

  /** Every entry but `id` is as it was, and that one kept its place, text and target. */
  predicate Alone(m: Memory, t: Memory, id: nat) {
    && m.entries.Keys == t.entries.Keys && m.summaries == t.summaries && id in t.entries
    && (forall other: nat | other in m.entries && other != id :: t.entries[other] == m.entries[other])
    && t.entries[id].title == m.entries[id].title && t.entries[id].body == m.entries[id].body
    && t.entries[id].reach == m.entries[id].reach && t.entries[id].target == m.entries[id].target
  }

  /** An automatic summary of the session itself. */
  predicate Owned(s: Summary, session: nat) {
    s.reach.session == Some(session) && s.source == Summarized && s.taskRun.None?
  }

  /** The text an edit gives, or what was there before. */
  function Given(old_: string, new_: Option<string>): string {
    if new_.Some? then new_.value else old_
  }

  /** An override takes an empty text for none. */
  function GivenSome(old_: string, new_: Option<string>): string {
    if new_.Some? && new_.value != "" then new_.value else old_
  }

  ghost predicate BlankEdit(e: Entry, edit: Edit) {
    if UserManaged(e.source) then AllSpace(Given(e.title, edit.title)) || AllSpace(Given(e.body, edit.body))
    else AllSpace(GivenSome(e.title, edit.title)) || AllSpace(GivenSome(e.body, edit.body))
  }

  /** The entry holds the edited title, body and summary, each in its stored form, and the
      identifying text that goes with them; nothing else of it but the update time, and no
      other entry, has changed. */
  ghost predicate EditedInPlace(before: map<nat, Entry>, after: map<nat, Entry>, id: nat, edit: Edit) {
    && id in before && after.Keys == before.Keys
    && (forall k: nat | k in before && k != id :: after[k] == before[k])
    && var e, f := before[id], after[id];
       && f.title == Spaced(Words(Given(e.title, edit.title), "")) && f.body == Strip(Given(e.body, edit.body))
       && (edit.summary.Some? ==> f.summary == Some(Strip(edit.summary.value)))
       && (edit.summary.None? && e.summary.Some? ==> f.summary == Some(Strip(e.summary.value)))
       && (edit.summary.None? && e.summary.None? ==> f.summary.None?)
       && f.hash == DedupeText(f.title, f.body, f.summary)
       && f.source == e.source && f.hidden == e.hidden && f.deletedAt == e.deletedAt && f.scope == e.scope
       && f.scopeKey == e.scopeKey && f.reach == e.reach && f.target == e.target
  }

  /** The automatic entry is hidden, and a manual copy in the same place holds the edited
      title and body and points to it. */
  ghost predicate HiddenBehindCopy(before: map<nat, Entry>, after: map<nat, Entry>, id: nat, copy: nat, edit: Edit) {
    && id in before && copy !in before && after.Keys == before.Keys + {copy}
    && (forall k: nat | k in before && k != id :: after[k] == before[k])
    && var e, h, f := before[id], after[id], after[copy];
       && h.hidden && h == e.(hidden := true, updatedAt := h.updatedAt)
       && f.title == Spaced(Words(Strip(GivenSome(e.title, edit.title)), ""))
       && f.body == Strip(GivenSome(e.body, edit.body))
       && f.summary == Some(Strip(Summarize(f.body, 160)))
       && f.hash == DedupeText(f.title, f.body, f.summary)
       && f.target == Some(id) && f.source == Manual && !f.hidden && f.deletedAt.None?
       && f.scope == e.scope && f.scopeKey == e.scopeKey && f.reach == e.reach
  }

  lemma EditedTextIs(e: Entry, edit: Edit)
    ensures EditedText(e, edit).None? ==>
              AllSpace(Given(e.title, edit.title)) || AllSpace(Given(e.body, edit.body))
  {
    ManualTextIs(Given(e.title, edit.title), Given(e.body, edit.body),
                 if edit.summary.Some? then edit.summary else e.summary);
  }

  lemma RewritingEdits(entries: map<nat, Entry>, id: nat, edit: Edit, now: int)
    requires id in entries && UserManaged(entries[id].source) && EditedText(entries[id], edit).Some?
    ensures EditedInPlace(
              entries, entries[id := Rewritten(entries[id], EditedText(entries[id], edit).value).(updatedAt := now)],
              id, edit)
  {}

  lemma OverrideTextIs(e: Entry, edit: Edit)
    ensures OverrideText(e, edit).None? ==>
              AllSpace(GivenSome(e.title, edit.title)) || AllSpace(GivenSome(e.body, edit.body))
    ensures OverrideText(e, edit).Some? ==>
              var t := OverrideText(e, edit).value;
              && t.title == Spaced(Words(Strip(GivenSome(e.title, edit.title)), ""))
              && t.body == Strip(GivenSome(e.body, edit.body))
              && t.summary == Some(Strip(Summarize(t.body, 160)))
  {
    var title, body := GivenSome(e.title, edit.title), GivenSome(e.body, edit.body);
    ManualTextIs(Strip(title), Strip(body), Some(Summarize(Strip(body), 160)));
    var i, j := StripIs(title);
    var k, l := StripIs(body);
    StripTwice(title);
    StripTwice(body);
  }

  class MemoryService {
    var entries: map<nat, Entry>
    var summaries: map<nat, Summary>
    var nextId: nat
    var now: int
    var enabled: bool

    function Contents(): Memory
      reads this
    {
      Memory(entries, summaries, nextId, now, enabled)
    }

    ghost predicate Valid()
      reads this
    {
      WellFormed(Contents())
    }

    constructor (enabled: bool)
      ensures Valid() && Contents() == Memory(map[], map[], 0, 0, enabled)
    {
      this.enabled := enabled;
      entries, summaries, nextId, now := map[], map[], 0, 0;
    }

    /** Some entry with this content that is not deleted. */
    method FindActiveByDedupeHash(hash: string, except: Option<nat>) returns (found: Option<nat>)
      ensures found.Some? <==> ActiveHash(Contents(), hash, except)
      ensures found.None? ==> forall id: nat | id in entries && entries[id].hash == hash && Some(id) != except ::
                entries[id].deletedAt.Some?
      ensures found.Some? ==>
                && found.value in entries && Some(found.value) != except
                && entries[found.value].hash == hash && entries[found.value].deletedAt.None?
    {
      var left := entries.Keys;
      while left != {}
        invariant left <= entries.Keys
        invariant forall id: nat | id in entries && id !in left ::
                    !(entries[id].hash == hash && entries[id].deletedAt.None? && Some(id) != except)
        decreases |left|
      {
        var id :| id in left;
        if entries[id].hash == hash && entries[id].deletedAt.None? && Some(id) != except {
          return Some(id);
        }
        left := left - {id};
      }
      return None;
    }

    /** Some entry with this content that the user has hidden or deleted. */
    method FindUserTombstone(hash: string) returns (found: Option<nat>)
      ensures found.Some? <==> Tombstone(Contents(), hash)
      ensures found.Some? ==>
                && found.value in entries && entries[found.value].hash == hash
                && (entries[found.value].deletedAt.Some? || entries[found.value].hidden)
      ensures found.None? ==> forall id: nat | id in entries && entries[id].hash == hash ::
                entries[id].deletedAt.None? && !entries[id].hidden
    {
      var left := entries.Keys;
      while left != {}
        invariant left <= entries.Keys
        invariant forall id: nat | id in entries && id !in left ::
                    !(entries[id].hash == hash && (entries[id].deletedAt.Some? || entries[id].hidden))
        decreases |left|
      {
        var id :| id in left;
        if entries[id].hash == hash && (entries[id].deletedAt.Some? || entries[id].hidden) {
          return Some(id);
        }
        left := left - {id};
      }
      return None;
    }

    method FindSummaryOfRun(taskRun: Option<nat>) returns (found: bool)
      ensures found <==> SummaryOfRun(Contents(), taskRun)
    {
      if taskRun.None? { return false; }
      var left := summaries.Keys;
      while left != {}
        invariant left <= summaries.Keys
        invariant forall id: nat | id in summaries && id !in left :: summaries[id].taskRun != taskRun
        decreases |left|
      {
        var id :| id in left;
        if summaries[id].taskRun == taskRun { return true; }
        left := left - {id};
      }
      return false;
    }

    method AddEntry(e: Entry)
      requires e.id == nextId
      modifies this`entries, this`nextId
      ensures Contents() == Add(old(Contents()), e)
    {
      entries := entries[nextId := e];
      nextId := nextId + 1;
    }

    method SaveEntry(e: Entry)
      modifies this`entries
      ensures Contents() == Save(old(Contents()), e)
    {
      entries := entries[e.id := e.(updatedAt := now)];
    }

    method AddSessionSummary(taskRun: Option<nat>, reach: Reach, scopeKey: string, output: string)
      modifies this`summaries, this`nextId
      ensures Contents() == CaptureSummary(old(Contents()), taskRun, reach, scopeKey, output)
    {
      var text := Summarize(output, 160);
      summaries := summaries[nextId := Summary(nextId, Local(reach), scopeKey, taskRun, Summarized, text, false, None,
          now, None)];
      nextId := nextId + 1;
    }

    method CreateManualEntry(reach: Reach, scope: Scope, scopeKey: string, title: string, body: string,
        summary: Option<string>)
      returns (res: Outcome)
      requires Valid()
      modifies this
      ensures Valid()
      ensures Contents() == Apply(old(Contents()), CreateOp(reach, scope, scopeKey, title, body, summary))
      ensures res.Done? ==> res.id in entries && res.id !in old(entries)
      ensures res.Refused? ==> Contents() == old(Contents())
      ensures res.Refused? && res.why.Conflict? ==>
                && res.why.existing in entries
                && entries[res.why.existing].deletedAt.None?
                && entries[res.why.existing].hash ==
                     DedupeText(Spaced(Words(title, "")), Strip(body),
                                if summary.Some? then Some(Strip(summary.value)) else None)
      ensures res == Refused(Unacceptable) <==> AllSpace(title) || AllSpace(body)
      ensures res.Done? ==>
                && entries == old(entries)[res.id := entries[res.id]] && summaries == old(summaries)
                && var e := entries[res.id];
                   && e.title == Spaced(Words(title, "")) && e.body == Strip(body)
                   && e.summary == (if summary.Some? then Some(Strip(summary.value)) else None)
                   && e.hash == DedupeText(e.title, e.body, e.summary)
                   && e.scope == scope && e.scopeKey == scopeKey && e.reach == reach && e.source == Manual
                   && !e.hidden && e.deletedAt.None? && e.target.None? && e.updatedAt == now
    {
      ApplyKeepsWellFormed(Contents(), CreateOp(reach, scope, scopeKey, title, body, summary));
      ManualTextIs(title, body, summary);
      var text := InspectManual(title, body, summary);
      if text.None? { return Refused(Unacceptable); }
      var hash := HashOf(text.value);
      var conflict := FindActiveByDedupeHash(hash, None);
      if conflict.Some? { return Refused(Conflict(conflict.value)); }
      res := Done(nextId);
      AddEntry(NewEntry(Contents(), reach, scope, scopeKey, Manual, text.value, None));
    }

    /** An edit rewrites a user-managed entry in place; an automatic one is hidden
        behind a manual copy. */
    method UpdateItem(id: nat, edit: Edit) returns (res: Outcome)
      requires Valid()
      modifies this
      ensures Valid()
      ensures id !in old(entries) ==> res == Refused(NotFound) && Contents() == old(Contents())
      ensures id in old(entries) ==>
                Contents() == Apply(old(Contents()),
                                    if UserManaged(old(entries)[id].source) then UpdateOp(id, edit)
                                        else OverrideOp(id, edit))
      ensures res.Done? ==> res.id in entries && (res.id == id || entries[res.id].target == Some(id))
      ensures res.Refused? ==> Contents() == old(Contents())
      ensures res.Done? ==> summaries == old(summaries)
      ensures res.Done? && UserManaged(old(entries)[id].source) ==>
                res.id == id && EditedInPlace(old(entries), entries, id, edit)
      ensures res.Done? && !UserManaged(old(entries)[id].source) ==>
                HiddenBehindCopy(old(entries), entries, id, res.id, edit)
      ensures res == Refused(Unacceptable) ==> id in entries && BlankEdit(entries[id], edit)
    {
      if id !in entries { return Refused(NotFound); }
      if UserManaged(entries[id].source) {
        res := RewriteItem(id, edit);
      } else {
        res := OverrideItem(id, edit);
      }
    }

    method RewriteItem(id: nat, edit: Edit) returns (res: Outcome)
      requires Valid() && id in entries && UserManaged(entries[id].source)
      modifies this`entries
      ensures Valid() && Contents() == Apply(old(Contents()), UpdateOp(id, edit))
      ensures res.Refused? ==> entries == old(entries)
      ensures res.Done? ==> res.id == id && EditedInPlace(old(entries), entries, id, edit)
      ensures res == Refused(Unacceptable) ==> BlankEdit(entries[id], edit)
      ensures res != Refused(NotFound)
    {
      var entry := entries[id];
      ApplyKeepsWellFormed(Contents(), UpdateOp(id, edit));
      EditedTextIs(entry, edit);
      var text := EditedText(entry, edit);
      if text.None? { return Refused(Unacceptable); }
      var conflict := FindActiveByDedupeHash(HashOf(text.value), Some(id));
      if conflict.Some? { return Refused(Conflict(conflict.value)); }
      RewritingEdits(entries, id, edit, now);
      SaveEntry(Rewritten(entry, text.value));
      return Done(id);
    }

    method OverrideItem(id: nat, edit: Edit) returns (res: Outcome)
      requires Valid() && id in entries && !UserManaged(entries[id].source)
      modifies this`entries, this`nextId
      ensures Valid() && Contents() == Apply(old(Contents()), OverrideOp(id, edit))
      ensures res.Refused? ==> entries == old(entries) && nextId == old(nextId)
      ensures res.Done? ==> HiddenBehindCopy(old(entries), entries, id, res.id, edit)
      ensures res == Refused(Unacceptable) ==> BlankEdit(entries[id], edit)
      ensures res != Refused(NotFound)
    {
      var entry := entries[id];
      ApplyKeepsWellFormed(Contents(), OverrideOp(id, edit));
      OverrideTextIs(entry, edit);
      var text := OverrideText(entry, edit);
      if text.None? { return Refused(Unacceptable); }
      var copy := NewEntry(Contents(), entry.reach, entry.scope, entry.scopeKey, Manual, text.value, Some(id));
      SaveEntry(entry.(hidden := true));
      AddEntry(copy);
      return Done(copy.id);
    }

    /** Hiding touches the flag alone, so a deleted or already hidden entry stays so. */
    method HideItem(id: nat) returns (res: Outcome)
      requires Valid()
      modifies this
      ensures Valid() && Contents() == Apply(old(Contents()), HideOp(id))
      ensures res == if id in old(entries) then Done(id) else Refused(NotFound)
      ensures res.Done? ==> Alone(old(Contents()), Contents(), id) && entries[id].hidden && entries[id].updatedAt == now
                            && entries[id].(hidden := false, updatedAt := 0) ==
                                old(entries)[id].(hidden := false, updatedAt := 0)
    {
      ApplyKeepsWellFormed(Contents(), HideOp(id));
      if id !in entries { return Refused(NotFound); }
      SaveEntry(entries[id].(hidden := true));
      return Done(id);
    }

    /** Soft deletion stamps the entry; hard deletion removes the row and no other. */
    method DeleteItem(id: nat, hard: bool) returns (res: Outcome)
      requires Valid()
      modifies this
      ensures Valid() && Contents() == Apply(old(Contents()), if hard then HardDeleteOp(id) else SoftDeleteOp(id))
      ensures res == if id in old(entries) then Done(id) else Refused(NotFound)
      ensures res.Done? && hard ==> id !in entries && entries == old(entries) - {id}
      ensures res.Done? && !hard ==> Alone(old(Contents()), Contents(), id) && entries[id].deletedAt == Some(now)
                                     && entries[id].hidden == old(entries)[id].hidden
                                         && entries[id].hash == old(entries)[id].hash
    {
      ApplyKeepsWellFormed(Contents(), if hard then HardDeleteOp(id) else SoftDeleteOp(id));
      if id !in entries { return Refused(NotFound); }
      if hard {
        entries := entries - {id};
      } else {
        SaveEntry(entries[id].(deletedAt := Some(now)));
      }
      return Done(id);
    }

    /** A promoted entry is stable and from then on the user's; demoting it makes it
        episodic again but leaves it the user's. */
    method PromoteItem(id: nat) returns (res: Outcome)
      requires Valid()
      modifies this
      ensures Valid() && Contents() == Apply(old(Contents()), PromoteOp(id))
      ensures res == if id in old(entries) then Done(id) else Refused(NotFound)
      ensures res.Done? ==>
                && Alone(old(Contents()), Contents(), id) && entries[id].scope == Stable
                && UserManaged(entries[id].source)
                            && (entries[id].source == PromotedFromSubagent <==> entries[id].reach.parent.Some?)
    {
      ApplyKeepsWellFormed(Contents(), PromoteOp(id));
      if id !in entries { return Refused(NotFound); }
      var entry := entries[id].(scope := Stable);
      entry := entry.(source := if entry.reach.parent.Some? then PromotedFromSubagent else PromotedFromSession);
      SaveEntry(entry);
      return Done(id);
    }

    method DemoteItem(id: nat) returns (res: Outcome)
      requires Valid()
      modifies this
      ensures Valid() && Contents() == Apply(old(Contents()), DemoteOp(id))
      ensures res == if id in old(entries) then Done(id) else Refused(NotFound)
      ensures res.Done? ==> Alone(old(Contents()), Contents(), id) && entries[id].scope == EpisodicScope
                            && entries[id].source == old(entries)[id].source
    {
      ApplyKeepsWellFormed(Contents(), DemoteOp(id));
      if id !in entries { return Refused(NotFound); }
      SaveEntry(entries[id].(scope := EpisodicScope));
      return Done(id);
    }

    /** Restoring undeletes, then un-hides, whatever of the two applies. */
    method RestoreItem(id: nat) returns (res: Outcome)
      requires Valid()
      modifies this
      ensures Valid()
      ensures id !in old(entries) ==> res == Refused(NotFound) && Contents() == old(Contents())
      ensures id in old(entries) ==>
                && res == Done(id) && id in entries
                && entries[id].deletedAt.None? && !entries[id].hidden
                && entries[id].(updatedAt := 0) == old(entries)[id].(deletedAt := None, hidden := false, updatedAt := 0)
                && forall other: nat | other != id ::
                     (other in entries <==> other in old(entries))
                         && (other in entries ==> entries[other] == old(entries)[other])
    {
      if id !in entries { return Refused(NotFound); }
      if entries[id].deletedAt.Some? {
        SaveKeepsWellFormed(Contents(), entries[id].(deletedAt := None));
        SaveEntry(entries[id].(deletedAt := None));
      }
      if entries[id].hidden {
        SaveKeepsWellFormed(Contents(), entries[id].(hidden := false));
        SaveEntry(entries[id].(hidden := false));
      }
      return Done(id);
    }

    // ------------------------------------------------------------ summaries

    method CreateSummary(reach: Reach, scopeKey: string, text: string) returns (id: nat)
      requires Valid() && SummariesFormed(Contents())
      modifies this
      ensures Valid() && SummariesFormed(Contents())
      ensures Contents() == Apply(old(Contents()), CreateSummaryOp(reach, scopeKey, text))
      ensures id !in old(summaries) && id in summaries && UserManaged(summaries[id].source)
          && summaries[id].taskRun.None?
      ensures summaries == old(summaries)[id := summaries[id]] && entries == old(entries)
      ensures summaries[id].text == Strip(text) && summaries[id].scopeKey == scopeKey && !summaries[id].hidden
      ensures summaries[id].reach == reach.(user := Some(LocalUser)) && summaries[id].deletedAt.None?
    {
      ApplyKeepsWellFormed(Contents(), CreateSummaryOp(reach, scopeKey, text));
      ApplyKeepsSummariesFormed(Contents(), CreateSummaryOp(reach, scopeKey, text));
      id := nextId;
      summaries := summaries[id := Summary(id, Local(reach), scopeKey, None, Manual, Strip(text), false, None, now,
          None)];
      nextId := nextId + 1;
    }

    /** A manual summary is rewritten in place, an automatic one is hidden behind a manual
        copy for the same task run. */
    method UpdateSummary(id: nat, newText: Option<string>, newScopeKey: Option<string>) returns (res: Outcome)
      requires Valid() && SummariesFormed(Contents())
      modifies this
      ensures Valid() && SummariesFormed(Contents())
      ensures Contents() == Apply(old(Contents()), EditSummaryOp(id, newText, newScopeKey))
      ensures res.Refused? <==> id !in old(summaries)
      ensures res.Done? ==>
                && res.id in summaries && summaries[res.id].source == Manual
                && summaries[res.id].taskRun == old(summaries)[id].taskRun
                && (res.id != id ==> summaries[res.id].target == Some(id) && id in summaries && summaries[id].hidden)
                && (old(summaries)[id].source == Manual <==> res.id == id)
                && summaries[res.id].text == Strip(GivenSome(old(summaries)[id].text, newText))
                && summaries[res.id].scopeKey == Given(old(summaries)[id].scopeKey, newScopeKey)
                && summaries[res.id].reach == old(summaries)[id].reach
                && (forall k: nat | k in old(summaries) && k != id ::
                      k in summaries && summaries[k] == old(summaries)[k])
    {
      EditSummaryKeepsForm(Contents(), id, newText, newScopeKey);
      if id !in summaries { return Refused(NotFound); }
      var row := summaries[id];
      assert SummaryFormed(Contents(), id);
      var content := Strip(if newText.Some? && newText.value != "" then newText.value else row.text);
      if row.source == Manual {
        RewriteSummary(id, content, newScopeKey);
        return Done(id);
      }
      var copy := HideBehindCopy(id, content, if newScopeKey.Some? then newScopeKey.value else row.scopeKey);
      return Done(copy);
    }

    method RewriteSummary(id: nat, content: string, newScopeKey: Option<string>)
      requires id in summaries
      modifies this`summaries
      ensures summaries == old(summaries)[id := old(summaries)[id].(
                text := content, scopeKey := Given(old(summaries)[id].scopeKey, newScopeKey), updatedAt := now)]
    {
      var row := summaries[id].(text := content);
      if newScopeKey.Some? { row := row.(scopeKey := newScopeKey.value); }
      summaries := summaries[id := row.(updatedAt := now)];
    }

    method HideBehindCopy(id: nat, content: string, scopeKey: string) returns (copy: nat)
      requires id in summaries && id < nextId
      modifies this`summaries, this`nextId
      ensures copy == old(nextId) && copy in summaries && id in summaries && summaries[id].hidden
      ensures summaries[copy].target == Some(id) && summaries[copy].source == Manual
      ensures summaries[copy].taskRun == old(summaries)[id].taskRun
      ensures Contents() ==
                AddSummary(SaveSummary(old(Contents()), id, old(summaries)[id].(hidden := true)),
                           Summary(old(nextId), old(summaries)[id].reach, scopeKey, old(summaries)[id].taskRun,
                                   Manual, content, false, None, now, Some(id)))
    {
      var row := summaries[id];
      copy := nextId;
      summaries := summaries[id := row.(hidden := true, updatedAt := now)];
      summaries := summaries[copy := Summary(copy, row.reach, scopeKey, row.taskRun, Manual, content, false, None, now,
          Some(id))];
      nextId := nextId + 1;
    }

    method HideSummary(id: nat) returns (res: Outcome)
      requires Valid() && SummariesFormed(Contents())
      modifies this`summaries
      ensures Valid() && SummariesFormed(Contents()) && Contents() == Apply(old(Contents()), HideSummaryOp(id))
      ensures res == if id in old(summaries) then Done(id) else Refused(NotFound)
      ensures res.Done? ==>
                && id in summaries && summaries[id].hidden
                && summaries[id].deletedAt == old(summaries)[id].deletedAt
    {
      ApplyKeepsWellFormed(Contents(), HideSummaryOp(id));
      ApplyKeepsSummariesFormed(Contents(), HideSummaryOp(id));
      if id !in summaries { return Refused(NotFound); }
      summaries := summaries[id := summaries[id].(hidden := true, updatedAt := now)];
      return Done(id);
    }

    method RestoreSummary(id: nat) returns (res: Outcome)
      requires Valid() && SummariesFormed(Contents())
      modifies this`summaries
      ensures Valid() && SummariesFormed(Contents()) && Contents() == Apply(old(Contents()), RestoreSummaryOp(id))
      ensures res == if id in old(summaries) then Done(id) else Refused(NotFound)
      ensures res.Done? ==> id in summaries && !summaries[id].hidden && summaries[id].deletedAt.None?
    {
      ApplyKeepsWellFormed(Contents(), RestoreSummaryOp(id));
      ApplyKeepsSummariesFormed(Contents(), RestoreSummaryOp(id));
      if id !in summaries { return Refused(NotFound); }
      summaries := summaries[id := summaries[id].(hidden := false, deletedAt := None, updatedAt := now)];
      return Done(id);
    }

    /** Unlike an entry, a softly deleted summary is hidden as well. */
    method DeleteSummary(id: nat, hard: bool) returns (res: Outcome)
      requires Valid() && SummariesFormed(Contents())
      modifies this`summaries
      ensures Valid() && SummariesFormed(Contents())
      ensures Contents() == Apply(old(Contents()), if hard then DropSummaryOp(id) else SoftDeleteSummaryOp(id))
      ensures res == if id in old(summaries) then Done(id) else Refused(NotFound)
      ensures res.Done? && hard ==> summaries == old(summaries) - {id}
      ensures res.Done? && !hard ==> id in summaries && summaries[id].hidden && summaries[id].deletedAt == Some(now)
    {
      if hard {
        ApplyKeepsWellFormed(Contents(), DropSummaryOp(id));
        ApplyKeepsSummariesFormed(Contents(), DropSummaryOp(id));
      } else {
        ApplyKeepsWellFormed(Contents(), SoftDeleteSummaryOp(id));
        ApplyKeepsSummariesFormed(Contents(), SoftDeleteSummaryOp(id));
      }
      if id !in summaries {
        assert summaries - {id} == summaries;
        return Refused(NotFound);
      }
      if hard {
        summaries := summaries - {id};
      } else {
        summaries := summaries[id := summaries[id].(hidden := true, deletedAt := Some(now), updatedAt := now)];
      }
      return Done(id);
    }

    method FindConversationSummary(session: nat) returns (found: Option<nat>)
      requires SummariesFormed(Contents())
      ensures found == ConversationSummaryOf(Contents(), session, nextId)
      ensures found.Some? ==>
                && found.value < nextId && found.value in summaries && Owned(summaries[found.value], session)
      ensures forall k: nat | k in summaries && Owned(summaries[k], session) ::
                found.Some? && summaries[found.value].updatedAt >= summaries[k].updatedAt
    {
      FoundSummaryIs(Contents(), session, nextId);
      FoundSummaryIsLatest(Contents(), session, nextId);
      forall k: nat | k in summaries ensures k < nextId { assert SummaryFormed(Contents(), k); }
      found := None;
      for id := 0 to nextId
        invariant found == ConversationSummaryOf(Contents(), session, id)
      {
        FoundSummaryIs(Contents(), session, id);
        if id in summaries {
          var row := summaries[id];
          if row.reach.session == Some(session) && row.source == Summarized && row.taskRun.None?
             && (found.None? || summaries[found.value].updatedAt <= row.updatedAt) {
            found := Some(id);
          }
        }
      }
    }

    /** The summary of the conversation before an execution: written anew over whatever
        became of the old one, or buried when there are no messages. */
    method RefreshSummary(session: nat, reach: Reach, scopeKey: string, messages: Option<string>)
        returns (id: Option<nat>)
      requires Valid() && SummariesFormed(Contents())
      modifies this
      ensures Valid() && SummariesFormed(Contents())
      ensures Contents() == Apply(old(Contents()), RefreshSummaryOp(session, reach, scopeKey, messages))
      ensures id.Some? <==> messages.Some?
      ensures id.Some? ==>
                && id.value in summaries && summaries[id.value].text == messages.value
                && !summaries[id.value].hidden && summaries[id.value].deletedAt.None?
                && summaries[id.value].reach == reach.(session := Some(session), user := Some(LocalUser))
                && summaries[id.value].scopeKey == scopeKey && summaries[id.value].updatedAt == now
                && summaries[id.value].source == Summarized && summaries[id.value].taskRun.None?
      ensures forall k: nat | k in old(summaries) && !Owned(old(summaries)[k], session) ::
                k in summaries && summaries[k] == old(summaries)[k]
      ensures forall k: nat | k in old(summaries) && Owned(old(summaries)[k], session) && id.Some? ::
                id.value in old(summaries) && Owned(old(summaries)[id.value], session)
                && old(summaries)[id.value].updatedAt >= old(summaries)[k].updatedAt
      ensures messages.None? && (forall k: nat | k in old(summaries) :: !Owned(old(summaries)[k], session)) ==>
                summaries == old(summaries)
      ensures messages.None? && (exists k: nat :: k in old(summaries) && Owned(old(summaries)[k], session)) ==>
                exists k: nat ::
                  && k in old(summaries) && Owned(old(summaries)[k], session)
                  && k in summaries && summaries[k].hidden && summaries[k].deletedAt == Some(now)
    {
      var op := RefreshSummaryOp(session, reach, scopeKey, messages);
      ApplyKeepsWellFormed(Contents(), op);
      ApplyKeepsSummariesFormed(Contents(), op);
      var found := FindConversationSummary(session);
      var place := Local(reach.(session := Some(session)));
      if messages.None? {
        if found.Some? {
          var row := summaries[found.value].(hidden := true, deletedAt := Some(now));
          summaries := summaries[found.value := row.(updatedAt := now)];
        }
        return None;
      }
      if found.None? {
        id := Some(nextId);
        summaries := summaries[nextId := Summary(nextId, place, scopeKey, None, Summarized, messages.value, false, None,
            now, None)];
        nextId := nextId + 1;
        return;
      }
      var row := summaries[found.value].(reach := place, scopeKey := scopeKey, text := messages.value);
      row := row.(hidden := false, deletedAt := None);
      summaries := summaries[found.value := row.(updatedAt := now)];
      return found;
    }

    /** The capture after an execution: once per task run, never against a tombstone,
        never twice the same content. */
    method CaptureExecutionResult(taskRun: Option<nat>, reach: Reach, scopeKey: string, output: string)
      returns (captured: Option<nat>)
      requires Valid()
      modifies this
      ensures Valid()
      ensures Contents() == Capture(old(Contents()), taskRun, reach, scopeKey, output)
      ensures captured.Some? ==>
                && captured.value in entries && entries[captured.value].deletedAt.None?
                && entries[captured.value].hash == HashOf(InspectAutomatic(output))
      ensures captured.Some? && captured.value !in old(entries) ==>
                var e := entries[captured.value];
                && e.body == Strip(output) && e.title == Spaced(Words(Summarize(output, 200), ""))
                && e.summary == Some(Strip(Summarize(output, 160)))
                && e.source == Autosaved && e.scope == EpisodicScope && e.scopeKey == scopeKey && e.reach == reach
                && !e.hidden && e.deletedAt.None? && e.target.None? && e.updatedAt == now
                && entries == old(entries)[captured.value := e]
      ensures summaries == old(summaries)
              || (old(nextId) !in old(summaries)
                  && summaries == old(summaries)[old(nextId) := Summary(
                       old(nextId), reach.(user := Some(LocalUser)), scopeKey, taskRun, Summarized,
                       Summarize(output, 160), false, None, now, None)])
      ensures captured.None? ==> entries == old(entries)
    {
      CaptureKeepsWellFormed(Contents(), taskRun, reach, scopeKey, output);
      if !enabled { return None; }
      if Strip(output) == "" { return None; }
      ghost var i, j := StripIs(output);
      AutomaticTextIs(output);
      var summarised := FindSummaryOfRun(taskRun);
      if summarised { return None; }
      var text := InspectAutomatic(output);
      var suppressed := FindUserTombstone(HashOf(text));
      if suppressed.Some? {
        AddSessionSummary(taskRun, reach, scopeKey, output);
        return None;
      }
      var existing := FindActiveByDedupeHash(HashOf(text), None);
      if existing.Some? { return existing; }
      AddSessionSummary(taskRun, reach, scopeKey, output);
      captured := Some(nextId);
      AddEntry(NewEntry(Contents(), reach, EpisodicScope, scopeKey, Autosaved, text, None));
    }
  }
}
