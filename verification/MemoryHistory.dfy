/** Histories of user edits and automatic captures on the memory store. */
module MemoryHistory {
  import opened Tables
  import opened MemoryTables

  datatype Memory = Memory(
    entries: map<nat, Entry>, summaries: map<nat, Summary>, nextId: nat, now: int, enabled: bool)

  const EmptyMemory := Memory(map[], map[], 0, 0, true)

  /** The texts of a memory after inspection. */
  datatype Text = Text(title: string, body: string, summary: Option<string>)

  function HashOf(t: Text): string {
    DedupeText(t.title, t.body, t.summary)
  }

  /** What a manual edit may store; a blank title or body is refused. */
  function InspectManual(title: string, body: string, summary: Option<string>): Option<Text> {
    var t := Spaced(Words(title, ""));
    var b := Strip(body);
    if t == "" || b == "" then None
    else Some(Text(t, b, if summary.Some? then Some(Strip(summary.value)) else None))
  }

  /** What a capture stores for some output. */
  function InspectAutomatic(output: string): Text {
    var title := Spaced(Words(Summarize(output, 200), ""));
    Text(if title == "" then "Execution memory" else title, Strip(output), Some(Strip(Summarize(output, 160))))
  }

  datatype Edit = Edit(title: Option<string>, body: Option<string>, summary: Option<string>)

  /** A late operation has looked for its content earlier, found nothing, and writes now
      without looking again. */
  datatype Op =
    | CreateOp(reach: Reach, scope: Scope, scopeKey: string, title: string, body: string, summary: Option<string>)
    | UpdateOp(id: nat, edit: Edit)
    | OverrideOp(id: nat, edit: Edit)
    | HideOp(id: nat)
    | UnhideOp(id: nat)
    | SoftDeleteOp(id: nat)
    | RestoreOp(id: nat)
    | HardDeleteOp(id: nat)
    | PromoteOp(id: nat)
    | DemoteOp(id: nat)
    | CaptureOp(taskRun: Option<nat>, reach: Reach, scopeKey: string, output: string)
    | LateCreateOp(reach: Reach, scope: Scope, scopeKey: string, inspected: Text)
    | LateUpdateOp(id: nat, inspected: Text)
    | LateCaptureOp(taskRun: Option<nat>, reach: Reach, scopeKey: string, output: string)
    | CreateSummaryOp(reach: Reach, scopeKey: string, text: string)
    | EditSummaryOp(id: nat, newText: Option<string>, newScopeKey: Option<string>)
    | HideSummaryOp(id: nat)
    | RestoreSummaryOp(id: nat)
    | SoftDeleteSummaryOp(id: nat)
    | RefreshSummaryOp(session: nat, reach: Reach, scopeKey: string, messages: Option<string>)
    | DropSummaryOp(id: nat)
    | ElapseOp(ticks: nat)

  // ------------------------------------------------------------------ finders

  /** An entry with this content that is not deleted, hidden or not. */
  predicate ActiveHash(m: Memory, hash: string, except: Option<nat>) {
    exists id: nat :: id in m.entries && m.entries[id].hash == hash && m.entries[id].deletedAt.None?
        && Some(id) != except
  }

  /** An entry with this content that the user has hidden or deleted. */
  predicate Tombstone(m: Memory, hash: string) {
    exists id: nat :: id in m.entries && m.entries[id].hash == hash
                      && (m.entries[id].deletedAt.Some? || m.entries[id].hidden)
  }

  predicate SummaryOfRun(m: Memory, taskRun: Option<nat>) {
    taskRun.Some? && exists id: nat :: id in m.summaries && m.summaries[id].taskRun == taskRun
  }

  // --------------------------------------------------------------- operations

  function Save(m: Memory, e: Entry): Memory {
    m.(entries := m.entries[e.id := e.(updatedAt := m.now)])
  }

  function Add(m: Memory, e: Entry): Memory
    requires e.id == m.nextId
  {
    m.(entries := m.entries[m.nextId := e], nextId := m.nextId + 1)
  }

  function NewEntry(m: Memory, reach: Reach, scope: Scope, scopeKey: string, source: Source, t: Text,
      target: Option<nat>): Entry
  {
    Entry(m.nextId, reach, scope, scopeKey, source, t.title, t.body, t.summary, HashOf(t), false, None, m.now, target)
  }

  function Create(m: Memory, reach: Reach, scope: Scope, scopeKey: string, text: Option<Text>): Memory {
    if text.None? || ActiveHash(m, HashOf(text.value), None) then m
    else Add(m, NewEntry(m, reach, scope, scopeKey, Manual, text.value, None))
  }

  function EditedText(e: Entry, edit: Edit): Option<Text> {
    InspectManual(if edit.title.Some? then edit.title.value else e.title,
                  if edit.body.Some? then edit.body.value else e.body,
                  if edit.summary.Some? then edit.summary else e.summary)
  }

  function Rewritten(e: Entry, t: Text): Entry {
    var changed := t.title != e.title || t.body != e.body || t.summary != e.summary;
    e.(title := t.title, body := t.body, summary := t.summary, hash := HashOf(t),
       source := if changed && e.source in {Autosaved, Summarized} then UserOverride else e.source)
  }

  function Update(m: Memory, id: nat, edit: Edit): Memory {
    if id !in m.entries then m else
    var text := EditedText(m.entries[id], edit);
    if text.None? || ActiveHash(m, HashOf(text.value), Some(id)) then m
    else Save(m, Rewritten(m.entries[id], text.value))
  }

  function OverrideText(e: Entry, edit: Edit): Option<Text> {
    var title := if edit.title.Some? && edit.title.value != "" then edit.title.value else e.title;
    var body := Strip(if edit.body.Some? && edit.body.value != "" then edit.body.value else e.body);
    InspectManual(Strip(title), body, Some(Summarize(body, 160)))
  }

  /** The user edits an automatic memory: it is hidden behind a manual copy. */
  function Override(m: Memory, id: nat, edit: Edit): Memory {
    if id !in m.entries || UserManaged(m.entries[id].source) then m else
    var e := m.entries[id];
    var text := OverrideText(e, edit);
    if text.None? then m
    else Add(Save(m, e.(hidden := true)), NewEntry(m, e.reach, e.scope, e.scopeKey, Manual, text.value, Some(id)))
  }

  /** Every summary belongs to the one local user. */
  function Local(reach: Reach): Reach {
    reach.(user := Some(LocalUser))
  }

  function CaptureSummary(m: Memory, taskRun: Option<nat>, reach: Reach, scopeKey: string, output: string): Memory {
    m.(summaries := m.summaries[m.nextId := Summary(
         m.nextId, Local(reach), scopeKey, taskRun, Summarized, Summarize(output, 160), false, None, m.now, None)],
       nextId := m.nextId + 1)
  }

  predicate Ignored(m: Memory, taskRun: Option<nat>, output: string) {
    !m.enabled || Strip(output) == "" || SummaryOfRun(m, taskRun)
  }

  /** The automatic capture of an execution's output. */
  function Capture(m: Memory, taskRun: Option<nat>, reach: Reach, scopeKey: string, output: string): Memory {
    if Ignored(m, taskRun, output) then m else
    var t := InspectAutomatic(output);
    if Tombstone(m, HashOf(t)) then CaptureSummary(m, taskRun, reach, scopeKey, output)
    else if ActiveHash(m, HashOf(t), None) then m
    else CaptureBoth(m, taskRun, reach, scopeKey, output)
  }

  /** What a capture that has found nothing against it writes. */
  function CaptureBoth(m: Memory, taskRun: Option<nat>, reach: Reach, scopeKey: string, output: string): Memory {
    var noted := CaptureSummary(m, taskRun, reach, scopeKey, output);
    Add(noted, NewEntry(noted, reach, EpisodicScope, scopeKey, Autosaved, InspectAutomatic(output), None))
  }

  // ---------------------------------------------------------------- summaries

  function SaveSummary(m: Memory, id: nat, s: Summary): Memory {
    m.(summaries := m.summaries[id := s.(updatedAt := m.now)])
  }

  function AddSummary(m: Memory, s: Summary): Memory {
    m.(summaries := m.summaries[m.nextId := s], nextId := m.nextId + 1)
  }

  function SummaryText(s: Summary, newText: Option<string>): string {
    Strip(if newText.Some? && newText.value != "" then newText.value else s.text)
  }

  /** The user edits a summary: a manual one in place, an automatic one by hiding it
      behind a manual copy. */
  function EditSummary(m: Memory, id: nat, newText: Option<string>, newScopeKey: Option<string>): Memory {
    if id !in m.summaries then m else
    var s := m.summaries[id];
    var text := SummaryText(s, newText);
    var scopeKey := if newScopeKey.Some? then newScopeKey.value else s.scopeKey;
    if s.source == Manual then SaveSummary(m, id, s.(text := text, scopeKey := scopeKey))
    else AddSummary(SaveSummary(m, id, s.(hidden := true)),
                    Summary(m.nextId, s.reach, scopeKey, s.taskRun, Manual, text, false, None, m.now, Some(id)))
  }

  /** The session's own automatic summary, the one written last if there are several,
      among the first `n` identifiers. */
  function ConversationSummaryOf(m: Memory, session: nat, n: nat): Option<nat> {
    if n == 0 then None else
    var before := ConversationSummaryOf(m, session, n - 1);
    if && n - 1 in m.summaries && m.summaries[n-1].reach.session == Some(session)
       && m.summaries[n-1].source == Summarized && m.summaries[n-1].taskRun.None?
       && (before.None? || before.value !in m.summaries
           || m.summaries[before.value].updatedAt <= m.summaries[n-1].updatedAt)
    then Some(n - 1)
    else before
  }

  /** Before an execution the conversation is summarised anew; a conversation without
      messages buries its summary. */
  function Refresh(m: Memory, session: nat, reach: Reach, scopeKey: string, messages: Option<string>): Memory {
    var found := ConversationSummaryOf(m, session, m.nextId);
    var place := Local(reach.(session := Some(session)));
    if found.Some? && found.value in m.summaries then
      var s := m.summaries[found.value];
      if messages.None? then SaveSummary(m, found.value, s.(hidden := true, deletedAt := Some(m.now)))
      else SaveSummary(m, found.value,
                       s.(reach := place, scopeKey := scopeKey, text := messages.value, hidden := false,
                           deletedAt := None))
    else if messages.None? then m
    else AddSummary(m, Summary(m.nextId, place, scopeKey, None, Summarized, messages.value, false, None, m.now, None))
  }

  predicate OnSummaries(op: Op) {
    || op.CreateSummaryOp? || op.EditSummaryOp? || op.HideSummaryOp? || op.RestoreSummaryOp?
    || op.SoftDeleteSummaryOp? || op.RefreshSummaryOp? || op.DropSummaryOp?
  }

  function ApplyToEntries(m: Memory, op: Op): Memory
    requires !OnSummaries(op)
  {
    match op
    case CreateOp(reach, scope, scopeKey, title, body, summary) =>
      Create(m, reach, scope, scopeKey, InspectManual(title, body, summary))
    case UpdateOp(id, edit) => Update(m, id, edit)
    case OverrideOp(id, edit) => Override(m, id, edit)
    case HideOp(id) => if id in m.entries then Save(m, m.entries[id].(hidden := true)) else m
    case UnhideOp(id) => if id in m.entries then Save(m, m.entries[id].(hidden := false)) else m
    case SoftDeleteOp(id) => if id in m.entries then Save(m, m.entries[id].(deletedAt := Some(m.now))) else m
    case RestoreOp(id) => if id in m.entries then Save(m, m.entries[id].(deletedAt := None)) else m
    case HardDeleteOp(id) => m.(entries := m.entries - {id})
    case PromoteOp(id) =>
      if id !in m.entries then m else
      var source := if m.entries[id].reach.parent.Some? then PromotedFromSubagent else PromotedFromSession;
      Save(m, m.entries[id].(scope := Stable, source := source))
    case DemoteOp(id) => if id in m.entries then Save(m, m.entries[id].(scope := EpisodicScope)) else m
    case CaptureOp(taskRun, reach, scopeKey, output) => Capture(m, taskRun, reach, scopeKey, output)
    case LateCreateOp(reach, scope, scopeKey, text) =>
      Add(m, NewEntry(m, reach, scope, scopeKey, Manual, text, None))
    case LateUpdateOp(id, text) => if id in m.entries then Save(m, Rewritten(m.entries[id], text)) else m
    case LateCaptureOp(taskRun, reach, scopeKey, output) => CaptureBoth(m, taskRun, reach, scopeKey, output)
    case ElapseOp(ticks) => m.(now := m.now + ticks)
  }

  function ApplyToSummaries(m: Memory, op: Op): Memory
    requires OnSummaries(op)
  {
    match op
    case CreateSummaryOp(reach, scopeKey, text) =>
      AddSummary(m, Summary(m.nextId, Local(reach), scopeKey, None, Manual, Strip(text), false, None, m.now, None))
    case EditSummaryOp(id, text, scopeKey) => EditSummary(m, id, text, scopeKey)
    case HideSummaryOp(id) =>
      if id in m.summaries then SaveSummary(m, id, m.summaries[id].(hidden := true)) else m
    case RestoreSummaryOp(id) =>
      if id in m.summaries then SaveSummary(m, id, m.summaries[id].(hidden := false, deletedAt := None)) else m
    case SoftDeleteSummaryOp(id) =>
      if id in m.summaries then SaveSummary(m, id, m.summaries[id].(hidden := true, deletedAt := Some(m.now))) else m
    case RefreshSummaryOp(session, reach, scopeKey, messages) => Refresh(m, session, reach, scopeKey, messages)
    case DropSummaryOp(id) => m.(summaries := m.summaries - {id})
  }

  function Apply(m: Memory, op: Op): Memory {
    if OnSummaries(op) then ApplyToSummaries(m, op) else ApplyToEntries(m, op)
  }

  function Replay(m: Memory, ops: seq<Op>): Memory
    decreases |ops|
  {
    if |ops| == 0 then m else Replay(Apply(m, ops[0]), ops[1..])
  }

  // ------------------------------------------------------- override structure

  /** Rows carry their own identifier and identifiers are never reused.  An override
      is user-managed; while its target exists, the target is no override itself and
      is loaded by exactly the same sessions. */
  ghost predicate WellFormed(m: Memory) {
    && (forall id: nat | id in m.entries :: m.entries[id].id == id < m.nextId)
    && (forall id: nat | id in m.summaries :: id < m.nextId)
    && (forall id: nat | id in m.entries && m.entries[id].target.Some? ::
          && UserManaged(m.entries[id].source)
          && m.entries[id].target.value < m.nextId
          && (m.entries[id].target.value in m.entries ==>
                && m.entries[m.entries[id].target.value].target.None?
                && m.entries[m.entries[id].target.value].reach == m.entries[id].reach))
  }

  lemma SaveKeepsWellFormed(m: Memory, e: Entry)
    requires WellFormed(m) && e.id in m.entries
    requires e.reach == m.entries[e.id].reach && e.target == m.entries[e.id].target
    requires UserManaged(m.entries[e.id].source) ==> UserManaged(e.source)
    ensures WellFormed(Save(m, e))
  {}

  lemma AddKeepsWellFormed(m: Memory, e: Entry)
    requires WellFormed(m) && e.id == m.nextId
    requires e.target.Some? ==>
               && UserManaged(e.source) && e.target.value in m.entries
               && m.entries[e.target.value].target.None? && m.entries[e.target.value].reach == e.reach
    ensures WellFormed(Add(m, e))
  {}

  lemma OverrideKeepsWellFormed(m: Memory, id: nat, edit: Edit)
    requires WellFormed(m)
    ensures WellFormed(Override(m, id, edit))
  {
    if id in m.entries && !UserManaged(m.entries[id].source) && OverrideText(m.entries[id], edit).Some? {
      var e := m.entries[id];
      var hidden := Save(m, e.(hidden := true));
      SaveKeepsWellFormed(m, e.(hidden := true));
      AddKeepsWellFormed(hidden, NewEntry(m, e.reach, e.scope, e.scopeKey, Manual, OverrideText(e, edit).value,
          Some(id)));
    }
  }

  lemma ApplyKeepsWellFormed(m: Memory, op: Op)
    requires WellFormed(m)
    ensures WellFormed(Apply(m, op))
  {
    if OnSummaries(op) {
      SummaryStepsKeepEntries(m, op);
    } else if EditsInPlace(op) {
      EditKeepsWellFormed(m, op);
    } else {
      AdditionKeepsWellFormed(m, op);
    }
  }

  lemma AdditionKeepsWellFormed(m: Memory, op: Op)
    requires WellFormed(m) && !OnSummaries(op) && !EditsInPlace(op)
    ensures WellFormed(ApplyToEntries(m, op))
  {
    match op
    case OverrideOp(id, edit) => OverrideKeepsWellFormed(m, id, edit);
    case CreateOp(reach, scope, scopeKey, title, body, summary) =>
      var text := InspectManual(title, body, summary);
      if text.Some? { AddKeepsWellFormed(m, NewEntry(m, reach, scope, scopeKey, Manual, text.value, None)); }
    case CaptureOp(taskRun, reach, scopeKey, output) => CaptureKeepsWellFormed(m, taskRun, reach, scopeKey, output);
    case LateCreateOp(reach, scope, scopeKey, text) =>
      AddKeepsWellFormed(m, NewEntry(m, reach, scope, scopeKey, Manual, text, None));
    case LateCaptureOp(taskRun, reach, scopeKey, output) => CaptureKeepsWellFormed(m, taskRun, reach, scopeKey, output);
    case HardDeleteOp(id) => RemovalKeepsWellFormed(m, id);
    case ElapseOp(_) =>
  }

  lemma {:induction false} FoundSummaryIs(m: Memory, session: nat, n: nat)
    ensures var found := ConversationSummaryOf(m, session, n);
            found.Some? ==>
              && found.value < n && found.value in m.summaries
              && m.summaries[found.value].reach.session == Some(session)
              && m.summaries[found.value].source == Summarized && m.summaries[found.value].taskRun.None?
  {
    if n > 0 { FoundSummaryIs(m, session, n - 1); }
  }

  /** The found summary is the one written last of the session's own automatic ones that
      belong to no task run, the newest identifier on a tie; and one is found iff there is
      any. */
  lemma {:induction false} FoundSummaryIsLatest(m: Memory, session: nat, n: nat)
    ensures var found := ConversationSummaryOf(m, session, n);
            forall id: nat | id < n && id in m.summaries
                             && m.summaries[id].reach.session == Some(session)
                             && m.summaries[id].source == Summarized && m.summaries[id].taskRun.None? ::
              && found.Some? && found.value in m.summaries
              && m.summaries[found.value].updatedAt >= m.summaries[id].updatedAt
              && (m.summaries[found.value].updatedAt == m.summaries[id].updatedAt ==> found.value >= id)
  {
    if n > 0 {
      FoundSummaryIsLatest(m, session, n - 1);
      FoundSummaryIs(m, session, n - 1);
    }
  }

  lemma SummaryStepsKeepEntries(m: Memory, op: Op)
    requires OnSummaries(op)
    ensures Apply(m, op).entries == m.entries && m.nextId <= Apply(m, op).nextId
    ensures (forall id: nat | id in m.summaries :: id < m.nextId) ==>
              forall id: nat | id in Apply(m, op).summaries :: id < Apply(m, op).nextId
  {
    if op.RefreshSummaryOp? { FoundSummaryIs(m, op.session, m.nextId); }
  }

  lemma CaptureKeepsWellFormed(m: Memory, taskRun: Option<nat>, reach: Reach, scopeKey: string, output: string)
    requires WellFormed(m)
    ensures WellFormed(Capture(m, taskRun, reach, scopeKey, output))
    ensures WellFormed(CaptureBoth(m, taskRun, reach, scopeKey, output))
  {
    var noted := CaptureSummary(m, taskRun, reach, scopeKey, output);
    AddKeepsWellFormed(noted, NewEntry(noted, reach, EpisodicScope, scopeKey, Autosaved, InspectAutomatic(output),
        None));
  }

  lemma RemovalKeepsWellFormed(m: Memory, id: nat)
    requires WellFormed(m)
    ensures WellFormed(m.(entries := m.entries - {id}))
  {}

  /** The operations that rewrite one entry in place. */
  predicate EditsInPlace(op: Op) {
    || op.UpdateOp? || op.LateUpdateOp? || op.HideOp? || op.UnhideOp? || op.SoftDeleteOp? || op.RestoreOp?
    || op.PromoteOp? || op.DemoteOp?
  }

  /** The entry such an operation saves, if it saves one. */
  function EditedEntry(m: Memory, op: Op): Option<Entry>
    requires EditsInPlace(op)
  {
    if op.id !in m.entries then None else
    var e := m.entries[op.id];
    match op
    case UpdateOp(id, edit) =>
      var text := EditedText(e, edit);
      if text.None? || ActiveHash(m, HashOf(text.value), Some(id)) then None else Some(Rewritten(e, text.value))
    case LateUpdateOp(_, text) => Some(Rewritten(e, text))
    case HideOp(_) => Some(e.(hidden := true))
    case UnhideOp(_) => Some(e.(hidden := false))
    case SoftDeleteOp(_) => Some(e.(deletedAt := Some(m.now)))
    case RestoreOp(_) => Some(e.(deletedAt := None))
    case PromoteOp(_) =>
      Some(e.(scope := Stable, source := if e.reach.parent.Some? then PromotedFromSubagent else PromotedFromSession))
    case DemoteOp(_) => Some(e.(scope := EpisodicScope))
  }

  lemma EditsSaveOneEntry(m: Memory, op: Op)
    requires WellFormed(m) && EditsInPlace(op)
    ensures var e := EditedEntry(m, op);
            if e.None? then Apply(m, op) == m
            else && e.value.id == op.id && op.id in m.entries && Apply(m, op) == Save(m, e.value)
                 && e.value.reach == m.entries[op.id].reach && e.value.target == m.entries[op.id].target
                 && (UserManaged(m.entries[op.id].source) ==> UserManaged(e.value.source))
  {}

  lemma EditKeepsWellFormed(m: Memory, op: Op)
    requires WellFormed(m) && EditsInPlace(op)
    ensures WellFormed(Apply(m, op))
  {
    EditsSaveOneEntry(m, op);
    if EditedEntry(m, op).Some? { SaveKeepsWellFormed(m, EditedEntry(m, op).value); }
  }

  lemma {:induction false} ReplayKeepsWellFormed(m: Memory, ops: seq<Op>)
    requires WellFormed(m)
    ensures WellFormed(Replay(m, ops))
    decreases |ops|
  {
    if |ops| > 0 {
      ApplyKeepsWellFormed(m, ops[0]);
      ReplayKeepsWellFormed(Apply(m, ops[0]), ops[1..]);
    }
  }

  /** The same for summaries: an override is manual; while its target exists, that is no
      override itself and is loaded by the same sessions. */
  ghost predicate SummariesFormed(m: Memory) {
    forall id: nat | id in m.summaries :: SummaryFormed(m, id)
  }

  ghost predicate SummaryFormed(m: Memory, id: nat)
    requires id in m.summaries
  {
    var s := m.summaries[id];
    && s.id == id < m.nextId && SameUser(s.reach)
    && (s.target.Some? ==>
          && s.source == Manual && s.target.value < m.nextId
          && (s.target.value in m.summaries ==>
                && m.summaries[s.target.value].target.None?
                && m.summaries[s.target.value].taskRun == s.taskRun))
  }

  lemma SaveKeepsSummariesFormed(m: Memory, id: nat, s: Summary)
    requires SummariesFormed(m) && id in m.summaries && SameUser(s.reach)
    requires var t := m.summaries[id];
             s.id == t.id && s.target == t.target && s.taskRun == t.taskRun && s.source == t.source
    ensures SummariesFormed(SaveSummary(m, id, s))
  {
    forall k: nat | k in m.summaries ensures SummaryFormed(SaveSummary(m, id, s), k) {
      assert SummaryFormed(m, k) && SummaryFormed(m, id);
    }
  }

  lemma AddKeepsSummariesFormed(m: Memory, s: Summary)
    requires SummariesFormed(m) && s.id == m.nextId && SameUser(s.reach)
    requires s.target.Some? ==>
               && s.source == Manual && s.target.value in m.summaries
               && m.summaries[s.target.value].target.None? && m.summaries[s.target.value].taskRun == s.taskRun
    ensures SummariesFormed(AddSummary(m, s))
  {
    var t := AddSummary(m, s);
    forall k: nat | k in t.summaries ensures SummaryFormed(t, k) {
      if k != m.nextId {
        assert SummaryFormed(m, k);
      } else if s.target.Some? {
        assert SummaryFormed(m, s.target.value);
      }
    }
  }

  lemma EditKeepsSummariesFormed(m: Memory, id: nat, newText: Option<string>, newScopeKey: Option<string>)
    requires SummariesFormed(m)
    ensures SummariesFormed(EditSummary(m, id, newText, newScopeKey))
  {
    if id in m.summaries {
      var s := m.summaries[id];
      assert SummaryFormed(m, id);
      var text := SummaryText(s, newText);
      var scopeKey := if newScopeKey.Some? then newScopeKey.value else s.scopeKey;
      if s.source == Manual {
        SaveKeepsSummariesFormed(m, id, s.(text := text, scopeKey := scopeKey));
      } else {
        SaveKeepsSummariesFormed(m, id, s.(hidden := true));
        AddKeepsSummariesFormed(
          SaveSummary(m, id, s.(hidden := true)),
          Summary(m.nextId, s.reach, scopeKey, s.taskRun, Manual, text, false, None, m.now, Some(id)));
      }
    }
  }

  lemma EditSummaryKeepsForm(m: Memory, id: nat, newText: Option<string>, newScopeKey: Option<string>)
    requires WellFormed(m) && SummariesFormed(m)
    ensures WellFormed(EditSummary(m, id, newText, newScopeKey))
    ensures SummariesFormed(EditSummary(m, id, newText, newScopeKey))
  {
    EditKeepsSummariesFormed(m, id, newText, newScopeKey);
    ApplyKeepsWellFormed(m, EditSummaryOp(id, newText, newScopeKey));
  }

  lemma RefreshKeepsSummariesFormed(m: Memory, session: nat, reach: Reach, scopeKey: string, messages: Option<string>)
    requires SummariesFormed(m)
    ensures SummariesFormed(Refresh(m, session, reach, scopeKey, messages))
  {
    var found := ConversationSummaryOf(m, session, m.nextId);
    var place := Local(reach.(session := Some(session)));
    FoundSummaryIs(m, session, m.nextId);
    if found.Some? {
      assert SummaryFormed(m, found.value);
      var s := m.summaries[found.value];
      if messages.None? {
        SaveKeepsSummariesFormed(m, found.value, s.(hidden := true, deletedAt := Some(m.now)));
      } else {
        SaveKeepsSummariesFormed(
          m, found.value,
          s.(reach := place, scopeKey := scopeKey, text := messages.value, hidden := false, deletedAt := None));
      }
    } else if messages.Some? {
      AddKeepsSummariesFormed(
        m, Summary(m.nextId, place, scopeKey, None, Summarized, messages.value, false, None, m.now, None));
    }
  }

  lemma FlagsKeepSummariesFormed(m: Memory, id: nat, hidden: bool, deletedAt: Option<int>)
    requires SummariesFormed(m) && id in m.summaries
    ensures SummariesFormed(SaveSummary(m, id, m.summaries[id].(hidden := hidden, deletedAt := deletedAt)))
  {
    assert SummaryFormed(m, id);
    SaveKeepsSummariesFormed(m, id, m.summaries[id].(hidden := hidden, deletedAt := deletedAt));
  }

  lemma SameSummariesAreFormed(m: Memory, t: Memory)
    requires SummariesFormed(m) && t.summaries == m.summaries && m.nextId <= t.nextId
    ensures SummariesFormed(t)
  {
    forall k: nat | k in t.summaries ensures SummaryFormed(t, k) { assert SummaryFormed(m, k); }
  }

  lemma CaptureKeepsSummariesFormed(m: Memory, taskRun: Option<nat>, reach: Reach, scopeKey: string, output: string)
    requires SummariesFormed(m)
    ensures SummariesFormed(Capture(m, taskRun, reach, scopeKey, output))
    ensures SummariesFormed(CaptureBoth(m, taskRun, reach, scopeKey, output))
  {
    var noted := CaptureSummary(m, taskRun, reach, scopeKey, output);
    AddKeepsSummariesFormed(
      m, Summary(m.nextId, Local(reach), scopeKey, taskRun, Summarized, Summarize(output, 160), false, None, m.now,
          None));
    var t := InspectAutomatic(output);
    SameSummariesAreFormed(noted, Add(noted, NewEntry(noted, reach, EpisodicScope, scopeKey, Autosaved, t, None)));
  }

  lemma DroppingKeepsSummariesFormed(m: Memory, id: nat)
    requires SummariesFormed(m)
    ensures SummariesFormed(m.(summaries := m.summaries - {id}))
  {
    var t := m.(summaries := m.summaries - {id});
    forall k: nat | k in t.summaries ensures SummaryFormed(t, k) { assert SummaryFormed(m, k); }
  }

  lemma ApplyKeepsSummariesFormed(m: Memory, op: Op)
    requires SummariesFormed(m)
    ensures SummariesFormed(Apply(m, op))
  {
    match op
    case CaptureOp(taskRun, reach, scopeKey, output) =>
      CaptureKeepsSummariesFormed(m, taskRun, reach, scopeKey, output);
    case LateCaptureOp(taskRun, reach, scopeKey, output) =>
      CaptureKeepsSummariesFormed(m, taskRun, reach, scopeKey, output);
    case CreateSummaryOp(reach, scopeKey, text) =>
      AddKeepsSummariesFormed(
        m, Summary(m.nextId, Local(reach), scopeKey, None, Manual, Strip(text), false, None, m.now, None));
    case EditSummaryOp(id, text, scopeKey) => EditKeepsSummariesFormed(m, id, text, scopeKey);
    case HideSummaryOp(id) =>
      if id in m.summaries { FlagsKeepSummariesFormed(m, id, true, m.summaries[id].deletedAt); }
    case RestoreSummaryOp(id) => if id in m.summaries { FlagsKeepSummariesFormed(m, id, false, None); }
    case SoftDeleteSummaryOp(id) => if id in m.summaries { FlagsKeepSummariesFormed(m, id, true, Some(m.now)); }
    case RefreshSummaryOp(session, reach, scopeKey, messages) =>
      RefreshKeepsSummariesFormed(m, session, reach, scopeKey, messages);
    case DropSummaryOp(id) => DroppingKeepsSummariesFormed(m, id);
    case _ => EntryStepsKeepSummaries(m, op);
  }

  lemma EntryStepsLeaveSummaries(m: Memory, op: Op)
    requires !OnSummaries(op) && !op.CaptureOp? && !op.LateCaptureOp?
    ensures Apply(m, op).summaries == m.summaries && m.nextId <= Apply(m, op).nextId
  {}

  lemma EntryStepsKeepSummaries(m: Memory, op: Op)
    requires !OnSummaries(op) && !op.CaptureOp? && !op.LateCaptureOp? && SummariesFormed(m)
    ensures SummariesFormed(Apply(m, op))
  {
    EntryStepsLeaveSummaries(m, op);
    SameSummariesAreFormed(m, Apply(m, op));
  }

  lemma {:induction false} ReplayKeepsSummariesFormed(m: Memory, ops: seq<Op>)
    requires SummariesFormed(m)
    ensures SummariesFormed(Replay(m, ops))
    decreases |ops|
  {
    if |ops| > 0 {
      ApplyKeepsSummariesFormed(m, ops[0]);
      ReplayKeepsSummariesFormed(Apply(m, ops[0]), ops[1..]);
    }
  }

  /** A summary of the conversation that the user has hidden or deleted is shown again
      after the next execution that finds messages. */
  lemma RefreshRevivesHiddenSummary(m: Memory, session: nat, reach: Reach, scopeKey: string, text: string)
    requires SummariesFormed(m) && ConversationSummaryOf(m, session, m.nextId).Some?
    ensures var id := ConversationSummaryOf(m, session, m.nextId).value;
            var t := Apply(m, RefreshSummaryOp(session, reach, scopeKey, Some(text)));
            && id in m.summaries && id in t.summaries
            && !t.summaries[id].hidden && t.summaries[id].deletedAt.None? && t.summaries[id].text == text
            && t.summaries[id].target == m.summaries[id].target
  {
    FoundSummaryIs(m, session, m.nextId);
    var id := ConversationSummaryOf(m, session, m.nextId).value;
    assert Apply(m, RefreshSummaryOp(session, reach, scopeKey, Some(text))) ==
        Refresh(m, session, reach, scopeKey, Some(text));
  }

  /** The step makes a withdrawn summary visible: the user restores it, or an execution
      that finds messages refreshes its session's summary and that is this one. */
  predicate Revives(m: Memory, op: Op, id: nat) {
    && id in m.summaries
    && match op
       case RestoreSummaryOp(k) => k == id
       case RefreshSummaryOp(session, _, _, messages) =>
         messages.Some? && ConversationSummaryOf(m, session, m.nextId) == Some(id)
       case _ => false
  }

  ghost predicate HiddenOrGone(m: Memory, id: nat) {
    id in m.summaries ==> m.summaries[id].hidden
  }

  ghost predicate DeletedOrGone(m: Memory, id: nat) {
    id in m.summaries ==> m.summaries[id].deletedAt.Some?
  }

  /** A hidden summary stays hidden, and a deleted one deleted, exactly until a step
      that revives it. */
  lemma WithdrawalLostExactlyByRevival(m: Memory, op: Op, id: nat)
    requires SummariesFormed(m) && id < m.nextId
    ensures id < Apply(m, op).nextId
    ensures HiddenOrGone(m, id) ==> (HiddenOrGone(Apply(m, op), id) <==> !Revives(m, op, id))
    ensures DeletedOrGone(m, id) ==> (DeletedOrGone(Apply(m, op), id) <==> !Revives(m, op, id))
  {
    if OnSummaries(op) {
      SummaryStepWithdraws(m, op, id);
    } else {
      EntryStepsAddSummaries(m, op);
    }
  }

  /** What an operation on entries does to the summaries: at most a new one. */
  lemma EntryStepsAddSummaries(m: Memory, op: Op)
    requires !OnSummaries(op)
    ensures m.nextId <= Apply(m, op).nextId && SameBelow(m, Apply(m, op))
  {
    if op.CaptureOp? || op.LateCaptureOp? {
      CaptureStepsAddSummaries(m, op);
    } else {
      EntryStepsLeaveSummaries(m, op);
    }
  }

  lemma CaptureStepsAddSummaries(m: Memory, op: Op)
    requires op.CaptureOp? || op.LateCaptureOp?
    ensures m.nextId <= Apply(m, op).nextId && SameBelow(m, Apply(m, op))
  {
    NotedAddsOne(m, op.taskRun, op.reach, op.scopeKey, op.output);
    CaptureStepWrites(m, op);
  }

  lemma CaptureStepWrites(m: Memory, op: Op)
    requires op.CaptureOp? || op.LateCaptureOp?
    ensures var noted := CaptureSummary(m, op.taskRun, op.reach, op.scopeKey, op.output);
            var t := Apply(m, op);
            t == m || (t.summaries == noted.summaries && noted.nextId <= t.nextId)
  {
    CaptureStepIs(m, op);
    CaptureWritesSummary(m, op.taskRun, op.reach, op.scopeKey, op.output);
  }

  lemma CaptureStepIs(m: Memory, op: Op)
    requires op.CaptureOp? || op.LateCaptureOp?
    ensures Apply(m, op) == if op.CaptureOp? then Capture(m, op.taskRun, op.reach, op.scopeKey, op.output)
                            else CaptureBoth(m, op.taskRun, op.reach, op.scopeKey, op.output)
  {}

  lemma SummaryStepWithdraws(m: Memory, op: Op, id: nat)
    requires OnSummaries(op) && id < m.nextId
    ensures var t := ApplyToSummaries(m, op);
            && id < t.nextId
            && (id in t.summaries ==> id in m.summaries)
            && (Revives(m, op, id) ==>
                  id in t.summaries && !t.summaries[id].hidden && t.summaries[id].deletedAt.None?)
            && (id in t.summaries && !Revives(m, op, id) ==>
                  && (m.summaries[id].hidden ==> t.summaries[id].hidden)
                  && (m.summaries[id].deletedAt.Some? ==> t.summaries[id].deletedAt.Some?))
  {
    if op.RefreshSummaryOp? { FoundSummaryIs(m, op.session, m.nextId); }
  }

  lemma NotedAddsOne(m: Memory, taskRun: Option<nat>, reach: Reach, scopeKey: string, output: string)
    ensures var noted := CaptureSummary(m, taskRun, reach, scopeKey, output);
            m.nextId <= noted.nextId && SameBelow(m, noted)
  {}

  lemma CaptureWritesSummary(m: Memory, taskRun: Option<nat>, reach: Reach, scopeKey: string, output: string)
    ensures var noted := CaptureSummary(m, taskRun, reach, scopeKey, output);
            var t := Capture(m, taskRun, reach, scopeKey, output);
            var u := CaptureBoth(m, taskRun, reach, scopeKey, output);
            && (t == m || (t.summaries == noted.summaries && noted.nextId <= t.nextId))
            && u.summaries == noted.summaries && noted.nextId <= u.nextId
  {}

  /** Summaries that were there are what they were, and only new identifiers are added. */
  ghost predicate SameBelow(m: Memory, t: Memory) {
    forall id: nat | id < m.nextId ::
      (id in t.summaries <==> id in m.summaries) && (id in m.summaries ==> t.summaries[id] == m.summaries[id])
  }

  ghost predicate NeverRevived(m: Memory, ops: seq<Op>, id: nat)
    decreases |ops|
  {
    |ops| == 0 || (!Revives(m, ops[0], id) && NeverRevived(Apply(m, ops[0]), ops[1..], id))
  }

  ghost predicate HiddenThroughout(m: Memory, ops: seq<Op>, id: nat)
    decreases |ops|
  {
    HiddenOrGone(m, id) && (|ops| == 0 || HiddenThroughout(Apply(m, ops[0]), ops[1..], id))
  }

  ghost predicate DeletedThroughout(m: Memory, ops: seq<Op>, id: nat)
    decreases |ops|
  {
    DeletedOrGone(m, id) && (|ops| == 0 || DeletedThroughout(Apply(m, ops[0]), ops[1..], id))
  }

  /** Over any history a summary that the user has hidden is hidden at every moment, and
      one that is deleted stays deleted, exactly if no step revives it. */
  lemma {:induction false} WithdrawnThroughoutExactly(m: Memory, ops: seq<Op>, id: nat)
    requires SummariesFormed(m) && id < m.nextId
    ensures HiddenOrGone(m, id) ==> (HiddenThroughout(m, ops, id) <==> NeverRevived(m, ops, id))
    ensures DeletedOrGone(m, id) ==> (DeletedThroughout(m, ops, id) <==> NeverRevived(m, ops, id))
    decreases |ops|
  {
    if |ops| > 0 {
      WithdrawalLostExactlyByRevival(m, ops[0], id);
      ApplyKeepsSummariesFormed(m, ops[0]);
      WithdrawnThroughoutExactly(Apply(m, ops[0]), ops[1..], id);
    }
  }

  /** From the empty memory: an execution writes the summary of its session, the user
      hides or deletes it, and the next execution shows it again. */
  lemma HiddenSummaryComesBack(reach: Reach, first: string, second: string, withdraw: Op)
    requires withdraw == HideSummaryOp(0) || withdraw == SoftDeleteSummaryOp(0)
    ensures var one := Apply(EmptyMemory, RefreshSummaryOp(0, reach, "key", Some(first)));
            var withdrawn := Apply(one, withdraw);
            var again := RefreshSummaryOp(0, reach, "key", Some(second));
            var t := Apply(withdrawn, again);
            && 0 in withdrawn.summaries && withdrawn.summaries[0].hidden && Revives(withdrawn, again, 0)
            && (withdraw.SoftDeleteSummaryOp? ==> withdrawn.summaries[0].deletedAt.Some?)
            && 0 in t.summaries && !t.summaries[0].hidden && t.summaries[0].deletedAt.None?
            && t.summaries[0].text == second
  {
    var refresh := RefreshSummaryOp(0, reach, "key", Some(first));
    var one := Apply(EmptyMemory, refresh);
    ApplyKeepsSummariesFormed(EmptyMemory, refresh);
    ApplyKeepsSummariesFormed(one, withdraw);
    FirstRefresh(reach, first);
    var withdrawn := Apply(one, withdraw);
    assert withdrawn.nextId == 1 && ConversationSummaryOf(withdrawn, 0, 0).None?;
    RefreshRevivesHiddenSummary(withdrawn, 0, reach, "key", second);
  }

  lemma FirstRefresh(reach: Reach, text: string)
    ensures var one := Apply(EmptyMemory, RefreshSummaryOp(0, reach, "key", Some(text)));
            && one.nextId == 1 && 0 in one.summaries
            && one.summaries[0].reach.session == Some(0) && one.summaries[0].source == Summarized
            && one.summaries[0].taskRun.None?
  {
    assert ConversationSummaryOf(EmptyMemory, 0, 0).None?;
  }

  // -------------------------------------------------------------- deduplication

  /** At most one entry that is not deleted per content. */
  ghost predicate Deduplicated(m: Memory) {
    forall a: nat, b: nat | a in m.entries && b in m.entries && a != b
      && m.entries[a].deletedAt.None? && m.entries[b].deletedAt.None? ::
      m.entries[a].hash != m.entries[b].hash
  }

  /** The operations that bring content back, or add it, without looking for its twin. */
  predicate Unchecked(m: Memory, op: Op) {
    match op
    case RestoreOp(id) =>
      id in m.entries && m.entries[id].deletedAt.Some? && ActiveHash(m, m.entries[id].hash, Some(id))
    case OverrideOp(id, edit) =>
      && id in m.entries && !UserManaged(m.entries[id].source)
      && OverrideText(m.entries[id], edit).Some?
      && ActiveHash(m, HashOf(OverrideText(m.entries[id], edit).value), None)
    case LateCreateOp(_, _, _, text) => ActiveHash(m, HashOf(text), None)
    case LateUpdateOp(id, text) =>
      id in m.entries && m.entries[id].deletedAt.None? && ActiveHash(m, HashOf(text), Some(id))
    case LateCaptureOp(_, _, _, output) => ActiveHash(m, HashOf(InspectAutomatic(output)), None)
    case _ => false
  }

  lemma SaveDeduplicates(m: Memory, e: Entry)
    requires WellFormed(m) && Deduplicated(m) && e.id in m.entries
    ensures Deduplicated(Save(m, e)) <==> e.deletedAt.Some? || !ActiveHash(m, e.hash, Some(e.id))
  {
    var t := Save(m, e);
    if e.deletedAt.None? && ActiveHash(m, e.hash, Some(e.id)) {
      var other: nat :| other in m.entries && m.entries[other].hash == e.hash
                        && m.entries[other].deletedAt.None? && Some(other) != Some(e.id);
      assert t.entries[other].hash == t.entries[e.id].hash;
    } else {
      forall a: nat | a in m.entries && a != e.id && m.entries[a].deletedAt.None? && e.deletedAt.None?
        ensures m.entries[a].hash != e.hash
      {
        assert Some(a) != Some(e.id);
      }
    }
  }

  lemma AddDeduplicates(m: Memory, e: Entry)
    requires WellFormed(m) && Deduplicated(m) && e.id == m.nextId && e.deletedAt.None?
    ensures Deduplicated(Add(m, e)) <==> !ActiveHash(m, e.hash, None)
  {
    var t := Add(m, e);
    if ActiveHash(m, e.hash, None) {
      var other: nat :| other in m.entries && m.entries[other].hash == e.hash
                        && m.entries[other].deletedAt.None? && Some(other) != None;
      assert t.entries[other].hash == t.entries[m.nextId].hash;
    } else {
      forall a: nat | a in m.entries && m.entries[a].deletedAt.None? ensures m.entries[a].hash != e.hash {
        assert Some(a) != None;
      }
    }
  }

  lemma EditDeduplicates(m: Memory, op: Op)
    requires WellFormed(m) && Deduplicated(m) && EditsInPlace(op)
    ensures Deduplicated(Apply(m, op)) <==> !Unchecked(m, op)
  {
    EditsSaveOneEntry(m, op);
    var e := EditedEntry(m, op);
    if e.Some? {
      SaveDeduplicates(m, e.value);
      if m.entries[op.id].deletedAt.None? { UniqueAlready(m, op.id); }
    }
  }

  lemma UniqueAlready(m: Memory, id: nat)
    requires Deduplicated(m) && id in m.entries && m.entries[id].deletedAt.None?
    ensures !ActiveHash(m, m.entries[id].hash, Some(id))
  {}

  lemma OverrideDeduplicates(m: Memory, id: nat, edit: Edit)
    requires WellFormed(m) && Deduplicated(m)
    ensures Deduplicated(Override(m, id, edit)) <==> !Unchecked(m, OverrideOp(id, edit))
  {
    if id in m.entries && !UserManaged(m.entries[id].source) && OverrideText(m.entries[id], edit).Some? {
      var e := m.entries[id];
      var text := OverrideText(e, edit).value;
      var hidden := Save(m, e.(hidden := true));
      SaveKeepsWellFormed(m, e.(hidden := true));
      EditDeduplicates(m, HideOp(id));
      AddDeduplicates(hidden, NewEntry(m, e.reach, e.scope, e.scopeKey, Manual, text, Some(id)));
      HidingKeepsHashes(m, id, HashOf(text));
    }
  }

  lemma HidingKeepsHashes(m: Memory, id: nat, hash: string)
    requires WellFormed(m) && id in m.entries
    ensures ActiveHash(Save(m, m.entries[id].(hidden := true)), hash, None) <==> ActiveHash(m, hash, None)
  {
    var t := Save(m, m.entries[id].(hidden := true));
    if ActiveHash(m, hash, None) {
      var k: nat :| k in m.entries && m.entries[k].hash == hash && m.entries[k].deletedAt.None? && Some(k) != None;
      assert k in t.entries && t.entries[k].hash == hash && t.entries[k].deletedAt.None? && Some(k) != None;
    }
  }

  lemma CaptureDeduplicates(m: Memory, taskRun: Option<nat>, reach: Reach, scopeKey: string, output: string)
    requires WellFormed(m) && Deduplicated(m)
    ensures Deduplicated(CaptureBoth(m, taskRun, reach, scopeKey, output)) <==>
              !ActiveHash(m, HashOf(InspectAutomatic(output)), None)
    ensures Deduplicated(Capture(m, taskRun, reach, scopeKey, output))
  {
    var noted := CaptureSummary(m, taskRun, reach, scopeKey, output);
    AddDeduplicates(noted, NewEntry(noted, reach, EpisodicScope, scopeKey, Autosaved, InspectAutomatic(output), None));
    assert ActiveHash(noted, HashOf(InspectAutomatic(output)), None) <==>
        ActiveHash(m, HashOf(InspectAutomatic(output)), None);
  }

  lemma AdditionDeduplicates(m: Memory, op: Op)
    requires WellFormed(m) && Deduplicated(m) && !OnSummaries(op) && !EditsInPlace(op) && !op.OverrideOp?
    ensures Deduplicated(ApplyToEntries(m, op)) <==> !Unchecked(m, op)
  {
    match op
    case CreateOp(reach, scope, scopeKey, title, body, summary) =>
      var text := InspectManual(title, body, summary);
      if text.Some? { AddDeduplicates(m, NewEntry(m, reach, scope, scopeKey, Manual, text.value, None)); }
    case LateCreateOp(reach, scope, scopeKey, text) =>
      AddDeduplicates(m, NewEntry(m, reach, scope, scopeKey, Manual, text, None));
    case CaptureOp(taskRun, reach, scopeKey, output) => CaptureDeduplicates(m, taskRun, reach, scopeKey, output);
    case LateCaptureOp(taskRun, reach, scopeKey, output) => CaptureDeduplicates(m, taskRun, reach, scopeKey, output);
    case HardDeleteOp(_) =>
    case ElapseOp(_) =>
  }

  /** One operation keeps contents unique exactly when it is not an unchecked one. */
  lemma DeduplicationLostExactlyByUnchecked(m: Memory, op: Op)
    requires WellFormed(m) && Deduplicated(m)
    ensures Deduplicated(Apply(m, op)) <==> !Unchecked(m, op)
  {
    if OnSummaries(op) {
      SummaryStepsKeepEntries(m, op);
    } else if EditsInPlace(op) {
      EditDeduplicates(m, op);
    } else if op.OverrideOp? {
      OverrideDeduplicates(m, op.id, op.edit);
    } else {
      AdditionDeduplicates(m, op);
    }
  }

  /** From the empty memory: writing any text, deleting it, writing it again and restoring
      the first leaves two entries of one content. */
  lemma RestoreBringsBackATwin(reach: Reach, title: string, body: string)
    requires InspectManual(title, body, None).Some?
    ensures var write := CreateOp(reach, Stable, "key", title, body, None);
            var t := Apply(Apply(Apply(Apply(EmptyMemory, write), SoftDeleteOp(0)), write), RestoreOp(0));
            && 0 in t.entries && 1 in t.entries && t.entries[0].hash == t.entries[1].hash
            && t.entries[0].deletedAt.None? && t.entries[1].deletedAt.None? && !Deduplicated(t)
  {
    var write := CreateOp(reach, Stable, "key", title, body, None);
    var text := InspectManual(title, body, None).value;
    WriteAdds(EmptyMemory, write, text);
    var one := Apply(EmptyMemory, write);
    var buried := Apply(one, SoftDeleteOp(0));
    assert buried == Save(one, one.entries[0].(deletedAt := Some(one.now)));
    WriteAdds(buried, write, text);
    var two := Apply(buried, write);
    assert Apply(two, RestoreOp(0)) == Save(two, two.entries[0].(deletedAt := None));
  }

  lemma WriteAdds(m: Memory, op: Op, text: Text)
    requires op.CreateOp? && InspectManual(op.title, op.body, op.summary) == Some(text)
    requires forall id: nat | id in m.entries :: m.entries[id].deletedAt.Some?
    ensures Apply(m, op) == Add(m, NewEntry(m, op.reach, op.scope, op.scopeKey, Manual, text, None))
  {}

  ghost predicate UniqueThroughout(m: Memory, ops: seq<Op>)
    decreases |ops|
  {
    Deduplicated(m) && (|ops| == 0 || UniqueThroughout(Apply(m, ops[0]), ops[1..]))
  }

  ghost predicate NoneUnchecked(m: Memory, ops: seq<Op>)
    decreases |ops|
  {
    |ops| == 0 || (!Unchecked(m, ops[0]) && NoneUnchecked(Apply(m, ops[0]), ops[1..]))
  }

  /** Contents stay unique throughout a history exactly if no operation of it meets an
      undeleted twin unchecked. */
  lemma {:induction false} UniqueThroughoutExactly(m: Memory, ops: seq<Op>)
    requires WellFormed(m) && Deduplicated(m)
    ensures UniqueThroughout(m, ops) <==> NoneUnchecked(m, ops)
    decreases |ops|
  {
    if |ops| > 0 {
      ApplyKeepsWellFormed(m, ops[0]);
      DeduplicationLostExactlyByUnchecked(m, ops[0]);
      if !Unchecked(m, ops[0]) { UniqueThroughoutExactly(Apply(m, ops[0]), ops[1..]); }
    }
  }

  predicate AlwaysChecks(op: Op) {
    !op.RestoreOp? && !op.OverrideOp? && !op.LateCreateOp? && !op.LateUpdateOp? && !op.LateCaptureOp?
  }

  /** So a history of operations that look before they write keeps contents unique. */
  lemma {:induction false} HistoryStaysDeduplicated(m: Memory, ops: seq<Op>)
    requires WellFormed(m) && Deduplicated(m)
    requires forall op: Op | op in ops :: AlwaysChecks(op)
    ensures Deduplicated(Replay(m, ops))
    decreases |ops|
  {
    if |ops| > 0 {
      assert ops[0] in ops;
      ApplyKeepsWellFormed(m, ops[0]);
      DeduplicationLostExactlyByUnchecked(m, ops[0]);
      HistoryStaysDeduplicated(Apply(m, ops[0]), ops[1..]);
    }
  }

  // -------------------------------------------------------------------- capture

  /** A capture never touches what is stored; it adds at most one entry, the automatic
      one for its output. */
  lemma CaptureOnlyAdds(m: Memory, taskRun: Option<nat>, reach: Reach, scopeKey: string, output: string)
    requires WellFormed(m)
    ensures var t := Capture(m, taskRun, reach, scopeKey, output);
            && (forall id: nat | id in m.entries :: id in t.entries && t.entries[id] == m.entries[id])
            && (forall id: nat | id in t.entries && id !in m.entries ::
                  id == m.nextId + 1 && t.entries[id].source == Autosaved
                  && t.entries[id].hash == HashOf(InspectAutomatic(output)))
  {
    AddsFreshRow(CaptureSummary(m, taskRun, reach, scopeKey, output), reach, scopeKey, InspectAutomatic(output));
  }

  lemma AddsFreshRow(m: Memory, reach: Reach, scopeKey: string, text: Text)
    requires forall id: nat | id in m.entries :: id < m.nextId
    ensures var e := NewEntry(m, reach, EpisodicScope, scopeKey, Autosaved, text, None);
            var t := Add(m, e);
            && (forall id: nat | id in m.entries :: id in t.entries && t.entries[id] == m.entries[id])
            && (forall id: nat | id in t.entries && id !in m.entries :: id == m.nextId && t.entries[id] == e)
  {}

  /** What a capture does, by what is stored: nothing when captures are off, the output is
      blank or the run has its summary; the summary alone over buried content; nothing over
      content that is stored; else both. */
  lemma CaptureCases(m: Memory, taskRun: Option<nat>, reach: Reach, scopeKey: string, output: string)
    ensures var t := Capture(m, taskRun, reach, scopeKey, output);
            var hash := HashOf(InspectAutomatic(output));
            var done := !m.enabled || Strip(output) == ""
                        || (taskRun.Some? && exists id: nat :: id in m.summaries && m.summaries[id].taskRun == taskRun);
            var buried := exists id: nat :: && id in m.entries && m.entries[id].hash == hash
                                            && (m.entries[id].deletedAt.Some? || m.entries[id].hidden);
            var stored := exists id: nat :: id in m.entries && m.entries[id].hash == hash;
            && (done ==> t == m)
            && (!done && buried ==> t.entries == m.entries && t.summaries.Keys == m.summaries.Keys + {m.nextId})
            && (!done && stored && !buried ==> t == m)
            && (!done && !stored ==>
                  && t.summaries.Keys == m.summaries.Keys + {m.nextId}
                  && t.entries.Keys == m.entries.Keys + {m.nextId + 1}
                  && t.entries[m.nextId + 1].hash == hash && t.entries[m.nextId + 1].source == Autosaved)
  {
    StoredContent(m, HashOf(InspectAutomatic(output)));
    BothAreWritten(m, taskRun, reach, scopeKey, output);
  }

  lemma StoredContent(m: Memory, hash: string)
    ensures (exists id: nat :: id in m.entries && m.entries[id].hash == hash) <==>
              Tombstone(m, hash) || ActiveHash(m, hash, None)
  {
    if id: nat :| id in m.entries && m.entries[id].hash == hash {
      assert Some(id) != None;
    }
  }

  lemma BothAreWritten(m: Memory, taskRun: Option<nat>, reach: Reach, scopeKey: string, output: string)
    ensures var noted := CaptureSummary(m, taskRun, reach, scopeKey, output);
            var t := CaptureBoth(m, taskRun, reach, scopeKey, output);
            && noted.entries == m.entries && noted.summaries.Keys == m.summaries.Keys + {m.nextId}
            && t.summaries == noted.summaries && t.entries.Keys == m.entries.Keys + {m.nextId + 1}
            && t.entries[m.nextId + 1].hash == HashOf(InspectAutomatic(output))
            && t.entries[m.nextId + 1].source == Autosaved
  {
    SummaryIsNoted(m, taskRun, reach, scopeKey, output);
    var noted := CaptureSummary(m, taskRun, reach, scopeKey, output);
    EntryIsAdded(noted, NewEntry(noted, reach, EpisodicScope, scopeKey, Autosaved, InspectAutomatic(output), None));
  }

  lemma SummaryIsNoted(m: Memory, taskRun: Option<nat>, reach: Reach, scopeKey: string, output: string)
    ensures var noted := CaptureSummary(m, taskRun, reach, scopeKey, output);
            && noted.entries == m.entries && noted.summaries.Keys == m.summaries.Keys + {m.nextId}
            && noted.nextId == m.nextId + 1
  {}

  lemma EntryIsAdded(m: Memory, e: Entry)
    requires e.id == m.nextId
    ensures var t := Add(m, e);
            && t.summaries == m.summaries && t.entries.Keys == m.entries.Keys + {m.nextId}
            && t.entries[m.nextId] == e
  {}

  /** A capture never adds an entry whose content the user has hidden or deleted, or
      that is stored already. */
  lemma CaptureRespectsTombstones(m: Memory, taskRun: Option<nat>, reach: Reach, scopeKey: string, output: string)
    requires WellFormed(m)
    ensures var t := Capture(m, taskRun, reach, scopeKey, output);
            forall id: nat, stored: nat | id in t.entries && id !in m.entries && stored in m.entries ::
              t.entries[id].hash != m.entries[stored].hash
  {
    var t := Capture(m, taskRun, reach, scopeKey, output);
    var hash := HashOf(InspectAutomatic(output));
    CaptureOnlyAdds(m, taskRun, reach, scopeKey, output);
    if t.entries != m.entries {
      assert !Tombstone(m, hash) && !ActiveHash(m, hash, None);
      forall stored: nat | stored in m.entries ensures m.entries[stored].hash != hash {
        assert Some(stored) != None;
      }
    }
  }

  /** Once a task run has its summary, capturing it again changes nothing, whatever
      else happens in between, unless summaries are dropped. */
  lemma {:induction false} SummarisedRunIsNeverCapturedAgain(
    m: Memory, ops: seq<Op>, taskRun: nat, reach: Reach, scopeKey: string, output: string)
    requires WellFormed(m) && SummaryOfRun(m, Some(taskRun))
    requires forall op: Op | op in ops :: !op.DropSummaryOp?
    ensures Capture(Replay(m, ops), Some(taskRun), reach, scopeKey, output) == Replay(m, ops)
    decreases |ops|
  {
    if |ops| > 0 {
      var t := Apply(m, ops[0]);
      assert ops[0] in ops;
      ApplyKeepsWellFormed(m, ops[0]);
      SummariesStay(m, ops[0]);
      var id: nat :| id in m.summaries && m.summaries[id].taskRun == Some(taskRun);
      assert id in t.summaries;
      SummarisedRunIsNeverCapturedAgain(t, ops[1..], taskRun, reach, scopeKey, output);
    }
  }

  lemma SummariesStay(m: Memory, op: Op)
    requires WellFormed(m) && !op.DropSummaryOp?
    ensures RunsKept(m, Apply(m, op))
  {
    if OnSummaries(op) { SummaryStepsKeepRuns(m, op); } else { EntryStepsAddSummaries(m, op); }
  }

  lemma SummaryStepsKeepRuns(m: Memory, op: Op)
    requires WellFormed(m) && OnSummaries(op) && !op.DropSummaryOp?
    ensures RunsKept(m, ApplyToSummaries(m, op))
  {
    if op.EditSummaryOp? {
      EditKeepsRuns(m, op.id, op.newText, op.newScopeKey);
    } else if op.RefreshSummaryOp? {
      RefreshKeepsRuns(m, op.session, op.reach, op.scopeKey, op.messages);
    } else if !op.CreateSummaryOp? {
      FlagsKeepRuns(m, op, op.id);
    }
  }

  lemma FlagsKeepRuns(m: Memory, op: Op, id: nat)
    requires op == HideSummaryOp(id) || op == RestoreSummaryOp(id) || op == SoftDeleteSummaryOp(id)
    ensures RunsKept(m, ApplyToSummaries(m, op))
  {}

  /** Every summary is still there, and belongs to the same task run. */
  ghost predicate RunsKept(m: Memory, t: Memory) {
    forall id: nat | id in m.summaries :: id in t.summaries && t.summaries[id].taskRun == m.summaries[id].taskRun
  }

  lemma EditKeepsRuns(m: Memory, id: nat, newText: Option<string>, newScopeKey: Option<string>)
    requires WellFormed(m)
    ensures RunsKept(m, EditSummary(m, id, newText, newScopeKey))
  {}

  lemma RefreshKeepsRuns(m: Memory, session: nat, reach: Reach, scopeKey: string, messages: Option<string>)
    requires WellFormed(m)
    ensures RunsKept(m, Refresh(m, session, reach, scopeKey, messages))
  {
    FoundSummaryIs(m, session, m.nextId);
  }

  /** Repeating a capture at once adds nothing, except that a capture for no task run
      whose content the user has buried notes its summary every time. */
  lemma CaptureIsIdempotentExactly(m: Memory, taskRun: Option<nat>, reach: Reach, scopeKey: string, output: string)
    requires WellFormed(m)
    ensures var once := Capture(m, taskRun, reach, scopeKey, output);
            Capture(once, taskRun, reach, scopeKey, output) == once <==>
              (Ignored(m, taskRun, output) || taskRun.Some? || !Tombstone(m, HashOf(InspectAutomatic(output))))
  {
    var once := Capture(m, taskRun, reach, scopeKey, output);
    var hash := HashOf(InspectAutomatic(output));
    if once != m {
      assert m.nextId in once.summaries && once.summaries[m.nextId].taskRun == taskRun;
      if Tombstone(m, hash) {
        assert Tombstone(once, hash);
      } else {
        var id := m.nextId + 1;
        assert id in once.entries && once.entries[id].hash == hash && once.entries[id].deletedAt.None?;
        assert !Tombstone(once, hash);
        assert ActiveHash(once, hash, None);
      }
    }
  }
}
