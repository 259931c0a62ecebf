/** Memory entries and session summaries, as far as they steer recall. */
module MemoryTables {
  import opened Tables

  datatype Source =
    | Manual
    | UserOverride
    | PromotedFromSession
    | PromotedFromSubagent
    | Autosaved
    | Summarized
    | LegacyAutomatic

  datatype RecordKind = EntryRecord | SummaryRecord

  /** Lower is stronger. */
  function Priority(source: Source): nat {
    match source
    case Manual => 0
    case UserOverride => 1
    case PromotedFromSession => 2
    case PromotedFromSubagent => 2
    case Autosaved => 3
    case Summarized => 4
    case LegacyAutomatic => 99
  }

  predicate UserManaged(source: Source) {
    source in {Manual, UserOverride, PromotedFromSession, PromotedFromSubagent}
  }

  datatype Scope = Stable | EpisodicScope | Operational | ManualScope

  /** Where a record came from; it decides which sessions load it. */
  datatype Reach = Reach(
    agent: Option<nat>,
    session: Option<nat>,
    root: Option<nat>,
    parent: Option<nat>,
    conversation: Option<nat>,
    user: Option<nat>,
    workspace: Option<string>)

  /** `hash` is the text whose digest the source stores; `target` names the entry this
      one overrides. */
  datatype Entry = Entry(
    id: nat,
    reach: Reach,
    scope: Scope,
    scopeKey: string,
    source: Source,
    title: string,
    body: string,
    summary: Option<string>,
    hash: string,
    hidden: bool,
    deletedAt: Option<int>,
    updatedAt: int,
    target: Option<nat>)

  datatype Summary = Summary(
    id: nat,
    reach: Reach,
    scopeKey: string,
    taskRun: Option<nat>,
    source: Source,
    text: string,
    hidden: bool,
    deletedAt: Option<int>,
    updatedAt: int,
    target: Option<nat>)

  /** The session a prompt is built for. */
  datatype Viewer = Viewer(agent: nat, session: nat, root: nat, conversation: nat, delegated: bool, workspace: string)

  const LocalUser: nat := 0

  predicate SameUser(reach: Reach) {
    reach.user == Some(LocalUser)
  }

  /** The query that loads the entries for a session. */
  predicate Loads(v: Viewer, reach: Reach) {
    || reach.agent == Some(v.agent)
    || reach.session == Some(v.session)
    || reach.root == Some(v.root)
    || reach.conversation == Some(v.conversation)
    || SameUser(reach)
    || reach.workspace == Some(v.workspace)
  }

  /** The query that loads the summaries: only those that belong to no task run. */
  predicate LoadsSummary(v: Viewer, s: Summary) {
    && s.taskRun.None?
    && (|| s.reach.agent == Some(v.agent)
        || s.reach.session == Some(v.session)
        || s.reach.root == Some(v.root)
        || s.reach.conversation == Some(v.conversation)
        || SameUser(s.reach))
  }

  // -------------------------------------------------------------- text forms

  predicate IsSpace(c: char) {
    c == ' ' || c == '\t' || c == '\n' || c == '\r' || c == 11 as char || c == 12 as char
  }

  function Lower(s: string): string {
    if |s| == 0 then "" else
    [if 'A' <= s[0] <= 'Z' then (s[0] as int + 32) as char else s[0]] + Lower(s[1..])
  }

  /** The whitespace-separated words; `word` is the one being read. */
  function Words(s: string, word: string): seq<string> {
    if |s| == 0 then (if word == "" then [] else [word])
    else if IsSpace(s[0]) then (if word == "" then [] else [word]) + Words(s[1..], "")
    else Words(s[1..], word + [s[0]])
  }

  function Spaced(words: seq<string>): string {
    if |words| == 0 then "" else if |words| == 1 then words[0] else words[0] + " " + Spaced(words[1..])
  }

  /** A title regardless of case and spacing. */
  function TitleKey(title: string): string {
    Spaced(Words(Lower(title), ""))
  }

  function RStrip(s: string): (r: string)
    ensures r <= s
    ensures r == "" || !IsSpace(r[|r|-1])
    ensures forall i: nat | |r| <= i < |s| :: IsSpace(s[i])
  {
    if |s| > 0 && IsSpace(s[|s|-1]) then RStrip(s[..|s|-1]) else s
  }

  function LStrip(s: string): string {
    if |s| > 0 && IsSpace(s[0]) then LStrip(s[1..]) else s
  }

  function Strip(s: string): string {
    RStrip(LStrip(s))
  }

  /** The normalised text that identifies a memory's content. */
  function DedupeText(title: string, body: string, summary: Option<string>): string {
    TitleKey(title) + "||" + TitleKey(body) + "||" + (if summary.Some? then TitleKey(summary.value) else "")
  }

  function Summarize(text: string, limit: nat): string {
    var flat := Spaced(Words(text, ""));
    var short := if |flat| > limit then flat[..limit] else flat;
    if short == "" then "Execution memory" else short
  }
}
