/** Which memories reach the prompt: override and duplicate resolution, layers, and
    the assembled context. */
module PromptContext {
  import opened Tables
  import opened Sorting
  import opened MemoryTables
  import opened PromptPacking

  /** What two records must share to be rivals for one place. */
  datatype NaturalKey =
    | OverrideKey(target: nat)
    | EntryKey(scope: Scope, scopeKey: string, title: string)
    | SummaryKey(scopeKey: string, session: Option<nat>, conversation: Option<nat>)

  /** A loaded record, with what the resolution asks of it. */
  datatype Item = Item(
    kind: RecordKind,
    id: nat,
    target: Option<nat>,
    hidden: bool,
    deleted: bool,
    source: Source,
    updatedAt: int,
    key: NaturalKey,
    layer: Option<Layer>,
    rendered: string,
    score: Option<Score>)

  function EntryNaturalKey(e: Entry): NaturalKey {
    if e.target.Some? then OverrideKey(e.target.value) else EntryKey(e.scope, e.scopeKey, TitleKey(e.title))
  }

  function EntryLayer(e: Entry, v: Viewer): Option<Layer> {
    if e.scope == EpisodicScope then
      (if v.delegated && e.reach.session != Some(v.session) then None else Some(Episodic))
    else if e.reach.workspace.Some? && e.reach.workspace.value != "" && e.reach.workspace.value == v.workspace then
      Some(WorkspaceProject)
    else if e.source == Autosaved then Some(StableAutosaved)
    else Some(StableManual)
  }

  function ScopeName(scope: Scope): string {
    match scope
    case Stable => "stable"
    case EpisodicScope => "episodic"
    case Operational => "operational"
    case ManualScope => "manual"
  }

  function RenderEntry(e: Entry): string {
    "- [" + ScopeName(e.scope) + "/" + e.title + "] " + Strip(e.body)
  }

  function EntryItem(e: Entry, v: Viewer, score: Entry -> Score): Item {
    var layer := EntryLayer(e, v);
    Item(EntryRecord, e.id, e.target, e.hidden, e.deletedAt.Some?, e.source, e.updatedAt,
         EntryNaturalKey(e), layer, RenderEntry(e),
         if layer == Some(Episodic) then Some(score(e)) else None)
  }

  function SummaryNaturalKey(s: Summary): NaturalKey {
    if s.target.Some? then OverrideKey(s.target.value)
    else SummaryKey(s.scopeKey, s.reach.session, s.reach.conversation)
  }

  function SummaryLayer(s: Summary, v: Viewer): Option<Layer> {
    if s.taskRun.Some? then None
    else if s.reach.conversation == Some(v.conversation) then Some(ConversationSummary)
    else None
  }

  function SummaryItem(s: Summary, v: Viewer): Item {
    Item(SummaryRecord, s.id, s.target, s.hidden, s.deletedAt.Some?, s.source, s.updatedAt,
         SummaryNaturalKey(s), SummaryLayer(s, v), "- [summary/" + s.scopeKey + "] " + Strip(s.text), None)
  }

  // -------------------------------------------------------------- resolution

  datatype Reason = Hidden | Deleted | Overridden | OverBudget | Because(source: Source)

  datatype Row = Row(kind: RecordKind, id: nat, layer: Option<Layer>, reason: Reason)

  datatype Resolution =
    | Dropped(row: Row)
    | Won(candidate: Candidate, losers: seq<Row>)

  /** The records that some visible record overrides. */
  function LiveTargets(items: seq<Item>): set<nat> {
    set i | i in items && i.target.Some? && !i.deleted && !i.hidden :: i.target.value
  }

  predicate Visible(items: seq<Item>, i: Item) {
    !i.hidden && !i.deleted && i.id !in LiveTargets(items)
  }

  function WhyDropped(i: Item): Reason {
    if i.hidden then Hidden else if i.deleted then Deleted else Overridden
  }

  function RowOf(i: Item, reason: Reason): Row {
    Row(i.kind, i.id, None, reason)
  }

  function CandidateOf(i: Item): Candidate
    requires i.layer.Some?
  {
    Candidate(i.kind, i.id, i.layer.value, i.source, i.rendered, i.updatedAt, i.score)
  }

  function DroppedIn(all: seq<Item>, some: seq<Item>): seq<Resolution> {
    if |some| == 0 then [] else
    var i := some[|some|-1];
    DroppedIn(all, some[..|some|-1]) + if Visible(all, i) then [] else [Dropped(RowOf(i, WhyDropped(i)))]
  }

  function VisibleIn(all: seq<Item>, some: seq<Item>): seq<Item> {
    if |some| == 0 then [] else
    var i := some[|some|-1];
    VisibleIn(all, some[..|some|-1]) + if Visible(all, i) then [i] else []
  }

  /** The distinct keys in order of first appearance. */
  function KeysOf(items: seq<Item>): seq<NaturalKey> {
    if |items| == 0 then [] else
    var before := KeysOf(items[..|items|-1]);
    before + if items[|items|-1].key in before then [] else [items[|items|-1].key]
  }

  function GroupOf(items: seq<Item>, key: NaturalKey): seq<Item> {
    if |items| == 0 then [] else
    GroupOf(items[..|items|-1], key) + if items[|items|-1].key == key then [items[|items|-1]] else []
  }

  /** Stronger source first, then newer, then smaller identifier. */
  predicate Stronger(a: Item, b: Item) {
    || Priority(a.source) < Priority(b.source)
    || (Priority(a.source) == Priority(b.source)
        && (a.updatedAt > b.updatedAt || (a.updatedAt == b.updatedAt && a.id <= b.id)))
  }

  const StrongestFirst := (a: Item, b: Item) => Stronger(a, b)

  function LoserRows(losers: seq<Item>): seq<Row> {
    seq(|losers|, i requires 0 <= i < |losers| => RowOf(losers[i], Overridden))
  }

  /** The contest for one key; it leaves nothing when its winner belongs to no layer. */
  function Contest(visible: seq<Item>, key: NaturalKey): seq<Resolution> {
    var ordered := Sort(GroupOf(visible, key), StrongestFirst);
    if |ordered| == 0 || ordered[0].layer.None? then []
    else [Won(CandidateOf(ordered[0]), LoserRows(ordered[1..]))]
  }

  function Contests(visible: seq<Item>, keys: seq<NaturalKey>): seq<Resolution> {
    if |keys| == 0 then [] else Contests(visible, keys[..|keys|-1]) + Contest(visible, keys[|keys|-1])
  }

  lemma OneMoreKey(visible: seq<Item>, item: Item)
    ensures KeysOf(visible + [item])
         == if item.key in KeysOf(visible) then KeysOf(visible) else KeysOf(visible) + [item.key]
  {
    assert (visible + [item])[..|visible|] == visible;
  }

  lemma OneMoreMember(visible: seq<Item>, item: Item, k: NaturalKey)
    ensures GroupOf(visible + [item], k) == if item.key == k then GroupOf(visible, k) + [item] else GroupOf(visible, k)
  {
    assert (visible + [item])[..|visible|] == visible;
  }

  function Resolutions(items: seq<Item>): seq<Resolution> {
    var visible := VisibleIn(items, items);
    DroppedIn(items, items) + Contests(visible, KeysOf(visible))
  }

  /** The groups of the visible records. */
  ghost predicate Grouped(visible: seq<Item>, keys: seq<NaturalKey>, groups: map<NaturalKey, seq<Item>>) {
    && keys == KeysOf(visible)
    && (forall k: NaturalKey :: k in groups <==> k in keys)
    && (forall k: NaturalKey | k in groups :: groups[k] == GroupOf(visible, k))
    && (forall k: NaturalKey | k !in groups :: GroupOf(visible, k) == [])
  }

  lemma OneMoreRecord(items: seq<Item>, n: nat)
    requires n < |items|
    ensures VisibleIn(items, items[..n+1])
         == if Visible(items, items[n]) then VisibleIn(items, items[..n]) + [items[n]] else VisibleIn(items, items[..n])
    ensures DroppedIn(items, items[..n+1])
         == if Visible(items, items[n]) then DroppedIn(items, items[..n])
            else DroppedIn(items, items[..n]) + [Dropped(RowOf(items[n], WhyDropped(items[n])))]
  {
    assert items[..n+1][..n] == items[..n];
  }

  lemma EveryGroupNext(visible: seq<Item>, item: Item)
    ensures forall k: NaturalKey ::
              GroupOf(visible + [item], k) == GroupOf(visible, k) + (if item.key == k then [item] else [])
  {
    forall k: NaturalKey
      ensures GroupOf(visible + [item], k) == GroupOf(visible, k) + (if item.key == k then [item] else [])
    {
      OneMoreMember(visible, item, k);
    }
  }

  lemma JoinsGroup(visible: seq<Item>, keys: seq<NaturalKey>, groups: map<NaturalKey, seq<Item>>, item: Item)
    requires Grouped(visible, keys, groups) && item.key in groups
    ensures Grouped(visible + [item], keys, groups[item.key := groups[item.key] + [item]])
  {
    OneMoreKey(visible, item);
    EveryGroupNext(visible, item);
  }

  lemma OpensGroup(visible: seq<Item>, keys: seq<NaturalKey>, groups: map<NaturalKey, seq<Item>>, item: Item)
    requires Grouped(visible, keys, groups) && item.key !in groups
    ensures Grouped(visible + [item], keys + [item.key], groups[item.key := [item]])
  {
    OneMoreKey(visible, item);
    EveryGroupNext(visible, item);
    assert [] + [item] == [item];
  }

  /** Records are dropped, or grouped by key in the order the keys appear. */
  method GroupVisible(items: seq<Item>)
    returns (dropped: seq<Resolution>, keys: seq<NaturalKey>, groups: map<NaturalKey, seq<Item>>)
    ensures dropped == DroppedIn(items, items)
    ensures Grouped(VisibleIn(items, items), keys, groups)
  {
    dropped, keys, groups := [], [], map[];
    var overridden := LiveTargets(items);
    for n := 0 to |items|
      invariant dropped == DroppedIn(items, items[..n])
      invariant Grouped(VisibleIn(items, items[..n]), keys, groups)
    {
      var item := items[n];
      ghost var visible := VisibleIn(items, items[..n]);
      OneMoreRecord(items, n);
      if item.hidden {
        dropped := dropped + [Dropped(RowOf(item, Hidden))];
        continue;
      }
      if item.deleted {
        dropped := dropped + [Dropped(RowOf(item, Deleted))];
        continue;
      }
      if item.id in overridden {
        dropped := dropped + [Dropped(RowOf(item, Overridden))];
        continue;
      }
      if item.key in groups {
        JoinsGroup(visible, keys, groups, item);
        groups := groups[item.key := groups[item.key] + [item]];
      } else {
        OpensGroup(visible, keys, groups, item);
        keys := keys + [item.key];
        groups := groups[item.key := [item]];
      }
    }
    assert items[..|items|] == items;
  }

  /** Each group's strongest member wins its key. */
  method ResolveCandidates(items: seq<Item>) returns (results: seq<Resolution>)
    ensures results == Resolutions(items)
  {
    var keys, groups;
    results, keys, groups := GroupVisible(items);
    ghost var visible := VisibleIn(items, items);
    ghost var dropped := results;
    for n := 0 to |keys|
      invariant results == dropped + Contests(visible, keys[..n])
    {
      assert keys[..n+1][..n] == keys[..n];
      assert keys[n] in keys;
      var ordered := Sort(groups[keys[n]], StrongestFirst);
      ghost var contest := Contest(visible, keys[n]);
      assert Contests(visible, keys[..n+1]) == Contests(visible, keys[..n]) + contest;
      if |ordered| == 0 || ordered[0].layer.None? { continue; }
      results := results + [Won(CandidateOf(ordered[0]), LoserRows(ordered[1..]))];
      assert results == dropped + (Contests(visible, keys[..n]) + contest);
    }
    assert keys[..|keys|] == keys;
  }

  /** Why a record is dropped: hidden first, then deleted, else overridden by another. */
  lemma DroppedFor(i: Item)
    ensures i.hidden ==> WhyDropped(i) == Hidden
    ensures !i.hidden && i.deleted ==> WhyDropped(i) == Deleted
    ensures !i.hidden && !i.deleted ==> WhyDropped(i) == Overridden
  {}

  // ------------------------------------------------------- what resolution means

  lemma {:induction false} VisibleInAre(all: seq<Item>, some: seq<Item>)
    ensures forall i: Item :: i in VisibleIn(all, some) <==> i in some && Visible(all, i)
  {
    if |some| > 0 {
      VisibleInAre(all, some[..|some|-1]);
      assert some == some[..|some|-1] + [some[|some|-1]];
    }
  }

  lemma {:induction false} GroupOfAre(items: seq<Item>, key: NaturalKey)
    ensures forall i: Item :: i in GroupOf(items, key) <==> i in items && i.key == key
  {
    if |items| > 0 {
      GroupOfAre(items[..|items|-1], key);
      assert items == items[..|items|-1] + [items[|items|-1]];
    }
  }

  lemma {:induction false} KeysOfAre(items: seq<Item>)
    ensures Distinct(KeysOf(items))
    ensures forall i: Item | i in items :: i.key in KeysOf(items)
    ensures forall k: NaturalKey | k in KeysOf(items) :: exists i: Item :: i in items && i.key == k
  {
    if |items| > 0 {
      var init := items[..|items|-1];
      KeysOfAre(init);
      assert items == init + [items[|items|-1]];
    }
  }

  lemma StrongestFirstIsTotal()
    ensures TotalPreorder(StrongestFirst)
  {}

  /** The winner of a key: a visible record that no visible rival of that key beats. */
  ghost predicate WinsKey(items: seq<Item>, i: Item, key: NaturalKey) {
    && i in items && Visible(items, i) && i.key == key
    && forall j: Item | j in items && Visible(items, j) && j.key == key :: Stronger(i, j)
  }

  /** One contest: who wins it, who loses it, and when it leaves nothing. */
  lemma ContestMeans(items: seq<Item>, key: NaturalKey) returns (winner: Item)
    requires exists i: Item :: i in items && Visible(items, i) && i.key == key
    ensures WinsKey(items, winner, key)
    ensures var visible := VisibleIn(items, items);
            if winner.layer.None? then Contest(visible, key) == []
            else |Contest(visible, key)| == 1
                 && Contest(visible, key)[0].Won?
                 && Contest(visible, key)[0].candidate == CandidateOf(winner)
                 && (forall j: Item | j in items && Visible(items, j) && j.key == key && j != winner ::
                       RowOf(j, Overridden) in Contest(visible, key)[0].losers)
                 && (forall row: Row | row in Contest(visible, key)[0].losers ::
                       exists j: Item :: j in items && Visible(items, j) && j.key == key && row == RowOf(j, Overridden))
  {
    var visible := VisibleIn(items, items);
    var group := GroupOf(visible, key);
    var ordered := Sort(group, StrongestFirst);
    VisibleInAre(items, items);
    GroupOfAre(visible, key);
    StrongestFirstIsTotal();
    SortSorts(group, StrongestFirst);
    SortKeepsMembers(group, StrongestFirst);
    var some: Item :| some in items && Visible(items, some) && some.key == key;
    assert some in ordered;
    winner := ordered[0];
    assert ordered == [winner] + ordered[1..];
    forall j: Item | j in items && Visible(items, j) && j.key == key ensures Stronger(winner, j) {
      assert j in ordered;
      var n: nat :| n < |ordered| && ordered[n] == j;
      if n > 0 { assert StrongestFirst(ordered[0], ordered[n]); }
    }
    LoserRowsAre(ordered[1..]);
    assert winner in ordered;
    if winner.layer.Some? {
      forall row: Row | row in LoserRows(ordered[1..])
        ensures exists j: Item :: j in items && Visible(items, j) && j.key == key && row == RowOf(j, Overridden)
      {
        var j: Item :| j in ordered[1..] && row == RowOf(j, Overridden);
        assert j in ordered;
      }
    }
  }

  lemma LoserRowsAre(losers: seq<Item>)
    ensures forall j: Item | j in losers :: RowOf(j, Overridden) in LoserRows(losers)
    ensures forall row: Row | row in LoserRows(losers) :: exists j: Item :: j in losers && row == RowOf(j, Overridden)
  {
    forall j: Item | j in losers ensures RowOf(j, Overridden) in LoserRows(losers) {
      var n: nat :| n < |losers| && losers[n] == j;
      assert LoserRows(losers)[n] == RowOf(j, Overridden);
    }
    forall row: Row | row in LoserRows(losers)
      ensures exists j: Item :: j in losers && row == RowOf(j, Overridden)
    {
      var n: nat :| n < |LoserRows(losers)| && LoserRows(losers)[n] == row;
      assert losers[n] in losers;
    }
  }

  lemma {:induction false} DroppedInAre(all: seq<Item>, some: seq<Item>)
    ensures forall res: Resolution :: res in DroppedIn(all, some) <==>
              exists i: Item :: i in some && !Visible(all, i) && res == Dropped(RowOf(i, WhyDropped(i)))
  {
    if |some| > 0 {
      DroppedInAre(all, some[..|some|-1]);
      assert some == some[..|some|-1] + [some[|some|-1]];
    }
  }

  lemma {:induction false} ContestsAre(visible: seq<Item>, keys: seq<NaturalKey>)
    ensures forall res: Resolution :: res in Contests(visible, keys) <==>
              exists k: NaturalKey :: k in keys && res in Contest(visible, k)
  {
    if |keys| > 0 {
      ContestsAre(visible, keys[..|keys|-1]);
      assert keys == keys[..|keys|-1] + [keys[|keys|-1]];
    }
  }

  /** Nothing hidden, deleted or overridden wins, and a winner is the least of its key
      under (source priority, newest, identifier). */
  lemma WinnersAreVisible(items: seq<Item>, res: Resolution) returns (winner: Item)
    requires res in Resolutions(items) && res.Won?
    ensures WinsKey(items, winner, winner.key) && winner.layer.Some? && res.candidate == CandidateOf(winner)
    ensures !winner.hidden && !winner.deleted
    ensures forall o: Item | o in items && !o.hidden && !o.deleted :: o.target != Some(winner.id)
    ensures res in Contest(VisibleIn(items, items), winner.key)
  {
    var visible := VisibleIn(items, items);
    DroppedInAre(items, items);
    ContestsAre(visible, KeysOf(visible));
    KeysOfAre(visible);
    VisibleInAre(items, items);
    var key: NaturalKey :| key in KeysOf(visible) && res in Contest(visible, key);
    winner := ContestMeans(items, key);
    forall o: Item | o in items && !o.hidden && !o.deleted ensures o.target != Some(winner.id) {
      if o.target.Some? { assert o.target.value in LiveTargets(items); }
    }
  }

  lemma {:induction false} AllVisible(all: seq<Item>, some: seq<Item>)
    requires forall i: Item | i in some :: Visible(all, i)
    ensures VisibleIn(all, some) == some && DroppedIn(all, some) == []
  {
    if |some| > 0 {
      assert some == some[..|some|-1] + [some[|some|-1]];
      AllVisible(all, some[..|some|-1]);
    }
  }

  ghost predicate NoRivals(items: seq<Item>) {
    forall i: nat, j: nat | i < j < |items| :: items[i].key != items[j].key
  }

  lemma {:induction false} EmptyGroup(items: seq<Item>, key: NaturalKey)
    requires forall i: Item | i in items :: i.key != key
    ensures GroupOf(items, key) == []
  {
    if |items| > 0 {
      assert items[|items|-1] in items;
      EmptyGroup(items[..|items|-1], key);
    }
  }

  lemma {:induction false} LoneGroup(items: seq<Item>, n: nat)
    requires NoRivals(items) && n < |items|
    ensures GroupOf(items, items[n].key) == [items[n]]
  {
    var init := items[..|items|-1];
    if n < |init| { LoneGroup(init, n); } else { EmptyGroup(init, items[n].key); }
  }

  lemma LoneContest(items: seq<Item>, i: Item)
    requires NoRivals(items) && i in items && i.layer.Some?
    ensures Contest(items, i.key) == [Won(CandidateOf(i), [])]
  {
    var n: nat :| n < |items| && items[n] == i;
    LoneGroup(items, n);
    assert [i][1..] == [];
    assert Sort([i], StrongestFirst) == [i];
    assert LoserRows([]) == [];
  }

  /** What resolves when every record wins. */
  function AllWin(items: seq<Item>): seq<Resolution>
    requires forall i: Item | i in items :: i.layer.Some?
  {
    if |items| == 0 then [] else AllWin(items[..|items|-1]) + [Won(CandidateOf(items[|items|-1]), [])]
  }

  lemma {:induction false} NewKeys(items: seq<Item>)
    requires NoRivals(items) && |items| > 0
    ensures KeysOf(items) == KeysOf(items[..|items|-1]) + [items[|items|-1].key]
    ensures NoRivals(items[..|items|-1])
  {
    KeysOfAre(items[..|items|-1]);
  }

  lemma {:induction false} ContestsWithoutRivals(visible: seq<Item>, some: seq<Item>)
    requires NoRivals(visible) && NoRivals(some)
    requires forall i: Item | i in some :: i in visible && i.layer.Some?
    ensures Contests(visible, KeysOf(some)) == AllWin(some)
  {
    if |some| > 0 {
      NewKeys(some);
      LoneContest(visible, some[|some|-1]);
      ContestsWithoutRivals(visible, some[..|some|-1]);
      var keys := KeysOf(some[..|some|-1]);
      assert KeysOf(some)[..|KeysOf(some)|-1] == keys;
    }
  }

  /** Visible records without rivals all win, and nothing is reported. */
  lemma WithoutRivalsAllWin(items: seq<Item>)
    requires NoRivals(items) && forall i: Item | i in items :: Visible(items, i) && i.layer.Some?
    ensures Resolutions(items) == AllWin(items)
  {
    AllVisible(items, items);
    ContestsWithoutRivals(items, items);
  }

  /** Every loaded record is a winner, is reported, or lost to (or is) a winner that
      belongs to no layer. */
  lemma EveryRecordIsAccountedFor(items: seq<Item>, i: Item)
    requires i in items
    ensures || Dropped(RowOf(i, WhyDropped(i))) in Resolutions(items)
            || (exists res: Resolution :: res in Resolutions(items) && res.Won?
                  && ((i.layer.Some? && res.candidate == CandidateOf(i)) || RowOf(i, Overridden) in res.losers))
            || (exists w: Item :: WinsKey(items, w, i.key) && w.layer.None?)
    ensures !Visible(items, i) ==> Dropped(RowOf(i, WhyDropped(i))) in Resolutions(items)
  {
    var visible := VisibleIn(items, items);
    DroppedInAre(items, items);
    if Visible(items, i) {
      ContestsAre(visible, KeysOf(visible));
      KeysOfAre(visible);
      VisibleInAre(items, items);
      var w := ContestMeans(items, i.key);
      if w.layer.Some? {
        var res := Contest(visible, i.key)[0];
        assert res in Contest(visible, i.key);
        assert res in Resolutions(items);
      }
    }
  }
}
