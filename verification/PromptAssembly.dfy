/** The assembled prompt context: every layer within budget, nothing hidden in it, and
    every loaded record accounted for. */
module PromptAssembly {
  import opened Tables
  import opened Sorting
  import opened MemoryTables
  import opened PromptPacking
  import opened PromptContext

  function CandidateRow(c: Candidate, reason: Reason): Row {
    Row(c.kind, c.id, Some(c.layer), reason)
  }

  function Winners(results: seq<Resolution>): seq<Candidate> {
    if |results| == 0 then [] else
    var last := results[|results|-1];
    Winners(results[..|results|-1]) + if last.Won? then [last.candidate] else []
  }

  function Reported(results: seq<Resolution>): seq<Row> {
    if |results| == 0 then [] else
    var last := results[|results|-1];
    Reported(results[..|results|-1]) + if last.Won? then last.losers else [last.row]
  }

  lemma {:induction false} WinnersAndReports(results: seq<Resolution>)
    ensures forall c: Candidate :: c in Winners(results) <==>
              exists res: Resolution :: res in results && res.Won? && res.candidate == c
    ensures forall row: Row :: row in Reported(results) <==>
              exists res: Resolution :: res in results && (if res.Won? then row in res.losers else res.row == row)
  {
    if |results| > 0 {
      WinnersAndReports(results[..|results|-1]);
      assert results == results[..|results|-1] + [results[|results|-1]];
    }
  }

  function InLayer(cs: seq<Candidate>, layer: Layer): seq<Candidate> {
    if |cs| == 0 then [] else
    InLayer(cs[..|cs|-1], layer) + if cs[|cs|-1].layer == layer then [cs[|cs|-1]] else []
  }

  lemma {:induction false} InLayerAre(cs: seq<Candidate>, layer: Layer)
    ensures forall c: Candidate :: c in InLayer(cs, layer) <==> c in cs && c.layer == layer
  {
    if |cs| > 0 {
      InLayerAre(cs[..|cs|-1], layer);
      assert cs == cs[..|cs|-1] + [cs[|cs|-1]];
    }
  }

  function Overlap(c: Candidate): int {
    if c.score.Some? then c.score.value.overlap else 0
  }

  function Density(c: Candidate): real {
    if c.score.Some? then c.score.value.density else 0.0
  }

  /** Better match first, then newer, then smaller identifier. */
  predicate MatchesBetter(a: Candidate, b: Candidate) {
    || Overlap(a) > Overlap(b)
    || (Overlap(a) == Overlap(b)
        && (|| Density(a) > Density(b)
            || (Density(a) == Density(b) && NewerOrSame(a, b))))
  }

  const BestFirst := (a: Candidate, b: Candidate) => MatchesBetter(a, b)

  /** At most four episodic memories enter the contest for space. */
  function Shortlist(cs: seq<Candidate>): seq<Candidate> {
    var ranked := Sort(cs, BestFirst);
    if |ranked| > 4 then ranked[..4] else ranked
  }

  function LayerCandidates(cs: seq<Candidate>, layer: Layer): seq<Candidate> {
    if layer == Episodic then Shortlist(InLayer(cs, layer)) else InLayer(cs, layer)
  }

  lemma LayerCandidatesAre(cs: seq<Candidate>, layer: Layer)
    ensures forall c: Candidate | c in LayerCandidates(cs, layer) :: c in cs && c.layer == layer
    ensures forall c: Candidate | c in cs && c.layer == layer && c !in LayerCandidates(cs, layer) ::
              layer == Episodic && |LayerCandidates(cs, layer)| == 4
              && forall d: Candidate | d in LayerCandidates(cs, layer) :: MatchesBetter(d, c)
  {
    InLayerAre(cs, layer);
    if layer == Episodic {
      var group := InLayer(cs, layer);
      var ranked := Sort(group, BestFirst);
      SortKeepsMembers(group, BestFirst);
      assert TotalPreorder(BestFirst);
      SortSorts(group, BestFirst);
      forall c: Candidate | c in group && c !in Shortlist(group)
        ensures |ranked| > 4 && forall d: Candidate | d in ranked[..4] :: MatchesBetter(d, c)
      {
        assert c in ranked;
        var n: nat :| n < |ranked| && ranked[n] == c;
        assert forall m: nat | m < |Shortlist(group)| :: Shortlist(group)[m] == ranked[m];
        assert n >= 4;
        forall d: Candidate | d in ranked[..4] ensures MatchesBetter(d, c) {
          var m: nat :| m < 4 && ranked[m] == d;
          assert BestFirst(ranked[m], ranked[n]);
        }
      }
      forall c: Candidate | c in Shortlist(group) ensures c in cs { assert c in ranked; }
    }
  }

  /** Whoever is left out of the four shares no more words with the input than any of them,
      as many only at no higher density, then only if no newer, and then only with a
      larger identifier. */
  lemma ShortlistKeepsBest(cs: seq<Candidate>, c: Candidate, d: Candidate)
    requires c in cs && c.layer == Episodic && c !in LayerCandidates(cs, Episodic) && d in LayerCandidates(cs, Episodic)
    requires c.score.Some? && d.score.Some?
    ensures d.score.value.overlap >= c.score.value.overlap
    ensures d.score.value.overlap == c.score.value.overlap ==> d.score.value.density >= c.score.value.density
    ensures d.score == c.score ==> d.updatedAt >= c.updatedAt
    ensures d.score == c.score && d.updatedAt == c.updatedAt ==> d.id <= c.id
  {
    LayerCandidatesAre(cs, Episodic);
    assert MatchesBetter(d, c);
  }

  function Total(texts: seq<string>): nat {
    if |texts| == 0 then 0 else Total(texts[..|texts|-1]) + |texts[|texts|-1]|
  }

  function TotalBudget(n: nat): nat
    requires n <= |LayerOrder|
  {
    if n == 0 then 0 else TotalBudget(n - 1) + Budget(LayerOrder[n-1])
  }

  /** The layers in prompt order, each with its room. */
  lemma LayersAre()
    ensures LayerOrder == [StableManual, StableAutosaved, WorkspaceProject, ConversationSummary, Episodic]
    ensures Budget(StableManual) == 2000 && Budget(StableAutosaved) == 1500 && Budget(WorkspaceProject) == 1500
    ensures Budget(ConversationSummary) == 1200 && Budget(Episodic) == 1500
  {}

  lemma WholeBudget()
    ensures TotalBudget(5) == 7700
  {
    assert TotalBudget(1) == 2000;
    assert TotalBudget(2) == 3500;
    assert TotalBudget(3) == 5000;
    assert TotalBudget(4) == 6200;
  }

  function RowsOf(cs: seq<Candidate>, budget: bool): seq<Row> {
    seq(|cs|, i requires 0 <= i < |cs| => CandidateRow(cs[i], if budget then OverBudget else Because(cs[i].source)))
  }

  /** The row is that of a candidate which reaches its layer. */
  ghost predicate RowFrom(row: Row, cs: seq<Candidate>) {
    exists c: Candidate :: c in cs && c in LayerCandidates(cs, c.layer) && row == CandidateRow(c, row.reason)
  }

  ghost predicate RowsFrom(rows: seq<Row>, cs: seq<Candidate>) {
    forall row: Row | row in rows :: RowFrom(row, cs)
  }

  /** The candidate is in the prompt or reported as over budget. */
  predicate Placed(c: Candidate, included: seq<Row>, excluded: seq<Row>) {
    CandidateRow(c, Because(c.source)) in included || CandidateRow(c, OverBudget) in excluded
  }

  /** The text of a layer is the packing of its candidates, newest first, and the rows of
      that layer are what this packing includes and leaves out. */
  ghost predicate LayerShown(
    cs: seq<Candidate>, layer: Layer, text: string, included: seq<Row>, excluded: seq<Row>)
  {
    exists k: nat, more: seq<Candidate>, less: seq<Candidate> ::
      && Packed(Sort(LayerCandidates(cs, layer), NewestFirst), Budget(layer), k, text, more, less)
      && RowsOfLayer(included, layer, RowsOf(more, false)) && RowsOfLayer(excluded, layer, RowsOf(less, true))
  }

  ghost predicate RowsOfLayer(rows: seq<Row>, layer: Layer, these: seq<Row>) {
    forall row: Row :: row in rows && row.layer == Some(layer) <==> row in these
  }

  /** Only rows of the first `n` layers so far. */
  ghost predicate OnlyFirst(rows: seq<Row>, n: nat)
    requires n <= |LayerOrder|
  {
    forall row: Row | row in rows :: exists m: nat :: m < n && row.layer == Some(LayerOrder[m])
  }

  /** The first `n` layers are packed: within budget, from their own candidates, and
      with every one of these placed. */
  ghost predicate LayersPacked(cs: seq<Candidate>, n: nat, texts: seq<string>, included: seq<Row>, excluded: seq<Row>)
    requires n <= |LayerOrder|
  {
    && |texts| == n
    && (forall m: nat | m < n :: |texts[m]| <= Budget(LayerOrder[m]))
    && Total(texts) <= TotalBudget(n)
    && RowsFrom(included, cs) && RowsFrom(excluded, cs)
    && (forall m: nat, c: Candidate | m < n && c in LayerCandidates(cs, LayerOrder[m]) :: Placed(c, included, excluded))
    && (forall m: nat | m < n :: LayerShown(cs, LayerOrder[m], texts[m], included, excluded))
    && OnlyFirst(included, n) && OnlyFirst(excluded, n)
  }

  /** The result of packing a group of candidates, as rows. */
  lemma PackedRows(
    cs: seq<Candidate>, layer: Layer, budget: nat, k: nat,
    text: string, more: seq<Candidate>, less: seq<Candidate>)
    requires Packed(Sort(LayerCandidates(cs, layer), NewestFirst), budget, k, text, more, less)
    ensures RowsFrom(RowsOf(more, false), cs) && RowsFrom(RowsOf(less, true), cs)
    ensures forall c: Candidate | c in LayerCandidates(cs, layer) ::
              Placed(c, RowsOf(more, false), RowsOf(less, true))
    ensures forall row: Row | row in RowsOf(more, false) + RowsOf(less, true) :: row.layer == Some(layer)
  {
    var group := LayerCandidates(cs, layer);
    LayerCandidatesAre(cs, layer);
    SortKeepsMembers(group, NewestFirst);
    PackedCovers(Sort(group, NewestFirst), budget, k, text, more, less);
    RowsOfAre(more, false);
    RowsOfAre(less, true);
    forall row: Row | row in RowsOf(more, false) ensures RowFrom(row, cs) && row.layer == Some(layer) {
      var c: Candidate :| c in more && row == CandidateRow(c, Because(c.source));
      assert c in group;
    }
    forall row: Row | row in RowsOf(less, true) ensures RowFrom(row, cs) && row.layer == Some(layer) {
      var c: Candidate :| c in less && row == CandidateRow(c, OverBudget);
      assert c in group;
    }
  }

  lemma PackedCovers(
    ordered: seq<Candidate>, budget: nat, k: nat, text: string, more: seq<Candidate>, less: seq<Candidate>)
    requires Packed(ordered, budget, k, text, more, less)
    ensures forall c: Candidate | c in more || c in less :: c in ordered
    ensures forall c: Candidate | c in ordered :: c in more || c in less
  {
    forall c: Candidate | c in ordered ensures c in more || c in less {
      var i: nat :| i < |ordered| && ordered[i] == c;
      if i < k { assert more[i] == c; } else { assert less[i - k] == c; }
    }
  }

  lemma PackOneMore(
    cs: seq<Candidate>, n: nat, texts: seq<string>, included: seq<Row>, excluded: seq<Row>,
    text: string, more: seq<Row>, less: seq<Row>)
    requires n < |LayerOrder| && LayersPacked(cs, n, texts, included, excluded)
    requires |text| <= Budget(LayerOrder[n])
    requires RowsFrom(more, cs) && RowsFrom(less, cs)
    requires forall c: Candidate | c in LayerCandidates(cs, LayerOrder[n]) :: Placed(c, more, less)
    requires LayerShown(cs, LayerOrder[n], text, more, less)
    requires forall row: Row | row in more + less :: row.layer == Some(LayerOrder[n])
    ensures LayersPacked(cs, n + 1, texts + [text], included + more, excluded + less)
  {
    assert (texts + [text])[..n] == texts;
    LayersDiffer();
    OneMoreLayer(included, n, more);
    OneMoreLayer(excluded, n, less);
    ShowOneMore(cs, n, texts, included, excluded, text, more, less);
    PlaceOneMore(cs, n, included, excluded, more, less);
  }

  lemma PlaceOneMore(
    cs: seq<Candidate>, n: nat, included: seq<Row>, excluded: seq<Row>, more: seq<Row>, less: seq<Row>)
    requires n < |LayerOrder|
    requires forall m: nat, c: Candidate | m < n && c in LayerCandidates(cs, LayerOrder[m]) ::
               Placed(c, included, excluded)
    requires forall c: Candidate | c in LayerCandidates(cs, LayerOrder[n]) :: Placed(c, more, less)
    ensures forall m: nat, c: Candidate | m < n + 1 && c in LayerCandidates(cs, LayerOrder[m]) ::
              Placed(c, included + more, excluded + less)
  {
    forall m: nat, c: Candidate | m < n + 1 && c in LayerCandidates(cs, LayerOrder[m])
      ensures Placed(c, included + more, excluded + less)
    {
      if m < n { assert Placed(c, included, excluded); } else { assert Placed(c, more, less); }
    }
  }

  lemma ShowOneMore(
    cs: seq<Candidate>, n: nat, texts: seq<string>, included: seq<Row>, excluded: seq<Row>,
    text: string, more: seq<Row>, less: seq<Row>)
    requires n < |LayerOrder| && |texts| == n && OnlyFirst(included, n) && OnlyFirst(excluded, n)
    requires forall m: nat | m < n :: LayerShown(cs, LayerOrder[m], texts[m], included, excluded)
    requires LayerShown(cs, LayerOrder[n], text, more, less)
    requires forall row: Row | row in more + less :: row.layer == Some(LayerOrder[n])
    ensures forall m: nat | m < n + 1 ::
              LayerShown(cs, LayerOrder[m], (texts + [text])[m], included + more, excluded + less)
  {
    LayersDiffer();
    forall m: nat | m < n + 1
      ensures LayerShown(cs, LayerOrder[m], (texts + [text])[m], included + more, excluded + less)
    {
      if m < n {
        ShownStays(cs, LayerOrder[m], texts[m], included, excluded, more, less);
      } else {
        ShownJoins(cs, LayerOrder[n], text, included, excluded, more, less);
      }
    }
  }

  lemma LayersDiffer()
    ensures forall m: nat, n: nat | m < n < |LayerOrder| :: LayerOrder[m] != LayerOrder[n]
  {
    assert LayerOrder[0] == StableManual && LayerOrder[1] == StableAutosaved;
    assert LayerOrder[2] == WorkspaceProject && LayerOrder[3] == ConversationSummary && LayerOrder[4] == Episodic;
  }

  lemma OneMoreLayer(rows: seq<Row>, n: nat, more: seq<Row>)
    requires n < |LayerOrder| && OnlyFirst(rows, n)
    requires forall row: Row | row in more :: row.layer == Some(LayerOrder[n])
    ensures OnlyFirst(rows + more, n + 1)
  {
    forall row: Row | row in rows + more ensures exists m: nat :: m < n + 1 && row.layer == Some(LayerOrder[m]) {
      if row in rows {
        var m: nat :| m < n && row.layer == Some(LayerOrder[m]);
        assert m < n + 1;
      } else {
        assert row.layer == Some(LayerOrder[n]);
      }
    }
  }

  /** Rows of other layers do not disturb a layer. */
  lemma ShownStays(
    cs: seq<Candidate>, layer: Layer, text: string, included: seq<Row>, excluded: seq<Row>,
    more: seq<Row>, less: seq<Row>)
    requires LayerShown(cs, layer, text, included, excluded)
    requires forall row: Row | row in more + less :: row.layer != Some(layer)
    ensures LayerShown(cs, layer, text, included + more, excluded + less)
    ensures LayerShown(cs, layer, text, included, less + excluded)
  {
    var k: nat, these: seq<Candidate>, those: seq<Candidate> :|
      && Packed(Sort(LayerCandidates(cs, layer), NewestFirst), Budget(layer), k, text, these, those)
      && RowsOfLayer(included, layer, RowsOf(these, false)) && RowsOfLayer(excluded, layer, RowsOf(those, true));
    assert RowsOfLayer(included + more, layer, RowsOf(these, false));
    assert RowsOfLayer(excluded + less, layer, RowsOf(those, true));
    assert RowsOfLayer(less + excluded, layer, RowsOf(those, true));
  }

  lemma ShownJoins(
    cs: seq<Candidate>, layer: Layer, text: string, included: seq<Row>, excluded: seq<Row>,
    more: seq<Row>, less: seq<Row>)
    requires LayerShown(cs, layer, text, more, less)
    requires forall row: Row | row in included + excluded :: row.layer != Some(layer)
    ensures LayerShown(cs, layer, text, included + more, excluded + less)
  {
    var k: nat, these: seq<Candidate>, those: seq<Candidate> :|
      && Packed(Sort(LayerCandidates(cs, layer), NewestFirst), Budget(layer), k, text, these, those)
      && RowsOfLayer(more, layer, RowsOf(these, false)) && RowsOfLayer(less, layer, RowsOf(those, true));
    assert RowsOfLayer(included + more, layer, RowsOf(these, false));
    assert RowsOfLayer(excluded + less, layer, RowsOf(those, true));
  }

  lemma RowsOfAre(cs: seq<Candidate>, budget: bool)
    ensures forall c: Candidate | c in cs ::
              CandidateRow(c, if budget then OverBudget else Because(c.source)) in RowsOf(cs, budget)
    ensures forall row: Row | row in RowsOf(cs, budget) ::
              exists c: Candidate :: c in cs && row == CandidateRow(c, if budget then OverBudget else Because(c.source))
  {
    forall c: Candidate | c in cs
      ensures CandidateRow(c, if budget then OverBudget else Because(c.source)) in RowsOf(cs, budget)
    {
      var n: nat :| n < |cs| && cs[n] == c;
      assert RowsOf(cs, budget)[n] == CandidateRow(c, if budget then OverBudget else Because(c.source));
    }
    forall row: Row | row in RowsOf(cs, budget)
      ensures exists c: Candidate :: c in cs && row == CandidateRow(c, if budget then OverBudget else Because(c.source))
    {
      var n: nat :| n < |cs| && RowsOf(cs, budget)[n] == row;
      assert cs[n] in cs;
    }
  }

  /** Packs the five layers in order. */
  method PackLayers(cs: seq<Candidate>) returns (texts: seq<string>, included: seq<Row>, excluded: seq<Row>)
    ensures LayersPacked(cs, |LayerOrder|, texts, included, excluded)
  {
    texts, included, excluded := [], [], [];
    for n := 0 to |LayerOrder|
      invariant LayersPacked(cs, n, texts, included, excluded)
    {
      var layer := LayerOrder[n];
      var text, more, less := BuildLayer(LayerCandidates(cs, layer), Budget(layer));
      ghost var k: nat :| Packed(Sort(LayerCandidates(cs, layer), NewestFirst), Budget(layer), k, text, more, less);
      PackedRows(cs, layer, Budget(layer), k, text, more, less);
      assert RowsOfLayer(RowsOf(more, false), layer, RowsOf(more, false));
      assert RowsOfLayer(RowsOf(less, true), layer, RowsOf(less, true));
      PackOneMore(cs, n, texts, included, excluded, text, RowsOf(more, false), RowsOf(less, true));
      texts := texts + [text];
      included := included + RowsOf(more, false);
      excluded := excluded + RowsOf(less, true);
    }
  }

  function EntryItems(entries: seq<Entry>, v: Viewer, score: Entry -> Score): seq<Item> {
    seq(|entries|, i requires 0 <= i < |entries| => EntryItem(entries[i], v, score))
  }

  function SummaryItems(summaries: seq<Summary>, v: Viewer): seq<Item> {
    seq(|summaries|, i requires 0 <= i < |summaries| => SummaryItem(summaries[i], v))
  }

  /** Builds the context of one prompt from the entries and summaries loaded for it. */
  method BuildContext(entries: seq<Entry>, summaries: seq<Summary>, v: Viewer, score: Entry -> Score)
    returns (texts: seq<string>, included: seq<Row>, excluded: seq<Row>)
    ensures Total(texts) <= 7700 && Assembled(entries, summaries, v, score, texts, included, excluded)
    ensures |texts[0]| <= 2000 && |texts[1]| <= 1500 && |texts[2]| <= 1500 && |texts[3]| <= 1200 && |texts[4]| <= 1500
  {
    var fromEntries := ResolveCandidates(EntryItems(entries, v, score));
    var fromSummaries := ResolveCandidates(SummaryItems(summaries, v));
    var won := Winners(fromEntries) + Winners(fromSummaries);
    var reported := Reported(fromEntries) + Reported(fromSummaries);
    var overBudget;
    texts, included, overBudget := PackLayers(won);
    excluded := reported + overBudget;
    WholeBudget();
    PackedMeansPlaced(won, texts, included, overBudget);
    MoreReportsKeepPlaces(won, included, overBudget, reported);
    ReportsHaveNoLayer(EntryItems(entries, v, score));
    ReportsHaveNoLayer(SummaryItems(summaries, v));
    ReportsDisturbNothing(won, texts, included, overBudget, reported);
  }

  lemma ReportsDisturbNothing(
    won: seq<Candidate>, texts: seq<string>, included: seq<Row>, overBudget: seq<Row>, reported: seq<Row>)
    requires LayersPacked(won, |LayerOrder|, texts, included, overBudget)
    requires forall row: Row | row in reported :: row.layer.None?
    ensures forall m: nat | m < 5 :: LayerShown(won, LayerOrder[m], texts[m], included, reported + overBudget)
  {
    forall m: nat | m < 5 ensures LayerShown(won, LayerOrder[m], texts[m], included, reported + overBudget) {
      ShownStays(won, LayerOrder[m], texts[m], included, overBudget, [], reported);
    }
  }

  lemma ReportsHaveNoLayer(items: seq<Item>)
    ensures forall row: Row | row in Reported(Resolutions(items)) :: row.layer.None?
  {
    WinnersAndReports(Resolutions(items));
    DroppedInAre(items, items);
    var visible := VisibleIn(items, items);
    ContestsAre(visible, KeysOf(visible));
    forall row: Row | row in Reported(Resolutions(items)) ensures row.layer.None? {
      var res: Resolution :| res in Resolutions(items) && (if res.Won? then row in res.losers else res.row == row);
      if res.Won? {
        var k: NaturalKey :| k in KeysOf(visible) && res in Contest(visible, k);
        LoserRowsAre(Sort(GroupOf(visible, k), StrongestFirst)[1..]);
      }
    }
  }

  /** What the context of a prompt is: the layers in order and within their budgets, the
      included rows those of winners, the excluded ones the reports of the resolution and
      winners over budget, and every winner that reaches its layer placed. */
  ghost predicate Assembled(
    entries: seq<Entry>, summaries: seq<Summary>, v: Viewer, score: Entry -> Score,
    texts: seq<string>, included: seq<Row>, excluded: seq<Row>)
  {
    var fromEntries := Resolutions(EntryItems(entries, v, score));
    var fromSummaries := Resolutions(SummaryItems(summaries, v));
    var won := Winners(fromEntries) + Winners(fromSummaries);
    var reported := Reported(fromEntries) + Reported(fromSummaries);
    && |texts| == 5
    && (forall m: nat | m < 5 :: |texts[m]| <= Budget(LayerOrder[m]))
    && (forall m: nat | m < 5 :: LayerShown(won, LayerOrder[m], texts[m], included, excluded))
    && RowsFrom(included, won)
    && (forall row: Row | row in reported :: row in excluded)
    && (forall row: Row | row in excluded :: row in reported || RowFrom(row, won))
    && AllPlaced(won, included, excluded)
  }

  /** Every winner is in the prompt, over budget, or an episodic memory that did not
      make the shortlist; the last are the only winners reported nowhere. */
  ghost predicate AllPlaced(won: seq<Candidate>, included: seq<Row>, excluded: seq<Row>) {
    forall c: Candidate | c in won ::
      Placed(c, included, excluded) || (c.layer == Episodic && c !in Shortlist(InLayer(won, Episodic)))
  }

  lemma PackedMeansPlaced(won: seq<Candidate>, texts: seq<string>, included: seq<Row>, excluded: seq<Row>)
    requires LayersPacked(won, |LayerOrder|, texts, included, excluded)
    ensures AllPlaced(won, included, excluded)
  {
    forall c: Candidate | c in won && !Placed(c, included, excluded)
      ensures c.layer == Episodic && c !in Shortlist(InLayer(won, Episodic))
    {
      EveryLayerHasItsPlace(c.layer);
      var m: nat :| m < |LayerOrder| && LayerOrder[m] == c.layer;
      LayerCandidatesAre(won, c.layer);
    }
  }

  lemma MoreReportsKeepPlaces(won: seq<Candidate>, included: seq<Row>, excluded: seq<Row>, more: seq<Row>)
    requires AllPlaced(won, included, excluded)
    ensures AllPlaced(won, included, more + excluded)
  {
    forall c: Candidate | c in won && Placed(c, included, excluded) ensures Placed(c, included, more + excluded) {}
  }

  lemma EveryLayerHasItsPlace(layer: Layer)
    ensures exists m: nat :: m < |LayerOrder| && LayerOrder[m] == layer
  {
    assert LayerOrder[0] == StableManual && LayerOrder[1] == StableAutosaved;
    assert LayerOrder[2] == WorkspaceProject && LayerOrder[3] == ConversationSummary && LayerOrder[4] == Episodic;
  }

  // ----------------------------------------------------- what a reader relies on

  /** Another loaded entry, neither hidden nor deleted, overrides this one. */
  ghost predicate OverriddenIn(entries: seq<Entry>, e: Entry) {
    exists o: Entry :: o in entries && o.target == Some(e.id) && !o.hidden && o.deletedAt.None?
  }

  /** An included entry row always stands for a visible entry: never hidden, never
      deleted, never the target of a live override, and unbeaten for its key. */
  lemma OnlyVisibleEntriesAreIncluded(entries: seq<Entry>, v: Viewer, score: Entry -> Score, c: Candidate)
    returns (e: Entry)
    requires c in Winners(Resolutions(EntryItems(entries, v, score)))
    ensures e in entries && e.id == c.id && c.kind == EntryRecord
    ensures !e.hidden && e.deletedAt.None? && !OverriddenIn(entries, e)
    ensures EntryLayer(e, v) == Some(c.layer) && c.rendered == RenderEntry(e)
    ensures forall d: Entry | d in entries && !d.hidden && d.deletedAt.None? && !OverriddenIn(entries, d)
                              && EntryNaturalKey(d) == EntryNaturalKey(e) ::
              || Priority(e.source) < Priority(d.source)
              || (Priority(e.source) == Priority(d.source)
                  && (e.updatedAt > d.updatedAt || (e.updatedAt == d.updatedAt && e.id <= d.id)))
  {
    var items := EntryItems(entries, v, score);
    WinnersAndReports(Resolutions(items));
    var res: Resolution :| res in Resolutions(items) && res.Won? && res.candidate == c;
    var winner := WinnersAreVisible(items, res);
    var n: nat :| n < |items| && items[n] == winner;
    e := entries[n];
    assert winner == EntryItem(e, v, score);
    if OverriddenIn(entries, e) {
      var o: Entry :| o in entries && o.target == Some(e.id) && !o.hidden && o.deletedAt.None?;
      ItemOfEntry(entries, v, score, o);
      assert false;
    }
    forall d: Entry | d in entries && !d.hidden && d.deletedAt.None? && !OverriddenIn(entries, d)
                      && EntryNaturalKey(d) == EntryNaturalKey(e)
      ensures Stronger(winner, EntryItem(d, v, score))
    {
      ItemOfEntry(entries, v, score, d);
      VisibleEntryIsVisibleItem(entries, v, score, d);
    }
  }

  lemma ItemOfEntry(entries: seq<Entry>, v: Viewer, score: Entry -> Score, d: Entry)
    requires d in entries
    ensures EntryItem(d, v, score) in EntryItems(entries, v, score)
  {
    var n: nat :| n < |entries| && entries[n] == d;
    assert EntryItems(entries, v, score)[n] == EntryItem(d, v, score);
  }

  lemma VisibleEntryIsVisibleItem(entries: seq<Entry>, v: Viewer, score: Entry -> Score, d: Entry)
    requires d in entries && !d.hidden && d.deletedAt.None? && !OverriddenIn(entries, d)
    ensures Visible(EntryItems(entries, v, score), EntryItem(d, v, score))
  {}

  // ------------------------------------------------------- matches that are lost

  /** An episodic entry that any session may be shown, with a key of its own. */
  function Episode(n: nat, v: Viewer): Entry {
    Entry(n, Reach(Some(v.agent), Some(v.session), None, None, None, None, None), EpisodicScope,
          seq(n, _ => 'x'), Autosaved, "title", "body", None, "hash", false, None, 0, None)
  }

  function Episodes(v: Viewer): seq<Entry> {
    seq(5, n requires 0 <= n < 5 => Episode(n, v))
  }

  lemma EpisodesHaveNoRivals(v: Viewer, score: Entry -> Score)
    ensures var items := EntryItems(Episodes(v), v, score);
            && |items| == 5 && NoRivals(items)
            && forall n: nat | n < 5 :: items[n].id == n && items[n].layer == Some(Episodic) && Visible(items, items[n])
  {
    var items := EntryItems(Episodes(v), v, score);
    assert forall n: nat | n < 5 :: items[n] == EntryItem(Episode(n, v), v, score);
    assert LiveTargets(items) == {};
    forall i: nat, j: nat | i < j < 5 ensures items[i].key != items[j].key {
      assert |Episode(i, v).scopeKey| == i && |Episode(j, v).scopeKey| == j;
    }
  }

  lemma {:induction false} WinnersOfAll(items: seq<Item>)
    requires forall i: Item | i in items :: i.layer.Some?
    ensures |Winners(AllWin(items))| == |items|
    ensures forall n: nat | n < |items| :: Winners(AllWin(items))[n] == CandidateOf(items[n])
    ensures Reported(AllWin(items)) == []
  {
    if |items| > 0 {
      WinnersOfAll(items[..|items|-1]);
      assert AllWin(items)[..|AllWin(items)|-1] == AllWin(items[..|items|-1]);
    }
  }

  /** Five episodic entries without rivals: for every session and every way of scoring,
      one of them is in no list of whatever context is built. */
  lemma FifthMatchIsReportedNowhere(v: Viewer, score: Entry -> Score) returns (lost: nat)
    ensures lost < |Episodes(v)| == 5 && Episodes(v)[lost].id == lost
    ensures forall texts: seq<string>, included: seq<Row>, excluded: seq<Row>, row: Row |
              Assembled(Episodes(v), [], v, score, texts, included, excluded) && row in included + excluded ::
              row.id != lost
  {
    var items := EntryItems(Episodes(v), v, score);
    EpisodesHaveNoRivals(v, score);
    WithoutRivalsAllWin(items);
    WinnersOfAll(items);
    var won := Winners(Resolutions(items));
    lost := LeftOut(won);
    forall texts: seq<string>, included: seq<Row>, excluded: seq<Row>, row: Row |
      Assembled(Episodes(v), [], v, score, texts, included, excluded) && row in included + excluded
      ensures row.id != lost
    {
      RowsOfEntriesAlone(Episodes(v), v, score, texts, included, excluded);
      assert RowFrom(row, won);
    }
  }

  /** With no summaries and nothing reported, every row is that of an entry's candidate. */
  lemma RowsOfEntriesAlone(
    entries: seq<Entry>, v: Viewer, score: Entry -> Score, texts: seq<string>, included: seq<Row>, excluded: seq<Row>)
    requires Assembled(entries, [], v, score, texts, included, excluded)
    requires Reported(Resolutions(EntryItems(entries, v, score))) == []
    ensures forall row: Row | row in included + excluded ::
        RowFrom(row, Winners(Resolutions(EntryItems(entries, v, score))))
  {
    assert SummaryItems([], v) == [];
    assert Resolutions([]) == [];
    var won := Winners(Resolutions(EntryItems(entries, v, score)));
    assert won + Winners([]) == won;
  }

  /** Of five episodic candidates with identifiers 0 to 4, one misses the shortlist. */
  lemma LeftOut(won: seq<Candidate>) returns (lost: nat)
    requires |won| == 5 && forall n: nat | n < 5 :: won[n].layer == Episodic && won[n].id == n
    ensures lost < 5
    ensures forall c: Candidate | c in won && c in LayerCandidates(won, c.layer) :: c.id != lost
  {
    var short := Shortlist(InLayer(won, Episodic));
    var ids := seq(|short|, m requires 0 <= m < |short| => short[m].id);
    if forall n: nat | n < 5 :: n in ids {
      var all: seq<nat> := [0, 1, 2, 3, 4];
      DistinctFits(all, ids);
      assert false;
    }
    lost :| lost < 5 && lost !in ids;
    forall c: Candidate | c in won && c in LayerCandidates(won, c.layer) ensures c.id != lost {
      assert c in short;
      var m: nat :| m < |short| && short[m] == c;
      assert ids[m] in ids;
    }
  }

  // -------------------------------------------------------------- rendered lines

  /** No rendered memory is empty, so each layer is built as a newline join of lines. */
  lemma LayersAreLines(
    entries: seq<Entry>, summaries: seq<Summary>, v: Viewer, score: Entry -> Score, layer: Layer, k: nat)
    requires var won := Winners(Resolutions(EntryItems(entries, v, score)))
                        + Winners(Resolutions(SummaryItems(summaries, v)));
             k <= |Sort(LayerCandidates(won, layer), NewestFirst)|
    ensures var won := Winners(Resolutions(EntryItems(entries, v, score)))
                       + Winners(Resolutions(SummaryItems(summaries, v)));
            var full := Sort(LayerCandidates(won, layer), NewestFirst)[..k];
            Joined(full) == Lines(Texts(full)) && forall c: Candidate | c in full :: c.rendered != ""
  {
    var won := Winners(Resolutions(EntryItems(entries, v, score))) + Winners(Resolutions(SummaryItems(summaries, v)));
    var full := Sort(LayerCandidates(won, layer), NewestFirst)[..k];
    SortKeepsMembers(LayerCandidates(won, layer), NewestFirst);
    LayerCandidatesAre(won, layer);
    forall c: Candidate | c in full ensures c.rendered != "" {
      assert c in Sort(LayerCandidates(won, layer), NewestFirst);
      if c in Winners(Resolutions(EntryItems(entries, v, score))) {
        WinnersAreRendered(EntryItems(entries, v, score), c);
      } else {
        WinnersAreRendered(SummaryItems(summaries, v), c);
      }
    }
    JoinedIsLines(full);
  }

  lemma WinnersAreRendered(items: seq<Item>, c: Candidate)
    requires c in Winners(Resolutions(items)) && forall n: nat | n < |items| :: items[n].rendered != ""
    ensures c.rendered != ""
  {
    WinnersAndReports(Resolutions(items));
    var res: Resolution :| res in Resolutions(items) && res.Won? && res.candidate == c;
    var winner := WinnersAreVisible(items, res);
  }
}
