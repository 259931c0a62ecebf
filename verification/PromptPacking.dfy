/** Packing memory candidates into the character budget of one prompt layer. */
module PromptPacking {
  import opened Tables
  import opened Sorting
  import opened MemoryTables

  datatype Layer = StableManual | StableAutosaved | WorkspaceProject | ConversationSummary | Episodic

  /** The layers in prompt order, with their budgets in characters. */
  const LayerOrder := [StableManual, StableAutosaved, WorkspaceProject, ConversationSummary, Episodic]

  function Budget(layer: Layer): nat {
    match layer
    case StableManual => 2000
    case StableAutosaved => 1500
    case WorkspaceProject => 1500
    case ConversationSummary => 1200
    case Episodic => 1500
  }

  /** How strongly an episodic memory matches the current input. */
  datatype Score = Score(overlap: int, density: real)

  datatype Candidate = Candidate(
    kind: RecordKind, id: nat, layer: Layer, source: Source, rendered: string, updatedAt: int, score: Option<Score>)

  predicate NewerOrSame(a: Candidate, b: Candidate) {
    a.updatedAt > b.updatedAt || (a.updatedAt == b.updatedAt && a.id <= b.id)
  }

  const NewestFirst := (a: Candidate, b: Candidate) => NewerOrSame(a, b)

  lemma NewestFirstIsTotal()
    ensures TotalPreorder(NewestFirst)
  {}

  function Separator(content: string): string {
    if content == "" then "" else "\n"
  }

  /** The layer text of some candidates in full. */
  function Joined(cs: seq<Candidate>): string {
    if |cs| == 0 then "" else
    var before := Joined(cs[..|cs|-1]);
    before + Separator(before) + cs[|cs|-1].rendered
  }

  /** The texts with one newline between neighbours. */
  function Lines(texts: seq<string>): string {
    if |texts| == 0 then "" else if |texts| == 1 then texts[0]
    else Lines(texts[..|texts|-1]) + "\n" + texts[|texts|-1]
  }

  function Texts(cs: seq<Candidate>): seq<string> {
    seq(|cs|, i requires 0 <= i < |cs| => cs[i].rendered)
  }

  /** Rendered memories are never empty, and then packing is a plain newline join. */
  lemma {:induction false} JoinedIsLines(cs: seq<Candidate>)
    requires forall c: Candidate | c in cs :: c.rendered != ""
    ensures Joined(cs) == Lines(Texts(cs))
    ensures |cs| > 0 ==> Joined(cs) != ""
  {
    if |cs| > 0 {
      assert cs[|cs|-1].rendered != "";
      JoinedIsLines(cs[..|cs|-1]);
      assert Texts(cs)[..|cs|-1] == Texts(cs[..|cs|-1]);
    }
  }

  /** The part of a text that still fits into `available` characters with its dots. */
  function Cut(text: string, available: nat): (r: string)
    requires available > 3
    ensures |r| <= available
    ensures var room := if |text| < available - 3 then |text| else available - 3;
            exists k: nat :: && k <= room && r == text[..k] + "..."
                             && (forall i: nat | k <= i < room :: IsSpace(text[i]))
                             && (k > 0 ==> !IsSpace(text[k-1]))
  {
    ghost var room := if |text| < available - 3 then |text| else available - 3;
    assert RStrip(text[..room]) == text[..|RStrip(text[..room])|];
    RStrip(text[..if |text| < available - 3 then |text| else available - 3]) + "..."
  }

  lemma {:induction false} JoinedGrows(cs: seq<Candidate>, j: nat, k: nat)
    requires j <= k <= |cs|
    ensures |Joined(cs[..j])| <= |Joined(cs[..k])|
    decreases k - j
  {
    if j < k {
      JoinedGrows(cs, j, k - 1);
      assert cs[..k][..k-1] == cs[..k-1];
    }
  }

  /** What a packed layer is: `k` candidates in full, then possibly a cut one. */
  ghost predicate Packed(
    ordered: seq<Candidate>, budget: nat, k: nat,
    content: string, included: seq<Candidate>, excluded: seq<Candidate>)
  {
    && k <= |ordered|
    && excluded == ordered[k..]
    && |Joined(ordered[..k])| <= budget
    && (forall j: nat | k < j <= |ordered| :: |Joined(ordered[..j])| > budget)
    && var full := Joined(ordered[..k]);
       var room := budget - |full| - |Separator(full)|;
       if k < |ordered| && room > 3 then
         content == full + Separator(full) + Cut(ordered[k].rendered, room) && included == ordered[..k+1]
       else
         content == full && included == ordered[..k]
  }

  /** Newest first, candidates are included in full as long as they fit; the first that
      does not fit is cut to the room left, if that is worth it, and all from it on are
      reported as over budget. */
  method BuildLayer(candidates: seq<Candidate>, budget: nat)
    returns (content: string, included: seq<Candidate>, excluded: seq<Candidate>)
    ensures exists k: nat :: Packed(Sort(candidates, NewestFirst), budget, k, content, included, excluded)
    ensures |content| <= budget
  {
    content, included, excluded := "", [], [];
    var ordered := Sort(candidates, NewestFirst);
    for index := 0 to |ordered|
      invariant content == Joined(ordered[..index]) && |content| <= budget
      invariant included == ordered[..index] && excluded == []
    {
      var candidate := ordered[index];
      var separator := if content == "" then "" else "\n";
      var cost := |separator| + |candidate.rendered|;
      var remaining := budget - |content|;
      JoinedNext(ordered, index);
      if cost <= remaining {
        content := content + separator + candidate.rendered;
        included := included + [candidate];
        continue;
      }
      content, included, excluded := CutAt(ordered, budget, index, content);
      return;
    }
    AllFit(ordered, budget);
  }

  /** The candidate at `index` does not fit after the `index` ones before it. */
  method CutAt(ordered: seq<Candidate>, budget: nat, index: nat, before: string)
    returns (content: string, included: seq<Candidate>, excluded: seq<Candidate>)
    requires index < |ordered| && before == Joined(ordered[..index]) && |before| <= budget
    requires |before| + |Separator(before)| + |ordered[index].rendered| > budget
    ensures Packed(ordered, budget, index, content, included, excluded) && |content| <= budget
  {
    StopsHere(ordered, budget, index);
    var separator := if before == "" then "" else "\n";
    var available := budget - |before| - |separator|;
    content, included := before, ordered[..index];
    if available > 3 {
      content := content + separator + Cut(ordered[index].rendered, available);
      included := included + [ordered[index]];
    }
    excluded := [ordered[index]] + ordered[index+1..];
  }

  lemma JoinedNext(ordered: seq<Candidate>, k: nat)
    requires k < |ordered|
    ensures ordered[..k+1] == ordered[..k] + [ordered[k]]
    ensures Joined(ordered[..k+1]) == Joined(ordered[..k]) + Separator(Joined(ordered[..k])) + ordered[k].rendered
  {
    assert ordered[..k+1][..k] == ordered[..k];
  }

  /** The candidate at `k` does not fit, so no longer prefix does. */
  lemma StopsHere(ordered: seq<Candidate>, budget: nat, k: nat)
    requires k < |ordered| && |Joined(ordered[..k])| <= budget
    requires |Joined(ordered[..k])| + |Separator(Joined(ordered[..k]))| + |ordered[k].rendered| > budget
    ensures var full := Joined(ordered[..k]);
            var room := budget - |full| - |Separator(full)|;
            && (room > 3 ==>
                  Packed(ordered, budget, k, full + Separator(full) + Cut(ordered[k].rendered, room),
                         ordered[..k] + [ordered[k]], [ordered[k]] + ordered[k+1..]))
            && (room <= 3 ==> Packed(ordered, budget, k, full, ordered[..k], [ordered[k]] + ordered[k+1..]))
  {
    assert ordered[..k+1][..k] == ordered[..k];
    assert ordered[..k] + [ordered[k]] == ordered[..k+1];
    assert [ordered[k]] + ordered[k+1..] == ordered[k..];
    forall j: nat | k < j <= |ordered| ensures |Joined(ordered[..j])| > budget {
      JoinedGrows(ordered, k + 1, j);
    }
  }

  lemma AllFit(ordered: seq<Candidate>, budget: nat)
    requires |Joined(ordered[..|ordered|])| <= budget
    ensures Packed(ordered, budget, |ordered|, Joined(ordered[..|ordered|]), ordered[..|ordered|], [])
  {
    assert ordered[|ordered|..] == [];
  }

  /** Every candidate is included or reported, and at most one, the cut one, is both. */
  lemma PackingAccounts(
    candidates: seq<Candidate>, budget: nat, k: nat,
    content: string, included: seq<Candidate>, excluded: seq<Candidate>)
    requires Packed(Sort(candidates, NewestFirst), budget, k, content, included, excluded)
    ensures multiset(included) + multiset(excluded) == multiset(candidates)
         || (included != [] && excluded != [] && included[|included|-1] == excluded[0]
             && multiset(included) + multiset(excluded) == multiset(candidates) + multiset{excluded[0]})
  {
    var ordered := Sort(candidates, NewestFirst);
    SortKeepsElements(candidates, NewestFirst);
    SplitCounts(ordered, k);
  }

  lemma SplitCounts(ordered: seq<Candidate>, k: nat)
    requires k <= |ordered|
    ensures multiset(ordered[..k]) + multiset(ordered[k..]) == multiset(ordered)
    ensures k < |ordered| ==> multiset(ordered[..k+1]) == multiset(ordered[..k]) + multiset{ordered[k]}
  {
    assert ordered == ordered[..k] + ordered[k..];
    if k < |ordered| { assert ordered[..k+1] == ordered[..k] + [ordered[k]]; }
  }

  /** In the fields of the two: no older, and at the same age with a smaller identifier
      or the same. */
  lemma NewerMeans(c: Candidate, d: Candidate)
    ensures NewerOrSame(c, d) <==> c.updatedAt >= d.updatedAt && (c.updatedAt == d.updatedAt ==> c.id <= d.id)
  {}

  /** What is included is newer than what is left out. */
  lemma PackingPrefersNewer(
    candidates: seq<Candidate>, budget: nat, k: nat,
    content: string, included: seq<Candidate>, excluded: seq<Candidate>)
    requires Packed(Sort(candidates, NewestFirst), budget, k, content, included, excluded)
    ensures forall c: Candidate, d: Candidate | c in included && d in excluded ::
              c.updatedAt >= d.updatedAt && (c.updatedAt == d.updatedAt ==> c.id <= d.id)
  {
    NewestFirstIsTotal();
    SortSorts(candidates, NewestFirst);
    var ordered := Sort(candidates, NewestFirst);
    forall c: Candidate, d: Candidate | c in included && d in excluded ensures NewerOrSame(c, d) {
      var i: nat :| i < |included| && included[i] == c;
      var j: nat :| j < |excluded| && excluded[j] == d;
      assert ordered[i] == c && ordered[k + j] == d;
      if i < k + j { assert NewestFirst(ordered[i], ordered[k + j]); }
    }
  }
}
