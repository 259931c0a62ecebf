/** The context a subagent is given: the launcher's explicit context and a snapshot of
    the parent session, kept as one text and split again by the worker. */
module ContextSnapshot {
  import opened Tables
  import opened MemoryTables
  import opened MemoryText

  const Prefix := "Explicit context:\n"
  const Marker := "\n\nParent snapshot:\n"
  const Nothing := "(none)"

  /** The explicit context as it is written down; it is never blank. */
  function Normal(context: Option<string>): string {
    var given := Strip(if context.Some? && context.value != "" then context.value else Nothing);
    if given == "" then Nothing else given
  }

  function Build(context: Option<string>, parent: string): string {
    Prefix + (Normal(context) + (Marker + parent))
  }

  /** The given context without the white space around it, or a stock word if it is blank. */
  lemma NormalIs(context: Option<string>)
    ensures context.None? || AllSpace(context.value) ==> Normal(context) == "(none)"
    ensures context.Some? && !AllSpace(context.value) ==>
              Normal(context) == Strip(context.value) && Normal(context) != ""
  {
    if context.Some? { var i, j := StripIs(context.value); }
    var k, l := StripIs(Nothing);
    assert Nothing[0] == '(' && Nothing[5] == ')' && |Nothing| == 6;
    assert k == 0 && l == 6 by {
      assert !IsSpace(Nothing[0]) && !IsSpace(Nothing[5]);
    }
    assert Nothing[0..6] == Nothing;
  }

  /** What is stored: two headings, the context under the first, the parent's snapshot
      under the second. */
  lemma BuiltTextIs(context: Option<string>, parent: string)
    ensures Build(context, parent) ==
              "Explicit context:\n" + Normal(context) + "\n\nParent snapshot:\n" + parent
  {
    assert Build(context, parent) == Prefix + Normal(context) + Marker + parent;
  }

  /** A text that was stored without the headings is all context. */
  lemma PlainTextIsContext(s: string)
    requires !(Prefix <= s) || !Occurs(Marker, s)
    ensures SplitSnapshot(Some(s)) == Parts(Some(s), "") && SplitSnapshot(None) == Parts(None, "")
  {}

  predicate At(m: string, s: string, i: nat) {
    i + |m| <= |s| && s[i..i+|m|] == m
  }

  predicate Occurs(m: string, s: string) {
    exists i: nat :: i <= |s| && At(m, s, i)
  }

  /** The leftmost occurrence at or after `from`. */
  function Find(m: string, s: string, from: nat): (found: Option<nat>)
    requires from <= |s|
    ensures found.Some? ==>
              from <= found.value && At(m, s, found.value) && forall i: nat | from <= i < found.value :: !At(m, s, i)
    ensures found.None? ==> forall i: nat | from <= i <= |s| :: !At(m, s, i)
    decreases |s| - from
  {
    if At(m, s, from) then Some(from)
    else if from == |s| then None
    else Find(m, s, from + 1)
  }

  /** Splitting fails when the marker is found in the text but not after the prefix. */
  datatype Split = Parts(context: Option<string>, parent: string) | Unsplittable

  function SplitSnapshot(snapshot: Option<string>): Split {
    if snapshot.None? then Parts(None, "")
    else
      var s := snapshot.value;
      if Prefix <= s && Occurs(Marker, s) then
        var rest := s[|Prefix|..];
        var k := Find(Marker, rest, 0);
        if k.None? then Unsplittable
        else Parts(Some(rest[..k.value]), rest[k.value + |Marker|..])
      else Parts(Some(s), "")
  }

  // -------------------------------------------------------------- the marker

  /** Two line breaks in a row only begin the marker, so it overlaps itself in its last
      character alone. */
  lemma MarkerShape()
    ensures |Marker| == 19 && Marker[0] == Marker[1] == Marker[18] == '\n'
    ensures forall j: nat | 1 <= j <= 17 :: !(Marker[j] == '\n' && Marker[j+1] == '\n')
  {
    assert Marker[2] == 'P' && Marker[3] == 'a' && Marker[4] == 'r' && Marker[5] == 'e' && Marker[6] == 'n';
    assert Marker[7] == 't' && Marker[8] == ' ' && Marker[9] == 's' && Marker[10] == 'n' && Marker[11] == 'a';
    assert Marker[12] == 'p' && Marker[13] == 's' && Marker[14] == 'h' && Marker[15] == 'o' && Marker[16] == 't';
    assert Marker[17] == ':';
  }

  lemma CharsOf(m: string, s: string, i: nat)
    ensures At(m, s, i) <==> i + |m| <= |s| && forall q: nat | q < |m| :: s[i+q] == m[q]
  {
    if i + |m| <= |s| {
      var cut := s[i..i+|m|];
      assert forall q: nat | q < |m| :: cut[q] == s[i+q];
    }
  }

  /** An occurrence that begins inside the text before a marker lies within that text
      and the marker's first character. */
  lemma EarlyOccurrence(e: string, parent: string, i: nat)
    requires i < |e|
    ensures At(Marker, e + (Marker + parent), i) <==> At(Marker, e + "\n", i)
  {
    MarkerShape();
    var s := e + (Marker + parent);
    var t := e + "\n";
    CharsOf(Marker, s, i);
    CharsOf(Marker, t, i);
    var j := |e| - i;
    assert s[i+j] == Marker[0] && s[i+(j+1)] == Marker[1];
    assert forall q: nat | q < |t| :: s[q] == t[q];
  }

  /** Behind a text of known length. */
  lemma Behind(m: string, lead: string, rest: string, k: nat)
    ensures At(m, lead + rest, |lead| + k) <==> At(m, rest, k)
  {
    CharsOf(m, lead + rest, |lead| + k);
    CharsOf(m, rest, k);
    assert forall q: nat | q < |rest| :: (lead + rest)[|lead| + q] == rest[q];
  }

  /** A built text, cut at its parts: the prefix, the context, the marker. */
  lemma BuiltParts(context: Option<string>, parent: string)
    ensures var s := Build(context, parent);
            var rest := Normal(context) + (Marker + parent);
            && s == Prefix + rest && Prefix <= s && s[|Prefix|..] == rest
            && At(Marker, rest, |Normal(context)|) && Occurs(Marker, s)
  {
    var e := Normal(context);
    var rest := e + (Marker + parent);
    assert Build(context, parent) == Prefix + rest;
    assert At(Marker, Marker + parent, 0);
    Behind(Marker, e, Marker + parent, 0);
    Behind(Marker, Prefix, rest, |e|);
  }

  /** What is built and split again gives back the explicit context and the parent
      snapshot exactly when the marker does not occur in the context followed by one
      line break; the parent snapshot may contain anything. */
  lemma RoundTripExactly(context: Option<string>, parent: string)
    ensures SplitSnapshot(Some(Build(context, parent))) == Parts(Some(Normal(context)), parent)
            <==> !Occurs(Marker, Normal(context) + "\n")
  {
    BuiltParts(context, parent);
    SplitsAtFirst(Normal(context), parent);
  }

  lemma SplitsAtFirst(e: string, parent: string)
    requires At(Marker, e + (Marker + parent), |e|)
    ensures var rest := e + (Marker + parent);
            var k := Find(Marker, rest, 0);
            && k.Some?
            && ((rest[..k.value] == e && rest[k.value + |Marker|..] == parent) <==> !Occurs(Marker, e + "\n"))
  {
    MarkerShape();
    var rest := e + (Marker + parent);
    var k := Find(Marker, rest, 0).value;
    assert k <= |e|;
    if k == |e| {
      assert rest[..k] == e && rest[k+|Marker|..] == parent;
      forall i: nat | i <= |e + "\n"| ensures !At(Marker, e + "\n", i) {
        if i < |e| { EarlyOccurrence(e, parent, i); }
      }
    } else {
      EarlyOccurrence(e, parent, k);
      assert |rest[..k]| != |e|;
    }
  }

  /** A stored text cannot be split at all exactly when it starts with the prefix, the
      rest of a marker follows immediately, and no whole marker comes after. */
  lemma UnsplittableExactly(s: string)
    ensures SplitSnapshot(Some(s)).Unsplittable? <==>
              Prefix <= s && Marker[1..] <= s[|Prefix|..] && !Occurs(Marker, s[|Prefix|..])
  {
    if Prefix <= s {
      var rest := s[|Prefix|..];
      assert s == Prefix + rest;
      PrefixShape();
      OverlapExactly(rest);
      forall i: nat | i < |rest| + 1 && At(Marker, rest, i) ensures Occurs(Marker, s) {
        Behind(Marker, Prefix, rest, i);
      }
    }
  }

  /** A marker that begins at the prefix's last character. */
  lemma AtTheEdge(rest: string)
    ensures At(Marker, Prefix + rest, 17) <==> Marker[1..] <= rest
  {
    MarkerShape();
    PrefixShape();
    var lead := Prefix[..17];
    var edge := [Prefix[17]] + rest;
    assert Prefix + rest == lead + edge;
    Behind(Marker, lead, edge, 0);
    assert Marker == [Marker[0]] + Marker[1..];
    if At(Marker, edge, 0) { assert rest[..18] == edge[..19][1..]; }
    if Marker[1..] <= rest { assert edge[..19] == [Prefix[17]] + rest[..18]; }
  }

  /** Across the end of the prefix only the prefix's last character can begin a marker. */
  lemma OverlapExactly(rest: string)
    ensures Occurs(Marker, Prefix + rest) <==> Occurs(Marker, rest) || Marker[1..] <= rest
  {
    MarkerShape();
    PrefixShape();
    AtTheEdge(rest);
    var s := Prefix + rest;
    assert forall q: nat | q < 18 :: s[q] == Prefix[q];
    forall i: nat | i <= |s| && At(Marker, s, i) ensures i == 17 || (i >= 18 && At(Marker, rest, i - 18)) {
      CharsOf(Marker, s, i);
      assert s[i+0] == Marker[0];
      if i >= 18 { Behind(Marker, Prefix, rest, i - 18); }
    }
    forall i: nat | i <= |rest| && At(Marker, rest, i) ensures At(Marker, s, 18 + i) {
      Behind(Marker, Prefix, rest, i);
    }
  }

  lemma PrefixShape()
    ensures |Prefix| == 18 && Prefix[17] == '\n'
    ensures forall j: nat | j < 17 :: Prefix[j] != '\n'
  {
    assert Prefix[0] == 'E' && Prefix[1] == 'x' && Prefix[2] == 'p' && Prefix[3] == 'l' && Prefix[4] == 'i';
    assert Prefix[5] == 'c' && Prefix[6] == 'i' && Prefix[7] == 't' && Prefix[8] == ' ' && Prefix[9] == 'c';
    assert Prefix[10] == 'o' && Prefix[11] == 'n' && Prefix[12] == 't' && Prefix[13] == 'e' && Prefix[14] == 'x';
    assert Prefix[15] == 't' && Prefix[16] == ':';
  }

  /** One such text: the prefix, with the parent's heading right behind it. */
  lemma HeadingsAloneAreUnsplittable()
    ensures SplitSnapshot(Some("Explicit context:\n\nParent snapshot:\n")).Unsplittable?
  {
    var s := "Explicit context:\n\nParent snapshot:\n";
    MarkerShape();
    PrefixShape();
    assert s == Prefix + Marker[1..];
    assert s[|Prefix|..] == Marker[1..];
    assert forall i: nat | i <= |Marker[1..]| :: !At(Marker, Marker[1..], i);
    UnsplittableExactly(s);
  }

  /** No text that was built is ever unsplittable. */
  lemma BuiltIsSplittable(context: Option<string>, parent: string)
    ensures SplitSnapshot(Some(Build(context, parent))).Parts?
  {
    BuiltParts(context, parent);
  }
}
