/** What the text forms of memories mean: trimming, words, titles, and the text that
    identifies a content. */
module MemoryText {
  import opened Tables
  import opened MemoryTables
  import opened MemoryHistory

  /** White space, character by character. */
  lemma SpacesAre(c: char)
    ensures IsSpace(c) <==> c as int in {9, 10, 11, 12, 13, 32}
  {}

  ghost predicate AllSpace(s: string) {
    forall i: nat | i < |s| :: IsSpace(s[i])
  }

  predicate Spaceless(s: string) {
    forall i: nat | i < |s| :: !IsSpace(s[i])
  }

  /** Letter by letter, and only the capital letters change. */
  lemma {:induction false} LowerIs(s: string)
    ensures |Lower(s)| == |s|
    ensures forall i: nat | i < |s| ::
              Lower(s)[i] == if 'A' <= s[i] <= 'Z' then (s[i] as int + 32) as char else s[i]
  {
    if |s| > 0 {
      LowerIs(s[1..]);
      forall i: nat | 0 < i < |s| ensures Lower(s)[i] == Lower(s[1..])[i-1] && s[i] == s[1..][i-1] {}
    }
  }

  lemma {:induction false} LStripIs(s: string) returns (i: nat)
    ensures i <= |s| && LStrip(s) == s[i..] && (forall k: nat | k < i :: IsSpace(s[k]))
    ensures i < |s| ==> !IsSpace(s[i])
  {
    i := 0;
    if |s| > 0 && IsSpace(s[0]) {
      var j := LStripIs(s[1..]);
      i := j + 1;
      forall k: nat | k < i ensures IsSpace(s[k]) { if k > 0 { assert s[k] == s[1..][k-1]; } }
    }
  }

  /** Trimming keeps everything between the first and the last character that is no space,
      and is empty for a text of spaces. */
  lemma StripIs(s: string) returns (i: nat, j: nat)
    ensures i <= j <= |s| && Strip(s) == s[i..j]
    ensures (forall k: nat | k < i :: IsSpace(s[k])) && (forall k: nat | j <= k < |s| :: IsSpace(s[k]))
    ensures i < j ==> !IsSpace(s[i]) && !IsSpace(s[j-1])
    ensures Strip(s) == "" <==> AllSpace(s)
  {
    i := LStripIs(s);
    var rest := LStrip(s);
    j := i + |RStrip(rest)|;
    assert RStrip(rest) == rest[..|RStrip(rest)|];
    forall k: nat | j <= k < |s| ensures IsSpace(s[k]) { assert s[k] == rest[k-i]; }
    if i < j { assert Strip(s)[0] == s[i] && Strip(s)[|Strip(s)|-1] == s[j-1]; }
  }

  /** Trimming twice is trimming once. */
  lemma StripTwice(s: string)
    ensures Strip(Strip(s)) == Strip(s) && (AllSpace(Strip(s)) <==> AllSpace(s))
  {
    var i, j := StripIs(s);
    var t := Strip(s);
    if t != "" { assert t[0] == s[i] && t[|t|-1] == s[j-1]; }
  }

  // -------------------------------------------------------------------- words

  ghost predicate ProperWords(words: seq<string>) {
    forall i: nat | i < |words| :: words[i] != "" && Spaceless(words[i])
  }

  lemma {:induction false} WordsAreProper(s: string, word: string)
    requires Spaceless(word)
    ensures ProperWords(Words(s, word))
    ensures Words(s, word) == [] <==> word == "" && AllSpace(s)
  {
    if |s| > 0 {
      if IsSpace(s[0]) {
        WordsAreProper(s[1..], "");
        if word == "" && AllSpace(s[1..]) {
          forall i: nat | i < |s| ensures IsSpace(s[i]) { if i > 0 { assert s[i] == s[1..][i-1]; } }
        }
      } else {
        WordsAreProper(s[1..], word + [s[0]]);
      }
    }
  }

  /** A word read to its end, before a space or the end of the text. */
  lemma {:induction false} ReadWord(w: string, rest: string, word: string)
    requires Spaceless(w) && word + w != ""
    ensures Words(w + " " + rest, word) == [word + w] + Words(rest, "")
    ensures Words(w, word) == [word + w]
    decreases |w|
  {
    if |w| == 0 {
      assert w + " " + rest == " " + rest && (" " + rest)[1..] == rest;
      assert word + w == word;
    } else {
      var text := w + " " + rest;
      assert text[0] == w[0] && text[1..] == w[1..] + " " + rest;
      assert word + [w[0]] + w[1..] == word + w;
      ReadWord(w[1..], rest, word + [w[0]]);
    }
  }

  /** Words written with single spaces are read back. */
  lemma {:induction false} SpacedReadsBack(words: seq<string>)
    requires ProperWords(words)
    ensures Words(Spaced(words), "") == words
  {
    if |words| == 1 {
      ReadWord(words[0], "", "");
      assert "" + words[0] == words[0];
      assert words == [words[0]];
    } else if |words| > 1 {
      ReadWord(words[0], Spaced(words[1..]), "");
      SpacedReadsBack(words[1..]);
      assert "" + words[0] == words[0];
      assert words == [words[0]] + words[1..];
    }
  }

  /** Two titles are the same exactly if they have the same words in lower case. */
  lemma SameTitleExactly(a: string, b: string)
    ensures TitleKey(a) == TitleKey(b) <==> Words(Lower(a), "") == Words(Lower(b), "")
    ensures Words(TitleKey(a), "") == Words(Lower(a), "")
  {
    WordsAreProper(Lower(a), "");
    WordsAreProper(Lower(b), "");
    SpacedReadsBack(Words(Lower(a), ""));
    SpacedReadsBack(Words(Lower(b), ""));
  }

  // ------------------------------------------------------------------ contents

  predicate NoBar(s: string) {
    '|' !in s
  }

  lemma FirstBar(a: string, x: string)
    requires NoBar(a)
    ensures var s := a + "||" + x; s[|a|] == '|' && forall i: nat | i < |a| :: s[i] != '|'
  {
    var s := a + "||" + x;
    forall i: nat | i < |a| ensures s[i] != '|' { assert s[i] == a[i] && a[i] in a; }
  }

  lemma SplitAtBars(a: string, x: string, b: string, y: string)
    requires NoBar(a) && NoBar(b) && a + "||" + x == b + "||" + y
    ensures a == b && x == y
  {
    var s, t := a + "||" + x, b + "||" + y;
    FirstBar(a, x);
    FirstBar(b, y);
    assert s[..|a|] == a && t[..|b|] == b && s[|a|+2..] == x && t[|b|+2..] == y;
  }

  function SummaryKeyOf(t: Text): string {
    if t.summary.Some? then TitleKey(t.summary.value) else ""
  }

  /** Contents without bars in title and body are told apart: the identifying texts are
      equal exactly if titles, bodies and summaries are, up to case and spacing. */
  lemma SameContentExactly(a: Text, b: Text)
    requires NoBar(TitleKey(a.title)) && NoBar(TitleKey(a.body)) && NoBar(TitleKey(b.title)) && NoBar(TitleKey(b.body))
    ensures HashOf(a) == HashOf(b) <==>
              && TitleKey(a.title) == TitleKey(b.title) && TitleKey(a.body) == TitleKey(b.body)
              && SummaryKeyOf(a) == SummaryKeyOf(b)
  {
    if HashOf(a) == HashOf(b) {
      var x, y := TitleKey(a.body) + "||" + SummaryKeyOf(a), TitleKey(b.body) + "||" + SummaryKeyOf(b);
      assert HashOf(a) == TitleKey(a.title) + "||" + x && HashOf(b) == TitleKey(b.title) + "||" + y;
      SplitAtBars(TitleKey(a.title), x, TitleKey(b.title), y);
      SplitAtBars(TitleKey(a.body), SummaryKeyOf(a), TitleKey(b.body), SummaryKeyOf(b));
    }
  }

  /** With bars they may not be: whatever stands between two pairs of bars can be read as
      the end of a title or as the start of a body. */
  lemma BarsConfuseContents(a: Text, b: Text, head: string, middle: string, tail: string)
    requires TitleKey(a.title) == head + "||" + middle && TitleKey(a.body) == tail
    requires TitleKey(b.title) == head && TitleKey(b.body) == middle + "||" + tail
    requires SummaryKeyOf(a) == SummaryKeyOf(b)
    ensures HashOf(a) == HashOf(b) && TitleKey(a.title) != TitleKey(b.title)
  {
    assert |TitleKey(a.title)| > |TitleKey(b.title)|;
    assert HashOf(a) == head + "||" + middle + "||" + tail + "||" + SummaryKeyOf(a);
    assert HashOf(b) == head + "||" + (middle + "||" + tail) + "||" + SummaryKeyOf(b);
  }

  /** A word in lower case is its own key. */
  lemma KeyOfWord(w: string)
    requires w != "" && Spaceless(w) && forall i: nat | i < |w| :: !('A' <= w[i] <= 'Z')
    ensures TitleKey(w) == w
  {
    LowerIs(w);
    assert Lower(w) == w;
    ReadWord(w, "", "");
    assert "" + w == w;
  }

  /** Two such texts: they differ in title and body and are taken for one content. */
  lemma BarsExample()
    ensures HashOf(Text("a||b", "c", None)) == HashOf(Text("a", "b||c", None))
  {
    KeyOfWord("a||b");
    KeyOfWord("c");
    KeyOfWord("a");
    KeyOfWord("b||c");
    assert "a||b" == "a" + "||" + "b" && "b||c" == "b" + "||" + "c";
    BarsConfuseContents(Text("a||b", "c", None), Text("a", "b||c", None), "a", "b", "c");
  }

  // --------------------------------------------------------------- inspections

  /** A manual text is refused exactly if its title or its body is blank; else the title
      keeps its words, with single spaces, and body and summary are trimmed. */
  lemma ManualTextIs(title: string, body: string, summary: Option<string>)
    ensures InspectManual(title, body, summary).None? <==> AllSpace(title) || AllSpace(body)
    ensures InspectManual(title, body, summary).Some? ==>
              var t := InspectManual(title, body, summary).value;
              && Words(t.title, "") == Words(title, "") && t.title == Spaced(Words(title, ""))
              && t.body == Strip(body)
              && (summary.None? ==> t.summary.None?)
              && (summary.Some? ==> t.summary == Some(Strip(summary.value)))
  {
    WordsAreProper(title, "");
    SpacedReadsBack(Words(title, ""));
    var i, j := StripIs(body);
    if |Words(title, "")| > 0 { SpacedIsSome(Words(title, "")); }
  }

  lemma SpacedIsSome(words: seq<string>)
    requires ProperWords(words) && |words| > 0
    ensures Spaced(words) != ""
  {
    assert words[0] != "";
  }

  /** The short form of a text: its words, cut to the limit, or a stock phrase for none. */
  lemma SummaryIs(text: string, limit: nat)
    requires limit > 0
    ensures AllSpace(text) ==> Summarize(text, limit) == "Execution memory"
    ensures !AllSpace(text) ==>
              && Summarize(text, limit) != "" && |Summarize(text, limit)| <= limit
              && Summarize(text, limit) <= Spaced(Words(text, ""))
              && (|Spaced(Words(text, ""))| <= limit ==> Words(Summarize(text, limit), "") == Words(text, ""))
  {
    WordsAreProper(text, "");
    SpacedReadsBack(Words(text, ""));
    if !AllSpace(text) { SpacedIsSome(Words(text, "")); }
  }

  /** A captured text: the whole trimmed output, its words as title and as summary. */
  lemma AutomaticTextIs(output: string)
    requires !AllSpace(output)
    ensures var t := InspectAutomatic(output);
            && t.body == Strip(output) && t.summary == Some(Strip(Summarize(output, 160)))
            && t.title == Spaced(Words(Summarize(output, 200), "")) && t.title != ""
            && (|Spaced(Words(output, ""))| <= 200 ==> Words(t.title, "") == Words(output, ""))
  {
    SummaryIs(output, 200);
    var short := Summarize(output, 200);
    WordsAreProper(output, "");
    WordsAreProper(short, "");
    FirstCharIsNoSpace(Words(output, ""));
    if Words(short, "") == [] { assert IsSpace(short[0]); }
    SpacedIsSome(Words(short, ""));
    SpacedReadsBack(Words(short, ""));
  }

  lemma FirstCharIsNoSpace(words: seq<string>)
    requires ProperWords(words) && |words| > 0
    ensures Spaced(words) != "" && !IsSpace(Spaced(words)[0])
  {
    assert words[0] != "" && Spaced(words)[0] == words[0][0];
  }
}
