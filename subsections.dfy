/**
 * The sub-section analyser: a section's text is split into sentences at
 * the runs of whitespace that follow '.', '!' or '?', the sentences that
 * contain a query keyword (compared lower-cased) are kept, stripped and in
 * order, and the refined text is those sentences one per line, or, when
 * none matches, the text itself cut to 500 characters.
 */
module SubSections {
  import opened Text
  import opened Sections
  import Relevance

  /** The first position at or after i that is not whitespace. */
  function SpaceEnd(s: string, i: nat): (e: nat)
    requires i <= |s|
    ensures i <= e <= |s|
    ensures forall k :: i <= k < e ==> IsSpace(s[k])
    ensures e == |s| || !IsSpace(s[e])
    decreases |s| - i
  {
    if i == |s| || !IsSpace(s[i]) then i else SpaceEnd(s, i + 1)
  }

  /** Position k starts a separator: whitespace right after sentence punctuation. */
  predicate SplitAt(s: string, k: nat) {
    0 < k < |s| && IsSentencePunct(s[k - 1]) && IsSpace(s[k])
  }

  /**
   * The pieces of s from start on, scanning from i: at a separator the
   * piece ends and the whitespace run is dropped; the rest is one piece.
   */
  function Pieces(s: string, start: nat, i: nat): (r: seq<string>)
    requires start <= i <= |s|
    ensures |r| >= 1
    decreases |s| - i
  {
    if i == |s| then [s[start..]]
    else if SplitAt(s, i) then
      var e := SpaceEnd(s, i);
      [s[start..i]] + Pieces(s, e, e)
    else Pieces(s, start, i + 1)
  }

  /** re.split(r'(?<=[.!?])\s+', s). */
  function Sentences(s: string): seq<string> {
    Pieces(s, 0, 0)
  }

  /** No separator inside the text. */
  predicate NoSplitInside(t: string) {
    forall k :: 0 < k < |t| ==> !(IsSentencePunct(t[k - 1]) && IsSpace(t[k]))
  }

  predicate EndsInPunct(t: string) {
    t != [] && IsSentencePunct(t[|t| - 1])
  }

  /** The first piece is what the text has from start. */
  lemma {:induction false} FirstPiece(s: string, start: nat, i: nat)
    requires start <= i <= |s|
    ensures StartsWith(s[start..], Pieces(s, start, i)[0])
    decreases |s| - i
  {
    if i < |s| && !SplitAt(s, i) {
      FirstPiece(s, start, i + 1);
    }
  }

  /** Every piece occurs in the text. */
  lemma {:induction false} PiecesInText(s: string, start: nat, i: nat)
    requires start <= i <= |s|
    ensures forall j :: 0 <= j < |Pieces(s, start, i)| ==> IsSubstring(Pieces(s, start, i)[j], s)
    decreases |s| - i
  {
    var r := Pieces(s, start, i);
    if i == |s| {
      assert OccursAt(r[0], s, start);
    } else if SplitAt(s, i) {
      var e := SpaceEnd(s, i);
      PiecesInText(s, e, e);
      assert OccursAt(r[0], s, start);
      forall j | 1 <= j < |r| ensures IsSubstring(r[j], s) {
        assert r[j] == Pieces(s, e, e)[j - 1];
      }
    } else {
      PiecesInText(s, start, i + 1);
    }
  }

  /** Every piece but the last ends with '.', '!' or '?'. */
  lemma {:induction false} PiecesEnd(s: string, start: nat, i: nat)
    requires start <= i <= |s|
    requires start == 0 || IsSpace(s[start - 1])
    ensures forall j :: 0 <= j < |Pieces(s, start, i)| - 1 ==> EndsInPunct(Pieces(s, start, i)[j])
    decreases |s| - i
  {
    var r := Pieces(s, start, i);
    if i < |s| {
      if SplitAt(s, i) {
        var e := SpaceEnd(s, i);
        PiecesEnd(s, e, e);
        assert r[0] == s[start..i] && i > start;
        forall j | 1 <= j < |r| - 1 ensures EndsInPunct(r[j]) {
          assert r[j] == Pieces(s, e, e)[j - 1];
        }
      } else {
        PiecesEnd(s, start, i + 1);
      }
    }
  }

  /** No piece holds a separator. */
  lemma {:induction false} PiecesNoSplit(s: string, start: nat, i: nat)
    requires start <= i <= |s|
    requires forall k :: start < k < i ==> !SplitAt(s, k)
    ensures forall j :: 0 <= j < |Pieces(s, start, i)| ==> NoSplitInside(Pieces(s, start, i)[j])
    decreases |s| - i
  {
    var r := Pieces(s, start, i);
    if i == |s| {
      forall k | 0 < k < |r[0]| ensures !(IsSentencePunct(r[0][k - 1]) && IsSpace(r[0][k])) {
        assert !SplitAt(s, start + k);
      }
    } else if SplitAt(s, i) {
      var e := SpaceEnd(s, i);
      PiecesNoSplit(s, e, e);
      forall k | 0 < k < |r[0]| ensures !(IsSentencePunct(r[0][k - 1]) && IsSpace(r[0][k])) {
        assert !SplitAt(s, start + k);
      }
      forall j | 1 <= j < |r| ensures NoSplitInside(r[j]) {
        assert r[j] == Pieces(s, e, e)[j - 1];
      }
    } else {
      PiecesNoSplit(s, start, i + 1);
    }
  }

  /** A piece after a separator starts with a character that is not whitespace. */
  lemma {:induction false} PiecesStart(s: string, start: nat, i: nat)
    requires start <= i <= |s|
    ensures forall j :: 1 <= j < |Pieces(s, start, i)| ==> Pieces(s, start, i)[j] == [] || !IsSpace(Pieces(s, start, i)[j][0])
    decreases |s| - i
  {
    var r := Pieces(s, start, i);
    if i < |s| {
      if SplitAt(s, i) {
        var e := SpaceEnd(s, i);
        PiecesStart(s, e, e);
        FirstPiece(s, e, e);
        forall j | 1 <= j < |r| ensures r[j] == [] || !IsSpace(r[j][0]) {
          assert r[j] == Pieces(s, e, e)[j - 1];
          if j == 1 && r[1] != [] {
            assert r[1][0] == s[e..][0] == s[e];
          }
        }
      } else {
        PiecesStart(s, start, i + 1);
      }
    }
  }

  /** The last piece is what the text has at its end. */
  lemma {:induction false} LastPiece(s: string, start: nat, i: nat)
    requires start <= i <= |s|
    ensures var r := Pieces(s, start, i);
      |r[|r| - 1]| <= |s| && r[|r| - 1] == s[|s| - |r[|r| - 1]|..]
    decreases |s| - i
  {
    if i < |s| {
      if SplitAt(s, i) {
        var e := SpaceEnd(s, i);
        LastPiece(s, e, e);
      } else {
        LastPiece(s, start, i + 1);
      }
    }
  }

  /** Every character of t is whitespace. */
  predicate AllSpace(t: string) {
    forall k :: 0 <= k < |t| ==> IsSpace(t[k])
  }

  /** The whitespace runs that Pieces drops, one per separator, in order. */
  function Gaps(s: string, start: nat, i: nat): seq<string>
    requires start <= i <= |s|
    decreases |s| - i
  {
    if i == |s| then []
    else if SplitAt(s, i) then
      var e := SpaceEnd(s, i);
      [s[i..e]] + Gaps(s, e, e)
    else Gaps(s, start, i + 1)
  }

  /** The pieces with the gaps put back between them. */
  function Weave(pieces: seq<string>, gaps: seq<string>): string
    requires |pieces| == |gaps| + 1
    decreases |gaps|
  {
    if gaps == [] then pieces[0]
    else pieces[0] + gaps[0] + Weave(pieces[1..], gaps[1..])
  }

  /**
   * Splitting loses nothing: there is one gap fewer than pieces, every gap
   * is a non-empty run of whitespace, and the pieces with the gaps between
   * them give back the text from start.
   */
  lemma {:induction false} PiecesRebuild(s: string, start: nat, i: nat)
    requires start <= i <= |s|
    ensures |Gaps(s, start, i)| == |Pieces(s, start, i)| - 1
    ensures forall j :: 0 <= j < |Gaps(s, start, i)| ==> Gaps(s, start, i)[j] != [] && AllSpace(Gaps(s, start, i)[j])
    ensures Weave(Pieces(s, start, i), Gaps(s, start, i)) == s[start..]
    decreases |s| - i
  {
    if i < |s| {
      if SplitAt(s, i) {
        var e := SpaceEnd(s, i);
        PiecesRebuild(s, e, e);
        var r, g := Pieces(s, start, i), Gaps(s, start, i);
        assert r[1..] == Pieces(s, e, e) && g[1..] == Gaps(s, e, e);
        forall j | 0 <= j < |g| ensures g[j] != [] && AllSpace(g[j]) {
          if j > 0 {
            assert g[j] == Gaps(s, e, e)[j - 1];
          }
        }
        assert s[start..] == s[start..i] + s[i..e] + s[e..];
      } else {
        PiecesRebuild(s, start, i + 1);
      }
    }
  }

  /**
   * The sentences with the dropped whitespace runs between them give back
   * the text, so no character outside a separator is lost.
   */
  lemma SentencesRebuild(s: string)
    ensures |Gaps(s, 0, 0)| == |Sentences(s)| - 1
    ensures forall j :: 0 <= j < |Gaps(s, 0, 0)| ==> Gaps(s, 0, 0)[j] != [] && AllSpace(Gaps(s, 0, 0)[j])
    ensures Weave(Sentences(s), Gaps(s, 0, 0)) == s
  {
    PiecesRebuild(s, 0, 0);
    assert s[0..] == s;
  }

  /**
   * The sentences of a text: there is at least one; the first is how the
   * text begins and the last how it ends; each occurs in the text; each but
   * the last ends with '.', '!' or '?'; none contains a separator; and none
   * after the first begins with whitespace.
   */
  lemma SentencesShape(s: string)
    ensures |Sentences(s)| >= 1
    ensures StartsWith(s, Sentences(s)[0])
    ensures var last := Sentences(s)[|Sentences(s)| - 1]; |last| <= |s| && last == s[|s| - |last|..]
    ensures forall j :: 0 <= j < |Sentences(s)| ==> IsSubstring(Sentences(s)[j], s) && NoSplitInside(Sentences(s)[j])
    ensures forall j :: 0 <= j < |Sentences(s)| - 1 ==> EndsInPunct(Sentences(s)[j])
    ensures forall j :: 1 <= j < |Sentences(s)| ==> Sentences(s)[j] == [] || !IsSpace(Sentences(s)[j][0])
  {
    FirstPiece(s, 0, 0);
    assert s[0..] == s;
    LastPiece(s, 0, 0);
    PiecesInText(s, 0, 0);
    PiecesNoSplit(s, 0, 0);
    PiecesEnd(s, 0, 0);
    PiecesStart(s, 0, 0);
  }

  // ---------------------------------------------------------------------
  // Snippets

  /** Some keyword occurs in the lower-cased sentence. */
  predicate HasKeyword(keywords: seq<string>, sentence: string) {
    exists k :: 0 <= k < |keywords| && IsSubstring(keywords[k], Lower(sentence))
  }

  /** The stripped sentences that contain a keyword, in order. */
  function Snippets(keywords: seq<string>, sentences: seq<string>): seq<string> {
    if sentences == [] then []
    else
      var n := |sentences|;
      Snippets(keywords, sentences[..n - 1])
        + (if HasKeyword(keywords, sentences[n - 1]) then [Strip(sentences[n - 1])] else [])
  }

  /** The snippets, one per line; without any, the text cut to 500 characters. */
  function Refined(text: string, snippets: seq<string>): string {
    if snippets != [] then JoinWith("\n", snippets)
    else if |text| > 500 then text[..500] + "..."
    else text
  }

  /** The dict analyze returns. */
  datatype SubSection = SubSection(document: string, pageNumber: nat, title: string, refinedText: string)

  /** What analyze computes for a section. */
  function Refinement(keywords: seq<string>, sec: Section): SubSection {
    SubSection(sec.document, sec.pageNumber, sec.title, Refined(sec.content, Snippets(keywords, Sentences(sec.content))))
  }

  /** any(keyword in lowered for keyword in keywords), stopping at the first hit. */
  method AnyKeyword(keywords: seq<string>, lowered: string) returns (found: bool)
    ensures found <==> exists k :: 0 <= k < |keywords| && IsSubstring(keywords[k], lowered)
  {
    var k := 0;
    while k < |keywords|
      invariant k <= |keywords|
      invariant forall j :: 0 <= j < k ==> !IsSubstring(keywords[j], lowered)
    {
      if IsSubstring(keywords[k], lowered) {
        return true;
      }
      k := k + 1;
    }
    return false;
  }

  /** The loop over the sentences that fills refined_snippets. */
  method CollectSnippets(keywords: seq<string>, sentences: seq<string>) returns (snippets: seq<string>)
    ensures snippets == Snippets(keywords, sentences)
  {
    snippets := [];
    var j := 0;
    while j < |sentences|
      invariant j <= |sentences|
      invariant snippets == Snippets(keywords, sentences[..j])
    {
      assert sentences[..j + 1][..j] == sentences[..j];
      var hit := AnyKeyword(keywords, Lower(sentences[j]));
      if hit {
        snippets := snippets + [Strip(sentences[j])];
      }
      j := j + 1;
    }
    assert sentences[..|sentences|] == sentences;
  }

  /** analyze: split, keep the sentences with a keyword, fall back to the text. */
  method Analyze(keywords: seq<string>, sec: Section) returns (r: SubSection)
    ensures r == Refinement(keywords, sec)
  {
    var text := sec.content;
    var sentences := Sentences(text);
    var snippets := CollectSnippets(keywords, sentences);
    var refined: string;
    if snippets != [] {
      refined := JoinWith("\n", snippets);
    } else if |text| > 500 {
      refined := text[..500] + "...";
    } else {
      refined := text;
    }
    r := SubSection(sec.document, sec.pageNumber, sec.title, refined);
  }

  /** A snippet is exactly a stripped sentence that contains a keyword. */
  lemma {:induction false} SnippetsExact(keywords: seq<string>, sentences: seq<string>, x: string)
    ensures x in Snippets(keywords, sentences) <==>
      exists j :: 0 <= j < |sentences| && HasKeyword(keywords, sentences[j]) && x == Strip(sentences[j])
  {
    if sentences != [] {
      var n := |sentences|;
      var prev := sentences[..n - 1];
      SnippetsExact(keywords, prev, x);
      if exists j :: 0 <= j < n && HasKeyword(keywords, sentences[j]) && x == Strip(sentences[j]) {
        var j :| 0 <= j < n && HasKeyword(keywords, sentences[j]) && x == Strip(sentences[j]);
        if j < n - 1 {
          assert prev[j] == sentences[j];
        }
      }
      if exists j :: 0 <= j < n - 1 && HasKeyword(keywords, prev[j]) && x == Strip(prev[j]) {
        var j :| 0 <= j < n - 1 && HasKeyword(keywords, prev[j]) && x == Strip(prev[j]);
        assert sentences[j] == prev[j];
      }
    }
  }

  /** Snippets keep the order of the sentences: a split of the sentences splits the snippets. */
  lemma {:induction false} SnippetsAppend(keywords: seq<string>, a: seq<string>, b: seq<string>)
    ensures Snippets(keywords, a + b) == Snippets(keywords, a) + Snippets(keywords, b)
    decreases |b|
  {
    if b == [] {
      assert a + b == a;
    } else {
      var n := |b|;
      assert (a + b)[..|a + b| - 1] == a + b[..n - 1];
      SnippetsAppend(keywords, a, b[..n - 1]);
    }
  }

  /**
   * analyze keeps the document, page number and title; with snippets the
   * refined text shows every one of them; without, it is the text when it
   * has at most 500 characters and else its first 500 followed by "...".
   */
  lemma RefinementShape(keywords: seq<string>, sec: Section)
    ensures var r := Refinement(keywords, sec);
      r.document == sec.document && r.pageNumber == sec.pageNumber && r.title == sec.title
    ensures var snippets := Snippets(keywords, Sentences(sec.content)); var r := Refinement(keywords, sec);
      forall k :: 0 <= k < |snippets| ==> IsSubstring(snippets[k], r.refinedText)
    ensures var r := Refinement(keywords, sec);
      Snippets(keywords, Sentences(sec.content)) == [] ==>
        (|sec.content| <= 500 ==> r.refinedText == sec.content)
        && (|sec.content| > 500 ==> |r.refinedText| == 503 && StartsWith(r.refinedText, sec.content[..500])
                                    && r.refinedText[500..] == "...")
  {
    var snippets := Snippets(keywords, Sentences(sec.content));
    forall k | 0 <= k < |snippets| ensures IsSubstring(snippets[k], JoinWith("\n", snippets)) {
      JoinWithContains("\n", snippets, k);
    }
  }

  /** A text in which no keyword occurs has no snippet. */
  lemma NoKeywordNoSnippet(keywords: seq<string>, text: string)
    requires forall k :: 0 <= k < |keywords| ==> !IsSubstring(keywords[k], Lower(text))
    ensures Snippets(keywords, Sentences(text)) == []
  {
    var sentences := Sentences(text);
    SentencesShape(text);
    if Snippets(keywords, sentences) != [] {
      var x := Snippets(keywords, sentences)[0];
      SnippetsExact(keywords, sentences, x);
      var j :| 0 <= j < |sentences| && HasKeyword(keywords, sentences[j]) && x == Strip(sentences[j]);
      var k :| 0 <= k < |keywords| && IsSubstring(keywords[k], Lower(sentences[j]));
      SubstringOfLowerPart(keywords[k], sentences[j], text);
    }
  }

  /** A section that scores zero gets the fallback text. */
  lemma ZeroScoreFallback(keywords: seq<string>, sec: Section)
    requires Relevance.Score(keywords, sec.content) == 0
    ensures Refinement(keywords, sec).refinedText == if |sec.content| > 500 then sec.content[..500] + "..." else sec.content
  {
    Relevance.ScorePositive(keywords, sec.content);
    NoKeywordNoSnippet(keywords, sec.content);
  }
}
