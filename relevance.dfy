/**
 * Relevance scoring and ranking. A section's score is the number of
 * non-overlapping occurrences of the query keywords in its lower-cased
 * text, summed over the keywords with their repetitions. Ranking sorts the
 * sections by score, highest first and stably, and numbers them from 1.
 */
module Relevance {
  import opened Text
  import opened Layout
  import opened Sections
  import Seqs

  /** The keyword count of calculate_relevance, keyword after keyword. */
  function Score(keywords: seq<string>, text: string): nat {
    if keywords == [] then 0
    else
      var n := |keywords|;
      Score(keywords[..n - 1], text) + CountOccurrences(Lower(text), keywords[n - 1])
  }

  /** calculate_relevance: the accumulator loop over the keywords. */
  method CalculateRelevance(keywords: seq<string>, text: string) returns (score: nat)
    ensures score == Score(keywords, text)
  {
    var lower := Lower(text);
    score := 0;
    var k := 0;
    while k < |keywords|
      invariant k <= |keywords|
      invariant score == Score(keywords[..k], text)
    {
      assert keywords[..k + 1][..k] == keywords[..k];
      score := score + CountOccurrences(lower, keywords[k]);
      k := k + 1;
    }
    assert keywords[..|keywords|] == keywords;
  }

  /** A section scores above zero exactly when one of the keywords occurs in its lower-cased text. */
  lemma {:induction false} ScorePositive(keywords: seq<string>, text: string)
    ensures Score(keywords, text) > 0 <==> exists k :: 0 <= k < |keywords| && IsSubstring(keywords[k], Lower(text))
  {
    if keywords != [] {
      var n := |keywords|;
      var prev := keywords[..n - 1];
      ScorePositive(prev, text);
      CountPositiveIff(Lower(text), keywords[n - 1]);
      if exists k :: 0 <= k < n && IsSubstring(keywords[k], Lower(text)) {
        var k :| 0 <= k < n && IsSubstring(keywords[k], Lower(text));
        if k < n - 1 {
          assert prev[k] == keywords[k];
        }
      }
      if exists k :: 0 <= k < n - 1 && IsSubstring(prev[k], Lower(text)) {
        var k :| 0 <= k < n - 1 && IsSubstring(prev[k], Lower(text));
        assert keywords[k] == prev[k];
      }
    }
  }

  /** Scores add up over a split of the keyword list. */
  lemma {:induction false} ScoreAppend(a: seq<string>, b: seq<string>, text: string)
    ensures Score(a + b, text) == Score(a, text) + Score(b, text)
    decreases |b|
  {
    if b == [] {
      assert a + b == a;
    } else {
      var n := |b|;
      assert (a + b)[..|a + b| - 1] == a + b[..n - 1];
      ScoreAppend(a, b[..n - 1], text);
    }
  }

  lemma AtMostProduct(c: nat, m: nat)
    requires m >= 1
    ensures c <= c * m
  {
  }

  /** With no empty keyword, no keyword counts more often than the text has characters. */
  lemma {:induction false} ScoreBound(keywords: seq<string>, text: string)
    requires forall k :: 0 <= k < |keywords| ==> keywords[k] != []
    ensures Score(keywords, text) <= |keywords| * |text|
  {
    if keywords != [] {
      var n := |keywords|;
      ScoreBound(keywords[..n - 1], text);
      var c := CountOccurrences(Lower(text), keywords[n - 1]);
      CountBound(Lower(text), keywords[n - 1]);
      AtMostProduct(c, |keywords[n - 1]|);
      assert c <= |text|;
      assert (n - 1) * |text| + |text| == n * |text|;
    }
  }

  lemma LowerTwice(s: string)
    ensures Lower(Lower(s)) == Lower(s)
  {
    assert forall i :: 0 <= i < |s| ==> Lower(Lower(s))[i] == Lower(s)[i];
  }

  /** The score does not depend on the case of the text. */
  lemma {:induction false} ScoreIgnoresCase(keywords: seq<string>, text: string)
    ensures Score(keywords, Lower(text)) == Score(keywords, text)
  {
    if keywords != [] {
      ScoreIgnoresCase(keywords[..|keywords| - 1], text);
      LowerTwice(text);
    }
  }

  // ---------------------------------------------------------------------
  // Ranking

  /** A section with its score attached, as the dicts of sections_with_scores. */
  datatype Scored = Scored(section: Section, score: nat)

  /** A ranked section: its fields and importance_rank; the score is gone. */
  datatype Ranked = Ranked(section: Section, rank: nat)

  /** The sort key, reversed: a may stand before b when it scores at least as much. */
  predicate ByScore(a: Scored, b: Scored) {
    a.score >= b.score
  }

  lemma ByScorePreorder()
    ensures Seqs.TotalPreorder(ByScore)
  {
  }

  function SectionOf(x: Scored): Section {
    x.section
  }

  function RankedSection(x: Ranked): Section {
    x.section
  }

  /** Every section with its score, in input order. */
  function ScoreAll(keywords: seq<string>, sections: seq<Section>): (r: seq<Scored>)
    ensures |r| == |sections|
  {
    seq(|sections|, i requires 0 <= i < |sections| => Scored(sections[i], Score(keywords, sections[i].content)))
  }

  /** The ranks 1, 2, ... in sorted order. */
  function RankFrom(sorted: seq<Scored>): (r: seq<Ranked>)
    ensures |r| == |sorted|
  {
    seq(|sorted|, i requires 0 <= i < |sorted| => Ranked(sorted[i].section, i + 1))
  }

  /** rank_sections: score, sort by score descending, number from 1. */
  function Ranking(keywords: seq<string>, sections: seq<Section>): seq<Ranked> {
    RankFrom(Seqs.Sort(ScoreAll(keywords, sections), ByScore))
  }

  /** The first loop of rank_sections: every section with its score. */
  method ScoreSections(keywords: seq<string>, sections: seq<Section>) returns (scored: seq<Scored>)
    ensures scored == ScoreAll(keywords, sections)
  {
    scored := [];
    var k := 0;
    while k < |sections|
      invariant k <= |sections| && |scored| == k
      invariant forall i :: 0 <= i < k ==> scored[i] == Scored(sections[i], Score(keywords, sections[i].content))
    {
      var score := CalculateRelevance(keywords, sections[k].content);
      scored := scored + [Scored(sections[k], score)];
      k := k + 1;
    }
  }

  /** The last loop of rank_sections: importance_rank is the position plus one, and the score is dropped. */
  method AssignRanks(sorted: seq<Scored>) returns (ranked: seq<Ranked>)
    ensures ranked == RankFrom(sorted)
  {
    ranked := [];
    var i := 0;
    while i < |sorted|
      invariant i <= |sorted| && |ranked| == i
      invariant forall j :: 0 <= j < i ==> ranked[j] == Ranked(sorted[j].section, j + 1)
    {
      ranked := ranked + [Ranked(sorted[i].section, i + 1)];
      i := i + 1;
    }
  }

  /** rank_sections: score every section, sort with the library's stable sort, then number. */
  method RankSections(keywords: seq<string>, sections: seq<Section>) returns (ranked: seq<Ranked>)
    ensures ranked == Ranking(keywords, sections)
  {
    var scored := ScoreSections(keywords, sections);
    var sorted := Seqs.Sort(scored, ByScore);
    ranked := AssignRanks(sorted);
  }

  /** Every scored record carries its section's score. */
  ghost predicate Consistent(ss: seq<Scored>, keywords: seq<string>) {
    forall i :: 0 <= i < |ss| ==> ss[i].score == Score(keywords, ss[i].section.content)
  }

  /** The sections of the sorted records, before numbering. */
  lemma {:induction false} RankedSectionsAre(sorted: seq<Scored>)
    ensures Seqs.MapSeq(RankFrom(sorted), RankedSection) == Seqs.MapSeq(sorted, SectionOf)
  {
    var r := RankFrom(sorted);
    forall i | 0 <= i < |sorted|
      ensures Seqs.MapSeq(r, RankedSection)[i] == Seqs.MapSeq(sorted, SectionOf)[i]
    {
      Seqs.MapSeqAt(r, RankedSection, i);
      Seqs.MapSeqAt(sorted, SectionOf, i);
    }
  }

  /** The sections of the scored records are the input sections. */
  lemma {:induction false} ScoreAllSections(keywords: seq<string>, sections: seq<Section>)
    ensures Seqs.MapSeq(ScoreAll(keywords, sections), SectionOf) == sections
  {
    var ss := ScoreAll(keywords, sections);
    forall i | 0 <= i < |sections|
      ensures Seqs.MapSeq(ss, SectionOf)[i] == sections[i]
    {
      Seqs.MapSeqAt(ss, SectionOf, i);
    }
  }

  /** The sorted records are a permutation of the scored ones, so they carry the right scores. */
  lemma SortedConsistent(keywords: seq<string>, sections: seq<Section>)
    ensures Consistent(Seqs.Sort(ScoreAll(keywords, sections), ByScore), keywords)
  {
    var ss := ScoreAll(keywords, sections);
    var sorted := Seqs.Sort(ss, ByScore);
    forall i | 0 <= i < |sorted|
      ensures sorted[i].score == Score(keywords, sorted[i].section.content)
    {
      assert sorted[i] in multiset(ss);
      var j :| 0 <= j < |ss| && ss[j] == sorted[i];
    }
  }

  /** The i-th ranked entry is the i-th sorted record with rank i + 1. */
  lemma RankingAt(keywords: seq<string>, sections: seq<Section>)
    ensures var r := Ranking(keywords, sections); var sorted := Seqs.Sort(ScoreAll(keywords, sections), ByScore);
      |r| == |sorted| && forall i :: 0 <= i < |r| ==> r[i] == Ranked(sorted[i].section, i + 1)
  {
  }

  /** There are as many ranked sections as sections, ranked 1 to n in order. */
  lemma RankingRanks(keywords: seq<string>, sections: seq<Section>)
    ensures |Ranking(keywords, sections)| == |sections|
    ensures forall i :: 0 <= i < |sections| ==> Ranking(keywords, sections)[i].rank == i + 1
  {
  }

  /** The ranked sections are the input sections, each as often as it came. */
  lemma RankingPermutation(keywords: seq<string>, sections: seq<Section>)
    ensures multiset(Seqs.MapSeq(Ranking(keywords, sections), RankedSection)) == multiset(sections)
  {
    var ss := ScoreAll(keywords, sections);
    var sorted := Seqs.Sort(ss, ByScore);
    RankedSectionsAre(sorted);
    Seqs.MapMultiset(sorted, ss, SectionOf);
    ScoreAllSections(keywords, sections);
  }

  /** Ranks follow the scores: a better rank never has a lower score. */
  lemma RankingOrdered(keywords: seq<string>, sections: seq<Section>)
    ensures var r := Ranking(keywords, sections);
      forall i, j :: 0 <= i < j < |r| ==> Score(keywords, r[i].section.content) >= Score(keywords, r[j].section.content)
  {
    var sorted := Seqs.Sort(ScoreAll(keywords, sections), ByScore);
    ByScorePreorder();
    Seqs.SortSorted(ScoreAll(keywords, sections), ByScore);
    SortedConsistent(keywords, sections);
    RankingAt(keywords, sections);
    var r := Ranking(keywords, sections);
    forall i, j | 0 <= i < j < |r|
      ensures Score(keywords, r[i].section.content) >= Score(keywords, r[j].section.content)
    {
      assert ByScore(sorted[i], sorted[j]);
    }
  }

  /** The sections that score v, in their order. */
  function WithScore(sections: seq<Section>, keywords: seq<string>, v: nat): seq<Section> {
    if sections == [] then []
    else
      var n := |sections|;
      WithScore(sections[..n - 1], keywords, v)
        + (if Score(keywords, sections[n - 1].content) == v then [sections[n - 1]] else [])
  }

  /** The class of records equivalent to x under ByScore are, as sections, those that score x.score. */
  lemma {:induction false} ClassWithScore(ss: seq<Scored>, keywords: seq<string>, x: Scored)
    requires Consistent(ss, keywords)
    ensures Seqs.MapSeq(Seqs.Class(ss, ByScore, x), SectionOf) == WithScore(Seqs.MapSeq(ss, SectionOf), keywords, x.score)
  {
    if ss != [] {
      var n := |ss|;
      var prev, last := ss[..n - 1], ss[n - 1];
      ClassWithScore(prev, keywords, x);
      var tail := if Seqs.Equivalent(ByScore, last, x) then [last] else [];
      Seqs.MapAppend(Seqs.Class(prev, ByScore, x), tail, SectionOf);
      Seqs.MapAppend(prev, [last], SectionOf);
      assert ss == prev + [last];
      var secs := Seqs.MapSeq(ss, SectionOf);
      assert Seqs.MapSeq([last], SectionOf) == [last.section];
      assert secs[..n - 1] == Seqs.MapSeq(prev, SectionOf);
      assert secs[n - 1] == last.section;
    }
  }

  /**
   * Equal scores keep their input order: for every score the sections that
   * have it come out ranked in the order they came in.
   */
  lemma RankingStable(keywords: seq<string>, sections: seq<Section>, v: nat)
    ensures WithScore(Seqs.MapSeq(Ranking(keywords, sections), RankedSection), keywords, v) == WithScore(sections, keywords, v)
  {
    var ss := ScoreAll(keywords, sections);
    var sorted := Seqs.Sort(ss, ByScore);
    var x := Scored(if sections == [] then Section([], [], 0, [], H0) else sections[0], v);
    ByScorePreorder();
    Seqs.SortStable(ss, ByScore, x);
    SortedConsistent(keywords, sections);
    assert Consistent(ss, keywords);
    ClassWithScore(sorted, keywords, x);
    ClassWithScore(ss, keywords, x);
    RankedSectionsAre(sorted);
    ScoreAllSections(keywords, sections);
  }
}
