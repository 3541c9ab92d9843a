/**
 * identify_headings end to end: merge each page, infer the size bands, find
 * the title on the first page, collect the candidates, sort them by
 * position, enforce the hierarchy and drop repeated entries.
 */
module Headings {
  import opened Text
  import opened Layout
  import opened Thresholds
  import opened Title
  import opened Classify
  import opened Hierarchy
  import Merge
  import Seqs

  /** The sort key of the candidates: page, then y0, then x0. */
  predicate ByPosition(a: Candidate, b: Candidate) {
    || a.page < b.page
    || (a.page == b.page && (a.y0 < b.y0 || (a.y0 == b.y0 && a.x0 <= b.x0)))
  }

  /** Comparing (page, y0, x0) tuples is a total preorder. */
  lemma ByPositionPreorder()
    ensures Seqs.TotalPreorder(ByPosition)
  {
  }

  /** Every page merged into lines. */
  function MergedPages(pages: seq<seq<Span>>): (r: seq<seq<Line>>)
    ensures |r| == |pages|
    ensures forall p :: 0 <= p < |pages| ==> r[p] == Merge.MergeSpans(pages[p])
  {
    if pages == [] then []
    else MergedPages(pages[..|pages| - 1]) + [Merge.MergeSpans(pages[|pages| - 1])]
  }

  /** The title line search runs only when the first merged page has lines. */
  function PageTitle(merged: seq<seq<Line>>, b: Bands): string {
    if merged != [] && merged[0] != [] then DetectedTitle(merged[0], b.title) else ""
  }

  /** The hierarchy pass input: the de-duplicated candidates in position order. */
  function SortedCandidates(merged: seq<seq<Line>>, b: Bands, title: string): seq<Candidate> {
    Seqs.Sort(Seqs.DedupBy(AllCandidates(merged, b, title), CandidateKey), ByPosition)
  }

  /** The hierarchy pass followed by the removal of repeated entries. */
  function Finish(cands: seq<Candidate>): seq<Entry> {
    Seqs.DedupBy(Run(cands).outline, EntryKey)
  }

  /** What identify_headings returns: the stripped title and the outline. */
  function Outline(pages: seq<seq<Span>>): (string, seq<Entry>) {
    if pages == [] then ("", [])
    else
      var merged := MergedPages(pages);
      var sizes := SizesOf(merged);
      if sizes == [] then ("", [])
      else
        var b := InferBands(sizes);
        var title := PageTitle(merged, b);
        var cands := SortedCandidates(merged, b, title);
        (Strip(title), Finish(cands))
  }

  /** The list comprehension that merges every page. */
  method MergeAll(pages: seq<seq<Span>>) returns (merged: seq<seq<Line>>)
    ensures merged == MergedPages(pages)
  {
    merged := [];
    var p := 0;
    while p < |pages|
      invariant p <= |pages|
      invariant merged == MergedPages(pages[..p])
    {
      assert pages[..p + 1][..p] == pages[..p];
      var lines := Merge.MergeHeadingSpans(pages[p]);
      merged := merged + [lines];
      p := p + 1;
    }
    assert pages[..|pages|] == pages;
  }

  /** identify_headings, stage by stage. */
  method IdentifyHeadings(pages: seq<seq<Span>>) returns (title: string, outline: seq<Entry>)
    ensures (title, outline) == Outline(pages)
  {
    if pages == [] {
      return "", [];
    }
    var merged := MergeAll(pages);
    var sizes := CollectSizes(merged);
    if sizes == [] {
      return "", [];
    }
    var b := InferBands(sizes);
    var titleText := "";
    if merged != [] && merged[0] != [] {
      titleText := DetectTitle(merged[0], b.title);
    }
    var raw := CollectCandidates(merged, b, titleText);
    var sorted := Seqs.Sort(raw, ByPosition);
    var final := EnforceHierarchy(sorted);
    outline := DedupOutline(final);
    title := Strip(titleText);
  }

  /** Without a single line on any page there is neither title nor outline. */
  lemma {:induction false} NoLinesNoOutline(pages: seq<seq<Span>>)
    requires forall p :: 0 <= p < |pages| ==> pages[p] == []
    ensures Outline(pages) == ("", [])
  {
    if pages != [] {
      var merged := MergedPages(pages);
      forall p | 0 <= p < |merged| ensures merged[p] == [] {
        assert Merge.MergeSpans(pages[p]) == Merge.MergeSpans([]);
      }
      NoSizes(merged);
    }
  }

  /** Pages without lines give no sizes. */
  lemma {:induction false} NoSizes(merged: seq<seq<Line>>)
    requires forall p :: 0 <= p < |merged| ==> merged[p] == []
    ensures SizesOf(merged) == []
    decreases |merged|
  {
    if merged != [] {
      NoSizes(merged[..|merged| - 1]);
    }
  }

  /** The sorted candidates are the collected ones, rearranged, in position order. */
  lemma SortedCandidatesShape(merged: seq<seq<Line>>, b: Bands, title: string)
    ensures var s := SortedCandidates(merged, b, title);
      var raw := Seqs.DedupBy(AllCandidates(merged, b, title), CandidateKey);
      && multiset(s) == multiset(raw)
      && Seqs.Sorted(s, ByPosition)
      && forall i :: 0 <= i < |s| ==> s[i].level != H0 && s[i].text != []
  {
    var raw := Seqs.DedupBy(AllCandidates(merged, b, title), CandidateKey);
    var s := SortedCandidates(merged, b, title);
    ByPositionPreorder();
    Seqs.SortSorted(raw, ByPosition);
    forall i | 0 <= i < |s| ensures s[i].level != H0 && s[i].text != [] {
      assert s[i] in multiset(raw);
      var j :| 0 <= j < |raw| && raw[j] == s[i];
      assert raw[j] in AllCandidates(merged, b, title);
    }
  }

  predicate PageLe(a: Entry, b: Entry) {
    a.page <= b.page
  }

  /** The outline of the pass in the shape the source promises, for candidates in position order. */
  predicate WellFormed(o: seq<Entry>) {
    && (o != [] ==> o[0].level == H1)
    && Supported(o)
    && (forall i, j :: 0 <= i < j < |o| ==> o[i].page <= o[j].page)
    && (forall i, j :: 0 <= i < j < |o| ==> EntryKey(o[i]) != EntryKey(o[j]))
  }

  /** Candidates in position order are in page order. */
  lemma PagesFollow(cands: seq<Candidate>)
    requires Seqs.Sorted(cands, ByPosition)
    ensures forall i, j :: 0 <= i < j < |cands| ==> cands[i].page <= cands[j].page
  {
    forall i, j | 0 <= i < j < |cands| ensures cands[i].page <= cands[j].page {
      assert ByPosition(cands[i], cands[j]);
    }
  }

  /** So the outline of the pass is in page order. */
  lemma RunPagesSorted(cands: seq<Candidate>)
    requires Seqs.Sorted(cands, ByPosition)
    ensures Seqs.Sorted(Run(cands).outline, PageLe)
  {
    PagesFollow(cands);
    OutlinePagesOrdered(cands);
    assert var o := Run(cands).outline; forall m1, m2 :: 0 <= m1 < m2 < |o| ==> o[m1].page <= o[m2].page;
    forall i, j | 0 <= i < j < |Run(cands).outline| ensures PageLe(Run(cands).outline[i], Run(cands).outline[j]) {
    }
  }

  lemma {:induction false} FinishWellFormed(cands: seq<Candidate>)
    requires Seqs.Sorted(cands, ByPosition)
    ensures WellFormed(Finish(cands))
  {
    var run := Run(cands).outline;
    RunPagesSorted(cands);
    RunInv(cands);
    DedupSupported(run);
    Seqs.DedupSorted(run, EntryKey, PageLe);
    var d := Finish(cands);
    forall i, j | 0 <= i < j < |d| ensures d[i].page <= d[j].page {
      assert PageLe(d[i], d[j]);
    }
  }

  /**
   * The outline identify_headings returns: it starts with an H1, every H2
   * has an H1 before it and every H3 an H2 before it, its pages never go
   * back, and no (text, page, level) appears twice.
   */
  lemma {:induction false} OutlineWellFormed(pages: seq<seq<Span>>)
    ensures WellFormed(Outline(pages).1)
  {
    if pages != [] {
      var merged := MergedPages(pages);
      var sizes := SizesOf(merged);
      if sizes != [] {
        var b := InferBands(sizes);
        SortedCandidatesShape(merged, b, PageTitle(merged, b));
        FinishWellFormed(SortedCandidates(merged, b, PageTitle(merged, b)));
      } else {
        assert Outline(pages).1 == [];
      }
    } else {
      assert Outline(pages).1 == [];
    }
  }

  /** The pass keeps at least one entry of a non-empty candidate list without H0. */
  lemma FinishNotEmpty(cands: seq<Candidate>)
    requires cands != [] && cands[0].level != H0
    ensures Finish(cands) != []
  {
    OutlineNonEmpty(cands);
    var run := Run(cands).outline;
    assert EntryKey(run[0]) in Seqs.KeySet(run, EntryKey);
  }

  /** As soon as one candidate survives the classifier, the outline is not empty. */
  lemma {:induction false} OutlineNotEmpty(pages: seq<seq<Span>>)
    requires pages != [] && SizesOf(MergedPages(pages)) != []
    ensures var merged := MergedPages(pages);
      var b := InferBands(SizesOf(merged));
      AllCandidates(merged, b, PageTitle(merged, b)) != [] ==> Outline(pages).1 != []
  {
    var merged := MergedPages(pages);
    var b := InferBands(SizesOf(merged));
    var title := PageTitle(merged, b);
    var all := AllCandidates(merged, b, title);
    if all != [] {
      assert CandidateKey(all[0]) in Seqs.KeySet(all, CandidateKey);
      SortedCandidatesShape(merged, b, title);
      FinishNotEmpty(SortedCandidates(merged, b, title));
    }
  }

  /** A non-empty title has at least three words and comes from the first page. */
  lemma {:induction false} OutlineTitle(pages: seq<seq<Span>>)
    ensures var t := Outline(pages).0;
      && (t == [] || WordCount(t) >= 3)
      && (t != [] ==> pages != [] && Merge.MergeSpans(pages[0]) != [])
  {
    if pages != [] {
      var merged := MergedPages(pages);
      var sizes := SizesOf(merged);
      if sizes != [] {
        var b := InferBands(sizes);
        if merged[0] != [] {
          TitleShape(merged[0], b.title);
        }
      }
    }
  }
}
