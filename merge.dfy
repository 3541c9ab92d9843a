/**
 * Merging the spans of one page into logical lines: a greedy scan that, from
 * each span, keeps absorbing the following spans while they continue the
 * line (same font size, just below, aligned, bold run) and then restarts
 * after the last absorbed span. A run is named by its index range [i, j) in
 * the page.
 */
module Merge {
  import opened Text
  import opened Layout
  import opened Seqs

  /** The texts of spans i..j-1 joined with single spaces, built left to right. */
  function JoinedText(page: seq<Span>, i: nat, j: nat): string
    requires i < j <= |page|
    decreases j
  {
    if j == i + 1 then page[i].text else JoinedText(page, i, j - 1) + " " + page[j - 1].text
  }

  /** The running `or` of the bold flags of spans i..j-1. */
  predicate AnyBold(page: seq<Span>, i: nat, j: nat)
    requires i < j <= |page|
    decreases j
  {
    if j == i + 1 then page[i].bold else AnyBold(page, i, j - 1) || page[j - 1].bold
  }

  /** The right edge of the run's box: the running maximum of x1. */
  function MaxX1(page: seq<Span>, i: nat, j: nat): real
    requires i < j <= |page|
    decreases j
  {
    if j == i + 1 then page[i].x1 else MaxReal(MaxX1(page, i, j - 1), page[j - 1].x1)
  }

  /** The bottom edge of the run's box: the running maximum of y1. */
  function MaxY1(page: seq<Span>, i: nat, j: nat): real
    requires i < j <= |page|
    decreases j
  {
    if j == i + 1 then page[i].y1 else MaxReal(MaxY1(page, i, j - 1), page[j - 1].y1)
  }

  /**
   * The five merge criteria for `next`, given the run's font size and left
   * edge (its first span's), its last span and whether the run is bold so far:
   * same size, starting just below the last span, aligned with the run's left
   * edge or indented under a bold run, bold-consistent, and not the start of a
   * new paragraph.
   */
  predicate Joins(size: real, x0: real, bold: bool, last: Span, next: Span) {
    var sizeMatch := Abs(next.size - size) < 0.5;
    var dx := next.x0 - x0;
    && 0.0 < next.y0 - last.y1 < last.LineHeight() * 1.5
    && sizeMatch
    && (Abs(dx) < 15.0 || (next.x0 > x0 && dx < 50.0 && bold))
    && ((bold && next.bold) || (bold && sizeMatch && WordCount(next.text) < 25))
    && !(dx > 30.0 && WordCount(next.text) < 4)
  }

  /**
   * The run [i, j) absorbs span j: its text so far does not end a sentence
   * (see Text.EndsSentenceStrip) and the criteria hold.
   */
  predicate CanExtend(page: seq<Span>, i: nat, j: nat)
    requires i < j < |page|
  {
    !EndsSentence(JoinedText(page, i, j)) && Joins(page[i].size, page[i].x0, AnyBold(page, i, j), page[j - 1], page[j])
  }

  /** Where the run that starts at i and already reaches j ends. */
  function RunEnd(page: seq<Span>, i: nat, j: nat): (e: nat)
    requires i < j <= |page|
    ensures j <= e <= |page|
    decreases |page| - j
  {
    if j < |page| && CanExtend(page, i, j) then RunEnd(page, i, j + 1) else j
  }

  /** The lines of the scan that starts at span i. */
  function LinesFrom(page: seq<Span>, i: nat): seq<Line>
    requires i <= |page|
    decreases |page| - i
  {
    if i == |page| then []
    else
      var e := RunEnd(page, i, i + 1);
      [MakeLine(page, i, e)] + LinesFrom(page, e)
  }

  /** The line that the run [i, e) becomes: the first span's size and top-left corner, the box's far edges. */
  function MakeLine(page: seq<Span>, i: nat, e: nat): Line
    requires i < e <= |page|
  {
    Line(Strip(JoinedText(page, i, e)), page[i].size, AnyBold(page, i, e), page[e - 1].page,
         page[i].x0, page[i].y0, MaxX1(page, i, e), MaxY1(page, i, e))
  }

  /** merge_heading_spans as a function of the page. */
  function MergeSpans(page: seq<Span>): seq<Line> {
    LinesFrom(page, 0)
  }

  /** The index ranges of the runs of the scan that starts at span i. */
  function RunBounds(page: seq<Span>, i: nat): seq<(nat, nat)>
    requires i <= |page|
    decreases |page| - i
  {
    if i == |page| then []
    else
      var e := RunEnd(page, i, i + 1);
      [(i, e)] + RunBounds(page, e)
  }

  /** The run ranges are non-empty and contiguous, and cover spans i..n-1 in order. */
  predicate Tiles(b: seq<(nat, nat)>, i: nat, n: nat)
    decreases |b|
  {
    if b == [] then i == n else b[0].0 == i < b[0].1 && Tiles(b[1..], b[0].1, n)
  }

  /**
   * The scan partitions the page: the runs are non-empty, contiguous and in
   * page order and cover spans i..|page|-1, so the scan always advances and
   * an empty page has no runs.
   */
  lemma {:induction false} RunsTile(page: seq<Span>, i: nat)
    requires i <= |page|
    ensures Tiles(RunBounds(page, i), i, |page|)
    ensures |RunBounds(page, i)| <= |page| - i
    ensures forall k :: 0 <= k < |RunBounds(page, i)| ==> i <= RunBounds(page, i)[k].0 < RunBounds(page, i)[k].1 <= |page|
    decreases |page| - i
  {
    if i < |page| {
      var e := RunEnd(page, i, i + 1);
      RunsTile(page, e);
      assert RunBounds(page, i) == [(i, e)] + RunBounds(page, e);
    }
  }

  /** There is one line per run, the line that run makes: never more lines than spans. */
  lemma {:induction false} LinesAreRuns(page: seq<Span>, i: nat)
    requires i <= |page|
    ensures |LinesFrom(page, i)| == |RunBounds(page, i)|
    ensures forall k :: 0 <= k < |RunBounds(page, i)| ==>
      RunBounds(page, i)[k].0 < RunBounds(page, i)[k].1 <= |page| &&
      LinesFrom(page, i)[k] == MakeLine(page, RunBounds(page, i)[k].0, RunBounds(page, i)[k].1)
    decreases |page| - i
  {
    RunsTile(page, i);
    if i < |page| {
      var e := RunEnd(page, i, i + 1);
      LinesAreRuns(page, e);
      assert RunBounds(page, i) == [(i, e)] + RunBounds(page, e);
      assert LinesFrom(page, i) == [MakeLine(page, i, e)] + LinesFrom(page, e);
    }
  }

  /** Every span a run absorbed passed the criteria against the run before it. */
  lemma {:induction false} RunEndJustified(page: seq<Span>, i: nat, j: nat, k: nat)
    requires i < j <= |page| && j <= k < RunEnd(page, i, j)
    ensures CanExtend(page, i, k)
    decreases k - j
  {
    if k > j {
      RunEndJustified(page, i, j + 1, k);
    }
  }

  /** The span after a run, if any, does not pass the criteria: runs are maximal. */
  lemma {:induction false} RunEndMaximal(page: seq<Span>, i: nat, j: nat)
    requires i < j <= |page|
    ensures RunEnd(page, i, j) == |page| || !CanExtend(page, i, RunEnd(page, i, j))
    decreases |page| - j
  {
    if j < |page| && CanExtend(page, i, j) {
      RunEndMaximal(page, i, j + 1);
    }
  }

  /**
   * A span that is not bold never absorbs the next one, because both ways of
   * being "bold-consistent" need the run to be bold; so a run's bold flag is
   * its first span's.
   */
  lemma {:induction false} RunBoldIsFirst(page: seq<Span>, i: nat)
    requires i < |page|
    ensures RunEnd(page, i, i + 1) > i + 1 ==> page[i].bold
    ensures AnyBold(page, i, RunEnd(page, i, i + 1)) == page[i].bold
  {
    var e := RunEnd(page, i, i + 1);
    if e > i + 1 {
      RunEndJustified(page, i, i + 1, i + 1);
      BoldStays(page, i, e);
    }
  }

  lemma {:induction false} BoldStays(page: seq<Span>, i: nat, j: nat)
    requires i < j <= |page| && page[i].bold
    ensures AnyBold(page, i, j)
    decreases j
  {
    if j > i + 1 {
      BoldStays(page, i, j - 1);
    }
  }

  /**
   * What every absorbed span k of the run [i, e) satisfied: the text before it
   * did not end a sentence, its size is within 0.5 of the first span's, and it
   * starts below the previous span by less than 1.5 times that span's height.
   */
  lemma RunAbsorbed(page: seq<Span>, i: nat, k: nat)
    requires i < |page| && i < k < RunEnd(page, i, i + 1)
    ensures !EndsWithSentencePunct(Strip(JoinedText(page, i, k)))
    ensures Abs(page[k].size - page[i].size) < 0.5
    ensures 0.0 < page[k].y0 - page[k - 1].y1 < page[k - 1].LineHeight() * 1.5
  {
    RunEndJustified(page, i, i + 1, k);
    EndsSentenceStrip(JoinedText(page, i, k));
  }

  lemma {:induction false} MaxX1Bounds(page: seq<Span>, i: nat, j: nat)
    requires i < j <= |page|
    ensures forall k :: i <= k < j ==> page[k].x1 <= MaxX1(page, i, j)
    ensures exists k :: i <= k < j && page[k].x1 == MaxX1(page, i, j)
    decreases j
  {
    if j > i + 1 {
      MaxX1Bounds(page, i, j - 1);
      if page[j - 1].x1 < MaxX1(page, i, j - 1) {
        var k :| i <= k < j - 1 && page[k].x1 == MaxX1(page, i, j - 1);
        assert page[k].x1 == MaxX1(page, i, j);
      } else {
        assert page[j - 1].x1 == MaxX1(page, i, j);
      }
    } else {
      assert page[i].x1 == MaxX1(page, i, j);
    }
  }

  lemma {:induction false} MaxY1Bounds(page: seq<Span>, i: nat, j: nat)
    requires i < j <= |page|
    ensures forall k :: i <= k < j ==> page[k].y1 <= MaxY1(page, i, j)
    ensures exists k :: i <= k < j && page[k].y1 == MaxY1(page, i, j)
    decreases j
  {
    if j > i + 1 {
      MaxY1Bounds(page, i, j - 1);
      if page[j - 1].y1 < MaxY1(page, i, j - 1) {
        var k :| i <= k < j - 1 && page[k].y1 == MaxY1(page, i, j - 1);
        assert page[k].y1 == MaxY1(page, i, j);
      } else {
        assert page[j - 1].y1 == MaxY1(page, i, j);
      }
    } else {
      assert page[i].y1 == MaxY1(page, i, j);
    }
  }

  /**
   * The merged line of a run: the bold flag, size, x0 and y0 of its first
   * span, x1 and y1 the largest of the run, the page of its last span.
   */
  lemma MergedLineShape(page: seq<Span>, i: nat)
    requires i < |page|
    ensures var e := RunEnd(page, i, i + 1);
      var l := MakeLine(page, i, e);
      && l.bold == page[i].bold && l.size == page[i].size
      && l.x0 == page[i].x0 && l.y0 == page[i].y0 && l.page == page[e - 1].page
      && (forall k :: i <= k < e ==> page[k].x1 <= l.x1 && page[k].y1 <= l.y1)
      && (exists k :: i <= k < e && page[k].x1 == l.x1)
      && (exists k :: i <= k < e && page[k].y1 == l.y1)
  {
    var e := RunEnd(page, i, i + 1);
    RunBoldIsFirst(page, i);
    MaxX1Bounds(page, i, e);
    MaxY1Bounds(page, i, e);
  }

  /** The merge criteria as the scan evaluates them for the span after `current`. */
  method ContinuesRun(mergedSize: real, initialX0: real, mergedBold: bool, current: Span, next: Span)
    returns (merge: bool)
    ensures merge == Joins(mergedSize, initialX0, mergedBold, current, next)
  {
    var sizeMatch := Abs(next.size - mergedSize) < 0.5;
    var gap := next.y0 - current.y1;
    var vertical := 0.0 < gap < current.LineHeight() * 1.5;
    var horizontal := Abs(next.x0 - initialX0) < 15.0 ||
                      (next.x0 > initialX0 && next.x0 - initialX0 < 50.0 && mergedBold);
    var boldConsistent := (mergedBold && next.bold) ||
                          (mergedBold && sizeMatch && WordCount(next.text) < 25);
    var newParagraph := next.x0 - initialX0 > 30.0 && WordCount(next.text) < 4;
    merge := vertical && sizeMatch && horizontal && boldConsistent && !newParagraph;
  }

  /**
   * The inner cursor of the scan: grow the run that starts at span i while
   * the text so far does not end a sentence and the next span continues it,
   * keeping the joined text, the bold flag and the bounding box up to date.
   */
  method ScanRun(page: seq<Span>, i: nat) returns (j: nat, line: Line)
    requires i < |page|
    ensures j == RunEnd(page, i, i + 1)
    ensures line == MakeLine(page, i, j)
  {
    var current := page[i];
    var mergedText := current.text;
    var bx0, by0, bx1, by1 := current.x0, current.y0, current.x1, current.y1;
    var mergedSize := current.size;
    var mergedBold := current.bold;
    var initialX0 := current.x0;
    j := i + 1;
    while j < |page|
      invariant i < j <= |page|
      invariant RunEnd(page, i, j) == RunEnd(page, i, i + 1)
      invariant mergedText == JoinedText(page, i, j)
      invariant mergedBold == AnyBold(page, i, j)
      invariant current == page[j - 1]
      invariant mergedSize == page[i].size && initialX0 == page[i].x0
      invariant bx0 == page[i].x0 && by0 == page[i].y0
      invariant bx1 == MaxX1(page, i, j) && by1 == MaxY1(page, i, j)
      decreases |page| - j
    {
      var next := page[j];
      var sentenceEnd := EndsWithSentencePunct(Strip(mergedText));
      assert sentenceEnd == EndsSentence(JoinedText(page, i, j)) by {
        EndsSentenceStrip(mergedText);
      }
      if sentenceEnd {
        break;
      }
      var merge := ContinuesRun(mergedSize, initialX0, mergedBold, current, next);
      if merge {
        assert CanExtend(page, i, j);
        mergedText := mergedText + " " + next.text;
        bx1 := MaxReal(bx1, next.x1);
        by1 := MaxReal(by1, next.y1);
        mergedBold := mergedBold || next.bold;
        current := next;
        j := j + 1;
      } else {
        break;
      }
    }
    line := Line(Strip(mergedText), mergedSize, mergedBold, current.page, bx0, by0, bx1, by1);
  }

  /** The scan over a page: runs one after another, each starting where the last one stopped. */
  method MergeHeadingSpans(page: seq<Span>) returns (lines: seq<Line>)
    ensures lines == MergeSpans(page)
  {
    lines := [];
    var i := 0;
    while i < |page|
      invariant 0 <= i <= |page|
      invariant lines + LinesFrom(page, i) == MergeSpans(page)
      decreases |page| - i
    {
      var j, line := ScanRun(page, i);
      assert LinesFrom(page, i) == [line] + LinesFrom(page, j);
      AppendAssoc(lines, [line], LinesFrom(page, j));
      lines := lines + [line];
      i := j;
    }
  }
}
