/**
 * The rule chain that decides which merged lines cannot be headings
 * (is_likely_non_heading). Every rule looks at the line's stripped text,
 * its size and boldness, and for the last two rules at its neighbours on
 * the same page. The first rule that fires rejects the line; a line no
 * rule rejects goes on to the classifier.
 */
module Filter {
  import opened Text
  import opened Layout
  import opened Patterns

  /** Rule 1: fewer than four characters, unless it opens with digits and a dot. */
  predicate TooShort(text: string) {
    |text| < 4 && !StartsWithNumberDot(text)
  }

  /** Rule 2: more than thirty words. */
  predicate TooLong(text: string) {
    WordCount(text) > 30
  }

  /** Rule 3: page numbers and running headers. */
  predicate PageFurniture(text: string) {
    IsPageOfTotal(text) || IsBareInteger(text) || IsRunningHeader(text) || IsDashedNumber(text)
  }

  /** Rule 4: a bulleted item, or a numbered item below the h3 size that is not bold. */
  predicate ListItem(text: string, size: real, bold: bool, h3: real) {
    IsBulletItem(text) || (IsNumberedListItem(text) && size < h3 && !bold)
  }

  /** Rule 5: an opening typical of running text, or a fully parenthesised line. */
  predicate RunningTextOpening(text: string) {
    StartsWithContinuation(text) || IsParenthesized(text)
  }

  /** Rule 6: bold but more than two points below the h3 size. */
  predicate SmallBold(size: real, bold: bool, h3: real) {
    bold && size < h3 - 2.0
  }

  /**
   * Rule 7: the previous line ends a sentence, this line is not a bold step
   * up in size, and it sits at the same indentation right below it. The
   * merged lines carry no line height, so the gap is measured against the
   * default of 12 points.
   */
  predicate ContinuesParagraph(page: seq<Line>, idx: nat)
    requires idx < |page|
  {
    idx > 0 &&
    var l, prev := page[idx], page[idx - 1];
    && EndsWithSentencePunct(Strip(prev.text))
    && !(l.bold && l.size > prev.size + 0.5)
    && Abs(l.x0 - prev.x0) < 10.0
    && Abs(l.y0 - prev.y1) < 12.0 * 1.0
  }

  /** A neighbour that looks like another cell of the same column. */
  predicate ColumnNeighbor(n: Line, l: Line) {
    Abs(n.x0 - l.x0) < 15.0 && Abs(n.size - l.size) < 1.0 && !n.bold
  }

  /** The number of column-like neighbours at the given offsets from idx. */
  function NeighborsAt(page: seq<Line>, idx: nat, offsets: seq<int>): (n: nat)
    requires idx < |page|
    ensures n <= |offsets|
  {
    if offsets == [] then 0
    else
      var k := idx + offsets[|offsets| - 1];
      NeighborsAt(page, idx, offsets[..|offsets| - 1])
        + (if 0 <= k < |page| && ColumnNeighbor(page[k], page[idx]) then 1 else 0)
  }

  /** The offsets rule 8 looks at: the line before and the line after. */
  const Offsets: seq<int> := [-1, 1]

  /** Rule 8: a small non-bold line of few words with a column-like neighbour. */
  predicate TableCell(page: seq<Line>, idx: nat, h3: real)
    requires idx < |page|
  {
    var l := page[idx];
    && !l.bold && l.size < h3 + 1.0
    && NeighborsAt(page, idx, Offsets) >= 1
    && WordCount(Strip(l.text)) < 10
  }

  /** The whole rule chain: some rule rejects line idx of the page. */
  predicate NonHeading(page: seq<Line>, idx: nat, h3: real)
    requires idx < |page|
  {
    var l := page[idx];
    var text := Strip(l.text);
    || TooShort(text)
    || TooLong(text)
    || PageFurniture(text)
    || ListItem(text, l.size, l.bold, h3)
    || RunningTextOpening(text)
    || SmallBold(l.size, l.bold, h3)
    || ContinuesParagraph(page, idx)
    || TableCell(page, idx, h3)
  }

  /** Rule 8's neighbour count is the number of adjacent column-like lines. */
  lemma NeighborsBeforeAfter(page: seq<Line>, idx: nat)
    requires idx < |page|
    ensures NeighborsAt(page, idx, Offsets) >= 1 <==>
      (idx > 0 && ColumnNeighbor(page[idx - 1], page[idx]))
      || (idx + 1 < |page| && ColumnNeighbor(page[idx + 1], page[idx]))
  {
    assert Offsets[..1] == [-1];
    assert [-1][..0] == [];
  }

  /** The counting loop over the two offsets. */
  method CountColumnNeighbors(page: seq<Line>, idx: nat) returns (count: nat)
    requires idx < |page|
    ensures count == NeighborsAt(page, idx, Offsets)
  {
    count := 0;
    var t := 0;
    while t < |Offsets|
      invariant t <= |Offsets|
      invariant count == NeighborsAt(page, idx, Offsets[..t])
    {
      assert Offsets[..t + 1][..t] == Offsets[..t];
      var k := idx + Offsets[t];
      if 0 <= k < |page| {
        var neighbor := page[k];
        if Abs(neighbor.x0 - page[idx].x0) < 15.0 && Abs(neighbor.size - page[idx].size) < 1.0 && !neighbor.bold {
          count := count + 1;
        }
      }
      t := t + 1;
    }
    assert Offsets[..|Offsets|] == Offsets;
  }

  /** Rule 7 as the source tests it: the previous line first, then the geometry. */
  method FollowsSentence(page: seq<Line>, idx: nat) returns (continues: bool)
    requires idx < |page|
    ensures continues == ContinuesParagraph(page, idx)
  {
    continues := false;
    if idx > 0 {
      var l, prev := page[idx], page[idx - 1];
      var prevText := Strip(prev.text);
      if EndsWithSentencePunct(prevText) && !(l.bold && l.size > prev.size + 0.5) {
        if Abs(l.x0 - prev.x0) < 10.0 && Abs(l.y0 - prev.y1) < 12.0 * 1.0 {
          continues := true;
        }
      }
    }
  }

  /** is_likely_non_heading: the rules tried in order, each returning at once. */
  method IsLikelyNonHeading(page: seq<Line>, idx: nat, h3: real) returns (reject: bool)
    requires idx < |page|
    ensures reject == NonHeading(page, idx, h3)
  {
    var l := page[idx];
    var text := Strip(l.text);
    var size, bold := l.size, l.bold;
    if TooShort(text) || TooLong(text) || PageFurniture(text) {
      return true;
    }
    if ListItem(text, size, bold, h3) || RunningTextOpening(text) || SmallBold(size, bold, h3) {
      return true;
    }
    var continues := FollowsSentence(page, idx);
    if continues {
      return true;
    }
    if !bold && size < h3 + 1.0 {
      var columnLike := CountColumnNeighbors(page, idx);
      if columnLike >= 1 && WordCount(text) < 10 {
        return true;
      }
    }
    return false;
  }

  /**
   * What a line that passes the filter looks like: at least four characters
   * or a digits-and-dot opening, at most thirty words, not "Page N of M" nor
   * a bare integer, and not bold when more than two points below h3.
   */
  lemma Survivor(page: seq<Line>, idx: nat, h3: real)
    requires idx < |page| && !NonHeading(page, idx, h3)
    ensures var l := page[idx]; var text := Strip(l.text);
      && (|text| >= 4 || StartsWithNumberDot(text))
      && WordCount(text) <= 30
      && !IsPageOfTotal(text) && !IsBareInteger(text)
      && !(l.bold && l.size < h3 - 2.0)
  {
  }

  /**
   * A line that passes and is not bold is large, or has no column-like
   * neighbour, or has ten or more words.
   */
  lemma PlainSurvivor(page: seq<Line>, idx: nat, h3: real)
    requires idx < |page| && !NonHeading(page, idx, h3) && !page[idx].bold
    ensures || page[idx].size >= h3 + 1.0
            || WordCount(Strip(page[idx].text)) >= 10
            || ((idx == 0 || !ColumnNeighbor(page[idx - 1], page[idx]))
                && (idx + 1 == |page| || !ColumnNeighbor(page[idx + 1], page[idx])))
  {
    NeighborsBeforeAfter(page, idx);
  }
}
