/**
 * Heading classification: every merged line that is not empty, not the
 * title and not rejected by the filter gets a level from its numbering and
 * size, or none. The candidates are collected page by page, keeping only
 * the first of each (text, page, level).
 */
module Classify {
  import opened Wrappers
  import opened Text
  import opened Layout
  import opened Patterns
  import opened Thresholds
  import opened Filter
  import Seqs

  /** The level of a numbered line from the dots in its number, or none. */
  function NumberedLevel(dots: nat, size: real, b: Bands): (r: Option<Level>)
    ensures r.Some? ==> r.value != H0
  {
    if dots == 0 then
      if Abs(size - b.h1) < 1.5 then Some(H1)
      else if Abs(size - b.h2) < 1.0 && size > b.h3 then Some(H2)
      else None
    else if dots == 1 then
      if Abs(size - b.h2) < 1.5 then Some(H2)
      else if Abs(size - b.h3) < 1.0 then Some(H3)
      else None
    else
      if Abs(size - b.h3) < 1.5 then Some(H3) else None
  }

  /** The level of a bold line by size alone, or none. */
  function BoldLevel(size: real, b: Bands): (r: Option<Level>)
    ensures r.Some? ==> r.value != H0
  {
    if Abs(size - b.h1) < 1.0 then Some(H1)
    else if Abs(size - b.h2) < 1.0 then Some(H2)
    else if Abs(size - b.h3) < 1.0 then Some(H3)
    else if size >= b.h1 - 1.5 && size > b.h2 + 0.5 then Some(H1)
    else if size >= b.h2 - 1.5 && size > b.h3 + 0.5 then Some(H2)
    else if size >= b.h3 - 1.5 then Some(H3)
    else None
  }

  /** A classified line: its level and the text the outline will show. */
  datatype Heading = Heading(level: Level, text: string)

  /** The numbered path, when it gives a level. */
  function NumberedHeading(text: string, size: real, bold: bool, b: Bands): (r: Option<Heading>)
    ensures r.Some? ==> r.value.level != H0 && r.value.text != []
  {
    match MatchNumbered(text)
    case None => None
    case Some(m) =>
      var dots := CountChar(m.prefix, '.');
      if bold || (size >= b.h3 - 1.0 && dots <= 2) then
        match NumberedLevel(dots, size, b)
        case None => None
        case Some(level) => Some(Heading(level, m.prefix + " " + m.rest))
      else None
  }

  /**
   * The classifier on a stripped, non-empty text: the numbered path first;
   * when it gives nothing, bold lines are tried by size with the text as it is.
   */
  function ClassifyLine(text: string, size: real, bold: bool, b: Bands): (r: Option<Heading>)
    requires text != []
    ensures r.Some? ==> r.value.level != H0 && r.value.text != []
  {
    match NumberedHeading(text, size, bold, b)
    case Some(h) => Some(h)
    case None =>
      if !bold then None
      else
        match BoldLevel(size, b)
        case None => None
        case Some(level) => Some(Heading(level, text))
  }

  /** The size band of a heading level. */
  function BandOf(level: Level, b: Bands): real {
    match level
    case H0 => b.title
    case H1 => b.h1
    case H2 => b.h2
    case H3 => b.h3
  }

  /**
   * A line that is not bold gets a level only through its number: it must
   * have a number with at most two dots, be no more than a point below h3,
   * and its text becomes the number, one space and the rest.
   */
  lemma PlainNeedsNumber(text: string, size: real, b: Bands)
    requires text != [] && ClassifyLine(text, size, false, b).Some?
    ensures MatchNumbered(text).Some?
    ensures var m := MatchNumbered(text).value;
      && CountChar(m.prefix, '.') <= 2 && size >= b.h3 - 1.0
      && ClassifyLine(text, size, false, b).value.text == m.prefix + " " + m.rest
  {
  }

  /** An unnumbered line gets a level only when it is bold, and keeps its text. */
  lemma UnnumberedNeedsBold(text: string, size: real, bold: bool, b: Bands)
    requires text != [] && MatchNumbered(text).None?
    ensures ClassifyLine(text, size, bold, b).Some? ==> bold
    ensures ClassifyLine(text, size, bold, b).Some? ==> ClassifyLine(text, size, bold, b).value.text == text
  {
  }

  /** A numbered line accepted by the numbered path shows the normalised number and rest. */
  lemma NumberedNormalised(text: string, size: real, bold: bool, b: Bands)
    requires text != [] && NumberedHeading(text, size, bold, b).Some?
    ensures var m := MatchNumbered(text).value;
      ClassifyLine(text, size, bold, b) == Some(Heading(NumberedHeading(text, size, bold, b).value.level, m.prefix + " " + m.rest))
  {
  }

  /** The numbered path never picks a level more than a point and a half above the size. */
  lemma NumberedLevelNear(dots: nat, size: real, b: Bands)
    requires NumberedLevel(dots, size, b).Some?
    ensures size >= BandOf(NumberedLevel(dots, size, b).value, b) - 1.5
  {
  }

  /** Neither does the bold path. */
  lemma BoldLevelNear(size: real, b: Bands)
    requires BoldLevel(size, b).Some?
    ensures size >= BandOf(BoldLevel(size, b).value, b) - 1.5
  {
  }

  /** A classified line is never more than a point and a half below its level's band. */
  lemma {:induction false} LevelNearBand(text: string, size: real, bold: bool, b: Bands)
    requires text != [] && ClassifyLine(text, size, bold, b).Some?
    ensures size >= BandOf(ClassifyLine(text, size, bold, b).value.level, b) - 1.5
  {
    match NumberedHeading(text, size, bold, b)
    case Some(h) =>
      var m := MatchNumbered(text).value;
      NumberedLevelNear(CountChar(m.prefix, '.'), size, b);
    case None =>
      BoldLevelNear(size, b);
  }

  /** The title check: the stripped text is the title, or a part of it longer than ten characters. */
  predicate IsTitleText(text: string, title: string) {
    title != [] && (text == title || (|text| > 10 && IsSubstring(text, title)))
  }

  /** The candidate line i of a page gives, if any. */
  function LineCandidate(page: seq<Line>, i: nat, b: Bands, title: string): (r: Option<Candidate>)
    requires i < |page|
    ensures r.Some? ==> r.value.level != H0 && r.value.text != [] && r.value.page == page[i].page
  {
    var l := page[i];
    var text := Strip(l.text);
    if text == [] || IsTitleText(text, title) || NonHeading(page, i, b.h3) then None
    else
      match ClassifyLine(text, l.size, l.bold, b)
      case None => None
      case Some(h) => Some(Candidate(h.level, h.text, l.page, l.y0, l.x0))
  }

  /** The candidates of the first k lines of a page, in order. */
  function PageCandidates(page: seq<Line>, k: nat, b: Bands, title: string): (r: seq<Candidate>)
    requires k <= |page|
    ensures forall c :: c in r ==> c.level != H0 && c.text != []
  {
    if k == 0 then []
    else
      var prev := PageCandidates(page, k - 1, b, title);
      var c := LineCandidate(page, k - 1, b, title);
      if c.None? then prev else prev + [c.value]
  }

  /** The candidates of all pages, page after page. */
  function AllCandidates(pages: seq<seq<Line>>, b: Bands, title: string): (r: seq<Candidate>)
    ensures forall c :: c in r ==> c.level != H0 && c.text != []
    decreases |pages|
  {
    if pages == [] then []
    else
      var last := pages[|pages| - 1];
      AllCandidates(pages[..|pages| - 1], b, title) + PageCandidates(last, |last|, b, title)
  }

  /** The key of the seen-set: text, page and level. */
  function CandidateKey(c: Candidate): (string, nat, Level) {
    (c.text, c.page, c.level)
  }

  /** The classifier for one line, as the source writes it out. */
  method ClassifyAt(page: seq<Line>, i: nat, b: Bands, title: string) returns (r: Option<Candidate>)
    requires i < |page|
    ensures r == LineCandidate(page, i, b, title)
  {
    var l := page[i];
    var text := Strip(l.text);
    if text == [] {
      return None;
    }
    if IsTitleText(text, title) {
      return None;
    }
    var reject := IsLikelyNonHeading(page, i, b.h3);
    if reject {
      return None;
    }
    var heading := ClassifyLine(text, l.size, l.bold, b);
    match heading
    case None => r := None;
    case Some(h) => r := Some(Candidate(h.level, h.text, l.page, l.y0, l.x0));
  }

  /** One pass of the inner loop: line i is classified and kept if its key is new. */
  method ConsiderLine(page: seq<Line>, i: nat, b: Bands, title: string, raw0: seq<Candidate>, seen0: set<(string, nat, Level)>, ghost before: seq<Candidate>)
    returns (raw: seq<Candidate>, seen: set<(string, nat, Level)>)
    requires i < |page|
    requires raw0 == Seqs.DedupBy(before + PageCandidates(page, i, b, title), CandidateKey) && seen0 == Seqs.KeySet(raw0, CandidateKey)
    ensures raw == Seqs.DedupBy(before + PageCandidates(page, i + 1, b, title), CandidateKey)
    ensures seen == Seqs.KeySet(raw, CandidateKey)
  {
    raw, seen := raw0, seen0;
    var c := ClassifyAt(page, i, b, title);
    if c.Some? {
      Seqs.AppendAssoc(before, PageCandidates(page, i, b, title), [c.value]);
      raw, seen := Seqs.AddUnseen(raw, seen, c.value, CandidateKey, before + PageCandidates(page, i, b, title));
    }
  }

  /** The inner loop: the lines of one page, in order. */
  method CollectPage(page: seq<Line>, b: Bands, title: string, raw0: seq<Candidate>, seen0: set<(string, nat, Level)>, ghost before: seq<Candidate>)
    returns (raw: seq<Candidate>, seen: set<(string, nat, Level)>)
    requires raw0 == Seqs.DedupBy(before, CandidateKey) && seen0 == Seqs.KeySet(raw0, CandidateKey)
    ensures raw == Seqs.DedupBy(before + PageCandidates(page, |page|, b, title), CandidateKey)
    ensures seen == Seqs.KeySet(raw, CandidateKey)
  {
    raw, seen := raw0, seen0;
    Seqs.AppendEmpty(before);
    var i := 0;
    while i < |page|
      invariant i <= |page|
      invariant raw == Seqs.DedupBy(before + PageCandidates(page, i, b, title), CandidateKey)
      invariant seen == Seqs.KeySet(raw, CandidateKey)
    {
      raw, seen := ConsiderLine(page, i, b, title, raw, seen, before);
      i := i + 1;
    }
    assert i == |page|;
  }

  /**
   * The loops over pages and lines that fill raw_detected_headings, with the
   * seen set of (text, page, level) triples.
   */
  method CollectCandidates(pages: seq<seq<Line>>, b: Bands, title: string) returns (raw: seq<Candidate>)
    ensures raw == Seqs.DedupBy(AllCandidates(pages, b, title), CandidateKey)
    ensures forall i, j :: 0 <= i < j < |raw| ==> CandidateKey(raw[i]) != CandidateKey(raw[j])
  {
    raw := [];
    var seen: set<(string, nat, Level)> := {};
    var p := 0;
    while p < |pages|
      invariant p <= |pages|
      invariant raw == Seqs.DedupBy(AllCandidates(pages[..p], b, title), CandidateKey)
      invariant seen == Seqs.KeySet(raw, CandidateKey)
    {
      assert pages[..p + 1][..p] == pages[..p];
      raw, seen := CollectPage(pages[p], b, title, raw, seen, AllCandidates(pages[..p], b, title));
      p := p + 1;
    }
    assert pages[..|pages|] == pages;
  }
}
