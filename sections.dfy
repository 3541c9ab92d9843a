/**
 * Section slicing (the second half of extract_structured_sections): one
 * marker for the title and one per outline entry, placed at the first
 * matching span; the markers sorted by (page, y0) and de-duplicated by
 * text; then, for each marker, the body spans inside its window, filtered
 * and joined, and a section emitted when it is the title's or has at least
 * ten words.
 *
 * The PDF document itself is not part of this model: the bottom edge of
 * each page (page.rect.y1) is the parameter bottoms, and the document's
 * page count is |bottoms|. Loading a page the document does not have
 * raises an error, which makes the whole extraction fail (None).
 */
module Sections {
  import opened Wrappers
  import opened Text
  import opened Layout
  import opened Patterns
  import Seqs

  /** A section boundary: the heading (or title) text, where it starts and its level. */
  datatype Marker = Marker(text: string, page: nat, y0: real, level: Level)

  /** One emitted section; pageNumber counts from 1. */
  datatype Section = Section(document: string, title: string, pageNumber: nat, content: string, level: Level)

  // ---------------------------------------------------------------------
  // Placing the markers

  /** What a span has to look like to place a marker. */
  datatype Criterion = TitleOf(title: string) | HeadingOf(entry: Entry)

  /**
   * The title's span shows exactly the title, or, for a title longer than
   * twenty characters, is a bold span of at least 18 points containing it.
   * A heading's span is on the heading's page, shows its text exactly and
   * is bold or at least 12 points.
   */
  predicate Matches(c: Criterion, s: Span) {
    match c
    case TitleOf(title) =>
      || Strip(s.text) == title
      || (|title| > 20 && IsSubstring(title, Strip(s.text)) && s.bold && s.size >= 18.0)
    case HeadingOf(e) =>
      s.page == e.page && Strip(s.text) == Strip(e.text) && (s.bold || s.size >= 12.0)
  }

  /** spans[k] matches and no span before it does. */
  predicate FirstMatchAt(spans: seq<Span>, c: Criterion, k: int) {
    0 <= k < |spans| && Matches(c, spans[k]) && forall j :: 0 <= j < k ==> !Matches(c, spans[j])
  }

  /** No span of the pages before page p matches. */
  predicate NoMatchBefore(pages: seq<seq<Span>>, c: Criterion, p: int) {
    forall q, j :: 0 <= q < p && q < |pages| && 0 <= j < |pages[q]| ==> !Matches(c, pages[q][j])
  }

  /** The first matching span of one page. */
  function FirstOnPage(spans: seq<Span>, c: Criterion): (r: Option<Span>)
    ensures r.Some? ==> exists k :: FirstMatchAt(spans, c, k) && spans[k] == r.value
    ensures r.None? <==> forall k :: 0 <= k < |spans| ==> !Matches(c, spans[k])
  {
    if spans == [] then None
    else if Matches(c, spans[0]) then
      assert FirstMatchAt(spans, c, 0);
      Some(spans[0])
    else
      var r := FirstOnPage(spans[1..], c);
      assert forall k :: 1 <= k < |spans| ==> spans[k] == spans[1..][k - 1];
      assert r.Some? ==> exists k :: FirstMatchAt(spans, c, k) && spans[k] == r.value by {
        if r.Some? {
          var k :| FirstMatchAt(spans[1..], c, k) && spans[1..][k] == r.value;
          assert FirstMatchAt(spans, c, k + 1);
        }
      }
      r
  }

  /**
   * The first matching span, page after page: it is the first match of
   * its page, and no earlier page has a match.
   */
  function FirstInPages(pages: seq<seq<Span>>, c: Criterion): (r: Option<Span>)
    ensures r.Some? ==> exists p, k :: 0 <= p < |pages| && NoMatchBefore(pages, c, p) && FirstMatchAt(pages[p], c, k) && pages[p][k] == r.value
    ensures r.None? <==> forall p, k :: 0 <= p < |pages| && 0 <= k < |pages[p]| ==> !Matches(c, pages[p][k])
  {
    if pages == [] then None
    else
      var first := FirstOnPage(pages[0], c);
      if first.Some? then
        assert first.Some? ==> exists k :: FirstMatchAt(pages[0], c, k) && pages[0][k] == first.value;
        assert NoMatchBefore(pages, c, 0);
        first
      else
        var r := FirstInPages(pages[1..], c);
        assert forall p :: 1 <= p < |pages| ==> pages[p] == pages[1..][p - 1];
        FirstInPagesTail(pages, c, r);
        r
  }

  /** The step of FirstInPages past a first page without a match. */
  lemma FirstInPagesTail(pages: seq<seq<Span>>, c: Criterion, r: Option<Span>)
    requires pages != [] && forall k :: 0 <= k < |pages[0]| ==> !Matches(c, pages[0][k])
    requires r.Some? ==> exists p, k :: 0 <= p < |pages[1..]| && NoMatchBefore(pages[1..], c, p) && FirstMatchAt(pages[1..][p], c, k) && pages[1..][p][k] == r.value
    ensures r.Some? ==> exists p, k :: 0 <= p < |pages| && NoMatchBefore(pages, c, p) && FirstMatchAt(pages[p], c, k) && pages[p][k] == r.value
  {
    if r.Some? {
      var p, k :| 0 <= p < |pages[1..]| && NoMatchBefore(pages[1..], c, p) && FirstMatchAt(pages[1..][p], c, k) && pages[1..][p][k] == r.value;
      assert pages[p + 1] == pages[1..][p];
      forall q, j | 0 <= q < p + 1 && q < |pages| && 0 <= j < |pages[q]| ensures !Matches(c, pages[q][j]) {
        if q > 0 {
          assert pages[q] == pages[1..][q - 1];
        }
      }
      assert NoMatchBefore(pages, c, p + 1);
    }
  }

  /** The title's marker, at its span, or at the top of the first page. */
  function TitleMarker(pages: seq<seq<Span>>, title: string): Marker {
    match FirstInPages(pages, TitleOf(title))
    case Some(s) => Marker(title, s.page, s.y0, H0)
    case None => Marker(title, 0, 0.0, H0)
  }

  /** An outline entry's marker, at the top of its page when no span shows it. */
  function HeadingMarker(pages: seq<seq<Span>>, e: Entry): Marker {
    match FirstInPages(pages, HeadingOf(e))
    case Some(s) => Marker(e.text, e.page, s.y0, e.level)
    case None => Marker(e.text, e.page, 0.0, e.level)
  }

  /** The markers of the first outline entries, in outline order. */
  function HeadingMarkers(pages: seq<seq<Span>>, outline: seq<Entry>): (r: seq<Marker>)
    ensures |r| == |outline|
    ensures forall k :: 0 <= k < |outline| ==> r[k] == HeadingMarker(pages, outline[k])
  {
    if outline == [] then []
    else HeadingMarkers(pages, outline[..|outline| - 1]) + [HeadingMarker(pages, outline[|outline| - 1])]
  }

  /** section_markers before sorting: the title's first, when there is a title. */
  function RawMarkers(pages: seq<seq<Span>>, title: string, outline: seq<Entry>): seq<Marker> {
    (if title != [] then [TitleMarker(pages, title)] else []) + HeadingMarkers(pages, outline)
  }

  /** The sort key of the markers: page, then y0. */
  predicate MarkerLe(a: Marker, b: Marker) {
    a.page < b.page || (a.page == b.page && a.y0 <= b.y0)
  }

  function MarkerText(m: Marker): string {
    m.text
  }

  /** The markers as the slicing uses them: sorted, then the first of each text. */
  function Markers(pages: seq<seq<Span>>, title: string, outline: seq<Entry>): seq<Marker> {
    Seqs.DedupBy(Seqs.Sort(RawMarkers(pages, title, outline), MarkerLe), MarkerText)
  }

  /** The search for the first matching span of one page. */
  method FindOnPage(spans: seq<Span>, c: Criterion) returns (found: Option<Span>)
    ensures found == FirstOnPage(spans, c)
  {
    var k := 0;
    while k < |spans|
      invariant k <= |spans|
      invariant FirstOnPage(spans, c) == FirstOnPage(spans[k..], c)
    {
      assert spans[k..][1..] == spans[k + 1..];
      if Matches(c, spans[k]) {
        return Some(spans[k]);
      }
      k := k + 1;
    }
    return None;
  }

  /** The nested loops that stop at the first matching span. */
  method FindSpan(pages: seq<seq<Span>>, c: Criterion) returns (found: Option<Span>)
    ensures found == FirstInPages(pages, c)
  {
    var p := 0;
    while p < |pages|
      invariant p <= |pages|
      invariant FirstInPages(pages, c) == FirstInPages(pages[p..], c)
    {
      assert pages[p..][1..] == pages[p + 1..];
      found := FindOnPage(pages[p], c);
      if found.Some? {
        return;
      }
      p := p + 1;
    }
    return None;
  }

  /** The loop that adds one marker per outline entry. */
  method OutlineMarkers(pages: seq<seq<Span>>, outline: seq<Entry>) returns (markers: seq<Marker>)
    ensures markers == HeadingMarkers(pages, outline)
  {
    markers := [];
    var k := 0;
    while k < |outline|
      invariant k <= |outline| && |markers| == k
      invariant forall j :: 0 <= j < k ==> markers[j] == HeadingMarker(pages, outline[j])
    {
      var marker := PlaceHeading(pages, outline[k]);
      markers := markers + [marker];
      k := k + 1;
    }
  }

  /** One pass of the outline loop: the entry's marker at the y0 found, or 0. */
  method PlaceHeading(pages: seq<seq<Span>>, item: Entry) returns (marker: Marker)
    ensures marker == HeadingMarker(pages, item)
  {
    var found := FindSpan(pages, HeadingOf(item));
    var y0 := if found.Some? then found.value.y0 else 0.0;
    marker := Marker(item.text, item.page, y0, item.level);
  }

  /** section_markers: the title's marker, when there is a title, then the outline's. */
  method BuildMarkers(pages: seq<seq<Span>>, title: string, outline: seq<Entry>) returns (markers: seq<Marker>)
    ensures markers == RawMarkers(pages, title, outline)
  {
    markers := [];
    if title != [] {
      var found := FindSpan(pages, TitleOf(title));
      if found.Some? {
        markers := [Marker(title, found.value.page, found.value.y0, H0)];
      } else {
        markers := [Marker(title, 0, 0.0, H0)];
      }
    }
    var rest := OutlineMarkers(pages, outline);
    markers := markers + rest;
  }

  /** The loop over the sorted markers with the seen_texts set. */
  method DedupMarkers(sorted: seq<Marker>) returns (markers: seq<Marker>)
    ensures markers == Seqs.DedupBy(sorted, MarkerText)
  {
    markers := [];
    var seen: set<string> := {};
    var k := 0;
    while k < |sorted|
      invariant k <= |sorted|
      invariant markers == Seqs.DedupBy(sorted[..k], MarkerText)
      invariant seen == Seqs.KeySet(markers, MarkerText)
    {
      assert sorted[..k + 1] == sorted[..k] + [sorted[k]];
      markers, seen := Seqs.AddUnseen(markers, seen, sorted[k], MarkerText, sorted[..k]);
      k := k + 1;
    }
    assert sorted[..|sorted|] == sorted;
  }

  /**
   * A heading's marker keeps the entry's text, page and level; its y0 is
   * that of the first span, in page then span order, that shows the
   * heading, or 0 when no span does.
   */
  lemma HeadingMarkerAt(pages: seq<seq<Span>>, e: Entry)
    ensures var m := HeadingMarker(pages, e);
      m.text == e.text && m.page == e.page && m.level == e.level
    ensures var m := HeadingMarker(pages, e);
      (forall p, k :: 0 <= p < |pages| && 0 <= k < |pages[p]| ==> !Matches(HeadingOf(e), pages[p][k])) ==> m.y0 == 0.0
    ensures var m := HeadingMarker(pages, e);
      (exists p, k :: 0 <= p < |pages| && 0 <= k < |pages[p]| && Matches(HeadingOf(e), pages[p][k])) ==>
        exists p, k :: 0 <= p < |pages| && NoMatchBefore(pages, HeadingOf(e), p) && FirstMatchAt(pages[p], HeadingOf(e), k)
          && pages[p][k].y0 == m.y0
  {
  }

  /**
   * The title's marker is at the page and y0 of the first span, in page
   * then span order, that shows the title, or at page 0, y0 0 when no span
   * does; its level is H0.
   */
  lemma TitleMarkerAt(pages: seq<seq<Span>>, title: string)
    ensures var m := TitleMarker(pages, title); m.text == title && m.level == H0
    ensures var m := TitleMarker(pages, title);
      (forall p, k :: 0 <= p < |pages| && 0 <= k < |pages[p]| ==> !Matches(TitleOf(title), pages[p][k])) ==> m.page == 0 && m.y0 == 0.0
    ensures var m := TitleMarker(pages, title);
      (exists p, k :: 0 <= p < |pages| && 0 <= k < |pages[p]| && Matches(TitleOf(title), pages[p][k])) ==>
        exists p, k :: 0 <= p < |pages| && NoMatchBefore(pages, TitleOf(title), p) && FirstMatchAt(pages[p], TitleOf(title), k)
          && pages[p][k].page == m.page && pages[p][k].y0 == m.y0
  {
  }

  /** Comparing (page, y0) pairs is a total preorder. */
  lemma MarkerLePreorder()
    ensures Seqs.TotalPreorder(MarkerLe)
  {
  }

  /**
   * The markers are in (page, y0) order, no two share a text, every text
   * of the title and the outline has a marker, and the one kept for a text
   * is its first in sorted order.
   */
  lemma {:induction false} MarkersSortedUnique(pages: seq<seq<Span>>, title: string, outline: seq<Entry>)
    ensures var ms := Markers(pages, title, outline);
      var sorted := Seqs.Sort(RawMarkers(pages, title, outline), MarkerLe);
      && Seqs.Sorted(ms, MarkerLe)
      && (forall i, j :: 0 <= i < j < |ms| ==> ms[i].text != ms[j].text)
      && Seqs.KeySet(ms, MarkerText) == Seqs.KeySet(RawMarkers(pages, title, outline), MarkerText)
      && (forall m :: m in ms ==> exists i :: Seqs.FirstOfKey(sorted, MarkerText, i) && sorted[i] == m)
  {
    var raw := RawMarkers(pages, title, outline);
    var sorted := Seqs.Sort(raw, MarkerLe);
    var ms := Markers(pages, title, outline);
    MarkerLePreorder();
    Seqs.SortSorted(raw, MarkerLe);
    Seqs.DedupSorted(sorted, MarkerText, MarkerLe);
    SortKeySet(raw, MarkerLe);
    forall m | m in ms ensures exists i :: Seqs.FirstOfKey(sorted, MarkerText, i) && sorted[i] == m {
      Seqs.DedupOnlyFirst(sorted, MarkerText, m);
    }
  }

  /** Sorting keeps every marker text. */
  lemma SortKeySet(raw: seq<Marker>, le: (Marker, Marker) -> bool)
    ensures Seqs.KeySet(Seqs.Sort(raw, le), MarkerText) == Seqs.KeySet(raw, MarkerText)
  {
    var sorted := Seqs.Sort(raw, le);
    forall t | t in Seqs.KeySet(sorted, MarkerText) ensures t in Seqs.KeySet(raw, MarkerText) {
      var i :| 0 <= i < |sorted| && sorted[i].text == t;
      assert sorted[i] in multiset(raw);
      var j :| 0 <= j < |raw| && raw[j] == sorted[i];
    }
    forall t | t in Seqs.KeySet(raw, MarkerText) ensures t in Seqs.KeySet(sorted, MarkerText) {
      var i :| 0 <= i < |raw| && raw[i].text == t;
      assert raw[i] in multiset(sorted);
      var j :| 0 <= j < |sorted| && sorted[j] == raw[i];
    }
  }

  // ---------------------------------------------------------------------
  // The content of one section

  /** The end of a marker's window: the last page and, unless unbounded, the y0 to stay below on it. */
  datatype Window = Window(endPage: int, endY: Option<real>)

  /**
   * A marker followed by another ends on its own page: at the next marker's
   * y0 when that is on the same page, else at the page's bottom edge. The
   * last marker runs to the end of the document.
   */
  function WindowOf(ms: seq<Marker>, i: nat, bottoms: seq<real>): Window
    requires i < |ms| && ms[i].page < |bottoms|
  {
    var m := ms[i];
    if i + 1 < |ms| then
      if ms[i + 1].page == m.page then Window(m.page, Some(ms[i + 1].y0))
      else Window(m.page, Some(bottoms[m.page]))
    else Window(|bottoms| - 1, None)
  }

  /** At or below the start, and before the end: above endY on the last page. */
  predicate InWindow(y0: real, pageNum: nat, m: Marker, w: Window) {
    && y0 >= m.y0
    && (pageNum < w.endPage || (pageNum == w.endPage && (w.endY.None? || y0 < w.endY.value)))
  }

  /** "Page N of M", a bare number, a running header or "- N -". */
  predicate IsFooter(text: string) {
    IsPageOfTotal(text) || IsBareInteger(Strip(text)) || IsRunningHeader(text) || IsDashedNumber(text)
  }

  /** A single word of at most five characters. */
  predicate IsFragment(text: string) {
    !(WordCount(Strip(text)) > 1 || |Strip(text)| > 5)
  }

  /** The text of some outline heading. */
  predicate InOutline(t: string, outline: seq<Entry>) {
    exists k :: 0 <= k < |outline| && Strip(outline[k].text) == t
  }

  /** The span belongs to the marker's content: in the window, no heading, no footer, no fragment. */
  predicate Keep(s: Span, pageNum: nat, m: Marker, w: Window, outline: seq<Entry>) {
    var t := Strip(s.text);
    && InWindow(s.y0, pageNum, m, w)
    && t != Strip(m.text) && !InOutline(t, outline)
    && !IsFooter(s.text)
    && !IsFragment(s.text)
  }

  /** The keep test of one marker, as a function of the page number and the span. */
  function KeepTest(m: Marker, w: Window, outline: seq<Entry>): (nat, Span) -> bool {
    (p: nat, s: Span) => Keep(s, p, m, w, outline)
  }

  /** The stripped texts kept from the first k spans of one page. */
  function PageParts(spans: seq<Span>, k: nat, pageNum: nat, keep: (nat, Span) -> bool): (r: seq<string>)
    requires k <= |spans|
    ensures |r| <= k
  {
    if k == 0 then []
    else
      var prev := PageParts(spans, k - 1, pageNum, keep);
      var s := spans[k - 1];
      if keep(pageNum, s) then prev + [Strip(s.text)] else prev
  }

  /** The kept texts of pages from ..< to, skipping pages the extractor has no spans for. */
  function WindowParts(pages: seq<seq<Span>>, from: nat, to: int, keep: (nat, Span) -> bool): (r: seq<string>)
    decreases to - from
  {
    if to <= from then []
    else
      var prev := WindowParts(pages, from, to - 1, keep);
      var p := to - 1;
      if p < |pages| then prev + PageParts(pages[p], |pages[p]|, p, keep) else prev
  }

  /** A text kept from a span among the first k of a page. */
  predicate FromPage(spans: seq<Span>, k: nat, pageNum: nat, keep: (nat, Span) -> bool, t: string) {
    exists i :: 0 <= i < k && i < |spans| && t == Strip(spans[i].text) && keep(pageNum, spans[i])
  }

  /** Every kept text is the stripped text of a span of the page that passes the test. */
  lemma {:induction false} PagePartsKept(spans: seq<Span>, k: nat, pageNum: nat, keep: (nat, Span) -> bool)
    requires k <= |spans|
    ensures forall j :: 0 <= j < |PageParts(spans, k, pageNum, keep)| ==>
      FromPage(spans, k, pageNum, keep, PageParts(spans, k, pageNum, keep)[j])
  {
    if k > 0 {
      PagePartsKept(spans, k - 1, pageNum, keep);
      var prev := PageParts(spans, k - 1, pageNum, keep);
      var r := PageParts(spans, k, pageNum, keep);
      forall j | 0 <= j < |r| ensures FromPage(spans, k, pageNum, keep, r[j]) {
        if j < |prev| {
          assert r[j] == prev[j];
          assert FromPage(spans, k - 1, pageNum, keep, prev[j]);
          var i :| 0 <= i < k - 1 && i < |spans| && prev[j] == Strip(spans[i].text) && keep(pageNum, spans[i]);
        } else {
          assert r[j] == Strip(spans[k - 1].text);
        }
      }
    }
  }

  /** A text kept from a span of a window page. */
  predicate FromWindow(pages: seq<seq<Span>>, from: nat, to: int, keep: (nat, Span) -> bool, t: string) {
    exists p, i :: (&& from <= p < to && p < |pages| && 0 <= i < |pages[p]|
                    && t == Strip(pages[p][i].text) && keep(p, pages[p][i]))
  }

  /** A window text stays one when the window takes in one more page. */
  lemma FromWindowWiden(pages: seq<seq<Span>>, from: nat, to: int, keep: (nat, Span) -> bool, t: string)
    requires FromWindow(pages, from, to, keep, t)
    ensures FromWindow(pages, from, to + 1, keep, t)
  {
    var p, i :| (&& from <= p < to && p < |pages| && 0 <= i < |pages[p]|
                 && t == Strip(pages[p][i].text) && keep(p, pages[p][i]));
  }

  /** A text of the window's last page is a window text. */
  lemma FromPageInWindow(pages: seq<seq<Span>>, from: nat, p: nat, keep: (nat, Span) -> bool, t: string)
    requires from <= p < |pages| && FromPage(pages[p], |pages[p]|, p, keep, t)
    ensures FromWindow(pages, from, p + 1, keep, t)
  {
    var i :| 0 <= i < |pages[p]| && t == Strip(pages[p][i].text) && keep(p, pages[p][i]);
  }

  /** Every text of a window comes from a span of one of its pages that passes the test. */
  lemma {:induction false} WindowPartsKept(pages: seq<seq<Span>>, from: nat, to: int, keep: (nat, Span) -> bool)
    decreases to - from
    ensures forall j :: 0 <= j < |WindowParts(pages, from, to, keep)| ==>
      FromWindow(pages, from, to, keep, WindowParts(pages, from, to, keep)[j])
  {
    if to > from {
      WindowPartsKept(pages, from, to - 1, keep);
      var p := to - 1;
      var prev := WindowParts(pages, from, to - 1, keep);
      forall j | 0 <= j < |prev| ensures FromWindow(pages, from, to, keep, prev[j]) {
        FromWindowWiden(pages, from, to - 1, keep, prev[j]);
      }
      if p < |pages| {
        PagePartsKept(pages[p], |pages[p]|, p, keep);
        var here := PageParts(pages[p], |pages[p]|, p, keep);
        forall j | 0 <= j < |here| ensures FromWindow(pages, from, to, keep, here[j]) {
          FromPageInWindow(pages, from, p, keep, here[j]);
        }
        forall j | 0 <= j < |prev + here| ensures FromWindow(pages, from, to, keep, (prev + here)[j]) {
          if j >= |prev| {
            assert (prev + here)[j] == here[j - |prev|];
          }
        }
      }
    }
  }

  /** The section of marker i: emitted for the title, or when its content has ten words or more. */
  function SectionAt(pages: seq<seq<Span>>, ms: seq<Marker>, i: nat, bottoms: seq<real>, outline: seq<Entry>, doc: string): Option<Section>
    requires i < |ms| && ms[i].page < |bottoms|
  {
    var m := ms[i];
    var w := WindowOf(ms, i, bottoms);
    var content := Strip(JoinWith("\n", WindowParts(pages, m.page, w.endPage + 1, KeepTest(m, w, outline))));
    if m.level == H0 || WordCount(content) >= 10 then Some(Section(doc, m.text, m.page + 1, content, m.level))
    else None
  }

  /** The first k markers start on pages the document has. */
  predicate LoadsUpTo(ms: seq<Marker>, k: nat, bottoms: seq<real>) {
    forall i :: 0 <= i < k && i < |ms| ==> ms[i].page < |bottoms|
  }

  /** The sections of the first k markers, in marker order. */
  function SectionsUpTo(pages: seq<seq<Span>>, ms: seq<Marker>, k: nat, bottoms: seq<real>, outline: seq<Entry>, doc: string): seq<Section>
    requires k <= |ms| && LoadsUpTo(ms, k, bottoms)
  {
    if k == 0 then []
    else
      var prev := SectionsUpTo(pages, ms, k - 1, bottoms, outline, doc);
      var sec := SectionAt(pages, ms, k - 1, bottoms, outline, doc);
      if sec.None? then prev else prev + [sec.value]
  }

  /** The sections of a document, or None when a marker's page cannot be loaded. */
  function Extract(pages: seq<seq<Span>>, title: string, outline: seq<Entry>, bottoms: seq<real>, doc: string): Option<seq<Section>> {
    var ms := Markers(pages, title, outline);
    if LoadsUpTo(ms, |ms|, bottoms) then Some(SectionsUpTo(pages, ms, |ms|, bottoms, outline, doc)) else None
  }

  /** The loop over the outline that looks for a heading with the same stripped text. */
  method HeadingTextIn(t: string, outline: seq<Entry>) returns (found: bool)
    ensures found == InOutline(t, outline)
  {
    var k := 0;
    while k < |outline|
      invariant k <= |outline|
      invariant forall j :: 0 <= j < k ==> Strip(outline[j].text) != t
    {
      if Strip(outline[k].text) == t {
        return true;
      }
      k := k + 1;
    }
    return false;
  }

  /** The five tests on one span, in the source's order. */
  method KeepsSpan(s: Span, pageNum: nat, m: Marker, w: Window, outline: seq<Entry>) returns (keep: bool)
    ensures keep == KeepTest(m, w, outline)(pageNum, s)
  {
    var isAfterStart := s.y0 >= m.y0;
    var isBeforeEnd := pageNum < w.endPage || (pageNum == w.endPage && (w.endY.None? || s.y0 < w.endY.value));
    var t := Strip(s.text);
    var isNotHeadingText := t != Strip(m.text);
    if isNotHeadingText {
      var other := HeadingTextIn(t, outline);
      isNotHeadingText := !other;
    }
    var isNotFooter := !IsFooter(s.text);
    var isNotFragment := WordCount(t) > 1 || |t| > 5;
    keep := isAfterStart && isBeforeEnd && isNotHeadingText && isNotFooter && isNotFragment;
  }

  /** One pass of the span loop: span k's stripped text goes at the end when it is kept. */
  method AddPart(spans: seq<Span>, k: nat, pageNum: nat, m: Marker, w: Window, outline: seq<Entry>, parts0: seq<string>)
    returns (parts: seq<string>)
    requires k < |spans| && parts0 == PageParts(spans, k, pageNum, KeepTest(m, w, outline))
    ensures parts == PageParts(spans, k + 1, pageNum, KeepTest(m, w, outline))
  {
    var keep := KeepsSpan(spans[k], pageNum, m, w, outline);
    parts := parts0;
    if keep {
      parts := parts + [Strip(spans[k].text)];
    }
  }

  /** The loop over the spans of one page. */
  method GatherPage(spans: seq<Span>, pageNum: nat, m: Marker, w: Window, outline: seq<Entry>) returns (parts: seq<string>)
    ensures parts == PageParts(spans, |spans|, pageNum, KeepTest(m, w, outline))
  {
    parts := [];
    var k := 0;
    while k < |spans|
      invariant k <= |spans|
      invariant parts == PageParts(spans, k, pageNum, KeepTest(m, w, outline))
    {
      parts := AddPart(spans, k, pageNum, m, w, outline, parts);
      k := k + 1;
    }
    assert k == |spans|;
  }

  /** The window of marker i as the source computes it, from the next marker if there is one. */
  method MarkerWindow(ms: seq<Marker>, i: nat, bottoms: seq<real>) returns (w: Window)
    requires i < |ms| && ms[i].page < |bottoms|
    ensures w == WindowOf(ms, i, bottoms)
  {
    var m := ms[i];
    var endPage := |bottoms| - 1;
    var endY: Option<real> := None;
    if i + 1 < |ms| {
      var next := ms[i + 1];
      if next.page == m.page {
        endPage, endY := m.page, Some(next.y0);
      } else {
        endPage, endY := m.page, Some(bottoms[m.page]);
      }
    }
    w := Window(endPage, endY);
  }

  /** The loop over the pages of a window, skipping pages past the end of the document. */
  method GatherWindow(pages: seq<seq<Span>>, m: Marker, w: Window, outline: seq<Entry>) returns (parts: seq<string>)
    requires m.page <= w.endPage + 1
    ensures parts == WindowParts(pages, m.page, w.endPage + 1, KeepTest(m, w, outline))
  {
    parts := [];
    var p := m.page;
    while p < w.endPage + 1
      invariant m.page <= p <= w.endPage + 1
      invariant parts == WindowParts(pages, m.page, p, KeepTest(m, w, outline))
    {
      if p < |pages| {
        var here := GatherPage(pages[p], p, m, w, outline);
        parts := parts + here;
      }
      p := p + 1;
    }
  }

  /** The content of marker i, then the emission test. */
  method GatherSection(pages: seq<seq<Span>>, ms: seq<Marker>, i: nat, bottoms: seq<real>, outline: seq<Entry>, doc: string)
    returns (sec: Option<Section>)
    requires i < |ms| && ms[i].page < |bottoms|
    ensures sec == SectionAt(pages, ms, i, bottoms, outline, doc)
  {
    var m := ms[i];
    var w := MarkerWindow(ms, i, bottoms);
    var parts := GatherWindow(pages, m, w, outline);
    var content := Strip(JoinWith("\n", parts));
    if m.level == H0 || WordCount(content) >= 10 {
      sec := Some(Section(doc, m.text, m.page + 1, content, m.level));
    } else {
      sec := None;
    }
  }

  /** The markers in order, one per text: built, sorted by (page, y0), de-duplicated. */
  method OrderedMarkers(pages: seq<seq<Span>>, title: string, outline: seq<Entry>) returns (ms: seq<Marker>)
    ensures ms == Markers(pages, title, outline)
  {
    var raw := BuildMarkers(pages, title, outline);
    var sorted := Seqs.Sort(raw, MarkerLe);
    ms := DedupMarkers(sorted);
  }

  /** One pass of the marker loop: the section of marker i, when it qualifies, goes at the end. */
  method AddSection(pages: seq<seq<Span>>, ms: seq<Marker>, i: nat, bottoms: seq<real>, outline: seq<Entry>, doc: string, sections0: seq<Section>)
    returns (sections: seq<Section>)
    requires i < |ms| && ms[i].page < |bottoms| && LoadsUpTo(ms, i, bottoms)
    requires sections0 == SectionsUpTo(pages, ms, i, bottoms, outline, doc)
    ensures LoadsUpTo(ms, i + 1, bottoms)
    ensures sections == SectionsUpTo(pages, ms, i + 1, bottoms, outline, doc)
  {
    var sec := GatherSection(pages, ms, i, bottoms, outline, doc);
    sections := sections0;
    if sec.Some? {
      sections := sections + [sec.value];
    }
  }

  /** A marker whose page cannot be loaded stops the whole document. */
  lemma LoadFails(ms: seq<Marker>, i: nat, bottoms: seq<real>)
    requires i < |ms| && ms[i].page >= |bottoms|
    ensures !LoadsUpTo(ms, |ms|, bottoms)
  {
  }

  /** The loop over the markers; a marker whose page cannot be loaded ends it with None. */
  method SliceSections(pages: seq<seq<Span>>, ms: seq<Marker>, bottoms: seq<real>, outline: seq<Entry>, doc: string)
    returns (r: Option<seq<Section>>)
    ensures LoadsUpTo(ms, |ms|, bottoms) ==> r == Some(SectionsUpTo(pages, ms, |ms|, bottoms, outline, doc))
    ensures !LoadsUpTo(ms, |ms|, bottoms) ==> r == None
  {
    var sections: seq<Section> := [];
    var i := 0;
    while i < |ms|
      invariant i <= |ms| && LoadsUpTo(ms, i, bottoms)
      invariant sections == SectionsUpTo(pages, ms, i, bottoms, outline, doc)
    {
      if ms[i].page >= |bottoms| {
        LoadFails(ms, i, bottoms);
        return None;
      }
      sections := AddSection(pages, ms, i, bottoms, outline, doc, sections);
      i := i + 1;
    }
    assert i == |ms|;
    return Some(sections);
  }

  /** The slicing stage of extract_structured_sections. */
  method ExtractSections(pages: seq<seq<Span>>, title: string, outline: seq<Entry>, bottoms: seq<real>, doc: string)
    returns (r: Option<seq<Section>>)
    ensures r == Extract(pages, title, outline, bottoms, doc)
  {
    var ms := OrderedMarkers(pages, title, outline);
    r := SliceSections(pages, ms, bottoms, outline, doc);
  }

  // ---------------------------------------------------------------------
  // What the sections satisfy

  /** Every text of a window's content is the stripped text of a span the keep test accepts. */
  lemma ContentFromWindow(pages: seq<seq<Span>>, m: Marker, w: Window, outline: seq<Entry>, t: string)
    requires t in WindowParts(pages, m.page, w.endPage + 1, KeepTest(m, w, outline))
    ensures exists p, k :: (&& m.page <= p <= w.endPage && p < |pages| && 0 <= k < |pages[p]|
                            && t == Strip(pages[p][k].text) && Keep(pages[p][k], p, m, w, outline))
  {
    var keep := KeepTest(m, w, outline);
    var parts := WindowParts(pages, m.page, w.endPage + 1, keep);
    WindowPartsKept(pages, m.page, w.endPage + 1, keep);
    var j :| 0 <= j < |parts| && parts[j] == t;
    assert FromWindow(pages, m.page, w.endPage + 1, keep, parts[j]);
    var p, k :| (&& m.page <= p < w.endPage + 1 && p < |pages| && 0 <= k < |pages[p]|
                 && t == Strip(pages[p][k].text) && keep(p, pages[p][k]));
    assert Keep(pages[p][k], p, m, w, outline);
  }

  /** Every span of the first k of a page that passes the test has its stripped text collected. */
  lemma {:induction false} PagePartsComplete(spans: seq<Span>, k: nat, pageNum: nat, keep: (nat, Span) -> bool, i: nat)
    requires i < k <= |spans| && keep(pageNum, spans[i])
    ensures Strip(spans[i].text) in PageParts(spans, k, pageNum, keep)
    decreases k
  {
    if i < k - 1 {
      PagePartsComplete(spans, k - 1, pageNum, keep, i);
    }
  }

  /** Every span of a page in from ..< until that passes the test has its stripped text collected. */
  lemma {:induction false} WindowPartsComplete(pages: seq<seq<Span>>, from: nat, until: int, keep: (nat, Span) -> bool, p: nat, k: nat)
    requires from <= p < until && p < |pages| && k < |pages[p]| && keep(p, pages[p][k])
    ensures Strip(pages[p][k].text) in WindowParts(pages, from, until, keep)
    decreases until - p
  {
    if p < until - 1 {
      WindowPartsComplete(pages, from, until - 1, keep, p, k);
    } else {
      PagePartsComplete(pages[p], |pages[p]|, p, keep, k);
    }
  }

  /** A span on a page of a marker's window that the keep test accepts has its stripped text in the content. */
  lemma ContentComplete(pages: seq<seq<Span>>, m: Marker, w: Window, outline: seq<Entry>, p: nat, k: nat)
    requires m.page <= p <= w.endPage && p < |pages| && k < |pages[p]| && Keep(pages[p][k], p, m, w, outline)
    ensures Strip(pages[p][k].text) in WindowParts(pages, m.page, w.endPage + 1, KeepTest(m, w, outline))
  {
    WindowPartsComplete(pages, m.page, w.endPage + 1, KeepTest(m, w, outline), p, k);
  }

  /**
   * A marker's content texts are exactly the stripped texts of the spans
   * on the pages of its window that the keep test accepts: none is dropped
   * and none is added.
   */
  lemma ContentExact(pages: seq<seq<Span>>, m: Marker, w: Window, outline: seq<Entry>, t: string)
    ensures t in WindowParts(pages, m.page, w.endPage + 1, KeepTest(m, w, outline)) <==>
      exists p: nat, k: nat :: (&& m.page <= p <= w.endPage && p < |pages| && k < |pages[p]|
                                && t == Strip(pages[p][k].text) && Keep(pages[p][k], p, m, w, outline))
  {
    var parts := WindowParts(pages, m.page, w.endPage + 1, KeepTest(m, w, outline));
    if t in parts {
      ContentFromWindow(pages, m, w, outline, t);
    } else {
      forall p: nat, k: nat | m.page <= p <= w.endPage && p < |pages| && k < |pages[p]| && Keep(pages[p][k], p, m, w, outline)
        ensures t != Strip(pages[p][k].text)
      {
        ContentComplete(pages, m, w, outline, p, k);
      }
    }
  }

  /**
   * Every text in a marker's content comes from a span on a page of its
   * window, at or below the marker, that is neither the marker's own text
   * nor any outline heading's, nor a page number or running header, nor a
   * fragment.
   */
  lemma ContentSound(pages: seq<seq<Span>>, m: Marker, w: Window, outline: seq<Entry>, t: string)
    requires t in WindowParts(pages, m.page, w.endPage + 1, KeepTest(m, w, outline))
    ensures exists p, k :: (&& m.page <= p <= w.endPage && p < |pages| && 0 <= k < |pages[p]|
                            && t == Strip(pages[p][k].text)
                            && pages[p][k].y0 >= m.y0
                            && t != Strip(m.text) && !InOutline(t, outline)
                            && !IsFooter(pages[p][k].text) && !IsFragment(pages[p][k].text))
  {
    ContentFromWindow(pages, m, w, outline, t);
    var p, k :| (&& m.page <= p <= w.endPage && p < |pages| && 0 <= k < |pages[p]|
                 && t == Strip(pages[p][k].text) && Keep(pages[p][k], p, m, w, outline));
    KeptSpan(pages[p][k], p, m, w, outline);
  }

  /** What the keep test says about a span it accepts. */
  lemma KeptSpan(sp: Span, p: nat, m: Marker, w: Window, outline: seq<Entry>)
    requires Keep(sp, p, m, w, outline)
    ensures sp.y0 >= m.y0 && Strip(sp.text) != Strip(m.text) && !InOutline(Strip(sp.text), outline)
    ensures !IsFooter(sp.text) && !IsFragment(sp.text)
  {
  }

  /**
   * A marker followed by another collects from its own page only: from its
   * y0 down to the next marker when that is on the same page, else to the
   * bottom of the page.
   */
  lemma NotLastStaysOnPage(pages: seq<seq<Span>>, ms: seq<Marker>, i: nat, bottoms: seq<real>, outline: seq<Entry>, t: string)
    requires i + 1 < |ms| && ms[i].page < |bottoms|
    requires t in WindowParts(pages, ms[i].page, WindowOf(ms, i, bottoms).endPage + 1, KeepTest(ms[i], WindowOf(ms, i, bottoms), outline))
    ensures ms[i].page < |pages|
    ensures exists k :: (&& 0 <= k < |pages[ms[i].page]| && t == Strip(pages[ms[i].page][k].text)
                         && ms[i].y0 <= pages[ms[i].page][k].y0
                         && pages[ms[i].page][k].y0 < (if ms[i + 1].page == ms[i].page then ms[i + 1].y0 else bottoms[ms[i].page]))
  {
    var m, w := ms[i], WindowOf(ms, i, bottoms);
    ContentFromWindow(pages, m, w, outline, t);
    var p, k :| (&& m.page <= p <= w.endPage && p < |pages| && 0 <= k < |pages[p]|
                 && t == Strip(pages[p][k].text) && Keep(pages[p][k], p, m, w, outline));
    assert p == m.page;
    assert InWindow(pages[p][k].y0, p, m, w);
  }

  /**
   * A marker's section is emitted exactly when it is the title's or its
   * content has at least ten words; it carries the marker's text and level
   * and its page counted from 1.
   */
  lemma SectionEmitted(pages: seq<seq<Span>>, ms: seq<Marker>, i: nat, bottoms: seq<real>, outline: seq<Entry>, doc: string)
    requires i < |ms| && ms[i].page < |bottoms|
    ensures var m, w := ms[i], WindowOf(ms, i, bottoms);
      var content := Strip(JoinWith("\n", WindowParts(pages, m.page, w.endPage + 1, KeepTest(m, w, outline))));
      var sec := SectionAt(pages, ms, i, bottoms, outline, doc);
      && (sec.Some? <==> m.level == H0 || WordCount(content) >= 10)
      && (sec.Some? ==> sec.value == Section(doc, m.text, m.page + 1, content, m.level))
  {
  }

  /** A section carries the text and page (counted from 1) of one of the first k markers. */
  predicate FromMarker(sec: Section, ms: seq<Marker>, k: nat) {
    exists i :: 0 <= i < k && i < |ms| && sec.title == ms[i].text && sec.pageNumber == ms[i].page + 1
  }

  /** Every section of the first k markers is the section of one of them. */
  lemma {:induction false} SectionsFromMarkers(pages: seq<seq<Span>>, ms: seq<Marker>, k: nat, bottoms: seq<real>, outline: seq<Entry>, doc: string)
    requires k <= |ms| && LoadsUpTo(ms, k, bottoms)
    ensures forall j :: 0 <= j < |SectionsUpTo(pages, ms, k, bottoms, outline, doc)| ==>
      FromMarker(SectionsUpTo(pages, ms, k, bottoms, outline, doc)[j], ms, k)
  {
    if k > 0 {
      SectionsFromMarkers(pages, ms, k - 1, bottoms, outline, doc);
      var prev := SectionsUpTo(pages, ms, k - 1, bottoms, outline, doc);
      var sec := SectionAt(pages, ms, k - 1, bottoms, outline, doc);
      var all := if sec.Some? then prev + [sec.value] else prev;
      assert all == SectionsUpTo(pages, ms, k, bottoms, outline, doc);
      forall j | 0 <= j < |all|
        ensures FromMarker(all[j], ms, k)
      {
        if j < |prev| {
          assert all[j] == prev[j] && FromMarker(prev[j], ms, k - 1);
          var i :| 0 <= i < k - 1 && i < |ms| && prev[j].title == ms[i].text && prev[j].pageNumber == ms[i].page + 1;
        } else {
          assert all[j] == sec.value;
          assert all[j].title == ms[k - 1].text && all[j].pageNumber == ms[k - 1].page + 1;
        }
      }
    }
  }

  /** No two sections share a title. */
  predicate DistinctTitles(secs: seq<Section>) {
    forall a, b :: 0 <= a < b < |secs| ==> secs[a].title != secs[b].title
  }

  /** Markers with distinct texts give sections with distinct titles. */
  lemma {:induction false} SectionTitlesDistinct(pages: seq<seq<Span>>, ms: seq<Marker>, k: nat, bottoms: seq<real>, outline: seq<Entry>, doc: string)
    requires k <= |ms| && LoadsUpTo(ms, k, bottoms)
    requires forall a, b :: 0 <= a < b < |ms| ==> ms[a].text != ms[b].text
    ensures DistinctTitles(SectionsUpTo(pages, ms, k, bottoms, outline, doc))
  {
    if k > 0 {
      SectionTitlesDistinct(pages, ms, k - 1, bottoms, outline, doc);
      SectionsFromMarkers(pages, ms, k - 1, bottoms, outline, doc);
      var prev := SectionsUpTo(pages, ms, k - 1, bottoms, outline, doc);
      var sec := SectionAt(pages, ms, k - 1, bottoms, outline, doc);
      var all := if sec.Some? then prev + [sec.value] else prev;
      assert all == SectionsUpTo(pages, ms, k, bottoms, outline, doc);
      forall a, b | 0 <= a < b < |all|
        ensures all[a].title != all[b].title
      {
        assert all[a] == prev[a];
        if b < |prev| {
          assert all[b] == prev[b] && prev[a].title != prev[b].title;
        } else {
          assert FromMarker(prev[a], ms, k - 1);
          var i :| 0 <= i < k - 1 && i < |ms| && prev[a].title == ms[i].text && prev[a].pageNumber == ms[i].page + 1;
          assert ms[i].text != ms[k - 1].text;
          assert all[b] == sec.value && all[b].title == ms[k - 1].text;
        }
      }
    }
  }

  /** The sections of a document that loads have pairwise distinct titles. */
  lemma ExtractTitlesDistinct(pages: seq<seq<Span>>, title: string, outline: seq<Entry>, bottoms: seq<real>, doc: string)
    requires Extract(pages, title, outline, bottoms, doc).Some?
    ensures DistinctTitles(Extract(pages, title, outline, bottoms, doc).value)
  {
    var ms := Markers(pages, title, outline);
    MarkersSortedUnique(pages, title, outline);
    assert forall a, b :: 0 <= a < b < |ms| ==> ms[a].text != ms[b].text;
    SectionTitlesDistinct(pages, ms, |ms|, bottoms, outline, doc);
  }
}
