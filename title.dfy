/**
 * Title detection: the first merged line of the first page that is high on
 * the page, bold, about as large as the title band, roughly centred and
 * longer than five words; its text is cleaned of a known boilerplate line
 * and of a trailing "Introduction"-like phrase, and kept only if three or
 * more words remain.
 */
module Title {
  import opened Wrappers
  import opened Text
  import opened Layout
  import opened Patterns
  import Seqs

  /**
   * The centring test. The line's own right edge stands in for the page
   * width (600 when it is not positive), so for a positive x1 the test only
   * looks at the left edge: see CenteredByLeftEdge.
   */
  predicate IsRoughlyCentered(l: Line) {
    var pageWidth := if l.x1 > 0.0 then l.x1 else 600.0;
    var textCenter := (l.x0 + l.x1) / 2.0;
    Abs(textCenter - pageWidth / 2.0) < 100.0
  }

  lemma CenteredByLeftEdge(l: Line)
    requires l.x1 > 0.0
    ensures IsRoughlyCentered(l) <==> Abs(l.x0) < 200.0
  {
    assert (l.x0 + l.x1) / 2.0 - l.x1 / 2.0 == l.x0 / 2.0;
  }

  /** The conditions a page-0 line must meet to be taken as the title. */
  predicate IsTitleLine(l: Line, titleSize: real) {
    && l.y0 < 250.0
    && l.bold
    && l.size >= titleSize * 0.9
    && IsRoughlyCentered(l)
    && WordCount(Strip(l.text)) > 5
  }

  /** The boilerplate line, in lower case; four digits (a year) follow it. */
  const Boilerplate: string := "rfp: to develop the ontario digital library business plan march "

  /** The boilerplate pattern matches at the start of s, ignoring case. */
  predicate BoilerplateAt(s: string) {
    && StartsWithNoCase(s, Boilerplate)
    && |Boilerplate| + 4 <= |s|
    && AllDigits(s[|Boilerplate|..|Boilerplate| + 4])
  }

  /** `re.sub` of the boilerplate pattern with "": every leftmost, non-overlapping match removed. */
  function RemoveBoilerplate(s: string): (r: string)
    ensures |r| <= |s|
    decreases |s|
  {
    if s == [] then []
    else if BoilerplateAt(s) then RemoveBoilerplate(s[|Boilerplate| + 4..])
    else [s[0]] + RemoveBoilerplate(s[1..])
  }

  /** A text without the boilerplate is left as it is. */
  lemma {:induction false} NoBoilerplateUnchanged(s: string)
    requires forall i :: 0 <= i <= |s| ==> !BoilerplateAt(s[i..])
    ensures RemoveBoilerplate(s) == s
    decreases |s|
  {
    if s != [] {
      assert s[0..] == s;
      forall i | 0 <= i <= |s| - 1 ensures !BoilerplateAt(s[1..][i..]) {
        assert s[1..][i..] == s[i + 1..];
      }
      NoBoilerplateUnchanged(s[1..]);
      assert s == [s[0]] + s[1..];
    }
  }

  /**
   * One of the trailing phrases, ignoring case, starts at index i:
   * Introduction, Overview, Summary, A Comprehensive Guide, Ultimate Guide,
   * A Culinary Journey, A Historical Journey.
   */
  predicate PhraseAt(s: string, i: nat)
    requires i <= |s|
  {
    var t := s[i..];
    || StartsWithNoCase(t, "introduction")
    || StartsWithNoCase(t, "overview")
    || StartsWithNoCase(t, "summary")
    || StartsWithNoCase(t, "a comprehensive guide")
    || StartsWithNoCase(t, "ultimate guide")
    || StartsWithNoCase(t, "a culinary journey")
    || StartsWithNoCase(t, "a historical journey")
  }

  /** The first index from i on where a phrase starts. */
  function FirstPhrase(s: string, i: nat): (r: Option<nat>)
    requires i <= |s|
    ensures r.Some? ==> i <= r.value <= |s| && PhraseAt(s, r.value)
    ensures forall j :: i <= j <= |s| && (r.None? || j < r.value) ==> !PhraseAt(s, j)
    decreases |s| - i
  {
    if PhraseAt(s, i) then Some(i)
    else if i == |s| then None
    else FirstPhrase(s, i + 1)
  }

  /**
   * `re.search(r'\s*(?:phrases)(?:.*)', t, IGNORECASE | DOTALL)` and a cut at
   * the start of the match: the leftmost match starts with the whitespace
   * just before the first phrase; what comes before it is kept, stripped.
   */
  function CutAtPhrase(t: string): string {
    match FirstPhrase(t, 0)
    case None => t
    case Some(q) => Strip(t[..BackSpaces(t, 0, q)])
  }

  /** Cutting before the whitespace that precedes the phrase is cutting at the phrase. */
  lemma CutAtPhraseIsCutAtFirst(t: string, q: nat)
    requires FirstPhrase(t, 0) == Some(q)
    ensures CutAtPhrase(t) == Strip(t[..q])
  {
    BackSpacesFacts(t, 0, q);
    StripCutSpaces(t, BackSpaces(t, 0, q), q);
  }

  /** Whitespace at the end of a text does not survive a strip. */
  lemma StripCutSpaces(t: string, p: nat, q: nat)
    requires p <= q <= |t|
    requires forall k :: p <= k < q ==> IsSpace(t[k])
    ensures Strip(t[..p]) == Strip(t[..q])
  {
    var u, v := t[..p], t[..q];
    var a, b := StripSlice(u);
    var c, d := StripSlice(v);
    assert forall k :: 0 <= k < p ==> u[k] == v[k];
    forall k | 0 <= k < a ensures IsSpace(v[k]) {
      assert u[..a][k] == u[k];
    }
    forall k | b <= k < q ensures IsSpace(v[k]) {
      if k < p {
        assert u[b..][k - b] == u[k];
      }
    }
    if a < b {
      SliceBetweenSpaces(v, a, b, c, d);
      assert v[a..b] == u[a..b];
    } else {
      AllSpaceStrip(v, c, d);
    }
  }

  /** The slice that a strip keeps is the one between the outer whitespace runs. */
  lemma SliceBetweenSpaces(v: string, a: nat, b: nat, c: nat, d: nat)
    requires a < b <= |v| && c <= d <= |v|
    requires !IsSpace(v[a]) && !IsSpace(v[b - 1])
    requires forall k :: 0 <= k < a ==> IsSpace(v[k])
    requires forall k :: b <= k < |v| ==> IsSpace(v[k])
    requires forall k :: 0 <= k < c ==> IsSpace(v[k])
    requires forall k :: d <= k < |v| ==> IsSpace(v[k])
    requires c < d ==> !IsSpace(v[c]) && !IsSpace(v[d - 1])
    ensures c == a && d == b
  {
  }

  lemma AllSpaceStrip(v: string, c: nat, d: nat)
    requires forall k :: 0 <= k < |v| ==> IsSpace(v[k])
    requires c <= d <= |v| && (c < d ==> !IsSpace(v[c]))
    ensures c == d
  {
  }

  /** A phrase inside a part of t is a phrase of t at the matching index. */
  lemma {:induction false} PhraseInSlice(t: string, a: nat, b: nat, j: nat)
    requires a <= b <= |t| && j <= b - a
    ensures PhraseAt(t[a..b], j) ==> a + j < b && PhraseAt(t, a + j)
  {
    var u := t[a..b];
    forall ph: string | |ph| > 0 && StartsWithNoCase(u[j..], ph)
      ensures a + j < b && StartsWithNoCase(t[a + j..], ph)
    {
      assert u[j..][..|ph|] == t[a + j..][..|ph|];
    }
  }

  /**
   * After the cut the text holds none of the phrases: searching it again
   * finds nothing.
   */
  lemma {:induction false} CutRemovesPhrases(t: string)
    ensures FirstPhrase(CutAtPhrase(t), 0).None?
  {
    var r := CutAtPhrase(t);
    if FirstPhrase(t, 0).Some? {
      var q := FirstPhrase(t, 0).value;
      CutAtPhraseIsCutAtFirst(t, q);
      var a, b := StripSlice(t[..q]);
      NoPhraseBeforeFirst(t, q, a, b);
      Seqs.SliceOfPrefix(t, q, a, b);
    }
    NoPhraseNone(r);
  }

  /** No phrase starts anywhere in s. */
  predicate NoPhrase(s: string) {
    forall j :: 0 <= j <= |s| ==> !PhraseAt(s, j)
  }

  lemma NoPhraseNone(s: string)
    requires NoPhrase(s)
    ensures FirstPhrase(s, 0).None?
  {
  }

  /** No phrase starts in a part of t that ends before its first phrase. */
  lemma NoPhraseBeforeFirst(t: string, q: nat, a: nat, b: nat)
    requires FirstPhrase(t, 0) == Some(q) && a <= b <= q
    ensures NoPhrase(t[a..b])
  {
    forall j | 0 <= j <= b - a ensures !PhraseAt(t[a..b], j) {
      PhraseInSlice(t, a, b, j);
    }
  }

  /**
   * The cleaning applied to the chosen line: strip, drop backslashes, strip,
   * remove the boilerplate, cut at the first phrase, and give up on fewer
   * than three words.
   */
  function CleanTitle(text: string): (r: string)
    ensures r == [] || WordCount(r) >= 3
  {
    var t := Strip(RemoveChar(Strip(text), '\\'));
    var cut := CutAtPhrase(RemoveBoilerplate(t));
    if WordCount(cut) < 3 then "" else cut
  }

  /** The cleaned title contains none of the trailing phrases. */
  lemma CleanTitleHasNoPhrase(text: string)
    ensures FirstPhrase(CleanTitle(text), 0).None?
  {
    var t := Strip(RemoveChar(Strip(text), '\\'));
    CutRemovesPhrases(RemoveBoilerplate(t));
    if CleanTitle(text) == "" {
      assert !PhraseAt("", 0);
    }
  }

  /** The index of the first title line among lines k.. of the first page. */
  function FirstTitleLine(lines: seq<Line>, titleSize: real, k: nat): (r: Option<nat>)
    requires k <= |lines|
    ensures r.Some? ==> k <= r.value < |lines| && IsTitleLine(lines[r.value], titleSize)
    ensures forall j :: k <= j < |lines| && (r.None? || j < r.value) ==> !IsTitleLine(lines[j], titleSize)
    decreases |lines| - k
  {
    if k == |lines| then None
    else if IsTitleLine(lines[k], titleSize) then Some(k)
    else FirstTitleLine(lines, titleSize, k + 1)
  }

  /** The title text: the cleaned text of the first title line, or "" without one. */
  function DetectedTitle(lines: seq<Line>, titleSize: real): string {
    match FirstTitleLine(lines, titleSize, 0)
    case None => ""
    case Some(k) => CleanTitle(lines[k].text)
  }

  /** The scan over the first page's lines, which stops at the first title line. */
  method DetectTitle(lines: seq<Line>, titleSize: real) returns (title: string)
    ensures title == DetectedTitle(lines, titleSize)
  {
    title := "";
    var k := 0;
    while k < |lines|
      invariant k <= |lines|
      invariant FirstTitleLine(lines, titleSize, 0) == FirstTitleLine(lines, titleSize, k)
      decreases |lines| - k
    {
      var l := lines[k];
      var text := Strip(l.text);
      if l.y0 < 250.0 && l.bold && l.size >= titleSize * 0.9 && IsRoughlyCentered(l) && WordCount(text) > 5 {
        title := CleanTitle(l.text);
        break;
      }
      k := k + 1;
    }
  }

  /**
   * What identify_headings returns as the title: empty, or at least three
   * words taken from the first title line of the first page, with no
   * trailing phrase. A later title line is never tried, even when the first
   * one cleans to nothing.
   */
  lemma {:induction false} TitleShape(lines: seq<Line>, titleSize: real)
    ensures var t := Strip(DetectedTitle(lines, titleSize));
      && (t == [] || WordCount(t) >= 3)
      && (t != [] ==>
            exists k :: (&& 0 <= k < |lines|
                         && IsTitleLine(lines[k], titleSize)
                         && (forall j :: 0 <= j < k ==> !IsTitleLine(lines[j], titleSize))
                         && t == Strip(CleanTitle(lines[k].text))))
  {
    var d := DetectedTitle(lines, titleSize);
    WordCountStrip(d);
    if Strip(d) != [] {
      var k := FirstTitleLine(lines, titleSize, 0).value;
      assert IsTitleLine(lines[k], titleSize);
    }
  }
}
