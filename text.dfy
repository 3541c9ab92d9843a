/**
 * Character classes and string operations that both engines use: the
 * whitespace trimming and word splitting of Python strings, substring search
 * and non-overlapping occurrence counting, and joining with a separator.
 * Character classes are the ASCII ones.
 */
module Text {

  /**
   * Whitespace as str.split(), str.strip() and the regex class \s see it
   * (ASCII part): space, tab, the line breaks \n, \v, \f, \r and the
   * separators \x1c to \x1f.
   */
  predicate IsSpace(c: char) {
    || c == ' ' || c == '\t' || c == '\n' || c == '\r' || c == '\U{B}' || c == '\U{C}'
    || ('\U{1C}' <= c <= '\U{1F}')
  }

  predicate IsDigit(c: char) {
    '0' <= c <= '9'
  }

  predicate IsAsciiLetter(c: char) {
    'A' <= c <= 'Z' || 'a' <= c <= 'z'
  }

  /** The regex class \w. */
  predicate IsWordChar(c: char) {
    IsAsciiLetter(c) || IsDigit(c) || c == '_'
  }

  predicate IsSentencePunct(c: char) {
    c == '.' || c == '!' || c == '?'
  }

  predicate IsUpper(c: char) {
    'A' <= c <= 'Z'
  }

  function LowerChar(c: char): (r: char)
    ensures !IsUpper(r)
    ensures IsWordChar(r) <==> IsWordChar(c)
  {
    if IsUpper(c) then (c as int + 32) as char else c
  }

  /** str.lower(). */
  function Lower(s: string): (r: string)
    ensures |r| == |s|
    ensures forall i :: 0 <= i < |s| ==> r[i] == LowerChar(s[i])
  {
    seq(|s|, i requires 0 <= i < |s| => LowerChar(s[i]))
  }

  predicate AllSpace(s: string) {
    forall i :: 0 <= i < |s| ==> IsSpace(s[i])
  }

  predicate AllDigits(s: string) {
    forall i :: 0 <= i < |s| ==> IsDigit(s[i])
  }

  /** The first index at or after i that does not hold whitespace, or |s|. */
  function SkipSpaces(s: string, i: nat): (r: nat)
    requires i <= |s|
    ensures i <= r <= |s|
    decreases |s| - i
  {
    if i < |s| && IsSpace(s[i]) then SkipSpaces(s, i + 1) else i
  }

  lemma {:induction false} SkipSpacesFacts(s: string, i: nat)
    requires i <= |s|
    ensures forall k :: i <= k < SkipSpaces(s, i) ==> IsSpace(s[k])
    ensures SkipSpaces(s, i) < |s| ==> !IsSpace(s[SkipSpaces(s, i)])
    decreases |s| - i
  {
    if i < |s| && IsSpace(s[i]) {
      SkipSpacesFacts(s, i + 1);
    }
  }

  /** The end of s[lo..j] once its trailing whitespace is cut. */
  function BackSpaces(s: string, lo: nat, j: nat): (r: nat)
    requires lo <= j <= |s|
    ensures lo <= r <= j
    decreases j
  {
    if j > lo && IsSpace(s[j - 1]) then BackSpaces(s, lo, j - 1) else j
  }

  lemma {:induction false} BackSpacesFacts(s: string, lo: nat, j: nat)
    requires lo <= j <= |s|
    ensures forall k :: BackSpaces(s, lo, j) <= k < j ==> IsSpace(s[k])
    ensures BackSpaces(s, lo, j) > lo ==> !IsSpace(s[BackSpaces(s, lo, j) - 1])
    decreases j
  {
    if j > lo && IsSpace(s[j - 1]) {
      BackSpacesFacts(s, lo, j - 1);
    }
  }

  /** str.lstrip(): the input without its leading whitespace. */
  function TrimStart(s: string): (r: string)
    ensures |r| <= |s| && r == s[|s| - |r|..]
  {
    s[SkipSpaces(s, 0)..]
  }

  /** Only whitespace is cut, and all of it. */
  lemma TrimStartCuts(s: string)
    ensures TrimStart(s) == [] || !IsSpace(TrimStart(s)[0])
    ensures AllSpace(s[..|s| - |TrimStart(s)|])
  {
    SkipSpacesFacts(s, 0);
  }

  /** str.rstrip(): the input without its trailing whitespace. */
  function TrimEnd(s: string): (r: string)
    ensures |r| <= |s| && r == s[..|r|]
  {
    s[..BackSpaces(s, 0, |s|)]
  }

  lemma TrimEndCuts(s: string)
    ensures TrimEnd(s) == [] || !IsSpace(TrimEnd(s)[|TrimEnd(s)| - 1])
    ensures AllSpace(s[|TrimEnd(s)|..])
  {
    BackSpacesFacts(s, 0, |s|);
  }

  /** str.strip(): the input without whitespace at either end. */
  function Strip(s: string): (r: string)
    ensures |r| <= |s|
  {
    var a := SkipSpaces(s, 0);
    s[a..BackSpaces(s, a, |s|)]
  }

  /** Stripping cuts whitespace off both ends and nothing else. */
  lemma StripSlice(s: string) returns (a: nat, b: nat)
    ensures a <= b <= |s| && Strip(s) == s[a..b]
    ensures AllSpace(s[..a]) && AllSpace(s[b..])
    ensures forall k :: 0 <= k < a ==> IsSpace(s[k])
    ensures forall k :: b <= k < |s| ==> IsSpace(s[k])
    ensures a < b ==> !IsSpace(s[a]) && !IsSpace(s[b - 1])
  {
    a := SkipSpaces(s, 0);
    b := BackSpaces(s, a, |s|);
    SkipSpacesFacts(s, 0);
    BackSpacesFacts(s, a, |s|);
  }

  /**
   * The number of words that start in s: a non-whitespace character whose
   * predecessor is whitespace (or, for the first character, when
   * `afterSpace` holds).
   */
  function WordStarts(s: string, afterSpace: bool): nat {
    if s == [] then 0
    else (if afterSpace && !IsSpace(s[0]) then 1 else 0) + WordStarts(s[1..], IsSpace(s[0]))
  }

  /** len(s.split()): the number of maximal runs of non-whitespace. */
  function WordCount(s: string): nat {
    WordStarts(s, true)
  }

  lemma {:induction false} WordStartsAllSpace(w: string, p: bool)
    requires AllSpace(w)
    ensures WordStarts(w, p) == 0
  {
    if w != [] {
      WordStartsAllSpace(w[1..], true);
    }
  }

  lemma {:induction false} WordCountAppendSpaces(s: string, w: string, p: bool)
    requires AllSpace(w)
    ensures WordStarts(s + w, p) == WordStarts(s, p)
  {
    if s == [] {
      assert s + w == w;
      WordStartsAllSpace(w, p);
    } else {
      assert (s + w)[1..] == s[1..] + w;
      WordCountAppendSpaces(s[1..], w, IsSpace(s[0]));
    }
  }

  lemma {:induction false} WordCountPrependSpaces(w: string, s: string)
    requires AllSpace(w)
    ensures WordStarts(w + s, true) == WordStarts(s, true)
  {
    if w != [] {
      assert (w + s)[1..] == w[1..] + s;
      WordCountPrependSpaces(w[1..], s);
    } else {
      assert w + s == s;
    }
  }

  lemma WordCountAround(s: string, a: nat, b: nat)
    requires a <= b <= |s| && AllSpace(s[..a]) && AllSpace(s[b..])
    ensures WordCount(s[a..b]) == WordCount(s)
  {
    var x, y, z := s[..a], s[a..b], s[b..];
    assert WordCount(s) == WordCount(y + z) by {
      assert y + z == s[a..];
      assert s == x + s[a..];
      WordCountPrependSpaces(x, y + z);
    }
    WordCountAppendSpaces(y, z, true);
  }

  /** Stripping never changes how many words a string has. */
  lemma WordCountStrip(s: string)
    ensures WordCount(Strip(s)) == WordCount(s)
  {
    var a, b := StripSlice(s);
    WordCountAround(s, a, b);
  }

  /** The text ends in `.`, `!` or `?` (the regex `[.!?]$` on a stripped string). */
  predicate EndsWithSentencePunct(s: string) {
    s != [] && IsSentencePunct(s[|s| - 1])
  }

  /** The last character that is not whitespace is `.`, `!` or `?`. */
  predicate EndsSentence(s: string) {
    s != [] && (if IsSpace(s[|s| - 1]) then EndsSentence(s[..|s| - 1]) else IsSentencePunct(s[|s| - 1]))
  }

  lemma {:induction false} EndsSentenceTrailing(x: string, w: string)
    requires AllSpace(w)
    ensures EndsSentence(x + w) == EndsSentence(x)
    decreases |w|
  {
    if w != [] {
      var w' := w[..|w| - 1];
      assert (x + w)[..|x + w| - 1] == x + w';
      EndsSentenceTrailing(x, w');
    } else {
      assert x + w == x;
    }
  }

  lemma {:induction false} AllSpaceEndsNoSentence(x: string)
    requires AllSpace(x)
    ensures !EndsSentence(x)
    decreases |x|
  {
    if x != [] {
      AllSpaceEndsNoSentence(x[..|x| - 1]);
    }
  }

  /** Testing the stripped text for `[.!?]$` is testing its last non-whitespace character. */
  lemma EndsSentenceStrip(s: string)
    ensures EndsSentence(s) == EndsWithSentencePunct(Strip(s))
  {
    var a, b := StripSlice(s);
    assert s == s[..b] + s[b..];
    EndsSentenceTrailing(s[..b], s[b..]);
    if a == b {
      var x := s[..b];
      assert x == s[..a];
      AllSpaceEndsNoSentence(x);
    } else {
      assert s[..b][b - 1] == s[b - 1] == Strip(s)[|Strip(s)| - 1];
    }
  }

  predicate StartsWith(s: string, prefix: string) {
    |prefix| <= |s| && s[..|prefix|] == prefix
  }

  predicate OccursAt(sub: string, s: string, i: int) {
    0 <= i && i + |sub| <= |s| && s[i..i + |sub|] == sub
  }

  /** Python's `sub in s`. */
  predicate IsSubstring(sub: string, s: string) {
    exists i | 0 <= i <= |s| - |sub| :: OccursAt(sub, s, i)
  }

  /** s.count(sub): leftmost, non-overlapping occurrences; |s| + 1 for the empty pattern. */
  function CountOccurrences(s: string, sub: string): nat
    decreases |s|
  {
    if |sub| == 0 then |s| + 1
    else if |s| < |sub| then 0
    else if s[..|sub|] == sub then 1 + CountOccurrences(s[|sub|..], sub)
    else CountOccurrences(s[1..], sub)
  }

  lemma OccursInSuffix(sub: string, s: string, d: nat, i: int)
    requires d <= |s| && OccursAt(sub, s[d..], i)
    ensures OccursAt(sub, s, i + d)
  {
    assert s[d..][i..i + |sub|] == s[i + d..i + d + |sub|];
  }

  /** The count is positive exactly when the pattern occurs at all. */
  lemma {:induction false} CountPositiveIff(s: string, sub: string)
    ensures CountOccurrences(s, sub) > 0 <==> IsSubstring(sub, s)
    decreases |s|
  {
    if |sub| == 0 {
      assert OccursAt(sub, s, 0);
    } else if |s| < |sub| {
    } else if s[..|sub|] == sub {
      assert OccursAt(sub, s, 0);
    } else {
      CountPositiveIff(s[1..], sub);
      if IsSubstring(sub, s) {
        var i :| 0 <= i <= |s| - |sub| && OccursAt(sub, s, i);
        assert i != 0;
        assert s[1..][i - 1..i - 1 + |sub|] == s[i..i + |sub|];
        assert OccursAt(sub, s[1..], i - 1);
      }
      if IsSubstring(sub, s[1..]) {
        var i :| 0 <= i <= |s[1..]| - |sub| && OccursAt(sub, s[1..], i);
        OccursInSuffix(sub, s, 1, i);
      }
    }
  }

  lemma MulSucc(c: nat, n: nat)
    ensures (c + 1) * n == c * n + n
  {
  }

  /** Occurrences do not overlap: together they never need more room than the text has. */
  lemma {:induction false} CountBound(s: string, sub: string)
    requires |sub| > 0
    ensures CountOccurrences(s, sub) * |sub| <= |s|
    decreases |s|
  {
    if |s| < |sub| {
    } else if s[..|sub|] == sub {
      var c := CountOccurrences(s[|sub|..], sub);
      CountBound(s[|sub|..], sub);
      assert CountOccurrences(s, sub) == c + 1;
      MulSucc(c, |sub|);
    } else {
      CountBound(s[1..], sub);
    }
  }

  /** sep.join(parts), built left to right as the source's loops do. */
  function JoinWith(sep: string, parts: seq<string>): string
    decreases |parts|
  {
    if parts == [] then ""
    else if |parts| == 1 then parts[0]
    else JoinWith(sep, parts[..|parts| - 1]) + sep + parts[|parts| - 1]
  }

  /** Every part appears in the joined text, in order, separated by exactly one separator. */
  lemma {:induction false} JoinWithAppend(sep: string, parts: seq<string>, p: string)
    requires parts != []
    ensures JoinWith(sep, parts + [p]) == JoinWith(sep, parts) + sep + p
  {
    assert (parts + [p])[..|parts|] == parts;
  }

  /** Each part occurs in the joined text. */
  lemma {:induction false} JoinWithContains(sep: string, parts: seq<string>, k: nat)
    requires k < |parts|
    ensures IsSubstring(parts[k], JoinWith(sep, parts))
    decreases |parts|
  {
    var n := |parts|;
    var joined := JoinWith(sep, parts);
    if n == 1 {
      assert OccursAt(parts[k], joined, 0);
    } else {
      var front := JoinWith(sep, parts[..n - 1]);
      if k == n - 1 {
        assert joined[|front| + |sep|..] == parts[k];
        assert OccursAt(parts[k], joined, |front| + |sep|);
      } else {
        JoinWithContains(sep, parts[..n - 1], k);
        var i :| 0 <= i <= |front| - |parts[k]| && OccursAt(parts[k], front, i);
        assert joined[i..i + |parts[k]|] == front[i..i + |parts[k]|];
        assert OccursAt(parts[k], joined, i);
      }
    }
  }

  /** Lower-casing a slice is slicing the lower-cased text. */
  lemma LowerSlice(s: string, a: nat, b: nat)
    requires a <= b <= |s|
    ensures Lower(s[a..b]) == Lower(s)[a..b]
  {
    var t, u := s[a..b], Lower(s);
    forall k | 0 <= k < b - a
      ensures Lower(t)[k] == u[a..b][k]
    {
      assert t[k] == s[a + k];
      assert u[a + k] == LowerChar(s[a + k]);
    }
  }

  /** Occurring in a part of the lower-cased text is occurring in the lower-cased text. */
  lemma SubstringOfLowerPart(w: string, t: string, s: string)
    requires IsSubstring(w, Lower(t)) && IsSubstring(t, s)
    ensures IsSubstring(w, Lower(s))
  {
    var p :| 0 <= p <= |s| - |t| && OccursAt(t, s, p);
    var i :| 0 <= i <= |t| - |w| && OccursAt(w, Lower(t), i);
    var ls := Lower(s);
    LowerSlice(s, p, p + |t|);
    assert ls[p..p + |t|] == Lower(t);
    assert ls[p + i..p + i + |w|] == ls[p..p + |t|][i..i + |w|];
    assert OccursAt(w, ls, p + i);
  }

  function RemoveChar(s: string, c: char): (r: string)
    ensures forall i :: 0 <= i < |r| ==> r[i] != c
    ensures |r| <= |s|
  {
    if s == [] then [] else (if s[0] == c then [] else [s[0]]) + RemoveChar(s[1..], c)
  }

  function CountChar(s: string, c: char): nat {
    if s == [] then 0 else (if s[0] == c then 1 else 0) + CountChar(s[1..], c)
  }

  function Abs(x: real): real {
    if x < 0.0 then -x else x
  }

  function MaxReal(a: real, b: real): real {
    if a >= b then a else b
  }
}
