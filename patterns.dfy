/**
 * The regular expressions of the structure-inference engine, each written
 * out as the set of strings it matches (Python `re.match` semantics: the
 * match is anchored at the start; `$` also matches before a final newline).
 * Character classes are the ASCII ones.
 */
module Patterns {
  import opened Wrappers
  import opened Text

  /** The length of the leading run of digits. */
  function DigitRun(s: string): (n: nat)
    ensures n <= |s| && AllDigits(s[..n])
    ensures n == |s| || !IsDigit(s[n])
  {
    if s != [] && IsDigit(s[0]) then
      var n := 1 + DigitRun(s[1..]);
      assert s[..n] == [s[0]] + s[1..][..n - 1];
      n
    else 0
  }

  /** The text starts with `prefix`, ignoring ASCII case; `prefix` is given in lower case. */
  predicate StartsWithNoCase(s: string, prefix: string) {
    |prefix| <= |s| && Lower(s[..|prefix|]) == prefix
  }

  /** `\s+\d+` at the start of s; the text after the digits. */
  function SpacesThenDigits(s: string): (r: Option<string>)
    ensures r.Some? ==> |r.value| < |s| && r.value == s[|s| - |r.value|..]
  {
    if s == [] || !IsSpace(s[0]) then None
    else
      var u := TrimStart(s);
      var n := DigitRun(u);
      if n == 0 then None else Some(u[n..])
  }

  /** `^\s*Page\s+\d+\s+of\s+\d+\s*$`, ignoring case. */
  predicate IsPageOfTotal(s: string) {
    var t := TrimStart(s);
    StartsWithNoCase(t, "page") &&
    match SpacesThenDigits(t[4..])
    case None => false
    case Some(r1) =>
      r1 != [] && IsSpace(r1[0]) &&
      var u := TrimStart(r1);
      StartsWithNoCase(u, "of") &&
      match SpacesThenDigits(u[2..])
      case None => false
      case Some(r2) => AllSpace(r2)
  }

  /** `^\s*\d+\s*$`. */
  predicate IsBareInteger(s: string) {
    var u := TrimStart(s);
    var n := DigitRun(u);
    n > 0 && AllSpace(u[n..])
  }

  /** `^\s*-\s*\d+\s*-\s*$`, a page number such as "- 3 -". */
  predicate IsDashedNumber(s: string) {
    var u := TrimStart(s);
    u != [] && u[0] == '-' &&
    var v := TrimStart(u[1..]);
    var n := DigitRun(v);
    n > 0 &&
    var w := TrimStart(v[n..]);
    w != [] && w[0] == '-' && AllSpace(w[1..])
  }

  predicate IsLetterOrSpace(c: char) {
    IsAsciiLetter(c) || IsSpace(c)
  }

  predicate AllLetterOrSpace(s: string) {
    forall i :: 0 <= i < |s| ==> IsLetterOrSpace(s[i])
  }

  /**
   * `^\s*[A-Za-z\s]+\s+\|\s+[A-Za-z\s]+\s*$`, a running header such as
   * "Annual Report | Finance": letters and spaces on both sides of one bar,
   * with whitespace next to the bar and at least one more character beyond it.
   */
  predicate IsRunningHeader(s: string) {
    exists k | 0 <= k < |s| ::
      && s[k] == '|'
      && k >= 2 && AllLetterOrSpace(s[..k]) && IsSpace(s[k - 1])
      && |s| - k - 1 >= 2 && AllLetterOrSpace(s[k + 1..]) && IsSpace(s[k + 1])
  }

  /** `^\d+\.`: digits and a dot at the very start. */
  predicate StartsWithNumberDot(s: string) {
    var n := DigitRun(s);
    0 < n < |s| && s[n] == '.'
  }

  /** `^\s*\d+\.\s+.*`: a numbered list item such as "3. apples". */
  predicate IsNumberedListItem(s: string) {
    var u := TrimStart(s);
    var n := DigitRun(u);
    0 < n && n + 1 < |u| && u[n] == '.' && IsSpace(u[n + 1])
  }

  predicate IsBullet(c: char) {
    c == '-' || c == '•' || c == '–' || c == '—'
  }

  /** `^\s*[-•–—]\s+.`: a bullet, whitespace, then a character other than a newline. */
  predicate IsBulletItem(s: string) {
    var u := TrimStart(s);
    u != [] && IsBullet(u[0]) &&
    exists p | 1 < p < |u| :: AllSpace(u[1..p]) && u[p] != '\n'
  }

  /** `^\(.+\)` followed by the end of the text, with no newline inside. */
  predicate ParenthesizedLine(s: string) {
    |s| >= 3 && s[0] == '(' && s[|s| - 1] == ')' &&
    forall i :: 1 <= i < |s| - 1 ==> s[i] != '\n'
  }

  /** `^\(.+\)$`. */
  predicate IsParenthesized(s: string) {
    ParenthesizedLine(s) || (s != [] && s[|s| - 1] == '\n' && ParenthesizedLine(s[..|s| - 1]))
  }

  /** Openings that mark a line as the continuation of running text. */
  predicate StartsWithContinuation(s: string) {
    || StartsWith(s, ":") || StartsWith(s, "—") || StartsWith(s, "–")
    || StartsWith(s, "-") || StartsWith(s, ";") || StartsWith(s, "and")
    || StartsWith(s, "or") || StartsWith(s, "the") || StartsWith(s, "a ")
    || StartsWith(s, "an ")
  }

  /** The length of the `(?:\.\d+)*` groups at the start of s. */
  function DotGroups(s: string): (n: nat)
    ensures n <= |s|
    ensures forall i :: 0 <= i < n ==> IsDigit(s[i]) || s[i] == '.'
    ensures n > 0 ==> n == |s| || !IsDigit(s[n])
    decreases |s|
  {
    if |s| >= 2 && s[0] == '.' && IsDigit(s[1]) then
      var t := s[1..];
      var m := DigitRun(t);
      var u := t[m..];
      var rest := DotGroups(u);
      DotGroupsStep(s, m, u, rest);
      1 + m + rest
    else 0
  }

  lemma DotGroupsStep(s: string, m: nat, u: string, rest: nat)
    requires 1 <= |s| && s[0] == '.'
    requires m <= |s| - 1 && AllDigits(s[1..][..m])
    requires u == s[1 + m..] && rest <= |u|
    requires forall i :: 0 <= i < rest ==> IsDigit(u[i]) || u[i] == '.'
    ensures forall i :: 0 <= i < 1 + m + rest ==> IsDigit(s[i]) || s[i] == '.'
  {
    forall i | 0 <= i < 1 + m + rest ensures IsDigit(s[i]) || s[i] == '.' {
      if 1 <= i < 1 + m {
        assert s[1..][..m][i - 1] == s[i];
      } else if i >= 1 + m {
        assert u[i - 1 - m] == s[i];
      }
    }
  }

  /** The length of `\d+(?:\.\d+)*` at the start of s (0 when s does not start with a digit). */
  function NumberPrefixLength(s: string): (n: nat)
    ensures n <= |s|
    ensures n > 0 ==> IsDigit(s[0])
    ensures forall i :: 0 <= i < n ==> IsDigit(s[i]) || s[i] == '.'
    ensures n == |s| || !IsDigit(s[n])
  {
    var d := DigitRun(s);
    if d == 0 then 0
    else
      var g := DotGroups(s[d..]);
      assert forall i :: d <= i < d + g ==> s[i] == s[d..][i - d];
      assert forall i :: 0 <= i < d ==> s[i] == s[..d][i];
      d + g
  }

  /** The text before the first newline (what `.+` can reach). */
  function TakeLine(s: string): (r: string)
    ensures |r| <= |s| && r == s[..|r|]
    ensures forall i :: 0 <= i < |r| ==> r[i] != '\n'
    ensures |r| == |s| || s[|r|] == '\n'
  {
    if s == [] || s[0] == '\n' then []
    else
      var t := TakeLine(s[1..]);
      assert [s[0]] + t == s[..1 + |t|];
      [s[0]] + t
  }

  /** The two groups of `^(\d+(?:\.\d+)*)\s+(.+)`, the second one stripped. */
  datatype NumberedMatch = NumberedMatch(prefix: string, rest: string)

  /**
   * `re.match(r"^(\d+(?:\.\d+)*)\s+(.+)", s)`. The number is the longest
   * digits-and-dots prefix: a shorter one would be followed by a digit or
   * a dot, never by whitespace. When only whitespace follows the number, the
   * match still succeeds by giving back whitespace to `.+`, provided a
   * non-newline character sits after the first one; the stripped second
   * group is then empty.
   */
  function MatchNumbered(s: string): (r: Option<NumberedMatch>)
    ensures r.Some? ==>
      && r.value.prefix != [] && IsDigit(r.value.prefix[0])
      && |r.value.prefix| < |s| && s[..|r.value.prefix|] == r.value.prefix
      && IsSpace(s[|r.value.prefix|])
      && (forall i :: 0 <= i < |r.value.prefix| ==> IsDigit(r.value.prefix[i]) || r.value.prefix[i] == '.')
    ensures r.None? && s != [] && IsDigit(s[0]) ==>
      var p := NumberPrefixLength(s);
      p == |s| || !IsSpace(s[p]) || TrimStart(s[p..]) == [] 
  {
    var p := NumberPrefixLength(s);
    if p == 0 || p == |s| || !IsSpace(s[p]) then None
    else
      var after := s[p..];
      var body := TrimStart(after);
      if body != [] then Some(NumberedMatch(s[..p], Strip(TakeLine(body))))
      else if exists i | 1 <= i < |after| :: after[i] != '\n' then Some(NumberedMatch(s[..p], ""))
      else None
  }
}
