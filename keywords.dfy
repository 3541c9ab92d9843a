/**
 * Keyword extraction of the persona analyser. The lower-cased text is cut
 * into its maximal runs of word characters, which is what a findall of
 * \b\w+\b returns, and the runs that are not stopwords and have more than
 * two characters are the keywords, in order and with their repetitions.
 */
module Keywords {
  import opened Text

  /** The end of the run of word characters that starts at i. */
  function WordEnd(s: string, i: nat): (e: nat)
    requires i <= |s|
    ensures i <= e <= |s|
    ensures forall k :: i <= k < e ==> IsWordChar(s[k])
    ensures e == |s| || !IsWordChar(s[e])
    decreases |s| - i
  {
    if i == |s| || !IsWordChar(s[i]) then i else WordEnd(s, i + 1)
  }

  /** The runs of word characters of s from position i on, left to right. */
  function TokensFrom(s: string, i: nat): seq<string>
    requires i <= |s|
    decreases |s| - i
  {
    if i == |s| then []
    else if !IsWordChar(s[i]) then TokensFrom(s, i + 1)
    else
      var e := WordEnd(s, i);
      [s[i..e]] + TokensFrom(s, e)
  }

  /** re.findall(r'\b\w+\b', s). */
  function Tokens(s: string): seq<string> {
    TokensFrom(s, 0)
  }

  /** s[a..b] is a maximal run of word characters. */
  predicate IsRun(s: string, a: nat, b: nat) {
    && a < b <= |s|
    && (forall k :: a <= k < b ==> IsWordChar(s[k]))
    && (a == 0 || !IsWordChar(s[a - 1]))
    && (b == |s| || !IsWordChar(s[b]))
  }

  /** t is the text of a maximal run that starts at or after i. */
  predicate RunFrom(s: string, i: nat, t: string) {
    exists a, b | i <= a < b <= |s| :: IsRun(s, a, b) && s[a..b] == t
  }

  /** Scanning never starts in the middle of a run. */
  predicate ScanStart(s: string, i: nat) {
    i <= |s| && (i == 0 || i == |s| || !IsWordChar(s[i - 1]) || !IsWordChar(s[i]))
  }

  /** Every token is a maximal run of word characters. */
  lemma {:induction false} TokensAreRuns(s: string, i: nat)
    requires ScanStart(s, i)
    ensures forall t :: t in TokensFrom(s, i) ==> RunFrom(s, i, t)
    decreases |s| - i
  {
    if i < |s| {
      if !IsWordChar(s[i]) {
        TokensAreRuns(s, i + 1);
        forall t | t in TokensFrom(s, i) ensures RunFrom(s, i, t) {
          assert t in TokensFrom(s, i + 1) && RunFrom(s, i + 1, t);
          var a, b :| i + 1 <= a < b <= |s| && IsRun(s, a, b) && s[a..b] == t;
        }
      } else {
        var e := WordEnd(s, i);
        TokensAreRuns(s, e);
        assert IsRun(s, i, e);
        forall t | t in TokensFrom(s, i) ensures RunFrom(s, i, t) {
          if t != s[i..e] {
            assert t in TokensFrom(s, e);
            var a, b :| e <= a < b <= |s| && IsRun(s, a, b) && s[a..b] == t;
          }
        }
      }
    }
  }

  /** Every maximal run of word characters is a token. */
  lemma {:induction false} RunsAreTokens(s: string, i: nat, a: nat, b: nat)
    requires ScanStart(s, i) && i <= a && IsRun(s, a, b)
    ensures s[a..b] in TokensFrom(s, i)
    decreases |s| - i
  {
    if i == a {
      assert WordEnd(s, i) == b;
    } else if !IsWordChar(s[i]) {
      RunsAreTokens(s, i + 1, a, b);
    } else {
      var e := WordEnd(s, i);
      assert e < a;
      RunsAreTokens(s, e, a, b);
    }
  }

  /** The tokens of s are exactly the texts of its maximal word runs. */
  lemma TokensExact(s: string, t: string)
    ensures t in Tokens(s) <==> RunFrom(s, 0, t)
  {
    TokensAreRuns(s, 0);
    if RunFrom(s, 0, t) {
      var a, b :| 0 <= a < b <= |s| && IsRun(s, a, b) && s[a..b] == t;
      RunsAreTokens(s, 0, a, b);
    }
  }

  /** The maximal runs of word characters of s from position i on, as (start, end) pairs, left to right. */
  function Runs(s: string, i: nat): seq<(nat, nat)>
    requires i <= |s|
    decreases |s| - i
  {
    if i == |s| then []
    else if !IsWordChar(s[i]) then Runs(s, i + 1)
    else
      var e := WordEnd(s, i);
      [(i, e)] + Runs(s, e)
  }

  /**
   * Order and multiplicity: the j-th token is the text of the j-th run, the
   * runs are maximal and strictly left to right, and every maximal run from
   * i on is among them, so each run gives exactly one token, in text order.
   */
  lemma {:induction false} TokensInOrder(s: string, i: nat)
    requires ScanStart(s, i)
    ensures |Runs(s, i)| == |TokensFrom(s, i)|
    ensures forall j :: 0 <= j < |Runs(s, i)| ==>
      && i <= Runs(s, i)[j].0 && IsRun(s, Runs(s, i)[j].0, Runs(s, i)[j].1)
      && TokensFrom(s, i)[j] == s[Runs(s, i)[j].0..Runs(s, i)[j].1]
    ensures forall j, k :: 0 <= j < k < |Runs(s, i)| ==> Runs(s, i)[j].1 < Runs(s, i)[k].0
    ensures forall a: nat, b: nat :: i <= a && IsRun(s, a, b) ==> (a, b) in Runs(s, i)
    decreases |s| - i
  {
    if i < |s| {
      if !IsWordChar(s[i]) {
        TokensInOrder(s, i + 1);
      } else {
        var e := WordEnd(s, i);
        TokensInOrder(s, e);
        RunsConsTexts(s, i, e);
        RunsConsOrder(s, i, e);
        RunsConsCover(s, i, e);
      }
    }
  }

  /** TokensInOrder's step for the run from i to e: the token texts. */
  lemma RunsConsTexts(s: string, i: nat, e: nat)
    requires ScanStart(s, i) && i < |s| && IsWordChar(s[i]) && e == WordEnd(s, i)
    requires |Runs(s, e)| == |TokensFrom(s, e)|
    requires forall j :: 0 <= j < |Runs(s, e)| ==>
      && e <= Runs(s, e)[j].0 && IsRun(s, Runs(s, e)[j].0, Runs(s, e)[j].1)
      && TokensFrom(s, e)[j] == s[Runs(s, e)[j].0..Runs(s, e)[j].1]
    ensures |Runs(s, i)| == |TokensFrom(s, i)|
    ensures forall j :: 0 <= j < |Runs(s, i)| ==>
      && i <= Runs(s, i)[j].0 && IsRun(s, Runs(s, i)[j].0, Runs(s, i)[j].1)
      && TokensFrom(s, i)[j] == s[Runs(s, i)[j].0..Runs(s, i)[j].1]
  {
    var r, t := Runs(s, i), TokensFrom(s, i);
    var r', t' := Runs(s, e), TokensFrom(s, e);
    assert r == [(i, e)] + r';
    assert t == [s[i..e]] + t';
    forall j | 0 <= j < |r|
      ensures i <= r[j].0 && IsRun(s, r[j].0, r[j].1) && t[j] == s[r[j].0..r[j].1]
    {
      if j == 0 {
        assert IsRun(s, i, e);
      } else {
        assert r[j] == r'[j - 1];
        assert t[j] == t'[j - 1];
      }
    }
  }

  /** TokensInOrder's step for the run from i to e: left to right. */
  lemma RunsConsOrder(s: string, i: nat, e: nat)
    requires i < |s| && IsWordChar(s[i]) && e == WordEnd(s, i)
    requires forall j :: 0 <= j < |Runs(s, e)| ==> e <= Runs(s, e)[j].0 && IsRun(s, Runs(s, e)[j].0, Runs(s, e)[j].1)
    requires forall j, k :: 0 <= j < k < |Runs(s, e)| ==> Runs(s, e)[j].1 < Runs(s, e)[k].0
    ensures forall j, k :: 0 <= j < k < |Runs(s, i)| ==> Runs(s, i)[j].1 < Runs(s, i)[k].0
  {
    var r, r' := Runs(s, i), Runs(s, e);
    assert r == [(i, e)] + r';
    forall j, k | 0 <= j < k < |r| ensures r[j].1 < r[k].0 {
      assert r[k] == r'[k - 1];
      if j > 0 {
        assert r[j] == r'[j - 1];
      } else {
        assert IsRun(s, r[k].0, r[k].1);
        assert r[k].0 != e;
      }
    }
  }

  /** TokensInOrder's step for the run from i to e: no run is missed. */
  lemma RunsConsCover(s: string, i: nat, e: nat)
    requires i < |s| && IsWordChar(s[i]) && e == WordEnd(s, i)
    requires forall a: nat, b: nat :: e <= a && IsRun(s, a, b) ==> (a, b) in Runs(s, e)
    ensures forall a: nat, b: nat :: i <= a && IsRun(s, a, b) ==> (a, b) in Runs(s, i)
  {
    assert Runs(s, i) == [(i, e)] + Runs(s, e);
    forall a: nat, b: nat | i <= a && IsRun(s, a, b) ensures (a, b) in Runs(s, i) {
      if a == i {
        assert b == e;
      } else {
        assert !IsWordChar(s[a - 1]);
        assert a > e;
      }
    }
  }

  /** The words the analyser ignores. */
  const Stopwords: set<string> := {"a", "an", "the", "and", "or", "is", "in", "of", "to", "for", "with", "on", "from", "as", "by", "that", "this", "what", "how"}

  /** A token that the comprehension keeps. */
  predicate IsKeyword(w: string) {
    w !in Stopwords && |w| > 2
  }

  /** The comprehension over the tokens, in their order. */
  function KeepKeywords(tokens: seq<string>): seq<string> {
    if tokens == [] then []
    else
      var prev := KeepKeywords(tokens[..|tokens| - 1]);
      var w := tokens[|tokens| - 1];
      if IsKeyword(w) then prev + [w] else prev
  }

  /** _extract_keywords: the kept tokens of the lower-cased text. */
  function Keywords(text: string): seq<string> {
    KeepKeywords(Tokens(Lower(text)))
  }

  /** The query the persona is matched by: role, description and job, separated by spaces. */
  function QueryKeywords(role: string, description: string, job: string): seq<string> {
    Keywords(role + " " + description + " " + job)
  }

  /** A keyword occurs as often as it does among the tokens; any other word not at all. */
  lemma {:induction false} KeepKeywordsCount(tokens: seq<string>, w: string)
    ensures multiset(KeepKeywords(tokens))[w] == if IsKeyword(w) then multiset(tokens)[w] else 0
  {
    if tokens != [] {
      var n := |tokens|;
      KeepKeywordsCount(tokens[..n - 1], w);
      assert tokens == tokens[..n - 1] + [tokens[n - 1]];
    }
  }

  /** The comprehension keeps order: a split of the tokens splits the keywords. */
  lemma {:induction false} KeepKeywordsAppend(a: seq<string>, b: seq<string>)
    ensures KeepKeywords(a + b) == KeepKeywords(a) + KeepKeywords(b)
    decreases |b|
  {
    if b == [] {
      assert a + b == a;
    } else {
      var n := |b|;
      KeepKeywordsAppend(a, b[..n - 1]);
      assert (a + b)[..|a + b| - 1] == a + b[..n - 1];
    }
  }

  /**
   * Every keyword of the text is a non-stopword token of its lower-cased
   * form, longer than two characters, and it occurs among the keywords
   * exactly as often as among those tokens.
   */
  lemma KeywordCount(text: string, w: string)
    ensures multiset(Keywords(text))[w] == if IsKeyword(w) then multiset(Tokens(Lower(text)))[w] else 0
    ensures w in Keywords(text) <==> w in Tokens(Lower(text)) && w !in Stopwords && |w| > 2
  {
    KeepKeywordsCount(Tokens(Lower(text)), w);
  }

  /** Keywords are non-empty runs of lower-case word characters, at least three long. */
  lemma KeywordsLowercase(text: string, w: string)
    requires w in Keywords(text)
    ensures |w| >= 3
    ensures forall k :: 0 <= k < |w| ==> IsWordChar(w[k]) && !IsUpper(w[k])
  {
    var low := Lower(text);
    KeywordCount(text, w);
    TokensExact(low, w);
    var a, b :| 0 <= a < b <= |low| && IsRun(low, a, b) && low[a..b] == w;
    forall k | 0 <= k < |w| ensures IsWordChar(w[k]) && !IsUpper(w[k]) {
      assert w[k] == low[a + k] == LowerChar(text[a + k]);
    }
  }

  /** Lower-casing works character by character, so it splits over concatenation. */
  lemma LowerAppend(a: string, b: string)
    ensures Lower(a + b) == Lower(a) + Lower(b)
  {
    assert forall k :: 0 <= k < |a + b| ==> Lower(a + b)[k] == (Lower(a) + Lower(b))[k];
  }

  /** A run's end is the first non-word character after it, so it is determined. */
  lemma WordEndUnique(s: string, i: nat, e: nat)
    requires i <= e <= |s|
    requires forall k :: i <= k < e ==> IsWordChar(s[k])
    requires e == |s| || !IsWordChar(s[e])
    ensures WordEnd(s, i) == e
  {
  }

  /** A run of b that starts at j ends at the same place inside p + b. */
  lemma ShiftRun(p: string, b: string, j: nat)
    requires j < |b| && IsWordChar(b[j])
    ensures WordEnd(p + b, |p| + j) == |p| + WordEnd(b, j)
    ensures (p + b)[|p| + j..|p| + WordEnd(b, j)] == b[j..WordEnd(b, j)]
  {
    var u, e := p + b, WordEnd(b, j);
    assert forall k :: |p| + j <= k < |p| + e ==> u[k] == b[k - |p|];
    assert e < |b| ==> u[|p| + e] == b[e];
    WordEndUnique(u, |p| + j, |p| + e);
  }

  /** Scanning the tail of p + b from inside b is scanning b. */
  lemma {:induction false} TokensShift(p: string, b: string, j: nat)
    requires j <= |b|
    ensures TokensFrom(p + b, |p| + j) == TokensFrom(b, j)
    decreases |b| - j
  {
    if j < |b| {
      var u := p + b;
      assert u[|p| + j] == b[j];
      if !IsWordChar(b[j]) {
        TokensShift(p, b, j + 1);
      } else {
        var e := WordEnd(b, j);
        ShiftRun(p, b, j);
        TokensShift(p, b, e);
        assert TokensFrom(u, |p| + j) == [u[|p| + j..|p| + e]] + TokensFrom(u, |p| + e);
      }
    }
  }

  /** A non-word character between a and b separates their tokens. */
  lemma {:induction false} TokensSplit(a: string, c: char, b: string, i: nat)
    requires i <= |a| && !IsWordChar(c)
    ensures TokensFrom(a + [c] + b, i) == TokensFrom(a, i) + Tokens(b)
    decreases |a| - i
  {
    var u := a + [c] + b;
    if i == |a| {
      assert u == (a + [c]) + b;
      TokensShift(a + [c], b, 0);
    } else {
      assert u[i] == a[i];
      if !IsWordChar(a[i]) {
        TokensSplit(a, c, b, i + 1);
      } else {
        var e := WordEnd(a, i);
        var e' := WordEnd(u, i);
        assert forall k :: i <= k < e ==> u[k] == a[k];
        assert e == |a| || u[e] == a[e];
        assert e == |a| ==> u[e] == c;
        WordEndUnique(u, i, e);
        assert u[i..e'] == a[i..e];
        TokensSplit(a, c, b, e);
      }
    }
  }

  /** The query's keywords are the role's, then the description's, then the job's. */
  lemma QueryKeywordsSplit(role: string, description: string, job: string)
    ensures QueryKeywords(role, description, job) == Keywords(role) + Keywords(description) + Keywords(job)
  {
    var x := role + " " + description;
    LowerAppend(role, " ");
    LowerAppend(role + " ", description);
    LowerAppend(x, " ");
    LowerAppend(x + " ", job);
    assert Lower(" ") == " ";
    var lr, ld, lj := Lower(role), Lower(description), Lower(job);
    assert Lower(x) == lr + [' '] + ld;
    assert Lower(x + " " + job) == Lower(x) + [' '] + lj;
    TokensSplit(Lower(x), ' ', lj, 0);
    TokensSplit(lr, ' ', ld, 0);
    KeepKeywordsAppend(Tokens(lr) + Tokens(ld), Tokens(lj));
    KeepKeywordsAppend(Tokens(lr), Tokens(ld));
  }
}
