/**
 * Font-size bands for the title and the three heading levels, inferred from
 * the sizes of all merged lines: the sizes that occur more than once and are
 * at least 10 points, largest first, seed the four bands; floors and one
 * adjustment pass then spread them apart.
 */
module Thresholds {
  import opened Text
  import opened Layout

  /** The sizes of all lines, page by page, in order. */
  function SizesOf(pages: seq<seq<Line>>): (r: seq<real>)
    decreases |pages|
  {
    if pages == [] then []
    else SizesOf(pages[..|pages| - 1]) + SizesOfLines(pages[|pages| - 1], |pages[|pages| - 1]|)
  }

  /** The sizes of the first k lines of a page. */
  function SizesOfLines(lines: seq<Line>, k: nat): (r: seq<real>)
    requires k <= |lines|
    ensures |r| == k
    ensures forall i :: 0 <= i < k ==> r[i] == lines[i].size
  {
    if k == 0 then [] else SizesOfLines(lines, k - 1) + [lines[k - 1].size]
  }

  /** The loops that gather every line's size into one list. */
  method CollectSizes(pages: seq<seq<Line>>) returns (sizes: seq<real>)
    ensures sizes == SizesOf(pages)
  {
    sizes := [];
    var p := 0;
    while p < |pages|
      invariant p <= |pages|
      invariant sizes == SizesOf(pages[..p])
    {
      assert pages[..p + 1][..p] == pages[..p];
      var page := pages[p];
      var k := 0;
      while k < |page|
        invariant k <= |page|
        invariant sizes == SizesOf(pages[..p]) + SizesOfLines(page, k)
      {
        sizes := sizes + [page[k].size];
        k := k + 1;
      }
      p := p + 1;
    }
    assert pages[..|pages|] == pages;
  }

  /** A size the histogram keeps: at least 10 points and seen more than once. */
  predicate Qualifies(sizes: seq<real>, x: real) {
    x >= 10.0 && multiset(sizes)[x] > 1
  }

  predicate StrictlyDecreasing(r: seq<real>) {
    forall i, j :: 0 <= i < j < |r| ==> r[i] > r[j]
  }

  /** Add x to a strictly decreasing list of distinct sizes, at its place. */
  function InsertDesc(t: seq<real>, x: real): (r: seq<real>)
    requires StrictlyDecreasing(t)
    ensures StrictlyDecreasing(r)
    ensures forall y :: y in r <==> y in t || y == x
  {
    if t == [] then [x]
    else if x > t[0] then [x] + t
    else if x == t[0] then t
    else
      var r := [t[0]] + InsertDesc(t[1..], x);
      assert forall k :: 0 < k < |r| ==> r[k] in t[1..] || r[k] == x;
      r
  }

  /** The distinct qualifying sizes among the first k, largest first. */
  function Gather(sizes: seq<real>, k: nat): (r: seq<real>)
    requires k <= |sizes|
    ensures StrictlyDecreasing(r)
    ensures forall y :: y in r <==> y in sizes[..k] && Qualifies(sizes, y)
  {
    if k == 0 then []
    else
      var r := Gather(sizes, k - 1);
      var x := sizes[k - 1];
      assert sizes[..k] == sizes[..k - 1] + [x];
      if Qualifies(sizes, x) then InsertDesc(r, x) else r
  }

  /**
   * `sorted([s for s, count in Counter(sizes).items() if s >= 10 and count > 1],
   * reverse=True)`: every qualifying size exactly once, largest first.
   */
  function RelevantSizes(sizes: seq<real>): (r: seq<real>)
    ensures StrictlyDecreasing(r)
    ensures forall y :: y in r <==> y in sizes && Qualifies(sizes, y)
  {
    assert sizes[..|sizes|] == sizes;
    Gather(sizes, |sizes|)
  }

  /** The four size bands. */
  datatype Bands = Bands(title: real, h1: real, h2: real, h3: real)

  /** The first four relevant sizes, each missing one 0.9 of the band above (24 without any). */
  function Seeds(r: seq<real>): Bands {
    var title := if |r| > 0 then r[0] else 24.0;
    var h1 := if |r| > 1 then r[1] else if title != 0.0 then title * 0.9 else 18.0;
    var h2 := if |r| > 2 then r[2] else if h1 != 0.0 then h1 * 0.9 else 14.0;
    var h3 := if |r| > 3 then r[3] else if h2 != 0.0 then h2 * 0.9 else 12.0;
    Bands(title, h1, h2, h3)
  }

  /** The minimum size of each band. */
  function Floors(b: Bands): (r: Bands)
    ensures r.title >= 20.0 && r.h1 >= 16.0 && r.h2 >= 13.0 && r.h3 >= 11.0
    ensures r.title >= b.title && r.h1 >= b.h1 && r.h2 >= b.h2 && r.h3 >= b.h3
  {
    Bands(MaxReal(b.title, 20.0), MaxReal(b.h1, 16.0), MaxReal(b.h2, 13.0), MaxReal(b.h3, 11.0))
  }

  /**
   * The single adjustment pass: a band too close to the one below is moved
   * above it. Each test reads the band below as it was before the pass.
   */
  function Adjust(b: Bands): (r: Bands)
    ensures r.title > b.h1 + 2.0 && r.h1 > b.h2 + 1.0 && r.h2 > b.h3 + 1.0 && r.h3 == b.h3
    ensures r.title >= b.title && r.h1 >= b.h1 && r.h2 >= b.h2
  {
    var title := if b.title <= b.h1 + 2.0 then b.h1 + 2.5 else b.title;
    var h1 := if b.h1 <= b.h2 + 1.0 then b.h2 + 1.5 else b.h1;
    var h2 := if b.h2 <= b.h3 + 1.0 then b.h3 + 1.5 else b.h2;
    Bands(title, h1, h2, b.h3)
  }

  /** The bands identify_headings infers from the sizes of all merged lines. */
  function InferBands(sizes: seq<real>): (r: Bands)
    ensures r.title >= 20.0 && r.h1 >= 16.0 && r.h2 >= 13.0 && r.h3 >= 11.0
    ensures r.h2 > r.h3 + 1.0
  {
    Adjust(Floors(Seeds(RelevantSizes(sizes))))
  }

  predicate NonIncreasing(b: Bands) {
    b.title >= b.h1 >= b.h2 >= b.h3
  }

  /** Seeds taken from a decreasing list of sizes of at least 10 points never increase. */
  lemma SeedsOrdered(r: seq<real>)
    requires StrictlyDecreasing(r) && forall i :: 0 <= i < |r| ==> r[i] >= 10.0
    ensures NonIncreasing(Seeds(r)) && Seeds(r).h3 > 0.0
  {
    if |r| > 3 {
      assert r[0] > r[1] > r[2] > r[3];
    } else if |r| > 1 {
      assert r[0] > r[1];
    }
  }

  /**
   * The margins the inferred bands keep: the title band is more than half a
   * point above h1, and h2 is more than a point above h3 but at most a point
   * and a half above h1 (h2 can end above h1, see H2AboveH1).
   */
  lemma {:induction false} BandMargins(sizes: seq<real>)
    ensures var b := InferBands(sizes);
      b.title > b.h1 + 0.5 && b.h2 > b.h3 + 1.0 && b.h2 <= b.h1 + 1.5
  {
    var r := RelevantSizes(sizes);
    forall i | 0 <= i < |r| ensures r[i] >= 10.0 {
      assert r[i] in r;
    }
    SeedsOrdered(r);
    var f := Floors(Seeds(r));
    assert NonIncreasing(f);
  }

  /** Four relevant sizes whose bands end with h2 above h1. */
  lemma H2AboveH1()
    ensures var b := Adjust(Floors(Seeds([22.0, 17.2, 16.0, 15.9])));
      b == Bands(22.0, 17.2, 17.4, 15.9) && b.h2 > b.h1
  {
  }

  /** The histogram of sizes that gives exactly those four relevant sizes. */
  lemma {:induction false} H2AboveH1Sizes()
    ensures RelevantSizes([22.0, 22.0, 17.2, 17.2, 16.0, 16.0, 15.9, 15.9]) == [22.0, 17.2, 16.0, 15.9]
    ensures InferBands([22.0, 22.0, 17.2, 17.2, 16.0, 16.0, 15.9, 15.9]).h2 > InferBands([22.0, 22.0, 17.2, 17.2, 16.0, 16.0, 15.9, 15.9]).h1
  {
    var s := [22.0, 22.0, 17.2, 17.2, 16.0, 16.0, 15.9, 15.9];
    var r := RelevantSizes(s);
    var e := [22.0, 17.2, 16.0, 15.9];
    assert multiset(s)[22.0] == 2 && multiset(s)[17.2] == 2 && multiset(s)[16.0] == 2 && multiset(s)[15.9] == 2;
    assert forall y :: y in r <==> y in e;
    UniqueDecreasing(r, e);
    H2AboveH1();
  }

  /** A strictly decreasing list is determined by its elements. */
  lemma {:induction false} UniqueDecreasing(a: seq<real>, b: seq<real>)
    requires StrictlyDecreasing(a) && StrictlyDecreasing(b)
    requires forall y :: y in a <==> y in b
    ensures a == b
    decreases |a|
  {
    if a != [] {
      assert a[0] in a;
    }
    if b != [] {
      assert b[0] in b;
    }
    if a != [] && b != [] {
      assert a[0] <= b[0] by {
        var i :| 0 <= i < |b| && b[i] == a[0];
        assert i == 0 || b[0] > b[i];
      }
      assert b[0] <= a[0] by {
        var j :| 0 <= j < |a| && a[j] == b[0];
        assert j == 0 || a[0] > a[j];
      }
      forall y | y in a[1..] ensures y in b[1..] {
        TailMember(a, b, y);
      }
      forall y | y in b[1..] ensures y in a[1..] {
        TailMember(b, a, y);
      }
      UniqueDecreasing(a[1..], b[1..]);
      assert a == [a[0]] + a[1..] && b == [b[0]] + b[1..];
    }
  }

  lemma TailMember(a: seq<real>, b: seq<real>, y: real)
    requires StrictlyDecreasing(a) && StrictlyDecreasing(b) && a != [] && b != [] && a[0] == b[0]
    requires forall z :: z in a <==> z in b
    requires y in a[1..]
    ensures y in b[1..]
  {
    var i :| 0 <= i < |a| - 1 && a[1..][i] == y;
    assert a[i + 1] == y && y in a && y < a[0];
    var j :| 0 <= j < |b| && b[j] == y;
    assert j > 0 && b[1..][j - 1] == y;
  }
}
