/**
 * The hierarchy pass over the sorted heading candidates. One forward scan
 * keeps the position (page, y0) of the last accepted H1, H2 and H3 and
 * accepts, promotes or drops each candidate; exact (text, page, level)
 * duplicates are then removed.
 */
module Hierarchy {
  import opened Wrappers
  import opened Layout
  import Seqs

  /** The position of the last heading of a level; page -1 when there is none. */
  datatype Anchor = Anchor(page: int, y0: real)

  const NoAnchor: Anchor := Anchor(-1, -1.0)

  function AnchorOf(c: Candidate): Anchor {
    Anchor(c.page, c.y0)
  }

  /** b lies strictly below a: a later page, or the same page and a larger y0. */
  predicate Later(a: Anchor, b: Anchor) {
    b.page > a.page || (b.page == a.page && b.y0 > a.y0)
  }

  predicate After(c: Candidate, a: Anchor) {
    Later(a, AnchorOf(c))
  }

  /** The outline built so far and the three anchors. */
  datatype State = State(outline: seq<Entry>, h1: Anchor, h2: Anchor, h3: Anchor)

  const Init: State := State([], NoAnchor, NoAnchor, NoAnchor)

  /** The candidate repeats the last outline entry's text, page and (unpromoted) level. */
  predicate RepeatsLast(o: seq<Entry>, h: Candidate) {
    o != [] && o[|o| - 1] == Entry(h.level, h.text, h.page)
  }

  /**
   * The level at which a candidate enters the outline, or None when it is
   * dropped. An H2 needs an H1 above it; an H3 needs an H2 above it, or else
   * becomes an H2 under an H1 that has no H2 yet. The very first entry is
   * always accepted, as an H1.
   */
  function Decide(s: State, h: Candidate): Option<Level> {
    if RepeatsLast(s.outline, h) then None
    else
      match h.level
      case H0 => None
      case H1 => if After(h, s.h1) then Some(H1) else None
      case H2 =>
        if s.h1.page != -1 && After(h, s.h1) && After(h, s.h2) then Some(H2)
        else if s.outline == [] && After(h, s.h2) then Some(H1)
        else None
      case H3 =>
        if s.h2.page != -1 && After(h, s.h2) && After(h, s.h3) then Some(H3)
        else if s.h1.page != -1 && s.h2.page == -1 && After(h, s.h1) && After(h, s.h3) then Some(H2)
        else if s.outline == [] && After(h, s.h3) then Some(H1)
        else None
  }

  /**
   * One iteration of the loop. An accepted H1 resets the H2 and H3 anchors and
   * an accepted H2 resets the H3 anchor; a promotion to H1 leaves them as
   * they are.
   */
  function Step(s: State, h: Candidate): State {
    match Decide(s, h)
    case None => s
    case Some(lv) =>
      var a := AnchorOf(h);
      var opensH1 := lv == H1 && h.level == H1;
      State(s.outline + [Entry(lv, h.text, h.page)],
            if lv == H1 then a else s.h1,
            if opensH1 then NoAnchor else if lv == H2 then a else s.h2,
            if opensH1 || lv == H2 then NoAnchor else if lv == H3 then a else s.h3)
  }

  /** The state after the first |cands| candidates. */
  function Run(cands: seq<Candidate>): State
    decreases |cands|
  {
    if cands == [] then Init else Step(Run(cands[..|cands| - 1]), cands[|cands| - 1])
  }

  /**
   * The body of the hierarchy loop for one candidate: the repeat check and
   * the per-level rules, with the anchors in three variables.
   */
  method Place(outline0: seq<Entry>, lastH10: Anchor, lastH20: Anchor, lastH30: Anchor, h: Candidate)
    returns (outline: seq<Entry>, lastH1: Anchor, lastH2: Anchor, lastH3: Anchor)
    ensures State(outline, lastH1, lastH2, lastH3) == Step(State(outline0, lastH10, lastH20, lastH30), h)
  {
    outline, lastH1, lastH2, lastH3 := outline0, lastH10, lastH20, lastH30;
    var level, text, page, y0 := h.level, h.text, h.page, h.y0;
    var entry := Entry(level, text, page);
    if outline != [] && outline[|outline| - 1].text == text && outline[|outline| - 1].page == page
       && outline[|outline| - 1].level == level {
      return;
    }
    var addCurrent := false;
    if level == H1 {
      if page > lastH1.page || (page == lastH1.page && y0 > lastH1.y0) {
        addCurrent := true;
        lastH1 := AnchorOf(h);
        lastH2 := NoAnchor;
        lastH3 := NoAnchor;
      }
    } else if level == H2 {
      if (lastH1.page != -1 && (page > lastH1.page || (page == lastH1.page && y0 > lastH1.y0)))
         && (page > lastH2.page || (page == lastH2.page && y0 > lastH2.y0)) {
        addCurrent := true;
        lastH2 := AnchorOf(h);
        lastH3 := NoAnchor;
      } else if outline == [] && (page > lastH2.page || (page == lastH2.page && y0 > lastH2.y0)) {
        entry := entry.(level := H1);
        addCurrent := true;
        lastH1 := AnchorOf(h);
      }
    } else if level == H3 {
      if (lastH2.page != -1 && (page > lastH2.page || (page == lastH2.page && y0 > lastH2.y0)))
         && (page > lastH3.page || (page == lastH3.page && y0 > lastH3.y0)) {
        addCurrent := true;
        lastH3 := AnchorOf(h);
      } else if (lastH1.page != -1 && lastH2.page == -1 && (page > lastH1.page || (page == lastH1.page && y0 > lastH1.y0)))
                && (page > lastH3.page || (page == lastH3.page && y0 > lastH3.y0)) {
        entry := entry.(level := H2);
        addCurrent := true;
        lastH2 := AnchorOf(h);
        lastH3 := NoAnchor;
      } else if outline == [] && (page > lastH3.page || (page == lastH3.page && y0 > lastH3.y0)) {
        entry := entry.(level := H1);
        addCurrent := true;
        lastH1 := AnchorOf(h);
      }
    }
    if addCurrent {
      outline := outline + [entry];
    }
  }

  /** The loop of the hierarchy pass. */
  method EnforceHierarchy(cands: seq<Candidate>) returns (outline: seq<Entry>)
    ensures outline == Run(cands).outline
  {
    outline := [];
    var lastH1, lastH2, lastH3 := NoAnchor, NoAnchor, NoAnchor;
    var k := 0;
    while k < |cands|
      invariant k <= |cands|
      invariant State(outline, lastH1, lastH2, lastH3) == Run(cands[..k])
    {
      assert cands[..k + 1][..k] == cands[..k];
      outline, lastH1, lastH2, lastH3 := Place(outline, lastH1, lastH2, lastH3, cands[k]);
      k := k + 1;
    }
    assert cands[..|cands|] == cands;
  }

  // ---------------------------------------------------------------------
  // Nesting of the outline

  /** Some entry of o is an H1. */
  predicate HasH1(o: seq<Entry>) {
    o != [] && (o[|o| - 1].level == H1 || HasH1(o[..|o| - 1]))
  }

  /** The last H1-or-H2 entry of o is an H2: an H3 may follow. */
  predicate H2Open(o: seq<Entry>) {
    o != [] && (o[|o| - 1].level == H2 || (o[|o| - 1].level != H1 && H2Open(o[..|o| - 1])))
  }

  /** Every entry is H1, an H2 after some H1, or an H3 inside an open H2. */
  predicate Nested(o: seq<Entry>) {
    o == [] ||
    var p := o[..|o| - 1];
    Nested(p) &&
    match o[|o| - 1].level
    case H0 => false
    case H1 => true
    case H2 => HasH1(p)
    case H3 => H2Open(p)
  }

  /** What the anchors say about the outline, kept by every step. */
  predicate Inv(s: State) {
    && (s.outline == [] ==> s.h1 == NoAnchor && s.h2 == NoAnchor && s.h3 == NoAnchor)
    && (s.h1.page != -1 ==> HasH1(s.outline))
    && (s.h2.page != -1 ==> H2Open(s.outline))
    && Nested(s.outline)
  }

  lemma LastOfAppend<T>(o: seq<T>, e: T)
    ensures (o + [e])[..|o|] == o && (o + [e])[|o|] == e
  {
  }

  lemma StepInv(s: State, h: Candidate)
    requires Inv(s)
    ensures Inv(Step(s, h))
  {
    match Decide(s, h)
    case None =>
    case Some(lv) =>
      LastOfAppend(s.outline, Entry(lv, h.text, h.page));
  }

  lemma {:induction false} RunInv(cands: seq<Candidate>)
    ensures Inv(Run(cands))
    decreases |cands|
  {
    if cands != [] {
      RunInv(cands[..|cands| - 1]);
      StepInv(Run(cands[..|cands| - 1]), cands[|cands| - 1]);
    }
  }

  lemma {:induction false} NestedFirst(o: seq<Entry>)
    requires Nested(o) && o != []
    ensures o[0].level == H1
    decreases |o|
  {
    var p := o[..|o| - 1];
    if p == [] {
      assert !HasH1(p) && !H2Open(p);
    } else {
      NestedFirst(p);
      assert p[0] == o[0];
    }
  }

  lemma {:induction false} HasH1Iff(o: seq<Entry>)
    ensures HasH1(o) <==> exists j :: 0 <= j < |o| && o[j].level == H1
    decreases |o|
  {
    if o != [] {
      var p := o[..|o| - 1];
      HasH1Iff(p);
      assert forall j :: 0 <= j < |p| ==> p[j] == o[j];
    }
  }

  lemma {:induction false} H2OpenIff(o: seq<Entry>)
    ensures H2Open(o) <==>
      exists j :: 0 <= j < |o| && o[j].level == H2 && forall m :: j < m < |o| ==> o[m].level != H1
    decreases |o|
  {
    if o != [] {
      var n := |o|;
      var p := o[..n - 1];
      H2OpenIff(p);
      assert forall j :: 0 <= j < |p| ==> p[j] == o[j];
      if H2Open(o) && o[n - 1].level != H2 {
        var j :| 0 <= j < |p| && p[j].level == H2 && forall m :: j < m < |p| ==> p[m].level != H1;
        assert o[j].level == H2 && forall m :: j < m < n ==> o[m].level != H1;
      }
      if exists j :: 0 <= j < n && o[j].level == H2 && forall m :: j < m < n ==> o[m].level != H1 {
        var j :| 0 <= j < n && o[j].level == H2 && forall m :: j < m < n ==> o[m].level != H1;
        if j < n - 1 {
          assert o[n - 1].level != H1;
          assert p[j].level == H2 && forall m :: j < m < |p| ==> p[m].level != H1;
        }
      }
    }
  }

  lemma {:induction false} NestedPrefix(o: seq<Entry>, k: nat)
    requires Nested(o) && k <= |o|
    ensures Nested(o[..k])
    decreases |o|
  {
    if k < |o| {
      var p := o[..|o| - 1];
      NestedPrefix(p, k);
      assert p[..k] == o[..k];
    } else {
      assert o[..k] == o;
    }
  }

  /** Each entry of a nested outline, read with the quantifiers written out. */
  lemma NestedAt(o: seq<Entry>, k: nat)
    requires Nested(o) && k < |o|
    ensures o[k].level != H0
    ensures o[k].level == H2 ==> exists j :: 0 <= j < k && o[j].level == H1
    ensures o[k].level == H3 ==>
      exists j :: 0 <= j < k && o[j].level == H2 && forall m :: j < m < k ==> o[m].level != H1
  {
    NestedPrefix(o, k + 1);
    var q := o[..k + 1];
    assert q[..k] == o[..k] && q[k] == o[k];
    HasH1Iff(o[..k]);
    H2OpenIff(o[..k]);
    assert forall j :: 0 <= j < k ==> o[..k][j] == o[j];
  }

  /**
   * The outline of the hierarchy pass: its first entry is an H1, no entry is
   * an H0, every H2 has an H1 before it, and every H3 has an H2 before it
   * with no H1 in between.
   */
  lemma OutlineNested(cands: seq<Candidate>)
    ensures var o := Run(cands).outline;
      && (o != [] ==> o[0].level == H1)
      && forall k :: 0 <= k < |o| ==>
        && o[k].level != H0
        && (o[k].level == H2 ==> exists j :: 0 <= j < k && o[j].level == H1)
        && (o[k].level == H3 ==>
              exists j :: 0 <= j < k && o[j].level == H2 && forall m :: j < m < k ==> o[m].level != H1)
  {
    var o := Run(cands).outline;
    RunInv(cands);
    if o != [] {
      NestedFirst(o);
    }
    forall k | 0 <= k < |o|
      ensures o[k].level != H0
      ensures o[k].level == H2 ==> exists j :: 0 <= j < k && o[j].level == H1
      ensures o[k].level == H3 ==>
        exists j :: 0 <= j < k && o[j].level == H2 && forall m :: j < m < k ==> o[m].level != H1
    {
      NestedAt(o, k);
    }
  }

  /** A step never removes or changes an entry. */
  lemma StepExtends(s: State, h: Candidate)
    ensures |Step(s, h).outline| >= |s.outline|
    ensures Step(s, h).outline[..|s.outline|] == s.outline
  {
  }

  /** The outline is empty only when there were no candidates (or the first was an H0). */
  lemma {:induction false} OutlineNonEmpty(cands: seq<Candidate>)
    requires cands != [] && cands[0].level != H0
    ensures Run(cands).outline != []
    decreases |cands|
  {
    var p := cands[..|cands| - 1];
    if p == [] {
      assert Run(cands) == Step(Init, cands[0]);
    } else {
      assert p[0] == cands[0];
      OutlineNonEmpty(p);
      StepExtends(Run(p), cands[|cands| - 1]);
    }
  }

  // ---------------------------------------------------------------------
  // The outline is a subsequence of the candidates

  /** The indices of the accepted candidates, in order. */
  function Picked(cands: seq<Candidate>): seq<nat>
    decreases |cands|
  {
    if cands == [] then []
    else
      var p := cands[..|cands| - 1];
      Picked(p) + (if Decide(Run(p), cands[|cands| - 1]).Some? then [|cands| - 1] else [])
  }

  /** A candidate keeps its level or is promoted to a higher one. */
  predicate Raised(from: Level, to: Level) {
    to == from || (from == H2 && to == H1) || (from == H3 && (to == H2 || to == H1))
  }

  predicate PicksMatch(cands: seq<Candidate>, o: seq<Entry>, picked: seq<nat>) {
    && |picked| == |o|
    && (forall m :: 0 <= m < |picked| ==>
          && picked[m] < |cands|
          && o[m].text == cands[picked[m]].text
          && o[m].page == cands[picked[m]].page
          && Raised(cands[picked[m]].level, o[m].level))
    && (forall m1, m2 :: 0 <= m1 < m2 < |picked| ==> picked[m1] < picked[m2])
  }

  lemma DecideRaises(s: State, h: Candidate)
    requires Decide(s, h).Some?
    ensures Raised(h.level, Decide(s, h).value)
  {
  }

  /**
   * The outline is an order-preserving subsequence of the candidates: entry
   * m is candidate picked[m] with its text and page, at its own or a
   * promoted level.
   */
  lemma {:induction false} OutlineIsSubsequence(cands: seq<Candidate>)
    ensures PicksMatch(cands, Run(cands).outline, Picked(cands))
    decreases |cands|
  {
    if cands != [] {
      var n := |cands|;
      var p := cands[..n - 1];
      OutlineIsSubsequence(p);
      var s := Run(p);
      var h := cands[n - 1];
      assert forall i :: 0 <= i < n - 1 ==> p[i] == cands[i];
      match Decide(s, h)
      case None =>
      case Some(lv) =>
        DecideRaises(s, h);
        LastOfAppend(s.outline, Entry(lv, h.text, h.page));
        LastOfAppend(Picked(p), n - 1);
    }
  }

  /** Candidates in page order give an outline in page order. */
  lemma OutlinePagesOrdered(cands: seq<Candidate>)
    requires forall i, j :: 0 <= i < j < |cands| ==> cands[i].page <= cands[j].page
    ensures var o := Run(cands).outline;
      forall m1, m2 :: 0 <= m1 < m2 < |o| ==> o[m1].page <= o[m2].page
  {
    OutlineIsSubsequence(cands);
    var o, picked := Run(cands).outline, Picked(cands);
    forall m1, m2 | 0 <= m1 < m2 < |o| ensures o[m1].page <= o[m2].page {
      assert picked[m1] < picked[m2];
    }
  }

  // ---------------------------------------------------------------------
  // The H1 anchors

  /** The anchors of the accepted H1 entries, in order. */
  function H1Trail(cands: seq<Candidate>): seq<Anchor>
    decreases |cands|
  {
    if cands == [] then []
    else
      var p := cands[..|cands| - 1];
      H1Trail(p) + (if Decide(Run(p), cands[|cands| - 1]) == Some(H1) then [AnchorOf(cands[|cands| - 1])] else [])
  }

  function CountLevel(o: seq<Entry>, lv: Level): nat {
    if o == [] then 0 else CountLevel(o[..|o| - 1], lv) + (if o[|o| - 1].level == lv then 1 else 0)
  }

  /** There is one trail anchor per H1 entry of the outline. */
  lemma {:induction false} H1TrailCount(cands: seq<Candidate>)
    ensures |H1Trail(cands)| == CountLevel(Run(cands).outline, H1)
    decreases |cands|
  {
    if cands != [] {
      var p := cands[..|cands| - 1];
      H1TrailCount(p);
      var s, h := Run(p), cands[|cands| - 1];
      if Decide(s, h).Some? {
        LastOfAppend(s.outline, Entry(Decide(s, h).value, h.text, h.page));
      }
    }
  }

  /** The H1 anchor is the last anchor of the trail. */
  lemma {:induction false} H1TrailLast(cands: seq<Candidate>)
    ensures var t := H1Trail(cands);
      Run(cands).h1 == (if t == [] then NoAnchor else t[|t| - 1])
    decreases |cands|
  {
    if cands != [] {
      var p := cands[..|cands| - 1];
      H1TrailLast(p);
    }
  }

  /**
   * Each accepted H1 lies strictly below the one before it (the first one
   * below the "no anchor" position, which every page is).
   */
  lemma {:induction false} H1AnchorsIncrease(cands: seq<Candidate>)
    ensures var t := H1Trail(cands);
      && (t != [] ==> Later(NoAnchor, t[0]))
      && forall k :: 0 <= k < |t| - 1 ==> Later(t[k], t[k + 1])
    decreases |cands|
  {
    if cands != [] {
      var p := cands[..|cands| - 1];
      H1AnchorsIncrease(p);
      var s, h := Run(p), cands[|cands| - 1];
      var tp := H1Trail(p);
      if Decide(s, h) == Some(H1) {
        LastOfAppend(tp, AnchorOf(h));
        if tp != [] {
          H1TrailLast(p);
          H1TrailCount(p);
          assert s.outline != [];
          assert After(h, s.h1);
        }
      }
    }
  }

  // ---------------------------------------------------------------------
  // De-duplication

  function EntryKey(e: Entry): (string, nat, Level) {
    (e.text, e.page, e.level)
  }

  /** The second loop: keep the first entry of each (text, page, level). */
  method DedupOutline(outline: seq<Entry>) returns (deduped: seq<Entry>)
    ensures deduped == Seqs.DedupBy(outline, EntryKey)
    ensures forall i, j :: 0 <= i < j < |deduped| ==> EntryKey(deduped[i]) != EntryKey(deduped[j])
  {
    deduped := [];
    var seen: set<(string, nat, Level)> := {};
    var k := 0;
    while k < |outline|
      invariant k <= |outline|
      invariant deduped == Seqs.DedupBy(outline[..k], EntryKey)
      invariant seen == Seqs.KeySet(deduped, EntryKey)
    {
      var item := outline[k];
      assert outline[..k + 1] == outline[..k] + [item];
      deduped, seen := Seqs.AddUnseen(deduped, seen, item, EntryKey, outline[..k]);
      k := k + 1;
    }
    assert outline[..|outline|] == outline;
  }

  predicate HasLevel(o: seq<Entry>, lv: Level) {
    exists j :: 0 <= j < |o| && o[j].level == lv
  }

  /** Every H2 has an H1 before it and every H3 an H2 before it; no H0. */
  predicate Supported(o: seq<Entry>) {
    forall k :: 0 <= k < |o| ==>
      && o[k].level != H0
      && (o[k].level == H2 ==> HasLevel(o[..k], H1))
      && (o[k].level == H3 ==> HasLevel(o[..k], H2))
  }

  /** De-duplication keeps at least one entry of every level present. */
  lemma DedupKeepsLevel(o: seq<Entry>, lv: Level)
    requires HasLevel(o, lv)
    ensures HasLevel(Seqs.DedupBy(o, EntryKey), lv)
  {
    var d := Seqs.DedupBy(o, EntryKey);
    var j :| 0 <= j < |o| && o[j].level == lv;
    assert EntryKey(o[j]) in Seqs.KeySet(o, EntryKey);
    var i :| 0 <= i < |d| && EntryKey(d[i]) == EntryKey(o[j]);
    assert d[i].level == lv;
  }

  lemma SupportedAppend(o: seq<Entry>, x: Entry)
    requires Supported(o) && x.level != H0
    requires x.level == H2 ==> HasLevel(o, H1)
    requires x.level == H3 ==> HasLevel(o, H2)
    ensures Supported(o + [x])
  {
    var d := o + [x];
    forall k | 0 <= k < |d|
      ensures d[k].level != H0
      ensures d[k].level == H2 ==> HasLevel(d[..k], H1)
      ensures d[k].level == H3 ==> HasLevel(d[..k], H2)
    {
      if k < |o| {
        assert d[..k] == o[..k] && d[k] == o[k];
      } else {
        assert d[..k] == o && d[k] == x;
      }
    }
  }

  /**
   * After de-duplication every H2 still has an H1 before it and every H3 an
   * H2 before it, and the first entry is still an H1.
   */
  lemma {:induction false} DedupSupported(o: seq<Entry>)
    requires Nested(o)
    ensures Supported(Seqs.DedupBy(o, EntryKey))
    ensures var d := Seqs.DedupBy(o, EntryKey); d != [] ==> d[0].level == H1
    decreases |o|
  {
    var d := Seqs.DedupBy(o, EntryKey);
    if o != [] {
      var n := |o|;
      var p, x := o[..n - 1], o[n - 1];
      assert o == p + [x];
      DedupSupported(p);
      var dp := Seqs.DedupBy(p, EntryKey);
      Seqs.DedupByAppend(p, x, EntryKey);
      if d != dp {
        assert d == dp + [x];
        if x.level == H2 {
          HasH1Iff(p);
          DedupKeepsLevel(p, H1);
        }
        if x.level == H3 {
          H2OpenIff(p);
          DedupKeepsLevel(p, H2);
        }
        SupportedAppend(dp, x);
        if dp == [] {
          assert !HasLevel(d[..0], H1) && !HasLevel(d[..0], H2);
        } else {
          assert d[0] == dp[0];
        }
      }
    }
  }
}
