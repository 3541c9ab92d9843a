/**
 * The two list idioms the source leans on: Python's stable sort (list.sort and
 * sorted, which keep equal elements in input order, also with reverse=True),
 * and "keep the first element of each key" de-duplication through a seen set.
 */
module Seqs {

  /** le(a, b) says that a may stand before b: total and transitive. */
  ghost predicate TotalPreorder<T(!new)>(le: (T, T) -> bool) {
    && (forall a, b :: le(a, b) || le(b, a))
    && (forall a, b, c :: le(a, b) && le(b, c) ==> le(a, c))
  }

  ghost predicate Sorted<T>(s: seq<T>, le: (T, T) -> bool) {
    forall i, j :: 0 <= i < j < |s| ==> le(s[i], s[j])
  }

  /** Place x after every leading element that may stand before it. */
  function Insert<T>(t: seq<T>, x: T, le: (T, T) -> bool): (r: seq<T>)
    ensures |r| == |t| + 1
    ensures multiset(r) == multiset(t) + multiset{x}
  {
    if t == [] then [x]
    else if le(t[0], x) then
      assert t == [t[0]] + t[1..];
      [t[0]] + Insert(t[1..], x, le)
    else [x] + t
  }

  /** A stable sort: insertion of each element, in input order. */
  function Sort<T>(s: seq<T>, le: (T, T) -> bool): (r: seq<T>)
    ensures |r| == |s|
    ensures multiset(r) == multiset(s)
  {
    if s == [] then []
    else
      assert s == s[..|s| - 1] + [s[|s| - 1]];
      Insert(Sort(s[..|s| - 1], le), s[|s| - 1], le)
  }

  lemma {:induction false} InsertSorted<T(!new)>(t: seq<T>, x: T, le: (T, T) -> bool)
    requires TotalPreorder(le) && Sorted(t, le)
    ensures Sorted(Insert(t, x, le), le)
  {
    if t != [] {
      if le(t[0], x) {
        InsertSorted(t[1..], x, le);
        var r := Insert(t, x, le);
        assert r == [t[0]] + Insert(t[1..], x, le);
        forall j | 0 < j < |r| ensures le(r[0], r[j]) {
          assert r[j] in multiset(Insert(t[1..], x, le));
          assert r[j] in multiset(t[1..]) || r[j] == x;
          if r[j] != x {
            var k :| 0 <= k < |t[1..]| && t[1..][k] == r[j];
            assert t[k + 1] == r[j];
          }
        }
      } else {
        assert le(x, t[0]);
      }
    }
  }

  /** The sort puts every pair in order. */
  lemma {:induction false} SortSorted<T(!new)>(s: seq<T>, le: (T, T) -> bool)
    requires TotalPreorder(le)
    ensures Sorted(Sort(s, le), le)
  {
    if s != [] {
      SortSorted(s[..|s| - 1], le);
      InsertSorted(Sort(s[..|s| - 1], le), s[|s| - 1], le);
    }
  }

  ghost predicate Equivalent<T>(le: (T, T) -> bool, a: T, b: T) {
    le(a, b) && le(b, a)
  }

  /** The elements of s that rank equal to x, in their order in s. */
  ghost function Class<T>(s: seq<T>, le: (T, T) -> bool, x: T): seq<T> {
    if s == [] then []
    else Class(s[..|s| - 1], le, x) + (if Equivalent(le, s[|s| - 1], x) then [s[|s| - 1]] else [])
  }

  lemma {:induction false} ClassAppend<T>(a: seq<T>, b: seq<T>, le: (T, T) -> bool, x: T)
    ensures Class(a + b, le, x) == Class(a, le, x) + Class(b, le, x)
    decreases |b|
  {
    if b == [] {
      assert a + b == a;
    } else {
      assert (a + b)[..|a + b| - 1] == a + b[..|b| - 1];
      ClassAppend(a, b[..|b| - 1], le, x);
    }
  }

  lemma {:induction false} InsertClass<T(!new)>(t: seq<T>, y: T, le: (T, T) -> bool, x: T)
    requires TotalPreorder(le) && Sorted(t, le)
    ensures Class(Insert(t, y, le), le, x) == Class(t, le, x) + (if Equivalent(le, y, x) then [y] else [])
  {
    var e := if Equivalent(le, y, x) then [y] else [];
    assert Class([y], le, x) == e by {
      assert [y][..0] == [];
    }
    if t == [] {
      assert Class(t, le, x) == [];
    } else if le(t[0], y) {
      assert Sorted(t[1..], le);
      InsertClass(t[1..], y, le, x);
      InsertClassPastHead(t, y, le, x, e);
    } else {
      InsertClassBeforeHead(t, y, le, x);
    }
  }

  /** Insertion in front of the head: nothing in t ranks with y, so y's class gains y alone. */
  lemma InsertClassBeforeHead<T(!new)>(t: seq<T>, y: T, le: (T, T) -> bool, x: T)
    requires TotalPreorder(le) && Sorted(t, le) && t != [] && !le(t[0], y)
    ensures Class(Insert(t, y, le), le, x) == Class(t, le, x) + (if Equivalent(le, y, x) then [y] else [])
  {
    assert Insert(t, y, le) == [y] + t;
    assert Class([y], le, x) == (if Equivalent(le, y, x) then [y] else []) by {
      assert [y][..0] == [];
    }
    ClassAppend([y], t, le, x);
    if Equivalent(le, y, x) {
      NoneEquivalent(t, y, le, x);
    }
  }

  /** Insertion past the head: the head's class contribution stays in front. */
  lemma InsertClassPastHead<T>(t: seq<T>, y: T, le: (T, T) -> bool, x: T, e: seq<T>)
    requires t != [] && le(t[0], y)
    requires Class(Insert(t[1..], y, le), le, x) == Class(t[1..], le, x) + e
    ensures Class(Insert(t, y, le), le, x) == Class(t, le, x) + e
  {
    var h, rest := [t[0]], t[1..];
    assert Insert(t, y, le) == h + Insert(rest, y, le);
    ClassAppend(h, Insert(rest, y, le), le, x);
    ClassAppend(h, rest, le, x);
    assert h + rest == t;
    AppendAssoc(Class(h, le, x), Class(rest, le, x), e);
  }

  /** In a sorted t whose head ranks after y, nothing ranks with y. */
  lemma {:induction false} NoneEquivalent<T(!new)>(t: seq<T>, y: T, le: (T, T) -> bool, x: T)
    requires TotalPreorder(le) && Sorted(t, le) && t != [] && !le(t[0], y)
    requires Equivalent(le, y, x)
    ensures Class(t, le, x) == []
    decreases |t|
  {
    var n := |t|;
    if n > 1 {
      assert Sorted(t[..n - 1], le);
      assert t[..n - 1][0] == t[0];
      NoneEquivalent(t[..n - 1], y, le, x);
    }
    assert n == 1 || le(t[0], t[n - 1]);
    assert !Equivalent(le, t[n - 1], x);
  }

  /** Stability: elements that rank equal keep their input order. */
  lemma {:induction false} SortStable<T(!new)>(s: seq<T>, le: (T, T) -> bool, x: T)
    requires TotalPreorder(le)
    ensures Class(Sort(s, le), le, x) == Class(s, le, x)
  {
    if s != [] {
      SortStable(s[..|s| - 1], le, x);
      SortSorted(s[..|s| - 1], le);
      InsertClass(Sort(s[..|s| - 1], le), s[|s| - 1], le, x);
    }
  }

  function KeySet<T, K>(s: seq<T>, key: T -> K): set<K> {
    set i | 0 <= i < |s| :: key(s[i])
  }

  lemma KeySetAppend<T, K>(s: seq<T>, x: T, key: T -> K)
    ensures KeySet(s + [x], key) == KeySet(s, key) + {key(x)}
  {
    var t := s + [x];
    forall k | k in KeySet(t, key) ensures k in KeySet(s, key) + {key(x)} {
      var i :| 0 <= i < |t| && key(t[i]) == k;
      if i < |s| {
        assert t[i] == s[i];
      }
    }
    forall k | k in KeySet(s, key) ensures k in KeySet(t, key) {
      var i :| 0 <= i < |s| && key(s[i]) == k;
      assert t[i] == s[i];
    }
    assert t[|s|] == x;
  }

  /** Keep the first element of each key, in order (a loop over a seen set). */
  function DedupBy<T, K(==)>(s: seq<T>, key: T -> K): (r: seq<T>)
    ensures forall i, j :: 0 <= i < j < |r| ==> key(r[i]) != key(r[j])
    ensures KeySet(r, key) == KeySet(s, key)
    ensures forall i :: 0 <= i < |r| ==> r[i] in s
  {
    if s == [] then []
    else
      var prev := s[..|s| - 1];
      var x := s[|s| - 1];
      assert s == prev + [x];
      var r := DedupBy(prev, key);
      KeySetAppend(prev, x, key);
      if key(x) in KeySet(r, key) then r
      else
        KeySetAppend(r, x, key);
        assert forall i :: 0 <= i < |r| ==> key(r[i]) in KeySet(r, key);
        r + [x]
  }

  /** One more element, as the seen-set loop handles it. */
  lemma DedupByAppend<T, K>(s: seq<T>, x: T, key: T -> K)
    ensures DedupBy(s + [x], key) ==
      if key(x) in KeySet(DedupBy(s, key), key) then DedupBy(s, key) else DedupBy(s, key) + [x]
  {
    assert (s + [x])[..|s|] == s;
  }

  /** One iteration of a seen-set loop: keep x unless its key was seen already. */
  method AddUnseen<T, K(==)>(kept: seq<T>, seen: set<K>, x: T, key: T -> K, ghost done: seq<T>)
    returns (kept': seq<T>, seen': set<K>)
    requires kept == DedupBy(done, key) && seen == KeySet(kept, key)
    ensures kept' == DedupBy(done + [x], key) && seen' == KeySet(kept', key)
  {
    DedupByAppend(done, x, key);
    kept', seen' := kept, seen;
    if key(x) !in seen {
      KeySetAppend(kept, x, key);
      kept' := kept + [x];
      seen' := seen + {key(x)};
    }
  }

  ghost predicate FirstOfKey<T, K>(s: seq<T>, key: T -> K, i: int) {
    0 <= i < |s| && forall j :: 0 <= j < i ==> key(s[j]) != key(s[i])
  }

  /** The kept element of each key is its first occurrence. */
  lemma {:induction false} DedupKeepsFirst<T, K>(s: seq<T>, key: T -> K, i: int)
    requires FirstOfKey(s, key, i)
    ensures s[i] in DedupBy(s, key)
  {
    var n := |s|;
    var prev := s[..n - 1];
    if i < n - 1 {
      assert FirstOfKey(prev, key, i);
      DedupKeepsFirst(prev, key, i);
    } else {
      assert key(s[i]) !in KeySet(prev, key);
    }
  }

  /** Only first occurrences survive. */
  lemma {:induction false} DedupOnlyFirst<T, K>(s: seq<T>, key: T -> K, y: T)
    requires y in DedupBy(s, key)
    ensures exists i :: FirstOfKey(s, key, i) && s[i] == y
  {
    var n := |s|;
    var prev := s[..n - 1];
    var r := DedupBy(prev, key);
    if y in r {
      DedupOnlyFirst(prev, key, y);
      var i :| FirstOfKey(prev, key, i) && prev[i] == y;
      assert FirstOfKey(s, key, i);
    } else {
      assert y == s[n - 1] && key(y) !in KeySet(prev, key);
      forall j | 0 <= j < n - 1 ensures key(s[j]) != key(s[n - 1]) {
        assert key(prev[j]) in KeySet(prev, key);
      }
      assert FirstOfKey(s, key, n - 1);
    }
  }

  /** De-duplication keeps any order the input already had. */
  lemma {:induction false} DedupSorted<T, K>(s: seq<T>, key: T -> K, le: (T, T) -> bool)
    requires Sorted(s, le)
    ensures Sorted(DedupBy(s, key), le)
  {
    if s != [] {
      var n := |s|;
      var prev, x := s[..n - 1], s[n - 1];
      assert Sorted(prev, le);
      DedupSorted(prev, key, le);
      var r := DedupBy(prev, key);
      forall i | 0 <= i < |r| ensures le(r[i], x) {
        var k :| 0 <= k < |prev| && prev[k] == r[i];
        assert s[k] == r[i];
      }
      var d := DedupBy(s, key);
      assert d == r || d == r + [x];
      forall i, j | 0 <= i < j < |d| ensures le(d[i], d[j]) {
        if j < |r| {
          assert d[i] == r[i] && d[j] == r[j];
        } else {
          assert d[i] == r[i] && d[j] == x;
        }
      }
    }
  }

  lemma AppendAssoc<T>(a: seq<T>, b: seq<T>, c: seq<T>)
    ensures a + (b + c) == (a + b) + c
  {
  }

  lemma AppendEmpty<T>(s: seq<T>)
    ensures s + [] == s
  {
  }

  lemma SliceOfPrefix<T>(s: seq<T>, q: nat, a: nat, b: nat)
    requires a <= b <= q <= |s|
    ensures s[..q][a..b] == s[a..b]
  {
  }

  /** f applied to every element, in order. */
  function MapSeq<T, U>(s: seq<T>, f: T -> U): (r: seq<U>)
    ensures |r| == |s|
  {
    if s == [] then [] else MapSeq(s[..|s| - 1], f) + [f(s[|s| - 1])]
  }

  lemma {:induction false} MapSeqAt<T, U>(s: seq<T>, f: T -> U, i: nat)
    requires i < |s|
    ensures MapSeq(s, f)[i] == f(s[i])
  {
    if i < |s| - 1 {
      MapSeqAt(s[..|s| - 1], f, i);
    }
  }

  lemma {:induction false} MapAppend<T, U>(a: seq<T>, b: seq<T>, f: T -> U)
    ensures MapSeq(a + b, f) == MapSeq(a, f) + MapSeq(b, f)
    decreases |b|
  {
    if b == [] {
      assert a + b == a;
    } else {
      var n := |b|;
      assert (a + b)[..|a + b| - 1] == a + b[..n - 1];
      MapAppend(a, b[..n - 1], f);
    }
  }

  /** Removing the element at j removes one copy of it. */
  lemma RemoveAt<T>(b: seq<T>, j: nat)
    requires j < |b|
    ensures b == b[..j] + [b[j]] + b[j + 1..]
    ensures multiset(b[..j] + b[j + 1..]) == multiset(b) - multiset{b[j]}
  {
    assert b == b[..j] + [b[j]] + b[j + 1..];
  }

  /** Putting one element back on both sides keeps two permutations permutations. */
  lemma PutBack<U>(ma: seq<U>, m1: seq<U>, m2: seq<U>, y: U)
    requires multiset(ma) == multiset(m1 + m2)
    ensures multiset(ma + [y]) == multiset((m1 + [y]) + m2)
  {
  }

  /** Mapping two permutations of each other gives permutations of each other. */
  lemma {:induction false} MapMultiset<T, U>(a: seq<T>, b: seq<T>, f: T -> U)
    requires multiset(a) == multiset(b)
    ensures multiset(MapSeq(a, f)) == multiset(MapSeq(b, f))
    decreases |a|
  {
    if a == [] {
      assert |b| == |multiset(b)| == 0;
    } else {
      var n := |a|;
      var x := a[n - 1];
      RemoveAt(a, n - 1);
      assert a[n..] == [];
      assert x in multiset(b);
      var j :| 0 <= j < |b| && b[j] == x;
      RemoveAt(b, j);
      var rest := b[..j] + b[j + 1..];
      MapMultiset(a[..n - 1], rest, f);
      var ma, m1, m2 := MapSeq(a[..n - 1], f), MapSeq(b[..j], f), MapSeq(b[j + 1..], f);
      MapAppend(a[..n - 1], [x], f);
      MapAppend(b[..j], [x], f);
      MapAppend(b[..j] + [x], b[j + 1..], f);
      MapAppend(b[..j], b[j + 1..], f);
      assert MapSeq([x], f) == [f(x)];
      PutBack(ma, m1, m2, f(x));
    }
  }
}
