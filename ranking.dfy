/** The top-k selections of the scripts: pandas' `sort_values(ascending=False).head(k)` and
    `Counter.most_common(k)`, both a sort by score, largest first, followed by a prefix. */
module Ranking {
  import opened Common

  /** Non-increasing in score. */
  predicate SortedDesc<T>(s: seq<T>, score: T -> real) {
    forall i, j :: 0 <= i < j < |s| ==> score(s[i]) >= score(s[j])
  }

  /** Places `x` before the first element that does not score more than it. */
  function Insert<T>(x: T, s: seq<T>, score: T -> real): (r: seq<T>)
    requires SortedDesc(s, score)
    ensures multiset(r) == multiset(s) + multiset{x}
    ensures SortedDesc(r, score)
  {
    if s == [] || score(s[0]) <= score(x) then [x] + s
    else
      var rest := Insert(x, s[1..], score);
      assert s == [s[0]] + s[1..];
      HeadBound(s[0], s[1..], x, rest, score);
      [s[0]] + rest
  }

  /** A head that outscores `x` and is followed by a sorted tail can be put before any
      rearrangement of the tail with `x`. */
  lemma HeadBound<T>(h: T, tail: seq<T>, x: T, rest: seq<T>, score: T -> real)
    requires SortedDesc([h] + tail, score) && SortedDesc(rest, score)
    requires score(h) > score(x)
    requires multiset(rest) == multiset(tail) + multiset{x}
    ensures SortedDesc([h] + rest, score)
  {
    var s := [h] + rest;
    forall i, j | 0 <= i < j < |s| ensures score(s[i]) >= score(s[j]) {
      if i == 0 {
        var y := rest[j - 1];
        assert s[0] == h && s[j] == y;
        assert y in multiset(rest);
        if y != x {
          assert y in multiset(tail);
          var k :| 0 <= k < |tail| && tail[k] == y;
          assert ([h] + tail)[0] == h && ([h] + tail)[k + 1] == y;
        }
      } else {
        assert s[i] == rest[i - 1] && s[j] == rest[j - 1];
      }
    }
  }

  /** The elements of `s`, largest score first; equal scores keep their order. */
  function SortDesc<T>(s: seq<T>, score: T -> real): (r: seq<T>)
    ensures multiset(r) == multiset(s)
    ensures SortedDesc(r, score)
  {
    if s == [] then []
    else
      assert s == [s[0]] + s[1..];
      Insert(s[0], SortDesc(s[1..], score), score)
  }

  /** The `k` best-scoring elements, best first. */
  function TopK<T>(s: seq<T>, k: int, score: T -> real): seq<T> {
    TakePrefix(SortDesc(s, score), k)
  }

  /** The selection keeps `min(k, |s|)` of the elements, in non-increasing order. */
  lemma TopKSize<T>(s: seq<T>, k: int, score: T -> real)
    requires k >= 0
    ensures var r := TopK(s, k, score);
      && |r| == Min(k, |s|)
      && multiset(r) <= multiset(s)
      && SortedDesc(r, score)
  {
    var sorted := SortDesc(s, score);
    var r := TopK(s, k, score);
    assert sorted == r + sorted[|r|..];
    assert |sorted| == |multiset(sorted)| == |multiset(s)| == |s|;
    assert multiset(sorted) == multiset(r) + multiset(sorted[|r|..]);
    forall i, j | 0 <= i < j < |r| ensures score(r[i]) >= score(r[j]) {
      assert r[i] == sorted[i] && r[j] == sorted[j];
    }
  }

  /** A selection shorter than `k` keeps every element. */
  lemma TopKAll<T>(s: seq<T>, k: int, score: T -> real, x: T)
    requires k >= 0 && |TopK(s, k, score)| < k
    requires x in s
    ensures x in TopK(s, k, score)
  {
    var sorted := SortDesc(s, score);
    assert |sorted| == |multiset(sorted)| == |multiset(s)| == |s|;
    assert TopK(s, k, score) == sorted;
    assert multiset(s)[x] > 0;
  }

  /** No element left out of the selection (wholly, or in part for a repeated element) scores
      more than any element kept. */
  lemma TopKBound<T>(s: seq<T>, k: int, score: T -> real)
    requires k >= 0
    ensures var r := TopK(s, k, score);
      && (forall x, y :: x in s && y in r && multiset(r)[x] < multiset(s)[x] ==> score(x) <= score(y))
      && (forall x, y :: x in s && y in r && x !in r ==> score(x) <= score(y))
  {
    var r := TopK(s, k, score);
    forall x, y | x in s && y in r && multiset(r)[x] < multiset(s)[x] ensures score(x) <= score(y) {
      Outranked(s, k, score, x, y);
    }
    forall x, y | x in s && y in r && x !in r ensures score(x) <= score(y) {
      assert multiset(r)[x] == 0 < multiset(s)[x];
      Outranked(s, k, score, x, y);
    }
  }

  lemma Outranked<T>(s: seq<T>, k: int, score: T -> real, x: T, y: T)
    requires k >= 0
    requires y in TopK(s, k, score)
    requires multiset(TopK(s, k, score))[x] < multiset(s)[x]
    ensures score(x) <= score(y)
  {
    var sorted := SortDesc(s, score);
    var r := TopK(s, k, score);
    var n := |r|;
    var rest := sorted[n..];
    assert r == sorted[..n];
    assert sorted == r + rest;
    assert multiset(r + rest) == multiset(s);
    InTail(r, rest, x);
    var j :| 0 <= j < |rest| && rest[j] == x;
    var i :| 0 <= i < n && r[i] == y;
    assert sorted[i] == y && sorted[n + j] == x;
    assert i < n + j < |sorted|;
  }

  /** An element with more occurrences in `r + t` than in `r` occurs in `t`. */
  lemma InTail<T>(r: seq<T>, t: seq<T>, x: T)
    requires multiset(r)[x] < multiset(r + t)[x]
    ensures x in t
  {
    assert multiset(r + t) == multiset(r) + multiset(t);
  }

  /** Without repeats in the input there are none in the selection, and everything selected
      comes from the input. */
  lemma TopKDistinct<T>(s: seq<T>, k: int, score: T -> real)
    requires Distinct(s)
    ensures Distinct(TopK(s, k, score))
    ensures forall x :: x in TopK(s, k, score) ==> x in s
  {
    var sorted := SortDesc(s, score);
    var top := TopK(s, k, score);
    assert sorted == top + sorted[|top|..];
    assert multiset(top) <= multiset(s);
    forall x | x in top ensures x in s {
      assert x in multiset(top);
    }
    forall i, j | 0 <= i < j < |top| ensures top[i] != top[j] {
      CountAtMostOne(s, top[i]);
      TwoPositions(top, i, j);
    }
  }

  /** A rearrangement of a dictionary without repeated keys has none either. */
  lemma PermDistinctKeys<K, V>(s: seq<(K, V)>, t: seq<(K, V)>)
    requires multiset(s) == multiset(t) && DistinctKeys(s)
    ensures DistinctKeys(t)
  {
    assert Distinct(s) by {
      forall i, j | 0 <= i < j < |s| ensures s[i] != s[j] {
        assert s[i].0 != s[j].0;
      }
    }
    forall i, j | 0 <= i < j < |t| ensures t[i].0 != t[j].0 {
      assert t[i] in multiset(s) && t[j] in multiset(s);
      var a :| 0 <= a < |s| && s[a] == t[i];
      var b :| 0 <= b < |s| && s[b] == t[j];
      if t[i].0 == t[j].0 {
        assert a == b;
        CountAtMostOne(s, t[i]);
        TwoPositions(t, i, j);
      }
    }
  }

  /** An element of a sequence without repeats occurs in it at most once. */
  lemma {:induction false} CountAtMostOne<T>(s: seq<T>, x: T)
    requires Distinct(s)
    ensures multiset(s)[x] <= 1
  {
    if s != [] {
      assert s == [s[0]] + s[1..];
      assert Distinct(s[1..]);
      CountAtMostOne(s[1..], x);
      if x == s[0] {
        assert x !in s[1..];
      }
    }
  }

  /** Two positions holding the same element make it occur at least twice. */
  lemma TwoPositions<T>(t: seq<T>, i: nat, j: nat)
    requires i < j < |t|
    ensures multiset(t)[t[i]] >= if t[i] == t[j] then 2 else 1
  {
    assert t == t[..j] + t[j..];
    assert t[i] in t[..j];
    assert t[j] in t[j..];
  }
}
