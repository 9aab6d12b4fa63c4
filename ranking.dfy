/**
 * The ranking step of the search endpoint (backend/app.py): the row indices
 * of the similarity scores in ascending score order (`argsort`), the last `k`
 * of them (`[-k:]`, with Python's slice rules for any integer `k`), reversed
 * into descending order (`[::-1]`). Scores are real numbers.
 */
module Ranking {
  import opened Seqs

  /** Every index names a row of a score vector of length `n`. */
  predicate InRange(idx: seq<nat>, n: nat) {
    forall a :: 0 <= a < |idx| ==> idx[a] < n
  }

  /** The indices name rows of `scores` and are in ascending score order. */
  ghost predicate Ascending(scores: seq<real>, idx: seq<nat>) {
    && InRange(idx, |scores|)
    && forall a, b :: 0 <= a < b < |idx| ==> scores[idx[a]] <= scores[idx[b]]
  }

  /**
   * Row `i` placed into an ascending order of other rows, before the first
   * row with a strictly higher score (so rows of equal score keep their
   * order of insertion).
   */
  function Insert(scores: seq<real>, i: nat, sorted: seq<nat>): (r: seq<nat>)
    requires i < |scores| && InRange(sorted, |scores|)
    ensures |r| == |sorted| + 1
    ensures InRange(r, |scores|)
    ensures forall x :: x in r <==> x == i || x in sorted
  {
    if sorted == [] then [i]
    else if scores[i] < scores[sorted[0]] then [i] + sorted
    else
      assert forall x :: x in sorted <==> x == sorted[0] || x in sorted[1..];
      [sorted[0]] + Insert(scores, i, sorted[1..])
  }

  /** A row in front of an ascending order that scores no higher than its first row. */
  lemma AscendingCons(scores: seq<real>, x: nat, sorted: seq<nat>)
    requires x < |scores| && Ascending(scores, sorted)
    requires forall b :: 0 <= b < |sorted| ==> scores[x] <= scores[sorted[b]]
    ensures Ascending(scores, [x] + sorted)
  {
    var r := [x] + sorted;
    forall a, b | 0 <= a < b < |r|
      ensures scores[r[a]] <= scores[r[b]]
    {
      assert r[b] == sorted[b - 1];
      if a > 0 {
        assert r[a] == sorted[a - 1];
      }
    }
  }

  /** Inserting keeps the order ascending. */
  lemma {:induction false} InsertAscending(scores: seq<real>, i: nat, sorted: seq<nat>)
    requires i < |scores| && Ascending(scores, sorted)
    ensures Ascending(scores, Insert(scores, i, sorted))
  {
    if sorted == [] {
    } else if scores[i] < scores[sorted[0]] {
      AscendingCons(scores, i, sorted);
    } else {
      var tail := sorted[1..];
      assert forall b :: 0 <= b < |tail| ==> tail[b] == sorted[b + 1];
      InsertAscending(scores, i, tail);
      var rest := Insert(scores, i, tail);
      forall b | 0 <= b < |rest|
        ensures scores[sorted[0]] <= scores[rest[b]]
      {
        assert rest[b] in rest;
        if rest[b] != i {
          var c :| 0 <= c < |tail| && tail[c] == rest[b];
        }
      }
      AscendingCons(scores, sorted[0], rest);
    }
  }

  /** Inserting a row not yet present repeats no row. */
  lemma {:induction false} InsertDistinct(scores: seq<real>, i: nat, sorted: seq<nat>)
    requires i < |scores| && InRange(sorted, |scores|)
    requires Distinct(sorted) && i !in sorted
    ensures Distinct(Insert(scores, i, sorted))
  {
    if sorted == [] {
    } else if scores[i] < scores[sorted[0]] {
      DistinctCons(i, sorted);
    } else {
      var tail := sorted[1..];
      InsertDistinct(scores, i, tail);
      assert sorted[0] !in tail;
      DistinctCons(sorted[0], Insert(scores, i, tail));
    }
  }

  /** The rows `0 .. n-1` in ascending score order, rows of equal score by row number. */
  function ArgSortPrefix(scores: seq<real>, n: nat): (r: seq<nat>)
    requires n <= |scores|
    ensures |r| == n
    ensures Ascending(scores, r)
    ensures Distinct(r)
    ensures forall x :: x in r <==> 0 <= x < n
  {
    if n == 0 then []
    else
      var prev := ArgSortPrefix(scores, n - 1);
      InsertAscending(scores, n - 1, prev);
      InsertDistinct(scores, n - 1, prev);
      Insert(scores, n - 1, prev)
  }

  /** `argsort()`: every row exactly once, in ascending score order. */
  function ArgSort(scores: seq<real>): (r: seq<nat>)
    ensures |r| == |scores|
    ensures Ascending(scores, r)
    ensures Distinct(r)
    ensures forall x :: x in r <==> 0 <= x < |scores|
  {
    ArgSortPrefix(scores, |scores|)
  }

  /** Where Python's `s[start:]` begins in a sequence of length `n`. */
  function SliceStart(n: nat, start: int): (b: nat)
    ensures b <= n
    ensures n - b == TopKCount(n, -start)
  {
    if start >= 0 then (if start <= n then start else n)
    else if n + start >= 0 then n + start
    else 0
  }

  /** `s[::-1]`. */
  function Reverse<T>(s: seq<T>): (r: seq<T>)
    ensures |r| == |s|
    ensures forall a :: 0 <= a < |s| ==> r[a] == s[|s| - 1 - a]
  {
    seq(|s|, a requires 0 <= a < |s| => s[|s| - 1 - a])
  }

  /** `scores.argsort()[-k:][::-1]`. */
  function TopK(scores: seq<real>, k: int): (top: seq<nat>)
    ensures |top| == TopKCount(|scores|, k)
    ensures InRange(top, |scores|)
  {
    var order := ArgSort(scores);
    Reverse(order[SliceStart(|order|, -k)..])
  }

  /**
   * How many rows `[-k:]` keeps out of `n`: `k` of them (or all, when there
   * are fewer) for a positive `k`, all of them for `k == 0` (`[-0:]` is
   * `[0:]`), and all but the first `-k` for a negative `k`.
   */
  function TopKCount(n: nat, k: int): nat {
    if k >= 1 then (if k <= n then k else n)
    else if k == 0 then n
    else if -k <= n then n + k
    else 0
  }

  /**
   * `top` is a ranking of `count` rows of `scores`: no row twice, in
   * descending score order, and no row left out scores higher than a row
   * kept.
   */
  ghost predicate IsTopSelection(scores: seq<real>, count: nat, top: seq<nat>) {
    && |top| == count
    && Distinct(top)
    && InRange(top, |scores|)
    && (forall a, b :: 0 <= a < b < |top| ==> scores[top[a]] >= scores[top[b]])
    && (forall j, a :: 0 <= j < |scores| && j !in top && 0 <= a < |top| ==> scores[j] <= scores[top[a]])
  }

  /** Rank `a` of the result is position `n - 1 - a` of the ascending order. */
  lemma TopKPositions(scores: seq<real>, k: int)
    ensures var n := |scores|;
            var top := TopK(scores, k);
            && |top| == n - SliceStart(n, -k)
            && forall a :: 0 <= a < |top| ==> top[a] == ArgSort(scores)[n - 1 - a]
  {
  }

  /** The result lists distinct rows, best first. */
  lemma TopKDescending(scores: seq<real>, k: int)
    ensures var top := TopK(scores, k);
            && Distinct(top)
            && InRange(top, |scores|)
            && forall a, c :: 0 <= a < c < |top| ==> scores[top[a]] >= scores[top[c]]
  {
    var n := |scores|;
    var order := ArgSort(scores);
    var top := TopK(scores, k);
    TopKPositions(scores, k);
    forall a, c | 0 <= a < c < |top|
      ensures top[a] != top[c] && scores[top[a]] >= scores[top[c]]
    {
      assert top[a] == order[n - 1 - a] && top[c] == order[n - 1 - c];
    }
  }

  /** A row in the kept part of the ascending order is returned. */
  lemma RowInSuffixIsReturned(scores: seq<real>, k: int, p: nat)
    requires p < |scores|
    ensures p >= SliceStart(|scores|, -k) ==> ArgSort(scores)[p] in TopK(scores, k)
  {
    TopKPositions(scores, k);
    var n := |scores|;
    if p >= SliceStart(n, -k) {
      assert TopK(scores, k)[n - 1 - p] == ArgSort(scores)[p];
    }
  }

  /** No row left out of the result scores higher than a row in it. */
  lemma TopKDominates(scores: seq<real>, k: int)
    ensures var top := TopK(scores, k);
            forall j, a :: 0 <= j < |scores| && j !in top && 0 <= a < |top| ==> scores[j] <= scores[top[a]]
  {
    var n := |scores|;
    var order := ArgSort(scores);
    var top := TopK(scores, k);
    var b := SliceStart(n, -k);
    TopKPositions(scores, k);
    forall j, a | 0 <= j < n && j !in top && 0 <= a < |top|
      ensures scores[j] <= scores[top[a]]
    {
      assert j in order;
      var p :| 0 <= p < n && order[p] == j;
      RowInSuffixIsReturned(scores, k, p);
      assert p < b;
      assert top[a] == order[n - 1 - a];
    }
  }

  /**
   * The rows the search returns: `TopKCount` of them, each at most once, best
   * first, and none better than the rows it returns left out.
   */
  lemma TopKSelects(scores: seq<real>, k: int)
    ensures IsTopSelection(scores, TopKCount(|scores|, k), TopK(scores, k))
  {
    TopKPositions(scores, k);
    TopKDescending(scores, k);
    TopKDominates(scores, k);
  }

  /** When `k` is zero or at least the number of rows, every row is returned. */
  lemma TopKKeepsAll(scores: seq<real>, k: int)
    requires k == 0 || k >= |scores|
    ensures forall j :: 0 <= j < |scores| ==> j in TopK(scores, k)
  {
    var n := |scores|;
    var order := ArgSort(scores);
    var top := TopK(scores, k);
    TopKPositions(scores, k);
    forall j | 0 <= j < n
      ensures j in top
    {
      assert j in order;
      var p :| 0 <= p < n && order[p] == j;
      assert top[n - 1 - p] == j;
    }
  }
}
