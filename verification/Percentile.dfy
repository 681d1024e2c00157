/** Nearest-rank percentiles of a benchmark sample. */
module Percentile {
  import Sorting

  predicate AtMost(a: real, b: real) {
    a <= b
  }

  /** Rounding to the nearest integer, halves away from zero. */
  function Round(x: real): int {
    if x >= 0.0 then (x + 0.5).Floor else 0 - (0.5 - x).Floor
  }

  /** A conversion to an unsigned integer, which takes negative values to zero. */
  function Saturate(n: int): nat {
    if n < 0 then 0 else n
  }

  function Rank(n: nat, p: real): nat
    requires n > 0
  {
    Saturate(Round(p / 100.0 * (n as real - 1.0)))
  }

  function Min(a: nat, b: nat): nat {
    if a <= b then a else b
  }

  function Percentile(values: seq<real>, p: real): real {
    if values == [] then 0.0
    else
      Sorting.SortSorts(AtMost, values);
      Sorting.Sort(AtMost, values)[Min(Rank(|values|, p), |values| - 1)]
  }

  lemma AtMostIsTotalOrder()
    ensures Sorting.TotalOrder(AtMost)
  {
  }

  lemma RoundIsMonotone(x: real, y: real)
    requires x <= y
    ensures Round(x) <= Round(y)
  {
  }

  lemma ScaledIsMonotone(p: real, q: real, m: real)
    requires p <= q && m >= 0.0
    ensures p / 100.0 * m <= q / 100.0 * m
  {
    assert p / 100.0 <= q / 100.0;
    var a, b := p / 100.0, q / 100.0;
    assert (b - a) * m >= 0.0;
    assert b * m == a * m + (b - a) * m;
  }

  lemma RankIsMonotone(n: nat, p: real, q: real)
    requires n > 0 && p <= q
    ensures Rank(n, p) <= Rank(n, q)
  {
    ScaledIsMonotone(p, q, n as real - 1.0);
    RoundIsMonotone(p / 100.0 * (n as real - 1.0), q / 100.0 * (n as real - 1.0));
  }

  /** Within 0 to 100 the rank is a position of the sample, so the clamp to the last one does nothing;
      0 and 100 are its ends. */
  lemma RankIsAPosition(n: nat, p: real)
    requires n > 0 && 0.0 <= p <= 100.0
    ensures Rank(n, p) <= n - 1
    ensures Rank(n, 0.0) == 0 && Rank(n, 100.0) == n - 1
  {
    RankIsMonotone(n, p, 100.0);
    assert 100.0 / 100.0 * (n as real - 1.0) == n as real - 1.0;
    assert 0.0 / 100.0 * (n as real - 1.0) == 0.0;
    assert (n as real - 1.0 + 0.5).Floor == n - 1;
  }

  /** The rank is the position nearest to the fraction, the upper one of two that are equally near. */
  lemma RankIsNearest(n: nat, p: real)
    requires n > 0 && 0.0 <= p <= 100.0
    ensures var exact := p / 100.0 * (n as real - 1.0);
      exact - 0.5 < Rank(n, p) as real <= exact + 0.5
  {
    ScaledIsMonotone(0.0, p, n as real - 1.0);
  }

  // ----- how many lie on either side -----

  function Count(xs: seq<real>, holds: real -> bool): nat {
    if xs == [] then 0 else (if holds(xs[0]) then 1 else 0) + Count(xs[1..], holds)
  }

  lemma {:induction false} CountOfInsert(x: real, xs: seq<real>, holds: real -> bool)
    ensures Count(Sorting.Insert(AtMost, x, xs), holds) == (if holds(x) then 1 else 0) + Count(xs, holds)
  {
    if xs == [] {
    } else if x <= xs[0] {
      assert ([x] + xs)[1..] == xs;
    } else {
      CountOfInsert(x, xs[1..], holds);
      var rest := Sorting.Insert(AtMost, x, xs[1..]);
      assert ([xs[0]] + rest)[1..] == rest;
    }
  }

  lemma {:induction false} CountOfSort(xs: seq<real>, holds: real -> bool)
    ensures Count(Sorting.Sort(AtMost, xs), holds) == Count(xs, holds)
  {
    if xs != [] {
      CountOfSort(xs[1..], holds);
      CountOfInsert(xs[0], Sorting.Sort(AtMost, xs[1..]), holds);
    }
  }

  /** If `holds` is true from `from` up to `to`, it is true of that many elements at least. */
  lemma {:induction false} CountOfStretch(xs: seq<real>, holds: real -> bool, from: nat, to: nat)
    requires from <= to <= |xs| && forall i :: from <= i < to ==> holds(xs[i])
    ensures Count(xs, holds) >= to - from
  {
    if from < to {
      if from == 0 {
        CountOfStretch(xs[1..], holds, 0, to - 1);
      } else {
        CountOfStretch(xs[1..], holds, from - 1, to - 1);
      }
    }
  }

  lemma AtOrBelow(sorted: seq<real>, k: nat)
    requires k < |sorted| && Sorting.Sorted(AtMost, sorted)
    ensures Count(sorted, x => x <= sorted[k]) >= k + 1
  {
    forall i | 0 <= i < k ensures sorted[i] <= sorted[k] {
      assert AtMost(sorted[i], sorted[k]);
    }
    CountOfStretch(sorted, x => x <= sorted[k], 0, k + 1);
  }

  lemma AtOrAbove(sorted: seq<real>, k: nat)
    requires k < |sorted| && Sorting.Sorted(AtMost, sorted)
    ensures Count(sorted, x => x >= sorted[k]) >= |sorted| - k
  {
    forall i | k < i < |sorted| ensures sorted[i] >= sorted[k] {
      assert AtMost(sorted[k], sorted[i]);
    }
    CountOfStretch(sorted, x => x >= sorted[k], k, |sorted|);
  }

  /** The percentile is a value of the sample with rank + 1 values at or below it and n - rank at or above it. */
  lemma PercentileSplitsTheSample(values: seq<real>, p: real)
    requires 0.0 <= p <= 100.0
    ensures var r := Percentile(values, p);
      if values == [] then r == 0.0
      else && r in values
           && Count(values, x => x <= r) >= Rank(|values|, p) + 1
           && Count(values, x => x >= r) >= |values| - Rank(|values|, p)
  {
    if values == [] {
      return;
    }
    hide Count, Rank, Sorting.Sort, Sorting.Sorted;
    var sorted, rank := Sorting.Sort(AtMost, values), Rank(|values|, p);
    RankIsAPosition(|values|, p);
    AtMostIsTotalOrder();
    Sorting.SortSorts(AtMost, values);
    var r := Percentile(values, p);
    assert r == sorted[rank];
    assert r in multiset(sorted);
    AtOrBelow(sorted, rank);
    AtOrAbove(sorted, rank);
    CountOfSort(values, x => x <= r);
    CountOfSort(values, x => x >= r);
  }

  /** The order of the sample does not matter. */
  lemma PercentileIgnoresOrder(a: seq<real>, b: seq<real>, p: real)
    requires multiset(a) == multiset(b)
    ensures Percentile(a, p) == Percentile(b, p)
  {
    assert |multiset(a)| == |multiset(b)|;
    AtMostIsTotalOrder();
    Sorting.SortIgnoresOrder(AtMost, a, b);
  }

  /** A higher percentile is never a smaller value. */
  lemma PercentileIsMonotone(values: seq<real>, p: real, q: real)
    requires p <= q
    ensures Percentile(values, p) <= Percentile(values, q)
  {
    if values != [] {
      var n := |values|;
      RankIsMonotone(n, p, q);
      AtMostIsTotalOrder();
      Sorting.SortSorts(AtMost, values);
      var i, j := Min(Rank(n, p), n - 1), Min(Rank(n, q), n - 1);
      assert i < j ==> AtMost(Sorting.Sort(AtMost, values)[i], Sorting.Sort(AtMost, values)[j]);
    }
  }
}
