/** The report's percentile rule: pick by index, no interpolation. On `N`
    ascending latencies, percentile `p` is the element at index
    `floor(N * p / 100)`, pulled back to the last index when that runs past
    the end; an empty list gives 0. */
module Percentiles {
  import opened Sorting

  /** The index `percentile` reads, for `n` values. */
  function PercentileIndex(n: nat, p: nat): (i: nat)
    requires n > 0
    ensures i < n
  {
    var raw := n * p / 100;
    if raw >= n then n - 1 else raw
  }

  function Percentile(sorted: seq<int>, p: nat): (r: int)
    ensures |sorted| == 0 ==> r == 0
    ensures |sorted| > 0 ==> r in sorted
  {
    if |sorted| == 0 then 0 else sorted[PercentileIndex(|sorted|, p)]
  }

  lemma ProductBelow(n: nat, p: nat)
    requires n > 0 && p < 100
    ensures n * p < n * 100
  {
  }

  lemma ProductMonotone(n: nat, p: nat, q: nat)
    requires p <= q
    ensures n * p <= n * q
  {
  }

  /** Below 100 the index is the plain floor and needs no clamping; `p = 0`
      reads the first element and any `p` of 100 or more reads the last. */
  lemma PercentileIndexCases(n: nat, p: nat)
    requires n > 0
    ensures p < 100 ==> PercentileIndex(n, p) == n * p / 100
    ensures p == 0 ==> PercentileIndex(n, p) == 0
    ensures p >= 100 ==> PercentileIndex(n, p) == n - 1
  {
    if p < 100 {
      ProductBelow(n, p);
    } else {
      ProductMonotone(n, 100, p);
    }
  }

  /** A larger percentile never reads an earlier index. */
  lemma PercentileIndexMonotone(n: nat, p: nat, q: nat)
    requires n > 0 && p <= q
    ensures PercentileIndex(n, p) <= PercentileIndex(n, q)
  {
    ProductMonotone(n, p, q);
  }

  /** On an ascending list, the percentile is monotone in `p`. */
  lemma PercentileMonotone(sorted: seq<int>, p: nat, q: nat)
    requires Sorted(sorted) && p <= q
    ensures Percentile(sorted, p) <= Percentile(sorted, q)
  {
    if |sorted| > 0 {
      PercentileIndexMonotone(|sorted|, p, q);
    }
  }

  /** Percentile 0 is the first element, and percentile 100 or more is the
      last: on an ascending list, the minimum and the maximum. */
  lemma PercentileEnds(sorted: seq<int>, p: nat)
    requires |sorted| > 0
    ensures Percentile(sorted, 0) == sorted[0]
    ensures p >= 100 ==> Percentile(sorted, p) == sorted[|sorted| - 1]
  {
    PercentileIndexCases(|sorted|, 0);
    PercentileIndexCases(|sorted|, p);
  }

  /** On an ascending list every percentile lies between the first and the last
      element, and at least `floor(N * p / 100)` elements (or all but one,
      when that is smaller) come at or before it. */
  lemma PercentileRank(sorted: seq<int>, p: nat)
    requires Sorted(sorted) && |sorted| > 0
    ensures sorted[0] <= Percentile(sorted, p) <= sorted[|sorted| - 1]
    ensures forall i :: 0 <= i <= PercentileIndex(|sorted|, p) ==> sorted[i] <= Percentile(sorted, p)
    ensures forall i :: PercentileIndex(|sorted|, p) <= i < |sorted| ==> Percentile(sorted, p) <= sorted[i]
  {
  }
}
