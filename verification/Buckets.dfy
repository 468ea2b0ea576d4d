/** Quantile buckets over exact reals: interpolated edges, assignment and bounds. */
module Buckets {
  import opened Prelude
  import Sorting

  function Ascending(): (real, real) -> bool {
    (a: real, b: real) => a <= b
  }

  predicate Nondecreasing(xs: seq<real>) {
    forall i, j :: 0 <= i < j < |xs| ==> xs[i] <= xs[j]
  }

  // ---- quantiles --------------------------------------------------------------------------------

  function Blend(low: real, high: real, weight: real): real {
    low + (high - low) * weight
  }

  function PositionOf(q: real, n: nat): real {
    q * n as real
  }

  /** The value at a fractional position of a non-empty list. */
  function Interpolate(xs: seq<real>, position: real): real
    requires xs != [] && 0.0 <= position <= (|xs| - 1) as real
  {
    var low := position.Floor;
    if low as real == position then xs[low] else Blend(xs[low], xs[low + 1], position - low as real)
  }

  function Quantile(xs: seq<real>, q: real): real
    requires xs != []
  {
    if q <= 0.0 then xs[0]
    else if q >= 1.0 then Last(xs)
    else
      PositionInside(q, |xs| - 1);
      Interpolate(xs, PositionOf(q, |xs| - 1))
  }

  lemma {:induction false} ProductNotNegative(a: real, b: real)
    requires a >= 0.0 && b >= 0.0
    ensures a * b >= 0.0
  {
  }

  lemma {:induction false} PositionInside(q: real, n: nat)
    requires 0.0 <= q <= 1.0
    ensures 0.0 <= PositionOf(q, n) <= n as real
  {
    ProductNotNegative(q, n as real);
    ProductNotNegative(1.0 - q, n as real);
    assert (1.0 - q) * n as real == n as real - q * n as real;
  }

  lemma {:induction false} ProductAtLeast(a: real, b: real, c: real)
    requires a >= b && c >= 0.0
    ensures a * c >= b * c
  {
    ProductNotNegative(a - b, c);
    assert (a - b) * c == a * c - b * c;
  }

  lemma {:induction false} BlendBetween(low: real, high: real, weight: real)
    requires low <= high && 0.0 <= weight <= 1.0
    ensures low <= Blend(low, high, weight) <= high
  {
    var span := high - low;
    ProductNotNegative(span, weight);
    ProductNotNegative(span, 1.0 - weight);
    assert span * (1.0 - weight) == span - span * weight;
  }

  lemma {:induction false} BlendMonotone(low: real, high: real, a: real, b: real)
    requires low <= high && a <= b
    ensures Blend(low, high, a) <= Blend(low, high, b)
  {
    var span := high - low;
    ProductNotNegative(span, b - a);
    assert span * (b - a) == span * b - span * a;
  }

  lemma {:induction false} InterpolateBetween(xs: seq<real>, position: real)
    requires xs != [] && Nondecreasing(xs) && 0.0 <= position <= (|xs| - 1) as real
    ensures xs[position.Floor] <= Interpolate(xs, position)
    ensures position.Floor + 1 < |xs| ==> Interpolate(xs, position) <= xs[position.Floor + 1]
  {
    var low := position.Floor;
    if low as real != position {
      BlendBetween(xs[low], xs[low + 1], position - low as real);
    }
  }

  /** Interpolation never decreases with the position. */
  lemma {:induction false} InterpolateMonotone(xs: seq<real>, a: real, b: real)
    requires xs != [] && Nondecreasing(xs) && 0.0 <= a <= b <= (|xs| - 1) as real
    ensures Interpolate(xs, a) <= Interpolate(xs, b)
  {
    InterpolateBetween(xs, a);
    InterpolateBetween(xs, b);
    if a.Floor == b.Floor && a.Floor as real != a {
      BlendMonotone(xs[a.Floor], xs[a.Floor + 1], a - a.Floor as real, b - b.Floor as real);
    }
  }

  lemma {:induction false} PositionMonotone(p: real, q: real, n: nat)
    requires 0.0 <= p <= q <= 1.0
    ensures 0.0 <= PositionOf(p, n) <= PositionOf(q, n) <= n as real
  {
    PositionInside(p, n);
    PositionInside(q, n);
    ProductAtLeast(q, p, n as real);
  }

  lemma {:induction false} QuantileInside(xs: seq<real>, q: real, position: real)
    requires xs != [] && 0.0 < q < 1.0 && position == PositionOf(q, |xs| - 1)
    ensures 0.0 <= position <= (|xs| - 1) as real && Quantile(xs, q) == Interpolate(xs, position)
  {
    PositionInside(q, |xs| - 1);
  }

  /** Any level's quantile is a value between the least and the greatest score. */
  lemma {:induction false} QuantileBetween(xs: seq<real>, q: real)
    requires xs != [] && Nondecreasing(xs)
    ensures xs[0] <= Quantile(xs, q) <= Last(xs)
  {
    if 0.0 < q < 1.0 {
      var position := PositionOf(q, |xs| - 1);
      QuantileInside(xs, q, position);
      InterpolateBetween(xs, position);
    }
  }

  /** Quantiles never decrease with their level, inside and outside the unit interval. */
  lemma {:induction false} QuantileMonotone(xs: seq<real>, p: real, q: real)
    requires xs != [] && Nondecreasing(xs) && p <= q
    ensures Quantile(xs, p) <= Quantile(xs, q)
  {
    QuantileBetween(xs, p);
    QuantileBetween(xs, q);
    if 0.0 < p && q < 1.0 {
      var a, b := PositionOf(p, |xs| - 1), PositionOf(q, |xs| - 1);
      PositionMonotone(p, q, |xs| - 1);
      QuantileInside(xs, p, a);
      QuantileInside(xs, q, b);
      InterpolateMonotone(xs, a, b);
    }
  }

  lemma {:induction false} FloorOf(position: real, k: nat)
    requires k as real <= position < (k + 1) as real
    ensures position.Floor == k
  {
  }

  /**
   The level whose position is `k + w` gives the value that divides the step from `xs[k]` to `xs[k + 1]`
   in the ratio of `w` to `1 - w`; so the levels `k / (n - 1)` give the sorted scores themselves.
   */
  lemma {:induction false} QuantileDividesSteps(xs: seq<real>, q: real, k: nat, w: real)
    requires k + 1 < |xs| && 0.0 <= w <= 1.0 && q * (|xs| - 1) as real == k as real + w
    ensures Quantile(xs, q) == (1.0 - w) * xs[k] + w * xs[k + 1]
  {
    var n, position := (|xs| - 1) as real, k as real + w;
    if q <= 0.0 {
      ProductNotNegative(-q, n);
      assert k == 0 && w == 0.0;
    } else if q >= 1.0 {
      ProductAtLeast(q, 1.0, n);
      assert k + 2 == |xs| && w == 1.0;
    } else {
      QuantileInside(xs, q, position);
      if w < 1.0 {
        FloorOf(position, k);
        assert Blend(xs[k], xs[k + 1], w) == (1.0 - w) * xs[k] + w * xs[k + 1];
      } else {
        assert position == (k + 1) as real;
        FloorOf(position, k + 1);
      }
    }
  }

  // ---- edges -------------------------------------------------------------------------------------------

  function EdgeAt(sorted: seq<real>, count: nat, i: nat): real
    requires sorted != [] && 1 <= i < count
  {
    Quantile(sorted, i as real / count as real)
  }

  lemma {:induction false} Fractions(i: nat, j: nat, count: nat)
    requires 1 <= i <= j < count
    ensures 0.0 < i as real / count as real <= j as real / count as real < 1.0
  {
    var c, a, b := count as real, i as real / count as real, j as real / count as real;
    assert a * c == i as real && b * c == j as real;
    if b >= 1.0 {
      ProductAtLeast(b, 1.0, c);
    }
    if a > b {
      ProductAbove(a, b, c);
    }
    if a <= 0.0 {
      ProductAtLeast(0.0, a, c);
    }
  }

  lemma {:induction false} ProductAbove(a: real, b: real, c: real)
    requires a > b && c > 0.0
    ensures a * c > b * c
  {
    assert (a - b) * c > 0.0;
  }

  /** One edge between neighbouring buckets; the edges never decrease. */
  method ScoreBucketEdges(scores: seq<real>, count: int) returns (r: Result<seq<real>>)
    ensures r.Rejected? <==> count < 2 || scores == []
    ensures r.Ok? ==> |r.value| == count - 1 && Nondecreasing(r.value)
    ensures r.Ok? ==>
      var sorted := Sorting.Sort(Ascending(), scores);
      sorted != [] && forall i :: 0 <= i < count - 1 ==> r.value[i] == Quantile(sorted, (i + 1) as real / count as real)
  {
    if count < 2 {
      return Rejected("bucket_count must be >= 2");
    }
    if scores == [] {
      return Rejected("cannot build bucket edges from empty scores");
    }
    var sorted := Sorting.Sort(Ascending(), scores);
    SortedNondecreasing(scores);
    var edges: seq<real> := [];
    for i := 1 to count
      invariant |edges| == i - 1
      invariant forall k :: 0 <= k < i - 1 ==> edges[k] == EdgeAt(sorted, count, k + 1)
    {
      edges := edges + [EdgeAt(sorted, count, i)];
    }
    forall i, j | 0 <= i < j < |edges| ensures edges[i] <= edges[j] {
      Fractions(i + 1, j + 1, count);
      QuantileMonotone(sorted, (i + 1) as real / count as real, (j + 1) as real / count as real);
    }
    return Ok(edges);
  }

  lemma {:induction false} SortedNondecreasing(xs: seq<real>)
    ensures Nondecreasing(Sorting.Sort(Ascending(), xs)) && |Sorting.Sort(Ascending(), xs)| == |xs|
  {
    assert Sorting.TotalPreorder(Ascending());
    Sorting.SortSorts(Ascending(), xs);
    Sorting.SortContents(Ascending(), xs);
  }

  // ---- assignment -------------------------------------------------------------------------------------------

  function CountBelow(edges: seq<real>, score: real): (n: nat)
    ensures n <= |edges|
  {
    if edges == [] then 0 else (if edges[0] < score then 1 else 0) + CountBelow(edges[1..], score)
  }

  /** Stops at the first edge the score does not exceed. */
  function BucketOf(score: real, edges: seq<real>): (b: nat)
    ensures 1 <= b <= |edges| + 1
  {
    if edges == [] || score <= edges[0] then 1 else BucketOf(score, edges[1..]) + 1
  }

  method AssignBucket(score: real, edges: seq<real>) returns (bucket: nat)
    ensures bucket == BucketOf(score, edges)
  {
    bucket := 1;
    for i := 0 to |edges|
      invariant bucket == i + 1
      invariant BucketOf(score, edges) == BucketOf(score, edges[i..]) + i
    {
      if score > edges[i] {
        assert edges[i..][1..] == edges[i + 1..];
        bucket := bucket + 1;
        continue;
      }
      break;
    }
  }

  lemma {:induction false} NoneBelow(edges: seq<real>, score: real)
    requires Nondecreasing(edges) && edges != [] && score <= edges[0]
    ensures CountBelow(edges, score) == 0
  {
    if |edges| > 1 {
      assert edges[0] <= edges[1];
      NoneBelow(edges[1..], score);
    }
  }

  /** On nondecreasing edges, stopping early counts every edge below the score. */
  lemma {:induction false} BucketCountsEdges(score: real, edges: seq<real>)
    requires Nondecreasing(edges)
    ensures BucketOf(score, edges) == 1 + CountBelow(edges, score)
  {
    if edges != [] {
      if score <= edges[0] {
        NoneBelow(edges, score);
      } else {
        BucketCountsEdges(score, edges[1..]);
      }
    }
  }

  /** A larger score never falls into a lower bucket, even if the edges were out of order. */
  lemma {:induction false} BucketMonotone(a: real, b: real, edges: seq<real>)
    requires a <= b
    ensures BucketOf(a, edges) <= BucketOf(b, edges)
  {
    if edges != [] && a > edges[0] {
      BucketMonotone(a, b, edges[1..]);
    }
  }

  function BucketBounds(bucket: int, edges: seq<real>): (Option<real>, Option<real>)
    requires 1 <= bucket <= |edges| + 1
  {
    if edges == [] then (None, None)
    else
      (if bucket <= 1 then None else Some(edges[bucket - 2]),
       if bucket > |edges| then None else Some(edges[bucket - 1]))
  }

  /** A score lies above the lower bound of its bucket and not above the upper one. */
  lemma {:induction false} ScoreWithinBounds(score: real, edges: seq<real>)
    ensures var (lower, upper) := BucketBounds(BucketOf(score, edges), edges);
      && (lower.Some? ==> lower.value < score)
      && (upper.Some? ==> score <= upper.value)
  {
    if edges != [] && score > edges[0] {
      ScoreWithinBounds(score, edges[1..]);
    }
  }

  /** On nondecreasing edges the bounds hold of exactly one bucket. */
  lemma {:induction false} BoundsDetermineBucket(score: real, edges: seq<real>, bucket: int)
    requires Nondecreasing(edges) && 1 <= bucket <= |edges| + 1
    requires var (lower, upper) := BucketBounds(bucket, edges);
      (lower.Some? ==> lower.value < score) && (upper.Some? ==> score <= upper.value)
    ensures bucket == BucketOf(score, edges)
  {
    var b := BucketOf(score, edges);
    ScoreWithinBounds(score, edges);
  }
}
