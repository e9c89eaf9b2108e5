/**
 The percentile sketch over exact reals: buffered additions, merging of sketches, and
 quantile interpolation over the compressed centroids.
 */
module TDigest {
  import opened Common
  import opened Centroids

  /** `f32::MAX`; `f32::MIN` is its negation. */
  const F32_MAX: real := 340282346638528859811704183484516925440.0

  function Min(a: real, b: real): real {
    if a <= b then a else b
  }

  function Max(a: real, b: real): real {
    if a >= b then a else b
  }

  // ---------------------------------------------------------------------
  // What a sketch must look like
  // ---------------------------------------------------------------------

  datatype Digest = Digest(
    min: real, max: real,
    processedWeight: real, unprocessedWeight: real,
    processed: seq<Centroid>, unprocessed: seq<Centroid>,
    cumulative: seq<real>)

  /** Total weight before each centroid plus half of its own, then the grand total. */
  ghost predicate Midpoints(cumulative: seq<real>, cs: seq<Centroid>) {
    && |cumulative| == |cs| + 1
    && (forall i :: 0 <= i < |cs| ==> cumulative[i] == SumWeight(cs[..i]) + cs[i].weight / 2.0)
    && cumulative[|cs|] == SumWeight(cs)
  }

  ghost predicate Bracketed(d: Digest) {
    if d.processed == [] then d.min == F32_MAX && d.max == -F32_MAX
    else d.min <= d.processed[0].mean && d.processed[|d.processed| - 1].mean <= d.max
  }

  ghost predicate Weighted(d: Digest) {
    && Positive(d.processed) && Positive(d.unprocessed)
    && d.processedWeight == SumWeight(d.processed)
    && d.unprocessedWeight == SumWeight(d.unprocessed)
  }

  ghost predicate WellFormed(d: Digest) {
    && Weighted(d) && Sorted(d.processed) && Bracketed(d)
    && (d.processed != [] ==> Midpoints(d.cumulative, d.processed))
  }

  /** Every mean, and the extremes once known, lie in `[lo, hi]`. */
  ghost predicate StaysWithin(d: Digest, lo: real, hi: real) {
    && Within(d.processed, lo, hi) && Within(d.unprocessed, lo, hi)
    && (d.processed != [] ==> lo <= d.min && d.max <= hi)
  }

  /** The sketch stands for the values in `history`: same weight, same moment, no value out of range. */
  ghost predicate Summarises(d: Digest, history: seq<Centroid>) {
    && SumWeight(d.processed) + SumWeight(d.unprocessed) == SumWeight(history)
    && SumMoment(d.processed) + SumMoment(d.unprocessed) == SumMoment(history)
    && (forall lo, hi :: Within(history, lo, hi) ==> StaysWithin(d, lo, hi))
  }

  // ---------------------------------------------------------------------
  // Quantiles
  // ---------------------------------------------------------------------

  /** Index of the first entry that is at least `index`. */
  function FirstAtLeast(cumulative: seq<real>, index: real): (r: Option<nat>)
    ensures r.Some? ==> r.value < |cumulative| && cumulative[r.value] >= index
    ensures r.Some? ==> forall j :: 0 <= j < r.value ==> cumulative[j] < index
    ensures r.None? ==> forall j :: 0 <= j < |cumulative| ==> cumulative[j] < index
  {
    if cumulative == [] then None
    else match FirstAtLeast(cumulative[..|cumulative| - 1], index)
      case Some(i) => Some(i)
      case None => if cumulative[|cumulative| - 1] >= index then Some(|cumulative| - 1) else None
  }

  function WeightedAverageSorted(x1: real, w1: real, x2: real, w2: real): real
    requires w1 + w2 != 0.0
  {
    Min(Max((x1 * w1 + x2 * w2) / (w1 + w2), x1), x2)
  }

  function WeightedAverage(x1: real, w1: real, x2: real, w2: real): real
    requires w1 + w2 != 0.0
  {
    if x1 <= x2 then WeightedAverageSorted(x1, w1, x2, w2) else WeightedAverageSorted(x2, w2, x1, w1)
  }

  /** From the minimum up to the first mean. */
  function HeadValue(d: Digest, index: real): real
    requires d.processed != [] && d.processed[0].weight > 0.0
  {
    Along(d.min, d.processed[0].mean - d.min, 2.0 * index / d.processed[0].weight)
  }

  /** The point a fraction `t` of the way along a stretch of this width. */
  function Along(a: real, width: real, t: real): real {
    a + t * width
  }

  function MiddleValue(d: Digest, index: real, i: nat): real
    requires 0 < i < |d.processed| && i < |d.cumulative| && d.cumulative[i - 1] < d.cumulative[i]
  {
    WeightedAverage(d.processed[i - 1].mean, d.cumulative[i] - index,
                    d.processed[i].mean, index - d.cumulative[i - 1])
  }

  function TailValue(d: Digest, index: real): real
    requires d.processed != [] && d.processed[|d.processed| - 1].weight > 0.0
  {
    var last := d.processed[|d.processed| - 1];
    var z1 := index - d.processedWeight - last.weight / 2.0;
    WeightedAverage(last.mean, z1, d.max, last.weight / 2.0 - z1)
  }

  lemma MidpointsIncrease(d: Digest, i: nat)
    requires WellFormed(d) && i < |d.processed|
    ensures d.cumulative[i] < d.cumulative[i + 1]
    ensures i + 1 < |d.processed| ==>
              d.cumulative[i + 1] - d.cumulative[i] == d.processed[i].weight / 2.0 + d.processed[i + 1].weight / 2.0
  {
    SumPrefix(d.processed, i);
    if i + 1 < |d.processed| {
    } else {
      assert d.processed[..i + 1] == d.processed;
    }
  }

  /** The value at an absolute weight `index` into the compressed centroids. */
  function ValueAt(d: Digest, index: real): real
    requires WellFormed(d) && |d.processed| > 1
  {
    if index <= d.processed[0].weight / 2.0 then HeadValue(d, index)
    else match FirstAtLeast(d.cumulative, index)
      case Some(i) =>
        if 0 < i < |d.cumulative| - 1 then
          MidpointsIncrease(d, i - 1);
          MiddleValue(d, index, i)
        else TailValue(d, index)
      case None => TailValue(d, index)
  }

  function QuantileProcessed(d: Digest, q: real): Option<real>
    requires WellFormed(d)
  {
    if d.processed == [] then None
    else if |d.processed| == 1 then Some(d.processed[0].mean)
    else Some(ValueAt(d, Index(d, q)))
  }

  /** The absolute weight that a fraction `q` of the total stands for. */
  function Index(d: Digest, q: real): real {
    q * d.processedWeight
  }

  lemma ScaledBetween(t: real, width: real)
    requires 0.0 <= t <= 1.0 && width >= 0.0
    ensures 0.0 <= t * width <= width
  {
  }

  lemma ScaledMonotone(t: real, t': real, width: real)
    requires t <= t' && width >= 0.0
    ensures t * width <= t' * width
  {
    assert (t' - t) * width >= 0.0;
  }

  lemma QuotientMonotone(x: real, y: real, w: real)
    requires x <= y && w > 0.0
    ensures x / w <= y / w
  {
    assert y / w - x / w == (y - x) / w;
    assert (y - x) / w >= 0.0;
  }

  lemma AlongBetween(a: real, width: real, t: real)
    requires width >= 0.0 && 0.0 <= t <= 1.0
    ensures a <= Along(a, width, t) <= a + width
  {
    ScaledBetween(t, width);
  }

  lemma AlongMonotone(a: real, width: real, t: real, t': real)
    requires width >= 0.0 && t <= t'
    ensures Along(a, width, t) <= Along(a, width, t')
  {
    ScaledMonotone(t, t', width);
  }

  lemma HalfWeightFraction(index: real, w: real)
    requires w > 0.0 && 0.0 <= index <= w / 2.0
    ensures 0.0 <= 2.0 * index / w <= 1.0
  {
    QuotientMonotone(0.0, 2.0 * index, w);
    QuotientMonotone(2.0 * index, w, w);
  }

  lemma HeadBounds(d: Digest, index: real)
    requires WellFormed(d) && d.processed != []
    requires 0.0 <= index <= d.processed[0].weight / 2.0
    ensures d.min <= HeadValue(d, index) <= d.processed[0].mean
  {
    HalfWeightFraction(index, d.processed[0].weight);
    AlongBetween(d.min, d.processed[0].mean - d.min, 2.0 * index / d.processed[0].weight);
  }

  lemma HeadMonotone(d: Digest, index: real, index': real)
    requires WellFormed(d) && d.processed != [] && index <= index'
    ensures HeadValue(d, index) <= HeadValue(d, index')
  {
    QuotientMonotone(2.0 * index, 2.0 * index', d.processed[0].weight);
    AlongMonotone(d.min, d.processed[0].mean - d.min, 2.0 * index / d.processed[0].weight, 2.0 * index' / d.processed[0].weight);
  }

  lemma MiddleBounds(d: Digest, index: real, i: nat)
    requires WellFormed(d) && 0 < i < |d.processed|
    ensures d.cumulative[i - 1] < d.cumulative[i]
    ensures d.processed[i - 1].mean <= MiddleValue(d, index, i) <= d.processed[i].mean
  {
    MidpointsIncrease(d, i - 1);
  }

  lemma MiddleMonotone(d: Digest, index: real, index': real, i: nat)
    requires 0 < i < |d.processed| && i < |d.cumulative| && index <= index'
    requires d.cumulative[i - 1] < d.cumulative[i] && d.processed[i - 1].mean <= d.processed[i].mean
    ensures MiddleValue(d, index, i) <= MiddleValue(d, index', i)
  {
    InterpolationMonotone(d.processed[i - 1].mean, d.processed[i].mean, d.cumulative[i - 1], d.cumulative[i], index, index');
  }

  lemma InterpolationMonotone(m1: real, m2: real, a: real, b: real, t: real, t': real)
    requires m1 <= m2 && a < b && t <= t'
    ensures WeightedAverage(m1, b - t, m2, t - a) <= WeightedAverage(m1, b - t', m2, t' - a)
  {
    var x, x' := m1 * (b - t) + m2 * (t - a), m1 * (b - t') + m2 * (t' - a);
    assert x' - x == (m2 - m1) * (t' - t);
    assert x <= x';
    assert (b - t) + (t - a) == b - a && (b - t') + (t' - a) == b - a;
    QuotientMonotone(x, x', b - a);
  }

  /** Past the last midpoint the weights have opposite signs, so the clamp always yields the maximum. */
  lemma TailIsMax(d: Digest, index: real)
    requires WellFormed(d) && d.processed != [] && index <= d.processedWeight
    ensures TailValue(d, index) == d.max
  {
    var last := d.processed[|d.processed| - 1];
    var h := last.weight / 2.0;
    var z1 := index - d.processedWeight - h;
    ExtrapolationClamps(last.mean, d.max, z1, h);
  }

  lemma ExtrapolationClamps(mean: real, max: real, z1: real, h: real)
    requires mean <= max && h > 0.0 && z1 <= 0.0
    ensures WeightedAverageSorted(mean, z1, max, h - z1) == max
  {
    var x := mean * z1 + max * (h - z1);
    assert x - max * h == (mean - max) * z1;
    assert (mean - max) * z1 >= 0.0;
    QuotientMonotone(max * h, x, h);
    assert max * h / h == max;
  }

  /** Which piece of the interpolation an index falls into: 0 is the head, `n` the tail. */
  ghost function Segment(d: Digest, index: real): (s: nat)
    requires WellFormed(d) && |d.processed| > 1
    ensures s <= |d.processed|
  {
    if index <= d.processed[0].weight / 2.0 then 0
    else match FirstAtLeast(d.cumulative, index)
      case Some(i) => if 0 < i < |d.cumulative| - 1 then i else |d.processed|
      case None => |d.processed|
  }

  lemma SegmentsOrdered(d: Digest, index: real, index': real)
    requires WellFormed(d) && |d.processed| > 1 && index <= index'
    ensures Segment(d, index) <= Segment(d, index')
  {
    assert d.cumulative[0] == d.processed[0].weight / 2.0 by {
      assert d.processed[..0] == [];
    }
  }

  ghost function SegmentLow(d: Digest, s: nat): real
    requires d.processed != [] && s <= |d.processed|
  {
    if s == 0 then d.min else if s < |d.processed| then d.processed[s - 1].mean else d.max
  }

  ghost function SegmentHigh(d: Digest, s: nat): real
    requires s <= |d.processed|
  {
    if s < |d.processed| then d.processed[s].mean else d.max
  }

  /** Within a segment the value stays between the segment's two ends. */
  lemma SegmentBounds(d: Digest, index: real)
    requires WellFormed(d) && |d.processed| > 1 && 0.0 <= index <= d.processedWeight
    ensures var s := Segment(d, index); SegmentLow(d, s) <= ValueAt(d, index) <= SegmentHigh(d, s)
  {
    var s := Segment(d, index);
    if s == 0 {
      HeadBounds(d, index);
    } else if s < |d.processed| {
      MiddleBounds(d, index, s);
    } else {
      TailIsMax(d, index);
    }
  }

  lemma SegmentMonotone(d: Digest, index: real, index': real)
    requires WellFormed(d) && |d.processed| > 1 && index <= index' <= d.processedWeight
    requires Segment(d, index) == Segment(d, index')
    ensures ValueAt(d, index) <= ValueAt(d, index')
  {
    var s := Segment(d, index);
    if s == 0 {
      HeadMonotone(d, index, index');
    } else if s < |d.processed| {
      MiddleMonotone(d, index, index', s);
    } else {
      TailIsMax(d, index);
      TailIsMax(d, index');
    }
  }

  lemma ValueMonotone(d: Digest, index: real, index': real)
    requires WellFormed(d) && |d.processed| > 1 && 0.0 <= index <= index' <= d.processedWeight
    ensures ValueAt(d, index) <= ValueAt(d, index')
  {
    var s, s' := Segment(d, index), Segment(d, index');
    SegmentsOrdered(d, index, index');
    if s == s' {
      SegmentMonotone(d, index, index');
    } else {
      SegmentBounds(d, index);
      SegmentBounds(d, index');
      assert SegmentHigh(d, s) <= SegmentLow(d, s');
    }
  }

  lemma ValueBounds(d: Digest, index: real)
    requires WellFormed(d) && |d.processed| > 1 && 0.0 <= index <= d.processedWeight
    ensures d.min <= ValueAt(d, index) <= d.max
  {
    SegmentBounds(d, index);
    var s, n := Segment(d, index), |d.processed|;
    assert d.min <= SegmentLow(d, s) && SegmentHigh(d, s) <= d.max;
  }

  /** Quantiles of a non-empty sketch are defined on [0, 1] and lie between its minimum and maximum. */
  lemma QuantileBounds(d: Digest, q: real)
    requires WellFormed(d) && d.processed != [] && 0.0 <= q <= 1.0
    ensures QuantileProcessed(d, q).Some?
    ensures d.min <= QuantileProcessed(d, q).value <= d.max
  {
    if |d.processed| > 1 {
      var i, _ := QuantileIndices(d, q, q);
      ValueBounds(d, i);
    }
  }

  lemma IndexRange(d: Digest, q: real, q': real)
    requires Weighted(d) && 0.0 <= q <= q' <= 1.0
    ensures 0.0 <= q * d.processedWeight <= q' * d.processedWeight <= d.processedWeight
  {
    SumNonNegative(d.processed);
    ScaledBetween(q, d.processedWeight);
    ScaledBetween(q', d.processedWeight);
    ScaledMonotone(q, q', d.processedWeight);
  }

  lemma QuantileIndices(d: Digest, q: real, q': real) returns (i: real, i': real)
    requires WellFormed(d) && |d.processed| > 1 && 0.0 <= q <= q' <= 1.0
    ensures 0.0 <= i <= i' <= d.processedWeight
    ensures QuantileProcessed(d, q) == Some(ValueAt(d, i)) && QuantileProcessed(d, q') == Some(ValueAt(d, i'))
  {
    i, i' := Index(d, q), Index(d, q');
    IndexRange(d, q, q');
  }

  /** ... and never decrease, across the head, the middle pieces and the tail. */
  lemma QuantileMonotone(d: Digest, q: real, q': real)
    requires WellFormed(d) && d.processed != [] && 0.0 <= q <= q' <= 1.0
    ensures QuantileProcessed(d, q).Some? && QuantileProcessed(d, q').Some?
    ensures QuantileProcessed(d, q).value <= QuantileProcessed(d, q').value
  {
    if |d.processed| > 1 {
      var i, i' := QuantileIndices(d, q, q');
      ValueMonotone(d, i, i');
    }
  }

  /** The quantile of a sketch never leaves the range of the values it was built from. */
  lemma QuantileWithinHistory(d: Digest, history: seq<Centroid>, q: real, lo: real, hi: real)
    requires WellFormed(d) && Summarises(d, history) && d.processed != [] && 0.0 <= q <= 1.0
    requires Within(history, lo, hi)
    ensures QuantileProcessed(d, q).Some? && lo <= QuantileProcessed(d, q).value <= hi
  {
    assert StaysWithin(d, lo, hi);
    QuantileBounds(d, q);
  }

  // ---------------------------------------------------------------------
  // Interpolation
  // ---------------------------------------------------------------------

  /** `(x, v)` lies on the line from `(a, m1)` to `(b, m2)`. */
  predicate OnLine(a: real, m1: real, b: real, m2: real, x: real, v: real) {
    (v - m1) * (b - a) == (x - a) * (m2 - m1)
  }

  /**
   The value at a fraction `q` of the total weight: the mean itself for a single centroid, else on
   the broken line from the minimum at weight 0 through each mean at its centroid's midpoint, and
   the maximum past the last midpoint.
   */
  ghost predicate Interpolates(d: Digest, q: real, v: real)
    requires d.processed != []
  {
    if |d.processed| == 1 then v == d.processed[0].mean else InterpolatesAt(d, q * d.processedWeight, v)
  }

  ghost predicate InterpolatesAt(d: Digest, x: real, v: real)
    requires d.processed != []
  {
    var n := |d.processed|;
    && (x <= Midpoint(d, 0) ==> OnLine(0.0, d.min, Midpoint(d, 0), d.processed[0].mean, x, v))
    && (forall i :: 0 < i < n ==> OnPiece(d, i, x, v))
    && (forall i :: 0 <= i < n && x == Midpoint(d, i) ==> v == d.processed[i].mean)
    && (x > Midpoint(d, n - 1) ==> v == d.max)
  }

  /** Between two neighbouring midpoints the value is on the line through the two means. */
  ghost predicate OnPiece(d: Digest, i: nat, x: real, v: real)
    requires 0 < i < |d.processed|
  {
    Midpoint(d, i - 1) <= x <= Midpoint(d, i) ==>
      OnLine(Midpoint(d, i - 1), d.processed[i - 1].mean, Midpoint(d, i), d.processed[i].mean, x, v)
  }

  /** The weight before a centroid and half of its own. */
  ghost function Midpoint(d: Digest, i: nat): real
    requires i < |d.processed|
  {
    SumWeight(d.processed[..i]) + d.processed[i].weight / 2.0
  }

  lemma AverageParts(m1: real, m2: real, a: real, b: real, t: real)
    ensures m1 * (b - t) + m2 * (t - a) == m1 * (b - a) + (t - a) * (m2 - m1) == m2 * (b - a) - (b - t) * (m2 - m1)
  {
  }

  lemma QuotientBack(x: real, g: real)
    requires g > 0.0
    ensures x / g * g == x
  {
  }

  lemma ProductNonNegative(x: real, y: real)
    requires x >= 0.0 && y >= 0.0
    ensures x * y >= 0.0
  {
  }

  lemma ProductBack(x: real, g: real)
    requires g > 0.0
    ensures x * g / g == x
  {
  }

  lemma CancelFactor(x: real, y: real, g: real)
    requires g > 0.0 && x * g <= y * g
    ensures x <= y
  {
    QuotientMonotone(x * g, y * g, g);
    ProductBack(x, g);
    ProductBack(y, g);
  }

  /** The quotient behind the average lies between the two means, so the clamps do nothing. */
  lemma AverageBetween(m1: real, m2: real, a: real, b: real, t: real)
    requires m1 <= m2 && a < b && a <= t <= b
    ensures var y := (m1 * (b - t) + m2 * (t - a)) / (b - a);
            m1 <= y <= m2 && y * (b - a) == m1 * (b - a) + (t - a) * (m2 - m1)
  {
    var x := m1 * (b - t) + m2 * (t - a);
    AverageParts(m1, m2, a, b, t);
    QuotientBack(x, b - a);
    ProductNonNegative(t - a, m2 - m1);
    ProductNonNegative(b - t, m2 - m1);
    CancelFactor(m1, x / (b - a), b - a);
    CancelFactor(x / (b - a), m2, b - a);
  }

  lemma Distribute(y: real, m: real, g: real)
    ensures (y - m) * g == y * g - m * g
  {
  }

  lemma AverageOnLine(m1: real, m2: real, a: real, b: real, t: real)
    requires m1 <= m2 && a < b && a <= t <= b
    ensures OnLine(a, m1, b, m2, t, WeightedAverage(m1, b - t, m2, t - a))
  {
    AverageBetween(m1, m2, a, b, t);
    assert (b - t) + (t - a) == b - a;
    Distribute(WeightedAverage(m1, b - t, m2, t - a), m1, b - a);
  }

  lemma HeadOnLine(d: Digest, x: real)
    requires WellFormed(d) && d.processed != []
    ensures OnLine(0.0, d.min, d.processed[0].weight / 2.0, d.processed[0].mean, x, HeadValue(d, x))
  {
    HeadLine(d.min, d.processed[0].mean, d.processed[0].weight, x);
  }

  lemma HeadLine(min: real, mean: real, w: real, x: real)
    requires w > 0.0
    ensures OnLine(0.0, min, w / 2.0, mean, x, Along(min, mean - min, 2.0 * x / w))
  {
    QuotientBack(2.0 * x, w);
    Regroup(2.0 * x / w, mean - min, w);
  }

  lemma Regroup(t: real, width: real, w: real)
    ensures t * width * (w / 2.0) == t * w * width / 2.0
  {
  }

  /** A line's ends. */
  lemma LineEnds(a: real, m1: real, b: real, m2: real, x: real, v: real)
    requires a < b && OnLine(a, m1, b, m2, x, v)
    ensures (x == a ==> v == m1) && (x == b ==> v == m2)
  {
    if x == a {
      assert (v - m1) * (b - a) == 0.0;
    }
    if x == b {
      assert (v - m1) * (b - a) == (m2 - m1) * (b - a);
      assert (v - m2) * (b - a) == 0.0;
    }
  }

  lemma LineFrom(a: real, m1: real, b: real, m2: real)
    ensures OnLine(a, m1, b, m2, a, m1) && OnLine(a, m1, b, m2, b, m2)
  {
  }

  lemma {:induction false} MidpointsOrdered(d: Digest, i: nat, j: nat)
    requires WellFormed(d) && i < j < |d.processed|
    ensures d.cumulative[i] < d.cumulative[j]
  {
    MidpointsIncrease(d, j - 1);
    if i < j - 1 {
      MidpointsOrdered(d, i, j - 1);
    }
  }

  /** The piece an index falls into. */
  lemma PieceOf(d: Digest, x: real, i: nat)
    requires WellFormed(d) && 0 < i < |d.processed| && d.cumulative[i - 1] < x <= d.cumulative[i]
    ensures FirstAtLeast(d.cumulative, x) == Some(i) && x > d.processed[0].weight / 2.0
  {
    assert d.processed[..0] == [];
    forall j | 0 <= j < i ensures d.cumulative[j] < x {
      if j < i - 1 {
        MidpointsOrdered(d, j, i - 1);
      }
    }
  }

  lemma PieceValue(d: Digest, x: real, i: nat)
    requires WellFormed(d) && 0 < i < |d.processed| && d.cumulative[i - 1] < x <= d.cumulative[i]
    ensures OnLine(d.cumulative[i - 1], d.processed[i - 1].mean, d.cumulative[i], d.processed[i].mean, x, ValueAt(d, x))
  {
    PieceIs(d, x, i);
    AverageOnLine(d.processed[i - 1].mean, d.processed[i].mean, d.cumulative[i - 1], d.cumulative[i], x);
  }

  lemma PieceIs(d: Digest, x: real, i: nat)
    requires WellFormed(d) && 0 < i < |d.processed| && d.cumulative[i - 1] < x <= d.cumulative[i]
    ensures d.cumulative[i] - x + (x - d.cumulative[i - 1]) != 0.0
    ensures ValueAt(d, x) == WeightedAverage(d.processed[i - 1].mean, d.cumulative[i] - x, d.processed[i].mean, x - d.cumulative[i - 1])
  {
    PieceOf(d, x, i);
  }

  lemma FirstPiece(d: Digest, x: real)
    requires WellFormed(d) && |d.processed| > 1 && x <= d.cumulative[0]
    ensures d.cumulative[0] == d.processed[0].weight / 2.0 > 0.0
    ensures OnLine(0.0, d.min, d.cumulative[0], d.processed[0].mean, x, ValueAt(d, x))
  {
    assert d.processed[..0] == [];
    HeadOnLine(d, x);
  }

  /** At a midpoint the value is the mean. */
  lemma AtMidpoint(d: Digest, i: nat)
    requires WellFormed(d) && |d.processed| > 1 && i < |d.processed|
    ensures ValueAt(d, d.cumulative[i]) == d.processed[i].mean
  {
    if i == 0 {
      FirstPiece(d, d.cumulative[0]);
      LineEnds(0.0, d.min, d.cumulative[0], d.processed[0].mean, d.cumulative[0], ValueAt(d, d.cumulative[0]));
    } else {
      MidpointsIncrease(d, i - 1);
      PieceValue(d, d.cumulative[i], i);
      LineEnds(d.cumulative[i - 1], d.processed[i - 1].mean, d.cumulative[i], d.processed[i].mean, d.cumulative[i], ValueAt(d, d.cumulative[i]));
    }
  }

  lemma BetweenMidpoints(d: Digest, x: real, i: nat)
    requires WellFormed(d) && |d.processed| > 1 && 0 < i < |d.processed| && d.cumulative[i - 1] <= x <= d.cumulative[i]
    ensures OnLine(d.cumulative[i - 1], d.processed[i - 1].mean, d.cumulative[i], d.processed[i].mean, x, ValueAt(d, x))
  {
    if x == d.cumulative[i - 1] {
      AtMidpoint(d, i - 1);
      LineFrom(d.cumulative[i - 1], d.processed[i - 1].mean, d.cumulative[i], d.processed[i].mean);
    } else {
      PieceValue(d, x, i);
    }
  }

  lemma PastMidpoints(d: Digest, x: real)
    requires WellFormed(d) && |d.processed| > 1 && d.cumulative[|d.processed| - 1] < x <= d.processedWeight
    ensures ValueAt(d, x) == d.max
  {
    var n := |d.processed|;
    forall j | 0 <= j < n ensures d.cumulative[j] < x {
      if j < n - 1 {
        MidpointsOrdered(d, j, n - 1);
      }
    }
    assert d.processed[..0] == [];
    TailIsMax(d, x);
  }

  lemma ValueInterpolates(d: Digest, x: real)
    requires WellFormed(d) && |d.processed| > 1 && 0.0 <= x <= d.processedWeight
    ensures InterpolatesAt(d, x, ValueAt(d, x))
  {
    var n, v := |d.processed|, ValueAt(d, x);
    if x <= d.cumulative[0] {
      FirstPiece(d, x);
    }
    forall i | 0 < i < n ensures OnPiece(d, i, x, v) {
      if d.cumulative[i - 1] <= x <= d.cumulative[i] {
        BetweenMidpoints(d, x, i);
      }
    }
    forall i | 0 <= i < n && x == d.cumulative[i] ensures v == d.processed[i].mean {
      AtMidpoint(d, i);
    }
    if x > d.cumulative[n - 1] {
      PastMidpoints(d, x);
    }
  }

  lemma QuantileAt(d: Digest, q: real) returns (x: real)
    requires WellFormed(d) && |d.processed| > 1 && 0.0 <= q <= 1.0
    ensures x == q * d.processedWeight && 0.0 <= x <= d.processedWeight && QuantileProcessed(d, q) == Some(ValueAt(d, x))
  {
    IndexRange(d, q, q);
    x := Index(d, q);
  }

  /** The quantile is the interpolated value. */
  lemma QuantileInterpolates(d: Digest, q: real, v: real)
    requires WellFormed(d) && d.processed != [] && 0.0 <= q <= 1.0 && QuantileProcessed(d, q) == Some(v)
    ensures Interpolates(d, q, v)
  {
    if |d.processed| > 1 {
      var x := QuantileAt(d, q);
      ValueInterpolates(d, x);
      SameIndex(d, q, x, v);
    }
  }

  lemma SameIndex(d: Digest, q: real, x: real, v: real)
    requires |d.processed| > 1 && x == q * d.processedWeight && InterpolatesAt(d, x, v)
    ensures Interpolates(d, q, v)
  {
  }
}
