/** The mutating operations of the percentile sketch. */
module TDigestOps {
  import opened Common
  import opened Centroids
  import opened TDigest
  import opened DigestSize

  /** Finite single-precision values only. */
  ghost predicate Finite(cs: seq<Centroid>) {
    Within(cs, -F32_MAX, F32_MAX)
  }

  /** Everything but the cumulative weights is in order. */
  ghost predicate Ordered(d: Digest, history: seq<Centroid>) {
    Weighted(d) && Sorted(d.processed) && Bracketed(d) && Summarises(d, history)
    && Finite(history) && Positive(history)
  }

  // ---------------------------------------------------------------------
  // Processing
  // ---------------------------------------------------------------------

  /** Buffered centroids sorted, then merged with the processed ones. */
  function Gathered(d: Digest): seq<Centroid> {
    Merge(SortByMean(d.unprocessed), d.processed)
  }

  lemma GatheredSums(d: Digest)
    ensures SumWeight(Gathered(d)) == SumWeight(d.unprocessed) + SumWeight(d.processed)
    ensures SumMoment(Gathered(d)) == SumMoment(d.unprocessed) + SumMoment(d.processed)
  {
    SortSums(d.unprocessed);
    MergeSums(SortByMean(d.unprocessed), d.processed);
  }

  lemma MergedElements(a: seq<Centroid>, b: seq<Centroid>, m: seq<Centroid>)
    requires multiset(m) == multiset(a) + multiset(b)
    ensures Positive(a) && Positive(b) ==> Positive(m)
    ensures forall lo, hi :: Within(a, lo, hi) && Within(b, lo, hi) ==> Within(m, lo, hi)
    ensures m == [] <==> a == [] && b == []
  {
    assert multiset(a + b) == multiset(m);
    SameElements(a + b, m);
    assert forall lo, hi :: Within(a, lo, hi) && Within(b, lo, hi) ==> Within(a + b, lo, hi);
  }

  lemma GatheredElements(d: Digest)
    requires Sorted(d.processed)
    ensures Sorted(Gathered(d))
    ensures Positive(d.processed) && Positive(d.unprocessed) ==> Positive(Gathered(d))
    ensures forall lo, hi :: Within(d.processed, lo, hi) && Within(d.unprocessed, lo, hi) ==> Within(Gathered(d), lo, hi)
    ensures Gathered(d) == [] <==> d.processed == [] && d.unprocessed == []
  {
    var sorted := SortByMean(d.unprocessed);
    SortSorted(d.unprocessed);
    SameElements(d.unprocessed, sorted);
    MergeSorted(sorted, d.processed);
    MergeElements(sorted, d.processed);
    MergedElements(sorted, d.processed, Gathered(d));
  }

  /** The sketch after processing, once its cumulative weights are recomputed. */
  function Processed(scale: Scale, d: Digest, cumulative: seq<real>): Digest
    requires Gathered(d) != []
  {
    ProcessedInto(d, FuseAll(scale, d.processedWeight + d.unprocessedWeight, Gathered(d)).out, cumulative)
  }

  /** Sorting the buffer first does not change what processing gives. */
  lemma FoldComposes(scale: Scale, before: Digest, sorted: Digest, out: seq<Centroid>, cumulative: seq<real>)
    requires Gathered(before) != [] && sorted == before.(unprocessed := sorted.unprocessed)
    requires out == FuseAll(scale, before.processedWeight + before.unprocessedWeight, Gathered(before)).out && out != []
    ensures ProcessedInto(sorted, out, cumulative) == Processed(scale, before, cumulative)
  {
  }

  lemma ProcessedAgain(scale: Scale, d: Digest, stale: seq<real>, cumulative: seq<real>)
    requires Gathered(d) != []
    ensures Processed(scale, d, cumulative) == Processed(scale, d, stale).(cumulative := cumulative)
  {
  }

  function ProcessedInto(d: Digest, out: seq<Centroid>, cumulative: seq<real>): Digest
    requires out != []
  {
    Digest(Min(d.min, out[0].mean), Max(d.max, out[|out| - 1].mean), d.processedWeight + d.unprocessedWeight, 0.0, out, [], cumulative)
  }

  lemma WithinTrans(cs: seq<Centroid>, a: real, b: real, lo: real, hi: real)
    requires Within(cs, a, b) && lo <= a && b <= hi
    ensures Within(cs, lo, hi)
  {
  }

  lemma ProcessedStaysWithin(scale: Scale, d: Digest, history: seq<Centroid>, cumulative: seq<real>, lo: real, hi: real)
    requires Ordered(d, history) && Gathered(d) != [] && Within(history, lo, hi)
    ensures StaysWithin(Processed(scale, d, cumulative), lo, hi)
  {
    var all, total := Gathered(d), d.processedWeight + d.unprocessedWeight;
    GatheredElements(d);
    FuseAllSorted(scale, total, all);
    var out := FuseAll(scale, total, all).out;
    assert StaysWithin(d, lo, hi) && Within(all, lo, hi);
    assert StaysWithin(d, -F32_MAX, F32_MAX) && Within(all, -F32_MAX, F32_MAX);
    WithinTrans(out, all[0].mean, all[|all| - 1].mean, lo, hi);
    WithinTrans(out, all[0].mean, all[|all| - 1].mean, -F32_MAX, F32_MAX);
  }

  lemma GatheredPositive(d: Digest)
    requires Sorted(d.processed) && Positive(d.processed) && Positive(d.unprocessed)
    ensures Sorted(Gathered(d)) && Positive(Gathered(d))
  {
    GatheredElements(d);
  }

  lemma ProcessedWeighted(scale: Scale, d: Digest, cumulative: seq<real>)
    requires Weighted(d) && Sorted(d.processed) && Gathered(d) != []
    ensures Weighted(Processed(scale, d, cumulative))
    ensures SumMoment(Processed(scale, d, cumulative).processed) == SumMoment(d.processed) + SumMoment(d.unprocessed)
  {
    GatheredSums(d);
    GatheredPositive(d);
    FuseAllSums(scale, d.processedWeight + d.unprocessedWeight, Gathered(d));
  }

  lemma ProcessedBracketed(scale: Scale, d: Digest, cumulative: seq<real>)
    requires Weighted(d) && Sorted(d.processed) && Gathered(d) != []
    ensures Sorted(Processed(scale, d, cumulative).processed) && Bracketed(Processed(scale, d, cumulative))
  {
    GatheredPositive(d);
    FuseAllSorted(scale, d.processedWeight + d.unprocessedWeight, Gathered(d));
  }

  /** Processing keeps weight, moment and range, and leaves sorted, bracketed means. */
  lemma ProcessedOrdered(scale: Scale, d: Digest, history: seq<Centroid>, cumulative: seq<real>)
    requires Ordered(d, history) && Gathered(d) != []
    ensures Ordered(Processed(scale, d, cumulative), history)
  {
    ProcessedWeighted(scale, d, cumulative);
    ProcessedBracketed(scale, d, cumulative);
    forall lo, hi | Within(history, lo, hi)
      ensures StaysWithin(Processed(scale, d, cumulative), lo, hi)
    {
      ProcessedStaysWithin(scale, d, history, cumulative, lo, hi);
    }
  }

  /** Processing leaves fewer centroids than the maximum. */
  lemma ProcessedSize(scale: Scale, d: Digest, cumulative: seq<real>, max: nat)
    requires Weighted(d) && Sorted(d.processed) && Gathered(d) != [] && Sized(scale, max)
    ensures |Processed(scale, d, cumulative).processed| < max
  {
    GatheredElements(d);
    GatheredSums(d);
    CompressedSize(scale, Gathered(d), max / 2);
  }

  // ---------------------------------------------------------------------
  // Adding and merging
  // ---------------------------------------------------------------------

  lemma WithinSplit(a: seq<Centroid>, b: seq<Centroid>, lo: real, hi: real)
    ensures Within(a + b, lo, hi) <==> Within(a, lo, hi) && Within(b, lo, hi)
  {
    assert forall i :: 0 <= i < |a| ==> (a + b)[i] == a[i];
    assert forall i :: 0 <= i < |b| ==> (a + b)[|a| + i] == b[i];
  }

  function Added(d: Digest, c: Centroid): Digest {
    d.(unprocessed := d.unprocessed + [c], unprocessedWeight := d.unprocessedWeight + c.weight)
  }

  lemma AddedWeighted(d: Digest, c: Centroid)
    requires Weighted(d) && c.weight > 0.0
    ensures Weighted(Added(d, c))
  {
    SumSnoc(d.unprocessed, c);
  }

  lemma AddedStaysWithin(d: Digest, history: seq<Centroid>, c: Centroid, lo: real, hi: real)
    requires Summarises(d, history) && Within(history + [c], lo, hi)
    ensures StaysWithin(Added(d, c), lo, hi)
  {
    WithinSplit(history, [c], lo, hi);
    WithinSplit(d.unprocessed, [c], lo, hi);
  }

  lemma AddedSummarises(d: Digest, history: seq<Centroid>, c: Centroid)
    requires Summarises(d, history)
    ensures Summarises(Added(d, c), history + [c])
  {
    SumSnoc(d.unprocessed, c);
    SumSnoc(history, c);
    forall lo, hi | Within(history + [c], lo, hi)
      ensures StaysWithin(Added(d, c), lo, hi)
    {
      AddedStaysWithin(d, history, c, lo, hi);
    }
  }

  lemma AddedOrdered(d: Digest, history: seq<Centroid>, c: Centroid)
    requires Ordered(d, history) && c.weight > 0.0 && -F32_MAX <= c.mean <= F32_MAX
    ensures Ordered(Added(d, c), history + [c])
  {
    AddedWeighted(d, c);
    AddedSummarises(d, history, c);
    HistoryGrows(history, c);
  }

  lemma HistoryGrows(history: seq<Centroid>, c: Centroid)
    requires Finite(history) && Positive(history) && c.weight > 0.0 && -F32_MAX <= c.mean <= F32_MAX
    ensures Finite(history + [c]) && Positive(history + [c])
  {
    WithinSplit(history, [c], -F32_MAX, F32_MAX);
  }

  /** The fields after absorbing another sketch, before any processing. */
  function Absorbed(d: Digest, other: Digest): Digest {
    var processed := if other.processed == [] then d.processed else Merge(d.processed, other.processed);
    Digest(
      Min(if other.processed == [] then d.min else Min(d.min, if processed == [] then d.min else processed[0].mean), other.min),
      Max(if other.processed == [] then d.max else Max(d.max, if processed == [] then d.max else processed[|processed| - 1].mean), other.max),
      if other.processed == [] then d.processedWeight else d.processedWeight + other.processedWeight,
      d.unprocessedWeight + other.unprocessedWeight,
      processed, d.unprocessed + other.unprocessed, d.cumulative)
  }

  lemma AbsorbedProcessed(d: Digest, other: Digest)
    requires Weighted(d) && Weighted(other) && Sorted(d.processed) && Sorted(other.processed)
    ensures var a := Absorbed(d, other).processed;
            && Sorted(a) && Positive(a)
            && SumWeight(a) == SumWeight(d.processed) + SumWeight(other.processed)
            && SumMoment(a) == SumMoment(d.processed) + SumMoment(other.processed)
            && (a == [] <==> d.processed == [] && other.processed == [])
            && (forall lo, hi :: Within(d.processed, lo, hi) && Within(other.processed, lo, hi) ==> Within(a, lo, hi))
  {
    if other.processed != [] {
      MergeSorted(d.processed, other.processed);
      MergeSums(d.processed, other.processed);
      MergeElements(d.processed, other.processed);
      MergedElements(d.processed, other.processed, Absorbed(d, other).processed);
    }
  }

  lemma AbsorbedWeighted(d: Digest, other: Digest)
    requires Weighted(d) && Weighted(other) && Sorted(d.processed) && Sorted(other.processed)
    ensures Weighted(Absorbed(d, other))
    ensures SumMoment(Absorbed(d, other).unprocessed) == SumMoment(d.unprocessed) + SumMoment(other.unprocessed)
  {
    AbsorbedProcessed(d, other);
    SumConcat(d.unprocessed, other.unprocessed);
  }

  lemma AbsorbedStaysWithin(d: Digest, other: Digest, lo: real, hi: real)
    requires Weighted(d) && Sorted(d.processed) && Bracketed(d)
    requires Weighted(other) && Sorted(other.processed) && Bracketed(other)
    requires StaysWithin(d, lo, hi) && StaysWithin(other, lo, hi)
    requires StaysWithin(d, -F32_MAX, F32_MAX) && StaysWithin(other, -F32_MAX, F32_MAX)
    ensures StaysWithin(Absorbed(d, other), lo, hi)
  {
    AbsorbedWithin(d, other, lo, hi);
    AbsorbedWithin(d, other, -F32_MAX, F32_MAX);
    AbsorbedEmpty(d, other);
  }

  lemma AbsorbedWithin(d: Digest, other: Digest, lo: real, hi: real)
    requires Weighted(d) && Sorted(d.processed) && Weighted(other) && Sorted(other.processed)
    requires Within(d.processed, lo, hi) && Within(d.unprocessed, lo, hi) && Within(other.processed, lo, hi) && Within(other.unprocessed, lo, hi)
    ensures Within(Absorbed(d, other).processed, lo, hi) && Within(Absorbed(d, other).unprocessed, lo, hi)
  {
    AbsorbedProcessed(d, other);
    WithinSplit(d.unprocessed, other.unprocessed, lo, hi);
  }

  lemma AbsorbedEmpty(d: Digest, other: Digest)
    requires Weighted(d) && Sorted(d.processed) && Weighted(other) && Sorted(other.processed)
    ensures Absorbed(d, other).processed == [] <==> d.processed == [] && other.processed == []
  {
    AbsorbedProcessed(d, other);
  }

  lemma AbsorbedBracketed(d: Digest, other: Digest)
    requires Weighted(d) && Sorted(d.processed) && Bracketed(d)
    requires Weighted(other) && Sorted(other.processed) && Bracketed(other)
    ensures Bracketed(Absorbed(d, other))
  {
    AbsorbedProcessed(d, other);
  }

  /** Absorbing another sketch stands for both histories together. */
  lemma AbsorbedOrdered(d: Digest, history: seq<Centroid>, other: Digest, history': seq<Centroid>)
    requires Ordered(d, history) && Ordered(other, history')
    ensures Ordered(Absorbed(d, other), history + history')
  {
    AbsorbedProcessed(d, other);
    AbsorbedWeighted(d, other);
    AbsorbedBracketed(d, other);
    SumConcat(d.unprocessed, other.unprocessed);
    SumConcat(history, history');
    WithinSplit(history, history', -F32_MAX, F32_MAX);
    forall lo, hi | Within(history + history', lo, hi)
      ensures StaysWithin(Absorbed(d, other), lo, hi)
    {
      WithinSplit(history, history', lo, hi);
      AbsorbedStaysWithin(d, other, lo, hi);
    }
  }

  lemma Refreshed(d: Digest, history: seq<Centroid>, cumulative: seq<real>)
    requires Ordered(d, history) && Midpoints(cumulative, d.processed)
    ensures Ordered(d.(cumulative := cumulative), history) && WellFormed(d.(cumulative := cumulative))
  {
  }

  lemma EmptyHistory(d: Digest, history: seq<Centroid>)
    requires Ordered(d, history) && d.processed == [] && d.unprocessed == []
    ensures history == []
  {
    SumNonNegative(history);
  }

  /** A sketch has no centroid exactly if nothing was added. */
  lemma EmptyExactly(d: Digest, history: seq<Centroid>)
    requires Ordered(d, history)
    ensures d.processed == [] && d.unprocessed == [] <==> history == []
  {
    SumNonNegative(d.processed);
    SumNonNegative(d.unprocessed);
    SumNonNegative(history);
  }

  // ---------------------------------------------------------------------
  // The sketch object
  // ---------------------------------------------------------------------

  class Sketch {
    const scale: Scale
    const maxProcessed: nat
    const maxUnprocessed: nat
    var min: real
    var max: real
    var processedWeight: real
    var unprocessedWeight: real
    var processed: seq<Centroid>
    var unprocessed: seq<Centroid>
    var cumulative: seq<real>

    /** Every value accepted so far, directly or through merged sketches. */
    ghost var history: seq<Centroid>

    function Abs(): Digest
      reads this
    {
      Digest(min, max, processedWeight, unprocessedWeight, processed, unprocessed, cumulative)
    }

    ghost predicate Valid()
      reads this
    {
      WellFormed(Abs()) && Ordered(Abs(), history)
    }

    /** Both lists are within their maximum, if the scale has no more places than the compression factor. */
    ghost predicate Small()
      reads this
    {
      Sized(scale, maxProcessed) ==> |processed| <= maxProcessed && |unprocessed| <= maxUnprocessed
    }

    /** `ceilCompression` is the compression factor rounded up. */
    constructor (scale: Scale, ceilCompression: nat)
      ensures Valid() && Small() && history == [] && processed == [] && unprocessed == []
      ensures this.scale == scale && maxProcessed == 2 * ceilCompression && maxUnprocessed == 8 * ceilCompression
    {
      this.scale := scale;
      maxProcessed := 2 * ceilCompression;
      maxUnprocessed := 8 * ceilCompression;
      min := F32_MAX;
      max := -F32_MAX;
      processedWeight := 0.0;
      unprocessedWeight := 0.0;
      processed := [];
      unprocessed := [];
      cumulative := [];
      history := [];
    }

    method Add(value: real, weight: real)
      requires Valid() && -F32_MAX <= value <= F32_MAX
      modifies this
      ensures Valid()
      ensures weight <= 0.0 ==> Abs() == old(Abs()) && history == old(history)
      ensures weight > 0.0 ==> Small() && history == old(history) + [Centroid(value, weight)]
      ensures processed == [] && unprocessed == [] <==> history == []
    {
      EmptyExactly(Abs(), history);
      if weight <= 0.0 {
        return;
      }
      AddedOrdered(Abs(), history, Centroid(value, weight));
      unprocessed := unprocessed + [Centroid(value, weight)];
      unprocessedWeight := unprocessedWeight + weight;
      history := history + [Centroid(value, weight)];
      ProcessIfNecessary();
      EmptyExactly(Abs(), history);
    }

    method Merge(other: Sketch)
      requires Valid() && other.Valid() && other != this
      modifies this
      ensures Valid() && history == old(history) + other.history
      ensures processed == [] && unprocessed == [] <==> history == []
      ensures old(Small()) || other.history != [] ==> Small()
    {
      EmptyExactly(Abs(), history);
      if other.processed == [] && other.unprocessed == [] {
        EmptyHistory(other.Abs(), other.history);
        assert history + [] == history;
        return;
      }
      Absorb(other);
      ProcessIfNecessary();
      ghost var before := Abs();
      UpdateCumulative();
      Refreshed(before, history, cumulative);
      EmptyExactly(Abs(), history);
    }

    method Absorb(other: Sketch)
      requires Valid() && other.Valid() && other != this
      modifies this
      ensures Ordered(Abs(), history) && history == old(history) + other.history
    {
      AbsorbedOrdered(Abs(), history, other.Abs(), other.history);
      AbsorbFields(other);
      history := history + other.history;
    }

    /** Merge the other sketch's compressed centroids, if it has any. */
    method AbsorbProcessed(other: Sketch)
      requires Sorted(processed) && Sorted(other.processed) && other != this
      modifies this`min, this`max, this`processedWeight, this`processed
      ensures processed == if other.processed == [] then old(processed) else Centroids.Merge(old(processed), other.processed)
      ensures processedWeight == if other.processed == [] then old(processedWeight) else old(processedWeight) + other.processedWeight
      ensures min == if other.processed == [] || processed == [] then old(min) else Min(old(min), processed[0].mean)
      ensures max == if other.processed == [] || processed == [] then old(max) else Max(old(max), processed[|processed| - 1].mean)
    {
      if other.processed != [] {
        processedWeight := processedWeight + other.processedWeight;
        processed := MergeLoop(processed, other.processed);
        if processed != [] {
          min := Min(min, processed[0].mean);
          max := Max(max, processed[|processed| - 1].mean);
        }
      }
    }

    method AbsorbFields(other: Sketch)
      requires Sorted(processed) && Sorted(other.processed) && other != this
      requires other.unprocessed == [] ==> other.unprocessedWeight == 0.0
      modifies this`min, this`max, this`processedWeight, this`unprocessedWeight, this`processed, this`unprocessed
      ensures Abs() == Absorbed(old(Abs()), other.Abs())
    {
      AbsorbProcessed(other);
      if other.unprocessed != [] {
        unprocessed := unprocessed + other.unprocessed;
        unprocessedWeight := unprocessedWeight + other.unprocessedWeight;
      } else {
        assert unprocessed + [] == unprocessed;
      }
      min := Min(min, other.min);
      max := Max(max, other.max);
    }

    method ProcessIfNecessary()
      requires Ordered(Abs(), history)
      modifies this
      ensures Ordered(Abs(), history) && history == old(history) && Small()
      ensures old(processed != [] ==> Midpoints(cumulative, processed)) ==> Valid()
    {
      if |processed| > maxProcessed || |unprocessed| > maxUnprocessed {
        Process();
      }
    }

    /** Empties the buffer into the compressed centroids. */
    method Process()
      requires Ordered(Abs(), history)
      modifies this
      ensures Valid() && history == old(history) && unprocessed == []
      ensures old(Gathered(Abs())) == [] <==> processed == []
      ensures old(Gathered(Abs())) != [] ==>
                Abs() == Processed(scale, old(Abs()), cumulative) && Midpoints(cumulative, processed)
      ensures Sized(scale, maxProcessed) ==> |processed| < maxProcessed
    {
      GatheredElements(Abs());
      if unprocessed == [] && processed == [] {
        return;
      }
      ghost var before := Abs();
      Recompress();
      ProcessedOrdered(scale, before, history, cumulative);
      if Sized(scale, maxProcessed) {
        ProcessedSize(scale, before, cumulative, maxProcessed);
      }
    }

    /** Sort the buffer, merge, compress, then refresh extremes and cumulative weights. */
    method Recompress()
      requires Gathered(Abs()) != []
      modifies this`min, this`max, this`processedWeight, this`unprocessedWeight, this`processed, this`unprocessed, this`cumulative
      ensures Abs() == Processed(scale, old(Abs()), cumulative) && Midpoints(cumulative, processed)
    {
      ghost var before, stale := Abs(), cumulative;
      Fold();
      UpdateCumulative();
      ProcessedAgain(scale, before, stale, cumulative);
    }

    /** Sort the buffer and merge it with the compressed centroids. */
    method Gather() returns (merged: seq<Centroid>)
      modifies this`unprocessed
      ensures merged == old(Gathered(Abs()))
    {
      unprocessed := SortByMean(unprocessed);
      merged := MergeLoop(unprocessed, processed);
    }

    method Fold()
      requires Gathered(Abs()) != []
      modifies this`min, this`max, this`processedWeight, this`unprocessedWeight, this`processed, this`unprocessed
      ensures Abs() == Processed(scale, old(Abs()), cumulative)
    {
      ghost var before := Abs();
      var merged := Gather();
      ghost var sorted := Abs();
      var out := Compress(scale, processedWeight + unprocessedWeight, merged);
      Replace(out);
      FoldComposes(scale, before, sorted, out, cumulative);
    }

    method Replace(out: seq<Centroid>)
      requires out != []
      modifies this`min, this`max, this`processedWeight, this`unprocessedWeight, this`processed, this`unprocessed
      ensures Abs() == ProcessedInto(old(Abs()), out, cumulative)
    {
      processedWeight := processedWeight + unprocessedWeight;
      unprocessedWeight := 0.0;
      processed := out;
      unprocessed := [];
      min := Min(min, processed[0].mean);
      max := Max(max, processed[|processed| - 1].mean);
    }

    method UpdateCumulative()
      modifies this`cumulative
      ensures Midpoints(cumulative, processed)
    {
      cumulative := [];
      var previous := 0.0;
      for i := 0 to |processed|
        invariant |cumulative| == i && previous == SumWeight(processed[..i])
        invariant forall j :: 0 <= j < i ==> cumulative[j] == SumWeight(processed[..j]) + processed[j].weight / 2.0
      {
        SumPrefix(processed, i);
        cumulative := cumulative + [previous + processed[i].weight / 2.0];
        previous := previous + processed[i].weight;
      }
      assert processed[..|processed|] == processed;
      cumulative := cumulative + [previous];
    }

    /** Processes if anything is buffered, then interpolates. */
    method Quantile(q: real) returns (r: Option<real>)
      requires Valid()
      modifies this
      ensures Valid() && history == old(history) && (old(Small()) ==> Small())
      ensures r.Some? <==> 0.0 <= q <= 1.0 && history != []
      ensures r.Some? ==> r == QuantileProcessed(Abs(), q)
      ensures r.Some? ==> processed != [] && Interpolates(Abs(), q, r.value)
      ensures r.Some? ==> forall lo, hi :: Within(history, lo, hi) ==> lo <= r.value <= hi
    {
      if !(0.0 <= q <= 1.0) {
        return None;
      }
      GatheredElements(Abs());
      if unprocessed != [] || |processed| > maxProcessed || |unprocessed| > maxUnprocessed {
        Process();
      }
      r := QuantileProcessed(Abs(), q);
      if processed == [] {
        EmptyHistory(Abs(), history);
      } else {
        NonEmptyHistory(Abs(), history);
        QuantileBounds(Abs(), q);
        QuantileInterpolates(Abs(), q, r.value);
        forall lo, hi | Within(history, lo, hi)
          ensures lo <= r.value <= hi
        {
          QuantileWithinHistory(Abs(), history, q, lo, hi);
        }
      }
    }
  }

  lemma NonEmptyHistory(d: Digest, history: seq<Centroid>)
    requires Ordered(d, history) && d.processed != []
    ensures history != []
  {
    SumNonNegative(d.processed);
    SumNonNegative(d.unprocessed);
  }
}
