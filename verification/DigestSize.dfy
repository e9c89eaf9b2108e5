/**
 How far compression shrinks a digest. The scale spreads the fractions from 0 to 1 over the places
 from 0 to the compression factor; a group of centroids spans at most one place, any two
 neighbouring groups span more than one, and so there are fewer than two groups per place.
 */
module DigestSize {
  import opened Centroids

  /** `location` maps fractions to places from 0 up, and `q` is its inverse up to the last place. */
  ghost predicate IsScale(scale: Scale) {
    && scale.location(0.0) == 0.0
    && (forall x :: 0.0 <= x <= 1.0 ==> scale.location(x) >= 0.0)
    && (forall x, y :: 0.0 <= x <= 1.0 && y >= 0.0 ==> (x <= scale.q(y) <==> scale.location(x) <= y))
  }

  /** `max` is twice a number of places that the scale does not exceed. */
  ghost predicate Sized(scale: Scale, max: nat) {
    IsScale(scale) && max > 0 && max % 2 == 0 && scale.location(1.0) <= (max / 2) as real
  }

  /** A scale of that kind: equal steps, up to `last` places. */
  lemma EqualSteps(last: real) returns (scale: Scale)
    requires last > 0.0
    ensures IsScale(scale) && scale.location(1.0) == last
  {
    scale := Scale(y => if last <= 0.0 then 0.0 else if y >= last then 1.0 else y / last, x => x * last);
    forall x, y | 0.0 <= x <= 1.0 && y >= 0.0
      ensures x <= scale.q(y) <==> scale.location(x) <= y
    {
      if y >= last {
        ScaledBelow(x, last, y);
      } else {
        RatioBelow(x, y, last);
      }
    }
    forall x | 0.0 <= x <= 1.0
      ensures scale.location(x) >= 0.0
    {
      ScaledBelow(x, last, last);
    }
  }

  lemma ScaledBelow(x: real, last: real, y: real)
    requires 0.0 <= x <= 1.0 && 0.0 < last <= y
    ensures 0.0 <= x * last <= y
  {
    assert (1.0 - x) * last >= 0.0;
  }

  lemma RatioBelow(x: real, w: real, total: real)
    requires total > 0.0
    ensures x <= w / total <==> x * total <= w
  {
    assert w / total * total == w;
    if x <= w / total {
      assert (w / total - x) * total >= 0.0;
    } else {
      assert (x - w / total) * total > 0.0;
    }
  }

  lemma PlaceMonotone(scale: Scale, x: real, y: real)
    requires IsScale(scale) && 0.0 <= x <= y <= 1.0
    ensures scale.location(x) <= scale.location(y)
  {
    assert y <= scale.q(scale.location(y));
  }

  /** The share of the weight that the first `i` centroids hold. */
  ghost function Share(cs: seq<Centroid>, i: nat): real
    requires i <= |cs| && SumWeight(cs) != 0.0
  {
    SumWeight(cs[..i]) / SumWeight(cs)
  }

  lemma {:induction false} PrefixGrows(cs: seq<Centroid>, i: nat, j: nat)
    requires Positive(cs) && i <= j <= |cs|
    ensures 0.0 <= SumWeight(cs[..i]) <= SumWeight(cs[..j])
    decreases j
  {
    if i == j {
      SumNonNegative(cs[..i]);
    } else {
      PrefixGrows(cs, i, j - 1);
      assert cs[..j][..j - 1] == cs[..j - 1];
    }
  }

  lemma ShareGrows(cs: seq<Centroid>, i: nat, j: nat)
    requires Positive(cs) && cs != [] && SumWeight(cs) > 0.0 && i <= j <= |cs|
    ensures 0.0 <= Share(cs, i) <= Share(cs, j) <= 1.0
  {
    PrefixGrows(cs, i, j);
    PrefixGrows(cs, j, |cs|);
    assert cs[..|cs|] == cs;
    RatioMonotone(SumWeight(cs[..i]), SumWeight(cs[..j]), SumWeight(cs));
    RatioMonotone(SumWeight(cs[..j]), SumWeight(cs), SumWeight(cs));
  }

  lemma RatioMonotone(v: real, w: real, total: real)
    requires 0.0 <= v <= w && total > 0.0
    ensures 0.0 <= v / total <= w / total
    ensures total / total == 1.0
  {
    RatioBelow(0.0, v, total);
    RatioBelow(v / total, w, total);
    assert v / total * total == v;
  }

  /** The place where the first `i` centroids end. */
  ghost function Spot(scale: Scale, cs: seq<Centroid>, i: nat): real
    requires i <= |cs| && SumWeight(cs) != 0.0
  {
    scale.location(Share(cs, i))
  }

  lemma SpotGrows(scale: Scale, cs: seq<Centroid>, i: nat, j: nat)
    requires IsScale(scale) && Positive(cs) && cs != [] && SumWeight(cs) > 0.0 && i <= j <= |cs|
    ensures 0.0 <= Spot(scale, cs, i) <= Spot(scale, cs, j)
  {
    ShareGrows(cs, i, j);
    PlaceMonotone(scale, Share(cs, i), Share(cs, j));
  }

  lemma LimitOfPlace(scale: Scale, total: real, first: bool, before: real)
    requires IsScale(scale) && total > 0.0 && (first ==> before == 0.0)
    ensures GroupLimit(scale, total, first, before) == total * scale.q(scale.location(before / total) + 1.0)
  {
    assert 0.0 / total == 0.0;
  }

  /** A weight is within the limit of a group exactly if it lies at most one place after the group's start. */
  lemma LimitIsOnePlace(scale: Scale, total: real, first: bool, before: real, w: real)
    requires IsScale(scale) && 0.0 <= before <= total && 0.0 <= w <= total && total > 0.0 && (first ==> before == 0.0)
    ensures w <= GroupLimit(scale, total, first, before) <==> scale.location(w / total) <= scale.location(before / total) + 1.0
  {
    RatioMonotone(before, total, total);
    RatioMonotone(w, total, total);
    LimitOfPlace(scale, total, first, before);
    var place := scale.location(before / total) + 1.0;
    LimitRatio(w, scale.q(place), total);
    assert w / total <= scale.q(place) <==> scale.location(w / total) <= place;
  }

  lemma LimitAtSpot(scale: Scale, cs: seq<Centroid>, from: nat, i: nat)
    requires IsScale(scale) && Positive(cs) && cs != [] && SumWeight(cs) > 0.0 && from <= |cs| && i <= |cs|
    ensures SumWeight(cs[..i]) <= GroupLimit(scale, SumWeight(cs), from == 0, SumWeight(cs[..from])) <==>
            Spot(scale, cs, i) <= Spot(scale, cs, from) + 1.0
  {
    PrefixGrows(cs, from, |cs|);
    PrefixGrows(cs, i, |cs|);
    assert cs[..|cs|] == cs;
    LimitIsOnePlace(scale, SumWeight(cs), from == 0, SumWeight(cs[..from]), SumWeight(cs[..i]));
  }

  lemma LimitRatio(w: real, q: real, total: real)
    requires total > 0.0
    ensures w <= total * q <==> w / total <= q
  {
    assert w / total * total == w;
    if w / total <= q {
      assert (q - w / total) * total >= 0.0;
    } else {
      assert (w / total - q) * total > 0.0;
    }
  }

  /** A group of several centroids spans at most one place; together with the next centroid, more than one. */
  lemma GroupSpans(scale: Scale, cs: seq<Centroid>, from: nat, to: nat, last: bool)
    requires IsScale(scale) && Positive(cs) && SumWeight(cs) > 0.0 && from < to <= |cs| && (last || to < |cs|)
    requires GroupLimitsMet(scale, SumWeight(cs), cs, from, to, last)
    ensures from + 1 < to ==> Spot(scale, cs, to) <= Spot(scale, cs, from) + 1.0
    ensures !last ==> Spot(scale, cs, to + 1) > Spot(scale, cs, from) + 1.0
  {
    LimitAtSpot(scale, cs, from, to);
    if !last {
      LimitAtSpot(scale, cs, from, to + 1);
    }
  }

  /** Where group `g` starts, or the end for the group after the last. */
  ghost function StartOf(starts: seq<nat>, g: nat, n: nat): nat
    requires g <= |starts|
  {
    if g < |starts| then starts[g] else n
  }

  lemma TwoGroups(scale: Scale, total: real, cs: seq<Centroid>, out: seq<Centroid>, starts: seq<nat>, g: nat)
    requires GreedyGroups(scale, total, cs, out, starts) && g + 2 <= |starts|
    ensures starts[g] < starts[g + 1] < StartOf(starts, g + 2, |cs|) <= |cs|
    ensures GroupLimitsMet(scale, total, cs, starts[g], starts[g + 1], false)
  {
    assert starts[g + 1] < GroupEnd(starts, g + 1, |cs|) <= |cs|;
    assert starts[g] < GroupEnd(starts, g, |cs|);
  }

  /** A group and the one after it together span more than one place. */
  lemma NeighboursSpan(scale: Scale, cs: seq<Centroid>, from: nat, to: nat, next: nat)
    requires IsScale(scale) && Positive(cs) && SumWeight(cs) > 0.0 && from < to < next <= |cs|
    requires GroupLimitsMet(scale, SumWeight(cs), cs, from, to, false)
    ensures Spot(scale, cs, next) > Spot(scale, cs, from) + 1.0
  {
    GroupSpans(scale, cs, from, to, false);
    SpotGrows(scale, cs, to + 1, next);
  }

  /** Numbers of which every second one is more than one larger. */
  lemma {:induction false} EverySecond(spots: seq<real>, j: nat)
    requires 2 * j < |spots| && spots[0] >= 0.0
    requires forall g :: 0 <= g < |spots| - 2 ==> spots[g + 2] > spots[g] + 1.0
    ensures spots[2 * j] >= j as real && (j > 0 ==> spots[2 * j] > j as real)
  {
    if j > 0 {
      EverySecond(spots, j - 1);
      assert spots[2 * (j - 1) + 2] > spots[2 * (j - 1)] + 1.0;
    }
  }

  lemma StartsValid(starts: seq<nat>, n: nat, g: nat)
    requires ValidStarts(starts, n) && g <= |starts|
    ensures StartOf(starts, g, n) <= n
  {
    assert g < |starts| ==> starts[g] < GroupEnd(starts, g, n) <= n;
  }

  lemma SecondSpot(scale: Scale, cs: seq<Centroid>, out: seq<Centroid>, starts: seq<nat>, g: nat)
    requires IsScale(scale) && Positive(cs) && cs != [] && SumWeight(cs) > 0.0
    requires GreedyGroups(scale, SumWeight(cs), cs, out, starts) && g + 2 <= |starts|
    ensures StartOf(starts, g, |cs|) <= |cs| && StartOf(starts, g + 2, |cs|) <= |cs|
    ensures Spot(scale, cs, StartOf(starts, g + 2, |cs|)) > Spot(scale, cs, StartOf(starts, g, |cs|)) + 1.0
  {
    TwoGroups(scale, SumWeight(cs), cs, out, starts, g);
    NeighboursSpan(scale, cs, starts[g], starts[g + 1], StartOf(starts, g + 2, |cs|));
  }

  /** The place where group `g` starts, or the last place. */
  ghost function SpotOf(scale: Scale, cs: seq<Centroid>, starts: seq<nat>, g: nat): real
    requires g <= |starts| && SumWeight(cs) > 0.0
  {
    if StartOf(starts, g, |cs|) <= |cs| then Spot(scale, cs, StartOf(starts, g, |cs|)) else 0.0
  }

  lemma SpotInside(scale: Scale, cs: seq<Centroid>, starts: seq<nat>, g: nat)
    requires IsScale(scale) && Positive(cs) && cs != [] && SumWeight(cs) > 0.0 && ValidStarts(starts, |cs|) && g <= |starts|
    ensures 0.0 <= SpotOf(scale, cs, starts, g) <= scale.location(1.0)
  {
    StartsValid(starts, |cs|, g);
    SpotGrows(scale, cs, StartOf(starts, g, |cs|), |cs|);
    LastSpot(scale, cs);
  }

  lemma Spots(scale: Scale, cs: seq<Centroid>, out: seq<Centroid>, starts: seq<nat>, spots: seq<real>)
    requires IsScale(scale) && Positive(cs) && cs != [] && SumWeight(cs) > 0.0
    requires GreedyGroups(scale, SumWeight(cs), cs, out, starts) && |spots| == |starts| + 1
    requires forall g :: 0 <= g < |spots| ==> spots[g] == SpotOf(scale, cs, starts, g)
    ensures forall g :: 0 <= g < |spots| - 2 ==> spots[g + 2] > spots[g] + 1.0
  {
    forall g | 0 <= g < |spots| - 2 ensures spots[g + 2] > spots[g] + 1.0 {
      SecondSpot(scale, cs, out, starts, g);
    }
  }

  lemma LastSpot(scale: Scale, cs: seq<Centroid>)
    requires SumWeight(cs) > 0.0
    ensures Spot(scale, cs, |cs|) == scale.location(1.0)
  {
    assert cs[..|cs|] == cs;
    RatioMonotone(SumWeight(cs), SumWeight(cs), SumWeight(cs));
  }

  lemma PairsBelow(scale: Scale, cs: seq<Centroid>, out: seq<Centroid>, starts: seq<nat>, j: nat)
    requires IsScale(scale) && Positive(cs) && cs != [] && SumWeight(cs) > 0.0
    requires GreedyGroups(scale, SumWeight(cs), cs, out, starts) && 0 < 2 * j <= |starts|
    ensures (j as real) < scale.location(1.0)
  {
    var spots := seq(|starts| + 1, g requires 0 <= g <= |starts| => SpotOf(scale, cs, starts, g));
    Spots(scale, cs, out, starts, spots);
    SpotInside(scale, cs, starts, 0);
    SpotInside(scale, cs, starts, 2 * j);
    EverySecond(spots, j);
  }

  lemma RealBelow(j: nat, places: nat)
    requires (j as real) < places as real
    ensures j < places
  {
  }

  /** Compression leaves fewer than two centroids per place. */
  lemma CompressedSize(scale: Scale, cs: seq<Centroid>, places: nat)
    requires IsScale(scale) && Positive(cs) && cs != [] && places > 0 && scale.location(1.0) <= places as real
    ensures |FuseAll(scale, SumWeight(cs), cs).out| < 2 * places
  {
    SumNonNegative(cs);
    var starts := FuseAllGreedy(scale, SumWeight(cs), cs);
    var j := |starts| / 2;
    if j > 0 {
      PairsBelow(scale, cs, FuseAll(scale, SumWeight(cs), cs).out, starts, j);
      RealBelow(j, places);
    }
  }

  /** Every group of the compressed list that has several members spans at most one place. */
  lemma CompressedGroups(scale: Scale, cs: seq<Centroid>) returns (starts: seq<nat>)
    requires IsScale(scale) && Positive(cs) && cs != []
    ensures SumWeight(cs) > 0.0 && ValidStarts(starts, |cs|) && |starts| == |FuseAll(scale, SumWeight(cs), cs).out|
    ensures forall g :: 0 <= g < |starts| && starts[g] + 1 < GroupEnd(starts, g, |cs|) ==>
              Spot(scale, cs, GroupEnd(starts, g, |cs|)) <= Spot(scale, cs, starts[g]) + 1.0
  {
    SumNonNegative(cs);
    starts := FuseAllGreedy(scale, SumWeight(cs), cs);
    forall g | 0 <= g < |starts| && starts[g] + 1 < GroupEnd(starts, g, |cs|)
      ensures Spot(scale, cs, GroupEnd(starts, g, |cs|)) <= Spot(scale, cs, starts[g]) + 1.0
    {
      GroupSpans(scale, cs, starts[g], GroupEnd(starts, g, |cs|), g + 1 == |starts|);
    }
  }
}
