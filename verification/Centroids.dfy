/**
 Lists of weighted centroids over exact reals: sums, stable sorting, merging, and the greedy
 compression that fuses neighbours under arbitrary scale functions.
 */
module Centroids {
  import opened Sequences

  datatype Centroid = Centroid(mean: real, weight: real)

  // ---------------------------------------------------------------------
  // Centroid lists
  // ---------------------------------------------------------------------

  ghost predicate Positive(cs: seq<Centroid>) {
    forall i :: 0 <= i < |cs| ==> cs[i].weight > 0.0
  }

  ghost predicate Sorted(cs: seq<Centroid>) {
    forall i, j :: 0 <= i <= j < |cs| ==> cs[i].mean <= cs[j].mean
  }

  ghost predicate AtLeast(cs: seq<Centroid>, lo: real) {
    forall i :: 0 <= i < |cs| ==> lo <= cs[i].mean
  }

  ghost predicate AtMost(cs: seq<Centroid>, hi: real) {
    forall i :: 0 <= i < |cs| ==> cs[i].mean <= hi
  }

  ghost predicate Within(cs: seq<Centroid>, lo: real, hi: real) {
    AtLeast(cs, lo) && AtMost(cs, hi)
  }

  function SumWeight(cs: seq<Centroid>): real {
    if cs == [] then 0.0 else SumWeight(cs[..|cs| - 1]) + cs[|cs| - 1].weight
  }

  function Moment(c: Centroid): real {
    c.weight * c.mean
  }

  /** Sum of weight times mean. */
  function SumMoment(cs: seq<Centroid>): real {
    if cs == [] then 0.0 else SumMoment(cs[..|cs| - 1]) + Moment(cs[|cs| - 1])
  }

  lemma SumSnoc(cs: seq<Centroid>, c: Centroid)
    ensures SumWeight(cs + [c]) == SumWeight(cs) + c.weight
    ensures SumMoment(cs + [c]) == SumMoment(cs) + Moment(c)
  {
    assert (cs + [c])[..|cs|] == cs;
  }

  lemma SumPrefix(cs: seq<Centroid>, i: nat)
    requires i < |cs|
    ensures SumWeight(cs[..i + 1]) == SumWeight(cs[..i]) + cs[i].weight
    ensures SumMoment(cs[..i + 1]) == SumMoment(cs[..i]) + Moment(cs[i])
  {
    assert cs[..i + 1] == cs[..i] + [cs[i]];
    SumSnoc(cs[..i], cs[i]);
  }

  lemma {:induction false} SumConcat(a: seq<Centroid>, b: seq<Centroid>)
    ensures SumWeight(a + b) == SumWeight(a) + SumWeight(b)
    ensures SumMoment(a + b) == SumMoment(a) + SumMoment(b)
  {
    if b == [] {
      assert a + b == a;
    } else {
      SumConcat(a, b[..|b| - 1]);
      assert (a + b)[..|a + b| - 1] == a + b[..|b| - 1];
    }
  }

  lemma {:induction false} SumNonNegative(cs: seq<Centroid>)
    requires Positive(cs)
    ensures SumWeight(cs) >= 0.0
    ensures cs != [] ==> SumWeight(cs) > 0.0
  {
    if cs != [] {
      SumNonNegative(cs[..|cs| - 1]);
    }
  }

  // ---------------------------------------------------------------------
  // Sorting and merging
  // ---------------------------------------------------------------------

  lemma SortedSnoc(cs: seq<Centroid>, c: Centroid)
    requires Sorted(cs) && AtMost(cs, c.mean)
    ensures Sorted(cs + [c])
  {
  }

  lemma SortedCons(c: Centroid, cs: seq<Centroid>)
    requires Sorted(cs) && AtLeast(cs, c.mean)
    ensures Sorted([c] + cs)
  {
    var r := [c] + cs;
    forall i, j | 0 <= i <= j < |r|
      ensures r[i].mean <= r[j].mean
    {
      if i > 0 {
        assert r[i] == cs[i - 1] && r[j] == cs[j - 1];
      }
    }
  }

  lemma Snoc(cs: seq<Centroid>)
    requires cs != []
    ensures cs == cs[..|cs| - 1] + [cs[|cs| - 1]]
  {
  }

  lemma Cons(cs: seq<Centroid>)
    requires cs != []
    ensures cs == [cs[0]] + cs[1..]
  {
  }

  /** One step of the stable sort: `c` goes after every centroid whose mean is not larger. */
  function Insert(c: Centroid, cs: seq<Centroid>): seq<Centroid> {
    if cs == [] || cs[|cs| - 1].mean <= c.mean then cs + [c]
    else Insert(c, cs[..|cs| - 1]) + [cs[|cs| - 1]]
  }

  /** The order `sort_by` leaves behind. */
  function SortByMean(cs: seq<Centroid>): seq<Centroid> {
    if cs == [] then [] else Insert(cs[|cs| - 1], SortByMean(cs[..|cs| - 1]))
  }

  lemma {:induction false} InsertSums(c: Centroid, cs: seq<Centroid>)
    ensures SumWeight(Insert(c, cs)) == SumWeight(cs) + c.weight
    ensures SumMoment(Insert(c, cs)) == SumMoment(cs) + Moment(c)
  {
    if cs == [] || cs[|cs| - 1].mean <= c.mean {
      SumSnoc(cs, c);
    } else {
      var n := |cs| - 1;
      InsertSums(c, cs[..n]);
      SumSnoc(Insert(c, cs[..n]), cs[n]);
    }
  }

  lemma {:induction false} InsertElements(c: Centroid, cs: seq<Centroid>)
    ensures multiset(Insert(c, cs)) == multiset(cs) + multiset{c}
  {
    if cs != [] && cs[|cs| - 1].mean > c.mean {
      InsertElements(c, cs[..|cs| - 1]);
      Snoc(cs);
    }
  }

  lemma {:induction false} InsertAtMost(c: Centroid, cs: seq<Centroid>, hi: real)
    requires AtMost(cs, hi) && c.mean <= hi
    ensures AtMost(Insert(c, cs), hi)
  {
    if cs != [] && cs[|cs| - 1].mean > c.mean {
      InsertAtMost(c, cs[..|cs| - 1], hi);
    }
  }

  lemma {:induction false} InsertSorted(c: Centroid, cs: seq<Centroid>)
    requires Sorted(cs)
    ensures Sorted(Insert(c, cs))
  {
    if cs == [] || cs[|cs| - 1].mean <= c.mean {
      SortedSnoc(cs, c);
    } else {
      var n := |cs| - 1;
      InsertSorted(c, cs[..n]);
      InsertAtMost(c, cs[..n], cs[n].mean);
      SortedSnoc(Insert(c, cs[..n]), cs[n]);
    }
  }

  /** Sorting keeps both sums. */
  lemma {:induction false} SortSums(cs: seq<Centroid>)
    ensures SumWeight(SortByMean(cs)) == SumWeight(cs)
    ensures SumMoment(SortByMean(cs)) == SumMoment(cs)
  {
    if cs != [] {
      var front, last := cs[..|cs| - 1], cs[|cs| - 1];
      SortSums(front);
      InsertSums(last, SortByMean(front));
    }
  }

  /** Sorting rearranges the list and orders the means. */
  lemma {:induction false} SortSorted(cs: seq<Centroid>)
    ensures Sorted(SortByMean(cs))
    ensures multiset(SortByMean(cs)) == multiset(cs)
  {
    if cs != [] {
      var front, last := cs[..|cs| - 1], cs[|cs| - 1];
      SortSorted(front);
      InsertElements(last, SortByMean(front));
      InsertSorted(last, SortByMean(front));
      Snoc(cs);
    }
  }

  /** A list and any rearrangement of it satisfy the same element-wise bounds. */
  lemma SameElements(a: seq<Centroid>, b: seq<Centroid>)
    requires multiset(a) == multiset(b)
    ensures Positive(a) ==> Positive(b)
    ensures forall lo, hi :: Within(a, lo, hi) ==> Within(b, lo, hi)
    ensures a == [] <==> b == []
  {
    forall i | 0 <= i < |b|
      ensures b[i] in a
    {
      assert b[i] in multiset(b);
    }
    assert |a| == |multiset(a)| && |b| == |multiset(b)|;
  }

  /** Merge of sorted lists; ties take the left element. */
  function Merge(left: seq<Centroid>, right: seq<Centroid>): seq<Centroid>
    decreases |left| + |right|
  {
    if left == [] then right
    else if right == [] then left
    else if left[0].mean <= right[0].mean then [left[0]] + Merge(left[1..], right)
    else [right[0]] + Merge(left, right[1..])
  }

  lemma {:induction false} MergeSums(left: seq<Centroid>, right: seq<Centroid>)
    ensures SumWeight(Merge(left, right)) == SumWeight(left) + SumWeight(right)
    ensures SumMoment(Merge(left, right)) == SumMoment(left) + SumMoment(right)
    decreases |left| + |right|
  {
    if left != [] && right != [] {
      if left[0].mean <= right[0].mean {
        MergeSums(left[1..], right);
        SumConcat([left[0]], Merge(left[1..], right));
        Cons(left);
        SumConcat([left[0]], left[1..]);
      } else {
        MergeSums(left, right[1..]);
        SumConcat([right[0]], Merge(left, right[1..]));
        Cons(right);
        SumConcat([right[0]], right[1..]);
      }
    }
  }

  lemma {:induction false} MergeElements(left: seq<Centroid>, right: seq<Centroid>)
    ensures multiset(Merge(left, right)) == multiset(left) + multiset(right)
    decreases |left| + |right|
  {
    if left != [] && right != [] {
      if left[0].mean <= right[0].mean {
        MergeElements(left[1..], right);
        Cons(left);
      } else {
        MergeElements(left, right[1..]);
        Cons(right);
      }
    }
  }

  lemma {:induction false} MergeAtLeast(left: seq<Centroid>, right: seq<Centroid>, lo: real)
    requires AtLeast(left, lo) && AtLeast(right, lo)
    ensures AtLeast(Merge(left, right), lo)
    decreases |left| + |right|
  {
    if left != [] && right != [] {
      if left[0].mean <= right[0].mean {
        MergeAtLeast(left[1..], right, lo);
      } else {
        MergeAtLeast(left, right[1..], lo);
      }
    }
  }

  lemma {:induction false} MergeSorted(left: seq<Centroid>, right: seq<Centroid>)
    requires Sorted(left) && Sorted(right)
    ensures Sorted(Merge(left, right))
    decreases |left| + |right|
  {
    if left != [] && right != [] {
      if left[0].mean <= right[0].mean {
        MergeSorted(left[1..], right);
        MergeAtLeast(left[1..], right, left[0].mean);
        SortedCons(left[0], Merge(left[1..], right));
      } else {
        MergeSorted(left, right[1..]);
        MergeAtLeast(left, right[1..], right[0].mean);
        SortedCons(right[0], Merge(left, right[1..]));
      }
    }
  }

  lemma MergeStep(left: seq<Centroid>, right: seq<Centroid>, l: nat, r: nat)
    requires l < |left| && r < |right|
    ensures Merge(left[l..], right[r..]) ==
            if left[l].mean <= right[r].mean then [left[l]] + Merge(left[l + 1..], right[r..])
            else [right[r]] + Merge(left[l..], right[r + 1..])
  {
    assert left[l..][1..] == left[l + 1..] && right[r..][1..] == right[r + 1..];
  }

  /** The two-index loop computes the merge: sorted, a rearrangement, both sums kept. */
  method MergeSortedCentroids(left: seq<Centroid>, right: seq<Centroid>) returns (merged: seq<Centroid>)
    requires Sorted(left) && Sorted(right)
    ensures merged == Merge(left, right)
    ensures Sorted(merged) && multiset(merged) == multiset(left) + multiset(right)
    ensures SumWeight(merged) == SumWeight(left) + SumWeight(right)
    ensures SumMoment(merged) == SumMoment(left) + SumMoment(right)
  {
    merged := MergeLoop(left, right);
    MergeSums(left, right);
    MergeElements(left, right);
    MergeSorted(left, right);
  }

  method MergeLoop(left: seq<Centroid>, right: seq<Centroid>) returns (merged: seq<Centroid>)
    ensures merged == Merge(left, right)
  {
    merged := [];
    var l, r := 0, 0;
    MergeWhole(left, right);
    ghost var rest := Merge(left, right);
    while l < |left| && r < |right|
      invariant 0 <= l <= |left| && 0 <= r <= |right|
      invariant rest == Merge(left[l..], right[r..]) && merged + rest == Merge(left, right)
    {
      MergeStep(left, right, l, r);
      var next;
      if left[l].mean <= right[r].mean {
        next := left[l];
        l := l + 1;
      } else {
        next := right[r];
        r := r + 1;
      }
      rest := Merge(left[l..], right[r..]);
      Assoc(merged, [next], rest);
      merged := merged + [next];
    }
    MergeRest(merged, left[l..], right[r..]);
    merged := merged + left[l..];
    merged := merged + right[r..];
  }

  lemma MergeRest(merged: seq<Centroid>, left: seq<Centroid>, right: seq<Centroid>)
    requires left == [] || right == []
    ensures merged + left + right == merged + Merge(left, right)
  {
    Assoc(merged, left, right);
    assert Merge(left, right) == left + right;
  }

  lemma MergeWhole(left: seq<Centroid>, right: seq<Centroid>)
    ensures Merge(left[0..], right[0..]) == Merge(left, right)
  {
    assert left[0..] == left && right[0..] == right;
  }

  // ---------------------------------------------------------------------
  // Compression
  // ---------------------------------------------------------------------

  /** Absorb `b` into `a`. */
  function Fuse(a: Centroid, b: Centroid): Centroid {
    if a.weight != 0.0 && a.weight + b.weight != 0.0 then
      var weight := a.weight + b.weight;
      Centroid(a.mean + b.weight * (b.mean - a.mean) / weight, weight)
    else b
  }

  /** Fusing keeps weight and moment, and the new mean lies between the two. */
  lemma FuseConserves(a: Centroid, b: Centroid)
    requires a.weight > 0.0 && b.weight > 0.0
    ensures Fuse(a, b).weight == a.weight + b.weight
    ensures Moment(Fuse(a, b)) == Moment(a) + Moment(b)
    ensures a.mean <= b.mean ==> a.mean <= Fuse(a, b).mean <= b.mean
  {
    var w, gap := a.weight + b.weight, b.mean - a.mean;
    var shift := b.weight * gap / w;
    assert w * shift == b.weight * gap;
    FuseMoment(a.weight, b.weight, a.mean, b.mean, shift);
    if a.mean <= b.mean {
      FuseBetween(a.weight, b.weight, gap, shift);
    }
  }

  lemma FuseMoment(wa: real, wb: real, ma: real, mb: real, shift: real)
    requires (wa + wb) * shift == wb * (mb - ma)
    ensures (wa + wb) * (ma + shift) == wa * ma + wb * mb
  {
    calc {
      (wa + wb) * (ma + shift);
      (wa + wb) * ma + (wa + wb) * shift;
      (wa + wb) * ma + wb * (mb - ma);
      wa * ma + wb * mb;
    }
  }

  lemma FuseBetween(wa: real, wb: real, gap: real, shift: real)
    requires wa > 0.0 && wb > 0.0 && gap >= 0.0 && (wa + wb) * shift == wb * gap
    ensures 0.0 <= shift <= gap
  {
    NonNegativeFactor(wa + wb, shift);
    assert (wa + wb) * (gap - shift) == wa * gap;
    NonNegativeFactor(wa + wb, gap - shift);
  }

  lemma NonNegativeFactor(w: real, x: real)
    requires w > 0.0 && w * x >= 0.0
    ensures x >= 0.0
  {
  }

  /** The sketch's `integrated_q` and `integrated_location`, left arbitrary. */
  datatype Scale = Scale(q: real -> real, location: real -> real)

  /** The weight limit of a group that starts once weight `before` has been passed. */
  function GroupLimit(scale: Scale, total: real, first: bool, before: real): real {
    if first || total == 0.0 then total * scale.q(1.0)
    else total * scale.q(scale.location(before / total) + 1.0)
  }

  datatype Fusing = Fusing(out: seq<Centroid>, soFar: real, limit: real)

  /** Fuse into the open group while the limit allows, else open a new group. */
  function FuseNext(scale: Scale, total: real, f: Fusing, c: Centroid): Fusing
    requires f.out != []
  {
    var projected, n := f.soFar + c.weight, |f.out| - 1;
    if projected <= f.limit then f.(soFar := projected, out := f.out[..n] + [Fuse(f.out[n], c)])
    else Fusing(f.out + [c], projected, GroupLimit(scale, total, false, f.soFar))
  }

  function FuseAll(scale: Scale, total: real, cs: seq<Centroid>): (f: Fusing)
    requires cs != []
    ensures f.out != []
  {
    if |cs| == 1 then Fusing(cs, cs[0].weight, GroupLimit(scale, total, true, 0.0))
    else FuseNext(scale, total, FuseAll(scale, total, cs[..|cs| - 1]), cs[|cs| - 1])
  }

  lemma FuseAllStep(scale: Scale, total: real, cs: seq<Centroid>, i: nat)
    requires 0 < i < |cs|
    ensures FuseAll(scale, total, cs[..i + 1]) == FuseNext(scale, total, FuseAll(scale, total, cs[..i]), cs[i])
  {
    assert cs[..i + 1][..i] == cs[..i];
  }

  /** One turn of the compression loop. */
  method FuseOne(scale: Scale, total: real, out0: seq<Centroid>, soFar0: real, limit0: real, c: Centroid)
    returns (out: seq<Centroid>, soFar: real, limit: real)
    requires out0 != []
    ensures Fusing(out, soFar, limit) == FuseNext(scale, total, Fusing(out0, soFar0, limit0), c) && out != []
  {
    out, soFar, limit := out0, soFar0, limit0;
    var projected := soFar + c.weight;
    if projected <= limit {
      soFar := projected;
      out := out[..|out| - 1] + [Fuse(out[|out| - 1], c)];
    } else {
      limit := if total == 0.0 then total * scale.q(1.0) else total * scale.q(scale.location(soFar / total) + 1.0);
      soFar := soFar + c.weight;
      out := out + [c];
    }
  }

  /** The compression loop. */
  method Compress(scale: Scale, total: real, cs: seq<Centroid>) returns (out: seq<Centroid>)
    requires cs != []
    ensures out == FuseAll(scale, total, cs).out
  {
    out := [cs[0]];
    var soFar, limit := cs[0].weight, total * scale.q(1.0);
    assert cs[..1] == [cs[0]];
    for i := 1 to |cs|
      invariant out != [] && Fusing(out, soFar, limit) == FuseAll(scale, total, cs[..i])
    {
      FuseAllStep(scale, total, cs, i);
      out, soFar, limit := FuseOne(scale, total, out, soFar, limit, cs[i]);
    }
    assert cs[..|cs|] == cs;
  }

  lemma SumReplaceLast(cs: seq<Centroid>, c: Centroid)
    requires cs != []
    ensures SumWeight(cs[..|cs| - 1] + [c]) == SumWeight(cs) - cs[|cs| - 1].weight + c.weight
    ensures SumMoment(cs[..|cs| - 1] + [c]) == SumMoment(cs) - Moment(cs[|cs| - 1]) + Moment(c)
  {
    SumSnoc(cs[..|cs| - 1], c);
  }

  ghost predicate SumsKept(f: Fusing, cs: seq<Centroid>) {
    && f.out != [] && Positive(f.out)
    && f.soFar == SumWeight(cs) && SumWeight(f.out) == SumWeight(cs)
    && SumMoment(f.out) == SumMoment(cs)
  }

  /** Compression keeps total weight and total moment, for any scale functions. */
  lemma {:induction false} FuseAllSums(scale: Scale, total: real, cs: seq<Centroid>)
    requires cs != [] && Positive(cs)
    ensures SumsKept(FuseAll(scale, total, cs), cs)
  {
    var n := |cs| - 1;
    if n == 0 {
      SumSnoc([], cs[0]);
      assert cs == [] + [cs[0]];
    } else {
      FuseAllSums(scale, total, cs[..n]);
      FuseNextKept(scale, total, FuseAll(scale, total, cs[..n]), cs[..n], cs[n]);
      Snoc(cs);
    }
  }

  lemma FuseNextKept(scale: Scale, total: real, f: Fusing, cs: seq<Centroid>, c: Centroid)
    requires SumsKept(f, cs) && c.weight > 0.0
    ensures SumsKept(FuseNext(scale, total, f, c), cs + [c])
  {
    FuseNextSums(scale, total, f, c);
    SumSnoc(cs, c);
  }

  lemma FuseNextSums(scale: Scale, total: real, f: Fusing, c: Centroid)
    requires f.out != [] && Positive(f.out) && c.weight > 0.0
    ensures var g := FuseNext(scale, total, f, c);
            Positive(g.out) && g.soFar == f.soFar + c.weight
            && SumWeight(g.out) == SumWeight(f.out) + c.weight && SumMoment(g.out) == SumMoment(f.out) + Moment(c)
  {
    if f.soFar + c.weight <= f.limit {
      var last := f.out[|f.out| - 1];
      FuseConserves(last, c);
      SumReplaceLast(f.out, Fuse(last, c));
    } else {
      SumSnoc(f.out, c);
    }
  }

  /** Compressing a sorted list leaves sorted means between the first and the last input mean. */
  lemma {:induction false} FuseAllSorted(scale: Scale, total: real, cs: seq<Centroid>)
    requires cs != [] && Positive(cs) && Sorted(cs)
    ensures var f := FuseAll(scale, total, cs);
            Sorted(f.out) && Within(f.out, cs[0].mean, cs[|cs| - 1].mean)
  {
    var n := |cs| - 1;
    if n > 0 {
      FuseAllSorted(scale, total, cs[..n]);
      FuseAllSums(scale, total, cs[..n]);
      var f := FuseAll(scale, total, cs[..n]);
      FuseNextSorted(scale, total, f, cs[n], cs[0].mean);
    }
  }

  lemma FuseNextSorted(scale: Scale, total: real, f: Fusing, c: Centroid, lo: real)
    requires f.out != [] && Positive(f.out) && c.weight > 0.0
    requires Sorted(f.out) && Within(f.out, lo, c.mean)
    ensures Sorted(FuseNext(scale, total, f, c).out) && Within(FuseNext(scale, total, f, c).out, lo, c.mean)
  {
    var n := |f.out| - 1;
    assert lo <= f.out[n].mean <= c.mean;
    if f.soFar + c.weight <= f.limit {
      FuseConserves(f.out[n], c);
      assert AtMost(f.out[..n], f.out[n].mean);
      SortedSnoc(f.out[..n], Fuse(f.out[n], c));
    } else {
      SortedSnoc(f.out, c);
    }
  }

  /** Where group `g` ends when the groups start at `starts` and together cover `n` centroids. */
  function GroupEnd(starts: seq<nat>, g: nat, n: nat): nat
    requires g < |starts|
  {
    if g + 1 < |starts| then starts[g + 1] else n
  }

  ghost predicate ValidStarts(starts: seq<nat>, n: nat) {
    && starts != [] && starts[0] == 0
    && (forall g :: 0 <= g < |starts| ==> starts[g] < GroupEnd(starts, g, n) <= n)
  }

  /** Output centroid `g` carries exactly the weight and moment of the inputs from `from` to `to`. */
  ghost predicate Carries(c: Centroid, cs: seq<Centroid>, from: nat, to: nat)
    requires from <= to <= |cs|
  {
    c.weight == SumWeight(cs[from..to]) && Moment(c) == SumMoment(cs[from..to])
  }

  ghost predicate GroupLimitsMet(scale: Scale, total: real, cs: seq<Centroid>, from: nat, to: nat, last: bool)
    requires from < to <= |cs| && (last || to < |cs|)
  {
    var limit := GroupLimit(scale, total, from == 0, SumWeight(cs[..from]));
    && (from + 1 < to ==> SumWeight(cs[..to]) <= limit)
    && (!last ==> SumWeight(cs[..to + 1]) > limit)
  }

  ghost predicate GreedyGroups(scale: Scale, total: real, cs: seq<Centroid>, out: seq<Centroid>, starts: seq<nat>) {
    && ValidStarts(starts, |cs|) && |out| == |starts|
    && (forall g :: 0 <= g < |starts| ==>
         && Carries(out[g], cs, starts[g], GroupEnd(starts, g, |cs|))
         && (g + 1 == |starts| || GroupEnd(starts, g, |cs|) < |cs|)
         && GroupLimitsMet(scale, total, cs, starts[g], GroupEnd(starts, g, |cs|), g + 1 == |starts|))
  }

  lemma CarriesPrefix(c: Centroid, cs: seq<Centroid>, x: Centroid, from: nat, to: nat)
    requires from <= to <= |cs| && Carries(c, cs, from, to)
    ensures Carries(c, cs + [x], from, to)
  {
    assert (cs + [x])[from..to] == cs[from..to];
  }

  lemma CarriesFused(c: Centroid, cs: seq<Centroid>, x: Centroid, from: nat)
    requires from <= |cs| && Carries(c, cs, from, |cs|) && c.weight > 0.0 && x.weight > 0.0
    ensures Carries(Fuse(c, x), cs + [x], from, |cs| + 1)
  {
    assert (cs + [x])[from..|cs| + 1] == cs[from..] + [x] && cs[from..|cs|] == cs[from..];
    SumSnoc(cs[from..], x);
    FuseConserves(c, x);
  }

  lemma CarriesItself(cs: seq<Centroid>, x: Centroid)
    ensures Carries(x, cs + [x], |cs|, |cs| + 1)
  {
    assert (cs + [x])[|cs|..|cs| + 1] == [] + [x];
    SumSnoc([], x);
  }

  lemma LimitsPrefix(scale: Scale, total: real, cs: seq<Centroid>, x: Centroid, from: nat, to: nat)
    requires from < to < |cs| && GroupLimitsMet(scale, total, cs, from, to, false)
    ensures GroupLimitsMet(scale, total, cs + [x], from, to, false)
  {
    assert (cs + [x])[..from] == cs[..from] && (cs + [x])[..to] == cs[..to];
    assert (cs + [x])[..to + 1] == cs[..to + 1];
  }

  ghost predicate GroupsBut(scale: Scale, total: real, cs: seq<Centroid>, out: seq<Centroid>, starts: seq<nat>, n: nat) {
    && ValidStarts(starts, |cs|) && n <= |starts| && n <= |out|
    && (forall g :: 0 <= g < n ==>
         && Carries(out[g], cs, starts[g], GroupEnd(starts, g, |cs|))
         && (g + 1 == |starts| || GroupEnd(starts, g, |cs|) < |cs|)
         && GroupLimitsMet(scale, total, cs, starts[g], GroupEnd(starts, g, |cs|), g + 1 == |starts|))
  }

  lemma GroupsKept(scale: Scale, total: real, cs: seq<Centroid>, x: Centroid,
                   out: seq<Centroid>, starts: seq<nat>, out': seq<Centroid>, starts': seq<nat>)
    requires GreedyGroups(scale, total, cs, out, starts)
    requires ValidStarts(starts', |cs| + 1) && starts <= starts' && |out| <= |out'|
    requires forall g :: 0 <= g < |out| - 1 ==> out'[g] == out[g]
    ensures GroupsBut(scale, total, cs + [x], out', starts', |starts| - 1)
  {
    var cs' := cs + [x];
    forall g | 0 <= g < |starts| - 1
      ensures Carries(out'[g], cs', starts'[g], GroupEnd(starts', g, |cs'|))
      ensures GroupEnd(starts', g, |cs'|) < |cs'|
      ensures GroupLimitsMet(scale, total, cs', starts'[g], GroupEnd(starts', g, |cs'|), false)
    {
      assert starts'[g] == starts[g] && starts'[g + 1] == starts[g + 1];
      CarriesPrefix(out[g], cs, x, starts[g], starts[g + 1]);
      LimitsPrefix(scale, total, cs, x, starts[g], starts[g + 1]);
    }
  }

  /**
   The compressed list is the greedy grouping of the input: consecutive groups, each carrying
   the weight and moment of its members, each within its limit unless it has one member, and
   each closed only because the next centroid would exceed that limit.
   */
  lemma {:induction false} FuseAllGreedy(scale: Scale, total: real, cs: seq<Centroid>) returns (starts: seq<nat>)
    requires cs != [] && Positive(cs)
    ensures var f := FuseAll(scale, total, cs);
            && GreedyGroups(scale, total, cs, f.out, starts)
            && f.limit == OpenLimit(scale, total, cs, starts)
  {
    var n := |cs| - 1;
    if n == 0 {
      starts := [0];
      CarriesItself([], cs[0]);
      assert cs == [] + [cs[0]];
    } else {
      var front := cs[..n];
      var before := FuseAllGreedy(scale, total, front);
      FuseAllSums(scale, total, front);
      Snoc(cs);
      starts := FuseNextGreedy(scale, total, FuseAll(scale, total, front), front, before, cs[n]);
    }
  }

  /** The limit of the group still open. */
  ghost function OpenLimit(scale: Scale, total: real, cs: seq<Centroid>, starts: seq<nat>): real
    requires ValidStarts(starts, |cs|)
  {
    var from := starts[|starts| - 1];
    GroupLimit(scale, total, from == 0, SumWeight(cs[..from]))
  }

  lemma FuseNextGreedy(scale: Scale, total: real, f: Fusing, cs: seq<Centroid>, before: seq<nat>, x: Centroid)
    returns (starts: seq<nat>)
    requires SumsKept(f, cs) && x.weight > 0.0
    requires GreedyGroups(scale, total, cs, f.out, before)
    requires f.limit == OpenLimit(scale, total, cs, before)
    ensures var g := FuseNext(scale, total, f, x);
            && GreedyGroups(scale, total, cs + [x], g.out, starts)
            && g.limit == OpenLimit(scale, total, cs + [x], starts)
  {
    if f.soFar + x.weight <= f.limit {
      starts := before;
      ExtendGroup(scale, total, f, cs, before, x);
      OpenLimitKept(scale, total, cs, x, before);
    } else {
      starts := before + [|cs|];
      OpenGroup(scale, total, f, cs, before, x);
    }
  }

  /** Groups up to `n` and group `n` itself are groups up to `n + 1`. */
  lemma OneMoreGroup(scale: Scale, total: real, cs: seq<Centroid>, out: seq<Centroid>, starts: seq<nat>, n: nat, to: nat)
    requires GroupsBut(scale, total, cs, out, starts, n) && n < |starts| && n < |out| && to == GroupEnd(starts, n, |cs|)
    requires Carries(out[n], cs, starts[n], to) && (n + 1 == |starts| || to < |cs|)
    requires GroupLimitsMet(scale, total, cs, starts[n], to, n + 1 == |starts|)
    ensures GroupsBut(scale, total, cs, out, starts, n + 1)
  {
  }

  lemma LimitsExtended(scale: Scale, total: real, cs: seq<Centroid>, x: Centroid, from: nat)
    requires from < |cs| && SumWeight(cs) + x.weight <= GroupLimit(scale, total, from == 0, SumWeight(cs[..from]))
    ensures GroupLimitsMet(scale, total, cs + [x], from, |cs| + 1, true)
  {
    var cs' := cs + [x];
    assert cs'[..from] == cs[..from] && cs'[..|cs'|] == cs';
    SumSnoc(cs, x);
  }

  lemma LimitsClosed(scale: Scale, total: real, cs: seq<Centroid>, x: Centroid, from: nat)
    requires from < |cs| && SumWeight(cs) + x.weight > GroupLimit(scale, total, from == 0, SumWeight(cs[..from]))
    requires GroupLimitsMet(scale, total, cs, from, |cs|, true)
    ensures GroupLimitsMet(scale, total, cs + [x], from, |cs|, false)
  {
    var cs' := cs + [x];
    assert cs'[..from] == cs[..from] && cs'[..|cs|] == cs && cs'[..|cs| + 1] == cs' && cs[..|cs|] == cs;
    SumSnoc(cs, x);
  }

  lemma OpenLimitKept(scale: Scale, total: real, cs: seq<Centroid>, x: Centroid, starts: seq<nat>)
    requires ValidStarts(starts, |cs|)
    ensures ValidStarts(starts, |cs| + 1) && OpenLimit(scale, total, cs + [x], starts) == OpenLimit(scale, total, cs, starts)
  {
    var from := starts[|starts| - 1];
    forall g | 0 <= g < |starts| ensures starts[g] < GroupEnd(starts, g, |cs| + 1) <= |cs| + 1 {
      assert starts[g] < GroupEnd(starts, g, |cs|) <= |cs|;
    }
    assert (cs + [x])[..from] == cs[..from];
  }

  lemma ExtendGroup(scale: Scale, total: real, f: Fusing, cs: seq<Centroid>, starts: seq<nat>, x: Centroid)
    requires SumsKept(f, cs) && x.weight > 0.0
    requires GreedyGroups(scale, total, cs, f.out, starts)
    requires f.limit == OpenLimit(scale, total, cs, starts) && f.soFar + x.weight <= f.limit
    ensures var n := |f.out| - 1; GreedyGroups(scale, total, cs + [x], f.out[..n] + [Fuse(f.out[n], x)], starts)
  {
    var n, cs' := |f.out| - 1, cs + [x];
    var out' := f.out[..n] + [Fuse(f.out[n], x)];
    var from := starts[n];
    OpenLimitKept(scale, total, cs, x, starts);
    LimitsExtended(scale, total, cs, x, from);
    GroupsKept(scale, total, cs, x, f.out, starts, out', starts);
    CarriesFused(f.out[n], cs, x, from);
    OneMoreGroup(scale, total, cs', out', starts, n, |cs'|);
  }

  lemma OpensStarts(starts: seq<nat>, n: nat)
    requires ValidStarts(starts, n)
    ensures ValidStarts(starts + [n], n + 1)
  {
    var starts' := starts + [n];
    forall g | 0 <= g < |starts'|
      ensures starts'[g] < GroupEnd(starts', g, n + 1) <= n + 1
    {
      assert g < |starts| ==> GroupEnd(starts', g, n + 1) == GroupEnd(starts, g, n);
    }
  }

  /** The group that was open is closed by the next centroid. */
  lemma CloseGroup(scale: Scale, total: real, f: Fusing, cs: seq<Centroid>, starts: seq<nat>, x: Centroid)
    requires SumsKept(f, cs) && x.weight > 0.0
    requires GreedyGroups(scale, total, cs, f.out, starts) && ValidStarts(starts + [|cs|], |cs| + 1)
    requires f.limit == OpenLimit(scale, total, cs, starts) && f.soFar + x.weight > f.limit
    ensures GroupsBut(scale, total, cs + [x], f.out + [x], starts + [|cs|], |starts|)
  {
    var n, cs', starts' := |f.out| - 1, cs + [x], starts + [|cs|];
    var from := starts[n];
    LimitsClosed(scale, total, cs, x, from);
    GroupsKept(scale, total, cs, x, f.out, starts, f.out + [x], starts');
    CarriesPrefix(f.out[n], cs, x, from, |cs|);
    OneMoreGroup(scale, total, cs', f.out + [x], starts', n, |cs|);
  }

  lemma OpenGroup(scale: Scale, total: real, f: Fusing, cs: seq<Centroid>, starts: seq<nat>, x: Centroid)
    requires SumsKept(f, cs) && x.weight > 0.0
    requires GreedyGroups(scale, total, cs, f.out, starts)
    requires f.limit == OpenLimit(scale, total, cs, starts) && f.soFar + x.weight > f.limit
    ensures GreedyGroups(scale, total, cs + [x], f.out + [x], starts + [|cs|])
    ensures GroupLimit(scale, total, false, f.soFar) == OpenLimit(scale, total, cs + [x], starts + [|cs|])
  {
    var cs' := cs + [x];
    OpensStarts(starts, |cs|);
    CloseGroup(scale, total, f, cs, starts, x);
    CarriesItself(cs, x);
    OneMoreGroup(scale, total, cs', f.out + [x], starts + [|cs|], |starts|, |cs'|);
    assert cs'[..|cs|] == cs;
  }
}
