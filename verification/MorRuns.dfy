/**
 Merge-on-read UPDATE, first half: the matched rows are sorted by row id and cut into runs of
 consecutive ids, so that a file holding one run recovers each id as first row id plus position.
 */
module MorRuns {
  import opened Common
  import opened RowLineage
  import opened Sequences

  /** The rows of one replacement file, in row id order, with the lineage stored beside them. */
  datatype Run = Run(firstRowId: int, rows: seq<FileRow>)

  datatype RunError = RowIdOverflow

  // ---------------------------------------------------------------------
  // Sorting the matched rows
  // ---------------------------------------------------------------------

  predicate Indices(matched: seq<Match>, s: seq<nat>) {
    forall k :: 0 <= k < |s| ==> s[k] < |matched|
  }

  predicate SortedById(matched: seq<Match>, s: seq<nat>)
    requires Indices(matched, s)
  {
    forall a, b :: 0 <= a < b < |s| ==> matched[s[a]].rowId <= matched[s[b]].rowId
  }

  ghost predicate NoDuplicates(s: seq<nat>) {
    forall a, b :: 0 <= a < b < |s| ==> s[a] != s[b]
  }

  /** `order` lists every match exactly once, by ascending row id. */
  ghost predicate IsOrder(matched: seq<Match>, order: seq<nat>) {
    && Indices(matched, order) && NoDuplicates(order) && SortedById(matched, order)
    && forall i: nat :: i < |matched| ==> i in order
  }

  function InsertIndex(matched: seq<Match>, s: seq<nat>, i: nat): (r: seq<nat>)
    requires Indices(matched, s) && i < |matched|
    ensures Indices(matched, r) && forall k: nat :: k in r <==> k in s || k == i
  {
    if s == [] then [i]
    else if matched[s[0]].rowId <= matched[i].rowId then [s[0]] + InsertIndex(matched, s[1..], i)
    else [i] + s
  }

  lemma PrependSorted(matched: seq<Match>, x: nat, s: seq<nat>)
    requires Indices(matched, s) && x < |matched| && SortedById(matched, s) && NoDuplicates(s)
    requires forall k: nat :: k in s ==> k < |matched| && k != x && matched[x].rowId <= matched[k].rowId
    ensures Indices(matched, [x] + s) && SortedById(matched, [x] + s) && NoDuplicates([x] + s)
  {
    forall b | 0 <= b < |s| ensures s[b] != x && matched[x].rowId <= matched[s[b]].rowId {
      assert s[b] in s;
    }
  }

  lemma {:induction false} InsertIndexSorted(matched: seq<Match>, s: seq<nat>, i: nat)
    requires Indices(matched, s) && i < |matched| && SortedById(matched, s) && NoDuplicates(s) && i !in s
    ensures SortedById(matched, InsertIndex(matched, s, i)) && NoDuplicates(InsertIndex(matched, s, i))
  {
    if s != [] {
      if matched[s[0]].rowId <= matched[i].rowId {
        InsertIndexSorted(matched, s[1..], i);
        PrependSorted(matched, s[0], InsertIndex(matched, s[1..], i));
      } else {
        PrependSorted(matched, i, s);
      }
    }
  }

  function SortIndices(matched: seq<Match>, n: nat): (r: seq<nat>)
    requires n <= |matched|
    ensures Indices(matched, r) && forall k: nat :: k in r <==> k < n
  {
    if n == 0 then [] else InsertIndex(matched, SortIndices(matched, n - 1), n - 1)
  }

  lemma {:induction false} SortIndicesOrders(matched: seq<Match>, n: nat)
    requires n <= |matched|
    ensures SortedById(matched, SortIndices(matched, n)) && NoDuplicates(SortIndices(matched, n))
  {
    if n > 0 {
      SortIndicesOrders(matched, n - 1);
      InsertIndexSorted(matched, SortIndices(matched, n - 1), n - 1);
    }
  }

  // ---------------------------------------------------------------------
  // Grouping into runs
  // ---------------------------------------------------------------------

  ghost predicate Consecutive(matched: seq<Match>, g: seq<nat>) {
    && |g| > 0 && Indices(matched, g)
    && forall k :: 0 <= k < |g| ==> matched[g[k]].rowId == matched[g[0]].rowId + k
  }

  /** The row after run `a` is neither missing from it nor before it. */
  ghost predicate Separate(matched: seq<Match>, a: seq<nat>, b: seq<nat>)
    requires Consecutive(matched, a) && Consecutive(matched, b)
  {
    var last, next := matched[a[|a| - 1]].rowId, matched[b[0]].rowId;
    last <= next && next != last + 1 && (DistinctIds(matched) ==> last < next)
  }

  ghost predicate RunsSoFar(matched: seq<Match>, groups: seq<seq<nat>>) {
    && (forall j :: 0 <= j < |groups| ==> Consecutive(matched, groups[j]))
    && (forall i, j :: 0 <= i < j < |groups| && j == i + 1 ==> Separate(matched, groups[i], groups[j]))
  }

  /** `groups` cuts `order` into consecutive-id runs that cannot be joined. */
  ghost predicate MaximalRuns(matched: seq<Match>, order: seq<nat>, groups: seq<seq<nat>>) {
    && Concat(groups) == order
    && RunsSoFar(matched, groups)
  }

  function Replacement(m: Match, newSeq: int): FileRow {
    FileRow(m.newRow, Some(m.rowId), Some(newSeq))
  }

  function Replacements(matched: seq<Match>, indices: seq<nat>, newSeq: int): (r: seq<FileRow>)
    requires Indices(matched, indices)
    ensures |r| == |indices|
  {
    if indices == [] then [] else [Replacement(matched[indices[0]], newSeq)] + Replacements(matched, indices[1..], newSeq)
  }

  lemma {:induction false} ReplacementsAt(matched: seq<Match>, indices: seq<nat>, newSeq: int, k: nat)
    requires Indices(matched, indices) && k < |indices|
    ensures Replacements(matched, indices, newSeq)[k] == Replacement(matched[indices[k]], newSeq)
  {
    if k > 0 {
      ReplacementsAt(matched, indices[1..], newSeq, k - 1);
    }
  }

  function Materialize(matched: seq<Match>, indices: seq<nat>, newSeq: int): Run
    requires |indices| > 0 && Indices(matched, indices)
  {
    Run(matched[indices[0]].rowId, Replacements(matched, indices, newSeq))
  }

  ghost predicate Materialized(matched: seq<Match>, groups: seq<seq<nat>>, newSeq: int, runs: seq<Run>) {
    && |runs| == |groups|
    && forall j :: 0 <= j < |runs| ==>
         |groups[j]| > 0 && Indices(matched, groups[j]) && runs[j] == Materialize(matched, groups[j], newSeq)
  }

  ghost predicate IdsFit(matched: seq<Match>) {
    forall i :: 0 <= i < |matched| ==> matched[i].rowId <= I64_MAX
  }

  ghost predicate TwiceMax(matched: seq<Match>) {
    exists i, j :: 0 <= i < j < |matched| && matched[i].rowId == I64_MAX && matched[j].rowId == I64_MAX
  }

  /** The grouping loop's state after `k` rows: closed runs, and an open one that continues them. */
  ghost predicate Grouped(matched: seq<Match>, order: seq<nat>, k: nat, groups: seq<seq<nat>>, current: seq<nat>,
                          newSeq: int, runs: seq<Run>)
  {
    && 0 < k <= |order| && Indices(matched, order)
    && RunsSoFar(matched, groups) && Consecutive(matched, current)
    && (groups != [] ==> Separate(matched, groups[|groups| - 1], current))
    && Concat(groups) + current == order[..k]
    && Materialized(matched, groups, newSeq, runs)
  }

  method BuildMorUpdateRuns(matched: seq<Match>, newSeq: int)
    returns (r: Result<seq<Run>, RunError>, ghost order: seq<nat>, ghost groups: seq<seq<nat>>)
    requires IdsFit(matched)
    ensures IsOrder(matched, order)
    ensures r.Err? <==> TwiceMax(matched)
    ensures r.Ok? ==> MaximalRuns(matched, order, groups) && Materialized(matched, groups, newSeq, r.value)
  {
    var sorted := SortIndices(matched, |matched|);
    order := sorted;
    SortIndicesOrders(matched, |matched|);
    if |matched| == 0 {
      r, groups := Ok([]), [];
    } else {
      assert 0 in sorted;
      r, groups := GroupRuns(matched, sorted, newSeq);
    }
  }

  /** One turn of the grouping loop: extend the open run, or close it and start another. */
  method NextRow(matched: seq<Match>, order: seq<nat>, k: nat, newSeq: int, runs0: seq<Run>, current0: seq<nat>, ghost groups0: seq<seq<nat>>)
    returns (runs: seq<Run>, current: seq<nat>, ghost groups: seq<seq<nat>>)
    requires Grouped(matched, order, k, groups0, current0, newSeq, runs0) && k < |order|
    requires matched[order[k - 1]].rowId <= matched[order[k]].rowId
    requires DistinctIds(matched) ==> matched[order[k - 1]].rowId < matched[order[k]].rowId
    ensures Grouped(matched, order, k + 1, groups, current, newSeq, runs)
  {
    if matched[order[k]].rowId != matched[order[k - 1]].rowId + 1 {
      CloseRun(matched, order, k, groups0, current0, newSeq, runs0);
      runs, groups := runs0 + [Materialize(matched, current0, newSeq)], groups0 + [current0];
      current := [order[k]];
    } else {
      ExtendRun(matched, order, k, groups0, current0, newSeq, runs0);
      runs, groups := runs0, groups0;
      current := current0 + [order[k]];
    }
  }

  method GroupRuns(matched: seq<Match>, order: seq<nat>, newSeq: int)
    returns (r: Result<seq<Run>, RunError>, ghost groups: seq<seq<nat>>)
    requires IdsFit(matched) && IsOrder(matched, order) && order != []
    ensures r.Err? <==> TwiceMax(matched)
    ensures r.Ok? ==> MaximalRuns(matched, order, groups) && Materialized(matched, groups, newSeq, r.value)
  {
    groups := [];
    var runs: seq<Run> := [];
    var current: seq<nat> := [order[0]];
    var prev := matched[order[0]].rowId;
    var k := 1;
    FirstGroup(matched, order, newSeq);
    while k < |order|
      invariant 1 <= k <= |order| && prev == matched[order[k - 1]].rowId
      invariant Grouped(matched, order, k, groups, current, newSeq, runs)
      invariant forall a :: 0 <= a < k - 1 ==> matched[order[a]].rowId != I64_MAX
    {
      var rowId := matched[order[k]].rowId;
      if prev == I64_MAX {
        TwiceAt(matched, order[k - 1], order[k]);
        r := Err(RowIdOverflow);
        return;
      }
      runs, current, groups := NextRow(matched, order, k, newSeq, runs, current, groups);
      prev := rowId;
      k := k + 1;
    }
    FinishRuns(matched, order, groups, current, newSeq, runs);
    NotTwice(matched, order);
    runs := runs + [Materialize(matched, current, newSeq)];
    groups := groups + [current];
    r := Ok(runs);
  }

  lemma LastOpen(matched: seq<Match>, order: seq<nat>, k: nat, groups: seq<seq<nat>>, current: seq<nat>, newSeq: int, runs: seq<Run>)
    requires Grouped(matched, order, k, groups, current, newSeq, runs)
    ensures current[|current| - 1] == order[k - 1]
  {
    assert (Concat(groups) + current)[k - 1] == order[..k][k - 1];
  }

  /** The next row continues the open run. */
  lemma ExtendRun(matched: seq<Match>, order: seq<nat>, k: nat, groups: seq<seq<nat>>, current: seq<nat>, newSeq: int, runs: seq<Run>)
    requires Grouped(matched, order, k, groups, current, newSeq, runs) && k < |order|
    requires matched[order[k]].rowId == matched[order[k - 1]].rowId + 1
    ensures Grouped(matched, order, k + 1, groups, current + [order[k]], newSeq, runs)
  {
    LastOpen(matched, order, k, groups, current, newSeq, runs);
    TakeSnoc(order, k);
    assert Concat(groups) + (current + [order[k]]) == Concat(groups) + current + [order[k]];
  }

  /** The open run ends where the next row does not follow. */
  lemma CloseGroups(matched: seq<Match>, order: seq<nat>, k: nat, groups: seq<seq<nat>>, current: seq<nat>, newSeq: int, runs: seq<Run>)
    requires Grouped(matched, order, k, groups, current, newSeq, runs)
    ensures RunsSoFar(matched, groups + [current]) && Concat(groups + [current]) == order[..k]
    ensures Materialized(matched, groups + [current], newSeq, runs + [Materialize(matched, current, newSeq)])
  {
    ConcatSnoc(groups, current);
  }

  /** The next row starts a run of its own. */
  lemma OpenGroup(matched: seq<Match>, order: seq<nat>, k: nat, groups: seq<seq<nat>>, newSeq: int, runs: seq<Run>)
    requires 0 < k < |order| && Indices(matched, order) && RunsSoFar(matched, groups) && groups != []
    requires Concat(groups) == order[..k] && Materialized(matched, groups, newSeq, runs)
    requires Separate(matched, groups[|groups| - 1], [order[k]])
    ensures Grouped(matched, order, k + 1, groups, [order[k]], newSeq, runs)
  {
    TakeSnoc(order, k);
  }

  lemma FirstGroup(matched: seq<Match>, order: seq<nat>, newSeq: int)
    requires Indices(matched, order) && order != []
    ensures Grouped(matched, order, 1, [], [order[0]], newSeq, [])
  {
  }

  lemma CloseRun(matched: seq<Match>, order: seq<nat>, k: nat, groups: seq<seq<nat>>, current: seq<nat>, newSeq: int, runs: seq<Run>)
    requires Grouped(matched, order, k, groups, current, newSeq, runs) && k < |order|
    requires matched[order[k - 1]].rowId <= matched[order[k]].rowId != matched[order[k - 1]].rowId + 1
    requires DistinctIds(matched) ==> matched[order[k - 1]].rowId < matched[order[k]].rowId
    ensures Grouped(matched, order, k + 1, groups + [current], [order[k]], newSeq, runs + [Materialize(matched, current, newSeq)])
  {
    LastOpen(matched, order, k, groups, current, newSeq, runs);
    CloseGroups(matched, order, k, groups, current, newSeq, runs);
    OpenGroup(matched, order, k, groups + [current], newSeq, runs + [Materialize(matched, current, newSeq)]);
  }

  lemma FinishRuns(matched: seq<Match>, order: seq<nat>, groups: seq<seq<nat>>, current: seq<nat>, newSeq: int, runs: seq<Run>)
    requires Grouped(matched, order, |order|, groups, current, newSeq, runs)
    ensures MaximalRuns(matched, order, groups + [current])
    ensures Materialized(matched, groups + [current], newSeq, runs + [Materialize(matched, current, newSeq)])
  {
    CloseGroups(matched, order, |order|, groups, current, newSeq, runs);
    TakeAll(order);
  }

  lemma TwiceAt(matched: seq<Match>, a: nat, b: nat)
    requires a < |matched| && b < |matched| && a != b && IdsFit(matched)
    requires matched[a].rowId == I64_MAX <= matched[b].rowId
    ensures TwiceMax(matched)
  {
    assert matched[a].rowId == I64_MAX && matched[b].rowId == I64_MAX;
  }

  lemma NotTwice(matched: seq<Match>, order: seq<nat>)
    requires IsOrder(matched, order)
    requires forall a :: 0 <= a < |order| - 1 ==> matched[order[a]].rowId != I64_MAX
    ensures !TwiceMax(matched)
  {
    forall i: nat, j: nat | i < j < |matched| ensures matched[i].rowId != I64_MAX || matched[j].rowId != I64_MAX {
      assert i in order && j in order;
    }
  }

  /** The overflow error cannot happen once the ids are known to be distinct. */
  lemma DistinctNeverOverflows(matched: seq<Match>)
    requires DistinctIds(matched)
    ensures !TwiceMax(matched)
  {
  }
}
