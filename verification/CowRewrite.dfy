/**
 Copy-on-write UPDATE, first half: a scan of the table collects, for every touched data file, its
 visible rows with the matched ones replaced. Row ids are recomputed as first row id + position.
 */
module CowRewrite {
  import opened Common
  import opened RowLineage
  import opened Sequences

  /** One scanned row: its identity columns, which a scan may leave null, and its values. */
  datatype ScanRow = ScanRow(path: Option<string>, pos: Option<int>, row: Row)

  datatype CowError =
    | DuplicateRowId(id: int) | NullIdentity | MissingLineage(path: string) | RowIdOverflow | NotVisible(id: int)
    | NoReplacementRows | NoDataFiles(oldFile: string)

  type Accumulators = map<string, seq<FileRow>>

  // ---------------------------------------------------------------------
  // What one scanned row contributes
  // ---------------------------------------------------------------------

  function TouchedFiles(matched: seq<Match>): set<string> {
    set i | 0 <= i < |matched| :: matched[i].place.path
  }

  /** Row id to index of its match. */
  function UpdatedIndex(matched: seq<Match>, n: nat): map<int, nat>
    requires n <= |matched|
  {
    if n == 0 then map[] else UpdatedIndex(matched, n - 1)[matched[n - 1].rowId := n - 1]
  }

  lemma {:induction false} UpdatedIndexFinds(matched: seq<Match>, n: nat, id: int)
    requires n <= |matched|
    ensures id in UpdatedIndex(matched, n) <==> exists i :: 0 <= i < n && matched[i].rowId == id
    ensures id in UpdatedIndex(matched, n) ==> UpdatedIndex(matched, n)[id] < n && matched[UpdatedIndex(matched, n)[id]].rowId == id
  {
    if n > 0 {
      UpdatedIndexFinds(matched, n - 1, id);
    }
  }

  predicate HasIdentity(s: ScanRow) {
    s.path.Some? && s.pos.Some?
  }

  /** The row is in a touched file and still visible. */
  predicate Kept(t: Table, matched: seq<Match>, s: ScanRow) {
    HasIdentity(s) && s.path.value in TouchedFiles(matched) && RowIsVisible(t, Place(s.path.value, s.pos.value), s.row)
  }

  function RecomputedId(t: Table, s: ScanRow): int
    requires HasIdentity(s) && s.path.value in t.files
  {
    t.files[s.path.value].firstRowId + s.pos.value
  }

  predicate Fails(t: Table, matched: seq<Match>, s: ScanRow) {
    || !HasIdentity(s)
    || (Kept(t, matched, s) && (s.path.value !in t.files || !(I64_MIN <= RecomputedId(t, s) <= I64_MAX)))
  }

  function RewriteRow(t: Table, matched: seq<Match>, newSeq: int, s: ScanRow): FileRow
    requires HasIdentity(s) && s.path.value in t.files
  {
    var id := RecomputedId(t, s);
    UpdatedIndexFinds(matched, |matched|, id);
    var updated := UpdatedIndex(matched, |matched|);
    if id in updated then FileRow(matched[updated[id]].newRow, Some(id), Some(newSeq))
    else FileRow(s.row, Some(id), Some(t.files[s.path.value].dataSeq))
  }

  ghost predicate NoneFail(t: Table, matched: seq<Match>, scan: seq<ScanRow>) {
    forall i :: 0 <= i < |scan| ==> !Fails(t, matched, scan[i])
  }

  /** The rows collected for one file, in scan order. */
  ghost function Rewritten(t: Table, matched: seq<Match>, newSeq: int, scan: seq<ScanRow>, path: string): seq<FileRow>
    requires NoneFail(t, matched, scan)
  {
    if scan == [] then []
    else
      var before, s := Rewritten(t, matched, newSeq, scan[..|scan| - 1], path), scan[|scan| - 1];
      if Kept(t, matched, s) && s.path.value == path then before + [RewriteRow(t, matched, newSeq, s)] else before
  }

  /** The matched ids met so far. */
  ghost predicate Met(t: Table, matched: seq<Match>, scan: seq<ScanRow>, id: int) {
    IsMatched(matched, id) && exists i :: 0 <= i < |scan| && Kept(t, matched, scan[i]) && scan[i].path.value in t.files && RecomputedId(t, scan[i]) == id
  }

  // ---------------------------------------------------------------------
  // The collecting loop
  // ---------------------------------------------------------------------

  ghost predicate Collected(t: Table, matched: seq<Match>, newSeq: int, scan: seq<ScanRow>, acc: Accumulators, seen: set<int>) {
    && NoneFail(t, matched, scan)
    && (forall path :: path in acc ==> acc[path] != [] && acc[path] == Rewritten(t, matched, newSeq, scan, path))
    && (forall path :: path !in acc ==> Rewritten(t, matched, newSeq, scan, path) == [])
    && (forall id :: id in seen <==> Met(t, matched, scan, id))
  }

  function Push(acc: Accumulators, path: string, row: FileRow): Accumulators {
    acc[path := (if path in acc then acc[path] else []) + [row]]
  }

  lemma RewrittenSnoc(t: Table, matched: seq<Match>, newSeq: int, scan: seq<ScanRow>, s: ScanRow, path: string)
    requires NoneFail(t, matched, scan) && !Fails(t, matched, s)
    ensures NoneFail(t, matched, scan + [s])
    ensures Rewritten(t, matched, newSeq, scan + [s], path) ==
            Rewritten(t, matched, newSeq, scan, path) +
            (if Kept(t, matched, s) && s.path.value == path then [RewriteRow(t, matched, newSeq, s)] else [])
  {
    assert (scan + [s])[..|scan|] == scan;
  }

  lemma MetSnoc(t: Table, matched: seq<Match>, scan: seq<ScanRow>, s: ScanRow, id: int)
    requires !Fails(t, matched, s)
    ensures Met(t, matched, scan + [s], id) <==>
            Met(t, matched, scan, id) || (IsMatched(matched, id) && Kept(t, matched, s) && RecomputedId(t, s) == id)
  {
    var all := scan + [s];
    assert all[|scan|] == s;
    forall i | 0 <= i < |scan| ensures all[i] == scan[i] {
    }
  }

  lemma SkipRow(t: Table, matched: seq<Match>, newSeq: int, scan: seq<ScanRow>, acc: Accumulators, seen: set<int>, s: ScanRow)
    requires Collected(t, matched, newSeq, scan, acc, seen) && !Fails(t, matched, s) && !Kept(t, matched, s)
    ensures Collected(t, matched, newSeq, scan + [s], acc, seen)
  {
    forall path ensures NoneFail(t, matched, scan + [s]) && Rewritten(t, matched, newSeq, scan + [s], path) == Rewritten(t, matched, newSeq, scan, path) {
      RewrittenSnoc(t, matched, newSeq, scan, s, path);
    }
    forall id ensures Met(t, matched, scan + [s], id) <==> Met(t, matched, scan, id) {
      MetSnoc(t, matched, scan, s, id);
    }
  }

  lemma TakeRow(t: Table, matched: seq<Match>, newSeq: int, scan: seq<ScanRow>, acc: Accumulators, seen: set<int>, s: ScanRow, seen': set<int>)
    requires Collected(t, matched, newSeq, scan, acc, seen) && !Fails(t, matched, s) && Kept(t, matched, s)
    requires seen' == seen + (if IsMatched(matched, RecomputedId(t, s)) then {RecomputedId(t, s)} else {})
    ensures Collected(t, matched, newSeq, scan + [s], Push(acc, s.path.value, RewriteRow(t, matched, newSeq, s)), seen')
  {
    RewrittenSnoc(t, matched, newSeq, scan, s, s.path.value);
    var acc' := Push(acc, s.path.value, RewriteRow(t, matched, newSeq, s));
    forall path ensures path in acc' ==> acc'[path] != [] && acc'[path] == Rewritten(t, matched, newSeq, scan + [s], path) {
      RewrittenSnoc(t, matched, newSeq, scan, s, path);
    }
    forall path | path !in acc' ensures Rewritten(t, matched, newSeq, scan + [s], path) == [] {
      RewrittenSnoc(t, matched, newSeq, scan, s, path);
    }
    forall id ensures id in seen' <==> Met(t, matched, scan + [s], id) {
      MetSnoc(t, matched, scan, s, id);
    }
  }

  method CollectRow(t: Table, matched: seq<Match>, touched: set<string>, updated: map<int, nat>, newSeq: int, s: ScanRow,
                    acc0: Accumulators, seen0: set<int>, ghost scan: seq<ScanRow>)
    returns (error: Option<CowError>, acc: Accumulators, seen: set<int>)
    requires touched == TouchedFiles(matched) && updated == UpdatedIndex(matched, |matched|)
    requires Collected(t, matched, newSeq, scan, acc0, seen0)
    ensures error.None? <==> !Fails(t, matched, s)
    ensures error.None? ==> Collected(t, matched, newSeq, scan + [s], acc, seen)
    ensures error.Some? ==> error.value.NullIdentity? || error.value.MissingLineage? || error.value.RowIdOverflow?
  {
    error, acc, seen := None, acc0, seen0;
    if s.path.None? || s.pos.None? {
      return Some(NullIdentity), acc, seen;
    }
    var path, pos := s.path.value, s.pos.value;
    if path !in touched || !RowIsVisible(t, Place(path, pos), s.row) {
      SkipRow(t, matched, newSeq, scan, acc, seen, s);
      return;
    }
    if path !in t.files {
      return Some(MissingLineage(path)), acc, seen;
    }
    var id := t.files[path].firstRowId + pos;
    if id < I64_MIN || id > I64_MAX {
      return Some(RowIdOverflow), acc, seen;
    }
    UpdatedIndexFinds(matched, |matched|, id);
    var row := FileRow(s.row, Some(id), Some(t.files[path].dataSeq));
    if id in updated {
      seen := seen + {id};
      row := FileRow(matched[updated[id]].newRow, Some(id), Some(newSeq));
    }
    TakeRow(t, matched, newSeq, scan, acc, seen0, s, seen);
    acc := Push(acc, path, row);
  }

  method CollectRows(t: Table, matched: seq<Match>, newSeq: int, batch: seq<ScanRow>, acc0: Accumulators, seen0: set<int>, ghost scan: seq<ScanRow>)
    returns (error: Option<CowError>, acc: Accumulators, seen: set<int>)
    requires Collected(t, matched, newSeq, scan, acc0, seen0)
    ensures error.None? <==> NoneFail(t, matched, batch)
    ensures error.None? ==> Collected(t, matched, newSeq, scan + batch, acc, seen)
    ensures error.Some? ==> error.value.NullIdentity? || error.value.MissingLineage? || error.value.RowIdOverflow?
  {
    var touched, updated := TouchedFiles(matched), UpdatedIndex(matched, |matched|);
    acc, seen := acc0, seen0;
    var k := 0;
    assert scan + batch[..0] == scan;
    while k < |batch|
      invariant 0 <= k <= |batch| && forall i :: 0 <= i < k ==> !Fails(t, matched, batch[i])
      invariant Collected(t, matched, newSeq, scan + batch[..k], acc, seen)
    {
      assert scan + batch[..k + 1] == scan + batch[..k] + [batch[k]];
      error, acc, seen := CollectRow(t, matched, touched, updated, newSeq, batch[k], acc, seen, scan + batch[..k]);
      if error.Some? {
        return;
      }
      k := k + 1;
    }
    assert batch[..k] == batch;
    error := None;
  }

  // ---------------------------------------------------------------------
  // The whole scan
  // ---------------------------------------------------------------------

  ghost predicate AllMet(t: Table, matched: seq<Match>, scan: seq<ScanRow>) {
    forall i :: 0 <= i < |matched| ==> Met(t, matched, scan, matched[i].rowId)
  }

  lemma StartCollected(t: Table, matched: seq<Match>, newSeq: int)
    ensures Collected(t, matched, newSeq, [], map[], {})
  {
  }

  /** The rewrite succeeds exactly when no scanned row fails and every matched id is met again. */
  method BuildCowRewrites(t: Table, matched: seq<Match>, newSeq: int, batches: seq<seq<ScanRow>>)
    returns (r: Result<Accumulators, CowError>)
    ensures r.Ok? <==> matched != [] && NoneFail(t, matched, Concat(batches)) && AllMet(t, matched, Concat(batches))
    ensures r.Ok? ==> exists seen :: Collected(t, matched, newSeq, Concat(batches), r.value, seen)
    ensures r.Err? ==> !r.error.DuplicateRowId?
  {
    var acc: Accumulators, seen: set<int>, k := map[], {}, 0;
    StartCollected(t, matched, newSeq);
    while k < |batches|
      invariant 0 <= k <= |batches| && Collected(t, matched, newSeq, Concat(batches[..k]), acc, seen)
    {
      var error, acc', seen' := CollectRows(t, matched, newSeq, batches[k], acc, seen, Concat(batches[..k]));
      if error.Some? {
        ghost var i :| 0 <= i < |batches[k]| && Fails(t, matched, batches[k][i]);
        ConcatMember(batches, k, batches[k][i]);
        return Err(error.value);
      }
      ConcatStep(batches, k);
      acc, seen, k := acc', seen', k + 1;
    }
    TakeAll(batches);
    var missing := FirstUnseen(matched, seen);
    if missing.Some? {
      return Err(NotVisible(missing.value));
    }
    if |acc| == 0 {
      NothingMet(t, matched, newSeq, Concat(batches), seen);
      return Err(NoReplacementRows);
    }
    SomethingMatched(t, matched, newSeq, Concat(batches), acc, seen);
    r := Ok(acc);
  }

  method FirstUnseen(matched: seq<Match>, seen: set<int>) returns (r: Option<int>)
    ensures r.None? <==> forall i :: 0 <= i < |matched| ==> matched[i].rowId in seen
    ensures r.Some? ==> IsMatched(matched, r.value) && r.value !in seen
  {
    for k := 0 to |matched|
      invariant forall i :: 0 <= i < k ==> matched[i].rowId in seen
    {
      if matched[k].rowId !in seen {
        return Some(matched[k].rowId);
      }
    }
    r := None;
  }

  lemma {:induction false} KeptIsCollected(t: Table, matched: seq<Match>, newSeq: int, scan: seq<ScanRow>, i: nat)
    requires NoneFail(t, matched, scan) && i < |scan| && Kept(t, matched, scan[i])
    ensures RewriteRow(t, matched, newSeq, scan[i]) in Rewritten(t, matched, newSeq, scan, scan[i].path.value)
  {
    if i < |scan| - 1 {
      KeptIsCollected(t, matched, newSeq, scan[..|scan| - 1], i);
    }
  }

  lemma {:induction false} CollectedIsKept(t: Table, matched: seq<Match>, newSeq: int, scan: seq<ScanRow>, path: string, x: FileRow) returns (i: nat)
    requires NoneFail(t, matched, scan) && x in Rewritten(t, matched, newSeq, scan, path)
    ensures i < |scan| && Kept(t, matched, scan[i]) && scan[i].path == Some(path) && x == RewriteRow(t, matched, newSeq, scan[i])
  {
    var n := |scan| - 1;
    if Kept(t, matched, scan[n]) && scan[n].path.value == path && x == RewriteRow(t, matched, newSeq, scan[n]) {
      i := n;
    } else {
      i := CollectedIsKept(t, matched, newSeq, scan[..n], path, x);
    }
  }

  lemma MetIsCollected(t: Table, matched: seq<Match>, newSeq: int, scan: seq<ScanRow>, id: int) returns (path: string)
    requires NoneFail(t, matched, scan) && Met(t, matched, scan, id)
    ensures Rewritten(t, matched, newSeq, scan, path) != []
  {
    var i: nat :| i < |scan| && Kept(t, matched, scan[i]) && scan[i].path.value in t.files && RecomputedId(t, scan[i]) == id;
    KeptIsCollected(t, matched, newSeq, scan, i);
    path := scan[i].path.value;
  }

  lemma NothingMet(t: Table, matched: seq<Match>, newSeq: int, scan: seq<ScanRow>, seen: set<int>)
    requires Collected(t, matched, newSeq, scan, map[], seen)
    ensures matched != [] ==> !AllMet(t, matched, scan)
  {
    if matched != [] && AllMet(t, matched, scan) {
      var path := MetIsCollected(t, matched, newSeq, scan, matched[0].rowId);
    }
  }

  lemma SomethingMatched(t: Table, matched: seq<Match>, newSeq: int, scan: seq<ScanRow>, acc: Accumulators, seen: set<int>)
    requires Collected(t, matched, newSeq, scan, acc, seen) && |acc| > 0
    ensures matched != []
  {
    var path :| path in acc;
    var i := CollectedIsKept(t, matched, newSeq, scan, path, acc[path][0]);
  }
}
