/**
 DELETE: scan every file, keep the visible rows for which the WHERE clause holds, and record their
 positions as deleted.
 */
module PositionDeletes {
  import opened Common
  import opened RowLineage
  import opened Sequences
  import opened WhereFilter
  import opened SqlMeaning
  import opened WhereSemantics
  import opened MorCommit
  import opened CowRewrite
  import opened CowCommit

  type Positions = map<string, seq<int>>

  // ---------------------------------------------------------------------
  // Collecting positions
  // ---------------------------------------------------------------------

  /** The row has an identity and is visible, so the WHERE clause is evaluated on it. */
  predicate Considered(t: Table, s: ScanRow) {
    HasIdentity(s) && RowIsVisible(t, Place(s.path.value, s.pos.value), s.row)
  }

  predicate Chosen(t: Table, e: Expr, schema: Schema, s: ScanRow) {
    Considered(t, s) && Evaluate(e, s.row, schema) == Ok(true)
  }

  predicate Breaks(t: Table, e: Expr, schema: Schema, s: ScanRow) {
    Considered(t, s) && Evaluate(e, s.row, schema).Err?
  }

  /** The chosen positions of one file, in scan order. */
  function Hits(t: Table, e: Expr, schema: Schema, scan: seq<ScanRow>, path: string): seq<int> {
    if scan == [] then []
    else
      var s, before := scan[|scan| - 1], Hits(t, e, schema, scan[..|scan| - 1], path);
      if Chosen(t, e, schema, s) && s.path.value == path then before + [s.pos.value] else before
  }

  ghost predicate CollectedHits(t: Table, e: Expr, schema: Schema, scan: seq<ScanRow>, byFile: Positions) {
    && (forall path :: path in byFile ==> byFile[path] != [] && byFile[path] == Hits(t, e, schema, scan, path))
    && (forall path :: path !in byFile ==> Hits(t, e, schema, scan, path) == [])
  }

  lemma HitsSnoc(t: Table, e: Expr, schema: Schema, scan: seq<ScanRow>, s: ScanRow, path: string)
    ensures Hits(t, e, schema, scan + [s], path) ==
            Hits(t, e, schema, scan, path) + (if Chosen(t, e, schema, s) && s.path.value == path then [s.pos.value] else [])
  {
    assert (scan + [s])[..|scan|] == scan;
  }

  function Record(byFile: Positions, path: string, pos: int): Positions {
    byFile[path := (if path in byFile then byFile[path] else []) + [pos]]
  }

  lemma RecordedHit(t: Table, e: Expr, schema: Schema, scan: seq<ScanRow>, s: ScanRow, byFile: Positions)
    requires CollectedHits(t, e, schema, scan, byFile)
    ensures CollectedHits(t, e, schema, scan + [s],
                          if Chosen(t, e, schema, s) then Record(byFile, s.path.value, s.pos.value) else byFile)
  {
    forall path ensures Hits(t, e, schema, scan + [s], path) ==
                        Hits(t, e, schema, scan, path) + (if Chosen(t, e, schema, s) && s.path.value == path then [s.pos.value] else [])
    {
      HitsSnoc(t, e, schema, scan, s, path);
    }
  }

  method CollectPosition(t: Table, s: ScanRow, e: Expr, schema: Schema, byFile: Positions, ghost scan: seq<ScanRow>)
    returns (r: Result<Positions, WhereError>)
    requires CollectedHits(t, e, schema, scan, byFile)
    ensures r.Ok? <==> !Breaks(t, e, schema, s)
    ensures r.Ok? ==> CollectedHits(t, e, schema, scan + [s], r.value)
  {
    RecordedHit(t, e, schema, scan, s, byFile);
    if s.path.None? || s.pos.None? {
      return Ok(byFile);
    }
    if !RowIsVisible(t, Place(s.path.value, s.pos.value), s.row) {
      return Ok(byFile);
    }
    var matches := Evaluate(e, s.row, schema);
    if matches.Err? {
      return Err(matches.error);
    }
    r := Ok(if matches.value then Record(byFile, s.path.value, s.pos.value) else byFile);
  }

  method CollectPositionDeletes(t: Table, batch: seq<ScanRow>, e: Expr, schema: Schema, byFile0: Positions, ghost scan: seq<ScanRow>)
    returns (r: Result<Positions, WhereError>)
    requires CollectedHits(t, e, schema, scan, byFile0)
    ensures r.Ok? <==> forall i :: 0 <= i < |batch| ==> !Breaks(t, e, schema, batch[i])
    ensures r.Ok? ==> CollectedHits(t, e, schema, scan + batch, r.value)
  {
    var byFile, k := byFile0, 0;
    assert scan + batch[..0] == scan;
    while k < |batch|
      invariant 0 <= k <= |batch| && forall i :: 0 <= i < k ==> !Breaks(t, e, schema, batch[i])
      invariant CollectedHits(t, e, schema, scan + batch[..k], byFile)
    {
      assert scan + batch[..k + 1] == scan + batch[..k] + [batch[k]];
      var step := CollectPosition(t, batch[k], e, schema, byFile, scan + batch[..k]);
      if step.Err? {
        return Err(step.error);
      }
      byFile, k := step.value, k + 1;
    }
    assert batch[..k] == batch;
    r := Ok(byFile);
  }

  method ScanForDeletes(t: Table, batches: seq<seq<ScanRow>>, e: Expr, schema: Schema) returns (r: Result<Positions, WhereError>)
    ensures r.Ok? <==> forall i :: 0 <= i < |Concat(batches)| ==> !Breaks(t, e, schema, Concat(batches)[i])
    ensures r.Ok? ==> CollectedHits(t, e, schema, Concat(batches), r.value)
  {
    var byFile: Positions, k := map[], 0;
    while k < |batches|
      invariant 0 <= k <= |batches| && CollectedHits(t, e, schema, Concat(batches[..k]), byFile)
      invariant forall i :: 0 <= i < |Concat(batches[..k])| ==> !Breaks(t, e, schema, Concat(batches[..k])[i])
    {
      ConcatStep(batches, k);
      var step := CollectPositionDeletes(t, batches[k], e, schema, byFile, Concat(batches[..k]));
      if step.Err? {
        ghost var i :| 0 <= i < |batches[k]| && Breaks(t, e, schema, batches[k][i]);
        ConcatMember(batches, k, batches[k][i]);
        return Err(step.error);
      }
      byFile, k := step.value, k + 1;
    }
    TakeAll(batches);
    r := Ok(byFile);
  }

  // ---------------------------------------------------------------------
  // What was collected
  // ---------------------------------------------------------------------

  function CollectedPlaces(byFile: Positions): set<Place> {
    set path, pos | path in byFile && pos in byFile[path] :: Place(path, pos)
  }

  ghost predicate GoodClause(e: Expr, schema: Schema) {
    Accepts(e, schema) && InScope(e, schema)
  }

  ghost predicate ConformingTable(t: Table, schema: Schema) {
    forall p :: Exists(t, p) ==> Conforming(schema, t.files[p.path].rows[p.pos].row)
  }

  /** The row at a place satisfies the clause in SQL's sense. */
  ghost predicate Selected(t: Table, e: Expr, schema: Schema, p: Place)
    requires Exists(t, p)
  {
    Sql(e, t.files[p.path].rows[p.pos].row, schema) == True
  }

  ghost predicate ChosenAt(t: Table, e: Expr, schema: Schema, s: ScanRow, path: string, pos: int) {
    Chosen(t, e, schema, s) && s.path == Some(path) && s.pos == Some(pos)
  }

  lemma {:induction false} HitsHave(t: Table, e: Expr, schema: Schema, scan: seq<ScanRow>, path: string, pos: int, i: nat)
    requires i < |scan| && ChosenAt(t, e, schema, scan[i], path, pos)
    ensures pos in Hits(t, e, schema, scan, path)
  {
    if i < |scan| - 1 {
      HitsHave(t, e, schema, scan[..|scan| - 1], path, pos, i);
    }
  }

  lemma {:induction false} HitsComeFrom(t: Table, e: Expr, schema: Schema, scan: seq<ScanRow>, path: string, pos: int) returns (i: nat)
    requires pos in Hits(t, e, schema, scan, path)
    ensures i < |scan| && ChosenAt(t, e, schema, scan[i], path, pos)
  {
    var n := |scan| - 1;
    if ChosenAt(t, e, schema, scan[n], path, pos) {
      i := n;
    } else {
      i := HitsComeFrom(t, e, schema, scan[..n], path, pos);
    }
  }

  lemma HitsAre(t: Table, e: Expr, schema: Schema, scan: seq<ScanRow>, path: string, pos: int)
    ensures pos in Hits(t, e, schema, scan, path) <==> exists i :: 0 <= i < |scan| && ChosenAt(t, e, schema, scan[i], path, pos)
  {
    if pos in Hits(t, e, schema, scan, path) {
      var i := HitsComeFrom(t, e, schema, scan, path, pos);
    }
    if i :| 0 <= i < |scan| && ChosenAt(t, e, schema, scan[i], path, pos) {
      HitsHave(t, e, schema, scan, path, pos, i);
    }
  }

  lemma {:induction false} HitsOnce(t: Table, e: Expr, schema: Schema, scan: seq<ScanRow>, path: string)
    requires forall i, j :: 0 <= i < j < |scan| ==> scan[i].path != scan[j].path || scan[i].pos != scan[j].pos
    ensures forall a, b :: 0 <= a < b < |Hits(t, e, schema, scan, path)| ==> Hits(t, e, schema, scan, path)[a] != Hits(t, e, schema, scan, path)[b]
  {
    if scan != [] {
      var n := |scan| - 1;
      HitsOnce(t, e, schema, scan[..n], path);
      if Chosen(t, e, schema, scan[n]) && scan[n].path.value == path {
        HitsAre(t, e, schema, scan[..n], path, scan[n].pos.value);
      }
    }
  }

  /** On a scanned row of a conforming table the clause never breaks, and chooses what SQL selects. */
  lemma ChosenIsSelected(t: Table, e: Expr, schema: Schema, s: ScanRow)
    requires GoodClause(e, schema) && ConformingTable(t, schema) && Scanned(t, s)
    ensures !Breaks(t, e, schema, s)
    ensures var p := Place(s.path.value, s.pos.value); Chosen(t, e, schema, s) <==> Visible(t, p) && Selected(t, e, schema, p)
  {
    var p := Place(s.path.value, s.pos.value);
    assert Conforming(schema, t.files[p.path].rows[p.pos].row);
    EvaluatorIsSql(e, s.row, schema);
  }

  /** A DELETE collects exactly the visible rows that SQL selects. */
  lemma CollectsSelected(t: Table, e: Expr, schema: Schema, scan: seq<ScanRow>, byFile: Positions, p: Place)
    requires GoodClause(e, schema) && ConformingTable(t, schema) && ScanOf(t, scan) && CollectedHits(t, e, schema, scan, byFile)
    ensures p in CollectedPlaces(byFile) <==> Visible(t, p) && Selected(t, e, schema, p)
  {
    HitsAre(t, e, schema, scan, p.path, p.pos);
    assert p == Place(p.path, p.pos);
    assert p in CollectedPlaces(byFile) <==> p.pos in Hits(t, e, schema, scan, p.path);
    forall i | 0 <= i < |scan| ensures Scanned(t, scan[i]) && (Chosen(t, e, schema, scan[i]) <==> VisibleSelected(t, e, schema, scan[i])) {
      ChosenIsSelected(t, e, schema, scan[i]);
    }
    if Exists(t, p) {
      assert ScanAt(t, p) in scan;
    }
  }

  ghost predicate VisibleSelected(t: Table, e: Expr, schema: Schema, s: ScanRow)
    requires Scanned(t, s)
  {
    var p := Place(s.path.value, s.pos.value);
    Visible(t, p) && Selected(t, e, schema, p)
  }

  /** No DELETE collects a row that a position delete or an equality delete already removed. */
  lemma SkipsDeleted(t: Table, e: Expr, schema: Schema, scan: seq<ScanRow>, byFile: Positions, p: Place)
    requires ScanOf(t, scan) && CollectedHits(t, e, schema, scan, byFile) && Exists(t, p)
    requires p in t.deleted || (p.path in t.equalityDeletes && t.equalityDeletes[p.path](t.files[p.path].rows[p.pos].row))
    ensures p !in CollectedPlaces(byFile)
  {
    if p in CollectedPlaces(byFile) {
      assert p == Place(p.path, p.pos);
      var i := HitsComeFrom(t, e, schema, scan, p.path, p.pos);
      assert Scanned(t, scan[i]);
      FilterIsReader(t, scan[i]);
    }
  }

  /** The positions of a file are listed once each. */
  lemma CollectsOnce(t: Table, e: Expr, schema: Schema, scan: seq<ScanRow>, byFile: Positions, path: string)
    requires ScanOf(t, scan) && CollectedHits(t, e, schema, scan, byFile) && path in byFile
    ensures forall a, b :: 0 <= a < b < |byFile[path]| ==> byFile[path][a] != byFile[path][b]
  {
    HitsOnce(t, e, schema, scan, path);
  }

  /** On a conforming table a DELETE with a good clause never fails. */
  lemma NeverBreaks(t: Table, e: Expr, schema: Schema, scan: seq<ScanRow>)
    requires GoodClause(e, schema) && ConformingTable(t, schema) && ScanOf(t, scan)
    ensures forall i :: 0 <= i < |scan| ==> !Breaks(t, e, schema, scan[i])
  {
    forall i | 0 <= i < |scan| ensures !Breaks(t, e, schema, scan[i]) {
      ChosenIsSelected(t, e, schema, scan[i]);
    }
  }

  // ---------------------------------------------------------------------
  // Sequences of DELETEs
  // ---------------------------------------------------------------------

  /** The table after one DELETE: what was collected is deleted. */
  ghost predicate Deletes(t: Table, e: Expr, schema: Schema, scan: seq<ScanRow>, t': Table) {
    exists byFile :: CollectedHits(t, e, schema, scan, byFile) && t' == Commit(t, CollectedPlaces(byFile), [])
  }

  lemma SameFiles(t: Table, places: set<Place>, schema: Schema, scan: seq<ScanRow>)
    requires ConformingTable(t, schema) && ScanOf(t, scan)
    ensures var t' := Commit(t, places, []); t'.files == t.files && ConformingTable(t', schema) && ScanOf(t', scan)
  {
    var t' := Commit(t, places, []);
    assert t'.files == t.files;
    forall p | Exists(t', p) ensures ScanAt(t', p) in scan {
      assert Exists(t, p);
    }
    forall i | 0 <= i < |scan| ensures Scanned(t', scan[i]) {
      assert Scanned(t, scan[i]);
    }
    forall p | Exists(t', p) ensures Conforming(schema, t'.files[p.path].rows[p.pos].row) {
      assert Exists(t, p);
    }
  }

  /** Exactly the selected rows disappear. */
  lemma DeleteRemovesSelected(t: Table, e: Expr, schema: Schema, scan: seq<ScanRow>, t': Table, p: Place)
    requires GoodClause(e, schema) && ConformingTable(t, schema) && ScanOf(t, scan) && Deletes(t, e, schema, scan, t')
    ensures t'.files == t.files && ConformingTable(t', schema) && ScanOf(t', scan)
    ensures Visible(t', p) <==> Visible(t, p) && !Selected(t, e, schema, p)
    ensures Visible(t, p) ==> VersionAt(t', p) == VersionAt(t, p)
  {
    var byFile :| CollectedHits(t, e, schema, scan, byFile) && t' == Commit(t, CollectedPlaces(byFile), []);
    SameFiles(t, CollectedPlaces(byFile), schema, scan);
    CollectsSelected(t, e, schema, scan, byFile, p);
  }

  /** Repeating a DELETE collects nothing. */
  lemma RepeatCollectsNothing(t: Table, e: Expr, schema: Schema, scan: seq<ScanRow>, t': Table, byFile: Positions)
    requires GoodClause(e, schema) && ConformingTable(t, schema) && ScanOf(t, scan) && Deletes(t, e, schema, scan, t')
    requires CollectedHits(t', e, schema, scan, byFile)
    ensures byFile == map[]
  {
    forall path ensures path !in byFile {
      if path in byFile {
        var p := Place(path, byFile[path][0]);
        DeleteRemovesSelected(t, e, schema, scan, t', p);
        assert p in CollectedPlaces(byFile);
        CollectsSelected(t', e, schema, scan, byFile, p);
      }
    }
  }

  /** The same files, with exactly the selected rows gone. */
  ghost predicate Removes(t: Table, e: Expr, schema: Schema, t': Table) {
    t'.files == t.files && forall p :: Visible(t', p) <==> Visible(t, p) && !Selected(t, e, schema, p)
  }

  lemma DeleteRemoves(t: Table, e: Expr, schema: Schema, scan: seq<ScanRow>, t': Table)
    requires GoodClause(e, schema) && ConformingTable(t, schema) && ScanOf(t, scan) && Deletes(t, e, schema, scan, t')
    ensures Removes(t, e, schema, t') && ConformingTable(t', schema) && ScanOf(t', scan)
  {
    DeleteRemovesSelected(t, e, schema, scan, t', Place("", 0));
    forall p ensures Visible(t', p) <==> Visible(t, p) && !Selected(t, e, schema, p) {
      DeleteRemovesSelected(t, e, schema, scan, t', p);
    }
  }

  lemma RemovesCompose(t: Table, e: Expr, f: Expr, schema: Schema, t1: Table, t2: Table, both: Table, p: Place)
    requires Removes(t, e, schema, t1) && Removes(t1, f, schema, t2) && Removes(t, Binary(e, Or, f), schema, both)
    ensures t2.files == both.files && (Visible(t2, p) <==> Visible(both, p))
  {
    if Exists(t, p) {
      assert Selected(t1, f, schema, p) == Selected(t, f, schema, p);
      assert Selected(t, Binary(e, Or, f), schema, p) <==> Selected(t, e, schema, p) || Selected(t, f, schema, p);
    }
  }

  lemma SameVisible(a: Table, b: Table)
    requires a.files == b.files && forall p :: Visible(a, p) <==> Visible(b, p)
    ensures Logical(a) == Logical(b)
  {
    forall p | Visible(a, p) ensures VersionAt(a, p) == VersionAt(b, p) {
    }
  }

  /** DELETE p and then DELETE q leaves the same rows as DELETE p OR q. */
  lemma TwoDeletesAreOne(t: Table, e: Expr, f: Expr, schema: Schema, scan: seq<ScanRow>, t1: Table, t2: Table, both: Table)
    requires GoodClause(e, schema) && GoodClause(f, schema) && ConformingTable(t, schema) && ScanOf(t, scan)
    requires Deletes(t, e, schema, scan, t1) && Deletes(t1, f, schema, scan, t2) && Deletes(t, Binary(e, Or, f), schema, scan, both)
    ensures Logical(t2) == Logical(both)
    ensures forall p :: Visible(t2, p) <==> Visible(both, p)
  {
    DeleteRemoves(t, e, schema, scan, t1);
    DeleteRemoves(t1, f, schema, scan, t2);
    DeleteRemoves(t, Binary(e, Or, f), schema, scan, both);
    forall p ensures t2.files == both.files && (Visible(t2, p) <==> Visible(both, p)) {
      RemovesCompose(t, e, f, schema, t1, t2, both, p);
    }
    SameVisible(t2, both);
  }
}
