/**
 The two UPDATE strategies compared. Copy-on-write recomputes row ids and resets the last-updated
 sequence number of the rows it copies, so it means what an UPDATE means exactly when those rows
 are numbered by position and carry their file's sequence number; merge-on-read always does.
 */
module UpdateEquivalence {
  import opened Common
  import opened RowLineage
  import opened Sequences
  import opened MorUpdate
  import opened MorCommit
  import opened CowRewrite
  import opened CowCommit

  /** Touched files are dropped and the rewritten ones added. */
  function CowApply(t: Table, touched: set<string>, files: seq<DataFile>): Table {
    t.(files := (t.files - touched) + ByPath(files), lastSeq := t.lastSeq + 1)
  }

  /** Replacement files that hold the rewrite of each visible row of each touched file, once. */
  ghost predicate CowFiles(t: Table, matched: seq<Match>, files: seq<DataFile>, newSeq: int) {
    && FreshFiles(t, files)
    && (forall x :: x in Contents(files) <==> exists p :: VisibleIn(t, TouchedFiles(matched), p) && x == RewriteAt(t, matched, newSeq, p))
  }

  function StoredVersion(x: FileRow): Version
    requires x.storedId.Some? && x.storedSeq.Some?
  {
    Version(x.storedId.value, x.row, x.storedSeq.value)
  }

  /** What copy-on-write makes of a visible row. */
  function CowVersion(t: Table, matched: seq<Match>, newSeq: int, p: Place): Version
    requires Exists(t, p)
  {
    if p.path in TouchedFiles(matched) then StoredVersion(RewriteAt(t, matched, newSeq, p)) else VersionAt(t, p)
  }

  ghost function CowVersions(t: Table, matched: seq<Match>, newSeq: int): iset<Version> {
    iset p | Visible(t, p) :: CowVersion(t, matched, newSeq, p)
  }

  /** Files that were not touched keep their rows. */
  lemma CowOldRow(t: Table, touched: set<string>, files: seq<DataFile>, p: Place)
    requires FreshFiles(t, files) && p.path in t.files
    ensures Visible(CowApply(t, touched, files), p) <==> Visible(t, p) && p.path !in touched
    ensures Exists(t, p) && p.path !in touched ==>
              Exists(CowApply(t, touched, files), p) && VersionAt(CowApply(t, touched, files), p) == VersionAt(t, p)
  {
    ByPathFinds(files);
  }

  lemma CowNewRow(t: Table, touched: set<string>, files: seq<DataFile>, i: nat, p: Place)
    requires FreshFiles(t, files) && i < |files| && InFile(files[i], p)
    requires files[i].rows[p.pos].storedId.Some? && files[i].rows[p.pos].storedSeq.Some?
    ensures p.path !in t.files && Visible(CowApply(t, touched, files), p)
    ensures VersionAt(CowApply(t, touched, files), p) == StoredVersion(files[i].rows[p.pos])
  {
    ByPathFinds(files);
  }

  lemma CowNewFile(t: Table, touched: set<string>, files: seq<DataFile>, p: Place) returns (i: nat)
    requires FreshFiles(t, files) && Visible(CowApply(t, touched, files), p) && p.path !in t.files
    ensures i < |files| && InFile(files[i], p)
  {
    ByPathFinds(files);
    var f := ByPath(files)[p.path];
    i :| i < |files| && files[i] == f;
  }

  /** A row of a new file is the rewrite of a visible row of a touched file. */
  lemma CowRowOrigin(t: Table, matched: seq<Match>, files: seq<DataFile>, newSeq: int, i: nat, k: nat) returns (p: Place)
    requires CowFiles(t, matched, files, newSeq) && i < |files| && k < |files[i].rows|
    ensures VisibleIn(t, TouchedFiles(matched), p) && files[i].rows[k] == RewriteAt(t, matched, newSeq, p)
  {
    var x := files[i].rows[k];
    ContentsMember(files, x);
    assert x in Contents(files);
    p :| VisibleIn(t, TouchedFiles(matched), p) && x == RewriteAt(t, matched, newSeq, p);
  }

  lemma CowRowPlace(t: Table, matched: seq<Match>, files: seq<DataFile>, newSeq: int, p: Place) returns (i: nat, k: nat)
    requires CowFiles(t, matched, files, newSeq) && VisibleIn(t, TouchedFiles(matched), p)
    ensures i < |files| && k < |files[i].rows| && files[i].rows[k] == RewriteAt(t, matched, newSeq, p)
  {
    var x := RewriteAt(t, matched, newSeq, p);
    assert x in Contents(files);
    ContentsMember(files, x);
    i, k :| i < |files| && 0 <= k < |files[i].rows| && files[i].rows[k] == x;
  }

  lemma CowShows(t: Table, matched: seq<Match>, files: seq<DataFile>, newSeq: int, q: Place) returns (p: Place)
    requires CowFiles(t, matched, files, newSeq) && Visible(CowApply(t, TouchedFiles(matched), files), q)
    ensures Visible(t, p) && VersionAt(CowApply(t, TouchedFiles(matched), files), q) == CowVersion(t, matched, newSeq, p)
    ensures q.path in t.files ==> p == q && p.path !in TouchedFiles(matched)
    ensures q.path !in t.files ==> p.path in TouchedFiles(matched)
  {
    var touched := TouchedFiles(matched);
    if q.path in t.files {
      CowOldRow(t, touched, files, q);
      p := q;
    } else {
      var i := CowNewFile(t, touched, files, q);
      p := CowRowOrigin(t, matched, files, newSeq, i, q.pos);
      CowNewRow(t, touched, files, i, q);
    }
  }

  /** The table after copy-on-write shows the rewritten version of each visible row. */
  lemma CowEffect(t: Table, matched: seq<Match>, files: seq<DataFile>, newSeq: int)
    requires CowFiles(t, matched, files, newSeq)
    ensures Logical(CowApply(t, TouchedFiles(matched), files)) == CowVersions(t, matched, newSeq)
  {
    var touched := TouchedFiles(matched);
    var t' := CowApply(t, touched, files);
    forall v | v in Logical(t') ensures v in CowVersions(t, matched, newSeq) {
      var q :| Visible(t', q) && VersionAt(t', q) == v;
      var p := CowShows(t, matched, files, newSeq, q);
    }
    forall v | v in CowVersions(t, matched, newSeq) ensures v in Logical(t') {
      var p :| Visible(t, p) && CowVersion(t, matched, newSeq, p) == v;
      if p.path in touched {
        var i, k := CowRowPlace(t, matched, files, newSeq, p);
        CowNewRow(t, touched, files, i, Place(files[i].path, k));
      } else {
        CowOldRow(t, touched, files, p);
      }
    }
  }

  // ---------------------------------------------------------------------
  // When that is what an UPDATE means
  // ---------------------------------------------------------------------

  /** The rows copied along unchanged carry their file's sequence number. */
  ghost predicate CopiedRowsAtFileSeq(t: Table, matched: seq<Match>) {
    forall p :: VisibleIn(t, TouchedFiles(matched), p) && !IsMatched(matched, VersionAt(t, p).id) ==>
                  VersionAt(t, p).seqNo == t.files[p.path].dataSeq
  }

  /** Each row id is visible once, and copy-on-write recomputes it. */
  ghost predicate Renumberable(t: Table, matched: seq<Match>) {
    UniqueIds(t) && IdsAsRecomputed(t, matched)
  }

  lemma CowKeepsId(t: Table, matched: seq<Match>, newSeq: int, p: Place)
    requires IdsAsRecomputed(t, matched) && Visible(t, p)
    ensures CowVersion(t, matched, newSeq, p).id == VersionAt(t, p).id
  {
    if p.path in TouchedFiles(matched) {
      assert VisibleIn(t, TouchedFiles(matched), p);
    }
  }

  /** A matched row is in a touched file: it is the row its match names. */
  lemma MatchIsHere(t: Table, matched: seq<Match>, p: Place, m: nat)
    requires UniqueIds(t) && Consistent(t, matched) && Visible(t, p) && m < |matched| && matched[m].rowId == VersionAt(t, p).id
    ensures matched[m].place == p && VisibleIn(t, TouchedFiles(matched), p)
  {
    assert Visible(t, matched[m].place);
  }

  /** A row that an UPDATE does not match: same id and values, sequence number of the file if copied. */
  lemma UnmatchedCow(t: Table, matched: seq<Match>, newSeq: int, p: Place)
    requires Renumberable(t, matched) && Consistent(t, matched) && Visible(t, p) && !IsMatched(matched, VersionAt(t, p).id)
    ensures CowVersion(t, matched, newSeq, p) ==
            VersionAt(t, p).(seqNo := if p.path in TouchedFiles(matched) then t.files[p.path].dataSeq else VersionAt(t, p).seqNo)
  {
    CowKeepsId(t, matched, newSeq, p);
    UpdatedIndexFinds(matched, |matched|, VersionAt(t, p).id);
  }

  lemma MatchedCow(t: Table, matched: seq<Match>, newSeq: int, p: Place) returns (m: nat)
    requires Renumberable(t, matched) && Consistent(t, matched) && Visible(t, p) && IsMatched(matched, VersionAt(t, p).id)
    ensures m < |matched| && CowVersion(t, matched, newSeq, p) == NewVersion(matched[m], newSeq)
    ensures matched[m].rowId == VersionAt(t, p).id
  {
    CowKeepsId(t, matched, newSeq, p);
    UpdatedIndexFinds(matched, |matched|, VersionAt(t, p).id);
    m := UpdatedIndex(matched, |matched|)[VersionAt(t, p).id];
    MatchIsHere(t, matched, p, m);
  }

  lemma MatchInCow(t: Table, matched: seq<Match>, newSeq: int, m: nat)
    requires Renumberable(t, matched) && Consistent(t, matched) && DistinctIds(matched) && m < |matched|
    ensures NewVersion(matched[m], newSeq) in CowVersions(t, matched, newSeq)
  {
    var p := matched[m].place;
    assert Visible(t, p) && IsMatched(matched, VersionAt(t, p).id);
    var k := MatchedCow(t, matched, newSeq, p);
    assert k == m;
  }

  // ---------------------------------------------------------------------
  // Row by row, on any table
  // ---------------------------------------------------------------------

  /** What an UPDATE should make of one visible row. */
  ghost predicate RowUpdated(t: Table, matched: seq<Match>, newSeq: int, p: Place)
    requires Visible(t, p)
  {
    if IsMatched(matched, VersionAt(t, p).id) then
      exists m :: 0 <= m < |matched| && matched[m].rowId == VersionAt(t, p).id && CowVersion(t, matched, newSeq, p) == NewVersion(matched[m], newSeq)
    else CowVersion(t, matched, newSeq, p) == VersionAt(t, p)
  }

  /** Copy-on-write treats a row rightly exactly when it copies the id and, for an unmatched row, the sequence number. */
  lemma RowUpdatedExactly(t: Table, matched: seq<Match>, newSeq: int, p: Place)
    requires UniqueIds(t) && Consistent(t, matched) && DistinctIds(matched) && Visible(t, p)
    ensures RowUpdated(t, matched, newSeq, p) <==>
            (p.path in TouchedFiles(matched) ==>
              && VersionAt(t, p).id == t.files[p.path].firstRowId + p.pos
              && (IsMatched(matched, VersionAt(t, p).id) || VersionAt(t, p).seqNo == t.files[p.path].dataSeq))
  {
    UpdatedIndexFinds(matched, |matched|, VersionAt(t, p).id);
    if IsMatched(matched, VersionAt(t, p).id) {
      var m :| 0 <= m < |matched| && matched[m].rowId == VersionAt(t, p).id;
      MatchIsHere(t, matched, p, m);
    }
  }

  /** Every visible row is treated rightly exactly when ids are recomputed rightly and copied rows carry their file's sequence number. */
  lemma RowByRowExactly(t: Table, matched: seq<Match>, newSeq: int)
    requires UniqueIds(t) && Consistent(t, matched) && DistinctIds(matched)
    ensures (forall p :: Visible(t, p) ==> RowUpdated(t, matched, newSeq, p)) <==>
            IdsAsRecomputed(t, matched) && CopiedRowsAtFileSeq(t, matched)
  {
    forall p | Visible(t, p)
      ensures RowUpdated(t, matched, newSeq, p) <==>
              (VisibleIn(t, TouchedFiles(matched), p) ==>
                && VersionAt(t, p).id == RecomputedId(t, ScanAt(t, p))
                && (IsMatched(matched, VersionAt(t, p).id) || VersionAt(t, p).seqNo == t.files[p.path].dataSeq))
    {
      RowUpdatedExactly(t, matched, newSeq, p);
    }
  }

  // ---------------------------------------------------------------------
  // As sets of versions, where ids are recomputed rightly
  // ---------------------------------------------------------------------

  lemma CowWithin(t: Table, matched: seq<Match>, newSeq: int, p: Place)
    requires Renumberable(t, matched) && Consistent(t, matched) && CopiedRowsAtFileSeq(t, matched) && Visible(t, p)
    ensures CowVersion(t, matched, newSeq, p) in Override(Logical(t), matched, newSeq)
  {
    if IsMatched(matched, VersionAt(t, p).id) {
      var m := MatchedCow(t, matched, newSeq, p);
    } else {
      UnmatchedCow(t, matched, newSeq, p);
      assert VersionAt(t, p) in Logical(t);
    }
  }

  lemma CowCovers(t: Table, matched: seq<Match>, newSeq: int, v: Version)
    requires Renumberable(t, matched) && Consistent(t, matched) && DistinctIds(matched) && CopiedRowsAtFileSeq(t, matched)
    requires v in Override(Logical(t), matched, newSeq)
    ensures v in CowVersions(t, matched, newSeq)
  {
    if v in Logical(t) && !IsMatched(matched, v.id) {
      var p :| Visible(t, p) && VersionAt(t, p) == v;
      UnmatchedCow(t, matched, newSeq, p);
    } else {
      var m: nat :| m < |matched| && v == NewVersion(matched[m], newSeq);
      MatchInCow(t, matched, newSeq, m);
    }
  }

  lemma CowSeqNeeded(t: Table, matched: seq<Match>, newSeq: int, p: Place)
    requires Renumberable(t, matched) && Consistent(t, matched)
    requires CowVersions(t, matched, newSeq) == Override(Logical(t), matched, newSeq)
    requires VisibleIn(t, TouchedFiles(matched), p) && !IsMatched(matched, VersionAt(t, p).id)
    ensures VersionAt(t, p).seqNo == t.files[p.path].dataSeq
  {
    assert VersionAt(t, p) in Logical(t);
    assert VersionAt(t, p) in CowVersions(t, matched, newSeq);
    var q :| Visible(t, q) && CowVersion(t, matched, newSeq, q) == VersionAt(t, p);
    CowKeepsId(t, matched, newSeq, q);
    assert p == q;
    UnmatchedCow(t, matched, newSeq, p);
  }

  /** Copy-on-write means what an UPDATE means exactly when the copied rows carry their file's sequence number. */
  lemma CowExactly(t: Table, matched: seq<Match>, newSeq: int)
    requires Renumberable(t, matched) && Consistent(t, matched) && DistinctIds(matched)
    ensures CowVersions(t, matched, newSeq) == Override(Logical(t), matched, newSeq) <==> CopiedRowsAtFileSeq(t, matched)
  {
    if CopiedRowsAtFileSeq(t, matched) {
      forall v | v in CowVersions(t, matched, newSeq) ensures v in Override(Logical(t), matched, newSeq) {
        var p :| Visible(t, p) && CowVersion(t, matched, newSeq, p) == v;
        CowWithin(t, matched, newSeq, p);
      }
      forall v | v in Override(Logical(t), matched, newSeq) ensures v in CowVersions(t, matched, newSeq) {
        CowCovers(t, matched, newSeq, v);
      }
    }
    if CowVersions(t, matched, newSeq) == Override(Logical(t), matched, newSeq) {
      forall p | VisibleIn(t, TouchedFiles(matched), p) && !IsMatched(matched, VersionAt(t, p).id)
        ensures VersionAt(t, p).seqNo == t.files[p.path].dataSeq
      {
        CowSeqNeeded(t, matched, newSeq, p);
      }
    }
  }

  lemma FileSeqsSuffice(t: Table, matched: seq<Match>)
    requires FileSeqTable(t)
    ensures CopiedRowsAtFileSeq(t, matched)
  {
    forall p | VisibleIn(t, TouchedFiles(matched), p) ensures VersionAt(t, p).seqNo == t.files[p.path].dataSeq {
      assert FileSeqs(t.files[p.path]);
    }
  }

  /** Merge-on-read always means an UPDATE, so the two strategies agree exactly when copy-on-write does too. */
  lemma StrategiesAgree(t: Table, matched: seq<Match>, mor: seq<DataFile>, cow: seq<DataFile>, newSeq: int)
    requires Renumberable(t, matched) && Consistent(t, matched) && DistinctIds(matched)
    requires MorFiles(t, matched, mor, newSeq) && CowFiles(t, matched, cow, newSeq)
    ensures Logical(Commit(t, MatchedPlaces(matched), mor)) == Logical(CowApply(t, TouchedFiles(matched), cow)) <==>
            CopiedRowsAtFileSeq(t, matched)
    ensures FileSeqTable(t) ==> CopiedRowsAtFileSeq(t, matched)
  {
    MorEffect(t, matched, mor, newSeq);
    CowEffect(t, matched, cow, newSeq);
    CowExactly(t, matched, newSeq);
    if FileSeqTable(t) {
      FileSeqsSuffice(t, matched);
    }
  }

  // ---------------------------------------------------------------------
  // Ids stay unique
  // ---------------------------------------------------------------------

  lemma {:induction false} DistinctPlaces(files: seq<DataFile>, i: nat, k: nat, j: nat, l: nat)
    requires DistinctStored(Contents(files))
    requires i <= j < |files| && k < |files[i].rows| && l < |files[j].rows| && files[i].rows[k].storedId == files[j].rows[l].storedId
    ensures i == j && k == l
  {
    var n := |files| - 1;
    var before, all := Contents(files[..n]), Contents(files);
    assert forall a :: 0 <= a < |before| ==> all[a] == before[a];
    assert forall a :: 0 <= a < |files[n].rows| ==> all[|before| + a] == files[n].rows[a];
    if j < n {
      DistinctPlaces(files[..n], i, k, j, l);
    } else if i < n {
      ContentsMember(files[..n], files[..n][i].rows[k]);
    } else {
      assert all[|before| + k].storedId == all[|before| + l].storedId;
    }
  }

  lemma CowKeepsUnique(t: Table, matched: seq<Match>, files: seq<DataFile>, newSeq: int, p: Place, q: Place)
    requires Renumberable(t, matched) && CowFiles(t, matched, files, newSeq) && DistinctStored(Contents(files))
    requires Visible(CowApply(t, TouchedFiles(matched), files), p) && Visible(CowApply(t, TouchedFiles(matched), files), q)
    requires VersionAt(CowApply(t, TouchedFiles(matched), files), p).id == VersionAt(CowApply(t, TouchedFiles(matched), files), q).id
    ensures p == q
  {
    var touched := TouchedFiles(matched);
    var p' := CowShows(t, matched, files, newSeq, p);
    var q' := CowShows(t, matched, files, newSeq, q);
    CowKeepsId(t, matched, newSeq, p');
    CowKeepsId(t, matched, newSeq, q');
    assert p' == q';
    if p.path !in t.files && q.path !in t.files {
      var i := CowNewFile(t, touched, files, p);
      var j := CowNewFile(t, touched, files, q);
      SameStoredId(t, matched, files, newSeq, i, p);
      SameStoredId(t, matched, files, newSeq, j, q);
      if i <= j {
        DistinctPlaces(files, i, p.pos, j, q.pos);
      } else {
        DistinctPlaces(files, j, q.pos, i, p.pos);
      }
    }
  }

  lemma SameStoredId(t: Table, matched: seq<Match>, files: seq<DataFile>, newSeq: int, i: nat, p: Place)
    requires CowFiles(t, matched, files, newSeq) && i < |files| && InFile(files[i], p)
    ensures Visible(CowApply(t, TouchedFiles(matched), files), p)
    ensures files[i].rows[p.pos].storedId == Some(VersionAt(CowApply(t, TouchedFiles(matched), files), p).id)
  {
    var origin := CowRowOrigin(t, matched, files, newSeq, i, p.pos);
    CowNewRow(t, TouchedFiles(matched), files, i, p);
  }

  // ---------------------------------------------------------------------
  // The statement
  // ---------------------------------------------------------------------

  lemma WrittenAreCowFiles(t: Table, matched: seq<Match>, newSeq: int, scan: seq<ScanRow>, acc: Accumulators, seen: set<int>,
                           order: seq<string>, writer: CowWriter, files: seq<DataFile>)
    requires ScanOf(t, scan) && Collected(t, matched, newSeq, scan, acc, seen)
    requires Lists(order, acc) && Rewrote(t, acc, order, |order|, writer, newSeq, files)
    ensures CowFiles(t, matched, files, newSeq)
  {
    forall x ensures x in Contents(files) <==> exists p :: VisibleIn(t, TouchedFiles(matched), p) && x == RewriteAt(t, matched, newSeq, p) {
      CollectedExactly(t, matched, newSeq, scan, acc, seen, x);
      CollectedInAll(x, acc, order);
    }
  }

  ghost predicate AlwaysWritesRows(writer: CowWriter) {
    forall source, rows :: rows != [] ==> writer(source, rows) != []
  }

  lemma CowOutcome(t: Table, matched: seq<Match>, files: seq<DataFile>, newSeq: int)
    requires Renumberable(t, matched) && Consistent(t, matched) && DistinctIds(matched)
    requires CowFiles(t, matched, files, newSeq) && DistinctStored(Contents(files))
    ensures UniqueIds(CowApply(t, TouchedFiles(matched), files))
    ensures Logical(CowApply(t, TouchedFiles(matched), files)) == Override(Logical(t), matched, newSeq) <==> CopiedRowsAtFileSeq(t, matched)
  {
    var t' := CowApply(t, TouchedFiles(matched), files);
    CowEffect(t, matched, files, newSeq);
    CowExactly(t, matched, newSeq);
    forall p, q | Visible(t', p) && Visible(t', q) && VersionAt(t', p).id == VersionAt(t', q).id ensures p == q {
      CowKeepsUnique(t, matched, files, newSeq, p, q);
    }
  }

  /**
   The statement on any table: the result shows the rewritten version of each visible row, and
   where ids are recomputed rightly, that is an UPDATE exactly if `CopiedRowsAtFileSeq`.
   */
  method ExecuteCowUpdate(t: Table, matched: seq<Match>, batches: seq<seq<ScanRow>>, writer: CowWriter, firstIds: FirstRowIds)
    returns (r: Result<Table, CowError>)
    requires UniqueIds(t) && Consistent(t, matched) && GoodCowWriter(t, writer) && ScanOf(t, Concat(batches))
    ensures r.Ok? ==> Logical(r.value) == CowVersions(t, matched, t.lastSeq + 1)
    ensures r.Ok? && IdsAsRecomputed(t, matched) ==> UniqueIds(r.value)
    ensures r.Ok? && IdsAsRecomputed(t, matched) ==>
              (Logical(r.value) == Override(Logical(t), matched, t.lastSeq + 1) <==> CopiedRowsAtFileSeq(t, matched))
    ensures r.Ok? && matched != [] ==> exists files ::
              CowFiles(t, matched, files, t.lastSeq + 1) && r.value == CowApply(t, TouchedFiles(matched), files)
    ensures r.Ok? && matched != [] && IdsAsRecomputed(t, matched) ==> exists files :: CowStep(t, r.value, matched, files)
    ensures r.Err? && r.error.DuplicateRowId? <==> !DistinctIds(matched)
    ensures r.Ok? ==> Rewritable(t, matched)
    ensures DistinctIds(matched) && Rewritable(t, matched) && AlwaysWritesRows(writer) ==> r.Ok?
  {
    if |matched| == 0 {
      NothingMatched(t, matched, t.lastSeq + 1);
      return Ok(t);
    }
    var unique := ValidateUniqueRowIds(matched);
    if unique.Err? {
      return Err(CowError.DuplicateRowId(unique.error));
    }
    r := RewriteMatched(t, matched, batches, writer, firstIds);
  }

  lemma NothingMatched(t: Table, matched: seq<Match>, newSeq: int)
    requires matched == []
    ensures CowVersions(t, matched, newSeq) == Logical(t) == Override(Logical(t), matched, newSeq)
    ensures Rewritable(t, matched) && CopiedRowsAtFileSeq(t, matched)
  {
    assert TouchedFiles(matched) == {};
  }

  method RewriteMatched(t: Table, matched: seq<Match>, batches: seq<seq<ScanRow>>, writer: CowWriter, firstIds: FirstRowIds)
    returns (r: Result<Table, CowError>)
    requires UniqueIds(t) && Consistent(t, matched) && GoodCowWriter(t, writer) && ScanOf(t, Concat(batches))
    requires matched != [] && DistinctIds(matched)
    ensures r.Ok? ==> Logical(r.value) == CowVersions(t, matched, t.lastSeq + 1)
    ensures r.Ok? && IdsAsRecomputed(t, matched) ==> UniqueIds(r.value)
    ensures r.Ok? && IdsAsRecomputed(t, matched) ==>
              (Logical(r.value) == Override(Logical(t), matched, t.lastSeq + 1) <==> CopiedRowsAtFileSeq(t, matched))
    ensures r.Ok? ==> exists files ::
              CowFiles(t, matched, files, t.lastSeq + 1) && r.value == CowApply(t, TouchedFiles(matched), files)
    ensures r.Ok? && IdsAsRecomputed(t, matched) ==> exists files :: CowStep(t, r.value, matched, files)
    ensures (r.Ok? ==> Rewritable(t, matched)) && (Rewritable(t, matched) && AlwaysWritesRows(writer) ==> r.Ok?)
    ensures r.Err? ==> !r.error.DuplicateRowId?
  {
    var newSeq := t.lastSeq + 1;
    RewritableExactly(t, matched, Concat(batches));
    var rewrites := BuildCowRewrites(t, matched, newSeq, batches);
    if rewrites.Err? {
      return Err(rewrites.error);
    }
    ghost var seen :| Collected(t, matched, newSeq, Concat(batches), rewrites.value, seen);
    var written, order := WriteRewrites(t, rewrites.value, writer, newSeq, firstIds);
    if written.Err? {
      return Err(written.error);
    }
    WrittenAreCowFiles(t, matched, newSeq, Concat(batches), rewrites.value, seen, order, writer, written.value);
    CowEffect(t, matched, written.value, newSeq);
    if IdsAsRecomputed(t, matched) {
      CollectedDistinct(t, matched, newSeq, Concat(batches), rewrites.value, seen);
      CowOutcome(t, matched, written.value, newSeq);
      assert CowStep(t, CowApply(t, TouchedFiles(matched), written.value), matched, written.value);
    }
    r := Ok(CowApply(t, TouchedFiles(matched), written.value));
  }

  // ---------------------------------------------------------------------
  // Histories of both strategies
  // ---------------------------------------------------------------------

  /** One copy-on-write UPDATE of rows whose ids it recomputes rightly. */
  ghost predicate CowStep(t: Table, t': Table, matched: seq<Match>, files: seq<DataFile>) {
    && Consistent(t, matched) && DistinctIds(matched) && IdsAsRecomputed(t, matched)
    && CowFiles(t, matched, files, t.lastSeq + 1) && DistinctStored(Contents(files))
    && t' == CowApply(t, TouchedFiles(matched), files)
  }

  ghost predicate MixedStep(t: Table, t': Table) {
    Step(t, t') || exists matched, files :: CowStep(t, t', matched, files)
  }

  ghost predicate MixedHistory(tables: seq<Table>) {
    tables != [] && forall i, j :: 0 <= i < j < |tables| && j == i + 1 ==> MixedStep(tables[i], tables[j])
  }

  lemma CowStepKeepsUnique(t: Table, t': Table, matched: seq<Match>, files: seq<DataFile>)
    requires CowStep(t, t', matched, files) && UniqueIds(t)
    ensures UniqueIds(t') && t'.lastSeq == t.lastSeq + 1
  {
    CowOutcome(t, matched, files, t.lastSeq + 1);
  }

  lemma MixedStepKeepsUnique(t: Table, t': Table)
    requires MixedStep(t, t') && UniqueIds(t)
    ensures UniqueIds(t') && t'.lastSeq == t.lastSeq + 1
  {
    if Step(t, t') {
      StepKeepsLineage(t, t');
    } else {
      var matched, files :| CowStep(t, t', matched, files);
      CowStepKeepsUnique(t, t', matched, files);
    }
  }

  /** Over any sequence of updates of either kind and deletes, each row id stays visible at most once and each takes one sequence number. */
  lemma {:induction false} MixedHistoryKeepsUnique(tables: seq<Table>, n: nat)
    requires MixedHistory(tables) && UniqueIds(tables[0]) && n < |tables|
    ensures UniqueIds(tables[n]) && tables[n].lastSeq == tables[0].lastSeq + n
  {
    if n > 0 {
      MixedHistoryKeepsUnique(tables, n - 1);
      MixedStepKeepsUnique(tables[n - 1], tables[n]);
    }
  }

  // ---------------------------------------------------------------------
  // Where copy-on-write goes wrong
  // ---------------------------------------------------------------------

  /** One file of two rows, the second last updated before the file was written. */
  function MixedTable(row: Row): Table {
    Table(map["f" := MixedFile(row)], {}, map[], 9)
  }

  function MixedFile(row: Row): DataFile {
    DataFile("f", 0, 9, [FileRow(row, Some(0), Some(9)), FileRow(row, Some(1), Some(4))])
  }

  /** Two rows numbered by position that both carry their file's sequence number. */
  function PlainTable(row: Row): Table {
    Table(map["g" := DataFile("g", 0, 4, [FileRow(row, None, None), FileRow(row, None, None)])], {}, map[], 8)
  }

  /** The mixed table is what a copy-on-write UPDATE of a plain one leaves behind. */
  lemma MixedTableArises(row: Row)
    ensures var t, matched := PlainTable(row), [Match(Place("g", 0), 0, row)];
            && WellFormed(t) && FileSeqTable(t) && Consistent(t, matched) && DistinctIds(matched)
            && CowFiles(t, matched, [MixedFile(row)], 9) && MixedTable(row) == CowApply(t, TouchedFiles(matched), [MixedFile(row)])
  {
    var t, matched := PlainTable(row), [Match(Place("g", 0), 0, row)];
    TouchesOne(matched);
    RewritesOf(t, matched, row);
    assert Contents([MixedFile(row)]) == MixedFile(row).rows by {
      ContentsSnoc([], MixedFile(row));
      assert [] + [MixedFile(row)] == [MixedFile(row)];
    }
    assert ByPath([MixedFile(row)]) == map["f" := MixedFile(row)];
  }

  lemma TouchesOne(matched: seq<Match>)
    requires |matched| == 1
    ensures TouchedFiles(matched) == {matched[0].place.path}
  {
    assert matched[0].place.path in TouchedFiles(matched);
  }

  lemma RewritesOf(t: Table, matched: seq<Match>, row: Row)
    requires t == PlainTable(row) && matched == [Match(Place("g", 0), 0, row)]
    ensures forall p :: VisibleIn(t, {"g"}, p) <==> p == Place("g", 0) || p == Place("g", 1)
    ensures RewriteAt(t, matched, 9, Place("g", 0)) == FileRow(row, Some(0), Some(9))
    ensures RewriteAt(t, matched, 9, Place("g", 1)) == FileRow(row, Some(1), Some(4))
  {
    UpdatedIndexFinds(matched, 1, 0);
    UpdatedIndexFinds(matched, 1, 1);
  }

  /** What one copy-on-write UPDATE leaves behind, the next one spoils: a row nobody updated looks updated. */
  lemma CopiedRowChangesSeq(row: Row, newRow: Row)
    ensures var t, matched := MixedTable(row), [Match(Place("f", 0), 0, newRow)];
            && WellFormed(t) && Consistent(t, matched) && DistinctIds(matched)
            && Version(1, row, 4) in Logical(t)
            && Version(1, row, 4) in Override(Logical(t), matched, 10)
            && Version(1, row, 4) !in CowVersions(t, matched, 10)
            && Version(1, row, 9) in CowVersions(t, matched, 10)
  {
    var t, matched := MixedTable(row), [Match(Place("f", 0), 0, newRow)];
    var p0, p1 := Place("f", 0), Place("f", 1);
    assert VersionAt(t, p0) == Version(0, row, 9) && VersionAt(t, p1) == Version(1, row, 4);
    assert Visible(t, p0) && Visible(t, p1);
    assert !IsMatched(matched, 1);
    TouchesOne(matched);
    PositionalIdsRecomputed(t, matched);
    UnmatchedCow(t, matched, 10, p1);
    assert CowVersion(t, matched, 10, p1) == Version(1, row, 9);
    forall p | Visible(t, p) ensures CowVersion(t, matched, 10, p) != Version(1, row, 4) {
      CowKeepsId(t, matched, 10, p);
      assert p == p0 || p == p1;
    }
  }

  /** One row whose file got a new first row id when it was rewritten; the row keeps its id. */
  function RenumberedTable(row: Row): Table {
    Table(map["f" := RenumberedFile(row)], {}, map[], 2)
  }

  function RenumberedFile(row: Row): DataFile {
    DataFile("f", 1, 2, [FileRow(row, Some(0), Some(2))])
  }

  function SingleTable(row: Row): Table {
    Table(map["g" := DataFile("g", 0, 1, [FileRow(row, None, None)])], {}, map[], 1)
  }

  /** The renumbered table is what a copy-on-write UPDATE of a table numbered by position leaves behind. */
  lemma RenumberedTableArises(before: Row, row: Row)
    ensures var t, matched := SingleTable(before), [Match(Place("g", 0), 0, row)];
            && WellFormed(t) && FileSeqTable(t) && Consistent(t, matched) && DistinctIds(matched)
            && CowFiles(t, matched, [RenumberedFile(row)], 2)
            && RenumberedTable(row) == CowApply(t, TouchedFiles(matched), [RenumberedFile(row)])
  {
    var t, matched := SingleTable(before), [Match(Place("g", 0), 0, row)];
    TouchesOne(matched);
    UpdatedIndexFinds(matched, 1, 0);
    assert RewriteAt(t, matched, 2, Place("g", 0)) == FileRow(row, Some(0), Some(2));
    assert forall p :: VisibleIn(t, {"g"}, p) <==> p == Place("g", 0);
    assert Contents([RenumberedFile(row)]) == RenumberedFile(row).rows by {
      ContentsSnoc([], RenumberedFile(row));
      assert [] + [RenumberedFile(row)] == [RenumberedFile(row)];
    }
    assert ByPath([RenumberedFile(row)]) == map["f" := RenumberedFile(row)];
  }

  /** Its row is not numbered by position, and the next copy-on-write UPDATE of it is refused. */
  lemma RenumberedRowIsLost(row: Row, newRow: Row)
    ensures var t, matched := RenumberedTable(row), [Match(Place("f", 0), 0, newRow)];
            Consistent(t, matched) && UniqueIds(t) && DistinctIds(matched) && !Rewritable(t, matched)
  {
    var t, matched := RenumberedTable(row), [Match(Place("f", 0), 0, newRow)];
    assert VersionAt(t, Place("f", 0)).id == 0;
    assert !Regained(t, matched, matched[0].rowId);
  }
}
