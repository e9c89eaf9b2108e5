/**
 Merge-on-read UPDATE as one step on the table: position deletes for the matched rows and the
 replacement files are committed together. The logical table changes at the matched ids and
 nowhere else, and every data file keeps row id = first row id + position.
 */
module MorCommit {
  import opened Common
  import opened RowLineage
  import opened MorRuns
  import opened MorUpdate

  datatype Partition = Partition(specId: int, values: Row)

  datatype DeleteGroup = DeleteGroup(partition: Partition, positions: seq<int>)

  // ---------------------------------------------------------------------
  // Position deletes
  // ---------------------------------------------------------------------

  /** The positions matched in one file, in match order. */
  function PositionsIn(matched: seq<Match>, n: nat, path: string): seq<int>
    requires n <= |matched|
  {
    if n == 0 then []
    else if matched[n - 1].place.path == path then PositionsIn(matched, n - 1, path) + [matched[n - 1].place.pos]
    else PositionsIn(matched, n - 1, path)
  }

  predicate Touched(matched: seq<Match>, n: nat, path: string)
    requires n <= |matched|
  {
    exists i :: 0 <= i < n && matched[i].place.path == path
  }

  method BuildDeleteGroups(matched: seq<Match>, partitions: map<string, Partition>)
    returns (r: Result<map<string, DeleteGroup>, MorError>)
    ensures r.Ok? <==> forall i :: 0 <= i < |matched| ==> matched[i].place.path in partitions
    ensures r.Err? ==> r.error.MissingPartition?
    ensures r.Ok? ==> forall path :: path in r.value <==> Touched(matched, |matched|, path)
    ensures r.Ok? ==> forall path :: path in r.value ==>
              path in partitions && r.value[path] == DeleteGroup(partitions[path], PositionsIn(matched, |matched|, path))
  {
    var byFile: map<string, seq<int>> := map[];
    var k := 0;
    while k < |matched|
      invariant 0 <= k <= |matched|
      invariant forall path :: path in byFile <==> Touched(matched, k, path)
      invariant forall path :: path in byFile ==> byFile[path] == PositionsIn(matched, k, path)
      invariant forall path :: path !in byFile ==> PositionsIn(matched, k, path) == []
    {
      var path := matched[k].place.path;
      byFile := byFile[path := (if path in byFile then byFile[path] else []) + [matched[k].place.pos]];
      k := k + 1;
    }
    r := GroupByPartition(matched, byFile, partitions);
  }

  method GroupByPartition(matched: seq<Match>, byFile: map<string, seq<int>>, partitions: map<string, Partition>)
    returns (r: Result<map<string, DeleteGroup>, MorError>)
    requires forall path :: path in byFile <==> Touched(matched, |matched|, path)
    ensures r.Ok? <==> forall i :: 0 <= i < |matched| ==> matched[i].place.path in partitions
    ensures r.Err? ==> r.error.MissingPartition?
    ensures r.Ok? ==> r.value.Keys == byFile.Keys
    ensures r.Ok? ==> forall path :: path in r.value ==> path in partitions && r.value[path] == DeleteGroup(partitions[path], byFile[path])
  {
    var out: map<string, DeleteGroup>, todo := map[], byFile.Keys;
    while todo != {}
      invariant todo <= byFile.Keys && out.Keys == byFile.Keys - todo
      invariant forall path :: path in out ==> path in partitions && out[path] == DeleteGroup(partitions[path], byFile[path])
      decreases |todo|
    {
      var path :| path in todo;
      if path !in partitions {
        return Err(MissingPartition(path));
      }
      out := out[path := DeleteGroup(partitions[path], byFile[path])];
      todo := todo - {path};
    }
    forall i | 0 <= i < |matched| ensures matched[i].place.path in partitions {
      assert Touched(matched, |matched|, matched[i].place.path);
    }
    r := Ok(out);
  }

  function GroupPlaces(groups: map<string, DeleteGroup>): set<Place> {
    set path, pos | path in groups && pos in groups[path].positions :: Place(path, pos)
  }

  function MatchedPlaces(matched: seq<Match>): set<Place> {
    set i | 0 <= i < |matched| :: matched[i].place
  }

  lemma {:induction false} PositionsAre(matched: seq<Match>, n: nat, path: string, pos: int)
    requires n <= |matched|
    ensures pos in PositionsIn(matched, n, path) <==> exists i :: 0 <= i < n && matched[i].place == Place(path, pos)
  {
    if n > 0 {
      PositionsAre(matched, n - 1, path, pos);
    }
  }

  /** The groups delete exactly the matched places. */
  lemma GroupsDeleteMatches(matched: seq<Match>, groups: map<string, DeleteGroup>)
    requires forall path :: path in groups <==> Touched(matched, |matched|, path)
    requires forall path :: path in groups ==> groups[path].positions == PositionsIn(matched, |matched|, path)
    ensures GroupPlaces(groups) == MatchedPlaces(matched)
  {
    forall p: Place ensures p in GroupPlaces(groups) <==> p in MatchedPlaces(matched) {
      PositionsAre(matched, |matched|, p.path, p.pos);
      assert p == Place(p.path, p.pos);
      if i :| 0 <= i < |matched| && matched[i].place == p {
        assert Touched(matched, |matched|, p.path);
      }
    }
  }

  // ---------------------------------------------------------------------
  // The commit
  // ---------------------------------------------------------------------

  /** Deletes and new files appear together, under the next sequence number. */
  function Commit(t: Table, places: set<Place>, files: seq<DataFile>): Table {
    t.(files := t.files + ByPath(files), deleted := t.deleted + places, lastSeq := t.lastSeq + 1)
  }

  ghost predicate MorFiles(t: Table, matched: seq<Match>, files: seq<DataFile>, newSeq: int) {
    && AllStamped(files, newSeq) && FreshFiles(t, files)
    && (forall i, j :: 0 <= i < j < |files| ==> End(files[i]) <= files[j].firstRowId)
    && (forall x :: x in Contents(files) <==> exists i :: 0 <= i < |matched| && x == Replacement(matched[i], newSeq))
  }

  predicate InFile(f: DataFile, p: Place) {
    p.path == f.path && 0 <= p.pos < |f.rows|
  }

  /** Rows of the old files: hidden if matched, untouched otherwise. */
  lemma OldRow(t: Table, places: set<Place>, files: seq<DataFile>, p: Place)
    requires FreshFiles(t, files) && p.path in t.files
    ensures Visible(Commit(t, places, files), p) <==> Visible(t, p) && p !in places
    ensures Exists(t, p) ==> Exists(Commit(t, places, files), p) && VersionAt(Commit(t, places, files), p) == VersionAt(t, p)
  {
    ByPathFinds(files);
  }

  /** Rows of the new files: all visible, under the id and sequence number they store. */
  lemma NewRow(t: Table, places: set<Place>, files: seq<DataFile>, newSeq: int, i: nat, p: Place)
    requires FreshFiles(t, files) && AllStamped(files, newSeq) && i < |files| && InFile(files[i], p)
    requires forall q :: q in places ==> q.path in t.files
    ensures p.path !in t.files && Visible(Commit(t, places, files), p)
    ensures VersionAt(Commit(t, places, files), p) == Version(files[i].firstRowId + p.pos, files[i].rows[p.pos].row, newSeq)
  {
    ByPathFinds(files);
  }

  lemma NewRowFile(t: Table, places: set<Place>, files: seq<DataFile>, p: Place) returns (i: nat)
    requires FreshFiles(t, files) && Visible(Commit(t, places, files), p) && p.path !in t.files
    ensures i < |files| && InFile(files[i], p)
  {
    ByPathFinds(files);
    var f := ByPath(files)[p.path];
    i :| i < |files| && files[i] == f;
  }

  lemma {:induction false} ContentsMember(files: seq<DataFile>, x: FileRow)
    ensures x in Contents(files) <==> exists i, k :: 0 <= i < |files| && 0 <= k < |files[i].rows| && files[i].rows[k] == x
  {
    if files != [] {
      ContentsMember(files[..|files| - 1], x);
    }
  }

  /** A row of a new file is the new version of some match. */
  lemma NewRowMatches(t: Table, matched: seq<Match>, files: seq<DataFile>, newSeq: int, i: nat, k: nat) returns (m: nat)
    requires MorFiles(t, matched, files, newSeq) && i < |files| && k < |files[i].rows|
    ensures m < |matched| && NewVersion(matched[m], newSeq) == Version(files[i].firstRowId + k, files[i].rows[k].row, newSeq)
  {
    var x := files[i].rows[k];
    ContentsMember(files, x);
    m :| 0 <= m < |matched| && x == Replacement(matched[m], newSeq);
    assert Stamped(files[i], newSeq);
  }

  lemma MatchHasNewRow(t: Table, matched: seq<Match>, files: seq<DataFile>, newSeq: int, m: nat) returns (i: nat, k: nat)
    requires MorFiles(t, matched, files, newSeq) && m < |matched|
    ensures i < |files| && k < |files[i].rows|
    ensures NewVersion(matched[m], newSeq) == Version(files[i].firstRowId + k, files[i].rows[k].row, newSeq)
  {
    var x := Replacement(matched[m], newSeq);
    assert x in Contents(files);
    ContentsMember(files, x);
    i, k :| i < |files| && 0 <= k < |files[i].rows| && files[i].rows[k] == x;
    assert Stamped(files[i], newSeq);
  }

  lemma OldVersionKept(t: Table, matched: seq<Match>, files: seq<DataFile>, p: Place)
    requires UniqueIds(t) && Consistent(t, matched) && FreshFiles(t, files) && p.path in t.files
    requires Visible(Commit(t, MatchedPlaces(matched), files), p)
    ensures Visible(t, p) && VersionAt(Commit(t, MatchedPlaces(matched), files), p) == VersionAt(t, p)
    ensures !IsMatched(matched, VersionAt(t, p).id)
  {
    OldRow(t, MatchedPlaces(matched), files, p);
    forall i | 0 <= i < |matched| ensures matched[i].rowId != VersionAt(t, p).id {
      assert Visible(t, matched[i].place) && matched[i].place in MatchedPlaces(matched);
    }
  }

  lemma UnmatchedStays(t: Table, matched: seq<Match>, files: seq<DataFile>, p: Place)
    requires Consistent(t, matched) && FreshFiles(t, files) && Visible(t, p) && !IsMatched(matched, VersionAt(t, p).id)
    ensures Visible(Commit(t, MatchedPlaces(matched), files), p)
    ensures VersionAt(Commit(t, MatchedPlaces(matched), files), p) == VersionAt(t, p)
  {
    assert p !in MatchedPlaces(matched);
    OldRow(t, MatchedPlaces(matched), files, p);
  }

  lemma MatchedInTable(t: Table, matched: seq<Match>)
    requires Consistent(t, matched)
    ensures forall q :: q in MatchedPlaces(matched) ==> q.path in t.files
  {
  }

  lemma MorShowsOnly(t: Table, matched: seq<Match>, files: seq<DataFile>, newSeq: int, p: Place)
    requires UniqueIds(t) && Consistent(t, matched) && MorFiles(t, matched, files, newSeq)
    requires Visible(Commit(t, MatchedPlaces(matched), files), p)
    ensures VersionAt(Commit(t, MatchedPlaces(matched), files), p) in Override(Logical(t), matched, newSeq)
  {
    var places := MatchedPlaces(matched);
    if p.path in t.files {
      OldVersionKept(t, matched, files, p);
    } else {
      MatchedInTable(t, matched);
      var i := NewRowFile(t, places, files, p);
      NewRow(t, places, files, newSeq, i, p);
      var m := NewRowMatches(t, matched, files, newSeq, i, p.pos);
    }
  }

  lemma MorShowsMatch(t: Table, matched: seq<Match>, files: seq<DataFile>, newSeq: int, m: nat)
    requires Consistent(t, matched) && MorFiles(t, matched, files, newSeq) && m < |matched|
    ensures NewVersion(matched[m], newSeq) in Logical(Commit(t, MatchedPlaces(matched), files))
  {
    MatchedInTable(t, matched);
    var i, k := MatchHasNewRow(t, matched, files, newSeq, m);
    NewRow(t, MatchedPlaces(matched), files, newSeq, i, Place(files[i].path, k));
  }

  lemma MorShowsAll(t: Table, matched: seq<Match>, files: seq<DataFile>, newSeq: int, v: Version)
    requires Consistent(t, matched) && MorFiles(t, matched, files, newSeq)
    requires v in Override(Logical(t), matched, newSeq)
    ensures v in Logical(Commit(t, MatchedPlaces(matched), files))
  {
    if v in Logical(t) && !IsMatched(matched, v.id) {
      var p :| Visible(t, p) && VersionAt(t, p) == v;
      UnmatchedStays(t, matched, files, p);
    } else {
      var m: nat :| m < |matched| && v == NewVersion(matched[m], newSeq);
      MorShowsMatch(t, matched, files, newSeq, m);
    }
  }

  /** The committed table is the old one with the matched ids overridden, and nothing else. */
  lemma MorEffect(t: Table, matched: seq<Match>, files: seq<DataFile>, newSeq: int)
    requires UniqueIds(t) && Consistent(t, matched) && MorFiles(t, matched, files, newSeq)
    ensures Logical(Commit(t, MatchedPlaces(matched), files)) == Override(Logical(t), matched, newSeq)
  {
    var t' := Commit(t, MatchedPlaces(matched), files);
    forall v | v in Logical(t') ensures v in Override(Logical(t), matched, newSeq) {
      var p :| Visible(t', p) && VersionAt(t', p) == v;
      MorShowsOnly(t, matched, files, newSeq, p);
    }
    forall v | v in Override(Logical(t), matched, newSeq) ensures v in Logical(t') {
      MorShowsAll(t, matched, files, newSeq, v);
    }
  }

  // ---------------------------------------------------------------------
  // What the commit keeps
  // ---------------------------------------------------------------------

  lemma StampedIsPositional(f: DataFile, newSeq: int)
    requires Stamped(f, newSeq)
    ensures PositionalFile(f) && FileSeqs(f)
  {
  }

  lemma CommitPositional(t: Table, places: set<Place>, files: seq<DataFile>, newSeq: int)
    requires FreshFiles(t, files) && AllStamped(files, newSeq)
    ensures PositionalTable(t) ==> PositionalTable(Commit(t, places, files))
    ensures FileSeqTable(t) ==> FileSeqTable(Commit(t, places, files))
  {
    ByPathFinds(files);
    forall i | 0 <= i < |files| ensures PositionalFile(files[i]) && FileSeqs(files[i]) {
      StampedIsPositional(files[i], newSeq);
    }
  }

  lemma NewIdsApart(t: Table, matched: seq<Match>, files: seq<DataFile>, newSeq: int, i: nat, k: nat, j: nat, l: nat)
    requires MorFiles(t, matched, files, newSeq) && i < |files| && k < |files[i].rows| && j < |files| && l < |files[j].rows|
    requires files[i].firstRowId + k == files[j].firstRowId + l
    ensures i == j && k == l
  {
  }

  lemma MorKeepsUnique(t: Table, matched: seq<Match>, files: seq<DataFile>, newSeq: int, p: Place, q: Place)
    requires UniqueIds(t) && Consistent(t, matched) && MorFiles(t, matched, files, newSeq)
    requires Visible(Commit(t, MatchedPlaces(matched), files), p) && Visible(Commit(t, MatchedPlaces(matched), files), q)
    requires VersionAt(Commit(t, MatchedPlaces(matched), files), p).id == VersionAt(Commit(t, MatchedPlaces(matched), files), q).id
    ensures p == q
  {
    var places := MatchedPlaces(matched);
    MatchedInTable(t, matched);
    if p.path in t.files {
      OldVersionKept(t, matched, files, p);
    }
    if q.path in t.files {
      OldVersionKept(t, matched, files, q);
    }
    if p.path !in t.files {
      var i := NewRowFile(t, places, files, p);
      NewRow(t, places, files, newSeq, i, p);
      var m := NewRowMatches(t, matched, files, newSeq, i, p.pos);
      assert IsMatched(matched, matched[m].rowId);
    }
    if q.path !in t.files {
      var j := NewRowFile(t, places, files, q);
      NewRow(t, places, files, newSeq, j, q);
      var m := NewRowMatches(t, matched, files, newSeq, j, q.pos);
      assert IsMatched(matched, matched[m].rowId);
      if p.path !in t.files {
        var i := NewRowFile(t, places, files, p);
        NewRow(t, places, files, newSeq, i, p);
        NewIdsApart(t, matched, files, newSeq, i, p.pos, j, q.pos);
      }
    }
  }

  /** Each row id stays visible at most once, and positional lineage stays positional. */
  lemma MorKeepsWellFormed(t: Table, matched: seq<Match>, files: seq<DataFile>, newSeq: int)
    requires UniqueIds(t) && Consistent(t, matched) && MorFiles(t, matched, files, newSeq)
    ensures UniqueIds(Commit(t, MatchedPlaces(matched), files))
    ensures PositionalTable(t) ==> PositionalTable(Commit(t, MatchedPlaces(matched), files))
    ensures FileSeqTable(t) ==> FileSeqTable(Commit(t, MatchedPlaces(matched), files))
  {
    var t' := Commit(t, MatchedPlaces(matched), files);
    CommitPositional(t, MatchedPlaces(matched), files, newSeq);
    forall p, q | Visible(t', p) && Visible(t', q) && VersionAt(t', p).id == VersionAt(t', q).id ensures p == q {
      MorKeepsUnique(t, matched, files, newSeq, p, q);
    }
  }

  // ---------------------------------------------------------------------
  // The statement, and runs of statements
  // ---------------------------------------------------------------------

  /** In a table numbered by position, ids end below the largest one. */
  lemma MatchedBelowMax(t: Table, matched: seq<Match>)
    requires PositionalTable(t) && Consistent(t, matched)
    ensures RowIds(matched) && BelowMax(matched)
  {
    forall i | 0 <= i < |matched| ensures 0 <= matched[i].rowId < I64_MAX {
      var p := matched[i].place;
      assert Visible(t, p) && PositionalFile(t.files[p.path]);
      assert ReaderId(t.files[p.path], p.pos) == t.files[p.path].firstRowId + p.pos;
    }
  }

  /** Replacement files cut from maximal runs hold exactly the matched rows. */
  lemma RunsGiveMorFiles(t: Table, matched: seq<Match>, order: seq<nat>, groups: seq<seq<nat>>, runs: seq<Run>,
                         files: seq<DataFile>, newSeq: int)
    requires IsOrder(matched, order) && MaximalRuns(matched, order, groups) && Materialized(matched, groups, newSeq, runs)
    requires AllStamped(files, newSeq) && Contents(files) == RunRows(runs) && FreshFiles(t, files)
    requires forall i, j :: 0 <= i < j < |files| ==> End(files[i]) <= files[j].firstRowId
    ensures MorFiles(t, matched, files, newSeq)
  {
    RunRowsAre(matched, groups, newSeq, runs);
    forall x ensures x in Contents(files) <==> exists i :: 0 <= i < |matched| && x == Replacement(matched[i], newSeq) {
      ReplacedExactly(matched, order, newSeq, x);
    }
  }

  /** The data writer writes something for every run that has rows. */
  ghost predicate AlwaysWrites(writer: Writer) {
    forall run: Run :: run.rows != [] ==> writer(run) != []
  }

  ghost predicate KnownPartitions(matched: seq<Match>, partitions: map<string, Partition>) {
    forall i :: 0 <= i < |matched| ==> matched[i].place.path in partitions
  }

  lemma EachWritable(writer: Writer, runs: seq<Run>, newSeq: int)
    requires AlwaysWrites(writer) && Apart(runs, newSeq)
    ensures (forall j :: 0 <= j < |runs| ==> Writable(writer, runs[j])) <==> forall j :: 0 <= j < |runs| ==> RunEnd(runs[j]) <= I64_MAX
  {
    forall j | 0 <= j < |runs| ensures writer(runs[j]) != [] {
      assert RunLineage(runs[j], newSeq);
    }
  }

  method ExecuteMorUpdate(t: Table, matched: seq<Match>, partitions: map<string, Partition>, writer: Writer)
    returns (r: Result<Table, MorError>)
    requires UniqueIds(t) && Consistent(t, matched) && RowIds(matched) && GoodWriter(t, writer)
    ensures r.Ok? ==> Logical(r.value) == Override(Logical(t), matched, t.lastSeq + 1)
    ensures r.Ok? ==> UniqueIds(r.value) && (PositionalTable(t) ==> PositionalTable(r.value)) && (FileSeqTable(t) ==> FileSeqTable(r.value))
    ensures r.Err? && r.error.DuplicateRowId? <==> !DistinctIds(matched)
    ensures DistinctIds(matched) && KnownPartitions(matched, partitions) && AlwaysWrites(writer) ==> (r.Ok? <==> BelowMax(matched))
    ensures PositionalTable(t) && DistinctIds(matched) && KnownPartitions(matched, partitions) && AlwaysWrites(writer) ==> r.Ok?
    ensures r.Ok? && matched != [] ==> exists files :: UpdateStep(t, r.value, matched, files)
  {
    if PositionalTable(t) {
      MatchedBelowMax(t, matched);
    }
    if |matched| == 0 {
      assert Override(Logical(t), matched, t.lastSeq + 1) == Logical(t);
      return Ok(t);
    }
    var unique := ValidateUniqueRowIds(matched);
    if unique.Err? {
      return Err(DuplicateRowId(unique.error));
    }
    var deletes := BuildDeleteGroups(matched, partitions);
    if deletes.Err? {
      return Err(deletes.error);
    }
    var newSeq := t.lastSeq + 1;
    var runs, order, groups := BuildMorUpdateRuns(matched, newSeq);
    DistinctNeverOverflows(matched);
    RunsApart(matched, order, groups, newSeq, runs.value);
    if AlwaysWrites(writer) {
      EachWritable(writer, runs.value, newSeq);
    }
    var written := WriteRuns(t, runs.value, writer, newSeq);
    if written.Err? {
      return Err(written.error);
    }
    var files := written.value;
    RunsGiveMorFiles(t, matched, order, groups, runs.value, files, newSeq);
    GroupsDeleteMatches(matched, deletes.value);
    MorEffect(t, matched, files, newSeq);
    MorKeepsWellFormed(t, matched, files, newSeq);
    assert UpdateStep(t, Commit(t, GroupPlaces(deletes.value), files), matched, files);
    r := Ok(Commit(t, GroupPlaces(deletes.value), files));
  }

  /** A DELETE adds position deletes and no files. */
  lemma DeleteKeepsWellFormed(t: Table, places: set<Place>)
    requires UniqueIds(t)
    ensures UniqueIds(Commit(t, places, []))
    ensures PositionalTable(t) ==> PositionalTable(Commit(t, places, []))
    ensures FileSeqTable(t) ==> FileSeqTable(Commit(t, places, []))
  {
    var t' := Commit(t, places, []);
    assert t'.files == t.files;
    forall p | Visible(t', p) ensures Visible(t, p) && VersionAt(t', p) == VersionAt(t, p) {
      OldRow(t, places, [], p);
    }
  }

  ghost predicate UpdateStep(t: Table, t': Table, matched: seq<Match>, files: seq<DataFile>) {
    Consistent(t, matched) && MorFiles(t, matched, files, t.lastSeq + 1) && t' == Commit(t, MatchedPlaces(matched), files)
  }

  ghost predicate DeleteStep(t: Table, t': Table, places: set<Place>) {
    t' == Commit(t, places, [])
  }

  /** One merge-on-read UPDATE or one DELETE. */
  ghost predicate Step(t: Table, t': Table) {
    || (exists matched, files :: UpdateStep(t, t', matched, files))
    || (exists places :: DeleteStep(t, t', places))
  }

  lemma StepKeepsLineage(t: Table, t': Table)
    requires Step(t, t') && UniqueIds(t)
    ensures UniqueIds(t') && (PositionalTable(t) ==> PositionalTable(t')) && (FileSeqTable(t) ==> FileSeqTable(t'))
    ensures t'.lastSeq == t.lastSeq + 1
  {
    if matched, files :| UpdateStep(t, t', matched, files) {
      MorKeepsWellFormed(t, matched, files, t.lastSeq + 1);
    } else {
      var places :| DeleteStep(t, t', places);
      DeleteKeepsWellFormed(t, places);
    }
  }

  ghost predicate History(tables: seq<Table>) {
    tables != [] && forall i, j :: 0 <= i < j < |tables| && j == i + 1 ==> Step(tables[i], tables[j])
  }

  /** Over any sequence of updates and deletes, ids stay unique, positional lineage stays positional and each takes one sequence number. */
  lemma {:induction false} HistoryKeepsLineage(tables: seq<Table>, n: nat)
    requires History(tables) && UniqueIds(tables[0]) && n < |tables|
    ensures UniqueIds(tables[n])
    ensures PositionalTable(tables[0]) ==> PositionalTable(tables[n])
    ensures FileSeqTable(tables[0]) ==> FileSeqTable(tables[n])
    ensures tables[n].lastSeq == tables[0].lastSeq + n
  {
    if n > 0 {
      HistoryKeepsLineage(tables, n - 1);
      StepKeepsLineage(tables[n - 1], tables[n]);
    }
  }
}
