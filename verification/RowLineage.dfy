/**
 Iceberg tables with row lineage, as the row-level mutations see them: data files, deleted
 positions, equality deletes, and the reader that turns them into a logical table.
 */
module RowLineage {
  import opened Common

  /** One value of a scanned row; `Other` stands for the column types DELETE does not compare. */
  datatype Cell = Null | Int(i: int) | Long(l: int) | Text(s: string) | Bool(b: bool) | Other

  datatype Column = Column(name: string, cell: Cell)

  type Row = seq<Column>

  /** A row in a data file, with the row-lineage columns the file may store next to it. */
  datatype FileRow = FileRow(row: Row, storedId: Option<int>, storedSeq: Option<int>)

  datatype DataFile = DataFile(path: string, firstRowId: int, dataSeq: int, rows: seq<FileRow>)

  /** A row's place in the table. */
  datatype Place = Place(path: string, pos: int)

  datatype Table = Table(
    files: map<string, DataFile>,
    deleted: set<Place>,
    equalityDeletes: map<string, Row -> bool>,
    lastSeq: int)

  /** What a query sees of one row: its id, its values and when it was last updated. */
  datatype Version = Version(id: int, row: Row, seqNo: int)

  // ---------------------------------------------------------------------
  // The reader
  // ---------------------------------------------------------------------

  function ReaderId(f: DataFile, pos: nat): int
    requires pos < |f.rows|
  {
    if f.rows[pos].storedId.Some? then f.rows[pos].storedId.value else f.firstRowId + pos
  }

  function ReaderSeq(f: DataFile, pos: nat): int
    requires pos < |f.rows|
  {
    if f.rows[pos].storedSeq.Some? then f.rows[pos].storedSeq.value else f.dataSeq
  }

  predicate Exists(t: Table, p: Place) {
    p.path in t.files && 0 <= p.pos < |t.files[p.path].rows|
  }

  /** An equality delete of the file holds of the stored row. */
  predicate EqualityDeleted(t: Table, p: Place)
    requires Exists(t, p)
  {
    p.path in t.equalityDeletes && t.equalityDeletes[p.path](t.files[p.path].rows[p.pos].row)
  }

  /** The reader shows the rows that neither a position delete nor an equality delete removes. */
  predicate Visible(t: Table, p: Place) {
    Exists(t, p) && p !in t.deleted && !EqualityDeleted(t, p)
  }

  /** The filter of a scan: it sees the deletes of a file and the scanned row. */
  predicate RowIsVisible(t: Table, p: Place, row: Row) {
    if p in t.deleted then false
    else if p.path in t.equalityDeletes then !t.equalityDeletes[p.path](row)
    else true
  }

  function VersionAt(t: Table, p: Place): Version
    requires Exists(t, p)
  {
    var f := t.files[p.path];
    Version(ReaderId(f, p.pos), f.rows[p.pos].row, ReaderSeq(f, p.pos))
  }

  /** The logical table: the versions of the visible rows. */
  ghost function Logical(t: Table): iset<Version> {
    iset p | Visible(t, p) :: VersionAt(t, p)
  }

  // ---------------------------------------------------------------------
  // What the mutations keep
  // ---------------------------------------------------------------------

  /** Every row's id is the file's first row id plus the row's position. */
  ghost predicate PositionalIds(f: DataFile) {
    forall pos :: 0 <= pos < |f.rows| ==> ReaderId(f, pos) == f.firstRowId + pos
  }

  /** No row stores a sequence number other than its file's. */
  ghost predicate FileSeqs(f: DataFile) {
    forall pos :: 0 <= pos < |f.rows| ==> ReaderSeq(f, pos) == f.dataSeq
  }

  ghost predicate PositionalFile(f: DataFile) {
    0 <= f.firstRowId && f.firstRowId + |f.rows| <= I64_MAX && PositionalIds(f)
  }

  ghost predicate PositionalTable(t: Table) {
    forall path :: path in t.files ==> PositionalFile(t.files[path])
  }

  /** Each row id is visible at most once. */
  ghost predicate UniqueIds(t: Table) {
    forall p, q :: Visible(t, p) && Visible(t, q) && VersionAt(t, p).id == VersionAt(t, q).id ==> p == q
  }

  ghost predicate WellFormed(t: Table) {
    PositionalTable(t) && UniqueIds(t)
  }

  ghost predicate FileSeqTable(t: Table) {
    forall path :: path in t.files ==> FileSeqs(t.files[path])
  }

  /** A path the table has never heard of. */
  predicate FreshPath(t: Table, path: string) {
    path !in t.files && path !in t.equalityDeletes && forall p :: p in t.deleted ==> p.path != path
  }

  predicate DistinctPaths(files: seq<DataFile>) {
    forall i, j :: 0 <= i < j < |files| ==> files[i].path != files[j].path
  }

  predicate FreshFiles(t: Table, files: seq<DataFile>) {
    DistinctPaths(files) && forall i :: 0 <= i < |files| ==> FreshPath(t, files[i].path)
  }

  function ByPath(files: seq<DataFile>): map<string, DataFile> {
    if files == [] then map[] else ByPath(files[..|files| - 1])[files[|files| - 1].path := files[|files| - 1]]
  }

  lemma {:induction false} ByPathFinds(files: seq<DataFile>)
    requires DistinctPaths(files)
    ensures forall i :: 0 <= i < |files| ==> files[i].path in ByPath(files) && ByPath(files)[files[i].path] == files[i]
    ensures forall path :: path in ByPath(files) ==> ByPath(files)[path] in files && ByPath(files)[path].path == path
  {
    if files != [] {
      ByPathFinds(files[..|files| - 1]);
    }
  }

  // ---------------------------------------------------------------------
  // An UPDATE's matched rows
  // ---------------------------------------------------------------------

  /** One matched row: where it is, which row it is, and what it becomes. */
  datatype Match = Match(place: Place, rowId: int, newRow: Row)

  ghost predicate DistinctIds(matched: seq<Match>) {
    forall i, j :: 0 <= i < j < |matched| ==> matched[i].rowId != matched[j].rowId
  }

  /** The match query reads the table: it returns visible rows under the ids the reader gives them. */
  ghost predicate Consistent(t: Table, matched: seq<Match>) {
    forall i :: 0 <= i < |matched| ==> Visible(t, matched[i].place) && matched[i].rowId == VersionAt(t, matched[i].place).id
  }

  predicate IsMatched(matched: seq<Match>, id: int) {
    exists i :: 0 <= i < |matched| && matched[i].rowId == id
  }

  function NewVersion(m: Match, newSeq: int): Version {
    Version(m.rowId, m.newRow, newSeq)
  }

  /** What an UPDATE means: the matched ids get their new rows, everything else stays. */
  ghost function Override(base: iset<Version>, matched: seq<Match>, newSeq: int): iset<Version> {
    (iset v | v in base && !IsMatched(matched, v.id)) + (iset i: nat | i < |matched| :: NewVersion(matched[i], newSeq))
  }

  /** A second match of the same row is refused. */
  method ValidateUniqueRowIds(matched: seq<Match>) returns (r: Result<(), int>)
    ensures r.Ok? <==> DistinctIds(matched)
    ensures r.Err? ==> exists i, j :: 0 <= i < j < |matched| && matched[i].rowId == r.error && matched[j].rowId == r.error
  {
    var seen: set<int> := {};
    var k := 0;
    while k < |matched|
      invariant 0 <= k <= |matched|
      invariant forall id :: id in seen <==> exists i :: 0 <= i < k && matched[i].rowId == id
      invariant forall i, j :: 0 <= i < j < k ==> matched[i].rowId != matched[j].rowId
    {
      if matched[k].rowId in seen {
        return Err(matched[k].rowId);
      }
      seen := seen + {matched[k].rowId};
      k := k + 1;
    }
    r := Ok(());
  }
}
