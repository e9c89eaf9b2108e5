/**
 Merge-on-read UPDATE, second half: position deletes for the matched rows, replacement files cut
 from the runs with their first row ids chained, and the commit that adds both to the table.
 */
module MorUpdate {
  import opened Common
  import opened RowLineage
  import opened Sequences
  import opened MorRuns

  // ---------------------------------------------------------------------
  // Replacement files
  // ---------------------------------------------------------------------

  /** One data file as the rolling writer leaves it. */
  datatype Chunk = Chunk(path: string, rows: seq<FileRow>)

  /** The data writer, which may roll over to a new file at any row. */
  type Writer = Run -> seq<Chunk>

  datatype MorError = DuplicateRowId(id: int) | MissingPartition(path: string) | Overflow | NoDataFiles

  function ChunkRows(chunks: seq<Chunk>): seq<FileRow> {
    if chunks == [] then [] else ChunkRows(chunks[..|chunks| - 1]) + chunks[|chunks| - 1].rows
  }

  function Contents(files: seq<DataFile>): seq<FileRow> {
    if files == [] then [] else Contents(files[..|files| - 1]) + files[|files| - 1].rows
  }

  function RunRows(runs: seq<Run>): seq<FileRow> {
    if runs == [] then [] else RunRows(runs[..|runs| - 1]) + runs[|runs| - 1].rows
  }

  /** The writer keeps the rows in order, or writes nothing, and never uses a path twice. */
  ghost predicate GoodWriter(t: Table, writer: Writer) {
    && (forall run :: writer(run) == [] || ChunkRows(writer(run)) == run.rows)
    && (forall run, i :: 0 <= i < |writer(run)| ==> FreshPath(t, writer(run)[i].path))
    && (forall a, b, i, j :: 0 <= i < |writer(a)| && 0 <= j < |writer(b)| && writer(a)[i].path == writer(b)[j].path ==> a == b && i == j)
  }

  function End(f: DataFile): int {
    f.firstRowId + |f.rows|
  }

  /** Each row stores exactly the id that first row id plus position gives, and the new sequence number. */
  ghost predicate Stamped(f: DataFile, newSeq: int) {
    && f.dataSeq == newSeq && 0 <= f.firstRowId && End(f) <= I64_MAX
    && forall p :: 0 <= p < |f.rows| ==> f.rows[p].storedId == Some(f.firstRowId + p) && f.rows[p].storedSeq == Some(newSeq)
  }

  ghost predicate AllStamped(files: seq<DataFile>, newSeq: int) {
    forall i :: 0 <= i < |files| ==> Stamped(files[i], newSeq)
  }

  /** The files cover disjoint id ranges, in ascending order, all below `bound`. */
  ghost predicate Ascending(files: seq<DataFile>, bound: int) {
    && (forall i :: 0 <= i < |files| ==> End(files[i]) <= bound)
    && (forall i, j :: 0 <= i < j < |files| ==> End(files[i]) <= files[j].firstRowId)
  }

  ghost predicate RunLineage(run: Run, newSeq: int) {
    && 0 <= run.firstRowId <= I64_MAX && |run.rows| > 0
    && forall k :: 0 <= k < |run.rows| ==> run.rows[k].storedId == Some(run.firstRowId + k) && run.rows[k].storedSeq == Some(newSeq)
  }

  function RunEnd(run: Run): int {
    run.firstRowId + |run.rows|
  }

  ghost predicate PathOf(path: string, writer: Writer, run: Run) {
    exists i :: 0 <= i < |writer(run)| && writer(run)[i].path == path
  }

  ghost predicate PathOfSome(path: string, writer: Writer, runs: seq<Run>, k: nat)
    requires k <= |runs|
  {
    exists j :: 0 <= j < k && PathOf(path, writer, runs[j])
  }

  /** Files written so far have the paths of the first `k` runs. */
  ghost predicate WrittenBy(files: seq<DataFile>, writer: Writer, runs: seq<Run>, k: nat)
    requires k <= |runs|
  {
    forall a :: 0 <= a < |files| ==> PathOfSome(files[a].path, writer, runs, k)
  }

  lemma ContentsSnoc(files: seq<DataFile>, f: DataFile)
    ensures Contents(files + [f]) == Contents(files) + f.rows
  {
    assert (files + [f])[..|files|] == files;
  }

  lemma ChunksSnoc(chunks: seq<Chunk>, k: nat)
    requires k < |chunks|
    ensures ChunkRows(chunks[..k + 1]) == ChunkRows(chunks[..k]) + chunks[k].rows
  {
    assert chunks[..k + 1][..k] == chunks[..k];
  }

  lemma {:induction false} ChunksPrefix(chunks: seq<Chunk>, k: nat)
    requires k <= |chunks|
    ensures ChunkRows(chunks[..k]) <= ChunkRows(chunks)
    decreases |chunks| - k
  {
    if k < |chunks| {
      ChunksPrefix(chunks, k + 1);
      ChunksSnoc(chunks, k);
    } else {
      assert chunks[..k] == chunks;
    }
  }

  /** What chaining the first row ids over one run's files has achieved after some of them. */
  ghost predicate ChainedRun(before: seq<DataFile>, run: Run, rows: seq<FileRow>, newSeq: int, files: seq<DataFile>) {
    && AllStamped(files, newSeq) && Ascending(files, run.firstRowId + |rows|)
    && Contents(files) == Contents(before) + rows && before <= files
  }

  /** A piece of a run is stamped by the run's first row id plus its offset. */
  lemma PieceStamped(run: Run, rows: seq<FileRow>, newSeq: int, f: DataFile)
    requires RunLineage(run, newSeq) && rows + f.rows <= run.rows
    requires f.firstRowId == run.firstRowId + |rows| && f.dataSeq == newSeq && End(f) <= I64_MAX
    ensures Stamped(f, newSeq)
  {
    forall p | 0 <= p < |f.rows| ensures f.rows[p] == run.rows[|rows| + p] {
      assert (rows + f.rows)[|rows| + p] == f.rows[p];
    }
  }

  lemma AscendingSnoc(files: seq<DataFile>, bound: int, f: DataFile)
    requires Ascending(files, bound) && bound <= f.firstRowId
    ensures Ascending(files + [f], End(f))
  {
  }

  lemma ChainOne(before: seq<DataFile>, run: Run, rows: seq<FileRow>, newSeq: int, files: seq<DataFile>, f: DataFile)
    requires ChainedRun(before, run, rows, newSeq, files) && Stamped(f, newSeq)
    requires f.firstRowId == run.firstRowId + |rows|
    ensures ChainedRun(before, run, rows + f.rows, newSeq, files + [f])
  {
    ContentsSnoc(files, f);
    AscendingSnoc(files, run.firstRowId + |rows|, f);
    Assoc(Contents(before), rows, f.rows);
  }

  method StampRun(run: Run, chunks: seq<Chunk>, newSeq: int, before: seq<DataFile>) returns (r: Result<seq<DataFile>, MorError>)
    requires ChunkRows(chunks) == run.rows && RunLineage(run, newSeq)
    requires AllStamped(before, newSeq) && Ascending(before, run.firstRowId)
    ensures r.Ok? <==> RunEnd(run) <= I64_MAX
    ensures r.Err? ==> r.error == Overflow
    ensures r.Ok? ==> ChainedRun(before, run, run.rows, newSeq, r.value) && |r.value| == |before| + |chunks|
    ensures r.Ok? ==> forall a :: |before| <= a < |r.value| ==> r.value[a].path == chunks[a - |before|].path
  {
    var files, cursor, k := before, run.firstRowId, 0;
    while k < |chunks|
      invariant 0 <= k <= |chunks| && |files| == |before| + k
      invariant cursor == run.firstRowId + |ChunkRows(chunks[..k])| <= I64_MAX
      invariant ChainedRun(before, run, ChunkRows(chunks[..k]), newSeq, files)
      invariant forall a :: |before| <= a < |files| ==> files[a].path == chunks[a - |before|].path
    {
      ChunksPrefix(chunks, k + 1);
      ChunksSnoc(chunks, k);
      var next := cursor + |chunks[k].rows|;
      if next > I64_MAX {
        return Err(Overflow);
      }
      var file := DataFile(chunks[k].path, cursor, newSeq, chunks[k].rows);
      PieceStamped(run, ChunkRows(chunks[..k]), newSeq, file);
      ChainOne(before, run, ChunkRows(chunks[..k]), newSeq, files, file);
      files := files + [file];
      cursor := next;
      k := k + 1;
    }
    TakeAll(chunks);
    r := Ok(files);
  }

  /** Every run ends before the next one starts. */
  ghost predicate Apart(runs: seq<Run>, newSeq: int) {
    && (forall j :: 0 <= j < |runs| ==> RunLineage(runs[j], newSeq))
    && (forall i, j :: 0 <= i < j < |runs| ==> RunEnd(runs[i]) <= runs[j].firstRowId)
  }

  ghost predicate Writable(writer: Writer, run: Run) {
    writer(run) != [] && RunEnd(run) <= I64_MAX
  }

  ghost predicate RunsWritten(runs: seq<Run>, k: nat, writer: Writer, newSeq: int, files: seq<DataFile>)
    requires k <= |runs|
  {
    && AllStamped(files, newSeq) && Contents(files) == RunRows(runs[..k])
    && (forall i, j :: 0 <= i < |files| && k <= j < |runs| ==> End(files[i]) <= runs[j].firstRowId)
    && (forall i, j :: 0 <= i < j < |files| ==> End(files[i]) <= files[j].firstRowId)
    && WrittenBy(files, writer, runs, k) && DistinctPaths(files)
  }

  lemma RunRowsSnoc(runs: seq<Run>, k: nat)
    requires k < |runs|
    ensures RunRows(runs[..k + 1]) == RunRows(runs[..k]) + runs[k].rows
  {
    assert runs[..k + 1][..k] == runs[..k];
  }

  /** The files of run `k` come after the earlier ones, under paths of their own. */
  lemma WroteRun(t: Table, runs: seq<Run>, k: nat, writer: Writer, newSeq: int, before: seq<DataFile>, files: seq<DataFile>)
    requires GoodWriter(t, writer) && Apart(runs, newSeq) && k < |runs|
    requires RunsWritten(runs, k, writer, newSeq, before) && ChainedRun(before, runs[k], runs[k].rows, newSeq, files)
    requires |files| == |before| + |writer(runs[k])|
    requires forall a :: |before| <= a < |files| ==> files[a].path == writer(runs[k])[a - |before|].path
    ensures RunsWritten(runs, k + 1, writer, newSeq, files)
  {
    RunRowsSnoc(runs, k);
    WrittenPaths(t, runs, k, writer, before, files);
    assert Ascending(files, RunEnd(runs[k]));
  }

  lemma WrittenPaths(t: Table, runs: seq<Run>, k: nat, writer: Writer, before: seq<DataFile>, files: seq<DataFile>)
    requires GoodWriter(t, writer) && k < |runs| && forall j :: 0 <= j < k ==> runs[j] != runs[k]
    requires WrittenBy(before, writer, runs, k) && DistinctPaths(before)
    requires before <= files && |files| == |before| + |writer(runs[k])|
    requires forall a :: |before| <= a < |files| ==> files[a].path == writer(runs[k])[a - |before|].path
    ensures WrittenBy(files, writer, runs, k + 1) && DistinctPaths(files)
  {
    forall a | 0 <= a < |files| ensures PathOfSome(files[a].path, writer, runs, k + 1) {
      if a < |before| {
        assert PathOfSome(before[a].path, writer, runs, k);
      } else {
        assert PathOf(files[a].path, writer, runs[k]);
      }
    }
    forall a, b | 0 <= a < b < |files| ensures files[a].path != files[b].path {
      if a < |before| <= b {
        OtherRunPath(t, runs, k, writer, before[a].path, b - |before|);
      }
    }
  }

  lemma OtherRunPath(t: Table, runs: seq<Run>, k: nat, writer: Writer, path: string, i: nat)
    requires GoodWriter(t, writer) && k < |runs| && forall j :: 0 <= j < k ==> runs[j] != runs[k]
    requires PathOfSome(path, writer, runs, k) && i < |writer(runs[k])|
    ensures writer(runs[k])[i].path != path
  {
    var j :| 0 <= j < k && PathOf(path, writer, runs[j]);
  }

  lemma AllFresh(t: Table, writer: Writer, runs: seq<Run>, files: seq<DataFile>)
    requires GoodWriter(t, writer) && WrittenBy(files, writer, runs, |runs|) && DistinctPaths(files)
    ensures FreshFiles(t, files)
  {
    forall a | 0 <= a < |files| ensures FreshPath(t, files[a].path) {
      assert PathOfSome(files[a].path, writer, runs, |runs|);
      var j :| 0 <= j < |runs| && PathOf(files[a].path, writer, runs[j]);
    }
  }

  method WriteRuns(t: Table, runs: seq<Run>, writer: Writer, newSeq: int) returns (r: Result<seq<DataFile>, MorError>)
    requires GoodWriter(t, writer) && Apart(runs, newSeq)
    ensures r.Ok? <==> forall j :: 0 <= j < |runs| ==> Writable(writer, runs[j])
    ensures r.Ok? ==> AllStamped(r.value, newSeq) && Contents(r.value) == RunRows(runs) && FreshFiles(t, r.value)
    ensures r.Ok? ==> forall i, j :: 0 <= i < j < |r.value| ==> End(r.value[i]) <= r.value[j].firstRowId
    ensures r.Err? ==> r.error == Overflow || r.error == NoDataFiles
  {
    var files: seq<DataFile>, k := [], 0;
    while k < |runs|
      invariant 0 <= k <= |runs| && RunsWritten(runs, k, writer, newSeq, files)
      invariant forall j :: 0 <= j < k ==> Writable(writer, runs[j])
    {
      var chunks := writer(runs[k]);
      if chunks == [] {
        return Err(NoDataFiles);
      }
      var stamped := StampRun(runs[k], chunks, newSeq, files);
      if stamped.Err? {
        return Err(stamped.error);
      }
      WroteRun(t, runs, k, writer, newSeq, files, stamped.value);
      files := stamped.value;
      k := k + 1;
    }
    TakeAll(runs);
    AllFresh(t, writer, runs, files);
    r := Ok(files);
  }

  // ---------------------------------------------------------------------
  // From runs to replacement rows
  // ---------------------------------------------------------------------

  lemma TailOfConcat<T>(a: seq<T>, b: seq<T>)
    requires a != []
    ensures (a + b)[0] == a[0] && (a + b)[1..] == a[1..] + b
  {
  }

  lemma {:induction false} ReplacementsConcat(matched: seq<Match>, a: seq<nat>, b: seq<nat>, newSeq: int)
    requires Indices(matched, a) && Indices(matched, b)
    ensures Indices(matched, a + b)
    ensures Replacements(matched, a + b, newSeq) == Replacements(matched, a, newSeq) + Replacements(matched, b, newSeq)
  {
    if a == [] {
      assert a + b == b;
    } else {
      ReplacementsConcat(matched, a[1..], b, newSeq);
      TailOfConcat(a, b);
      Assoc([Replacement(matched[a[0]], newSeq)], Replacements(matched, a[1..], newSeq), Replacements(matched, b, newSeq));
    }
  }

  lemma {:induction false} RunRowsAre(matched: seq<Match>, groups: seq<seq<nat>>, newSeq: int, runs: seq<Run>)
    requires Materialized(matched, groups, newSeq, runs)
    ensures Indices(matched, Concat(groups)) && RunRows(runs) == Replacements(matched, Concat(groups), newSeq)
  {
    if groups != [] {
      var n := |groups| - 1;
      RunRowsAre(matched, groups[..n], newSeq, runs[..n]);
      ReplacementsConcat(matched, Concat(groups[..n]), groups[n], newSeq);
    }
  }

  lemma ReplacedExactly(matched: seq<Match>, order: seq<nat>, newSeq: int, x: FileRow)
    requires IsOrder(matched, order)
    ensures x in Replacements(matched, order, newSeq) <==> exists i :: 0 <= i < |matched| && x == Replacement(matched[i], newSeq)
  {
    var rows := Replacements(matched, order, newSeq);
    if x in rows {
      var k :| 0 <= k < |rows| && rows[k] == x;
      ReplacementsAt(matched, order, newSeq, k);
    }
    if i: nat :| i < |matched| && x == Replacement(matched[i], newSeq) {
      assert i in order;
      var k :| 0 <= k < |order| && order[k] == i;
      ReplacementsAt(matched, order, newSeq, k);
    }
  }

  lemma GroupLineage(matched: seq<Match>, g: seq<nat>, newSeq: int)
    requires Consecutive(matched, g) && 0 <= matched[g[0]].rowId <= I64_MAX
    ensures RunLineage(Materialize(matched, g, newSeq), newSeq)
  {
    forall k | 0 <= k < |g| ensures Replacements(matched, g, newSeq)[k] == Replacement(matched[g[k]], newSeq) {
      ReplacementsAt(matched, g, newSeq, k);
    }
  }

  /** Row ids are non-negative 64-bit integers. */
  ghost predicate RowIds(matched: seq<Match>) {
    forall i :: 0 <= i < |matched| ==> 0 <= matched[i].rowId <= I64_MAX
  }

  /** None is the largest one, after which no id can follow. */
  ghost predicate BelowMax(matched: seq<Match>) {
    forall i :: 0 <= i < |matched| ==> matched[i].rowId < I64_MAX
  }

  lemma {:induction false} RunsAscend(matched: seq<Match>, groups: seq<seq<nat>>, newSeq: int, runs: seq<Run>, i: nat, j: nat)
    requires RunsSoFar(matched, groups) && DistinctIds(matched) && Materialized(matched, groups, newSeq, runs)
    requires i < j < |runs|
    ensures RunEnd(runs[i]) <= runs[j].firstRowId
  {
    assert Separate(matched, groups[j - 1], groups[j]);
    if i < j - 1 {
      RunsAscend(matched, groups, newSeq, runs, i, j - 1);
    }
  }

  /** A run's end fits exactly if none of its ids is the largest one. */
  lemma RunEndFits(matched: seq<Match>, g: seq<nat>, newSeq: int, k: nat)
    requires Consecutive(matched, g) && k < |g| && RowIds(matched)
    ensures RunEnd(Materialize(matched, g, newSeq)) > matched[g[k]].rowId
    ensures BelowMax(matched) ==> RunEnd(Materialize(matched, g, newSeq)) <= I64_MAX
  {
    assert matched[g[|g| - 1]].rowId == matched[g[0]].rowId + |g| - 1;
  }

  lemma RunsFitExactly(matched: seq<Match>, order: seq<nat>, groups: seq<seq<nat>>, newSeq: int, runs: seq<Run>)
    requires IsOrder(matched, order) && MaximalRuns(matched, order, groups) && RowIds(matched) && Materialized(matched, groups, newSeq, runs)
    ensures (forall j :: 0 <= j < |runs| ==> RunEnd(runs[j]) <= I64_MAX) <==> BelowMax(matched)
  {
    forall j | 0 <= j < |runs| ensures BelowMax(matched) ==> RunEnd(runs[j]) <= I64_MAX {
      RunEndFits(matched, groups[j], newSeq, 0);
    }
    if i :| 0 <= i < |matched| && matched[i].rowId == I64_MAX {
      assert i in order;
      var a :| 0 <= a < |order| && order[a] == i;
      var j, k := PartOf(groups, a);
      RunEndFits(matched, groups[j], newSeq, k);
      assert RunEnd(runs[j]) > I64_MAX;
    }
  }

  /** Distinct ids give runs that end before the next one starts; all of them can be stamped exactly if no id is the largest one. */
  lemma RunsApart(matched: seq<Match>, order: seq<nat>, groups: seq<seq<nat>>, newSeq: int, runs: seq<Run>)
    requires IsOrder(matched, order) && MaximalRuns(matched, order, groups)
    requires DistinctIds(matched) && RowIds(matched) && Materialized(matched, groups, newSeq, runs)
    ensures Apart(runs, newSeq)
    ensures (forall j :: 0 <= j < |runs| ==> RunEnd(runs[j]) <= I64_MAX) <==> BelowMax(matched)
  {
    forall j | 0 <= j < |runs| ensures RunLineage(runs[j], newSeq) {
      GroupLineage(matched, groups[j], newSeq);
    }
    forall i, j | 0 <= i < j < |runs| ensures RunEnd(runs[i]) <= runs[j].firstRowId {
      RunsAscend(matched, groups, newSeq, runs, i, j);
    }
    RunsFitExactly(matched, order, groups, newSeq, runs);
  }
}
