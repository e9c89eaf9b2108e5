/**
 Copy-on-write UPDATE as one step on the table: touched files are dropped and their rewritten rows
 added. The result is compared with what an UPDATE means and with merge-on-read.
 */
module CowCommit {
  import opened Common
  import opened RowLineage
  import opened Sequences
  import opened MorUpdate
  import opened CowRewrite

  // ---------------------------------------------------------------------
  // Replacement files
  // ---------------------------------------------------------------------

  /** The data writer, called once per rewritten file. */
  type CowWriter = (string, seq<FileRow>) -> seq<Chunk>

  /** One call keeps the rows in order, or writes nothing, and uses fresh paths, each once. */
  ghost predicate GoodWrite(t: Table, rows: seq<FileRow>, chunks: seq<Chunk>) {
    && (chunks == [] || ChunkRows(chunks) == rows)
    && (forall i :: 0 <= i < |chunks| ==> FreshPath(t, chunks[i].path))
    && (forall i, j :: 0 <= i < j < |chunks| ==> chunks[i].path != chunks[j].path)
  }

  ghost predicate DisjointPaths(a: seq<Chunk>, b: seq<Chunk>) {
    forall i, j :: 0 <= i < |a| && 0 <= j < |b| ==> a[i].path != b[j].path
  }

  ghost predicate GoodCowWriter(t: Table, writer: CowWriter) {
    && (forall source, rows {:trigger GoodWrite(t, rows, writer(source, rows))} :: GoodWrite(t, rows, writer(source, rows)))
    && (forall a, x, b, y {:trigger DisjointPaths(writer(a, x), writer(b, y))} :: a != b ==> DisjointPaths(writer(a, x), writer(b, y)))
  }

  /** The commit assigns first row ids; the rows store their own ids, so any assignment will do. */
  type FirstRowIds = string -> int

  function AsFile(c: Chunk, newSeq: int, firstIds: FirstRowIds): DataFile {
    DataFile(c.path, firstIds(c.path), newSeq, c.rows)
  }

  function AsFiles(chunks: seq<Chunk>, newSeq: int, firstIds: FirstRowIds): (files: seq<DataFile>)
    ensures |files| == |chunks| && forall i :: 0 <= i < |files| ==> files[i] == AsFile(chunks[i], newSeq, firstIds)
    ensures Contents(files) == ChunkRows(chunks)
  {
    if chunks == [] then [] else
      AsFiles(chunks[..|chunks| - 1], newSeq, firstIds) + [AsFile(chunks[|chunks| - 1], newSeq, firstIds)]
  }

  lemma {:induction false} ContentsConcat(a: seq<DataFile>, b: seq<DataFile>)
    ensures Contents(a + b) == Contents(a) + Contents(b)
  {
    if b == [] {
      assert a + b == a;
    } else {
      var n := |b| - 1;
      ContentsConcat(a, b[..n]);
      ContentsSnoc(a + b[..n], b[n]);
      Assoc(Contents(a), Contents(b[..n]), b[n].rows);
      assert a + b == a + b[..n] + [b[n]];
    }
  }

  ghost predicate WroteFor(path: string, writer: CowWriter, acc: Accumulators, source: string)
    requires source in acc
  {
    exists i :: 0 <= i < |writer(source, acc[source])| && writer(source, acc[source])[i].path == path
  }

  /** Accumulated files, none twice. */
  ghost predicate Listed(order: seq<string>, acc: Accumulators) {
    && (forall j :: 0 <= j < |order| ==> order[j] in acc)
    && (forall i, j :: 0 <= i < j < |order| ==> order[i] != order[j])
  }

  /** `order` lists the accumulated files, each once. */
  ghost predicate Lists(order: seq<string>, acc: Accumulators) {
    Listed(order, acc) && forall source :: source in acc ==> source in order
  }

  /** One of the first `k` files was written to this path. */
  ghost predicate WroteBySome(path: string, writer: CowWriter, acc: Accumulators, order: seq<string>, k: nat)
    requires Listed(order, acc) && k <= |order|
  {
    exists j :: 0 <= j < k && WroteFor(path, writer, acc, order[j])
  }

  ghost predicate CollectedBySome(x: FileRow, acc: Accumulators, order: seq<string>, k: nat)
    requires Listed(order, acc) && k <= |order|
  {
    exists j :: 0 <= j < k && x in acc[order[j]]
  }

  ghost predicate DistinctStored(rows: seq<FileRow>) {
    forall a, b :: 0 <= a < b < |rows| ==> rows[a].storedId != rows[b].storedId
  }

  ghost predicate DisjointIds(a: seq<FileRow>, b: seq<FileRow>) {
    forall x, y :: x in a && y in b ==> x.storedId != y.storedId
  }

  /** No row id is collected twice, within a file or across files. */
  ghost predicate DistinctRows(acc: Accumulators) {
    && (forall source :: source in acc ==> DistinctStored(acc[source]))
    && (forall a, b :: a in acc && b in acc && a != b ==> DisjointIds(acc[a], acc[b]))
  }

  /** The first `k` accumulated files are written. */
  ghost predicate Rewrote(t: Table, acc: Accumulators, order: seq<string>, k: nat, writer: CowWriter, newSeq: int, files: seq<DataFile>)
    requires Listed(order, acc) && k <= |order|
  {
    && FreshFiles(t, files)
    && (forall a :: 0 <= a < |files| ==> files[a].dataSeq == newSeq && WroteBySome(files[a].path, writer, acc, order, k))
    && (forall x :: x in Contents(files) <==> CollectedBySome(x, acc, order, k))
  }

  /** Ids collected once are written once. */
  ghost predicate KeepsDistinct(acc: Accumulators, files: seq<DataFile>) {
    DistinctRows(acc) ==> DistinctStored(Contents(files))
  }

  lemma DistinctAppend(acc: Accumulators, order: seq<string>, k: nat, rows: seq<FileRow>)
    requires DistinctRows(acc) && Listed(order, acc) && k < |order| && DistinctStored(rows)
    requires forall x :: x in rows <==> CollectedBySome(x, acc, order, k)
    ensures DistinctStored(rows + acc[order[k]])
  {
    var all := rows + acc[order[k]];
    forall a, b | 0 <= a < b < |all| ensures all[a].storedId != all[b].storedId {
      if a < |rows| <= b {
        assert all[a] in rows && all[b] in acc[order[k]];
        var j :| 0 <= j < k && all[a] in acc[order[j]];
        assert DisjointIds(acc[order[j]], acc[order[k]]);
      }
    }
  }

  lemma OtherPath(t: Table, acc: Accumulators, order: seq<string>, k: nat, writer: CowWriter, path: string, i: nat)
    requires GoodCowWriter(t, writer) && Listed(order, acc) && k < |order| && WroteBySome(path, writer, acc, order, k)
    requires i < |writer(order[k], acc[order[k]])|
    ensures writer(order[k], acc[order[k]])[i].path != path
  {
    var j :| 0 <= j < k && WroteFor(path, writer, acc, order[j]);
    assert DisjointPaths(writer(order[j], acc[order[j]]), writer(order[k], acc[order[k]]));
  }

  lemma ChunkFiles(t: Table, rows: seq<FileRow>, chunks: seq<Chunk>, newSeq: int, firstIds: FirstRowIds)
    requires GoodWrite(t, rows, chunks)
    ensures FreshFiles(t, AsFiles(chunks, newSeq, firstIds))
  {
    var files := AsFiles(chunks, newSeq, firstIds);
    forall i | 0 <= i < |files| ensures files[i].path == chunks[i].path && FreshPath(t, files[i].path) {
      assert files[i] == AsFile(chunks[i], newSeq, firstIds);
    }
  }

  lemma FreshConcat(t: Table, files: seq<DataFile>, more: seq<DataFile>)
    requires FreshFiles(t, files) && FreshFiles(t, more)
    requires forall a, b :: 0 <= a < |files| && 0 <= b < |more| ==> files[a].path != more[b].path
    ensures FreshFiles(t, files + more)
  {
  }

  /** One more source's files keep paths fresh and distinct. */
  lemma RewrotePaths(t: Table, acc: Accumulators, order: seq<string>, k: nat, writer: CowWriter, newSeq: int, firstIds: FirstRowIds,
                     files: seq<DataFile>, more: seq<DataFile>)
    requires GoodCowWriter(t, writer) && Listed(order, acc) && k < |order| && FreshFiles(t, files)
    requires forall a :: 0 <= a < |files| ==> WroteBySome(files[a].path, writer, acc, order, k)
    requires more == AsFiles(writer(order[k], acc[order[k]]), newSeq, firstIds)
    ensures FreshFiles(t, files + more)
    ensures forall a :: 0 <= a < |more| ==> WroteFor(more[a].path, writer, acc, order[k]) && more[a].dataSeq == newSeq
  {
    var chunks := writer(order[k], acc[order[k]]);
    assert GoodWrite(t, acc[order[k]], chunks);
    ChunkFiles(t, acc[order[k]], chunks, newSeq, firstIds);
    forall b | 0 <= b < |more|
      ensures WroteFor(more[b].path, writer, acc, order[k]) && more[b].dataSeq == newSeq
      ensures forall a :: 0 <= a < |files| ==> files[a].path != more[b].path
    {
      assert more[b] == AsFile(chunks[b], newSeq, firstIds);
      forall a | 0 <= a < |files| ensures files[a].path != more[b].path {
        OtherPath(t, acc, order, k, writer, files[a].path, b);
      }
    }
    FreshConcat(t, files, more);
  }

  lemma WroteMore(path: string, writer: CowWriter, acc: Accumulators, order: seq<string>, k: nat)
    requires Listed(order, acc) && k < |order| && (WroteBySome(path, writer, acc, order, k) || WroteFor(path, writer, acc, order[k]))
    ensures WroteBySome(path, writer, acc, order, k + 1)
  {
  }

  lemma CollectedMore(x: FileRow, acc: Accumulators, order: seq<string>, k: nat)
    requires Listed(order, acc) && k < |order|
    ensures CollectedBySome(x, acc, order, k + 1) <==> CollectedBySome(x, acc, order, k) || x in acc[order[k]]
  {
  }

  lemma RewroteOne(t: Table, acc: Accumulators, order: seq<string>, k: nat, writer: CowWriter, newSeq: int, firstIds: FirstRowIds,
                   files: seq<DataFile>)
    requires GoodCowWriter(t, writer) && Listed(order, acc) && k < |order|
    requires writer(order[k], acc[order[k]]) != [] && Rewrote(t, acc, order, k, writer, newSeq, files)
    ensures Rewrote(t, acc, order, k + 1, writer, newSeq, files + AsFiles(writer(order[k], acc[order[k]]), newSeq, firstIds))
  {
    var more := AsFiles(writer(order[k], acc[order[k]]), newSeq, firstIds);
    ContentsConcat(files, more);
    assert GoodWrite(t, acc[order[k]], writer(order[k], acc[order[k]]));
    RewrotePaths(t, acc, order, k, writer, newSeq, firstIds, files, more);
    forall a | 0 <= a < |files + more| ensures WroteBySome((files + more)[a].path, writer, acc, order, k + 1) {
      WroteMore((files + more)[a].path, writer, acc, order, k);
    }
    forall x ensures x in Contents(files + more) <==> CollectedBySome(x, acc, order, k + 1) {
      CollectedMore(x, acc, order, k);
    }
  }

  lemma DistinctOne(t: Table, acc: Accumulators, order: seq<string>, k: nat, writer: CowWriter, newSeq: int, firstIds: FirstRowIds,
                    files: seq<DataFile>)
    requires GoodCowWriter(t, writer) && Listed(order, acc) && k < |order| && KeepsDistinct(acc, files)
    requires writer(order[k], acc[order[k]]) != [] && Rewrote(t, acc, order, k, writer, newSeq, files)
    ensures KeepsDistinct(acc, files + AsFiles(writer(order[k], acc[order[k]]), newSeq, firstIds))
  {
    ContentsConcat(files, AsFiles(writer(order[k], acc[order[k]]), newSeq, firstIds));
    assert GoodWrite(t, acc[order[k]], writer(order[k], acc[order[k]]));
    if DistinctRows(acc) {
      DistinctAppend(acc, order, k, Contents(files));
    }
  }

  predicate Writes(writer: CowWriter, source: string, rows: seq<FileRow>) {
    writer(source, rows) != []
  }

  /** The accumulated files in some order. */
  method ListFiles(acc: Accumulators) returns (order: seq<string>)
    ensures Lists(order, acc)
  {
    order := [];
    var todo := acc.Keys;
    while todo != {}
      invariant todo <= acc.Keys && forall source :: source in acc <==> source in todo || source in order
      invariant (forall source :: source in order ==> source !in todo) && forall i, j :: 0 <= i < j < |order| ==> order[i] != order[j]
      decreases |todo|
    {
      var source :| source in todo;
      order := order + [source];
      todo := todo - {source};
    }
  }

  lemma RewroteNone(t: Table, acc: Accumulators, order: seq<string>, writer: CowWriter, newSeq: int)
    requires Listed(order, acc)
    ensures Rewrote(t, acc, order, 0, writer, newSeq, [])
  {
  }

  /** Write one rewritten file. */
  method WriteRewrite(t: Table, acc: Accumulators, order: seq<string>, k: nat, writer: CowWriter, newSeq: int, firstIds: FirstRowIds,
                      files: seq<DataFile>) returns (r: Result<seq<DataFile>, CowError>)
    requires GoodCowWriter(t, writer) && Listed(order, acc) && k < |order|
    requires Rewrote(t, acc, order, k, writer, newSeq, files) && KeepsDistinct(acc, files)
    ensures r.Ok? <==> Writes(writer, order[k], acc[order[k]])
    ensures r.Ok? ==> Rewrote(t, acc, order, k + 1, writer, newSeq, r.value) && KeepsDistinct(acc, r.value)
    ensures r.Err? ==> r.error.NoDataFiles?
  {
    var chunks := writer(order[k], acc[order[k]]);
    if chunks == [] {
      return Err(CowError.NoDataFiles(order[k]));
    }
    RewroteOne(t, acc, order, k, writer, newSeq, firstIds, files);
    DistinctOne(t, acc, order, k, writer, newSeq, firstIds, files);
    r := Ok(files + AsFiles(chunks, newSeq, firstIds));
  }

  method WriteListed(t: Table, acc: Accumulators, order: seq<string>, writer: CowWriter, newSeq: int, firstIds: FirstRowIds)
    returns (r: Result<seq<DataFile>, CowError>)
    requires GoodCowWriter(t, writer) && Listed(order, acc)
    ensures r.Ok? <==> forall j :: 0 <= j < |order| ==> Writes(writer, order[j], acc[order[j]])
    ensures r.Ok? ==> Rewrote(t, acc, order, |order|, writer, newSeq, r.value) && KeepsDistinct(acc, r.value)
    ensures r.Err? ==> r.error.NoDataFiles?
  {
    r := Ok([]);
    RewroteNone(t, acc, order, writer, newSeq);
    var k := 0;
    while k < |order|
      invariant 0 <= k <= |order| && r.Ok? && Rewrote(t, acc, order, k, writer, newSeq, r.value) && KeepsDistinct(acc, r.value)
      invariant forall j :: 0 <= j < k ==> Writes(writer, order[j], acc[order[j]])
    {
      r := WriteRewrite(t, acc, order, k, writer, newSeq, firstIds, r.value);
      if r.Err? {
        return;
      }
      k := k + 1;
    }
  }

  method WriteRewrites(t: Table, acc: Accumulators, writer: CowWriter, newSeq: int, firstIds: FirstRowIds)
    returns (r: Result<seq<DataFile>, CowError>, ghost order: seq<string>)
    requires GoodCowWriter(t, writer)
    ensures Lists(order, acc)
    ensures r.Ok? <==> forall j :: 0 <= j < |order| ==> Writes(writer, order[j], acc[order[j]])
    ensures r.Ok? ==> Rewrote(t, acc, order, |order|, writer, newSeq, r.value) && KeepsDistinct(acc, r.value)
    ensures r.Err? ==> r.error.NoDataFiles?
  {
    var sources := ListFiles(acc);
    order := sources;
    r := WriteListed(t, acc, sources, writer, newSeq, firstIds);
  }

  // ---------------------------------------------------------------------
  // What the scan gives
  // ---------------------------------------------------------------------

  function ScanAt(t: Table, p: Place): ScanRow
    requires Exists(t, p)
  {
    ScanRow(Some(p.path), Some(p.pos), t.files[p.path].rows[p.pos].row)
  }

  ghost predicate Scanned(t: Table, s: ScanRow) {
    HasIdentity(s) && Exists(t, Place(s.path.value, s.pos.value)) && s == ScanAt(t, Place(s.path.value, s.pos.value))
  }

  /** The scan reads the current snapshot: every row of every file once, in any order. */
  ghost predicate ScanOf(t: Table, scan: seq<ScanRow>) {
    && (forall i :: 0 <= i < |scan| ==> Scanned(t, scan[i]))
    && (forall p :: Exists(t, p) ==> ScanAt(t, p) in scan)
    && (forall i, j :: 0 <= i < j < |scan| ==> scan[i].path != scan[j].path || scan[i].pos != scan[j].pos)
  }

  ghost predicate VisibleIn(t: Table, touched: set<string>, p: Place) {
    Visible(t, p) && p.path in touched
  }

  function RewriteAt(t: Table, matched: seq<Match>, newSeq: int, p: Place): FileRow
    requires Exists(t, p)
  {
    RewriteRow(t, matched, newSeq, ScanAt(t, p))
  }

  /** The recomputed ids of the rows a rewrite copies are the ids the reader gives them. */
  ghost predicate IdsAsRecomputed(t: Table, matched: seq<Match>) {
    forall p :: VisibleIn(t, TouchedFiles(matched), p) ==> VersionAt(t, p).id == RecomputedId(t, ScanAt(t, p))
  }

  lemma PositionalIdsRecomputed(t: Table, matched: seq<Match>)
    requires PositionalTable(t)
    ensures IdsAsRecomputed(t, matched)
  {
    forall p | VisibleIn(t, TouchedFiles(matched), p) ensures VersionAt(t, p).id == RecomputedId(t, ScanAt(t, p)) {
      assert PositionalFile(t.files[p.path]);
    }
  }

  ghost predicate InRange(t: Table, p: Place)
    requires Exists(t, p)
  {
    I64_MIN <= RecomputedId(t, ScanAt(t, p)) <= I64_MAX
  }

  ghost predicate Recomputes(t: Table, matched: seq<Match>, id: int, p: Place) {
    VisibleIn(t, TouchedFiles(matched), p) && RecomputedId(t, ScanAt(t, p)) == id
  }

  /** Some visible row of a touched file gets this id. */
  ghost predicate Regained(t: Table, matched: seq<Match>, id: int) {
    exists p :: Recomputes(t, matched, id, p)
  }

  /** No recomputed id overflows, and each matched id is recomputed for some visible row of a touched file. */
  ghost predicate Rewritable(t: Table, matched: seq<Match>) {
    && (forall p :: VisibleIn(t, TouchedFiles(matched), p) ==> InRange(t, p))
    && (forall m :: 0 <= m < |matched| ==> Regained(t, matched, matched[m].rowId))
  }

  lemma NeverFails(t: Table, matched: seq<Match>, scan: seq<ScanRow>)
    requires ScanOf(t, scan)
    ensures NoneFail(t, matched, scan) <==> forall p :: VisibleIn(t, TouchedFiles(matched), p) ==> InRange(t, p)
  {
    if forall p :: VisibleIn(t, TouchedFiles(matched), p) ==> InRange(t, p) {
      forall i | 0 <= i < |scan| ensures !Fails(t, matched, scan[i]) {
        assert Scanned(t, scan[i]);
        if Kept(t, matched, scan[i]) {
          assert VisibleIn(t, TouchedFiles(matched), Place(scan[i].path.value, scan[i].pos.value));
        }
      }
    }
    if NoneFail(t, matched, scan) {
      forall p | VisibleIn(t, TouchedFiles(matched), p) ensures InRange(t, p) {
        assert ScanAt(t, p) in scan && !Fails(t, matched, ScanAt(t, p));
      }
    }
  }

  /** A matched id is met by the scan exactly when some row of a touched file gets it. */
  lemma MetExactly(t: Table, matched: seq<Match>, scan: seq<ScanRow>, id: int)
    requires ScanOf(t, scan) && IsMatched(matched, id)
    ensures Met(t, matched, scan, id) <==> Regained(t, matched, id)
  {
    if Met(t, matched, scan, id) {
      var i :| 0 <= i < |scan| && Kept(t, matched, scan[i]) && scan[i].path.value in t.files && RecomputedId(t, scan[i]) == id;
      assert Scanned(t, scan[i]);
      assert Recomputes(t, matched, id, Place(scan[i].path.value, scan[i].pos.value));
    }
    if p :| Recomputes(t, matched, id, p) {
      assert ScanAt(t, p) in scan;
      var i :| 0 <= i < |scan| && scan[i] == ScanAt(t, p);
      assert Kept(t, matched, scan[i]) && RecomputedId(t, scan[i]) == id;
    }
  }

  /** The rewrite succeeds exactly on rewritable tables, in whatever order the scan reads them. */
  lemma RewritableExactly(t: Table, matched: seq<Match>, scan: seq<ScanRow>)
    requires ScanOf(t, scan)
    ensures NoneFail(t, matched, scan) && AllMet(t, matched, scan) <==> Rewritable(t, matched)
  {
    NeverFails(t, matched, scan);
    if NoneFail(t, matched, scan) && AllMet(t, matched, scan) {
      forall m | 0 <= m < |matched| ensures Regained(t, matched, matched[m].rowId) {
        assert Met(t, matched, scan, matched[m].rowId);
        MetExactly(t, matched, scan, matched[m].rowId);
      }
    }
    if Rewritable(t, matched) {
      forall m | 0 <= m < |matched| ensures Met(t, matched, scan, matched[m].rowId) {
        assert IsMatched(matched, matched[m].rowId);
        MetExactly(t, matched, scan, matched[m].rowId);
      }
    }
  }

  /** Tables numbered by position are rewritable: a matched row is visible where the match query found it. */
  lemma PositionalIsRewritable(t: Table, matched: seq<Match>)
    requires PositionalTable(t) && Consistent(t, matched)
    ensures Rewritable(t, matched)
  {
    PositionalIdsRecomputed(t, matched);
    forall p | VisibleIn(t, TouchedFiles(matched), p) ensures InRange(t, p) {
      assert PositionalFile(t.files[p.path]);
    }
    forall m | 0 <= m < |matched| ensures Regained(t, matched, matched[m].rowId) {
      assert Visible(t, matched[m].place) && matched[m].place.path in TouchedFiles(matched);
      assert Recomputes(t, matched, matched[m].rowId, matched[m].place);
    }
  }

  /** What is collected is exactly the rewrite of each visible row of a touched file. */
  lemma CollectedExactly(t: Table, matched: seq<Match>, newSeq: int, scan: seq<ScanRow>, acc: Accumulators, seen: set<int>, x: FileRow)
    requires ScanOf(t, scan) && Collected(t, matched, newSeq, scan, acc, seen)
    ensures (exists source :: source in acc.Keys && x in acc[source]) <==>
            (exists p :: VisibleIn(t, TouchedFiles(matched), p) && x == RewriteAt(t, matched, newSeq, p))
  {
    if source :| source in acc.Keys && x in acc[source] {
      var i := CollectedIsKept(t, matched, newSeq, scan, source, x);
      assert Scanned(t, scan[i]);
      assert VisibleIn(t, TouchedFiles(matched), Place(scan[i].path.value, scan[i].pos.value));
    }
    if p :| VisibleIn(t, TouchedFiles(matched), p) && x == RewriteAt(t, matched, newSeq, p) {
      assert ScanAt(t, p) in scan;
      var i :| 0 <= i < |scan| && scan[i] == ScanAt(t, p);
      KeptIsCollected(t, matched, newSeq, scan, i);
      assert Rewritten(t, matched, newSeq, scan, p.path) != [];
    }
  }

  /** The filter keeps a scanned row exactly if the reader shows it. */
  lemma FilterIsReader(t: Table, s: ScanRow)
    requires Scanned(t, s)
    ensures RowIsVisible(t, Place(s.path.value, s.pos.value), s.row) <==> Visible(t, Place(s.path.value, s.pos.value))
  {
  }

  /** Every copied row comes from a place of a touched file that no position delete and no equality delete removes. */
  lemma CopiesUndeleted(t: Table, matched: seq<Match>, newSeq: int, scan: seq<ScanRow>, acc: Accumulators, seen: set<int>,
                        source: string, x: FileRow) returns (p: Place)
    requires ScanOf(t, scan) && Collected(t, matched, newSeq, scan, acc, seen) && source in acc && x in acc[source]
    ensures p.path == source && source in t.files && 0 <= p.pos < |t.files[source].rows| && (exists m :: 0 <= m < |matched| && matched[m].place.path == source)
    ensures p !in t.deleted && (source in t.equalityDeletes ==> !t.equalityDeletes[source](t.files[source].rows[p.pos].row))
    ensures x == RewriteAt(t, matched, newSeq, p)
  {
    var i := CollectedIsKept(t, matched, newSeq, scan, source, x);
    assert Scanned(t, scan[i]);
    FilterIsReader(t, scan[i]);
    p := Place(source, scan[i].pos.value);
  }

  /** Every undeleted row of a touched file is copied. */
  lemma UndeletedAreCopied(t: Table, matched: seq<Match>, newSeq: int, scan: seq<ScanRow>, acc: Accumulators, seen: set<int>, m: nat, p: Place)
    requires ScanOf(t, scan) && Collected(t, matched, newSeq, scan, acc, seen) && Exists(t, p)
    requires m < |matched| && matched[m].place.path == p.path && p !in t.deleted
    requires p.path in t.equalityDeletes ==> !t.equalityDeletes[p.path](t.files[p.path].rows[p.pos].row)
    ensures p.path in acc && RewriteAt(t, matched, newSeq, p) in acc[p.path]
  {
    var i :| 0 <= i < |scan| && scan[i] == ScanAt(t, p);
    KeptIsCollected(t, matched, newSeq, scan, i);
  }

  lemma CollectedInAll(x: FileRow, acc: Accumulators, order: seq<string>)
    requires Lists(order, acc)
    ensures CollectedBySome(x, acc, order, |order|) <==> exists source :: source in acc.Keys && x in acc[source]
  {
    if source :| source in acc.Keys && x in acc[source] {
      assert source in order;
    }
  }

  lemma DifferentIds(t: Table, matched: seq<Match>, newSeq: int, p: Place, q: Place)
    requires UniqueIds(t) && IdsAsRecomputed(t, matched)
    requires VisibleIn(t, TouchedFiles(matched), p) && VisibleIn(t, TouchedFiles(matched), q) && p != q
    ensures RewriteAt(t, matched, newSeq, p).storedId != RewriteAt(t, matched, newSeq, q).storedId
  {
  }

  lemma {:induction false} RewrittenDistinct(t: Table, matched: seq<Match>, newSeq: int, scan: seq<ScanRow>, path: string)
    requires UniqueIds(t) && IdsAsRecomputed(t, matched) && NoneFail(t, matched, scan) && forall i :: 0 <= i < |scan| ==> Scanned(t, scan[i])
    requires forall i, j :: 0 <= i < j < |scan| ==> scan[i].path != scan[j].path || scan[i].pos != scan[j].pos
    ensures DistinctStored(Rewritten(t, matched, newSeq, scan, path))
  {
    if scan != [] {
      var n := |scan| - 1;
      RewrittenDistinct(t, matched, newSeq, scan[..n], path);
      var before := Rewritten(t, matched, newSeq, scan[..n], path);
      if Kept(t, matched, scan[n]) && scan[n].path.value == path {
        forall a | 0 <= a < |before| ensures before[a].storedId != RewriteRow(t, matched, newSeq, scan[n]).storedId {
          var i := CollectedIsKept(t, matched, newSeq, scan[..n], path, before[a]);
          assert Scanned(t, scan[i]) && Scanned(t, scan[n]);
          DifferentIds(t, matched, newSeq, Place(path, scan[i].pos.value), Place(path, scan[n].pos.value));
        }
      }
    }
  }

  lemma CollectedDistinct(t: Table, matched: seq<Match>, newSeq: int, scan: seq<ScanRow>, acc: Accumulators, seen: set<int>)
    requires UniqueIds(t) && IdsAsRecomputed(t, matched) && ScanOf(t, scan) && Collected(t, matched, newSeq, scan, acc, seen)
    ensures DistinctRows(acc)
  {
    forall source | source in acc ensures DistinctStored(acc[source]) {
      RewrittenDistinct(t, matched, newSeq, scan, source);
    }
    forall a, b | a in acc && b in acc && a != b ensures DisjointIds(acc[a], acc[b]) {
      forall x, y | x in acc[a] && y in acc[b] ensures x.storedId != y.storedId {
        var i := CollectedIsKept(t, matched, newSeq, scan, a, x);
        var j := CollectedIsKept(t, matched, newSeq, scan, b, y);
        assert Scanned(t, scan[i]) && Scanned(t, scan[j]);
        DifferentIds(t, matched, newSeq, Place(a, scan[i].pos.value), Place(b, scan[j].pos.value));
      }
    }
  }
}
