/**
 Reading a file through the block cache: byte ranges and a stream, block by block, with hits served
 from the cache and misses fetched and stored.
 */
module CachedReader {
  import opened Common
  import opened Sequences
  import opened BlockCache

  /** The remote file: a range comes back whole, or the read fails. */
  type Remote = (nat, nat) -> Option<seq<Byte>>

  ghost predicate Serves(remote: Remote, file: seq<Byte>) {
    forall a: nat, b: nat :: ServesRange(remote, file, a, b)
  }

  ghost predicate ServesRange(remote: Remote, file: seq<Byte>, a: nat, b: nat) {
    a <= b <= |file| && remote(a, b).Some? ==> remote(a, b).value == file[a..b]
  }

  /** No read of a range inside the file fails. */
  ghost predicate AlwaysServes(remote: Remote, length: nat) {
    forall a: nat, b: nat :: a <= b <= length ==> remote(a, b).Some?
  }

  /** The bytes of every file that is read through the cache, under its cache key. */
  type Files = map<CacheKey, seq<Byte>>

  datatype Reader = Reader(
    key: CacheKey, length: nat, remote: Remote, remoteBlock: nat,
    cache: Option<Cache>, enableDatacache: bool, enablePopulate: bool)

  /** `NeverReturns` is the block cache's eviction loop, entered while storing a fetched block. */
  datatype Outcome<T> = Done(value: T) | OutOfRange | Overflow | IoFailed | NeverReturns

  // ---------------------------------------------------------------------
  // Blocks of a file
  // ---------------------------------------------------------------------

  function StretchStart(size: nat, index: nat): nat {
    index * size
  }

  function StretchEnd(length: nat, size: nat, index: nat): nat {
    if StretchStart(size, index) + size < length then StretchStart(size, index) + size else length
  }

  /** `data` is the block of the file at this index. */
  ghost predicate IsBlock(file: seq<Byte>, size: nat, index: nat, data: seq<Byte>) {
    StretchStart(size, index) <= |file| && data == file[StretchStart(size, index)..StretchEnd(|file|, size, index)]
  }

  lemma StartStep(size: nat, index: nat)
    ensures StretchStart(size, index + 1) == StretchStart(size, index) + size
  {
  }

  lemma {:induction false} StartMonotone(size: nat, i: nat, j: nat)
    requires i <= j
    ensures StretchStart(size, i) <= StretchStart(size, j)
    decreases j - i
  {
    if i < j {
      StartStep(size, i);
      StartMonotone(size, i + 1, j);
    }
  }

  lemma BlockContains(size: nat, pos: nat)
    requires size > 0
    ensures StretchStart(size, pos / size) <= pos < StretchStart(size, pos / size) + size
  {
  }

  // ---------------------------------------------------------------------
  // Coherence
  // ---------------------------------------------------------------------

  /** The map holds a block of this file under this index. */
  ghost predicate Holds(c: Config, entries: map<BlockKey, BlockEntry>, key: CacheKey, index: nat) {
    KeyOf(c, key, index) in entries && entries[KeyOf(c, key, index)].info.cacheKey == key
  }

  /** What the cache holds of a file is what the file holds. */
  ghost predicate Coherent(c: Config, entries: map<BlockKey, BlockEntry>, written: Written, files: Files) {
    forall key, index: nat :: key in files && Holds(c, entries, key, index) ==>
      (key, index) in written && IsBlock(files[key], c.geometry.blockSize, index, written[(key, index)])
  }

  ghost predicate Ready(c: Cache, files: Files)
    reads c, c.dir
  {
    c.Valid() && Coherent(c.config, c.entries, c.written, files)
  }

  ghost predicate ValidReader(r: Reader, files: Files) {
    && r.key in files && |files[r.key]| == r.length && Serves(r.remote, files[r.key]) && r.remoteBlock > 0
    && r.length <= U64_MAX
    && (r.cache.Some? ==> ValidConfig(r.cache.value.config) && r.length + r.cache.value.config.geometry.blockSize <= U64_MAX)
  }

  lemma DropsStayCoherent(c: Config, before: map<BlockKey, BlockEntry>, after: map<BlockKey, BlockEntry>, written: Written, files: Files)
    requires Coherent(c, before, written, files) && OnlyDrops(before, after)
    ensures Coherent(c, after, written, files)
  {
    forall key, index: nat | key in files && Holds(c, after, key, index) ensures Holds(c, before, key, index) {
    }
  }

  lemma StoreStaysCoherent(c: Config, before: map<BlockKey, BlockEntry>, after: map<BlockKey, BlockEntry>, written: Written, files: Files,
                           key: CacheKey, index: nat, data: seq<Byte>)
    requires Coherent(c, before, written, files) && key in files && IsBlock(files[key], c.geometry.blockSize, index, data)
    requires OnlyAdds(before, after, KeyOf(c, key, index)) && Holds(c, after, key, index)
    ensures Coherent(c, after, written[(key, index) := data], files)
  {
    forall other, i: nat | other in files && Holds(c, after, other, i)
      ensures (other == key && i == index) || (Holds(c, before, other, i) && (other, i) != (key, index))
    {
    }
  }

  lemma FailedStoreStaysCoherent(c: Config, before: map<BlockKey, BlockEntry>, after: map<BlockKey, BlockEntry>, written: Written, files: Files, k: BlockKey)
    requires Coherent(c, before, written, files) && OnlyAdds(before, after, k) && k !in after
    ensures Coherent(c, after, written, files)
  {
    DropsStayCoherent(c, before, after, written, files);
  }

  // ---------------------------------------------------------------------
  // One block
  // ---------------------------------------------------------------------

  /** Store a fetched block, ignoring whether it could be stored. */
  method Populate(c: Cache, key: CacheKey, index: nat, data: seq<Byte>, ghost files: Files) returns (returned: bool)
    requires Ready(c, files) && key in files && IsBlock(files[key], c.config.geometry.blockSize, index, data)
    modifies c, c.dir
    ensures Ready(c, files)
    ensures !returned <==> data != [] && KeyOf(c.config, key, index) !in old(c.entries) && old(c.Wedged())
    ensures !returned ==> c.Wedged()
  {
    assert |data| <= c.config.geometry.blockSize;
    ghost var before, written := c.entries, c.written;
    var stored := c.Write(key, index, data);
    if stored != Stored {
      FailedStoreStaysCoherent(c.config, before, c.entries, written, files, KeyOf(c.config, key, index));
    } else if data != [] {
      StoreStaysCoherent(c.config, before, c.entries, written, files, key, index, data);
    }
    returned := stored != Stuck;
  }

  /** A block the cache holds is the file's whole block. */
  lemma HeldWhole(c: Config, entries: map<BlockKey, BlockEntry>, written: Written, files: Files, key: CacheKey, index: nat, start: nat, end: nat)
    requires Coherent(c, entries, written, files) && key in files && Holds(c, entries, key, index)
    requires start == StretchStart(c.geometry.blockSize, index) && end == StretchEnd(|files[key]|, c.geometry.blockSize, index) && start <= end
    ensures (key, index) in written && |written[(key, index)]| == end - start
    ensures IsBlock(files[key], c.geometry.blockSize, index, written[(key, index)][..end - start])
  {
    TakeAll(written[(key, index)]);
  }

  /** What the cache answers for a block of a coherent file: the whole block, or nothing. */
  method LookUp(r: Reader, c: Cache, index: nat, ghost files: Files) returns (hit: Option<seq<Byte>>)
    requires ValidReader(r, files) && Ready(c, files) && StretchStart(c.config.geometry.blockSize, index) <= r.length
    modifies c, c.dir
    ensures Ready(c, files)
    ensures hit.Some? ==> IsBlock(files[r.key], c.config.geometry.blockSize, index, hit.value)
    ensures hit.Some? <==> StretchStart(c.config.geometry.blockSize, index) == r.length || old(c.Resident(r.key, index))
    ensures hit.None? ==> (KeyOf(c.config, r.key, index) !in c.entries && c.Wedged() <==>
                           KeyOf(c.config, r.key, index) !in old(c.entries) && old(c.Wedged()))
  {
    var size := c.config.geometry.blockSize;
    var start, end := StretchStart(size, index), StretchEnd(r.length, size, index);
    ghost var before := c.entries;
    if Holds(c.config, before, r.key, index) {
      HeldWhole(c.config, before, c.written, files, r.key, index, start, end);
    }
    var read := c.Read(r.key, index, end - start);
    DropsStayCoherent(c.config, before, c.entries, c.written, files);
    hit := if read.Hit? then Some(read.bytes) else None;
  }

  /** The block is not in the cache and not empty, so the remote file is asked for it. */
  ghost predicate Fetches(r: Reader, c: Cache, index: nat)
    reads c
  {
    StretchStart(c.config.geometry.blockSize, index) < r.length && !c.Resident(r.key, index)
  }

  /** What the remote file answers for the block. */
  function Fetched(r: Reader, c: Cache, index: nat): Option<seq<Byte>> {
    r.remote(StretchStart(c.config.geometry.blockSize, index), StretchEnd(r.length, c.config.geometry.blockSize, index))
  }

  /**
   A hit from the cache, or a fetch that also populates it: either way the file's own block. It
   fails only with a failed fetch, and hangs only when it stores a fetched block under a new key
   in a cache with nothing free and a head without an entry.
   */
  method ReadCachedBlock(r: Reader, c: Cache, index: nat, ghost files: Files) returns (block: Outcome<seq<Byte>>)
    requires ValidReader(r, files) && r.cache == Some(c) && Ready(c, files) && StretchStart(c.config.geometry.blockSize, index) <= r.length
    modifies c, c.dir
    ensures Ready(c, files)
    ensures block.Done? ==> IsBlock(files[r.key], c.config.geometry.blockSize, index, block.value)
    ensures block.IoFailed? <==> old(Fetches(r, c, index)) && Fetched(r, c, index).None?
    ensures block.NeverReturns? <==> old(Fetches(r, c, index)) && Fetched(r, c, index).Some? && r.enablePopulate
                                     && KeyOf(c.config, r.key, index) !in old(c.entries) && old(c.Wedged())
    ensures Explained(r, block)
  {
    var hit := LookUp(r, c, index, files);
    if hit.Some? {
      return Done(hit.value);
    }
    var fetched := Fetched(r, c, index);
    assert ServesRange(r.remote, files[r.key], StretchStart(c.config.geometry.blockSize, index), StretchEnd(r.length, c.config.geometry.blockSize, index));
    if fetched.None? {
      return IoFailed;
    }
    block := Done(fetched.value);
    if r.enablePopulate {
      var returned := Populate(c, r.key, index, fetched.value, files);
      if !returned {
        block := NeverReturns;
      }
    }
  }

  /** A read fails only if the remote file can fail, and hangs only by populating a wedged cache. */
  ghost predicate Explained<T>(r: Reader, outcome: Outcome<T>)
    reads if r.cache.Some? then {r.cache.value, r.cache.value.dir} else {}
  {
    && (outcome.Done? || outcome.IoFailed? || outcome.NeverReturns?)
    && (outcome.IoFailed? ==> !AlwaysServes(r.remote, r.length))
    && (outcome.NeverReturns? ==> r.enablePopulate && r.cache.Some? && r.cache.value.Wedged())
  }

  // ---------------------------------------------------------------------
  // A range of bytes
  // ---------------------------------------------------------------------

  /** How far the range is filled before block `b`. */
  ghost function Filled(size: nat, start: nat, end: nat, first: nat, last: nat, b: nat): nat {
    if b <= first then start else if b <= last then StretchStart(size, b) else end
  }

  /** `first` and `last` are the blocks in which the range starts and ends. */
  ghost predicate Spans(size: nat, start: nat, end: nat, first: nat, last: nat) {
    && size > 0 && start <= end
    && StretchStart(size, first) <= start < StretchStart(size, first) + size
    && StretchStart(size, last) <= end <= StretchStart(size, last) + size
    && first <= last + 1 && (first > last ==> start == end)
  }

  /** A block's share of the range: from the range's start in its first block to its end in its last. */
  lemma ShareOfBlock(file: seq<Byte>, size: nat, start: nat, end: nat, first: nat, last: nat, b: nat, data: seq<Byte>)
    requires Spans(size, start, end, first, last) && end <= |file| && first <= b <= last && IsBlock(file, size, b, data)
    ensures var from := if b == first then start - StretchStart(size, b) else 0;
            var to := if b == last then end - StretchStart(size, b) else |data|;
            && 0 <= from <= to <= |data|
            && start <= Filled(size, start, end, first, last, b) <= Filled(size, start, end, first, last, b + 1) <= end
            && data[from..to] == file[Filled(size, start, end, first, last, b)..Filled(size, start, end, first, last, b + 1)]
  {
    BlockOrder(size, first, last, b);
    var from := if b == first then start - StretchStart(size, b) else 0;
    var to := if b == last then end - StretchStart(size, b) else |data|;
    SliceOfSlice(file, StretchStart(size, b), StretchEnd(|file|, size, b), from, to);
  }

  lemma SliceOfSlice(file: seq<Byte>, a: nat, b: nat, from: nat, to: nat)
    requires a <= b <= |file| && from <= to <= b - a
    ensures file[a..b][from..to] == file[a + from..a + to]
  {
    forall k | 0 <= k < to - from ensures file[a..b][from..to][k] == file[a + from..a + to][k] {
    }
  }

  /** The part of a block from `pos` on is what the file holds there. */
  lemma RestOfBlock(file: seq<Byte>, size: nat, index: nat, pos: nat, data: seq<Byte>)
    requires StretchStart(size, index) <= pos < StretchStart(size, index) + size && pos < |file| && IsBlock(file, size, index, data)
    ensures var from := pos - StretchStart(size, index);
            from < |data| && pos + (|data| - from) <= |file| && data[from..] == file[pos..pos + (|data| - from)]
  {
    SliceOfSlice(file, StretchStart(size, index), StretchEnd(|file|, size, index), pos - StretchStart(size, index), |data|);
  }

  /** The facts about block `b` of a range that need multiplication. */
  lemma BlockOrder(size: nat, first: nat, last: nat, b: nat)
    requires first <= b <= last
    ensures b < last ==> StretchStart(size, b) + size == StretchStart(size, b + 1) <= StretchStart(size, last)
    ensures first < b ==> StretchStart(size, first) + size <= StretchStart(size, b)
    ensures StretchStart(size, b) <= StretchStart(size, last)
  {
    StartStep(size, b);
    StartStep(size, first);
    StartMonotone(size, b, last);
    if b < last {
      StartMonotone(size, b + 1, last);
    }
    if first < b {
      StartMonotone(size, first + 1, b);
    }
  }

  lemma BlocksSpan(size: nat, start: nat, end: nat)
    requires size > 0 && start <= end
    ensures Spans(size, start, end, start / size, (if end == 0 then 0 else end - 1) / size)
  {
    BlockContains(size, start);
    BlockContains(size, if end == 0 then 0 else end - 1);
    var first, last := start / size, (if end == 0 then 0 else end - 1) / size;
    if first > last {
      StartStep(size, last);
      StartMonotone(size, last + 1, first);
    }
    if first > last + 1 {
      NextBlocks(size, last, first);
    }
  }

  lemma NextBlocks(size: nat, last: nat, first: nat)
    requires last + 1 < first
    ensures StretchStart(size, last) + size + size <= StretchStart(size, first)
  {
    StartStep(size, last);
    StartStep(size, last + 1);
    StartMonotone(size, last + 2, first);
  }

  /** The range is filled up to block `b`. */
  ghost predicate FilledUpTo(file: seq<Byte>, size: nat, start: nat, end: nat, first: nat, last: nat, b: nat, out: seq<Byte>) {
    && start <= Filled(size, start, end, first, last, b) <= end <= |file|
    && out == file[start..Filled(size, start, end, first, last, b)]
  }

  lemma FilledStart(file: seq<Byte>, size: nat, start: nat, end: nat, first: nat, last: nat)
    requires start <= end <= |file|
    ensures FilledUpTo(file, size, start, end, first, last, first, [])
  {
  }

  lemma FilledStep(file: seq<Byte>, size: nat, start: nat, end: nat, first: nat, last: nat, b: nat, out: seq<Byte>, data: seq<Byte>)
    requires Spans(size, start, end, first, last) && first <= b <= last && IsBlock(file, size, b, data)
    requires FilledUpTo(file, size, start, end, first, last, b, out)
    ensures var from := if b == first then start - StretchStart(size, b) else 0;
            var to := if b == last then end - StretchStart(size, b) else |data|;
            0 <= from <= to <= |data| && FilledUpTo(file, size, start, end, first, last, b + 1, out + data[from..to])
  {
    ShareOfBlock(file, size, start, end, first, last, b, data);
    Append(file, start, Filled(size, start, end, first, last, b), Filled(size, start, end, first, last, b + 1));
  }

  lemma FilledEnd(file: seq<Byte>, size: nat, start: nat, end: nat, first: nat, last: nat, b: nat, out: seq<Byte>)
    requires Spans(size, start, end, first, last) && b == last + 1
    requires FilledUpTo(file, size, start, end, first, last, b, out)
    ensures out == file[start..end]
  {
  }

  /** Append one block's share of the range. */
  method AppendShare(r: Reader, c: Cache, start: nat, end: nat, first: nat, last: nat, b: nat, out: seq<Byte>, ghost files: Files)
    returns (bytes: Outcome<seq<Byte>>)
    requires ValidReader(r, files) && r.cache == Some(c) && Ready(c, files) && end <= r.length && first <= b <= last
    requires Spans(c.config.geometry.blockSize, start, end, first, last)
    requires FilledUpTo(files[r.key], c.config.geometry.blockSize, start, end, first, last, b, out)
    modifies c, c.dir
    ensures Ready(c, files)
    ensures bytes.Done? ==> FilledUpTo(files[r.key], c.config.geometry.blockSize, start, end, first, last, b + 1, bytes.value)
    ensures Explained(r, bytes)
  {
    var size := c.config.geometry.blockSize;
    BlockOrder(size, first, last, b);
    bytes := ReadCachedBlock(r, c, b, files);
    if !bytes.Done? {
      return;
    }
    FilledStep(files[r.key], size, start, end, first, last, b, out, bytes.value);
    var from := if b == first then start - StretchStart(size, b) else 0;
    var to := if b == last then end - StretchStart(size, b) else |bytes.value|;
    bytes := Done(out + bytes.value[from..to]);
  }

  /** The block loop. */
  method ReadBlocks(r: Reader, c: Cache, start: nat, end: nat, first: nat, last: nat, ghost files: Files) returns (bytes: Outcome<seq<Byte>>)
    requires ValidReader(r, files) && r.cache == Some(c) && Ready(c, files) && end <= r.length
    requires Spans(c.config.geometry.blockSize, start, end, first, last)
    modifies c, c.dir
    ensures Ready(c, files)
    ensures bytes.Done? ==> bytes.value == files[r.key][start..end]
    ensures Explained(r, bytes)
  {
    ghost var file, size := files[r.key], c.config.geometry.blockSize;
    FilledStart(file, size, start, end, first, last);
    var out := [];
    var b := first;
    while b <= last
      invariant first <= b <= last + 1 && Ready(c, files) && FilledUpTo(file, size, start, end, first, last, b, out)
    {
      var share := AppendShare(r, c, start, end, first, last, b, out, files);
      if !share.Done? {
        return share;
      }
      out := share.value;
      b := b + 1;
    }
    FilledEnd(file, size, start, end, first, last, last + 1, out);
    bytes := Done(out);
  }

  method ReadThroughCache(r: Reader, c: Cache, start: nat, end: nat, ghost files: Files) returns (bytes: Outcome<seq<Byte>>)
    requires ValidReader(r, files) && r.cache == Some(c) && Ready(c, files) && start <= end <= r.length
    modifies c, c.dir
    ensures Ready(c, files)
    ensures bytes.Done? ==> bytes.value == files[r.key][start..end]
    ensures Explained(r, bytes)
  {
    var size := c.config.geometry.blockSize;
    BlocksSpan(size, start, end);
    bytes := ReadBlocks(r, c, start, end, start / size, (if end == 0 then 0 else end - 1) / size, files);
  }

  lemma Append(file: seq<Byte>, a: nat, b: nat, c: nat)
    requires a <= b <= c <= |file|
    ensures file[a..b] + file[b..c] == file[a..c]
  {
  }

  /** Exactly the requested bytes, for every range inside the file, and an error for every other. */
  method ReadBytes(r: Reader, start: nat, length: nat, ghost files: Files) returns (bytes: Outcome<seq<Byte>>)
    requires ValidReader(r, files) && (r.cache.Some? ==> Ready(r.cache.value, files))
    modifies if r.cache.Some? then {r.cache.value, r.cache.value.dir} else {}
    ensures r.cache.Some? ==> Ready(r.cache.value, files)
    ensures bytes.Done? ==> start + length <= r.length && bytes.value == files[r.key][start..start + length]
    ensures bytes == Overflow <==> start + length > U64_MAX
    ensures bytes == OutOfRange <==> r.length < start + length <= U64_MAX
    ensures bytes == Overflow || bytes == OutOfRange || Explained(r, bytes)
    ensures bytes == NeverReturns ==> r.enableDatacache
  {
    if start + length > U64_MAX {
      return Overflow;
    }
    if start + length > r.length {
      return OutOfRange;
    }
    if r.enableDatacache && r.cache.Some? {
      bytes := ReadThroughCache(r, r.cache.value, start, start + length, files);
      return;
    }
    assert ServesRange(r.remote, files[r.key], start, start + length);
    var fetched := r.remote(start, start + length);
    bytes := if fetched.Some? then Done(fetched.value) else IoFailed;
  }

  // ---------------------------------------------------------------------
  // A stream
  // ---------------------------------------------------------------------

  class CachedRead {
    const reader: Reader
    var pos: nat
    var buf: seq<Byte>
    var bufPos: nat

    /** What is buffered and not yet delivered is what the file holds at the current position. */
    ghost predicate Valid(file: seq<Byte>)
      reads this
    {
      && reader.length == |file| && pos <= |file| && bufPos <= |buf|
      && pos + (|buf| - bufPos) <= |file| && buf[bufPos..] == file[pos..pos + (|buf| - bufPos)]
    }

    constructor (reader: Reader, start: nat, ghost file: seq<Byte>)
      requires start <= reader.length == |file|
      ensures Valid(file) && this.reader == reader && pos == start
    {
      this.reader := reader;
      pos, buf, bufPos := start, [], 0;
    }

    /** Buffer a block from the current position on. */
    method Fill(block: seq<Byte>, size: nat, index: nat, ghost file: seq<Byte>)
      requires reader.length == |file| && IsBlock(file, size, index, block)
      requires StretchStart(size, index) <= pos < StretchStart(size, index) + size && pos < |file|
      modifies this`buf, this`bufPos
      ensures Valid(file) && bufPos < |buf|
    {
      RestOfBlock(file, size, index, pos, block);
      buf, bufPos := block, pos - StretchStart(size, index);
    }

    /** Buffer the cached block that holds the current position. */
    method RefillFromCache(c: Cache, ghost files: Files) returns (r: Outcome<()>)
      requires ValidReader(reader, files) && reader.cache == Some(c) && Ready(c, files) && Valid(files[reader.key]) && pos < reader.length
      modifies this`buf, this`bufPos, c, c.dir
      ensures Ready(c, files) && Valid(files[reader.key])
      ensures r.Done? ==> bufPos < |buf|
      ensures Explained(reader, r)
    {
      var size := c.config.geometry.blockSize;
      BlockContains(size, pos);
      var index := pos / size;
      var block := ReadCachedBlock(reader, c, index, files);
      if !block.Done? {
        return if block.IoFailed? then IoFailed else NeverReturns;
      }
      Fill(block.value, size, index, files[reader.key]);
      r := Done(());
    }

    /** Buffer the next stretch of the remote file. */
    method RefillFromRemote(ghost files: Files) returns (r: Outcome<()>)
      requires ValidReader(reader, files) && Valid(files[reader.key]) && pos < reader.length
      modifies this`buf, this`bufPos
      ensures Valid(files[reader.key])
      ensures r.Done? ==> bufPos < |buf|
      ensures Explained(reader, r) && !r.NeverReturns?
    {
      var count := if reader.remoteBlock < reader.length - pos then reader.remoteBlock else reader.length - pos;
      assert ServesRange(reader.remote, files[reader.key], pos, pos + count);
      var fetched := reader.remote(pos, pos + count);
      if fetched.None? {
        return IoFailed;
      }
      buf, bufPos := fetched.value, 0;
      r := Done(());
    }

    method Refill(ghost files: Files) returns (r: Outcome<()>)
      requires ValidReader(reader, files) && (reader.cache.Some? ==> Ready(reader.cache.value, files)) && Valid(files[reader.key])
      modifies this`buf, this`bufPos, if reader.cache.Some? then {reader.cache.value, reader.cache.value.dir} else {}
      ensures reader.cache.Some? ==> Ready(reader.cache.value, files)
      ensures Valid(files[reader.key])
      ensures r.Done? && pos < reader.length ==> bufPos < |buf|
      ensures Explained(reader, r) && (r.NeverReturns? ==> reader.enableDatacache)
    {
      if pos >= reader.length {
        buf, bufPos := [], 0;
        return Done(());
      }
      if reader.enableDatacache && reader.cache.Some? {
        r := RefillFromCache(reader.cache.value, files);
      } else {
        r := RefillFromRemote(files);
      }
    }

    /** Hand out the front of the buffer. */
    method Deliver(out: array<Byte>, ghost file: seq<Byte>) returns (count: nat)
      requires Valid(file)
      modifies this`pos, this`bufPos, out
      ensures Valid(file) && count == (if |buf| - old(bufPos) < out.Length then |buf| - old(bufPos) else out.Length)
      ensures pos == old(pos) + count && out[..count] == file[old(pos)..pos] && out[count..] == old(out[count..])
    {
      var available := buf[bufPos..];
      count := if |available| < out.Length then |available| else out.Length;
      forall i | 0 <= i < count {
        out[i] := available[i];
      }
      assert out[..count] == available[..count] == file[pos..pos + count];
      assert buf[bufPos + count..] == available[count..];
      bufPos := bufPos + count;
      pos := pos + count;
    }

    /** Fill a prefix of `out`; nothing only at the end of the file or for an empty buffer. */
    method Read(out: array<Byte>, ghost files: Files) returns (n: Outcome<nat>)
      requires ValidReader(reader, files) && (reader.cache.Some? ==> Ready(reader.cache.value, files)) && Valid(files[reader.key])
      modifies this, out, if reader.cache.Some? then {reader.cache.value, reader.cache.value.dir} else {}
      ensures reader.cache.Some? ==> Ready(reader.cache.value, files)
      ensures Valid(files[reader.key])
      ensures Explained(reader, n) && (!n.Done? ==> pos == old(pos)) && (n.NeverReturns? ==> reader.enableDatacache)
      ensures n.Done? ==> n.value <= out.Length && pos == old(pos) + n.value
                          && out[..n.value] == files[reader.key][old(pos)..pos] && out[n.value..] == old(out[n.value..])
      ensures n.Done? ==> (n.value == 0 <==> old(pos) == reader.length || out.Length == 0)
    {
      if pos >= reader.length {
        return Done(0);
      }
      if bufPos >= |buf| {
        var refilled := Refill(files);
        if !refilled.Done? {
          return if refilled.IoFailed? then IoFailed else NeverReturns;
        }
      }
      var count := Deliver(out, files[reader.key]);
      n := Done(count);
    }
  }

  /** No read is longer than asked, and one is empty only for an empty buffer or at the end of the file. */
  ghost predicate ShortOnlyAtEnd(file: seq<Byte>, start: nat, sizes: seq<nat>, chunks: seq<seq<Byte>>)
    requires |chunks| <= |sizes|
  {
    chunks == [] ||
    var n := |chunks| - 1;
    && |chunks[n]| <= sizes[n] && (chunks[n] == [] <==> sizes[n] == 0 || start + |Concat(chunks[..n])| == |file|)
    && ShortOnlyAtEnd(file, start, sizes, chunks[..n])
  }

  /** What the reads delivered: a run of the file from where the stream was opened. */
  ghost predicate Delivered(file: seq<Byte>, start: nat, sizes: seq<nat>, chunks: seq<seq<Byte>>) {
    && |chunks| <= |sizes| && start + |Concat(chunks)| <= |file| && Concat(chunks) == file[start..start + |Concat(chunks)|]
    && ShortOnlyAtEnd(file, start, sizes, chunks)
  }

  lemma DeliveredMore(file: seq<Byte>, start: nat, sizes: seq<nat>, chunks: seq<seq<Byte>>, pos: nat, chunk: seq<Byte>)
    requires Delivered(file, start, sizes, chunks) && |chunks| < |sizes| && |chunk| <= sizes[|chunks|]
    requires pos == start + |Concat(chunks)| && pos + |chunk| <= |file| && chunk == file[pos..pos + |chunk|]
    requires chunk == [] <==> sizes[|chunks|] == 0 || pos == |file|
    ensures Delivered(file, start, sizes, chunks + [chunk]) && pos + |chunk| == start + |Concat(chunks + [chunk])|
  {
    assert (chunks + [chunk])[..|chunks|] == chunks;
    Append(file, start, pos, pos + |chunk|);
  }

  /** For every sequence of buffer sizes, the stream delivers the file from where it was opened. */
  method ReadAll(s: CachedRead, sizes: seq<nat>, ghost files: Files) returns (end: Outcome<()>, chunks: seq<seq<Byte>>)
    requires ValidReader(s.reader, files) && (s.reader.cache.Some? ==> Ready(s.reader.cache.value, files)) && s.Valid(files[s.reader.key])
    modifies s, if s.reader.cache.Some? then {s.reader.cache.value, s.reader.cache.value.dir} else {}
    ensures s.reader.cache.Some? ==> Ready(s.reader.cache.value, files)
    ensures Delivered(files[s.reader.key], old(s.pos), sizes, chunks) && (end.Done? <==> |chunks| == |sizes|)
    ensures Explained(s.reader, end) && (end.NeverReturns? ==> s.reader.enableDatacache)
  {
    ghost var file, start := files[s.reader.key], s.pos;
    chunks := [];
    while |chunks| < |sizes|
      invariant s.reader.cache.Some? ==> Ready(s.reader.cache.value, files)
      invariant s.Valid(file) && Delivered(file, start, sizes, chunks) && s.pos == start + |Concat(chunks)|
      decreases |sizes| - |chunks|
    {
      var out := new Byte[sizes[|chunks|]];
      ghost var pos := s.pos;
      var n := s.Read(out, files);
      if !n.Done? {
        return if n.IoFailed? then IoFailed else NeverReturns, chunks;
      }
      DeliveredMore(file, start, sizes, chunks, pos, out[..n.value]);
      chunks := chunks + [out[..n.value]];
    }
    end := Done(());
  }
}
