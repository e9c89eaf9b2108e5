/**
 The block cache: a keyed store of blocks on disk with an allocator, optional checksums and a
 recency list that decides which block to evict.
 */
module BlockCache {
  import opened Common
  import opened BlockAllocator
  import opened BlockStore

  datatype CacheKey = CacheKey(bytes: seq<Byte>)

  /** The map key: a 64-bit hash of the cache key, and the block's index in its file. */
  datatype BlockKey = BlockKey(cacheId: nat, blockIndex: nat)

  datatype BlockInfo = BlockInfo(cacheKey: CacheKey, block: nat, dataLen: nat, checksums: Option<seq<nat>>)

  datatype BlockEntry = BlockEntry(info: BlockInfo, prev: Option<BlockKey>, next: Option<BlockKey>)

  // ---------------------------------------------------------------------
  // The recency list, as the code maintains it
  // ---------------------------------------------------------------------

  datatype Links = Links(entries: map<BlockKey, BlockEntry>, head: Option<BlockKey>, tail: Option<BlockKey>)

  function SetNext(entries: map<BlockKey, BlockEntry>, at: Option<BlockKey>, next: Option<BlockKey>): map<BlockKey, BlockEntry> {
    if at.Some? && at.value in entries then entries[at.value := entries[at.value].(next := next)] else entries
  }

  function SetPrev(entries: map<BlockKey, BlockEntry>, at: Option<BlockKey>, prev: Option<BlockKey>): map<BlockKey, BlockEntry> {
    if at.Some? && at.value in entries then entries[at.value := entries[at.value].(prev := prev)] else entries
  }

  function Detached(l: Links, key: BlockKey): Links {
    if key !in l.entries then l
    else
      var prev, next := l.entries[key].prev, l.entries[key].next;
      var entries := SetPrev(SetNext(l.entries, prev, next), next, prev);
      Links(if key in entries then entries[key := entries[key].(prev := None, next := None)] else entries,
            if prev.Some? then l.head else next,
            if next.Some? then l.tail else prev)
  }

  function Attached(l: Links, key: BlockKey): Links {
    var entries := if key in l.entries then l.entries[key := l.entries[key].(prev := l.tail, next := None)] else l.entries;
    Links(SetNext(entries, l.tail, Some(key)), if l.tail.Some? then l.head else Some(key), Some(key))
  }

  function Touched(l: Links, key: BlockKey): Links {
    if l.tail == Some(key) then l else Attached(Detached(l, key), key)
  }

  /** Same keys, same information; only the links may differ. */
  ghost predicate SameInfo(a: map<BlockKey, BlockEntry>, b: map<BlockKey, BlockEntry>) {
    a.Keys == b.Keys && forall k :: k in a ==> a[k].info == b[k].info
  }

  lemma DetachedInfo(l: Links, key: BlockKey)
    ensures SameInfo(l.entries, Detached(l, key).entries)
  {
  }

  lemma AttachedInfo(l: Links, key: BlockKey)
    ensures SameInfo(l.entries, Attached(l, key).entries)
  {
  }

  lemma TouchedInfo(l: Links, key: BlockKey)
    ensures SameInfo(l.entries, Touched(l, key).entries)
  {
    DetachedInfo(l, key);
    AttachedInfo(Detached(l, key), key);
  }

  // ---------------------------------------------------------------------
  // What a stored entry guarantees
  // ---------------------------------------------------------------------

  datatype Config = Config(
    geometry: Geometry, slice: nat, enableChecksum: bool,
    crc: seq<Byte> -> nat, cacheId: CacheKey -> nat)

  ghost predicate ValidConfig(c: Config) {
    && ValidGeometry(c.geometry) && c.slice > 0
    && (c.enableChecksum ==> c.geometry.blockSize % c.slice == 0)
  }

  function KeyOf(c: Config, key: CacheKey, index: nat): BlockKey {
    BlockKey(c.cacheId(key), index)
  }

  function ChecksumsOf(c: Config, data: seq<Byte>): Option<seq<nat>>
    requires c.slice > 0
  {
    if c.enableChecksum then Some(Checksums(c.crc, data, c.slice, c.geometry.blockSize)) else None
  }

  /** The entry's block holds `data`, and its length and checksums describe it. */
  ghost predicate Describes(c: Config, disk: Disk, info: BlockInfo, data: seq<Byte>)
    requires ValidConfig(c)
  {
    && 0 < |data| == info.dataLen <= c.geometry.blockSize
    && Addressable(c.geometry, info.block) && Stores(c.geometry, disk, info.block, data)
    && info.checksums == ChecksumsOf(c, data)
  }

  type Written = map<(CacheKey, nat), seq<Byte>>

  /** The entry under `k` is filed under its own hash and holds the last bytes written for it. */
  ghost predicate ValidEntry(c: Config, disk: Disk, written: Written, k: BlockKey, info: BlockInfo)
    requires ValidConfig(c)
  {
    && k == KeyOf(c, info.cacheKey, k.blockIndex)
    && (info.cacheKey, k.blockIndex) in written
    && Describes(c, disk, info, written[(info.cacheKey, k.blockIndex)])
  }

  ghost predicate ValidEntries(c: Config, disk: Disk, written: Written, entries: map<BlockKey, BlockEntry>)
    requires ValidConfig(c)
  {
    forall k :: k in entries ==> ValidEntry(c, disk, written, k, entries[k].info)
  }

  /** Entries own pairwise distinct blocks; those and `extra` are exactly the allocated ones. */
  ghost predicate Owns(entries: map<BlockKey, BlockEntry>, free: set<nat>, total: nat, extra: set<nat>) {
    && (forall k :: k in entries ==> entries[k].info.block < total && entries[k].info.block !in free && entries[k].info.block !in extra)
    && (forall k, k' :: k in entries && k' in entries && k != k' ==> entries[k].info.block != entries[k'].info.block)
    && (forall b :: 0 <= b < total && b !in free && b !in extra ==> Owned(entries, b))
    && (forall b :: b in extra ==> b < total && b !in free)
  }

  ghost predicate Owned(entries: map<BlockKey, BlockEntry>, b: nat) {
    exists k :: k in entries && entries[k].info.block == b
  }

  lemma OwnsSameInfo(a: map<BlockKey, BlockEntry>, b: map<BlockKey, BlockEntry>, free: set<nat>, total: nat, extra: set<nat>)
    requires SameInfo(a, b) && Owns(a, free, total, extra)
    ensures Owns(b, free, total, extra)
  {
    forall x | 0 <= x < total && x !in free && x !in extra
      ensures Owned(b, x)
    {
      assert Owned(a, x);
      var k :| k in a && a[k].info.block == x;
      assert b[k].info.block == x;
    }
  }

  lemma EntriesSameInfo(c: Config, disk: Disk, written: Written, a: map<BlockKey, BlockEntry>, b: map<BlockKey, BlockEntry>)
    requires ValidConfig(c) && SameInfo(a, b) && ValidEntries(c, disk, written, a)
    ensures ValidEntries(c, disk, written, b)
  {
    forall k | k in b
      ensures ValidEntry(c, disk, written, k, b[k].info)
    {
      assert ValidEntry(c, disk, written, k, a[k].info);
    }
  }

  lemma OwnsRemoved(entries: map<BlockKey, BlockEntry>, free: set<nat>, total: nat, key: BlockKey)
    requires Owns(entries, free, total, {}) && key in entries
    ensures Owns(entries - {key}, free + {entries[key].info.block}, total, {})
  {
    var left, free' := entries - {key}, free + {entries[key].info.block};
    forall b | 0 <= b < total && b !in free'
      ensures Owned(left, b)
    {
      assert Owned(entries, b);
      var k :| k in entries && entries[k].info.block == b;
      assert left[k].info.block == b;
    }
  }

  lemma OwnsAllocated(entries: map<BlockKey, BlockEntry>, free: set<nat>, total: nat, b: nat)
    requires Owns(entries, free, total, {}) && b in free && b < total
    ensures Owns(entries, free - {b}, total, {b})
  {
  }

  lemma OwnsInserted(entries: map<BlockKey, BlockEntry>, free: set<nat>, total: nat, key: BlockKey, e: BlockEntry)
    requires Owns(entries, free, total, {e.info.block}) && key !in entries
    ensures Owns(entries[key := e], free, total, {})
  {
    var all := entries[key := e];
    forall b | 0 <= b < total && b !in free
      ensures Owned(all, b)
    {
      if b == e.info.block {
        assert all[key].info.block == b;
      } else {
        assert Owned(entries, b);
        var k :| k in entries && entries[k].info.block == b;
        assert all[k].info.block == b;
      }
    }
  }

  lemma OwnsReturned(entries: map<BlockKey, BlockEntry>, free: set<nat>, total: nat, b: nat)
    requires Owns(entries, free, total, {b})
    ensures Owns(entries, free + {b}, total, {})
  {
  }

  // ---------------------------------------------------------------------
  // The eviction loop
  // ---------------------------------------------------------------------

  datatype LoopState = LoopState(entries: map<BlockKey, BlockEntry>, head: Option<BlockKey>, free: set<nat>)

  /** One turn of the loop with nothing free: drop the head's entry, if it has one. */
  function EvictTurn(s: LoopState): LoopState
    requires s.head.Some?
  {
    if s.head.value in s.entries then
      s.(entries := s.entries - {s.head.value}, free := s.free + {s.entries[s.head.value].info.block})
    else s
  }

  function EvictTurns(s: LoopState, n: nat): LoopState
    requires s.head.Some?
    decreases n
  {
    if n == 0 then s else EvictTurns(EvictTurn(s), n - 1)
  }

  /**
   With no free block and a head to try, the loop finds a block if and only if the head still
   has an entry; then one turn is enough, and otherwise no number of turns is.
   */
  lemma {:induction false} EvictionEndsExactly(s: LoopState)
    requires s.free == {} && s.head.Some?
    ensures (exists n: nat :: EvictTurns(s, n).free != {}) <==> s.head.value in s.entries
    ensures s.head.value in s.entries ==> EvictTurns(s, 1).free == {s.entries[s.head.value].info.block}
    ensures s.head.value !in s.entries ==> forall n: nat :: EvictTurns(s, n) == s
  {
    if s.head.value in s.entries {
      assert EvictTurns(s, 1) == EvictTurns(EvictTurn(s), 0) == EvictTurn(s);
      assert s.entries[s.head.value].info.block in EvictTurns(s, 1).free;
    } else {
      forall n: nat
        ensures EvictTurns(s, n) == s
      {
        StuckTurns(s, n);
      }
    }
  }

  /** No number of turns frees a block. */
  ghost predicate NeverEnds(s: LoopState) {
    s.head.Some? && forall n: nat :: EvictTurns(s, n).free == {}
  }

  lemma EvictionNeverEnds(s: LoopState)
    requires s.free == {} && s.head.Some?
    ensures NeverEnds(s) <==> s.head.value !in s.entries
  {
    EvictionEndsExactly(s);
  }

  lemma {:induction false} StuckTurns(s: LoopState, n: nat)
    requires s.head.Some? && s.head.value !in s.entries
    ensures EvictTurns(s, n) == s
  {
    if n > 0 {
      StuckTurns(s, n - 1);
    }
  }

  // ---------------------------------------------------------------------
  // The cache object
  // ---------------------------------------------------------------------

  /** `Hung` is a call that never returns. */
  datatype Allocation = Allocated(block: nat) | CannotEvict | Hung

  datatype WriteResult = Stored | NoRoom | IoError | Stuck

  /** `Panic` is the slice-out-of-range abort inside checksum verification. */
  datatype ReadResult = Hit(bytes: seq<Byte>) | Miss | Panic

  class Cache {
    const config: Config
    const dir: CacheDir
    var entries: map<BlockKey, BlockEntry>
    var head: Option<BlockKey>
    var tail: Option<BlockKey>
    var disk: Disk

    /** The last bytes stored for every file block, evicted or not. */
    ghost var written: Written

    ghost predicate Consistent(extra: set<nat>)
      reads this, dir
    {
      && ValidConfig(config) && dir.Valid()
      && ValidEntries(config, disk, written, entries)
      && Owns(entries, dir.Free(), dir.total, extra)
    }

    ghost predicate Valid()
      reads this, dir
    {
      Consistent({})
    }

    ghost predicate Resident(key: CacheKey, index: nat)
      reads this
    {
      var k := KeyOf(config, key, index);
      k in entries && entries[k].info.cacheKey == key
    }

    /** Nothing is free, and the head names a key without an entry. */
    ghost predicate Wedged()
      reads this, dir
    {
      dir.Free() == {} && head.Some? && head.value !in entries
    }

    constructor (config: Config, total: nat)
      requires ValidConfig(config)
      ensures Valid() && entries == map[] && written == map[] && head == None && tail == None
      ensures this.config == config && fresh(dir) && dir.total == total && dir.Free() == Upto(total)
    {
      this.config := config;
      dir := new CacheDir(config.geometry.blockSize, total);
      entries, head, tail, disk, written := map[], None, None, map[], map[];
      new;
      assert Owns(entries, dir.Free(), dir.total, {});
    }

    method Touch(key: BlockKey, ghost extra: set<nat>)
      requires Consistent(extra)
      modifies this`entries, this`head, this`tail
      ensures Consistent(extra) && SameInfo(old(entries), entries)
      ensures Links(entries, head, tail) == Touched(old(Links(entries, head, tail)), key)
    {
      ghost var before := Links(entries, head, tail);
      TouchedInfo(before, key);
      OwnsSameInfo(entries, Touched(before, key).entries, dir.Free(), dir.total, extra);
      EntriesSameInfo(config, disk, written, entries, Touched(before, key).entries);
      if tail == Some(key) {
        return;
      }
      var l := Attached(Detached(Links(entries, head, tail), key), key);
      entries, head, tail := l.entries, l.head, l.tail;
    }

    /** The entry leaves the map before it is detached, so head and tail stay as they were. */
    method RemoveEntry(key: BlockKey)
      requires Valid()
      modifies this`entries, dir
      ensures Valid() && entries == old(entries) - {key}
      ensures dir.Free() == old(dir.Free()) + (if key in old(entries) then {old(entries)[key].info.block} else {})
    {
      if key in entries {
        OwnsRemoved(entries, dir.Free(), dir.total, key);
        var block := entries[key].info.block;
        entries := entries - {key};
        dir.FreeBlock(block);
      } else {
        assert entries - {key} == entries;
      }
    }

    /** A free block, or the block of the head's entry; `Hung` when the head has no entry. */
    method AllocateBlock() returns (r: Allocation)
      requires Valid()
      modifies this`entries, dir
      ensures r.Allocated? ==> Consistent({r.block})
      ensures !r.Allocated? ==> Valid() && entries == old(entries)
      ensures r == CannotEvict <==> old(dir.Free()) == {} && head == None
      ensures r == Hung <==> old(Wedged())
      ensures r == Hung ==> Wedged() && NeverEnds(LoopState(entries, head, {}))
      ensures entries == if old(dir.Free()) == {} && head.Some? then old(entries) - {head.value} else old(entries)
      ensures r.Allocated? && old(dir.Free()) == {} ==>
                head.Some? && head.value in old(entries) && r.block == old(entries)[head.value].info.block && dir.Free() == {}
      ensures old(dir.Free()) != {} ==> r.Allocated? && r.block in old(dir.Free()) && dir.Free() == old(dir.Free()) - {r.block}
    {
      var first := dir.AllocBlock();
      if first.Some? {
        OwnsAllocated(entries, old(dir.Free()), dir.total, first.value);
        return Allocated(first.value);
      }
      if head.None? {
        return CannotEvict;
      }
      r := EvictHead();
    }

    /** The loop's turn with nothing free; when the head has no entry, no later turn differs from this one. */
    method EvictHead() returns (r: Allocation)
      requires Valid() && dir.Free() == {} && head.Some?
      modifies this`entries, dir
      ensures entries == old(entries) - {head.value} && dir.Free() == {}
      ensures head.value in old(entries) ==> r == Allocated(old(entries)[head.value].info.block) && Consistent({r.block})
      ensures head.value !in old(entries) ==>
                r == Hung && Valid() && entries == old(entries) && NeverEnds(LoopState(entries, head, {}))
    {
      EvictionNeverEnds(LoopState(entries, head, {}));
      RemoveEntry(head.value);
      ghost var free := dir.Free();
      var block := dir.AllocBlock();
      if block.Some? {
        OwnsAllocated(entries, free, dir.total, block.value);
        return Allocated(block.value);
      }
      return Hung;
    }

    /** Record a block just written under a key that has no entry. */
    method InsertNew(k: BlockKey, info: BlockInfo)
      requires Consistent({info.block}) && k !in entries && ValidEntry(config, disk, written, k, info)
      modifies this`entries, this`head, this`tail
      ensures Valid() && k in entries && entries[k].info == info
      ensures Extends(old(entries), entries, k)
      ensures head == (if old(tail).Some? then old(head) else Some(k)) && tail == Some(k)
    {
      InsertedOwns(entries, head, tail, k, info, dir.Free(), dir.total);
      InsertedEntries(config, disk, written, entries, head, tail, k, info);
      var l := WithNew(entries, head, tail, k, info);
      entries, head, tail := l.entries, l.head, l.tail;
    }

    /** Write into a freshly allocated block and file it. */
    method StoreNew(key: CacheKey, index: nat, data: seq<Byte>, block: nat) returns (r: WriteResult)
      requires Consistent({block}) && KeyOf(config, key, index) !in entries && 0 < |data| <= config.geometry.blockSize
      modifies this, dir
      ensures Valid() && (r == Stored || r == IoError) && (r == Stored <==> Addressable(config.geometry, block))
      ensures r == Stored ==> written == old(written)[(key, index) := data] && Resident(key, index)
                              && Extends(old(entries), entries, KeyOf(config, key, index))
      ensures r == IoError ==> written == old(written) && entries == old(entries)
      ensures r == Stored ==> dir.Free() == old(dir.Free()) && tail == Some(KeyOf(config, key, index))
      ensures head == if r == Stored && old(tail).None? then Some(KeyOf(config, key, index)) else old(head)
    {
      if !Addressable(config.geometry, block) {
        OwnsReturned(entries, dir.Free(), dir.total, block);
        dir.FreeBlock(block);
        return IoError;
      }
      var sums := MakeChecksums(data);
      StoreKeepsOthers(config, disk, written, entries, key, index, data, block);
      disk := WriteBlock(config.geometry, disk, block, data);
      written := written[(key, index) := data];
      InsertNew(KeyOf(config, key, index), BlockInfo(key, block, |data|, sums));
      return Stored;
    }

    method MakeChecksums(data: seq<Byte>) returns (sums: Option<seq<nat>>)
      requires ValidConfig(config)
      ensures sums == ChecksumsOf(config, data)
    {
      if config.enableChecksum {
        var out := ComputeChecksums(config.crc, data, config.slice, config.geometry.blockSize);
        return Some(out);
      }
      return None;
    }

    /** Overwrite the block a resident key already has. */
    method StoreOver(key: CacheKey, index: nat, data: seq<Byte>)
      requires Valid() && Resident(key, index) && 0 < |data| <= config.geometry.blockSize
      modifies this
      ensures Valid() && Resident(key, index) && written == old(written)[(key, index) := data]
      ensures entries.Keys == old(entries).Keys
      ensures forall j :: j in old(entries) && j != KeyOf(config, key, index) ==> entries[j].info == old(entries)[j].info
    {
      var k := KeyOf(config, key, index);
      var block := entries[k].info.block;
      Touch(k, {});
      Rewrite(k, block, key, data);
      Touch(k, {});
    }

    method Rewrite(k: BlockKey, block: nat, key: CacheKey, data: seq<Byte>)
      requires Valid() && k in entries && entries[k].info.cacheKey == key && entries[k].info.block == block
      requires 0 < |data| <= config.geometry.blockSize
      modifies this`disk, this`written, this`entries
      ensures Valid() && written == old(written)[(key, k.blockIndex) := data]
      ensures entries.Keys == old(entries).Keys && entries[k].info.cacheKey == key
      ensures forall j :: j in old(entries) && j != k ==> entries[j] == old(entries)[j]
    {
      var sums := MakeChecksums(data);
      var info := BlockInfo(key, block, |data|, sums);
      OverKeepsOthers(config, disk, written, entries, k, key, data, info, dir.Free(), dir.total);
      Install(WriteBlock(config.geometry, disk, block, data), entries[k := entries[k].(info := info)], written[(key, k.blockIndex) := data]);
    }

    method Install(disk': Disk, entries': map<BlockKey, BlockEntry>, ghost written': Written)
      requires Valid() && ValidEntries(config, disk', written', entries') && Owns(entries', dir.Free(), dir.total, {})
      modifies this`disk, this`written, this`entries
      ensures Valid() && disk == disk' && entries == entries' && written == written'
    {
      disk, entries := disk', entries';
      written := written';
    }

    /** Allocate a block for a key without an entry and store into it. */
    method WriteNew(key: CacheKey, index: nat, data: seq<Byte>) returns (r: WriteResult)
      requires Valid() && KeyOf(config, key, index) !in entries && 0 < |data| <= config.geometry.blockSize
      modifies this, dir
      ensures Valid()
      ensures r == Stored ==> written == old(written)[(key, index) := data] && Resident(key, index)
      ensures r != Stored ==> written == old(written) && KeyOf(config, key, index) !in entries
      ensures OnlyAdds(old(entries), entries, KeyOf(config, key, index))
      ensures forall j :: j in old(entries) && j !in entries ==> old(dir.Free()) == {} && old(head) == Some(j)
      ensures r == NoRoom <==> old(dir.Free()) == {} && old(head) == None
      ensures (r == Stuck <==> old(Wedged())) && (r == Stuck ==> Wedged())
      ensures r == IoError ==> old(dir.Free()) != {} && !AllAddressable(config.geometry, dir.total)
      ensures r == Stored && old(dir.Free()) == {} ==>
                dir.Free() == {} && old(head).Some? && (old(tail).Some? ==> head == old(head) && head.value !in entries)
      ensures r == Stored && old(dir.Free()) != {} ==>
                dir.Free() < old(dir.Free()) && tail.Some? && (old(tail).None? ==> head == Some(KeyOf(config, key, index)))
    {
      var allocation := AllocateBlock();
      if allocation.CannotEvict? {
        return NoRoom;
      }
      if allocation.Hung? {
        return Stuck;
      }
      assert old(dir.Free()) == {} ==> ValidEntry(config, old(disk), old(written), old(head).value, old(entries)[old(head).value].info);
      ghost var middle := entries;
      r := StoreNew(key, index, data, allocation.block);
      AddedAfterDrop(old(entries), middle, entries, KeyOf(config, key, index), old(dir.Free()), old(head));
    }

    /** Store a block: over its own old contents, or in a new block, dropping a colliding key first. */
    method WriteSync(key: CacheKey, index: nat, data: seq<Byte>) returns (r: WriteResult)
      requires Valid() && 0 < |data| <= config.geometry.blockSize
      modifies this, dir
      ensures Valid()
      ensures r == Stored ==> written == old(written)[(key, index) := data] && Resident(key, index)
      ensures r != Stored ==> written == old(written) && KeyOf(config, key, index) !in entries
      ensures OnlyAdds(old(entries), entries, KeyOf(config, key, index))
      ensures forall j :: j in old(entries) && j !in entries ==>
                j == KeyOf(config, key, index) || (old(dir.Free()) == {} && old(head) == Some(j))
      ensures old(Resident(key, index)) ==> r == Stored
      ensures r == NoRoom <==> KeyOf(config, key, index) !in old(entries) && old(dir.Free()) == {} && old(head) == None
      ensures (r == Stuck <==> KeyOf(config, key, index) !in old(entries) && old(Wedged())) && (r == Stuck ==> Wedged())
      ensures r == IoError ==> !AllAddressable(config.geometry, dir.total)
      ensures KeyOf(config, key, index) !in old(entries) && old(dir.Free()) == {} && old(head).Some? && old(head).value in old(entries) ==>
                r == Stored && dir.Free() == {} && (old(tail).Some? ==> head == old(head) && head.value !in entries)
    {
      var k := KeyOf(config, key, index);
      if k !in entries {
        r := WriteNew(key, index, data);
        return;
      }
      if entries[k].info.cacheKey == key {
        StoreOver(key, index, data);
        return Stored;
      }
      RemoveEntry(k);
      r := WriteNew(key, index, data);
    }

    method Write(key: CacheKey, index: nat, data: seq<Byte>) returns (r: WriteResult)
      requires Valid() && |data| <= config.geometry.blockSize
      modifies this, dir
      ensures Valid() && OnlyAdds(old(entries), entries, KeyOf(config, key, index))
      ensures data == [] ==> r == Stored && written == old(written) && entries == old(entries)
      ensures data != [] && r == Stored ==> written == old(written)[(key, index) := data] && Resident(key, index)
      ensures r != Stored ==> written == old(written) && KeyOf(config, key, index) !in entries
      ensures data == [] || old(Resident(key, index)) ==> r == Stored
      ensures r == NoRoom <==> data != [] && KeyOf(config, key, index) !in old(entries) && old(dir.Free()) == {} && old(head) == None
      ensures (r == Stuck <==> data != [] && KeyOf(config, key, index) !in old(entries) && old(Wedged())) && (r == Stuck ==> Wedged())
      ensures r == IoError ==> !AllAddressable(config.geometry, dir.total)
    {
      if data == [] {
        return Stored;
      }
      r := WriteSync(key, index, data);
    }

    /** Read the first `size` bytes of a block. */
    method Read(key: CacheKey, index: nat, size: nat) returns (r: ReadResult)
      requires Valid()
      modifies this, dir
      ensures Valid() && written == old(written) && OnlyDrops(old(entries), entries)
      ensures size == 0 ==> r == Hit([])
      ensures size > 0 && !old(Resident(key, index)) ==> r == Miss
      ensures size > 0 && old(Resident(key, index)) ==>
                (key, index) in written &&
                var data := written[(key, index)];
                r == if size > |data| then Miss
                     else if config.enableChecksum && size < |data| then Panic
                     else Hit(data[..size])
      ensures size > 0 && r.Hit? ==> Resident(key, index)
      ensures KeyOf(config, key, index) !in old(entries) ==> entries == old(entries) && head == old(head) && dir.Free() == old(dir.Free())
      ensures size > 0 && KeyOf(config, key, index) in old(entries) && !old(Resident(key, index)) ==> dir.Free() != {}
    {
      if size == 0 {
        return Hit([]);
      }
      var k := KeyOf(config, key, index);
      if k !in entries {
        return Miss;
      }
      if entries[k].info.cacheKey != key {
        RemoveEntry(k);
        return Miss;
      }
      assert ValidEntry(config, disk, written, k, entries[k].info);
      r := ReadResident(k, size, written[(key, index)]);
    }

    /** Touch a resident entry, then read it, dropping it when it is too short. */
    method ReadResident(k: BlockKey, size: nat, ghost data: seq<Byte>) returns (r: ReadResult)
      requires Valid() && k in entries && size > 0
      requires (entries[k].info.cacheKey, k.blockIndex) in written && data == written[(entries[k].info.cacheKey, k.blockIndex)]
      modifies this`entries, this`head, this`tail, dir
      ensures Valid() && OnlyDrops(old(entries), entries)
      ensures r == if size > |data| then Miss
                   else if config.enableChecksum && size < |data| then Panic
                   else Hit(data[..size])
      ensures r.Hit? ==> k in entries
    {
      assert ValidEntry(config, disk, written, k, entries[k].info);
      Touch(k, {});
      if size > entries[k].info.dataLen {
        RemoveEntry(k);
        return Miss;
      }
      r := ReadEntry(k, size, data);
    }

    /** The disk read and the checksum check of a resident entry. */
    method ReadEntry(k: BlockKey, size: nat, ghost data: seq<Byte>) returns (r: ReadResult)
      requires Valid() && k in entries && Describes(config, disk, entries[k].info, data) && 0 < size <= |data|
      ensures r == if config.enableChecksum && size < |data| then Panic else Hit(data[..size])
    {
      var info := entries[k].info;
      assert forall i :: 0 <= i < size ==> Address(config.geometry, info.block, i) in disk;
      var bytes := ReadBlock(config.geometry, disk, info.block, size);
      if bytes.None? {
        assert false; // unreachable: the disk holds what was written
      }
      StoresUnique(config.geometry, disk, info.block, bytes.value, data[..size]);
      if config.enableChecksum {
        VerifyUnmodified(config.crc, data, size, config.slice, config.geometry.blockSize);
        var verdict := VerifyChecksums(config.crc, bytes.value, info.dataLen, config.slice, info.checksums.value);
        if verdict == OutOfBounds {
          return Panic;
        }
        if verdict == Mismatch {
          assert false; // unreachable: the disk holds what was written
        }
      }
      r := Hit(bytes.value);
    }
  }

  /** Nothing but `k` is new, and whatever else stayed is unchanged. */
  ghost predicate OnlyAdds(before: map<BlockKey, BlockEntry>, after: map<BlockKey, BlockEntry>, k: BlockKey) {
    forall j :: j in after && j != k ==> j in before && after[j].info == before[j].info
  }

  /** Just `k` is new, and whatever was there is unchanged. */
  ghost predicate Extends(before: map<BlockKey, BlockEntry>, after: map<BlockKey, BlockEntry>, k: BlockKey) {
    after.Keys == before.Keys + {k} && forall j :: j in before ==> after[j].info == before[j].info
  }

  /** Nothing is new, and whatever stayed is unchanged. */
  ghost predicate OnlyDrops(before: map<BlockKey, BlockEntry>, after: map<BlockKey, BlockEntry>) {
    forall j :: j in after ==> j in before && after[j].info == before[j].info
  }

  lemma AddedAfterDrop(before: map<BlockKey, BlockEntry>, middle: map<BlockKey, BlockEntry>, after: map<BlockKey, BlockEntry>,
                       k: BlockKey, free: set<nat>, head: Option<BlockKey>)
    requires middle == if free == {} && head.Some? then before - {head.value} else before
    requires after == middle || Extends(middle, after, k)
    ensures OnlyAdds(before, after, k)
    ensures forall j :: j in before && j !in after ==> free == {} && head == Some(j)
    ensures free == {} && head.Some? && head.value != k ==> head.value !in after
  {
  }

  /** A new entry put into the map and attached behind the tail. */
  function WithNew(entries: map<BlockKey, BlockEntry>, head: Option<BlockKey>, tail: Option<BlockKey>, k: BlockKey, info: BlockInfo): Links {
    Attached(Links(entries[k := BlockEntry(info, None, None)], head, tail), k)
  }

  lemma InsertedOwns(entries: map<BlockKey, BlockEntry>, head: Option<BlockKey>, tail: Option<BlockKey>, k: BlockKey, info: BlockInfo,
                     free: set<nat>, total: nat)
    requires k !in entries && Owns(entries, free, total, {info.block})
    ensures var l := WithNew(entries, head, tail, k, info);
            && Owns(l.entries, free, total, {}) && Extends(entries, l.entries, k) && l.entries[k].info == info
            && l.head == (if tail.Some? then head else Some(k)) && l.tail == Some(k)
  {
    var all := entries[k := BlockEntry(info, None, None)];
    OwnsInserted(entries, free, total, k, BlockEntry(info, None, None));
    AttachedInfo(Links(all, head, tail), k);
    OwnsSameInfo(all, WithNew(entries, head, tail, k, info).entries, free, total, {});
  }

  lemma InsertedEntries(c: Config, disk: Disk, written: Written, entries: map<BlockKey, BlockEntry>,
                        head: Option<BlockKey>, tail: Option<BlockKey>, k: BlockKey, info: BlockInfo)
    requires ValidConfig(c) && ValidEntries(c, disk, written, entries) && ValidEntry(c, disk, written, k, info)
    ensures ValidEntries(c, disk, written, WithNew(entries, head, tail, k, info).entries)
  {
    var all := entries[k := BlockEntry(info, None, None)];
    assert ValidEntries(c, disk, written, all);
    AttachedInfo(Links(all, head, tail), k);
    EntriesSameInfo(c, disk, written, all, WithNew(entries, head, tail, k, info).entries);
  }

  lemma StoreKeepsOthers(c: Config, disk: Disk, written: Written, entries: map<BlockKey, BlockEntry>,
                         key: CacheKey, index: nat, data: seq<Byte>, block: nat)
    requires ValidConfig(c) && ValidEntries(c, disk, written, entries)
    requires KeyOf(c, key, index) !in entries && 0 < |data| <= c.geometry.blockSize && Addressable(c.geometry, block)
    requires forall k :: k in entries ==> entries[k].info.block != block
    ensures var disk', written' := WriteBlock(c.geometry, disk, block, data), written[(key, index) := data];
            && ValidEntries(c, disk', written', entries)
            && ValidEntry(c, disk', written', KeyOf(c, key, index), BlockInfo(key, block, |data|, ChecksumsOf(c, data)))
  {
    var disk', written' := WriteBlock(c.geometry, disk, block, data), written[(key, index) := data];
    WriteStores(c.geometry, disk, block, data);
    forall k | k in entries
      ensures ValidEntry(c, disk', written', k, entries[k].info)
    {
      var info := entries[k].info;
      assert ValidEntry(c, disk, written, k, info);
      assert (info.cacheKey, k.blockIndex) != (key, index);
      WriteElsewhere(c.geometry, disk, block, data, info.block, written[(info.cacheKey, k.blockIndex)]);
    }
  }

  lemma OverKeepsOthers(c: Config, disk: Disk, written: Written, entries: map<BlockKey, BlockEntry>, k: BlockKey,
                        key: CacheKey, data: seq<Byte>, info: BlockInfo, free: set<nat>, total: nat)
    requires ValidConfig(c) && ValidEntries(c, disk, written, entries) && Owns(entries, free, total, {})
    requires k in entries && entries[k].info.cacheKey == key && 0 < |data| <= c.geometry.blockSize
    requires info == BlockInfo(key, entries[k].info.block, |data|, ChecksumsOf(c, data))
    ensures var disk', written' := WriteBlock(c.geometry, disk, info.block, data), written[(key, k.blockIndex) := data];
            var entries' := entries[k := entries[k].(info := info)];
            ValidEntries(c, disk', written', entries') && Owns(entries', free, total, {})
  {
    var disk', written' := WriteBlock(c.geometry, disk, info.block, data), written[(key, k.blockIndex) := data];
    var entries' := entries[k := entries[k].(info := info)];
    assert ValidEntry(c, disk, written, k, entries[k].info);
    WriteStores(c.geometry, disk, info.block, data);
    forall j | j in entries'
      ensures ValidEntry(c, disk', written', j, entries'[j].info)
    {
      if j != k {
        var other := entries[j].info;
        assert ValidEntry(c, disk, written, j, other);
        assert (other.cacheKey, j.blockIndex) != (key, k.blockIndex);
        WriteElsewhere(c.geometry, disk, info.block, data, other.block, written[(other.cacheKey, j.blockIndex)]);
      }
    }
    OwnsSameBlocks(entries, k, info, free, total);
  }

  lemma OwnsSameBlocks(entries: map<BlockKey, BlockEntry>, k: BlockKey, info: BlockInfo, free: set<nat>, total: nat)
    requires Owns(entries, free, total, {}) && k in entries && info.block == entries[k].info.block
    ensures Owns(entries[k := entries[k].(info := info)], free, total, {})
  {
    var entries' := entries[k := entries[k].(info := info)];
    forall b | 0 <= b < total && b !in free
      ensures Owned(entries', b)
    {
      assert Owned(entries, b);
      var j :| j in entries && entries[j].info.block == b;
      assert entries'[j].info.block == b;
    }
  }

  /**
   Evicting from a full cache leaves the head naming the evicted key, so the next write of
   another new key never returns.
   */
  method SecondEvictionHangs(c: Cache, a: CacheKey, i: nat, x: seq<Byte>, b: CacheKey, j: nat, y: seq<Byte>)
    returns (first: WriteResult, second: WriteResult)
    requires c.Valid() && c.dir.Free() == {} && c.tail.Some? && c.head.Some? && c.head.value in c.entries
    requires 0 < |x| <= c.config.geometry.blockSize && 0 < |y| <= c.config.geometry.blockSize
    requires KeyOf(c.config, a, i) !in c.entries && KeyOf(c.config, b, j) !in c.entries
    requires KeyOf(c.config, a, i) != KeyOf(c.config, b, j)
    modifies c, c.dir
    ensures first == Stored && second == Stuck
  {
    first := c.WriteSync(a, i, x);
    second := c.WriteSync(b, j, y);
  }

  /** The first write into an empty one-block cache fills it. */
  method FillOneBlock(config: Config, a: CacheKey, x: seq<Byte>) returns (c: Cache)
    requires ValidConfig(config) && Addressable(config.geometry, 0) && 0 < |x| <= config.geometry.blockSize
    ensures fresh(c) && fresh(c.dir) && c.config == config && c.Valid() && c.dir.Free() == {}
    ensures c.head == Some(KeyOf(config, a, 0)) && c.tail.Some? && c.Resident(a, 0) && OnlyAdds(map[], c.entries, KeyOf(config, a, 0))
  {
    c := new Cache(config, 1);
    assert c.dir.Free() == Upto(1) == {0} && AllAddressable(config.geometry, 1);
    var stored := c.WriteNew(a, 0, x);
  }

  /** From an empty one-block cache: the third new key hangs. */
  method ThirdWriteHangs(config: Config, a: CacheKey, b: CacheKey, d: CacheKey, x: seq<Byte>) returns (r: WriteResult)
    requires ValidConfig(config) && Addressable(config.geometry, 0) && 0 < |x| <= config.geometry.blockSize
    requires config.cacheId(a) != config.cacheId(b) && config.cacheId(a) != config.cacheId(d) && config.cacheId(b) != config.cacheId(d)
    ensures r == Stuck
  {
    var c := FillOneBlock(config, a, x);
    var _, second := SecondEvictionHangs(c, b, 0, x, d, 0, x);
    r := second;
  }
}
