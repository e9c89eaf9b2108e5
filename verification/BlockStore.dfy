/** Bytes on disk and the per-slice checksums of the block cache. */
module BlockStore {
  import opened Common
  import opened BlockAllocator

  // ---------------------------------------------------------------------
  // Checksums
  // ---------------------------------------------------------------------

  function MinNat(a: nat, b: nat): nat {
    if a < b then a else b
  }

  /** The checksum of slice `i`; slices wholly past the data get zero. */
  function SliceChecksum(crc: seq<Byte> -> nat, data: seq<Byte>, slice: nat, i: nat): nat {
    var start := i * slice;
    if start >= |data| then 0 else crc(data[start..MinNat(start + slice, |data|)])
  }

  function Checksums(crc: seq<Byte> -> nat, data: seq<Byte>, slice: nat, blockSize: nat): seq<nat>
    requires slice > 0
  {
    seq(blockSize / slice, i requires 0 <= i => SliceChecksum(crc, data, slice, i))
  }

  method ComputeChecksums(crc: seq<Byte> -> nat, data: seq<Byte>, slice: nat, blockSize: nat) returns (out: seq<nat>)
    requires slice > 0
    ensures out == Checksums(crc, data, slice, blockSize)
  {
    out := [];
    var count := blockSize / slice;
    for i := 0 to count
      invariant out == Checksums(crc, data, slice, blockSize)[..i]
    {
      var start := i * slice;
      if start >= |data| {
        out := out + [0];
      } else {
        out := out + [crc(data[start..MinNat(start + slice, |data|)])];
      }
    }
  }

  /** `OutOfBounds` is the panic of slicing past the bytes that were read. */
  datatype Verdict = Passed | Mismatch | OutOfBounds

  /** Checking slices from `i` on. */
  function VerifyFrom(crc: seq<Byte> -> nat, data: seq<Byte>, dataLen: nat, slice: nat, expected: seq<nat>, i: nat): Verdict
    requires slice > 0 && i <= |expected|
    decreases |expected| - i
  {
    if i == |expected| || i * slice >= dataLen then Passed
    else
      var start, end := i * slice, MinNat(i * slice + slice, dataLen);
      if end > |data| then OutOfBounds
      else if crc(data[start..end]) != expected[i] then Mismatch
      else VerifyFrom(crc, data, dataLen, slice, expected, i + 1)
  }

  /** Slice `i` starts past the data, or was read in full and has the expected checksum. */
  predicate SliceMatches(crc: seq<Byte> -> nat, data: seq<Byte>, dataLen: nat, slice: nat, expected: seq<nat>, i: nat)
    requires i < |expected|
  {
    var start, end := i * slice, MinNat(i * slice + slice, dataLen);
    start >= dataLen || (end <= |data| && crc(data[start..end]) == expected[i])
  }

  lemma LaterSlices(crc: seq<Byte> -> nat, data: seq<Byte>, dataLen: nat, slice: nat, expected: seq<nat>, i: nat, j: nat)
    requires i <= j < |expected| && i * slice >= dataLen
    ensures SliceMatches(crc, data, dataLen, slice, expected, j)
  {
    MulLeq(i, j, slice);
  }

  /** Checking passes exactly if every slice that starts inside the data was read in full and matches. */
  lemma {:induction false} PassesExactly(crc: seq<Byte> -> nat, data: seq<Byte>, dataLen: nat, slice: nat, expected: seq<nat>, i: nat)
    requires slice > 0 && i <= |expected|
    ensures VerifyFrom(crc, data, dataLen, slice, expected, i) == Passed <==>
            forall j :: i <= j < |expected| ==> SliceMatches(crc, data, dataLen, slice, expected, j)
    decreases |expected| - i
  {
    if i < |expected| && i * slice < dataLen {
      PassesExactly(crc, data, dataLen, slice, expected, i + 1);
      assert VerifyFrom(crc, data, dataLen, slice, expected, i) == Passed <==>
             SliceMatches(crc, data, dataLen, slice, expected, i) && VerifyFrom(crc, data, dataLen, slice, expected, i + 1) == Passed;
    } else {
      forall j | i <= j < |expected| ensures SliceMatches(crc, data, dataLen, slice, expected, j) {
        LaterSlices(crc, data, dataLen, slice, expected, i, j);
      }
    }
  }

  method VerifyChecksums(crc: seq<Byte> -> nat, data: seq<Byte>, dataLen: nat, slice: nat, expected: seq<nat>) returns (v: Verdict)
    requires slice > 0
    ensures v == VerifyFrom(crc, data, dataLen, slice, expected, 0)
    ensures v == Passed <==>
            forall i :: 0 <= i < |expected| ==> SliceMatches(crc, data, dataLen, slice, expected, i)
  {
    PassesExactly(crc, data, dataLen, slice, expected, 0);
    for i := 0 to |expected|
      invariant VerifyFrom(crc, data, dataLen, slice, expected, i) == VerifyFrom(crc, data, dataLen, slice, expected, 0)
    {
      var start := i * slice;
      if start >= dataLen {
        return Passed;
      }
      var end := MinNat(start + slice, dataLen);
      if end > |data| {
        return OutOfBounds;
      }
      if crc(data[start..end]) != expected[i] {
        return Mismatch;
      }
    }
    return Passed;
  }

  lemma {:induction false} VerifyPrefix(crc: seq<Byte> -> nat, data: seq<Byte>, size: nat, slice: nat, blockSize: nat, i: nat)
    requires 0 < slice && blockSize % slice == 0 && size <= |data| <= blockSize && i <= blockSize / slice
    requires i * slice >= |data| ==> size == |data|
    requires i * slice < size + slice
    ensures VerifyFrom(crc, data[..size], |data|, slice, Checksums(crc, data, slice, blockSize), i)
         == if size == |data| then Passed else OutOfBounds
    decreases blockSize / slice - i
  {
    var expected := Checksums(crc, data, slice, blockSize);
    var start := i * slice;
    if i == |expected| {
      assert start == blockSize;
    } else if start < |data| {
      var end := MinNat(start + slice, |data|);
      if end <= size {
        assert data[..size][start..end] == data[start..end];
        assert (i + 1) * slice == start + slice;
        VerifyPrefix(crc, data, size, slice, blockSize, i + 1);
      }
    }
  }

  /**
   Verification of the first `size` bytes of unmodified data passes exactly when all of it was
   read; reading less runs past the end instead of reporting a mismatch.
   */
  lemma VerifyUnmodified(crc: seq<Byte> -> nat, data: seq<Byte>, size: nat, slice: nat, blockSize: nat)
    requires 0 < slice && blockSize % slice == 0 && 0 < size <= |data| <= blockSize
    ensures VerifyFrom(crc, data[..size], |data|, slice, Checksums(crc, data, slice, blockSize), 0)
         == if size == |data| then Passed else OutOfBounds
  {
    VerifyPrefix(crc, data, size, slice, blockSize, 0);
  }

  // ---------------------------------------------------------------------
  // Disk
  // ---------------------------------------------------------------------

  /** Bytes by file index and offset. */
  type Disk = map<(nat, nat), Byte>

  datatype Geometry = Geometry(blockSize: nat, fileSize: nat, files: nat)

  ghost predicate ValidGeometry(g: Geometry) {
    0 < g.blockSize <= g.fileSize && g.fileSize / g.blockSize > 0
  }

  /** Where byte `i` of block `b` lives. */
  function Address(g: Geometry, b: nat, i: nat): (nat, nat)
    requires ValidGeometry(g)
  {
    BlockFileOffset(b, i, g.blockSize, g.fileSize).value
  }

  /** Whether the block's file was opened. */
  predicate Addressable(g: Geometry, b: nat)
    requires ValidGeometry(g)
  {
    Address(g, b, 0).0 < g.files
  }

  /** Every block lies in a file that was opened. */
  ghost predicate AllAddressable(g: Geometry, total: nat)
    requires ValidGeometry(g)
  {
    forall b :: 0 <= b < total ==> Addressable(g, b)
  }

  /** The geometry a cache of this capacity is built with. */
  function GeometryOf(capacity: nat, blockSize: nat): (g: Geometry)
    requires 0 < blockSize <= capacity
    ensures ValidGeometry(g)
  {
    var fileSize := BlockFileSize(capacity, blockSize);
    AtLeastOne(fileSize, blockSize);
    Geometry(blockSize, fileSize, FileCount(capacity, fileSize))
  }

  /** Every block of a new cache lies in an opened file exactly when the files have that many whole blocks. */
  lemma CapacityAddressable(capacity: nat, blockSize: nat)
    requires 0 < blockSize <= capacity
    ensures var g := GeometryOf(capacity, blockSize);
            AllAddressable(g, capacity / blockSize) <==> capacity / blockSize <= g.files * (g.fileSize / blockSize)
  {
    var g := GeometryOf(capacity, blockSize);
    AddressableUpTo(g, capacity / blockSize);
  }

  lemma AddressableUpTo(g: Geometry, total: nat)
    requires ValidGeometry(g)
    ensures AllAddressable(g, total) <==> total <= g.files * (g.fileSize / g.blockSize)
  {
    FilesSuffice(total, g.fileSize / g.blockSize, g.files);
    assert forall b: nat :: Addressable(g, b) <==> FileOpened(b, g.fileSize / g.blockSize, g.files);
  }

  function WriteBlock(g: Geometry, disk: Disk, b: nat, data: seq<Byte>): Disk
    requires ValidGeometry(g)
  {
    if data == [] then disk
    else WriteBlock(g, disk, b, data[..|data| - 1])[Address(g, b, |data| - 1) := data[|data| - 1]]
  }

  /** The block starts with exactly these bytes. */
  ghost predicate Stores(g: Geometry, disk: Disk, b: nat, data: seq<Byte>)
    requires ValidGeometry(g)
  {
    forall i :: 0 <= i < |data| ==> Address(g, b, i) in disk && disk[Address(g, b, i)] == data[i]
  }

  lemma {:induction false} WriteStores(g: Geometry, disk: Disk, b: nat, data: seq<Byte>)
    requires ValidGeometry(g) && |data| <= g.blockSize
    ensures Stores(g, WriteBlock(g, disk, b, data), b, data)
  {
    if data != [] {
      var n := |data| - 1;
      WriteStores(g, disk, b, data[..n]);
      var before := WriteBlock(g, disk, b, data[..n]);
      var after := WriteBlock(g, disk, b, data);
      forall i | 0 <= i < n
        ensures Address(g, b, i) in after && after[Address(g, b, i)] == data[i]
      {
        AddressDistinct(g, b, i, b, n);
        assert data[..n][i] == data[i];
      }
    }
  }

  lemma AddressDistinct(g: Geometry, b: nat, i: nat, c: nat, j: nat)
    requires ValidGeometry(g) && i < g.blockSize && j < g.blockSize && (b != c || i != j)
    ensures Address(g, b, i) != Address(g, c, j)
  {
    if Address(g, b, i) == Address(g, c, j) {
      BlocksDisjoint(b, c, i, j, g.blockSize, g.fileSize);
    }
  }

  /** Writing one block leaves every other block as it was. */
  lemma {:induction false} WriteElsewhere(g: Geometry, disk: Disk, b: nat, data: seq<Byte>, c: nat, kept: seq<Byte>)
    requires ValidGeometry(g) && |data| <= g.blockSize && |kept| <= g.blockSize && b != c
    requires Stores(g, disk, c, kept)
    ensures Stores(g, WriteBlock(g, disk, b, data), c, kept)
  {
    if data != [] {
      var n := |data| - 1;
      WriteElsewhere(g, disk, b, data[..n], c, kept);
      forall i | 0 <= i < |kept|
        ensures Address(g, c, i) != Address(g, b, n)
      {
        AddressDistinct(g, c, i, b, n);
      }
    }
  }

  /** Read `size` bytes from the start of a block, failing if any was never written. */
  method ReadBlock(g: Geometry, disk: Disk, b: nat, size: nat) returns (r: Option<seq<Byte>>)
    requires ValidGeometry(g)
    ensures r.Some? ==> |r.value| == size && Stores(g, disk, b, r.value)
    ensures r.None? <==> !Addressable(g, b) || exists i :: 0 <= i < size && Address(g, b, i) !in disk
  {
    if !Addressable(g, b) {
      return None;
    }
    var out: seq<Byte> := [];
    for i := 0 to size
      invariant |out| == i && Stores(g, disk, b, out)
    {
      if Address(g, b, i) !in disk {
        return None;
      }
      out := out + [disk[Address(g, b, i)]];
    }
    r := Some(out);
  }

  lemma StoresUnique(g: Geometry, disk: Disk, b: nat, x: seq<Byte>, y: seq<Byte>)
    requires ValidGeometry(g) && Stores(g, disk, b, x) && Stores(g, disk, b, y) && |x| == |y|
    ensures x == y
  {
  }
}
