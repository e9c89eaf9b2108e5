/**
 The block allocator of a cache directory: fixed-size spaces of free bits with a queue of
 spaces that still have free blocks, and the mapping from blocks to file offsets.
 */
module BlockAllocator {
  import opened Common

  const BLOCKS_PER_SPACE: nat := 1024

  datatype BlockSpace = BlockSpace(start: nat, freeBits: seq<bool>, freeCount: nat)

  // ---------------------------------------------------------------------
  // Bits
  // ---------------------------------------------------------------------

  function CountTrue(bits: seq<bool>): nat {
    if bits == [] then 0 else CountTrue(bits[..|bits| - 1]) + if bits[|bits| - 1] then 1 else 0
  }

  lemma {:induction false} CountTrueUpdate(bits: seq<bool>, i: nat, v: bool)
    requires i < |bits| && bits[i] != v
    ensures CountTrue(bits[i := v]) == if v then CountTrue(bits) + 1 else CountTrue(bits) - 1
  {
    var n := |bits| - 1;
    if i == n {
      assert bits[i := v][..n] == bits[..n];
    } else {
      CountTrueUpdate(bits[..n], i, v);
      assert bits[i := v][..n] == bits[..n][i := v];
    }
  }

  lemma {:induction false} CountTrueZero(bits: seq<bool>)
    ensures CountTrue(bits) == 0 <==> (forall i :: 0 <= i < |bits| ==> !bits[i])
    ensures CountTrue(bits) <= |bits|
  {
    if bits != [] {
      CountTrueZero(bits[..|bits| - 1]);
      var front := bits[..|bits| - 1];
      assert forall i :: 0 <= i < |front| ==> bits[i] == front[i];
    }
  }

  lemma {:induction false} CountTrueAll(n: nat)
    ensures CountTrue(seq(n, _ => true)) == n
  {
    if n > 0 {
      CountTrueAll(n - 1);
      assert seq(n, _ => true)[..n - 1] == seq(n - 1, _ => true);
    }
  }

  /** Index of the first set bit. */
  method FindFirstFree(bits: seq<bool>) returns (r: Option<nat>)
    ensures r.Some? ==> r.value < |bits| && bits[r.value] && forall j :: 0 <= j < r.value ==> !bits[j]
    ensures r.None? <==> forall j :: 0 <= j < |bits| ==> !bits[j]
  {
    for i := 0 to |bits|
      invariant forall j :: 0 <= j < i ==> !bits[j]
    {
      if bits[i] {
        return Some(i);
      }
    }
    return None;
  }

  // ---------------------------------------------------------------------
  // Layout of spaces
  // ---------------------------------------------------------------------

  /** How many blocks space `i` covers when `total` blocks are laid out. */
  function SpaceLen(total: nat, i: nat): nat {
    if (i + 1) * BLOCKS_PER_SPACE <= total then BLOCKS_PER_SPACE
    else if i * BLOCKS_PER_SPACE < total then total - i * BLOCKS_PER_SPACE
    else 0
  }

  function SpaceCount(total: nat): nat {
    (total + BLOCKS_PER_SPACE - 1) / BLOCKS_PER_SPACE
  }

  ghost predicate ValidSpace(space: BlockSpace, total: nat, i: nat) {
    && space.start == i * BLOCKS_PER_SPACE
    && |space.freeBits| == SpaceLen(total, i)
    && space.freeCount == CountTrue(space.freeBits)
  }

  ghost predicate ValidSpaces(spaces: seq<BlockSpace>, total: nat) {
    && |spaces| == SpaceCount(total)
    && forall i :: 0 <= i < |spaces| ==> ValidSpace(spaces[i], total, i)
  }

  /** The queue names spaces at most once, and every space with a free block. */
  ghost predicate Covers(queue: seq<nat>, spaces: seq<BlockSpace>) {
    && (forall i :: 0 <= i < |queue| ==> queue[i] < |spaces|)
    && (forall i, j :: 0 <= i < j < |queue| ==> queue[i] != queue[j])
    && (forall s :: 0 <= s < |spaces| && spaces[s].freeCount > 0 ==> s in queue)
  }

  /** ... and only such spaces. */
  ghost predicate Exact(queue: seq<nat>, spaces: seq<BlockSpace>) {
    forall i :: 0 <= i < |queue| ==> queue[i] < |spaces| && spaces[queue[i]].freeCount > 0
  }

  /** Whether block `b` is free. */
  ghost predicate IsFree(spaces: seq<BlockSpace>, b: nat) {
    var s, i := b / BLOCKS_PER_SPACE, b % BLOCKS_PER_SPACE;
    s < |spaces| && i < |spaces[s].freeBits| && spaces[s].freeBits[i]
  }

  /** The free blocks below `n`. */
  ghost function FreeSet(spaces: seq<BlockSpace>, n: nat): set<nat> {
    if n == 0 then {} else FreeSet(spaces, n - 1) + if IsFree(spaces, n - 1) then {n - 1} else {}
  }

  lemma {:induction false} FreeSetMembers(spaces: seq<BlockSpace>, n: nat)
    ensures forall b :: b in FreeSet(spaces, n) <==> 0 <= b < n && IsFree(spaces, b)
  {
    if n > 0 {
      FreeSetMembers(spaces, n - 1);
    }
  }

  lemma BlockInSpace(total: nat, s: nat, i: nat)
    requires i < SpaceLen(total, s)
    ensures i < BLOCKS_PER_SPACE && s * BLOCKS_PER_SPACE + i < total
    ensures (s * BLOCKS_PER_SPACE + i) / BLOCKS_PER_SPACE == s
    ensures (s * BLOCKS_PER_SPACE + i) % BLOCKS_PER_SPACE == i
    ensures s < SpaceCount(total)
  {
  }

  lemma SpaceOfBlock(total: nat, b: nat)
    requires b < total
    ensures b / BLOCKS_PER_SPACE < SpaceCount(total)
    ensures b % BLOCKS_PER_SPACE < SpaceLen(total, b / BLOCKS_PER_SPACE)
  {
  }

  /** Flipping one bit changes the freedom of exactly one block. */
  lemma FlipFree(spaces: seq<BlockSpace>, total: nat, s: nat, i: nat, space: BlockSpace)
    requires ValidSpaces(spaces, total) && s < |spaces| && i < |spaces[s].freeBits|
    requires space.freeBits == spaces[s].freeBits[i := !spaces[s].freeBits[i]]
    ensures var b := s * BLOCKS_PER_SPACE + i;
            && b < total
            && (forall c :: 0 <= c < total && c != b ==> (IsFree(spaces[s := space], c) <==> IsFree(spaces, c)))
            && (IsFree(spaces[s := space], b) <==> !IsFree(spaces, b))
            && (IsFree(spaces, b) <==> spaces[s].freeBits[i])
  {
    assert ValidSpace(spaces[s], total, s);
    BlockInSpace(total, s, i);
    var b := s * BLOCKS_PER_SPACE + i;
    forall c | 0 <= c < total && c != b
      ensures IsFree(spaces[s := space], c) <==> IsFree(spaces, c)
    {
      var t, j := c / BLOCKS_PER_SPACE, c % BLOCKS_PER_SPACE;
      assert c == t * BLOCKS_PER_SPACE + j;
    }
  }

  /** The numbers below `n`. */
  ghost function Upto(n: nat): (r: set<nat>)
    ensures forall b :: b in r <==> 0 <= b < n
    ensures |r| == n
  {
    if n == 0 then {} else Upto(n - 1) + {n - 1}
  }

  lemma FreeSetMinus(more: seq<BlockSpace>, less: seq<BlockSpace>, n: nat, b: nat)
    requires b < n && IsFree(more, b) && !IsFree(less, b)
    requires forall c :: 0 <= c < n && c != b ==> (IsFree(more, c) <==> IsFree(less, c))
    ensures b in FreeSet(more, n) && b !in FreeSet(less, n)
    ensures FreeSet(less, n) == FreeSet(more, n) - {b} && FreeSet(more, n) == FreeSet(less, n) + {b}
  {
    FreeSetMembers(more, n);
    FreeSetMembers(less, n);
  }

  /** Clearing a set bit takes exactly that block away. */
  lemma TakeFree(spaces: seq<BlockSpace>, total: nat, s: nat, i: nat, taken: BlockSpace, b: nat)
    requires ValidSpaces(spaces, total) && s < |spaces| && i < |spaces[s].freeBits| && spaces[s].freeBits[i]
    requires taken == spaces[s].(freeBits := taken.freeBits, freeCount := taken.freeCount)
    requires taken.freeBits == spaces[s].freeBits[i := false] && taken.freeCount + 1 == spaces[s].freeCount
    requires b == s * BLOCKS_PER_SPACE + i
    ensures ValidSpaces(spaces[s := taken], total)
    ensures b < total && b in FreeSet(spaces, total) && FreeSet(spaces[s := taken], total) == FreeSet(spaces, total) - {b}
  {
    assert ValidSpace(spaces[s], total, s);
    CountTrueUpdate(spaces[s].freeBits, i, false);
    UpdateSpace(spaces, total, s, taken);
    FlipFree(spaces, total, s, i, taken);
    FreeSetMinus(spaces, spaces[s := taken], total, b);
  }

  /** Setting a clear bit gives exactly that block back. */
  lemma GiveFree(spaces: seq<BlockSpace>, total: nat, s: nat, i: nat, freed: BlockSpace, b: nat)
    requires ValidSpaces(spaces, total) && s < |spaces| && i < |spaces[s].freeBits| && !spaces[s].freeBits[i]
    requires freed == spaces[s].(freeBits := spaces[s].freeBits[i := true], freeCount := spaces[s].freeCount + 1)
    requires b == s * BLOCKS_PER_SPACE + i
    ensures ValidSpaces(spaces[s := freed], total)
    ensures b < total && b !in FreeSet(spaces, total) && FreeSet(spaces[s := freed], total) == FreeSet(spaces, total) + {b}
  {
    assert ValidSpace(spaces[s], total, s);
    CountTrueUpdate(spaces[s].freeBits, i, true);
    UpdateSpace(spaces, total, s, freed);
    FlipFree(spaces, total, s, i, freed);
    FreeSetMinus(spaces[s := freed], spaces, total, b);
  }

  lemma NoFreeBlocks(spaces: seq<BlockSpace>, total: nat)
    requires ValidSpaces(spaces, total) && forall s :: 0 <= s < |spaces| ==> spaces[s].freeCount == 0
    ensures FreeSet(spaces, total) == {}
  {
    FreeSetMembers(spaces, total);
    forall b | 0 <= b < total
      ensures !IsFree(spaces, b)
    {
      var s := b / BLOCKS_PER_SPACE;
      if s < |spaces| {
        assert ValidSpace(spaces[s], total, s);
        CountTrueZero(spaces[s].freeBits);
      }
    }
  }

  lemma UpdateSpace(spaces: seq<BlockSpace>, total: nat, s: nat, space: BlockSpace)
    requires ValidSpaces(spaces, total) && s < |spaces| && ValidSpace(space, total, s)
    ensures ValidSpaces(spaces[s := space], total)
  {
  }

  /** Allocation state of one cache directory. */
  class CacheDir {
    const blockSize: nat
    const total: nat
    var spaces: seq<BlockSpace>
    var queue: seq<nat>

    ghost predicate Valid()
      reads this
    {
      ValidSpaces(spaces, total) && Covers(queue, spaces) && Exact(queue, spaces)
    }

    ghost function Free(): set<nat>
      reads this
    {
      FreeSet(spaces, total)
    }

    /** Every block starts free. */
    constructor (blockSize: nat, total: nat)
      ensures this.blockSize == blockSize && this.total == total
      ensures Valid() && Free() == Upto(total)
    {
      this.blockSize := blockSize;
      this.total := total;
      spaces := [];
      queue := [];
      new;
      InitFreeSpaceList();
    }

    method InitFreeSpaceList()
      requires spaces == [] && queue == []
      modifies this
      ensures Valid() && Free() == Upto(total)
    {
      var full := total / BLOCKS_PER_SPACE;
      for i := 0 to full
        invariant |spaces| == |queue| == i && forall j :: 0 <= j < i ==> AllFree(spaces[j], total, j) && queue[j] == j
      {
        CountTrueAll(BLOCKS_PER_SPACE);
        spaces := spaces + [BlockSpace(i * BLOCKS_PER_SPACE, seq(BLOCKS_PER_SPACE, _ => true), BLOCKS_PER_SPACE)];
        queue := queue + [i];
      }
      var rest := total - full * BLOCKS_PER_SPACE;
      if rest > 0 {
        CountTrueAll(rest);
        spaces := spaces + [BlockSpace(full * BLOCKS_PER_SPACE, seq(rest, _ => true), rest)];
        queue := queue + [full];
      }
      AllFreeMeansFree(spaces, queue, total);
    }

    /** Take the first free block of the first queued space. */
    method AllocBlock() returns (r: Option<nat>)
      requires ValidSpaces(spaces, total) && Covers(queue, spaces)
      modifies this
      ensures ValidSpaces(spaces, total) && Covers(queue, spaces) && (old(Exact(queue, spaces)) ==> Exact(queue, spaces))
      ensures r.None? ==> old(Free()) == {} == Free()
      ensures r.Some? ==> r.value < total && r.value in old(Free()) && Free() == old(Free()) - {r.value}
    {
      while queue != []
        invariant ValidSpaces(spaces, total) && Covers(queue, spaces)
        invariant old(Exact(queue, spaces)) ==> Exact(queue, spaces)
        invariant Free() == old(Free())
        decreases |queue|
      {
        var s := queue[0];
        var space := spaces[s];
        assert ValidSpace(space, total, s);
        var inner := FindFirstFree(space.freeBits);
        if inner.Some? {
          r := TakeBlock(s, inner.value);
          return;
        }
        CountTrueZero(space.freeBits);
        PopEmpty(queue, spaces);
        queue := queue[1..];
      }
      NoFreeBlocks(spaces, total);
      r := None;
    }

    method TakeBlock(s: nat, i: nat) returns (r: Option<nat>)
      requires ValidSpaces(spaces, total) && Covers(queue, spaces) && queue != [] && queue[0] == s
      requires s < |spaces| && i < |spaces[s].freeBits| && spaces[s].freeBits[i]
      modifies this
      ensures ValidSpaces(spaces, total) && Covers(queue, spaces) && (old(Exact(queue, spaces)) ==> Exact(queue, spaces))
      ensures r.Some? && r.value < total && r.value in old(Free()) && Free() == old(Free()) - {r.value}
    {
      var space := spaces[s];
      assert ValidSpace(space, total, s);
      CountTrueUpdate(space.freeBits, i, false);
      var taken := space.(freeBits := space.freeBits[i := false], freeCount := space.freeCount - 1);
      var b := space.start + i;
      TakeFree(spaces, total, s, i, taken, b);
      ghost var before := spaces;
      spaces := spaces[s := taken];
      if taken.freeCount == 0 {
        TakenLast(queue, before, spaces);
        queue := queue[1..];
      } else {
        TakenMore(queue, before, spaces);
      }
      r := Some(b);
    }

    /** Bytes in allocated blocks. */
    method UsedBytes() returns (used: nat)
      requires Valid()
      ensures |Free()| <= total && used == SaturatingMul(total - |Free()|, blockSize)
    {
      var free := 0;
      for i := 0 to |spaces|
        invariant free == SumFree(spaces[..i])
      {
        assert spaces[..i + 1][..i] == spaces[..i];
        free := free + spaces[i].freeCount;
      }
      assert spaces[..|spaces|] == spaces;
      SumFreeIsCount(spaces, total);
      used := SaturatingMul(SaturatingSub(total, free), blockSize);
    }

    /** Give a block back; out-of-range and already free blocks change nothing. */
    method FreeBlock(b: nat)
      requires Valid()
      modifies this
      ensures Valid()
      ensures Free() == if b < total then old(Free()) + {b} else old(Free())
      ensures b >= total || b in old(Free()) ==> spaces == old(spaces) && queue == old(queue)
    {
      var s := b / BLOCKS_PER_SPACE;
      if s >= |spaces| {
        BeyondSpaces(total, b);
        return;
      }
      var space := spaces[s];
      assert ValidSpace(space, total, s);
      var i := b - space.start;
      if i >= |space.freeBits| {
        BeyondSpaces(total, b);
        return;
      }
      BlockInSpace(total, s, i);
      if space.freeBits[i] {
        FreeSetMembers(spaces, total);
        assert IsFree(spaces, b);
        return;
      }
      var freed := space.(freeBits := space.freeBits[i := true], freeCount := space.freeCount + 1);
      GiveFree(spaces, total, s, i, freed, b);
      ghost var before := spaces;
      spaces := spaces[s := freed];
      if freed.freeCount == 1 {
        FreedFirst(queue, before, spaces, s);
        queue := queue + [s];
      } else {
        FreedMore(queue, before, spaces, s);
      }
    }
  }

  ghost predicate AllFree(space: BlockSpace, total: nat, i: nat) {
    ValidSpace(space, total, i) && space.freeCount > 0 && forall j :: 0 <= j < |space.freeBits| ==> space.freeBits[j]
  }

  lemma AllFreeMeansFree(spaces: seq<BlockSpace>, queue: seq<nat>, total: nat)
    requires |spaces| == |queue| == SpaceCount(total)
    requires forall j :: 0 <= j < |spaces| ==> AllFree(spaces[j], total, j) && queue[j] == j
    ensures ValidSpaces(spaces, total) && Covers(queue, spaces) && Exact(queue, spaces)
    ensures FreeSet(spaces, total) == Upto(total)
  {
    FreeSetMembers(spaces, total);
    forall s | 0 <= s < |spaces|
      ensures s in queue
    {
      assert queue[s] == s;
    }
    forall b | 0 <= b < total
      ensures IsFree(spaces, b)
    {
      SpaceOfBlock(total, b);
      assert AllFree(spaces[b / BLOCKS_PER_SPACE], total, b / BLOCKS_PER_SPACE);
    }
  }

  lemma BeyondSpaces(total: nat, b: nat)
    requires b / BLOCKS_PER_SPACE >= SpaceCount(total) || b - b / BLOCKS_PER_SPACE * BLOCKS_PER_SPACE >= SpaceLen(total, b / BLOCKS_PER_SPACE)
    ensures b >= total
  {
    if b < total {
      SpaceOfBlock(total, b);
    }
  }

  lemma PopEmpty(queue: seq<nat>, spaces: seq<BlockSpace>)
    requires Covers(queue, spaces) && queue != [] && spaces[queue[0]].freeCount == 0
    ensures Covers(queue[1..], spaces)
  {
    forall s | 0 <= s < |spaces| && spaces[s].freeCount > 0
      ensures s in queue[1..]
    {
      assert s in queue && s != queue[0];
    }
  }

  lemma TakenMore(queue: seq<nat>, before: seq<BlockSpace>, after: seq<BlockSpace>)
    requires Covers(queue, before) && queue != []
    requires |after| == |before| && after == before[queue[0] := after[queue[0]]] && after[queue[0]].freeCount > 0 && before[queue[0]].freeCount > 0
    ensures Covers(queue, after) && (Exact(queue, before) ==> Exact(queue, after))
  {
  }

  lemma TakenLast(queue: seq<nat>, before: seq<BlockSpace>, after: seq<BlockSpace>)
    requires Covers(queue, before) && queue != []
    requires |after| == |before| && after == before[queue[0] := after[queue[0]]] && after[queue[0]].freeCount == 0
    ensures Covers(queue[1..], after) && (Exact(queue, before) ==> Exact(queue[1..], after))
  {
    assert Covers(queue, after);
    PopEmpty(queue, after);
    forall i | 0 <= i < |queue| - 1
      ensures queue[1..][i] == queue[i + 1] != queue[0]
    {
    }
  }

  lemma FreedMore(queue: seq<nat>, before: seq<BlockSpace>, after: seq<BlockSpace>, s: nat)
    requires Covers(queue, before) && Exact(queue, before) && s < |before| == |after|
    requires after == before[s := after[s]] && before[s].freeCount > 0 && after[s].freeCount > 0
    ensures Covers(queue, after) && Exact(queue, after)
  {
  }

  lemma FreedFirst(queue: seq<nat>, before: seq<BlockSpace>, after: seq<BlockSpace>, s: nat)
    requires Covers(queue, before) && Exact(queue, before) && s < |before| == |after|
    requires after == before[s := after[s]] && before[s].freeCount == 0 && after[s].freeCount > 0
    ensures Covers(queue + [s], after) && Exact(queue + [s], after)
  {
    var queue' := queue + [s];
    forall t | 0 <= t < |after| && after[t].freeCount > 0
      ensures t in queue'
    {
      if t == s {
        assert queue'[|queue|] == s;
      } else {
        assert t in queue;
      }
    }
  }

  // ---------------------------------------------------------------------
  // Accounting
  // ---------------------------------------------------------------------

  function SaturatingMul(a: nat, b: nat): nat {
    if a * b > U64_MAX then U64_MAX else a * b
  }

  function SumFree(spaces: seq<BlockSpace>): nat {
    if spaces == [] then 0 else SumFree(spaces[..|spaces| - 1]) + spaces[|spaces| - 1].freeCount
  }

  lemma FreeSetStep(spaces: seq<BlockSpace>, n: nat, m: nat)
    requires m == n + 1
    ensures |FreeSet(spaces, m)| == |FreeSet(spaces, n)| + if IsFree(spaces, n) then 1 else 0
  {
    FreeSetMembers(spaces, n);
    assert n !in FreeSet(spaces, n);
  }

  lemma CountPrefix(bits: seq<bool>, i: nat)
    requires 0 < i <= |bits|
    ensures CountTrue(bits[..i]) == CountTrue(bits[..i - 1]) + if bits[i - 1] then 1 else 0
  {
    assert bits[..i][..i - 1] == bits[..i - 1];
  }

  lemma {:induction false} FreeInSpace(spaces: seq<BlockSpace>, total: nat, s: nat, i: nat, from: nat, to: nat)
    requires ValidSpaces(spaces, total) && s < |spaces| && i <= |spaces[s].freeBits|
    requires from == s * BLOCKS_PER_SPACE && to == from + i
    ensures |FreeSet(spaces, to)| == |FreeSet(spaces, from)| + CountTrue(spaces[s].freeBits[..i])
    decreases i
  {
    if i > 0 {
      var mid := to - 1;
      FreeInSpace(spaces, total, s, i - 1, from, mid);
      IsFreeAt(spaces, total, s, i - 1, mid);
      FreeSetStep(spaces, mid, to);
      CountPrefix(spaces[s].freeBits, i);
    }
  }

  lemma IsFreeAt(spaces: seq<BlockSpace>, total: nat, s: nat, i: nat, b: nat)
    requires ValidSpaces(spaces, total) && s < |spaces| && i < |spaces[s].freeBits| && b == s * BLOCKS_PER_SPACE + i
    ensures IsFree(spaces, b) <==> spaces[s].freeBits[i]
  {
    assert ValidSpace(spaces[s], total, s);
    BlockInSpace(total, s, i);
  }

  lemma {:induction false} FreeInSpaces(spaces: seq<BlockSpace>, total: nat, n: nat, end: nat)
    requires ValidSpaces(spaces, total) && n <= |spaces|
    requires end == if n * BLOCKS_PER_SPACE <= total then n * BLOCKS_PER_SPACE else total
    ensures |FreeSet(spaces, end)| == SumFree(spaces[..n])
    decreases n
  {
    if n > 0 {
      var s, at, space := n - 1, (n - 1) * BLOCKS_PER_SPACE, spaces[n - 1];
      FreeInSpaces(spaces, total, s, at);
      assert ValidSpace(space, total, s);
      FreeInSpace(spaces, total, s, |space.freeBits|, at, end);
      assert space.freeBits[..|space.freeBits|] == space.freeBits;
      assert spaces[..n][..s] == spaces[..s];
    }
  }

  /** The free counters add up to the number of free blocks. */
  lemma SumFreeIsCount(spaces: seq<BlockSpace>, total: nat)
    requires ValidSpaces(spaces, total)
    ensures SumFree(spaces) == |FreeSet(spaces, total)| <= total
  {
    FreeInSpaces(spaces, total, |spaces|, total);
    assert spaces[..|spaces|] == spaces;
    FreeAtMost(spaces, total);
  }

  lemma {:induction false} FreeAtMost(spaces: seq<BlockSpace>, n: nat)
    ensures |FreeSet(spaces, n)| <= n
  {
    if n == 0 {
      assert FreeSet(spaces, 0) == {};
    } else {
      FreeAtMost(spaces, n - 1);
      FreeSetStep(spaces, n - 1, n);
    }
  }

  // ---------------------------------------------------------------------
  // Addressing
  // ---------------------------------------------------------------------

  /** The file and offset where a block's byte `within` lives. */
  function BlockFileOffset(block: nat, within: nat, blockSize: nat, fileSize: nat): Option<(nat, nat)>
    requires blockSize > 0
  {
    var perFile := fileSize / blockSize;
    if perFile == 0 then None
    else Some((block / perFile, block % perFile * blockSize + within))
  }

  const MAX_FILE_SIZE: nat := 10737418240

  /** 10 GB or the capacity if that is smaller, but never below one block. */
  function BlockFileSize(capacity: nat, blockSize: nat): (size: nat)
    ensures size >= blockSize
  {
    var size := if capacity < MAX_FILE_SIZE then capacity else MAX_FILE_SIZE;
    if size < blockSize then blockSize else size
  }

  function FileCount(quota: nat, fileSize: nat): nat
    requires fileSize > 0
  {
    (quota + fileSize - 1) / fileSize
  }

  /** The size of file `f` when files of `fileSize` bytes share out `quota`. */
  function SizeOfFile(quota: nat, fileSize: nat, f: nat): nat {
    if (f + 1) * fileSize <= quota then fileSize
    else if f * fileSize < quota then quota - f * fileSize
    else 0
  }

  /** Open files until the quota is used up; only the last may be short. */
  method InitBlockFiles(quota: nat, fileSize: nat) returns (sizes: seq<nat>)
    requires fileSize > 0
    ensures |sizes| == FileCount(quota, fileSize)
    ensures forall f :: 0 <= f < |sizes| ==> sizes[f] == SizeOfFile(quota, fileSize, f) > 0
  {
    sizes := [];
    var left := quota;
    while left > 0
      invariant left == if |sizes| * fileSize <= quota then quota - |sizes| * fileSize else 0
      invariant |sizes| > 0 ==> (|sizes| - 1) * fileSize < quota
      invariant forall f :: 0 <= f < |sizes| ==> sizes[f] == SizeOfFile(quota, fileSize, f) > 0
      decreases left
    {
      var size := if fileSize < left then fileSize else left;
      NextFileSize(quota, fileSize, |sizes|);
      sizes := sizes + [size];
      left := left - size;
    }
    CeilUnique(quota, fileSize, |sizes|);
  }

  lemma NextFileSize(quota: nat, fileSize: nat, f: nat)
    requires f * fileSize < quota
    ensures SizeOfFile(quota, fileSize, f) == (if fileSize < quota - f * fileSize then fileSize else quota - f * fileSize)
    ensures (f + 1) * fileSize == f * fileSize + fileSize
  {
  }

  lemma CeilUnique(quota: nat, fileSize: nat, n: nat)
    requires fileSize > 0 && n * fileSize >= quota && (n > 0 ==> (n - 1) * fileSize < quota)
    ensures FileCount(quota, fileSize) == n
  {
    var a := quota + fileSize - 1;
    assert n * fileSize <= a < (n + 1) * fileSize by {
      assert n > 0 ==> (n - 1) * fileSize + fileSize == n * fileSize;
      assert (n + 1) * fileSize == n * fileSize + fileSize;
    }
    DivUnique(a, fileSize, n);
  }

  lemma MulLess(a: nat, b: nat, f: nat)
    requires a < b
    ensures a * f + f <= b * f
  {
    assert (b - a - 1) * f >= 0;
    assert b * f == a * f + f + (b - a - 1) * f;
  }

  lemma MulLeq(a: nat, b: nat, f: nat)
    requires a <= b
    ensures a * f <= b * f
  {
    assert (b - a) * f >= 0;
    assert b * f == a * f + (b - a) * f;
  }

  lemma DivUnique(a: nat, f: nat, n: nat)
    requires f > 0 && n * f <= a < (n + 1) * f
    ensures a / f == n
  {
    var q := a / f;
    assert q * f <= a < q * f + f && (n + 1) * f == n * f + f;
    if q < n {
      MulLess(q, n, f);
    } else if n < q {
      MulLess(n, q, f);
    }
  }

  /** Different blocks never share a byte. */
  lemma BlocksDisjoint(b: nat, c: nat, i: nat, j: nat, blockSize: nat, fileSize: nat)
    requires blockSize > 0 && i < blockSize && j < blockSize && fileSize / blockSize > 0
    requires BlockFileOffset(b, i, blockSize, fileSize) == BlockFileOffset(c, j, blockSize, fileSize)
    ensures b == c && i == j
  {
    var n := fileSize / blockSize;
    var p, q := b % n, c % n;
    SplitUnique(p, i, q, j, blockSize);
    assert b == b / n * n + p && c == c / n * n + q;
  }

  lemma SplitUnique(p: nat, i: nat, q: nat, j: nat, size: nat)
    requires i < size && j < size && p * size + i == q * size + j
    ensures p == q && i == j
  {
    if p < q {
      MulLess(p, q, size);
    } else if q < p {
      MulLess(q, p, size);
    }
  }

  /**
   Every block lies wholly inside one of the opened files, provided blocks tile a file exactly
   or there is only one file.
   */
  lemma BlockInsideFile(b: nat, quota: nat, blockSize: nat, fileSize: nat)
    requires 0 < blockSize <= fileSize && b < quota / blockSize
    requires fileSize % blockSize == 0 || quota <= fileSize
    ensures BlockFileOffset(b, 0, blockSize, fileSize).Some?
    ensures var (f, offset) := BlockFileOffset(b, 0, blockSize, fileSize).value;
            f < FileCount(quota, fileSize) && offset + blockSize <= SizeOfFile(quota, fileSize, f)
  {
    AtLeastOne(fileSize, blockSize);
    BlockEnd(b, quota, blockSize);
    if quota <= fileSize {
      InSingleFile(b, fileSize / blockSize, quota, blockSize, fileSize);
    } else {
      var n := fileSize / blockSize;
      assert fileSize == n * blockSize + fileSize % blockSize;
      TiledBlock(b, b / n, b % n, n, quota, blockSize, fileSize);
      FileIndexInRange(b / n, quota, fileSize);
    }
  }

  lemma AtLeastOne(a: nat, d: nat)
    requires 0 < d <= a
    ensures a / d > 0
  {
    assert a == a / d * d + a % d;
  }

  lemma InSingleFile(b: nat, n: nat, quota: nat, blockSize: nat, fileSize: nat)
    requires 0 < blockSize && n == fileSize / blockSize && quota <= fileSize
    requires b * blockSize + blockSize <= quota
    ensures n > 0 && b / n == 0 && b % n == b
    ensures 0 < FileCount(quota, fileSize) && b * blockSize + blockSize <= SizeOfFile(quota, fileSize, 0)
  {
    if n <= b {
      MulLeq(n, b, blockSize);
    }
    assert 0 * fileSize == 0 && 1 * fileSize == fileSize;
    FileIndexInRange(0, quota, fileSize);
  }

  lemma BlockEnd(b: nat, quota: nat, blockSize: nat)
    requires blockSize > 0 && b < quota / blockSize
    ensures b * blockSize + blockSize <= quota
  {
    MulLess(b, quota / blockSize, blockSize);
  }

  lemma FileIndexInRange(f: nat, quota: nat, fileSize: nat)
    requires fileSize > 0 && f * fileSize < quota
    ensures f < FileCount(quota, fileSize)
  {
    var n := FileCount(quota, fileSize);
    assert n * fileSize + fileSize > quota + fileSize - 1;
    if n <= f {
      MulLeq(n, f, fileSize);
    }
  }

  lemma TiledBlock(b: nat, f: nat, r: nat, n: nat, quota: nat, blockSize: nat, fileSize: nat)
    requires n > 0 && blockSize > 0 && fileSize == n * blockSize && b == f * n + r && r < n
    requires b * blockSize + blockSize <= quota
    ensures f * fileSize < quota && r * blockSize + blockSize <= SizeOfFile(quota, fileSize, f)
  {
    assert b * blockSize == f * fileSize + r * blockSize by {
      assert (f * n + r) * blockSize == f * n * blockSize + r * blockSize;
      assert f * n * blockSize == f * (n * blockSize);
    }
    MulLess(r, n, blockSize);
  }

  lemma QuotientBelow(b: nat, n: nat, files: nat)
    requires n > 0 && b < files * n
    ensures b / n < files
  {
    if files <= b / n {
      MulLeq(files, b / n, n);
    }
  }

  /** With `n` blocks to a file, the block's file is among the first `files`. */
  predicate FileOpened(b: nat, n: nat, files: nat)
    requires n > 0
  {
    b / n < files
  }

  /** Every block's file is among the opened ones exactly when those have enough whole blocks. */
  lemma FilesSuffice(total: nat, n: nat, files: nat)
    requires n > 0
    ensures (forall b :: 0 <= b < total ==> FileOpened(b, n, files)) <==> total <= files * n
  {
    if total <= files * n {
      forall b | 0 <= b < total ensures FileOpened(b, n, files) {
        QuotientBelow(b, n, files);
      }
    } else {
      NonNegative(files, n);
      DivUnique(files * n, n, files);
      assert !FileOpened(files * n, n, files);
    }
  }

  /** The block's file exists and has room for the whole block. */
  predicate Inside(b: nat, quota: nat, blockSize: nat, fileSize: nat)
    requires 0 < blockSize <= fileSize
  {
    BlockFileOffset(b, 0, blockSize, fileSize).Some? &&
    var (f, offset) := BlockFileOffset(b, 0, blockSize, fileSize).value;
    HasRoom(quota, fileSize, f, offset + blockSize)
  }

  predicate HasRoom(quota: nat, fileSize: nat, f: nat, end: nat)
    requires fileSize > 0
  {
    f < FileCount(quota, fileSize) && end <= SizeOfFile(quota, fileSize, f)
  }

  /** The number of blocks that fit the files: the full files' blocks and those of the remainder. */
  function BlocksInside(quota: nat, blockSize: nat, fileSize: nat): int
    requires 0 < blockSize <= fileSize
  {
    (quota / fileSize) * (fileSize / blockSize) + (quota % fileSize) / blockSize
  }

  lemma SizesOfFiles(quota: nat, fileSize: nat, full: nat, rest: nat, f: nat)
    requires fileSize > 0 && quota == full * fileSize + rest && rest < fileSize
    ensures SizeOfFile(quota, fileSize, f) == if f < full then fileSize else if f == full then rest else 0
  {
    assert (f + 1) * fileSize == f * fileSize + fileSize;
    if f < full {
      MulLess(f, full, fileSize);
    } else if full < f {
      MulLess(full, f, fileSize);
    }
  }

  /** `r` whole blocks and one more fit into `size` bytes exactly when `r` is below their quotient. */
  lemma FitsExactly(r: nat, size: nat, blockSize: nat)
    requires blockSize > 0
    ensures r * blockSize + blockSize <= size <==> r < size / blockSize
  {
    var q := size / blockSize;
    assert q * blockSize <= size < q * blockSize + blockSize;
    if r < q {
      MulLess(r, q, blockSize);
    } else {
      MulLeq(q, r, blockSize);
    }
  }

  lemma QuotientAtMost(a: nat, b: nat, d: nat)
    requires a <= b && d > 0
    ensures a / d <= b / d
  {
    if b / d < a / d {
      MulLess(b / d, a / d, d);
    }
  }

  /** Where a block lies relative to the full files, with the quotients named. */
  lemma PlacedBlock(b: nat, f: nat, r: nat, n: nat, full: nat, spare: nat)
    requires n > 0 && b == f * n + r && r < n && spare <= n
    ensures b < full * n + spare <==> f < full || (f == full && r < spare)
  {
    if f < full {
      MulLess(f, full, n);
    } else if full < f {
      MulLess(full, f, n);
    }
  }

  /** The whole block fits its file, with the quotients named. */
  lemma RoomExactly(quota: nat, blockSize: nat, fileSize: nat, f: nat, r: nat, n: nat, full: nat, rest: nat)
    requires 0 < blockSize <= fileSize && quota == full * fileSize + rest && rest < fileSize
    requires r < n == fileSize / blockSize
    ensures HasRoom(quota, fileSize, f, r * blockSize + blockSize) <==> f < full || (f == full && r < rest / blockSize)
  {
    SizesOfFiles(quota, fileSize, full, rest, f);
    FitsExactly(r, fileSize, blockSize);
    FitsExactly(r, rest, blockSize);
    NonNegative(r, blockSize);
    if SizeOfFile(quota, fileSize, f) > 0 {
      FileIndexInRange(f, quota, fileSize);
    }
  }

  lemma NonNegative(a: nat, b: nat)
    ensures a * b >= 0
  {
  }

  /** A block fits the files exactly when it is one of the first `BlocksInside` blocks. */
  lemma InsideExactly(b: nat, quota: nat, blockSize: nat, fileSize: nat)
    requires 0 < blockSize <= fileSize
    ensures Inside(b, quota, blockSize, fileSize) <==> b < BlocksInside(quota, blockSize, fileSize)
  {
    AtLeastOne(fileSize, blockSize);
    var n := fileSize / blockSize;
    QuotientAtMost(quota % fileSize, fileSize, blockSize);
    RoomExactly(quota, blockSize, fileSize, b / n, b % n, n, quota / fileSize, quota % fileSize);
    PlacedBlock(b, b / n, b % n, n, quota / fileSize, (quota % fileSize) / blockSize);
  }

  lemma InsideUpTo(total: nat, inside: nat, quota: nat, blockSize: nat, fileSize: nat)
    requires 0 < blockSize <= fileSize && forall b: nat :: Inside(b, quota, blockSize, fileSize) <==> b < inside
    ensures (forall b: nat :: b < total ==> Inside(b, quota, blockSize, fileSize)) <==> total <= inside
  {
    if inside < total {
      assert !Inside(inside, quota, blockSize, fileSize);
    }
  }

  lemma BlocksInsideNatural(quota: nat, blockSize: nat, fileSize: nat)
    requires 0 < blockSize <= fileSize
    ensures BlocksInside(quota, blockSize, fileSize) >= 0
  {
    NonNegative(quota / fileSize, fileSize / blockSize);
  }

  /** All allocatable blocks fit the files exactly when there are no more of them than the files hold. */
  lemma AllInsideExactly(quota: nat, blockSize: nat, fileSize: nat)
    requires 0 < blockSize <= fileSize
    ensures (forall b: nat :: b < quota / blockSize ==> Inside(b, quota, blockSize, fileSize))
       <==> quota / blockSize <= BlocksInside(quota, blockSize, fileSize)
  {
    BlocksInsideNatural(quota, blockSize, fileSize);
    forall b: nat ensures Inside(b, quota, blockSize, fileSize) <==> b < BlocksInside(quota, blockSize, fileSize) {
      InsideExactly(b, quota, blockSize, fileSize);
    }
    InsideUpTo(quota / blockSize, BlocksInside(quota, blockSize, fileSize), quota, blockSize, fileSize);
  }

  /** Up to 10 GB of capacity the cache opens a single file, which holds every block. */
  lemma SmallCacheInside(b: nat, capacity: nat, blockSize: nat)
    requires 0 < blockSize <= capacity <= MAX_FILE_SIZE && b < capacity / blockSize
    ensures Inside(b, capacity, blockSize, BlockFileSize(capacity, blockSize))
  {
    BlockInsideFile(b, capacity, blockSize, BlockFileSize(capacity, blockSize));
  }

  /** A 30 GB cache of 3 MB blocks: its last block belongs to a fourth file, and there are three. */
  lemma UnaddressableBlock()
    ensures var capacity, blockSize := 32212254720, 3145728;
            var fileSize := BlockFileSize(capacity, blockSize);
            && fileSize == 10737418240 && FileCount(capacity, fileSize) == 3 && 10239 < capacity / blockSize
            && BlockFileOffset(10239, 0, blockSize, fileSize) == Some((3, 0))
            && !Inside(10239, capacity, blockSize, fileSize)
  {
    DivUnique(10737418240, 3145728, 3413);
    DivUnique(10239, 3413, 3);
  }

  /** A cache of 10 GB and 2 MB in 3 MB blocks: every file exists, but the last one is shorter than its block. */
  lemma BlockBeyondShortFile()
    ensures var capacity, blockSize := 10739515392, 3145728;
            var fileSize := BlockFileSize(capacity, blockSize);
            && FileCount(capacity, fileSize) == 2 && SizeOfFile(capacity, fileSize, 1) == 2097152
            && 3413 < capacity / blockSize && BlockFileOffset(3413, 0, blockSize, fileSize) == Some((1, 0))
            && !Inside(3413, capacity, blockSize, fileSize)
  {
    DivUnique(10737418240, 3145728, 3413);
    DivUnique(3413, 3413, 1);
    DivUnique(10739515392, 3145728, 3414);
  }
}
