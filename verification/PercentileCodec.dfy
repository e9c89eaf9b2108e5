/**
 The binary form of a percentile aggregation state (version 4), over bit patterns.

 Single- and double-precision fields are kept as the bits that `to_le_bytes` writes.
 */
module PercentileCodec {
  import opened Common
  import opened Sequences

  type U32 = x: int | 0 <= x < 0x1_0000_0000
  type U64 = x: int | 0 <= x < 0x1_0000_0000_0000_0000

  const MAGIC: Byte := 0xA2
  const VERSION: Byte := 4
  const LEGACY_VERSION: Byte := 3
  const KIND_NONE: Byte := 0
  const KIND_SCALAR: Byte := 1
  const KIND_ARRAY: Byte := 2
  const HEADER_LEN: nat := 11
  const DEFAULT_COMPRESSION: nat := 10000
  const MIN_COMPRESSION: nat := 2048
  const MAX_COMPRESSION: nat := 10000

  datatype CentroidBits = CentroidBits(mean: U32, weight: U32)

  datatype DigestBits = DigestBits(
    compression: U32, min: U32, max: U32,
    maxProcessed: U64, maxUnprocessed: U64,
    processedWeight: U32, unprocessedWeight: U32,
    processed: seq<CentroidBits>, unprocessed: seq<CentroidBits>, cumulative: seq<U32>)

  datatype QuantileSpec = Scalar(q: U64) | Array(qs: seq<U64>)

  datatype PercentileState = PercentileState(digest: DigestBits, quantiles: Option<QuantileSpec>, compression: U32)

  datatype CodecError =
    | PayloadTooShort | BadMagic | BadVersion | LegacyPayload
    | Truncated | BadQuantileMetadata | TrailingBytes

  // ---------------------------------------------------------------------
  // Little-endian integers
  // ---------------------------------------------------------------------

  function Pow256(w: nat): (p: nat)
    ensures p > 0
  {
    if w == 0 then 1 else 0x100 * Pow256(w - 1)
  }

  function ToLE(n: nat, width: nat): (bs: seq<Byte>)
    ensures |bs| == width
  {
    if width == 0 then [] else [n % 0x100] + ToLE(n / 0x100, width - 1)
  }

  function FromLE(bs: seq<Byte>): nat {
    if bs == [] then 0 else bs[0] + 0x100 * FromLE(bs[1..])
  }

  lemma {:induction false} LERoundTrip(n: nat, width: nat)
    requires n < Pow256(width)
    ensures FromLE(ToLE(n, width)) == n
  {
    if width > 0 {
      LERoundTrip(n / 0x100, width - 1);
      assert ToLE(n, width)[1..] == ToLE(n / 0x100, width - 1);
    }
  }

  /** Byte `i` is the digit of 256 to the `i`: the lowest comes first. */
  lemma {:induction false} LowestByteFirst(n: nat, width: nat, i: nat)
    requires i < width
    ensures ToLE(n, width)[i] == n / Pow256(i) % 0x100
  {
    if i > 0 {
      LowestByteFirst(n / 0x100, width - 1, i - 1);
      DivideTwice(n, Pow256(i - 1));
    }
  }

  lemma DivideTwice(n: nat, p: nat)
    requires p > 0
    ensures n / 0x100 / p == n / (0x100 * p)
  {
    var m := n / 0x100;
    var q, r := m / p, m % p;
    assert m == q * p + r;
    QuotientIs(n, 0x100 * p, q, 0x100 * r + n % 0x100);
  }

  lemma QuotientIs(n: nat, d: nat, q: nat, r: nat)
    requires r < d && n == q * d + r
    ensures n / d == q
  {
    SameQuotient(n / d, q, d, n % d, r);
  }

  lemma SameQuotient(x: nat, y: nat, d: nat, r: nat, s: nat)
    requires r < d && s < d && x * d + r == y * d + s
    ensures x == y
  {
    if x < y {
      FactorGap(x, y, d);
    } else if y < x {
      FactorGap(y, x, d);
    }
  }

  lemma FactorGap(x: nat, y: nat, d: nat)
    requires x < y
    ensures x * d + d <= y * d
  {
    var gap := y - x - 1;
    assert gap * d >= 0;
    assert y * d == (x + 1 + gap) * d == x * d + d + gap * d;
  }

  lemma {:induction false} FromLEBound(bs: seq<Byte>)
    ensures FromLE(bs) < Pow256(|bs|)
  {
    if bs != [] {
      FromLEBound(bs[1..]);
    }
  }

  lemma PowerValues()
    ensures Pow256(4) == 0x1_0000_0000 && Pow256(8) == 0x1_0000_0000_0000_0000
  {
    assert Pow256(4) == 0x100 * (0x100 * (0x100 * (0x100 * Pow256(0))));
    assert Pow256(8) == 0x100 * (0x100 * (0x100 * (0x100 * Pow256(4))));
  }

  function Bytes32(n: U32): (bs: seq<Byte>)
    ensures |bs| == 4
  {
    ToLE(n, 4)
  }

  function Bytes64(n: U64): (bs: seq<Byte>)
    ensures |bs| == 8
  {
    ToLE(n, 8)
  }

  // ---------------------------------------------------------------------
  // Encoding
  // ---------------------------------------------------------------------

  function CentroidBytes(cs: seq<CentroidBits>): (bs: seq<Byte>)
    ensures |bs| == 8 * |cs|
  {
    if cs == [] then []
    else Bytes32(cs[0].mean) + (Bytes32(cs[0].weight) + CentroidBytes(cs[1..]))
  }

  function WordBytes(ws: seq<U32>): (bs: seq<Byte>)
    ensures |bs| == 4 * |ws|
  {
    if ws == [] then [] else Bytes32(ws[0]) + WordBytes(ws[1..])
  }

  function LongBytes(ws: seq<U64>): (bs: seq<Byte>)
    ensures |bs| == 8 * |ws|
  {
    if ws == [] then [] else Bytes64(ws[0]) + LongBytes(ws[1..])
  }

  /** Rust's `as u32` on a length. */
  function Len32(n: nat): U32 {
    if n < 0x1_0000_0000 then n else n % 0x1_0000_0000
  }

  function SerializeDigest(d: DigestBits): (bs: seq<Byte>)
    ensures |bs| >= 48
  {
    Bytes32(d.compression) + (Bytes32(d.min) + (Bytes32(d.max)
    + (Bytes64(d.maxProcessed) + (Bytes64(d.maxUnprocessed)
    + (Bytes32(d.processedWeight) + (Bytes32(d.unprocessedWeight) + SerializeLists(d)))))))
  }

  /** A list behind its 32-bit length. */
  function CentroidList(cs: seq<CentroidBits>): (bs: seq<Byte>)
    ensures |bs| == 4 + 8 * |cs|
  {
    Bytes32(Len32(|cs|)) + CentroidBytes(cs)
  }

  function WordList(ws: seq<U32>): (bs: seq<Byte>)
    ensures |bs| == 4 + 4 * |ws|
  {
    Bytes32(Len32(|ws|)) + WordBytes(ws)
  }

  function SerializeLists(d: DigestBits): (bs: seq<Byte>)
    ensures |bs| >= 12
  {
    CentroidList(d.processed) + (CentroidList(d.unprocessed) + WordList(d.cumulative))
  }

  predicate Empty(d: DigestBits) {
    d.processed == [] && d.unprocessed == []
  }

  function QuantileKind(spec: Option<QuantileSpec>): Byte {
    match spec
    case None => KIND_NONE
    case Some(Scalar(_)) => KIND_SCALAR
    case Some(Array(_)) => KIND_ARRAY
  }

  function QuantileValues(spec: Option<QuantileSpec>): seq<U64> {
    match spec
    case None => []
    case Some(Scalar(q)) => [q]
    case Some(Array(qs)) => qs
  }

  /** An empty digest takes no bytes at all. */
  function EncodeState(s: PercentileState): seq<Byte> {
    var qs := QuantileValues(s.quantiles);
    [MAGIC, VERSION, QuantileKind(s.quantiles)]
    + (Bytes32(s.compression) + (Bytes32(Len32(|qs|))
    + (LongBytes(qs) + if Empty(s.digest) then [] else SerializeDigest(s.digest))))
  }

  // ---------------------------------------------------------------------
  // A fresh digest
  // ---------------------------------------------------------------------

  const F32_MAX_BITS: U32 := 0x7f7f_ffff
  const F32_MIN_BITS: U32 := 0xff7f_ffff

  function Log2(n: nat): (e: nat)
    requires n > 0
    ensures Pow2(e) <= n < Pow2(e + 1)
  {
    if n == 1 then 0 else Log2(n / 2) + 1
  }

  function Pow2(e: nat): (p: nat)
    ensures p > 0
  {
    if e == 0 then 1 else 2 * Pow2(e - 1)
  }

  /** The 24-bit significand of `n as f32` and the power of two it is scaled by, rounding half to even. */
  function RoundF32(n: nat): (nat, nat) {
    if n < 0x100_0000 then (n, 0)
    else
      var shift := Log2(n) - 23;
      if shift <= 0 then (n, 0) else
      var unit := Pow2(shift);
      var q, r := n / unit, n % unit;
      (if 2 * r > unit || (2 * r == unit && q % 2 == 1) then q + 1 else q, shift)
  }

  /** The value of `n as f32`. */
  function F32Value(n: nat): nat {
    var (m, shift) := RoundF32(n);
    m * Pow2(shift)
  }

  /** The bits of `n as f32`. */
  function F32Bits(n: nat): U32 {
    var v := F32Value(n);
    if v == 0 then 0
    else
      var e := Log2(v);
      var fraction := if e <= 23 then (v - Pow2(e)) * Pow2(23 - e) else v / Pow2(e - 23) - 0x80_0000;
      ((127 + e) * 0x80_0000 + fraction) % 0x1_0000_0000
  }

  /** `TDigest::new(compression as f32)`. */
  function Fresh(compression: U32): (d: DigestBits)
    ensures Empty(d)
  {
    var c := F32Value(compression);
    DigestBits(F32Bits(compression), F32_MAX_BITS, F32_MIN_BITS,
               (2 * c) % 0x1_0000_0000_0000_0000, (8 * c) % 0x1_0000_0000_0000_0000, 0, 0, [], [], [])
  }

  // ---------------------------------------------------------------------
  // Decoding
  // ---------------------------------------------------------------------

  /** A little-endian integer of `width` bytes at `offset`, and the offset after it. */
  function ReadLE(payload: seq<Byte>, offset: nat, width: nat): (r: Option<(nat, nat)>)
    ensures r.Some? ==> r.value.0 < Pow256(width) && r.value.1 == offset + width <= |payload|
  {
    if offset + width > |payload| then None
    else
      FromLEBound(payload[offset..offset + width]);
      Some((FromLE(payload[offset..offset + width]), offset + width))
  }

  function ReadU32(payload: seq<Byte>, offset: nat): (r: Option<(U32, nat)>)
    ensures r.Some? ==> r.value.1 == offset + 4 <= |payload|
  {
    PowerValues();
    match ReadLE(payload, offset, 4)
    case None => None
    case Some((v, next)) => Some((v, next))
  }

  function ReadU64(payload: seq<Byte>, offset: nat): (r: Option<(U64, nat)>)
    ensures r.Some? ==> r.value.1 == offset + 8 <= |payload|
  {
    PowerValues();
    match ReadLE(payload, offset, 8)
    case None => None
    case Some((v, next)) => Some((v, next))
  }

  function ReadCentroids(payload: seq<Byte>, offset: nat, n: nat): Option<(seq<CentroidBits>, nat)>
    decreases n
  {
    if n == 0 then Some(([], offset))
    else match ReadU32(payload, offset)
      case None => None
      case Some((mean, o1)) =>
        match ReadU32(payload, o1)
        case None => None
        case Some((weight, o2)) =>
          match ReadCentroids(payload, o2, n - 1)
          case None => None
          case Some((rest, o3)) => Some(([CentroidBits(mean, weight)] + rest, o3))
  }

  function ReadWords(payload: seq<Byte>, offset: nat, n: nat): Option<(seq<U32>, nat)>
    decreases n
  {
    if n == 0 then Some(([], offset))
    else match ReadU32(payload, offset)
      case None => None
      case Some((w, o1)) =>
        match ReadWords(payload, o1, n - 1)
        case None => None
        case Some((rest, o2)) => Some(([w] + rest, o2))
  }

  function ReadLongs(payload: seq<Byte>, offset: nat, n: nat): Option<(seq<U64>, nat)>
    decreases n
  {
    if n == 0 then Some(([], offset))
    else match ReadU64(payload, offset)
      case None => None
      case Some((w, o1)) =>
        match ReadLongs(payload, o1, n - 1)
        case None => None
        case Some((rest, o2)) => Some(([w] + rest, o2))
  }

  /** A length-prefixed list of centroids. */
  function ReadCentroidList(payload: seq<Byte>, offset: nat): Option<(seq<CentroidBits>, nat)> {
    match ReadU32(payload, offset)
    case None => None
    case Some((n, next)) => ReadCentroids(payload, next, n)
  }

  function ReadWordList(payload: seq<Byte>, offset: nat): Option<(seq<U32>, nat)> {
    match ReadU32(payload, offset)
    case None => None
    case Some((n, next)) => ReadWords(payload, next, n)
  }

  /** The seven scalar fields at the front of a digest payload; the lists are still empty. */
  function ReadScalars(payload: seq<Byte>): Option<(DigestBits, nat)> {
    match ReadU32(payload, 0)
    case None => None
    case Some((compression, o1)) =>
      match ReadU32(payload, o1)
      case None => None
      case Some((min, o2)) =>
        match ReadU32(payload, o2)
        case None => None
        case Some((max, o3)) => ReadLimits(payload, o3, compression, min, max)
  }

  function ReadLimits(payload: seq<Byte>, offset: nat, compression: U32, min: U32, max: U32): Option<(DigestBits, nat)> {
    match ReadU64(payload, offset)
    case None => None
    case Some((maxProcessed, o1)) =>
      match ReadU64(payload, o1)
      case None => None
      case Some((maxUnprocessed, o2)) =>
        match ReadU32(payload, o2)
        case None => None
        case Some((pw, o3)) =>
          match ReadU32(payload, o3)
          case None => None
          case Some((uw, o4)) =>
            Some((DigestBits(compression, min, max, maxProcessed, maxUnprocessed, pw, uw, [], [], []), o4))
  }

  function ReadLists(payload: seq<Byte>, offset: nat, d: DigestBits): Option<(DigestBits, nat)> {
    match ReadCentroidList(payload, offset)
    case None => None
    case Some((processed, o1)) =>
      match ReadCentroidList(payload, o1)
      case None => None
      case Some((unprocessed, o2)) =>
        match ReadWordList(payload, o2)
        case None => None
        case Some((cumulative, o3)) =>
          Some((d.(processed := processed, unprocessed := unprocessed, cumulative := cumulative), o3))
  }

  function DeserializeDigest(payload: seq<Byte>): Result<DigestBits, CodecError> {
    match ReadScalars(payload)
    case None => Err(Truncated)
    case Some((d, o1)) =>
      match ReadLists(payload, o1, d)
      case None => Err(Truncated)
      case Some((d', end)) => if end != |payload| then Err(TrailingBytes) else Ok(d')
  }

  function SpecOf(kind: Byte, qs: seq<U64>): Result<Option<QuantileSpec>, CodecError> {
    if kind == KIND_NONE && qs == [] then Ok(None)
    else if kind == KIND_SCALAR && |qs| == 1 then Ok(Some(Scalar(qs[0])))
    else if kind == KIND_ARRAY then Ok(Some(Array(qs)))
    else Err(BadQuantileMetadata)
  }

  function DecodeV4(payload: seq<Byte>): Result<PercentileState, CodecError>
    requires |payload| >= HEADER_LEN
  {
    match ReadU32(payload, 3)
    case None => Err(Truncated)
    case Some((compression, _)) =>
      match ReadU32(payload, 7)
      case None => Err(Truncated)
      case Some((count, _)) =>
        match ReadLongs(payload, HEADER_LEN, count)
        case None => Err(Truncated)
        case Some((qs, end)) =>
          match SpecOf(payload[2], qs)
          case Err(e) => Err(e)
          case Ok(spec) =>
            match DecodeTail(payload, end, compression)
            case Err(e) => Err(e)
            case Ok(d) => Ok(PercentileState(d, spec, compression))
  }

  /** The digest stored from `end` on; nothing stored means a fresh one. */
  function DecodeTail(payload: seq<Byte>, end: nat, compression: U32): Result<DigestBits, CodecError> {
    if end >= |payload| then Ok(Fresh(compression)) else DeserializeDigest(payload[end..])
  }

  const DEFAULT_STATE: PercentileState := PercentileState(Fresh(DEFAULT_COMPRESSION), None, DEFAULT_COMPRESSION)

  function DecodeState(payload: seq<Byte>): Result<PercentileState, CodecError> {
    if payload == [] then Ok(DEFAULT_STATE)
    else if |payload| < HEADER_LEN then Err(PayloadTooShort)
    else if payload[0] != MAGIC then Err(BadMagic)
    else if payload[1] == VERSION then DecodeV4(payload)
    else if payload[1] == LEGACY_VERSION then Err(LegacyPayload)
    else Err(BadVersion)
  }

  // ---------------------------------------------------------------------
  // Round trip
  // ---------------------------------------------------------------------

  /** `bytes` occur in `payload` at `offset`. */
  ghost predicate At(payload: seq<Byte>, offset: nat, bytes: seq<Byte>) {
    offset + |bytes| <= |payload| && payload[offset..offset + |bytes|] == bytes
  }

  lemma AtSplit(payload: seq<Byte>, offset: nat, a: seq<Byte>, b: seq<Byte>)
    requires At(payload, offset, a + b)
    ensures At(payload, offset, a) && At(payload, offset + |a|, b)
  {
    var whole := payload[offset..offset + |a + b|];
    assert whole[..|a|] == a && whole[|a|..] == b;
    assert payload[offset..offset + |a|] == whole[..|a|];
    assert payload[offset + |a|..offset + |a| + |b|] == whole[|a|..];
  }

  lemma ReadBack32(payload: seq<Byte>, offset: nat, n: U32)
    requires At(payload, offset, Bytes32(n))
    ensures ReadU32(payload, offset) == Some((n, offset + 4))
  {
    PowerValues();
    LERoundTrip(n, 4);
  }

  lemma ReadBack64(payload: seq<Byte>, offset: nat, n: U64)
    requires At(payload, offset, Bytes64(n))
    ensures ReadU64(payload, offset) == Some((n, offset + 8))
  {
    PowerValues();
    LERoundTrip(n, 8);
  }

  /** Reading a word and knowing what follows it. */
  lemma Next32(payload: seq<Byte>, offset: nat, n: U32, rest: seq<Byte>)
    requires At(payload, offset, Bytes32(n) + rest)
    ensures ReadU32(payload, offset) == Some((n, offset + 4)) && At(payload, offset + 4, rest)
  {
    AtSplit(payload, offset, Bytes32(n), rest);
    ReadBack32(payload, offset, n);
  }

  lemma Next64(payload: seq<Byte>, offset: nat, n: U64, rest: seq<Byte>)
    requires At(payload, offset, Bytes64(n) + rest)
    ensures ReadU64(payload, offset) == Some((n, offset + 8)) && At(payload, offset + 8, rest)
  {
    AtSplit(payload, offset, Bytes64(n), rest);
    ReadBack64(payload, offset, n);
  }

  lemma {:induction false} CentroidsBack(payload: seq<Byte>, offset: nat, cs: seq<CentroidBits>)
    requires At(payload, offset, CentroidBytes(cs))
    ensures ReadCentroids(payload, offset, |cs|) == Some((cs, offset + 8 * |cs|))
    decreases |cs|
  {
    if cs != [] {
      var tail := CentroidBytes(cs[1..]);
      Next32(payload, offset, cs[0].mean, Bytes32(cs[0].weight) + tail);
      Next32(payload, offset + 4, cs[0].weight, tail);
      CentroidsBack(payload, offset + 8, cs[1..]);
      assert [CentroidBits(cs[0].mean, cs[0].weight)] + cs[1..] == cs;
    }
  }

  lemma {:induction false} WordsBack(payload: seq<Byte>, offset: nat, ws: seq<U32>)
    requires At(payload, offset, WordBytes(ws))
    ensures ReadWords(payload, offset, |ws|) == Some((ws, offset + 4 * |ws|))
    decreases |ws|
  {
    if ws != [] {
      Next32(payload, offset, ws[0], WordBytes(ws[1..]));
      WordsBack(payload, offset + 4, ws[1..]);
      assert [ws[0]] + ws[1..] == ws;
    }
  }

  lemma {:induction false} LongsBack(payload: seq<Byte>, offset: nat, ws: seq<U64>)
    requires At(payload, offset, LongBytes(ws))
    ensures ReadLongs(payload, offset, |ws|) == Some((ws, offset + 8 * |ws|))
    decreases |ws|
  {
    if ws != [] {
      Next64(payload, offset, ws[0], LongBytes(ws[1..]));
      LongsBack(payload, offset + 8, ws[1..]);
      assert [ws[0]] + ws[1..] == ws;
    }
  }

  /** Every list is short enough for its 32-bit length prefix. */
  predicate Fits(s: PercentileState) {
    && |QuantileValues(s.quantiles)| < 0x1_0000_0000
    && |s.digest.processed| < 0x1_0000_0000
    && |s.digest.unprocessed| < 0x1_0000_0000
    && |s.digest.cumulative| < 0x1_0000_0000
  }

  lemma CountedCentroidsBack(payload: seq<Byte>, offset: nat, cs: seq<CentroidBits>, n: U32)
    requires n == |cs| && At(payload, offset, Bytes32(n) + CentroidBytes(cs))
    ensures ReadCentroidList(payload, offset) == Some((cs, offset + 4 + 8 * |cs|))
  {
    Next32(payload, offset, n, CentroidBytes(cs));
    CentroidsBack(payload, offset + 4, cs);
  }

  lemma CentroidListBack(payload: seq<Byte>, offset: nat, cs: seq<CentroidBits>)
    requires |cs| < 0x1_0000_0000 && At(payload, offset, CentroidList(cs))
    ensures ReadCentroidList(payload, offset) == Some((cs, offset + 4 + 8 * |cs|))
  {
    CountedCentroidsBack(payload, offset, cs, |cs|);
  }

  lemma CountedWordsBack(payload: seq<Byte>, offset: nat, ws: seq<U32>, n: U32)
    requires n == |ws| && At(payload, offset, Bytes32(n) + WordBytes(ws))
    ensures ReadWordList(payload, offset) == Some((ws, offset + 4 + 4 * |ws|))
  {
    Next32(payload, offset, n, WordBytes(ws));
    WordsBack(payload, offset + 4, ws);
  }

  lemma WordListBack(payload: seq<Byte>, offset: nat, ws: seq<U32>)
    requires |ws| < 0x1_0000_0000 && At(payload, offset, WordList(ws))
    ensures ReadWordList(payload, offset) == Some((ws, offset + 4 + 4 * |ws|))
  {
    CountedWordsBack(payload, offset, ws, |ws|);
  }

  lemma ListsBack(payload: seq<Byte>, offset: nat, d: DigestBits, header: DigestBits)
    requires |d.processed| < 0x1_0000_0000 && |d.unprocessed| < 0x1_0000_0000 && |d.cumulative| < 0x1_0000_0000
    requires At(payload, offset, SerializeLists(d))
    ensures ReadLists(payload, offset, header)
         == Some((header.(processed := d.processed, unprocessed := d.unprocessed, cumulative := d.cumulative),
                  offset + |SerializeLists(d)|))
  {
    AtSplit3(payload, offset, CentroidList(d.processed), CentroidList(d.unprocessed), WordList(d.cumulative));
    var o1 := offset + 4 + 8 * |d.processed|;
    var o2 := o1 + 4 + 8 * |d.unprocessed|;
    var o3 := o2 + 4 + 4 * |d.cumulative|;
    assert o3 == offset + |SerializeLists(d)|;
    ListReads(payload, offset, o1, o2, d);
    ListsRead(payload, offset, header, (d.processed, o1), (d.unprocessed, o2), (d.cumulative, o3));
  }

  lemma ListReads(payload: seq<Byte>, offset: nat, o1: nat, o2: nat, d: DigestBits)
    requires |d.processed| < 0x1_0000_0000 && |d.unprocessed| < 0x1_0000_0000 && |d.cumulative| < 0x1_0000_0000
    requires o1 == offset + 4 + 8 * |d.processed| && o2 == o1 + 4 + 8 * |d.unprocessed|
    requires At(payload, offset, CentroidList(d.processed)) && At(payload, o1, CentroidList(d.unprocessed))
    requires At(payload, o2, WordList(d.cumulative))
    ensures ReadCentroidList(payload, offset) == Some((d.processed, o1))
    ensures ReadCentroidList(payload, o1) == Some((d.unprocessed, o2))
    ensures ReadWordList(payload, o2) == Some((d.cumulative, o2 + 4 + 4 * |d.cumulative|))
  {
    CentroidListBack(payload, offset, d.processed);
    CentroidListBack(payload, o1, d.unprocessed);
    WordListBack(payload, o2, d.cumulative);
  }

  lemma AtSplit3(payload: seq<Byte>, offset: nat, a: seq<Byte>, b: seq<Byte>, c: seq<Byte>)
    requires At(payload, offset, a + (b + c))
    ensures At(payload, offset, a) && At(payload, offset + |a|, b) && At(payload, offset + |a| + |b|, c)
  {
    AtSplit(payload, offset, a, b + c);
    AtSplit(payload, offset + |a|, b, c);
  }

  lemma ListsRead(payload: seq<Byte>, offset: nat, header: DigestBits,
                  p: (seq<CentroidBits>, nat), u: (seq<CentroidBits>, nat), c: (seq<U32>, nat))
    requires ReadCentroidList(payload, offset) == Some(p)
    requires ReadCentroidList(payload, p.1) == Some(u)
    requires ReadWordList(payload, u.1) == Some(c)
    ensures ReadLists(payload, offset, header)
         == Some((header.(processed := p.0, unprocessed := u.0, cumulative := c.0), c.1))
  {
  }

  lemma ScalarsBack(payload: seq<Byte>, d: DigestBits)
    requires At(payload, 0, SerializeDigest(d))
    ensures ReadScalars(payload) == Some((d.(processed := [], unprocessed := [], cumulative := []), 36))
    ensures At(payload, 36, SerializeLists(d))
  {
    var r7 := SerializeLists(d);
    var r6 := Bytes32(d.unprocessedWeight) + r7;
    var r5 := Bytes32(d.processedWeight) + r6;
    var r4 := Bytes64(d.maxUnprocessed) + r5;
    var r3 := Bytes64(d.maxProcessed) + r4;
    var r2 := Bytes32(d.max) + r3;
    var r1 := Bytes32(d.min) + r2;
    Next32(payload, 0, d.compression, r1);
    Next32(payload, 4, d.min, r2);
    Next32(payload, 8, d.max, r3);
    Next64(payload, 12, d.maxProcessed, r4);
    Next64(payload, 20, d.maxUnprocessed, r5);
    Next32(payload, 28, d.processedWeight, r6);
    Next32(payload, 32, d.unprocessedWeight, r7);
  }

  /** A digest payload decodes to the digest it was made from, whatever its contents. */
  lemma DigestRoundTrip(d: DigestBits)
    requires |d.processed| < 0x1_0000_0000 && |d.unprocessed| < 0x1_0000_0000 && |d.cumulative| < 0x1_0000_0000
    ensures DeserializeDigest(SerializeDigest(d)) == Ok(d)
  {
    var payload := SerializeDigest(d);
    assert payload[0..|payload|] == payload;
    ScalarsBack(payload, d);
    ListsBack(payload, 36, d, d.(processed := [], unprocessed := [], cumulative := []));
  }

  lemma HeaderBack(payload: seq<Byte>, kind: Byte, compression: U32, qs: seq<U64>, n: U32, tail: seq<Byte>)
    requires n == |qs|
    requires payload == [MAGIC, VERSION, kind] + (Bytes32(compression) + (Bytes32(n) + (LongBytes(qs) + tail)))
    ensures |payload| == HEADER_LEN + 8 * |qs| + |tail|
    ensures payload[0] == MAGIC && payload[1] == VERSION && payload[2] == kind
    ensures ReadU32(payload, 3) == Some((compression, 7)) && ReadU32(payload, 7) == Some((n, HEADER_LEN))
    ensures ReadLongs(payload, HEADER_LEN, n) == Some((qs, HEADER_LEN + 8 * |qs|))
    ensures payload[HEADER_LEN + 8 * |qs|..] == tail
  {
    var head, body := [MAGIC, VERSION, kind], Bytes32(compression) + (Bytes32(n) + (LongBytes(qs) + tail));
    assert payload[0..|payload|] == payload;
    AtSplit(payload, 0, head, body);
    Next32(payload, 3, compression, Bytes32(n) + (LongBytes(qs) + tail));
    Next32(payload, 7, n, LongBytes(qs) + tail);
    AtSplit(payload, HEADER_LEN, LongBytes(qs), tail);
    LongsBack(payload, HEADER_LEN, qs);
  }

  /** The digest a decoder sees: nothing is stored for an empty one. */
  function Stored(s: PercentileState): DigestBits {
    if Empty(s.digest) then Fresh(s.compression) else s.digest
  }

  lemma DecodeEncoded(s: PercentileState)
    requires Fits(s)
    ensures DecodeState(EncodeState(s)) == Ok(s.(digest := Stored(s)))
  {
    var qs := QuantileValues(s.quantiles);
    DecodePayload(s, EncodeState(s), qs, |qs|, if Empty(s.digest) then [] else SerializeDigest(s.digest), Stored(s));
  }

  /** What follows the quantiles: nothing for a fresh digest, or a digest. */
  ghost predicate TailGives(tail: seq<Byte>, compression: U32, d: DigestBits) {
    || (tail == [] && d == Fresh(compression))
    || (tail == SerializeDigest(d) && |d.processed| < 0x1_0000_0000 && |d.unprocessed| < 0x1_0000_0000 && |d.cumulative| < 0x1_0000_0000)
  }

  lemma DecodePayload(s: PercentileState, payload: seq<Byte>, qs: seq<U64>, n: U32, tail: seq<Byte>, d: DigestBits)
    requires qs == QuantileValues(s.quantiles) && n == |qs| && TailGives(tail, s.compression, d)
    requires payload == [MAGIC, VERSION, QuantileKind(s.quantiles)] + (Bytes32(s.compression) + (Bytes32(n) + (LongBytes(qs) + tail)))
    ensures DecodeState(payload) == Ok(s.(digest := d))
  {
    HeaderBack(payload, QuantileKind(s.quantiles), s.compression, qs, n, tail);
    SpecBack(s.quantiles);
    TailBack(payload, HEADER_LEN + 8 * |qs|, tail, s.compression, d);
    V4From(payload, s.compression, n, qs, HEADER_LEN + 8 * |qs|, s.quantiles, d);
  }

  lemma TailBack(payload: seq<Byte>, end: nat, tail: seq<Byte>, compression: U32, d: DigestBits)
    requires |payload| == end + |tail| && payload[end..] == tail && TailGives(tail, compression, d)
    ensures DecodeTail(payload, end, compression) == Ok(d)
  {
    if tail == SerializeDigest(d) {
      DigestRoundTrip(d);
    }
  }

  lemma SpecBack(spec: Option<QuantileSpec>)
    ensures SpecOf(QuantileKind(spec), QuantileValues(spec)) == Ok(spec)
  {
  }

  lemma V4From(payload: seq<Byte>, compression: U32, n: U32, qs: seq<U64>, end: nat, spec: Option<QuantileSpec>, d: DigestBits)
    requires |payload| >= HEADER_LEN && payload[0] == MAGIC && payload[1] == VERSION
    requires ReadU32(payload, 3) == Some((compression, 7)) && ReadU32(payload, 7) == Some((n, HEADER_LEN))
    requires ReadLongs(payload, HEADER_LEN, n) == Some((qs, end))
    requires SpecOf(payload[2], qs) == Ok(spec)
    requires DecodeTail(payload, end, compression) == Ok(d)
    ensures DecodeState(payload) == Ok(PercentileState(d, spec, compression))
  {
  }

  /**
   Decoding an encoded state gives back exactly that state if and only if an empty digest in it
   is the fresh digest of its own compression.
   */
  lemma RoundTripExactly(s: PercentileState)
    requires Fits(s)
    ensures DecodeState(EncodeState(s)) == Ok(s) <==> (Empty(s.digest) ==> s.digest == Fresh(s.compression))
  {
    DecodeEncoded(s);
  }

  /** A state that does not survive: an empty digest that still has a weight. */
  lemma RoundTripCounterexample() returns (s: PercentileState)
    ensures Fits(s) && DecodeState(EncodeState(s)) != Ok(s)
  {
    s := PercentileState(Fresh(DEFAULT_COMPRESSION).(processedWeight := 1), None, DEFAULT_COMPRESSION);
    DecodeEncoded(s);
  }

  /** A payload that spells its digest out even when it is empty, which the encoder never does. */
  function FullPayload(s: PercentileState): seq<Byte>
    requires Fits(s)
  {
    var qs := QuantileValues(s.quantiles);
    [MAGIC, VERSION, QuantileKind(s.quantiles)] + (Bytes32(s.compression) + (Bytes32(Len32(|qs|)) + (LongBytes(qs) + SerializeDigest(s.digest))))
  }

  /** The decoder accepts such payloads, so it can return any state. */
  lemma EveryStateDecodes(s: PercentileState)
    requires Fits(s)
    ensures DecodeState(FullPayload(s)) == Ok(s)
  {
    var qs := QuantileValues(s.quantiles);
    DecodePayload(s, FullPayload(s), qs, |qs|, SerializeDigest(s.digest), s.digest);
  }

  // ---------------------------------------------------------------------
  // States the public operations can reach
  // ---------------------------------------------------------------------

  /**
   A history of public calls. What the sketch arithmetic produces is left open: an accepted
   value or a merge with a non-empty digest yields some digest with at least one centroid, as
   `TDigestOps.Sketch.Add` and `Merge` show.
   */
  datatype History =
    | Default
    | AddValue(before: History, result: DigestBits)
    | SetQuantiles(before: History, spec: QuantileSpec)
    | SetCompression(before: History, value: real)
    | MergeState(before: History, incoming: History, compatible: bool, result: DigestBits)
    | MergeSerialized(before: History, payload: seq<Byte>, compatible: bool, result: DigestBits)

  /** `None` is the error for a non-positive value; out-of-range values fall back to the default. */
  function NormalizeCompression(value: real): (r: Option<U32>)
    ensures r.None? <==> value <= 0.0
    ensures r.Some? ==> MIN_COMPRESSION <= r.value <= MAX_COMPRESSION
    ensures MIN_COMPRESSION as real <= value <= MAX_COMPRESSION as real ==> -0.5 < r.value as real - value <= 0.5
  {
    if value <= 0.0 then None
    else if value < MIN_COMPRESSION as real || value > MAX_COMPRESSION as real then Some(DEFAULT_COMPRESSION)
    else
      var rounded := (value + 0.5).Floor;
      assert value >= 2048.0 && value <= 10000.0;
      Some(rounded)
  }

  function Merged(target: PercentileState, incoming: PercentileState, compatible: bool, result: DigestBits): PercentileState {
    if incoming.quantiles.Some? && !compatible then target
    else
      var quantiles := if target.quantiles.None? then incoming.quantiles else target.quantiles;
      if Empty(target.digest) then PercentileState(incoming.digest, quantiles, incoming.compression)
      else
        var compression := if incoming.compression > target.compression then incoming.compression else target.compression;
        var digest := if Empty(incoming.digest) || Empty(result) then target.digest else result;
        PercentileState(digest, quantiles, compression)
  }

  /** States merged one after another into the first; `results[i]` is what the sketch makes of the digest of `states[i]`. */
  function MergeAll(states: seq<PercentileState>, results: seq<DigestBits>): PercentileState
    requires states != [] && |results| == |states|
  {
    var last := |states| - 1;
    if last == 0 then states[0] else Merged(MergeAll(states[..last], results[..last]), states[last], true, results[last])
  }

  /** `k` is where the first non-empty digest stands, or the last place if there is none. */
  ghost predicate FirstFilled(states: seq<PercentileState>, k: nat) {
    k < |states| && (forall i :: 0 <= i < k ==> Empty(states[i].digest)) && (Empty(states[k].digest) ==> k == |states| - 1)
  }

  /** `c` is the largest compression from place `k` on. */
  ghost predicate LargestFrom(states: seq<PercentileState>, k: nat, c: U32) {
    && (forall i :: k <= i < |states| ==> states[i].compression <= c)
    && exists i :: k <= i < |states| && states[i].compression == c
  }

  /**
   Merging in any number of states ends with the largest compression among those from the first
   non-empty one on: the compression of an empty target is dropped, however large it is.
   */
  lemma {:induction false} MergeAllCompression(states: seq<PercentileState>, results: seq<DigestBits>, k: nat)
    requires |results| == |states| && FirstFilled(states, k)
    ensures LargestFrom(states, k, MergeAll(states, results).compression)
    ensures Empty(MergeAll(states, results).digest) <==> Empty(states[k].digest)
    decreases |states|
  {
    var last := |states| - 1;
    if last > 0 {
      var front := states[..last];
      var k' := if k == last then last - 1 else k;
      MergeAllCompression(front, results[..last], k');
      var c :| k' <= c < last && front[c].compression == MergeAll(front, results[..last]).compression;
      assert states[c] == front[c];
      assert forall i :: k' <= i < last ==> states[i] == front[i];
    }
  }

  /** The digest it ends with comes from the last non-empty state: merged if one stood before it, else copied. */
  lemma {:induction false} MergeAllDigest(states: seq<PercentileState>, results: seq<DigestBits>, k: nat, j: nat)
    requires |results| == |states| && FirstFilled(states, k) && k <= j < |states|
    requires j > k ==> !Empty(states[j].digest) && !Empty(results[j])
    requires forall i :: j < i < |states| ==> Empty(states[i].digest)
    ensures MergeAll(states, results).digest == if j == k then states[k].digest else results[j]
    decreases |states|
  {
    var last := |states| - 1;
    if last > 0 {
      var front := states[..last];
      MergeAllCompression(front, results[..last], if k == last then last - 1 else k);
      if j < last {
        MergeAllDigest(front, results[..last], k, j);
      }
    }
  }

  /** The quantiles it ends with are the first that were given. */
  lemma {:induction false} MergeAllQuantiles(states: seq<PercentileState>, results: seq<DigestBits>, q: nat)
    requires |results| == |states| && q < |states| && forall i :: 0 <= i < q ==> states[i].quantiles.None?
    requires states[q].quantiles.None? ==> q == |states| - 1
    ensures MergeAll(states, results).quantiles == states[q].quantiles
    decreases |states|
  {
    var last := |states| - 1;
    if last > 0 {
      MergeAllQuantiles(states[..last], results[..last], if q == last then last - 1 else q);
    }
  }

  function Eval(h: History): PercentileState {
    match h
    case Default => DEFAULT_STATE
    case AddValue(before, result) =>
      var s := Eval(before);
      if Empty(result) then s else s.(digest := result)
    case SetQuantiles(before, spec) =>
      var s := Eval(before);
      if s.quantiles.None? then s.(quantiles := Some(spec)) else s
    case SetCompression(before, value) =>
      var s := Eval(before);
      (match NormalizeCompression(value)
       case None => s
       case Some(c) => s.(compression := c, digest := if Empty(s.digest) then Fresh(c) else s.digest))
    case MergeState(before, incoming, compatible, result) =>
      Merged(Eval(before), Eval(incoming), compatible, result)
    case MergeSerialized(before, payload, compatible, result) =>
      (match DecodeState(payload)
       case Err(_) => Eval(before)
       case Ok(decoded) => Merged(Eval(before), decoded, compatible, result))
  }

  ghost predicate EmptyMeansFresh(s: PercentileState) {
    Empty(s.digest) ==> s.digest == Fresh(s.compression)
  }

  /** The payload is refused, or an empty digest in it is the fresh one. */
  ghost predicate GoodPayload(payload: seq<Byte>) {
    DecodeState(payload).Ok? ==> EmptyMeansFresh(DecodeState(payload).value)
  }

  /** Every list in the states it passes through fits its length prefix, and its payloads are good. */
  ghost predicate HistoryFits(h: History) {
    && Fits(Eval(h))
    && match h
       case Default => true
       case AddValue(before, _) => HistoryFits(before)
       case SetQuantiles(before, _) => HistoryFits(before)
       case SetCompression(before, _) => HistoryFits(before)
       case MergeState(before, incoming, _, _) => HistoryFits(before) && HistoryFits(incoming)
       case MergeSerialized(before, payload, _, _) => HistoryFits(before) && GoodPayload(payload)
  }

  /** Along every history an empty digest is the fresh one for the current compression. */
  lemma {:induction false} EmptyStaysFresh(h: History)
    requires HistoryFits(h)
    ensures EmptyMeansFresh(Eval(h))
  {
    match h
    case Default =>
    case AddValue(before, _) => EmptyStaysFresh(before);
    case SetQuantiles(before, _) => EmptyStaysFresh(before);
    case SetCompression(before, _) => EmptyStaysFresh(before);
    case MergeState(before, incoming, _, _) =>
      EmptyStaysFresh(before);
      EmptyStaysFresh(incoming);
    case MergeSerialized(before, _, _, _) => EmptyStaysFresh(before);
  }

  /** What the encoder writes of a reachable state is a good payload. */
  lemma EncodedIsGood(h: History)
    requires HistoryFits(h)
    ensures GoodPayload(EncodeState(Eval(h)))
  {
    EmptyStaysFresh(h);
    DecodeEncoded(Eval(h));
  }

  /** Merged into a state without values or quantiles, an accepted payload gives one that survives exactly if it is good. */
  lemma MergedPayloadSurvivesExactly(before: History, payload: seq<Byte>, result: DigestBits)
    requires Empty(Eval(before).digest) && Eval(before).quantiles.None?
    requires DecodeState(payload).Ok? && Fits(DecodeState(payload).value)
    ensures var s := Eval(MergeSerialized(before, payload, true, result));
            DecodeState(EncodeState(s)) == Ok(s) <==> GoodPayload(payload)
  {
    MergedIntoEmpty(before, payload, result);
    RoundTripExactly(DecodeState(payload).value);
  }

  lemma MergedIntoEmpty(before: History, payload: seq<Byte>, result: DigestBits)
    requires Empty(Eval(before).digest) && Eval(before).quantiles.None? && DecodeState(payload).Ok?
    ensures Eval(MergeSerialized(before, payload, true, result)) == DecodeState(payload).value
  {
    EmptyTakesIncoming(Eval(before), DecodeState(payload).value, result);
  }

  lemma EmptyTakesIncoming(target: PercentileState, incoming: PercentileState, result: DigestBits)
    requires Empty(target.digest) && target.quantiles.None?
    ensures Merged(target, incoming, true, result) == incoming
  {
  }

  /** Every state the public operations can build survives encoding and decoding unchanged. */
  lemma ReachableRoundTrip(h: History)
    requires HistoryFits(h)
    ensures DecodeState(EncodeState(Eval(h))) == Ok(Eval(h))
  {
    EmptyStaysFresh(h);
    RoundTripExactly(Eval(h));
  }

  // ---------------------------------------------------------------------
  // The loops behind the codec
  // ---------------------------------------------------------------------

  method WriteCentroids(out: seq<Byte>, cs: seq<CentroidBits>) returns (r: seq<Byte>)
    ensures r == out + CentroidBytes(cs)
  {
    r := out;
    for i := 0 to |cs|
      invariant r + CentroidBytes(cs[i..]) == out + CentroidBytes(cs)
    {
      assert cs[i..][1..] == cs[i + 1..];
      r := r + Bytes32(cs[i].mean) + Bytes32(cs[i].weight);
    }
  }

  method WriteWords(out: seq<Byte>, ws: seq<U32>) returns (r: seq<Byte>)
    ensures r == out + WordBytes(ws)
  {
    r := out;
    for i := 0 to |ws|
      invariant r + WordBytes(ws[i..]) == out + WordBytes(ws)
    {
      assert ws[i..][1..] == ws[i + 1..];
      r := r + Bytes32(ws[i]);
    }
  }

  /** The digest writer. */
  method SerializeBinary(d: DigestBits) returns (out: seq<Byte>)
    ensures out == SerializeDigest(d)
  {
    out := Bytes32(d.compression);
    ghost var r6 := Bytes32(d.unprocessedWeight) + SerializeLists(d);
    ghost var r5 := Bytes32(d.processedWeight) + r6;
    ghost var r4 := Bytes64(d.maxUnprocessed) + r5;
    ghost var r3 := Bytes64(d.maxProcessed) + r4;
    ghost var r2 := Bytes32(d.max) + r3;
    Assoc(out, Bytes32(d.min), r2);
    out := out + Bytes32(d.min);
    Assoc(out, Bytes32(d.max), r3);
    out := out + Bytes32(d.max);
    Assoc(out, Bytes64(d.maxProcessed), r4);
    out := out + Bytes64(d.maxProcessed);
    Assoc(out, Bytes64(d.maxUnprocessed), r5);
    out := out + Bytes64(d.maxUnprocessed);
    Assoc(out, Bytes32(d.processedWeight), r6);
    out := out + Bytes32(d.processedWeight);
    Assoc(out, Bytes32(d.unprocessedWeight), SerializeLists(d));
    out := out + Bytes32(d.unprocessedWeight);
    out := WriteLists(out, d);
  }

  method WriteLists(out: seq<Byte>, d: DigestBits) returns (r: seq<Byte>)
    ensures r == out + SerializeLists(d)
  {
    r := WriteCentroids(out + Bytes32(Len32(|d.processed|)), d.processed);
    assert r == out + CentroidList(d.processed);
    ghost var first := r;
    r := WriteCentroids(r + Bytes32(Len32(|d.unprocessed|)), d.unprocessed);
    assert r == first + CentroidList(d.unprocessed);
    ghost var second := r;
    r := WriteWords(r + Bytes32(Len32(|d.cumulative|)), d.cumulative);
    assert r == second + WordList(d.cumulative);
    Assoc(out, CentroidList(d.processed), CentroidList(d.unprocessed) + WordList(d.cumulative));
    Assoc(first, CentroidList(d.unprocessed), WordList(d.cumulative));
  }

  /** The rest of a list read, behind the part already collected. */
  ghost function Behind<T>(front: seq<T>, r: Option<(seq<T>, nat)>): Option<(seq<T>, nat)> {
    match r
    case None => None
    case Some((rest, end)) => Some((front + rest, end))
  }

  lemma BehindSnoc<T>(front: seq<T>, x: T, r: Option<(seq<T>, nat)>)
    ensures Behind(front, Behind([x], r)) == Behind(front + [x], r)
  {
    if r.Some? {
      assert front + ([x] + r.value.0) == front + [x] + r.value.0;
    }
  }

  /** The list reader: two words per centroid, stopping at the first that is cut off. */
  method ReadCentroidLoop(payload: seq<Byte>, offset: nat, n: nat) returns (r: Option<(seq<CentroidBits>, nat)>)
    ensures r == ReadCentroids(payload, offset, n)
  {
    var cs: seq<CentroidBits>, at := [], offset;
    assert Behind(cs, ReadCentroids(payload, at, n)) == ReadCentroids(payload, offset, n) by {
      var all := ReadCentroids(payload, offset, n);
      if all.Some? {
        assert [] + all.value.0 == all.value.0;
      }
    }
    for i := 0 to n
      invariant Behind(cs, ReadCentroids(payload, at, n - i)) == ReadCentroids(payload, offset, n)
    {
      var mean := ReadU32(payload, at);
      if mean.None? {
        return None;
      }
      var weight := ReadU32(payload, mean.value.1);
      if weight.None? {
        return None;
      }
      var c := CentroidBits(mean.value.0, weight.value.0);
      ghost var later := ReadCentroids(payload, weight.value.1, n - i - 1);
      assert ReadCentroids(payload, at, n - i) == Behind([c], later);
      BehindSnoc(cs, c, later);
      cs := cs + [c];
      at := weight.value.1;
    }
    assert cs + [] == cs;
    r := Some((cs, at));
  }

  method ReadWordLoop(payload: seq<Byte>, offset: nat, n: nat) returns (r: Option<(seq<U32>, nat)>)
    ensures r == ReadWords(payload, offset, n)
  {
    var ws: seq<U32>, at := [], offset;
    assert Behind(ws, ReadWords(payload, at, n)) == ReadWords(payload, offset, n) by {
      var all := ReadWords(payload, offset, n);
      if all.Some? {
        assert [] + all.value.0 == all.value.0;
      }
    }
    for i := 0 to n
      invariant Behind(ws, ReadWords(payload, at, n - i)) == ReadWords(payload, offset, n)
    {
      var w := ReadU32(payload, at);
      if w.None? {
        return None;
      }
      ghost var later := ReadWords(payload, w.value.1, n - i - 1);
      assert ReadWords(payload, at, n - i) == Behind([w.value.0], later);
      BehindSnoc(ws, w.value.0, later);
      ws := ws + [w.value.0];
      at := w.value.1;
    }
    assert ws + [] == ws;
    r := Some((ws, at));
  }

  /** The digest reader: an offset that only moves forward, and no bytes left over. */
  method DeserializeBinary(payload: seq<Byte>) returns (r: Result<DigestBits, CodecError>)
    ensures r == DeserializeDigest(payload)
  {
    var header := ReadScalars(payload);
    if header.None? {
      return Err(Truncated);
    }
    var (d, offset) := header.value;
    var processed := ReadCounted(payload, offset);
    if processed.None? {
      return Err(Truncated);
    }
    var unprocessed := ReadCounted(payload, processed.value.1);
    if unprocessed.None? {
      return Err(Truncated);
    }
    var count := ReadU32(payload, unprocessed.value.1);
    if count.None? {
      return Err(Truncated);
    }
    var cumulative := ReadWordLoop(payload, count.value.1, count.value.0);
    if cumulative.None? {
      return Err(Truncated);
    }
    if cumulative.value.1 != |payload| {
      return Err(TrailingBytes);
    }
    r := Ok(d.(processed := processed.value.0, unprocessed := unprocessed.value.0, cumulative := cumulative.value.0));
  }

  method ReadCounted(payload: seq<Byte>, offset: nat) returns (r: Option<(seq<CentroidBits>, nat)>)
    ensures r == ReadCentroidList(payload, offset)
  {
    var count := ReadU32(payload, offset);
    if count.None? {
      return None;
    }
    r := ReadCentroidLoop(payload, count.value.1, count.value.0);
  }
}
