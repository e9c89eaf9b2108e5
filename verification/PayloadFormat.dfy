/**
 Which bytes are a percentile state. The decoder accepts exactly the payloads the format spells
 out: no other magic, version, length or trailing byte gets through.
 */
module PayloadFormat {
  import opened Common
  import opened PercentileCodec

  // ---------------------------------------------------------------------
  // What a successful read found
  // ---------------------------------------------------------------------

  lemma {:induction false} BytesOf(bs: seq<Byte>)
    ensures ToLE(FromLE(bs), |bs|) == bs
  {
    if bs != [] {
      BytesOf(bs[1..]);
      LowestByte(bs[0], FromLE(bs[1..]), FromLE(bs));
      assert bs == [bs[0]] + bs[1..];
    }
  }

  lemma LowestByte(b: Byte, high: nat, n: nat)
    requires n == b + 0x100 * high
    ensures n % 0x100 == b && n / 0x100 == high
  {
  }

  lemma AtJoin(payload: seq<Byte>, offset: nat, a: seq<Byte>, b: seq<Byte>)
    requires At(payload, offset, a) && At(payload, offset + |a|, b)
    ensures At(payload, offset, a + b)
  {
    var end := offset + |a| + |b|;
    assert payload[offset..end] == payload[offset..offset + |a|] + payload[offset + |a|..end];
  }

  lemma AtJoin3(payload: seq<Byte>, offset: nat, a: seq<Byte>, b: seq<Byte>, c: seq<Byte>)
    requires At(payload, offset, a) && At(payload, offset + |a|, b) && At(payload, offset + |a| + |b|, c)
    ensures At(payload, offset, a + (b + c))
  {
    AtJoin(payload, offset + |a|, b, c);
    AtJoin(payload, offset, a, b + c);
  }

  lemma Found32(payload: seq<Byte>, offset: nat, n: U32, next: nat)
    requires ReadU32(payload, offset) == Some((n, next))
    ensures next == offset + 4 && At(payload, offset, Bytes32(n))
  {
    BytesOf(payload[offset..offset + 4]);
  }

  lemma Found64(payload: seq<Byte>, offset: nat, n: U64, next: nat)
    requires ReadU64(payload, offset) == Some((n, next))
    ensures next == offset + 8 && At(payload, offset, Bytes64(n))
  {
    BytesOf(payload[offset..offset + 8]);
  }

  lemma {:induction false} FoundWords(payload: seq<Byte>, offset: nat, n: nat, ws: seq<U32>, end: nat)
    requires ReadWords(payload, offset, n) == Some((ws, end)) && offset <= |payload|
    ensures |ws| == n && end == offset + 4 * n && At(payload, offset, WordBytes(ws))
    decreases n
  {
    if n > 0 {
      var (w, o1) := ReadU32(payload, offset).value;
      Found32(payload, offset, w, o1);
      FoundWords(payload, o1, n - 1, ws[1..], end);
      AtJoin(payload, offset, Bytes32(w), WordBytes(ws[1..]));
    }
  }

  lemma {:induction false} FoundLongs(payload: seq<Byte>, offset: nat, n: nat, ws: seq<U64>, end: nat)
    requires ReadLongs(payload, offset, n) == Some((ws, end)) && offset <= |payload|
    ensures |ws| == n && end == offset + 8 * n && At(payload, offset, LongBytes(ws))
    decreases n
  {
    if n > 0 {
      var (w, o1) := ReadU64(payload, offset).value;
      Found64(payload, offset, w, o1);
      FoundLongs(payload, o1, n - 1, ws[1..], end);
      AtJoin(payload, offset, Bytes64(w), LongBytes(ws[1..]));
    }
  }

  lemma {:induction false} FoundCentroids(payload: seq<Byte>, offset: nat, n: nat, cs: seq<CentroidBits>, end: nat)
    requires ReadCentroids(payload, offset, n) == Some((cs, end)) && offset <= |payload|
    ensures |cs| == n && end == offset + 8 * n && At(payload, offset, CentroidBytes(cs))
    decreases n
  {
    if n > 0 {
      var (mean, o1) := ReadU32(payload, offset).value;
      var (weight, o2) := ReadU32(payload, o1).value;
      Found32(payload, offset, mean, o1);
      Found32(payload, o1, weight, o2);
      FoundCentroids(payload, o2, n - 1, cs[1..], end);
      AtJoin(payload, o1, Bytes32(weight), CentroidBytes(cs[1..]));
      AtJoin(payload, offset, Bytes32(mean), Bytes32(weight) + CentroidBytes(cs[1..]));
    }
  }

  lemma FoundCentroidList(payload: seq<Byte>, offset: nat, cs: seq<CentroidBits>, end: nat)
    requires ReadCentroidList(payload, offset) == Some((cs, end))
    ensures |cs| < 0x1_0000_0000 && end == offset + |CentroidList(cs)| && At(payload, offset, CentroidList(cs))
  {
    var (n, next) := ReadU32(payload, offset).value;
    Found32(payload, offset, n, next);
    FoundCentroids(payload, next, n, cs, end);
    AtJoin(payload, offset, Bytes32(n), CentroidBytes(cs));
  }

  lemma FoundWordList(payload: seq<Byte>, offset: nat, ws: seq<U32>, end: nat)
    requires ReadWordList(payload, offset) == Some((ws, end))
    ensures |ws| < 0x1_0000_0000 && end == offset + |WordList(ws)| && At(payload, offset, WordList(ws))
  {
    var (n, next) := ReadU32(payload, offset).value;
    Found32(payload, offset, n, next);
    FoundWords(payload, next, n, ws, end);
    AtJoin(payload, offset, Bytes32(n), WordBytes(ws));
  }

  // ---------------------------------------------------------------------
  // Digests
  // ---------------------------------------------------------------------

  predicate ShortLists(d: DigestBits) {
    |d.processed| < 0x1_0000_0000 && |d.unprocessed| < 0x1_0000_0000 && |d.cumulative| < 0x1_0000_0000
  }

  lemma FoundLists(payload: seq<Byte>, offset: nat, header: DigestBits, d: DigestBits, end: nat)
    requires ReadLists(payload, offset, header) == Some((d, end))
    ensures ShortLists(d) && d == header.(processed := d.processed, unprocessed := d.unprocessed, cumulative := d.cumulative)
    ensures end == offset + |SerializeLists(d)| && At(payload, offset, SerializeLists(d))
  {
    var (processed, o1) := ReadCentroidList(payload, offset).value;
    var (unprocessed, o2) := ReadCentroidList(payload, o1).value;
    var (cumulative, o3) := ReadWordList(payload, o2).value;
    FoundCentroidList(payload, offset, processed, o1);
    FoundCentroidList(payload, o1, unprocessed, o2);
    FoundWordList(payload, o2, cumulative, o3);
    AtJoin3(payload, offset, CentroidList(processed), CentroidList(unprocessed), WordList(cumulative));
  }

  lemma FoundLimits(payload: seq<Byte>, compression: U32, min: U32, max: U32, h: DigestBits, end: nat)
    requires ReadLimits(payload, 12, compression, min, max) == Some((h, end))
    ensures end == 36 && h.compression == compression && h.min == min && h.max == max
    ensures At(payload, 12, Bytes64(h.maxProcessed)) && At(payload, 20, Bytes64(h.maxUnprocessed))
    ensures At(payload, 28, Bytes32(h.processedWeight)) && At(payload, 32, Bytes32(h.unprocessedWeight))
  {
    Found64(payload, 12, h.maxProcessed, 20);
    Found64(payload, 20, h.maxUnprocessed, 28);
    Found32(payload, 28, h.processedWeight, 32);
    Found32(payload, 32, h.unprocessedWeight, 36);
  }

  lemma FoundScalars(payload: seq<Byte>, h: DigestBits, end: nat)
    requires ReadScalars(payload) == Some((h, end))
    ensures end == 36
    ensures At(payload, 0, Bytes32(h.compression)) && At(payload, 4, Bytes32(h.min)) && At(payload, 8, Bytes32(h.max))
    ensures At(payload, 12, Bytes64(h.maxProcessed)) && At(payload, 20, Bytes64(h.maxUnprocessed))
    ensures At(payload, 28, Bytes32(h.processedWeight)) && At(payload, 32, Bytes32(h.unprocessedWeight))
  {
    var (compression, o1) := ReadU32(payload, 0).value;
    var (min, o2) := ReadU32(payload, o1).value;
    var (max, o3) := ReadU32(payload, o2).value;
    Found32(payload, 0, compression, o1);
    Found32(payload, 4, min, o2);
    Found32(payload, 8, max, o3);
    FoundLimits(payload, compression, min, max, h, end);
  }

  lemma JoinScalars(payload: seq<Byte>, d: DigestBits, lists: seq<Byte>)
    requires lists == SerializeLists(d) && At(payload, 36, lists)
    requires At(payload, 0, Bytes32(d.compression)) && At(payload, 4, Bytes32(d.min)) && At(payload, 8, Bytes32(d.max))
    requires At(payload, 12, Bytes64(d.maxProcessed)) && At(payload, 20, Bytes64(d.maxUnprocessed))
    requires At(payload, 28, Bytes32(d.processedWeight)) && At(payload, 32, Bytes32(d.unprocessedWeight))
    ensures At(payload, 0, SerializeDigest(d))
  {
    var r6 := Bytes32(d.unprocessedWeight) + lists;
    var r5 := Bytes32(d.processedWeight) + r6;
    var r4 := Bytes64(d.maxUnprocessed) + r5;
    var r3 := Bytes64(d.maxProcessed) + r4;
    var r2 := Bytes32(d.max) + r3;
    AtJoin(payload, 32, Bytes32(d.unprocessedWeight), lists);
    AtJoin(payload, 28, Bytes32(d.processedWeight), r6);
    AtJoin(payload, 20, Bytes64(d.maxUnprocessed), r5);
    AtJoin(payload, 12, Bytes64(d.maxProcessed), r4);
    AtJoin(payload, 8, Bytes32(d.max), r3);
    AtJoin(payload, 4, Bytes32(d.min), r2);
    AtJoin(payload, 0, Bytes32(d.compression), Bytes32(d.min) + r2);
  }

  /** Bytes are accepted as a digest exactly if they are that digest's serialisation. */
  lemma DigestExactly(payload: seq<Byte>, d: DigestBits)
    ensures DeserializeDigest(payload) == Ok(d) <==> ShortLists(d) && payload == SerializeDigest(d)
  {
    if DeserializeDigest(payload) == Ok(d) {
      var (h, o1) := ReadScalars(payload).value;
      FoundScalars(payload, h, o1);
      FoundLists(payload, o1, h, d, |payload|);
      JoinScalars(payload, d, SerializeLists(d));
      assert payload[0..|payload|] == payload;
    }
    if ShortLists(d) && payload == SerializeDigest(d) {
      DigestRoundTrip(d);
    }
  }

  // ---------------------------------------------------------------------
  // States
  // ---------------------------------------------------------------------

  /** `payload` spells `s`: nothing for the default, a header alone for a fresh digest, or a header and the digest. */
  ghost predicate Spells(payload: seq<Byte>, s: PercentileState) {
    || (payload == [] && s == DEFAULT_STATE)
    || (Fits(s) && payload == FullPayload(s))
    || (Fits(s) && s.digest == Fresh(s.compression) && payload == EncodeState(s))
  }

  lemma SpecFound(kind: Byte, qs: seq<U64>, spec: Option<QuantileSpec>)
    requires SpecOf(kind, qs) == Ok(spec)
    ensures QuantileKind(spec) == kind && QuantileValues(spec) == qs
  {
  }

  lemma FoundHeader(payload: seq<Byte>, compression: U32, n: U32, qs: seq<U64>, end: nat)
    requires |payload| >= HEADER_LEN && payload[0] == MAGIC && payload[1] == VERSION
    requires ReadU32(payload, 3) == Some((compression, 7)) && ReadU32(payload, 7) == Some((n, HEADER_LEN))
    requires ReadLongs(payload, HEADER_LEN, n) == Some((qs, end))
    ensures |qs| == n && end <= |payload|
    ensures payload == [MAGIC, VERSION, payload[2]] + (Bytes32(compression) + (Bytes32(n) + (LongBytes(qs) + payload[end..])))
  {
    Found32(payload, 3, compression, 7);
    Found32(payload, 7, n, HEADER_LEN);
    FoundLongs(payload, HEADER_LEN, n, qs, end);
    JoinHeader(payload, Bytes32(compression), Bytes32(n), LongBytes(qs), payload[end..]);
  }

  lemma JoinHeader(payload: seq<Byte>, a: seq<Byte>, b: seq<Byte>, c: seq<Byte>, tail: seq<Byte>)
    requires |a| == 4 && |b| == 4 && At(payload, 3, a) && At(payload, 7, b) && At(payload, HEADER_LEN, c)
    requires tail == payload[HEADER_LEN + |c|..]
    ensures payload == payload[..3] + (a + (b + (c + tail)))
  {
    AtJoin(payload, HEADER_LEN, c, tail);
    AtJoin(payload, 7, b, c + tail);
    AtJoin(payload, 3, a, b + (c + tail));
  }

  lemma DecodedIsSpelled(payload: seq<Byte>, s: PercentileState)
    requires payload != [] && DecodeState(payload) == Ok(s)
    ensures Spells(payload, s)
  {
    var (compression, o1) := ReadU32(payload, 3).value;
    var (n, o2) := ReadU32(payload, 7).value;
    var (qs, end) := ReadLongs(payload, HEADER_LEN, n).value;
    FoundHeader(payload, compression, n, qs, end);
    SpecFound(payload[2], qs, s.quantiles);
    if end < |payload| {
      DigestExactly(payload[end..], s.digest);
      assert payload == FullPayload(s);
    } else {
      assert payload[end..] == [];
      assert payload == EncodeState(s);
    }
  }

  /** The decoder returns a state exactly for the payloads that spell it. */
  lemma DecodesExactly(payload: seq<Byte>, s: PercentileState)
    ensures DecodeState(payload) == Ok(s) <==> Spells(payload, s)
  {
    if payload != [] && DecodeState(payload) == Ok(s) {
      DecodedIsSpelled(payload, s);
    }
    if Fits(s) {
      EveryStateDecodes(s);
      DecodeEncoded(s);
    }
  }
}
