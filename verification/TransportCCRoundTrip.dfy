/** What is written is read back, and what is read is consistent. */
module TransportCCRoundTrip {
  import opened Bits
  import opened Buffers
  import opened StatusChunks
  import opened TransportCC

  // ---------------------------------------------------------------- well-formed packets

  /** The chunks account for all packets, and none of them is idle, in the uint16 arithmetic of the code. */
  predicate Exhausts(chunks: seq<Chunk>, count: uint16, processed: uint16) {
    if chunks == [] then processed >= count
    else processed < count && Exhausts(chunks[1..], count, Advanced(chunks[0], count, processed))
  }

  /** The deltas that the chunks announce between them. */
  function AllAnnounced(chunks: seq<Chunk>, count: uint16, processed: uint16): seq<uint16>
    requires Exhausts(chunks, count, processed)
    decreases chunks
  {
    if chunks == [] then []
    else Announced(chunks[0], count, processed) + AllAnnounced(chunks[1..], count, Advanced(chunks[0], count, processed))
  }

  /** A whole number of ticks within the range of its type. */
  predicate WellFormedDelta(d: RecvDelta) {
    && d.delta % DELTA_SCALE_FACTOR == 0
    && (|| (d.typ == SMALL_DELTA && 0 <= d.delta <= 255 * DELTA_SCALE_FACTOR)
        || (d.typ == LARGE_DELTA && -0x8000 * DELTA_SCALE_FACTOR <= d.delta <= 0x7fff * DELTA_SCALE_FACTOR))
  }

  function TypesOf(ds: seq<RecvDelta>): (s: seq<uint16>)
    ensures |s| == |ds|
  {
    if ds == [] then [] else [ds[0].typ] + TypesOf(ds[1..])
  }

  predicate WellFormedPacket(t: TransportLayerCC) {
    && FullLength(t) <= 65532
    && t.header.count == FORMAT_TCC && t.header.typ == TRANSPORT_SPECIFIC_FEEDBACK
    && t.header.length == Size(t) / 4 - 1
    && (t.header.padding ==> FullLength(t) % 4 != 0)
    && t.referenceTime < 0x100_0000
    && AllWellFormed(t.packetChunks)
    && Exhausts(t.packetChunks, t.packetStatusCount, 0)
    && AllDeltasWellFormed(t.recvDeltas)
    && TypesOf(t.recvDeltas) == AllAnnounced(t.packetChunks, t.packetStatusCount, 0)
  }

  // ---------------------------------------------------------------- the bytes of a well-formed packet

  predicate AllWellFormed(chunks: seq<Chunk>) {
    forall i :: 0 <= i < |chunks| ==> WellFormed(chunks[i])
  }

  predicate AllDeltasWellFormed(ds: seq<RecvDelta>) {
    forall i :: 0 <= i < |ds| ==> WellFormedDelta(ds[i])
  }

  function ChunkBytes(c: Chunk): (b: seq<byte>)
    requires WellFormed(c)
    ensures |b| == 2
  {
    ChunkRoundTrip(c);
    Put16(ChunkWord(c).value)
  }

  function ChunksBytes(chunks: seq<Chunk>): (b: seq<byte>)
    requires AllWellFormed(chunks)
    ensures |b| == 2 * |chunks|
  {
    if chunks == [] then [] else ChunkBytes(chunks[0]) + ChunksBytes(chunks[1..])
  }

  function DeltaBytes(d: RecvDelta): (b: seq<byte>)
    requires WellFormedDelta(d)
    ensures |b| == DeltaSize(d)
  {
    EncodeDelta(d).value
  }

  function DeltasBytes(ds: seq<RecvDelta>): seq<byte>
    requires AllDeltasWellFormed(ds)
  {
    if ds == [] then [] else DeltaBytes(ds[0]) + DeltasBytes(ds[1..])
  }

  lemma {:induction false} SizesFromFront(ds: seq<RecvDelta>)
    requires ds != []
    ensures DeltaSizes(ds) == DeltaSize(ds[0]) + DeltaSizes(ds[1..])
  {
    if |ds| > 1 {
      var n := |ds| - 1;
      SizesFromFront(ds[..n]);
      assert ds[..n][1..] == ds[1..][..n - 1];
    }
  }

  lemma {:induction false} DeltasBytesSize(ds: seq<RecvDelta>)
    requires AllDeltasWellFormed(ds)
    ensures |DeltasBytes(ds)| == DeltaSizes(ds)
  {
    if ds != [] {
      DeltasBytesSize(ds[1..]);
      SizesFromFront(ds);
    }
  }

  /** Writing over the start of the zeros. */
  lemma CopiedAfter(pre: seq<byte>, z: seq<byte>, b: seq<byte>)
    requires |b| <= |z|
    ensures Copied(pre + z, |pre|, b) == Some(pre + b + z[|b|..])
  {
  }

  lemma Associate(a: seq<byte>, b: seq<byte>, c: seq<byte>)
    ensures a + b + c == a + (b + c)
  {
  }

  lemma {:induction false} ChunksWritten(pre: seq<byte>, chunks: seq<Chunk>, z: seq<byte>)
    requires AllWellFormed(chunks) && 2 * |chunks| <= |z|
    ensures WriteChunks(pre + z, chunks, |pre|) == Ok(pre + ChunksBytes(chunks) + z[2 * |chunks|..])
    decreases chunks
  {
    if chunks == [] {
      assert pre + [] == pre && z[0..] == z;
    } else {
      var b := ChunkBytes(chunks[0]);
      CopiedAfter(pre, z, b);
      ChunkRoundTrip(chunks[0]);
      ChunkWritten(pre + z, chunks, |pre|, pre + b + z[2..]);
      ChunksWritten(pre + b, chunks[1..], z[2..]);
      Associate(pre, b, ChunksBytes(chunks[1..]));
      assert z[2..][2 * |chunks[1..]|..] == z[2 * |chunks|..];
    }
  }

  lemma {:induction false} DeltasWritten(pre: seq<byte>, ds: seq<RecvDelta>, z: seq<byte>)
    requires AllDeltasWellFormed(ds) && |DeltasBytes(ds)| <= |z|
    ensures WriteDeltas(pre + z, ds, |pre|) == Ok(pre + DeltasBytes(ds) + z[|DeltasBytes(ds)|..])
    decreases ds
  {
    if ds == [] {
      assert pre + [] == pre && z[0..] == z;
    } else {
      var b := DeltaBytes(ds[0]);
      CopiedAfter(pre, z, b);
      DeltasWritten(pre + b, ds[1..], z[|b|..]);
      Associate(pre, b, DeltasBytes(ds[1..]));
      assert z[|b|..][|DeltasBytes(ds[1..])|..] == z[|DeltasBytes(ds)|..];
    }
  }

  /** The `n` bytes that make the packet up to whole words. */
  function Tail(padding: bool, n: nat): (b: seq<byte>)
    requires n < 4
    ensures |b| == n
  {
    if padding && n > 0 then Zeros(n - 1) + [n] else Zeros(n)
  }

  function HeaderBytes(h: Header): (b: seq<byte>)
    requires h.count <= 31
    ensures |b| == HEADER_LENGTH
  {
    EncodeHeader(h).value
  }

  /** What can be written without an error, and without overwriting with the padding byte. */
  predicate Encodable(t: TransportLayerCC) {
    && FullLength(t) <= 65532 && t.header.count <= 31 && (t.header.padding ==> FullLength(t) % 4 != 0)
    && AllWellFormed(t.packetChunks) && AllDeltasWellFormed(t.recvDeltas)
  }

  function Body(t: TransportLayerCC): seq<byte>
    requires AllWellFormed(t.packetChunks) && AllDeltasWellFormed(t.recvDeltas)
  {
    FixedPart(t) + ChunksBytes(t.packetChunks) + DeltasBytes(t.recvDeltas)
  }

  function Wire(t: TransportLayerCC): seq<byte>
    requires Encodable(t)
  {
    Rounded(FullLength(t));
    HeaderBytes(t.header) + (Body(t) + Tail(t.header.padding, Size(t) - FullLength(t)))
  }

  /** Rounding up adds fewer than four bytes, and none to whole words. */
  lemma Rounded(n: nat)
    requires 20 <= n <= 65532
    ensures n % 0x1_0000 == n
    ensures n <= RoundUp(n) < n + 4 && RoundUp(n) % 4 == 0 && (RoundUp(n) == n <==> n % 4 == 0)
  {
    assert (n / 4 + 1) * 4 <= 65536;
    if n % 4 != 0 { assert n / 4 + 1 <= 16383; }
  }

  predicate Pays(fixed: seq<byte>, chunks: seq<Chunk>, deltas: seq<RecvDelta>, n: nat, p: seq<byte>) {
    |fixed| == PACKET_CHUNK_OFFSET <= n && Payload(fixed, chunks, deltas, n) == Ok(p)
  }

  lemma ChunksOverZeros(fixed: seq<byte>, chunks: seq<Chunk>, b: seq<byte>, left: nat)
    requires AllWellFormed(chunks) && b == ChunksBytes(chunks) && |fixed| == PACKET_CHUNK_OFFSET
    ensures WithChunks(fixed + Zeros(|b| + left), chunks) == Ok(fixed + b + Zeros(left))
  {
    ChunksWritten(fixed, chunks, Zeros(|b| + left));
    ZerosFrom(|b| + left, |b|);
  }

  lemma DeltasOverZeros(pre: seq<byte>, chunks: nat, ds: seq<RecvDelta>, d: seq<byte>, left: nat)
    requires AllDeltasWellFormed(ds) && d == DeltasBytes(ds) && |pre| == PACKET_CHUNK_OFFSET + 2 * chunks
    ensures WithDeltas(pre + Zeros(|d| + left), chunks, ds) == Ok(pre + d + Zeros(left))
  {
    DeltasWritten(pre, ds, Zeros(|d| + left));
    ZerosFrom(|d| + left, |d|);
  }

  lemma PayloadWritten(fixed: seq<byte>, chunks: seq<Chunk>, b: seq<byte>, ds: seq<RecvDelta>, d: seq<byte>, left: nat)
    requires AllWellFormed(chunks) && b == ChunksBytes(chunks) && AllDeltasWellFormed(ds) && d == DeltasBytes(ds)
    requires |fixed| == PACKET_CHUNK_OFFSET
    ensures Pays(fixed, chunks, ds, |fixed| + (|b| + (|d| + left)), fixed + b + d + Zeros(left))
  {
    ChunksOverZeros(fixed, chunks, b, |d| + left);
    DeltasOverZeros(fixed + b, |chunks|, ds, d, left);
    InTwoSteps(fixed, chunks, ds, |b| + (|d| + left), fixed + b + Zeros(|d| + left), fixed + b + d + Zeros(left));
  }

  lemma InTwoSteps(fixed: seq<byte>, chunks: seq<Chunk>, ds: seq<RecvDelta>, n: nat, p: seq<byte>, q: seq<byte>)
    requires |fixed| == PACKET_CHUNK_OFFSET
    requires WithChunks(fixed + Zeros(n), chunks) == Ok(p) && WithDeltas(p, |chunks|, ds) == Ok(q)
    ensures Pays(fixed, chunks, ds, |fixed| + n, q)
  {
    assert |fixed| + n - |fixed| == n;
  }

  lemma TailWritten(t: TransportLayerCC, body: seq<byte>, n: nat)
    requires n < 4 && FullLength(t) <= 65532 && n == Size(t) - FullLength(t) && (t.header.padding ==> n > 0)
    requires body != []
    ensures WritePadding(t, body + Zeros(n)) == body + Tail(t.header.padding, n)
  {
    assert FullLength(t) % 0x1_0000 == FullLength(t);
    if t.header.padding { PaddingWritten(body, n); }
  }

  lemma PayloadMarshaled(t: TransportLayerCC, p: seq<byte>)
    requires t.header.count <= 31 && Size(t) >= HEADER_LENGTH + PACKET_CHUNK_OFFSET && p != []
    requires Pays(FixedPart(t), t.packetChunks, t.recvDeltas, Size(t) - HEADER_LENGTH, p)
    ensures MarshalsAs(t, HeaderBytes(t.header) + WritePadding(t, p))
  {
  }

  predicate MarshalsAs(t: TransportLayerCC, b: seq<byte>) {
    Marshaled(t) == Ok(b)
  }

  lemma MarshaledIsWire(t: TransportLayerCC)
    requires Encodable(t)
    ensures MarshalsAs(t, Wire(t)) && |Wire(t)| == Size(t)
  {
    Rounded(FullLength(t));
    var left := Size(t) - FullLength(t);
    var p := BodyAndZeros(t, left);
    TailWritten(t, Body(t), left);
    PayloadMarshaled(t, p);
  }

  /** The body of the packet, written over as many zeros as fit it and `left` more. */
  lemma BodyAndZeros(t: TransportLayerCC, left: nat) returns (p: seq<byte>)
    requires Encodable(t)
    ensures p == Body(t) + Zeros(left) && |Body(t)| == FullLength(t) - HEADER_LENGTH
    ensures Pays(FixedPart(t), t.packetChunks, t.recvDeltas, FullLength(t) + left - HEADER_LENGTH, p)
  {
    var fixed, b, d := FixedPart(t), ChunksBytes(t.packetChunks), DeltasBytes(t.recvDeltas);
    BodyLength(t, fixed, b, d);
    PayloadWritten(fixed, t.packetChunks, b, t.recvDeltas, d, left);
    p := fixed + b + d + Zeros(left);
  }

  lemma BodyLength(t: TransportLayerCC, fixed: seq<byte>, b: seq<byte>, d: seq<byte>)
    requires Encodable(t) && fixed == FixedPart(t) && b == ChunksBytes(t.packetChunks) && d == DeltasBytes(t.recvDeltas)
    ensures |fixed| + |b| + |d| == FullLength(t) - HEADER_LENGTH == |Body(t)|
  {
    DeltasBytesSize(t.recvDeltas);
  }

  lemma PaddingWritten(body: seq<byte>, n: nat)
    requires 0 < n < 4
    ensures (body + Zeros(n))[|body| + n - 1 := n] == body + (Zeros(n - 1) + [n])
  {
  }

  // ---------------------------------------------------------------- reading them back

  /** What reading well-formed chunks gives: a last chunk with no byte behind it is refused. */
  function ReadOutcome(chunks: seq<Chunk>, count: uint16, processed: uint16, pos: nat, total: nat): Option<Statuses>
    requires Exhausts(chunks, count, processed)
  {
    if chunks == [] || pos + 2 * |chunks| < total
    then Some(Statuses(chunks, AllAnnounced(chunks, count, processed), pos + 2 * |chunks|))
    else None
  }

  lemma OneMoreChunk(raw: seq<byte>, total: nat, count: uint16, pos: nat, processed: uint16, chunks: seq<Chunk>)
    requires chunks != [] && Exhausts(chunks, count, processed) && pos + 2 < total <= |raw|
    requires DecodeChunk(raw[pos], raw[pos + 1]) == chunks[0]
    requires var after := Advanced(chunks[0], count, processed);
             ReadChunks(raw, total, count, pos + 2, after) == ReadOutcome(chunks[1..], count, after, pos + 2, total)
    ensures ReadChunks(raw, total, count, pos, processed) == ReadOutcome(chunks, count, processed, pos, total)
  {
    assert [chunks[0]] + chunks[1..] == chunks;
  }

  lemma {:induction false} ChunksReadBack(raw: seq<byte>, total: nat, count: uint16, pos: nat, processed: uint16,
                                          chunks: seq<Chunk>)
    requires pos + 2 * |chunks| <= total <= |raw| && AllWellFormed(chunks) && Exhausts(chunks, count, processed)
    requires At(raw, pos, ChunksBytes(chunks))
    ensures ReadChunks(raw, total, count, pos, processed) == ReadOutcome(chunks, count, processed, pos, total)
    decreases chunks
  {
    if chunks != [] && pos + 2 < total {
      FirstChunkBack(raw, pos, chunks);
      ChunksReadBack(raw, total, count, pos + 2, Advanced(chunks[0], count, processed), chunks[1..]);
      OneMoreChunk(raw, total, count, pos, processed, chunks);
    }
  }

  lemma OneChunkBack(raw: seq<byte>, pos: nat, c: Chunk)
    requires WellFormed(c) && At(raw, pos, ChunkBytes(c))
    ensures DecodeChunk(raw[pos], raw[pos + 1]) == c
  {
    ChunkRoundTrip(c);
    assert raw[pos] == raw[pos..pos + 2][0] && raw[pos + 1] == raw[pos..pos + 2][1];
  }

  lemma FirstChunkBack(raw: seq<byte>, pos: nat, chunks: seq<Chunk>)
    requires chunks != [] && AllWellFormed(chunks) && At(raw, pos, ChunksBytes(chunks))
    ensures DecodeChunk(raw[pos], raw[pos + 1]) == chunks[0] && At(raw, pos + 2, ChunksBytes(chunks[1..]))
  {
    AtSplit(raw, pos, ChunkBytes(chunks[0]), ChunksBytes(chunks[1..]));
    OneChunkBack(raw, pos, chunks[0]);
  }

  lemma DeltaBack(raw: seq<byte>, pos: nat, d: RecvDelta)
    requires WellFormedDelta(d) && At(raw, pos, DeltaBytes(d))
    ensures (if d.typ == SMALL_DELTA then DecodeSmall(raw[pos]) else DecodeLarge(Get16(raw, pos))) == d
  {
    var q := Quotient(d.delta, DELTA_SCALE_FACTOR);
    assert d.delta == DELTA_SCALE_FACTOR * q;
    assert raw[pos] == raw[pos..pos + DeltaSize(d)][0];
    if d.typ == LARGE_DELTA {
      Get16Put16(raw, pos, if q < 0 then q + 0x1_0000 else q);
    }
  }

  lemma {:induction false} DeltasReadBack(raw: seq<byte>, total: nat, pos: nat, ds: seq<RecvDelta>)
    requires AllDeltasWellFormed(ds) && pos + |DeltasBytes(ds)| <= total <= |raw| && At(raw, pos, DeltasBytes(ds))
    ensures ReadDeltas(raw, total, TypesOf(ds), pos) == Some(ds)
    decreases ds
  {
    if ds != [] {
      var n := DeltaSize(ds[0]);
      AtSplit(raw, pos, DeltaBytes(ds[0]), DeltasBytes(ds[1..]));
      DeltaBack(raw, pos, ds[0]);
      DeltasReadBack(raw, total, pos + n, ds[1..]);
      assert TypesOf(ds)[1..] == TypesOf(ds[1..]);
      assert [ds[0]] + ds[1..] == ds;
    }
  }

  lemma HeaderBack(h: Header, rest: seq<byte>)
    requires h.count <= 31
    ensures DecodeHeader(HeaderBytes(h) + rest) == Ok(h)
  {
    var raw := HeaderBytes(h) + rest;
    Get16Put16(raw, 2, h.length);
  }

  lemma FixedSlices(raw: seq<byte>, a: seq<byte>, b: seq<byte>, c: seq<byte>, d: seq<byte>, e: seq<byte>)
    requires |raw| >= 20 && |a| == |b| == |e| == 4 && |c| == |d| == 2 && At(raw, 4, a + b + c + d + e)
    ensures raw[4..8] == a && raw[8..12] == b && raw[12..14] == c && raw[14..16] == d && raw[16..20] == e
  {
    AtSplit(raw, 4, a + b + c + d, e);
    AtSplit(raw, 4, a + b + c, d);
    AtSplit(raw, 4, a + b, c);
    AtSplit(raw, 4, a, b);
  }

  /** The fixed fields, as they are read. */
  predicate FixedFields(t: TransportLayerCC, raw: seq<byte>)
    requires |raw| >= 20
  {
    && Get32(raw, 4) == t.senderSSRC && Get32(raw, 8) == t.mediaSSRC
    && Get16(raw, 12) == t.baseSequenceNumber && Get16(raw, 14) == t.packetStatusCount
    && Get24(raw, 16) == t.referenceTime && raw[19] == t.fbPktCount
  }

  lemma FixedPartBack(t: TransportLayerCC, raw: seq<byte>)
    requires |raw| >= 20 && At(raw, 4, FixedPart(t)) && t.referenceTime < 0x100_0000
    ensures FixedFields(t, raw)
  {
    FixedSlices(raw, Put32(t.senderSSRC), Put32(t.mediaSSRC), Put16(t.baseSequenceNumber), Put16(t.packetStatusCount),
                Put32(TimeAndCount(t)));
    Get32Put32(raw, 4, t.senderSSRC);
    Get32Put32(raw, 8, t.mediaSSRC);
    Get16Put16(raw, 12, t.baseSequenceNumber);
    Get16Put16(raw, 14, t.packetStatusCount);
    Get32Put32(raw, 16, TimeAndCount(t));
    TimeBack(raw, t.referenceTime, t.fbPktCount);
  }

  lemma TimeBack(raw: seq<byte>, time: uint24, count: byte)
    requires |raw| >= 20 && Get32(raw, 16) == time as int * 0x100 + count
    ensures Get24(raw, 16) == time && raw[19] == count
  {
    assert Get32(raw, 16) == Get24(raw, 16) as int * 0x100 + raw[19];
  }

  /** Where each part of the packet lies. */
  predicate PartsOf(t: TransportLayerCC, raw: seq<byte>) {
    AllWellFormed(t.packetChunks) && AllDeltasWellFormed(t.recvDeltas) &&
    var deltas := 20 + 2 * |t.packetChunks|;
    At(raw, 4, FixedPart(t)) && At(raw, 20, ChunksBytes(t.packetChunks)) && At(raw, deltas, DeltasBytes(t.recvDeltas))
  }

  lemma WireParts(t: TransportLayerCC, raw: seq<byte>)
    requires WellFormedPacket(t) && raw == Wire(t)
    ensures |raw| == Size(t) && PartsOf(t, raw)
  {
    MarshaledIsWire(t);
    Rounded(FullLength(t));
    Slices(HeaderBytes(t.header), FixedPart(t), ChunksBytes(t.packetChunks), DeltasBytes(t.recvDeltas),
           Tail(t.header.padding, Size(t) - FullLength(t)));
  }

  lemma Slices(a: seq<byte>, b: seq<byte>, c: seq<byte>, d: seq<byte>, e: seq<byte>)
    ensures var raw := a + (b + c + d + e);
            At(raw, |a|, b) && At(raw, |a| + |b|, c) && At(raw, |a| + |b| + |c|, d)
  {
  }

  lemma TotalIsSize(t: TransportLayerCC)
    requires WellFormedPacket(t)
    ensures TotalLength(t.header) == Size(t) >= 20
  {
    Rounded(FullLength(t));
    var words := Size(t) / 4;
    assert Size(t) == 4 * words;
    assert (t.header.length + 1) % 0x1_0000 == words;
  }

  lemma ChunksOfWire(t: TransportLayerCC, raw: seq<byte>)
    requires AllWellFormed(t.packetChunks) && Exhausts(t.packetChunks, t.packetStatusCount, 0) && PartsOf(t, raw)
    ensures ReadChunks(raw, |raw|, t.packetStatusCount, 20, 0) ==
            ReadOutcome(t.packetChunks, t.packetStatusCount, 0, 20, |raw|)
  {
    ChunksReadBack(raw, |raw|, t.packetStatusCount, 20, 0, t.packetChunks);
  }

  lemma WireReads(t: TransportLayerCC, raw: seq<byte>)
    requires WellFormedPacket(t) && raw == Wire(t)
    ensures 20 + 2 * |t.packetChunks| <= |raw| == Size(t)
    ensures ReadChunks(raw, |raw|, t.packetStatusCount, 20, 0) ==
            ReadOutcome(t.packetChunks, t.packetStatusCount, 0, 20, |raw|)
    ensures ReadDeltas(raw, |raw|, TypesOf(t.recvDeltas), 20 + 2 * |t.packetChunks|) == Some(t.recvDeltas)
  {
    WireParts(t, raw);
    ChunksOfWire(t, raw);
    DeltasReadBack(raw, |raw|, 20 + 2 * |t.packetChunks|, t.recvDeltas);
  }

  /** At least one byte follows the last chunk. */
  predicate ByteFollowsChunks(t: TransportLayerCC) {
    t.packetChunks == [] || 20 + 2 * |t.packetChunks| < Size(t)
  }

  /** The header and the fixed fields have been read; chunks and deltas decide. */
  lemma Assembled(t: TransportLayerCC, raw: seq<byte>)
    requires 20 <= |raw| == TotalLength(t.header) && DecodeHeader(raw) == Ok(t.header) && FixedFields(t, raw)
    requires t.header.count == FORMAT_TCC && t.header.typ == TRANSPORT_SPECIFIC_FEEDBACK
    requires 20 + 2 * |t.packetChunks| <= |raw| && Exhausts(t.packetChunks, t.packetStatusCount, 0)
    requires ReadChunks(raw, |raw|, t.packetStatusCount, 20, 0) ==
             ReadOutcome(t.packetChunks, t.packetStatusCount, 0, 20, |raw|)
    requires AllAnnounced(t.packetChunks, t.packetStatusCount, 0) == TypesOf(t.recvDeltas)
    requires ReadDeltas(raw, |raw|, TypesOf(t.recvDeltas), 20 + 2 * |t.packetChunks|) == Some(t.recvDeltas)
    ensures Unmarshaled(raw) ==
            if t.packetChunks == [] || 20 + 2 * |t.packetChunks| < |raw| then Ok(t) else Err(PacketTooShort)
  {
  }

  lemma HeaderAndFieldsOfWire(t: TransportLayerCC, raw: seq<byte>)
    requires WellFormedPacket(t) && raw == Wire(t)
    ensures 20 <= |raw| == TotalLength(t.header) == Size(t) && DecodeHeader(raw) == Ok(t.header) && FixedFields(t, raw)
  {
    WireParts(t, raw);
    TotalIsSize(t);
    HeaderBack(t.header, raw[4..]);
    assert raw == HeaderBytes(t.header) + raw[4..];
    FixedPartBack(t, raw);
  }

  lemma WireUnmarshals(t: TransportLayerCC, raw: seq<byte>)
    requires WellFormedPacket(t) && raw == Wire(t)
    ensures Unmarshaled(raw) == if ByteFollowsChunks(t) then Ok(t) else Err(PacketTooShort)
  {
    HeaderAndFieldsOfWire(t, raw);
    WireReads(t, raw);
    Assembled(t, raw);
  }

  /** A well-formed packet is written without error, and reads back as itself exactly when a byte follows its last
      chunk; otherwise it is refused as too short. */
  lemma RoundTrip(t: TransportLayerCC)
    requires WellFormedPacket(t)
    ensures Marshaled(t).Ok? && |Marshaled(t).value| == Size(t)
    ensures Unmarshaled(Marshaled(t).value) == if ByteFollowsChunks(t) then Ok(t) else Err(PacketTooShort)
  {
    MarshaledIsWire(t);
    WireUnmarshals(t, Wire(t));
  }

  /** One that is not refused comes back as itself from being read into a packet that was used before, if and only if that
      one has no chunks and no deltas. */
  lemma RoundTripInto(t: TransportLayerCC, before: TransportLayerCC)
    requires WellFormedPacket(t) && ByteFollowsChunks(t)
    ensures Marshaled(t).Ok?
    ensures UnmarshaledInto(before, Marshaled(t).value) == Ok(t) <==> before.packetChunks == [] && before.recvDeltas == []
  {
    RoundTrip(t);
    var raw := Marshaled(t).value;
    if before.packetChunks == [] && before.recvDeltas == [] {
      IntoEmpty(before, raw);
    } else if UnmarshaledInto(before, raw) == Ok(t) {
      LongerInto(before, raw, t);
    }
  }

  /** Whatever was there stays in front. */
  lemma LongerInto(before: TransportLayerCC, raw: seq<byte>, t: TransportLayerCC)
    requires Unmarshaled(raw) == Ok(t) && UnmarshaledInto(before, raw).Ok?
    ensures var r := UnmarshaledInto(before, raw).value;
            && r.packetChunks == before.packetChunks + t.packetChunks
            && |r.recvDeltas| == |before.recvDeltas| + |t.recvDeltas|
  {
  }

  /** Two chunks for two packets, neither of them received: a packet of six whole words that is refused. */
  lemma RefusedPacket() returns (t: TransportLayerCC)
    ensures t.packetStatusCount == 2 && t.packetChunks == [RunLengthChunk(NOT_RECEIVED, 1), RunLengthChunk(NOT_RECEIVED, 1)]
    ensures WellFormedPacket(t) && Marshaled(t).Ok? && Unmarshaled(Marshaled(t).value) == Err(PacketTooShort)
  {
    var c := RunLengthChunk(NOT_RECEIVED, 1);
    t := TransportLayerCC(Header(false, FORMAT_TCC, TRANSPORT_SPECIFIC_FEEDBACK, 5), 1, 2, 0, 2, 3, 4, [c, c], []);
    assert [c, c][1..] == [c] && [c][1..] == [];
    assert Exhausts([c], 2, 1) && Exhausts([c, c], 2, 0);
    assert AllAnnounced([c], 2, 1) == [];
    assert Size(t) == 24;
    RoundTrip(t);
  }

  // ---------------------------------------------------------------- what decoding yields

  lemma {:induction false} ChunksReadAreConsistent(raw: seq<byte>, total: nat, count: uint16, pos: nat, processed: uint16)
    requires pos <= total <= |raw| && ReadChunks(raw, total, count, pos, processed).Some?
    ensures var s := ReadChunks(raw, total, count, pos, processed).value;
            && AllWellFormed(s.chunks)
            && Exhausts(s.chunks, count, processed) && AllAnnounced(s.chunks, count, processed) == s.announced
    decreases total - pos
  {
    if processed < count {
      var c := DecodeChunk(raw[pos], raw[pos + 1]);
      DecodedIsWellFormed(raw[pos], raw[pos + 1]);
      ChunksReadAreConsistent(raw, total, count, pos + CHUNK_LENGTH, Advanced(c, count, processed));
      var rest := ReadChunks(raw, total, count, pos + CHUNK_LENGTH, Advanced(c, count, processed)).value;
      assert ([c] + rest.chunks)[1..] == rest.chunks;
    }
  }

  lemma DecodedDelta(b: byte, w: uint16)
    ensures WellFormedDelta(DecodeSmall(b)) && WellFormedDelta(DecodeLarge(w))
  {
  }

  lemma {:induction false} DeltasReadAreWellFormed(raw: seq<byte>, total: nat, announced: seq<uint16>, pos: nat)
    requires pos <= total <= |raw| && ReadDeltas(raw, total, announced, pos).Some?
    requires forall x :: x in announced ==> x in {SMALL_DELTA, LARGE_DELTA}
    ensures var ds := ReadDeltas(raw, total, announced, pos).value; AllDeltasWellFormed(ds) && TypesOf(ds) == announced
    decreases announced
  {
    if announced != [] {
      assert announced[0] in announced;
      var n := if announced[0] == SMALL_DELTA then 1 else 2;
      assert forall x :: x in announced[1..] ==> x in announced;
      DeltasReadAreWellFormed(raw, total, announced[1..], pos + n);
      var d := if n == 1 then DecodeSmall(raw[pos]) else DecodeLarge(Get16(raw, pos));
      var rest := ReadDeltas(raw, total, announced[1..], pos + n).value;
      DecodedDelta(raw[pos], if n == 2 then Get16(raw, pos) else 0);
      assert ([d] + rest)[1..] == rest;
      assert [announced[0]] + announced[1..] == announced;
    }
  }

  /** Whatever bytes are read, a packet that comes out has chunks and deltas that the format can carry, the chunks account
      for the status count, and the deltas are those that the chunks announce. */
  lemma DecodedIsConsistent(raw: seq<byte>)
    requires Unmarshaled(raw).Ok?
    ensures var t := Unmarshaled(raw).value;
            && AllWellFormed(t.packetChunks) && AllDeltasWellFormed(t.recvDeltas) && t.referenceTime < 0x100_0000
            && Exhausts(t.packetChunks, t.packetStatusCount, 0)
            && TypesOf(t.recvDeltas) == AllAnnounced(t.packetChunks, t.packetStatusCount, 0)
  {
    var t := Unmarshaled(raw).value;
    var total := TotalLength(t.header);
    var s := ReadChunks(raw, total, t.packetStatusCount, 20, 0).value;
    ChunksReadAreConsistent(raw, total, t.packetStatusCount, 20, 0);
    OnlyDeltasAnnounced(raw, total, t.packetStatusCount, 20, 0);
    DeltasReadAreWellFormed(raw, total, s.announced, s.end);
  }
}
