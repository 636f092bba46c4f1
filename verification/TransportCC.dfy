/** Transport-wide congestion control feedback packets
    (section 3.1 of draft-holmer-rmcat-transport-wide-cc-extensions-01). */
module TransportCC {
  import opened Bits
  import opened Buffers
  import opened BitLemmas
  import opened BitFields
  import opened StatusChunks

  const HEADER_LENGTH := 4
  const SSRC_LENGTH := 4
  const PACKET_CHUNK_OFFSET := 16
  const TRANSPORT_SPECIFIC_FEEDBACK: byte := 205
  const FORMAT_TCC: byte := 15
  const DELTA_SCALE_FACTOR := 250

  datatype Header = Header(padding: bool, count: byte, typ: byte, length: uint16)

  /** A receive delta in microseconds. */
  datatype RecvDelta = RecvDelta(typ: uint16, delta: int)

  datatype TransportLayerCC = TransportLayerCC(
    header: Header, senderSSRC: uint32, mediaSSRC: uint32, baseSequenceNumber: uint16, packetStatusCount: uint16,
    referenceTime: uint32, fbPktCount: byte, packetChunks: seq<Chunk>, recvDeltas: seq<RecvDelta>)

  datatype Error = InvalidHeader | BadVersion | PacketTooShort | WrongType | InvalidSizeOrStartIndex

  /** `Panic` is an index out of range at run time. */
  datatype Outcome<+T> = Ok(value: T) | Err(error: Error) | Panic

  // ---------------------------------------------------------------- header

  function EncodeHeader(h: Header): Outcome<seq<byte>> {
    if h.count > 31 then Err(InvalidHeader)
    else Ok([0x80 + (if h.padding then 0x20 else 0) + h.count, h.typ] + Put16(h.length))
  }

  function DecodeHeader(raw: seq<byte>): Outcome<Header> {
    if |raw| < HEADER_LENGTH then Err(PacketTooShort)
    else if raw[0] / 0x40 != 2 then Err(BadVersion)
    else Ok(Header(raw[0] / 0x20 % 2 > 0, raw[0] % 0x20, raw[1], Get16(raw, 2)))
  }

  // ---------------------------------------------------------------- deltas

  /** Division that truncates towards zero. */
  function Quotient(x: int, d: int): int
    requires d > 0
  {
    if x >= 0 then x / d else -(-x / d)
  }

  function EncodeDelta(d: RecvDelta): Option<seq<byte>> {
    var q := Quotient(d.delta, DELTA_SCALE_FACTOR);
    if d.typ == SMALL_DELTA && 0 <= q <= 255 then Some([q])
    else if d.typ == LARGE_DELTA && -0x8000 <= q <= 0x7fff then Some(Put16(if q < 0 then q + 0x1_0000 else q))
    else None
  }

  function DecodeSmall(b: byte): RecvDelta {
    RecvDelta(SMALL_DELTA, DELTA_SCALE_FACTOR * b as int)
  }

  function DecodeLarge(w: uint16): RecvDelta {
    RecvDelta(LARGE_DELTA, DELTA_SCALE_FACTOR * if w < 0x8000 then w else w - 0x1_0000)
  }

  // ---------------------------------------------------------------- sizes

  function DeltaSize(d: RecvDelta): nat {
    if d.typ == SMALL_DELTA then 1 else 2
  }

  function DeltaSizes(ds: seq<RecvDelta>): nat {
    if ds == [] then 0 else DeltaSizes(ds[..|ds| - 1]) + DeltaSize(ds[|ds| - 1])
  }

  /** The length without padding, before any truncation. */
  function FullLength(t: TransportLayerCC): nat {
    HEADER_LENGTH + PACKET_CHUNK_OFFSET + 2 * |t.packetChunks| + DeltaSizes(t.recvDeltas)
  }

  function RoundUp(n: uint16): uint16 {
    if n % 4 != 0 then (n / 4 + 1) * 4 % 0x1_0000 else n
  }

  lemma WrapAdd(x: nat, k: nat)
    ensures (x % 0x1_0000 + k) % 0x1_0000 == (x + k) % 0x1_0000
  {
  }

  /** The length is computed in a uint16. */
  method PacketLen(t: TransportLayerCC) returns (n: uint16)
    ensures n == FullLength(t) % 0x1_0000
  {
    var start := HEADER_LENGTH + PACKET_CHUNK_OFFSET + 2 * |t.packetChunks|;
    n := start % 0x1_0000;
    assert t.recvDeltas[..|t.recvDeltas|] == t.recvDeltas;
    for i := 0 to |t.recvDeltas|
      invariant n == (start + DeltaSizes(t.recvDeltas[..i])) % 0x1_0000
    {
      assert t.recvDeltas[..i + 1][..i] == t.recvDeltas[..i];
      var k := if t.recvDeltas[i].typ == SMALL_DELTA then 1 else 2;
      WrapAdd(start + DeltaSizes(t.recvDeltas[..i]), k);
      n := (n + k) % 0x1_0000;
    }
  }

  function Size(t: TransportLayerCC): uint16 {
    RoundUp(FullLength(t) % 0x1_0000)
  }

  method MarshalSize(t: TransportLayerCC) returns (n: uint16)
    ensures n == Size(t)
  {
    n := PacketLen(t);
    if n % 4 != 0 {
      n := (n / 4 + 1) * 4 % 0x1_0000;
    }
  }

  // ---------------------------------------------------------------- encoding

  /** The reference time, truncated to 24 bits, and the feedback count, as one word. */
  function TimeAndCount(t: TransportLayerCC): uint32 {
    t.referenceTime % 0x100_0000 * 0x100 + t.fbPktCount
  }

  method PackTimeAndCount(t: TransportLayerCC) returns (w: uint32)
    ensures w == TimeAndCount(t)
  {
    var w0 := AppendNBitsToUint32(0, 24, t.referenceTime);
    w := AppendNBitsToUint32(w0, 8, t.fbPktCount);
    LowThreeBytes(t.referenceTime);
    forall i: nat ensures Bit(w, i) <==> Bit(TimeAndCount(t), i) {
      if i < 8 {
        LowByteBit(TimeAndCount(t), i);
      } else {
        HighByteBit(TimeAndCount(t), i - 8);
        LowBit(t.referenceTime, 24, i - 8);
        ZeroAbove(i - 8);
      }
    }
    SameBits(w, TimeAndCount(t));
  }

  lemma ZeroAbove(i: nat)
    ensures i >= 24 ==> !Bit(0, i - 24)
  {
    if i >= 24 { ZeroBit(i - 24); }
  }

  function FixedPart(t: TransportLayerCC): (b: seq<byte>)
    ensures |b| == PACKET_CHUNK_OFFSET
  {
    Put32(t.senderSSRC) + Put32(t.mediaSSRC) + Put16(t.baseSequenceNumber) + Put16(t.packetStatusCount)
    + Put32(TimeAndCount(t))
  }

  function WriteChunks(payload: seq<byte>, chunks: seq<Chunk>, at: nat): Outcome<seq<byte>>
    decreases chunks
  {
    if chunks == [] then Ok(payload)
    else match ChunkWord(chunks[0])
      case None => Err(InvalidSizeOrStartIndex)
      case Some(w) =>
        match Copied(payload, at, Put16(w))
        case None => Panic
        case Some(p) => WriteChunks(p, chunks[1..], at + 2)
  }

  /** A delta that cannot be encoded is left out. */
  function WriteDeltas(payload: seq<byte>, deltas: seq<RecvDelta>, at: nat): Outcome<seq<byte>>
    decreases deltas
  {
    if deltas == [] then Ok(payload)
    else match EncodeDelta(deltas[0])
      case None => WriteDeltas(payload, deltas[1..], at)
      case Some(b) =>
        match Copied(payload, at, b)
        case None => Panic
        case Some(p) => WriteDeltas(p, deltas[1..], at + |b|)
  }

  /** The padding byte, when there is to be one, goes over the last byte. */
  function WritePadding(t: TransportLayerCC, payload: seq<byte>): seq<byte>
    requires payload != []
  {
    if t.header.padding then payload[|payload| - 1 := (Size(t) - FullLength(t) % 0x1_0000) % 0x100] else payload
  }

  /** The payload with all chunks written, from the end of the fixed part on. */
  function WithChunks(payload: seq<byte>, chunks: seq<Chunk>): Outcome<seq<byte>> {
    WriteChunks(payload, chunks, PACKET_CHUNK_OFFSET)
  }

  /** And with all deltas, behind that many chunks. */
  function WithDeltas(payload: seq<byte>, chunks: nat, deltas: seq<RecvDelta>): Outcome<seq<byte>> {
    WriteDeltas(payload, deltas, PACKET_CHUNK_OFFSET + 2 * chunks)
  }

  /** The payload before any padding. */
  function Payload(fixed: seq<byte>, chunks: seq<Chunk>, deltas: seq<RecvDelta>, n: nat): (r: Outcome<seq<byte>>)
    requires |fixed| == PACKET_CHUNK_OFFSET <= n
  {
    match WithChunks(fixed + Zeros(n - |fixed|), chunks)
    case Ok(p) => WithDeltas(p, |chunks|, deltas)
    case failed => failed
  }

  function Marshaled(t: TransportLayerCC): Outcome<seq<byte>> {
    match EncodeHeader(t.header)
    case Ok(header) =>
      if Size(t) < HEADER_LENGTH + PACKET_CHUNK_OFFSET then Panic
      else (
        var n := Size(t) - HEADER_LENGTH;
        match Payload(FixedPart(t), t.packetChunks, t.recvDeltas, n)
        case Ok(p) =>
          PayloadSize(FixedPart(t), t.packetChunks, t.recvDeltas, n);
          Ok(header + WritePadding(t, p))
        case failed => failed
      )
    case failed => failed
  }

  lemma {:induction false} ChunksKeepSize(payload: seq<byte>, chunks: seq<Chunk>, at: nat)
    ensures var r := WriteChunks(payload, chunks, at); r.Ok? ==> |r.value| == |payload|
    decreases chunks
  {
    if chunks != [] && ChunkWord(chunks[0]).Some? {
      var p := Copied(payload, at, Put16(ChunkWord(chunks[0]).value));
      if p.Some? { ChunksKeepSize(p.value, chunks[1..], at + 2); }
    }
  }

  lemma {:induction false} DeltasKeepSize(payload: seq<byte>, deltas: seq<RecvDelta>, at: nat)
    ensures var r := WriteDeltas(payload, deltas, at); r.Ok? ==> |r.value| == |payload|
    decreases deltas
  {
    if deltas != [] {
      var b := EncodeDelta(deltas[0]);
      if b.None? {
        DeltasKeepSize(payload, deltas[1..], at);
      } else if at <= |payload| {
        DeltasKeepSize(Copied(payload, at, b.value).value, deltas[1..], at + |b.value|);
      }
    }
  }

  lemma PayloadSize(fixed: seq<byte>, chunks: seq<Chunk>, deltas: seq<RecvDelta>, n: nat)
    requires |fixed| == PACKET_CHUNK_OFFSET <= n
    ensures var r := Payload(fixed, chunks, deltas, n); r.Ok? ==> |r.value| == n
  {
    var start := fixed + Zeros(n - |fixed|);
    ChunksKeepSize(start, chunks, |fixed|);
    var r := WriteChunks(start, chunks, |fixed|);
    if r.Ok? { DeltasKeepSize(r.value, deltas, |fixed| + 2 * |chunks|); }
  }

  method FillFixedPart(payload: array<byte>, t: TransportLayerCC)
    requires payload.Length >= PACKET_CHUNK_OFFSET
    modifies payload
    ensures Wrote(old(payload[..]), payload[..], 0, FixedPart(t))
  {
    var timeAndCount := PackTimeAndCount(t);
    ghost var s0 := payload[..];
    Put(payload, 0, Put32(t.senderSSRC));
    ghost var s1 := payload[..];
    Put(payload, 4, Put32(t.mediaSSRC));
    ghost var s2 := payload[..];
    WroteBoth(s0, s1, s2, 0, Put32(t.senderSSRC), Put32(t.mediaSSRC));
    Put(payload, 8, Put16(t.baseSequenceNumber));
    ghost var s3 := payload[..];
    WroteBoth(s0, s2, s3, 0, Put32(t.senderSSRC) + Put32(t.mediaSSRC), Put16(t.baseSequenceNumber));
    Put(payload, 10, Put16(t.packetStatusCount));
    ghost var s4 := payload[..];
    WroteBoth(s0, s3, s4, 0, Put32(t.senderSSRC) + Put32(t.mediaSSRC) + Put16(t.baseSequenceNumber),
              Put16(t.packetStatusCount));
    Put(payload, 12, Put32(timeAndCount));
    WroteBoth(s0, s4, payload[..], 0,
              Put32(t.senderSSRC) + Put32(t.mediaSSRC) + Put16(t.baseSequenceNumber) + Put16(t.packetStatusCount),
              Put32(timeAndCount));
  }

  method CopyChunk(payload: array<byte>, chunks: seq<Chunk>, at: nat) returns (r: Outcome<()>)
    requires chunks != []
    modifies payload
    ensures WriteChunks(old(payload[..]), chunks, at) ==
            match r
            case Ok(_) => WriteChunks(payload[..], chunks[1..], at + 2)
            case Err(e) => Err(e)
            case Panic => Panic
  {
    var b := MarshalChunk(chunks[0]);
    if b.None? {
      return Err(InvalidSizeOrStartIndex);
    }
    var ok := Copy(payload, at, b.value);
    return if ok then Ok(()) else Panic;
  }

  /** The array holds what the specification says, or the failure is the specified one. */
  predicate Agrees(spec: Outcome<seq<byte>>, r: Outcome<()>, now: seq<byte>) {
    match spec
    case Ok(p) => r == Ok(()) && now == p
    case Err(e) => r == Err(e)
    case Panic => r == Panic
  }

  method CopyChunks(payload: array<byte>, chunks: seq<Chunk>, at: nat) returns (r: Outcome<()>)
    modifies payload
    ensures Agrees(WriteChunks(old(payload[..]), chunks, at), r, payload[..])
  {
    ghost var all := WriteChunks(payload[..], chunks, at);
    assert chunks[0..] == chunks;
    for i := 0 to |chunks|
      invariant all == WriteChunks(payload[..], chunks[i..], at + 2 * i)
    {
      assert chunks[i..][1..] == chunks[i + 1..];
      r := CopyChunk(payload, chunks[i..], at + i * 2);
      if !r.Ok? {
        return r;
      }
    }
    return Ok(());
  }

  lemma ChunkWritten(p: seq<byte>, chunks: seq<Chunk>, at: nat, q: seq<byte>)
    requires chunks != [] && ChunkWord(chunks[0]).Some?
    requires Copied(p, at, Put16(ChunkWord(chunks[0]).value)) == Some(q)
    ensures WriteChunks(p, chunks, at) == WriteChunks(q, chunks[1..], at + 2)
  {
  }

  method CopyDeltas(payload: array<byte>, deltas: seq<RecvDelta>, recvDeltaOffset: nat) returns (r: Outcome<()>)
    modifies payload
    ensures Agrees(WriteDeltas(old(payload[..]), deltas, recvDeltaOffset), r, payload[..])
  {
    assert deltas[0..] == deltas;
    var i: nat := 0;
    for k := 0 to |deltas|
      invariant WriteDeltas(old(payload[..]), deltas, recvDeltaOffset) ==
                WriteDeltas(payload[..], deltas[k..], recvDeltaOffset + i)
    {
      assert deltas[k..][1..] == deltas[k + 1..];
      var b := EncodeDelta(deltas[k]);
      if b.Some? {
        var ok := Copy(payload, recvDeltaOffset + i, b.value);
        if !ok {
          return Panic;
        }
        i := i + 1;
        if deltas[k].typ == LARGE_DELTA {
          i := i + 1;
        }
      }
    }
    return Ok(());
  }

  method FillPayload(payload: array<byte>, t: TransportLayerCC) returns (r: Outcome<()>)
    requires payload.Length >= PACKET_CHUNK_OFFSET && payload[..] == Zeros(payload.Length)
    modifies payload
    ensures Agrees(Payload(FixedPart(t), t.packetChunks, t.recvDeltas, payload.Length), r, payload[..])
  {
    FillFixedPart(payload, t);
    ZerosFrom(payload.Length, PACKET_CHUNK_OFFSET);
    assert payload[..] == FixedPart(t) + Zeros(payload.Length - PACKET_CHUNK_OFFSET);
    r := CopyChunks(payload, t.packetChunks, PACKET_CHUNK_OFFSET);
    if r.Ok? {
      r := CopyDeltas(payload, t.recvDeltas, PACKET_CHUNK_OFFSET + |t.packetChunks| * 2);
    }
  }

  method Marshal(t: TransportLayerCC) returns (r: Outcome<seq<byte>>)
    ensures r == Marshaled(t)
  {
    var header := EncodeHeader(t.header);
    if header.Err? {
      return header;
    }
    var size := MarshalSize(t);
    if size < HEADER_LENGTH + PACKET_CHUNK_OFFSET {
      return Panic;
    }
    var payload := new byte[size - HEADER_LENGTH](i => 0);
    AllZeros(payload.Length);
    assert payload[..] == Zeros(payload.Length);
    var done := FillPayload(payload, t);
    if done.Err? {
      return Err(done.error);
    }
    if done.Panic? {
      return Panic;
    }
    PadPayload(payload, t, size);
    return Ok(header.value + payload[..]);
  }

  method PadPayload(payload: array<byte>, t: TransportLayerCC, size: uint16)
    requires payload.Length > 0 && size == Size(t)
    modifies payload
    ensures payload[..] == WritePadding(t, old(payload[..]))
  {
    if t.header.padding {
      var n := PacketLen(t);
      payload[payload.Length - 1] := (size - n) % 0x100;
    }
  }

  // ---------------------------------------------------------------- decoding

  function Min(x: uint16, y: uint16): uint16 {
    if x < y then x else y
  }

  function Repeat(symbol: uint16, n: nat): (s: seq<uint16>)
    ensures |s| == n
  {
    if n == 0 then [] else Repeat(symbol, n - 1) + [symbol]
  }

  /** The symbols of a vector for which a delta follows. */
  function Received(symbolSize: uint16, symbols: seq<uint16>): seq<uint16> {
    if symbols == [] then []
    else
      var last := symbols[|symbols| - 1];
      Received(symbolSize, symbols[..|symbols| - 1]) +
      if last == SMALL_DELTA || (symbolSize == TWO_BIT && last == LARGE_DELTA) then [last] else []
  }

  /** The deltas that a chunk announces, once `processed` of the `count` packets are accounted for. */
  function Announced(c: Chunk, count: uint16, processed: uint16): seq<uint16>
    requires processed < count
  {
    match c
    case RunLengthChunk(symbol, runLength) =>
      if symbol == SMALL_DELTA || symbol == LARGE_DELTA then Repeat(symbol, Min(count - processed, runLength)) else []
    case StatusVectorChunk(symbolSize, symbols) => Received(symbolSize, symbols)
  }

  /** The packets accounted for after a chunk, in a uint16. */
  function Advanced(c: Chunk, count: uint16, processed: uint16): uint16
    requires processed < count
  {
    match c
    case RunLengthChunk(_, runLength) => processed + Min(count - processed, runLength)
    case StatusVectorChunk(_, symbols) => (processed + |symbols|) % 0x1_0000
  }

  datatype Statuses = Statuses(chunks: seq<Chunk>, announced: seq<uint16>, end: nat)

  function ReadChunks(raw: seq<byte>, total: nat, count: uint16, pos: nat, processed: uint16): (r: Option<Statuses>)
    requires pos <= total <= |raw|
    ensures r.Some? ==> pos <= r.value.end <= total
    decreases total - pos
  {
    if processed >= count then Some(Statuses([], [], pos))
    else if pos + CHUNK_LENGTH >= total then None
    else
      var c := DecodeChunk(raw[pos], raw[pos + 1]);
      match ReadChunks(raw, total, count, pos + CHUNK_LENGTH, Advanced(c, count, processed))
      case None => None
      case Some(s) =>
        Some(Statuses([c] + s.chunks, Announced(c, count, processed) + s.announced, s.end))
  }

  lemma AnnouncedDeltas(c: Chunk, count: uint16, processed: uint16)
    requires processed < count
    ensures forall x :: x in Announced(c, count, processed) ==> x in {SMALL_DELTA, LARGE_DELTA}
  {
    match c
    case RunLengthChunk(symbol, runLength) => RepeatOnly(symbol, Min(count - processed, runLength));
    case StatusVectorChunk(symbolSize, symbols) => ReceivedOnly(symbolSize, symbols);
  }

  lemma {:induction false} RepeatOnly(symbol: uint16, n: nat)
    ensures forall x :: x in Repeat(symbol, n) ==> x == symbol
  {
    if n > 0 { RepeatOnly(symbol, n - 1); }
  }

  lemma {:induction false} ReceivedOnly(symbolSize: uint16, symbols: seq<uint16>)
    ensures forall x :: x in Received(symbolSize, symbols) ==> x in {SMALL_DELTA, LARGE_DELTA}
  {
    if symbols != [] { ReceivedOnly(symbolSize, symbols[..|symbols| - 1]); }
  }

  function ReadDeltas(raw: seq<byte>, total: nat, announced: seq<uint16>, pos: nat): (r: Option<seq<RecvDelta>>)
    requires pos <= total <= |raw|
    ensures r.Some? ==> |r.value| == |announced|
    decreases announced
  {
    if announced == [] then Some([])
    else
      var n := if announced[0] == SMALL_DELTA then 1 else 2;
      if pos + n > total then None
      else match ReadDeltas(raw, total, announced[1..], pos + n)
        case None => None
        case Some(ds) => Some([if n == 1 then DecodeSmall(raw[pos]) else DecodeLarge(Get16(raw, pos))] + ds)
  }

  /** `4 * (Length + 1)` in a uint16. */
  function TotalLength(h: Header): uint16 {
    4 * ((h.length + 1) % 0x1_0000) % 0x1_0000
  }

  function Unmarshaled(raw: seq<byte>): Outcome<TransportLayerCC> {
    if |raw| < HEADER_LENGTH + SSRC_LENGTH then Err(PacketTooShort)
    else match DecodeHeader(raw)
      case Err(e) => Err(e)
      case Panic => Panic
      case Ok(header) =>
        var total := TotalLength(header);
        if total < HEADER_LENGTH + PACKET_CHUNK_OFFSET || |raw| < total then Err(PacketTooShort)
        else if header.typ != TRANSPORT_SPECIFIC_FEEDBACK || header.count != FORMAT_TCC then Err(WrongType)
        else
          var count := Get16(raw, 14);
          match ReadChunks(raw, total, count, HEADER_LENGTH + PACKET_CHUNK_OFFSET, 0)
          case None => Err(PacketTooShort)
          case Some(s) =>
            match ReadDeltas(raw, total, s.announced, s.end)
            case None => Err(PacketTooShort)
            case Some(deltas) =>
              Ok(TransportLayerCC(header, Get32(raw, 4), Get32(raw, 8), Get16(raw, 12), count, Get24(raw, 16), raw[19],
                                  s.chunks, deltas))
  }

  /** The deltas announced by one chunk, appended to those before. */
  method Announce(before: seq<uint16>, c: Chunk, count: uint16, processed: uint16)
    returns (deltas: seq<uint16>, after: uint16)
    requires processed < count
    ensures deltas == before + Announced(c, count, processed) && after == Advanced(c, count, processed)
  {
    deltas := before;
    match c
    case RunLengthChunk(symbol, runLength) =>
      var n := Min(count - processed, runLength);
      if symbol == SMALL_DELTA || symbol == LARGE_DELTA {
        for j := 0 to n
          invariant deltas == before + Repeat(symbol, j)
        {
          deltas := deltas + [symbol];
        }
      }
      after := processed + n;
    case StatusVectorChunk(symbolSize, symbols) =>
      assert symbols[..|symbols|] == symbols;
      for j := 0 to |symbols|
        invariant deltas == before + Received(symbolSize, symbols[..j])
      {
        assert symbols[..j + 1][..j] == symbols[..j];
        if symbols[j] == SMALL_DELTA || (symbolSize == TWO_BIT && symbols[j] == LARGE_DELTA) {
          deltas := deltas + [symbols[j]];
        }
      }
      after := (processed + |symbols|) % 0x1_0000;
  }

  function Behind(chunks: seq<Chunk>, announced: seq<uint16>, s: Option<Statuses>): Option<Statuses> {
    match s
    case None => None
    case Some(s) => Some(Statuses(chunks + s.chunks, announced + s.announced, s.end))
  }

  lemma BehindNothing(s: Option<Statuses>, ds: Option<seq<RecvDelta>>)
    ensures Behind([], [], s) == s && BehindDeltas([], ds) == ds
  {
    if s.Some? { assert [] + s.value.chunks == s.value.chunks && [] + s.value.announced == s.value.announced; }
    if ds.Some? { assert [] + ds.value == ds.value; }
  }

  method UnmarshalChunk(b0: byte, b1: byte) returns (c: Chunk)
    ensures c == DecodeChunk(b0, b1)
  {
    var typ := GetNBitsFromByte(b0, 0, 1);
    var chunk;
    if typ == 0 {
      chunk := UnmarshalRunLength([b0, b1]);
    } else {
      chunk := UnmarshalStatusVector([], [b0, b1]);
    }
    c := chunk.value;
  }

  method UnmarshalChunks(raw: seq<byte>, total: nat, count: uint16) returns (r: Option<Statuses>)
    requires HEADER_LENGTH + PACKET_CHUNK_OFFSET <= total <= |raw|
    ensures r == ReadChunks(raw, total, count, HEADER_LENGTH + PACKET_CHUNK_OFFSET, 0)
  {
    var packetStatusPos := HEADER_LENGTH + PACKET_CHUNK_OFFSET;
    var processed: uint16 := 0;
    var chunks: seq<Chunk>, deltas: seq<uint16> := [], [];
    BehindNothing(ReadChunks(raw, total, count, packetStatusPos, processed), None);
    while processed < count
      invariant packetStatusPos <= total
      invariant ReadChunks(raw, total, count, HEADER_LENGTH + PACKET_CHUNK_OFFSET, 0) ==
                Behind(chunks, deltas, ReadChunks(raw, total, count, packetStatusPos, processed))
      decreases total - packetStatusPos
    {
      if packetStatusPos + CHUNK_LENGTH >= total {
        return None;
      }
      var b0, b1 := raw[packetStatusPos], raw[packetStatusPos + 1];
      var c := UnmarshalChunk(b0, b1);
      ChunkRead(raw, total, count, packetStatusPos, processed, chunks, deltas, c);
      deltas, processed := Announce(deltas, c, count, processed);
      packetStatusPos := packetStatusPos + CHUNK_LENGTH;
      chunks := chunks + [c];
    }
    assert chunks + [] == chunks && deltas + [] == deltas;
    return Some(Statuses(chunks, deltas, packetStatusPos));
  }

  lemma ChunkRead(raw: seq<byte>, total: nat, count: uint16, pos: nat, processed: uint16,
                  chunks: seq<Chunk>, deltas: seq<uint16>, c: Chunk)
    requires pos + CHUNK_LENGTH < total <= |raw| && processed < count && c == DecodeChunk(raw[pos], raw[pos + 1])
    ensures Behind(chunks, deltas, ReadChunks(raw, total, count, pos, processed)) ==
            Behind(chunks + [c], deltas + Announced(c, count, processed),
                   ReadChunks(raw, total, count, pos + CHUNK_LENGTH, Advanced(c, count, processed)))
  {
    var rest := ReadChunks(raw, total, count, pos + CHUNK_LENGTH, Advanced(c, count, processed));
    var now := Announced(c, count, processed);
    if rest.Some? {
      assert chunks + ([c] + rest.value.chunks) == chunks + [c] + rest.value.chunks;
      assert deltas + (now + rest.value.announced) == deltas + now + rest.value.announced;
    }
  }

  lemma {:induction false} OnlyDeltasAnnounced(raw: seq<byte>, total: nat, count: uint16, pos: nat, processed: uint16)
    requires pos <= total <= |raw|
    ensures var s := ReadChunks(raw, total, count, pos, processed);
            s.Some? ==> forall x :: x in s.value.announced ==> x in {SMALL_DELTA, LARGE_DELTA}
    decreases total - pos
  {
    if processed < count && pos + CHUNK_LENGTH < total {
      var c := DecodeChunk(raw[pos], raw[pos + 1]);
      AnnouncedDeltas(c, count, processed);
      OnlyDeltasAnnounced(raw, total, count, pos + CHUNK_LENGTH, Advanced(c, count, processed));
    }
  }

  function BehindDeltas(ds: seq<RecvDelta>, rest: Option<seq<RecvDelta>>): Option<seq<RecvDelta>> {
    match rest
    case None => None
    case Some(more) => Some(ds + more)
  }

  /** The bytes that a delta of this type takes; one of any other type is left as it is. */
  function Taken(typ: uint16): nat {
    if typ == SMALL_DELTA then 1 else if typ == LARGE_DELTA then 2 else 0
  }

  function ReadSlot(raw: seq<byte>, slot: RecvDelta, pos: nat): RecvDelta
    requires pos + Taken(slot.typ) <= |raw|
  {
    if slot.typ == SMALL_DELTA then DecodeSmall(raw[pos])
    else if slot.typ == LARGE_DELTA then DecodeLarge(Get16(raw, pos))
    else slot
  }

  /** The deltas of a packet are read over the ones that are there. */
  function ReadSlots(raw: seq<byte>, total: nat, slots: seq<RecvDelta>, pos: nat): (r: Option<seq<RecvDelta>>)
    requires pos <= total <= |raw|
    ensures r.Some? ==> |r.value| == |slots|
    decreases slots
  {
    if slots == [] then Some([])
    else if pos + Taken(slots[0].typ) > total then None
    else match ReadSlots(raw, total, slots[1..], pos + Taken(slots[0].typ))
      case None => None
      case Some(ds) => Some([ReadSlot(raw, slots[0], pos)] + ds)
  }

  lemma SlotRead(raw: seq<byte>, total: nat, slots: seq<RecvDelta>, pos: nat, ds: seq<RecvDelta>)
    requires slots != [] && pos + Taken(slots[0].typ) <= total <= |raw|
    ensures BehindDeltas(ds, ReadSlots(raw, total, slots, pos)) ==
            BehindDeltas(ds + [ReadSlot(raw, slots[0], pos)],
                         ReadSlots(raw, total, slots[1..], pos + Taken(slots[0].typ)))
  {
    var d := ReadSlot(raw, slots[0], pos);
    var rest := ReadSlots(raw, total, slots[1..], pos + Taken(slots[0].typ));
    if rest.Some? { assert ds + ([d] + rest.value) == ds + [d] + rest.value; }
  }

  method UnmarshalDeltas(raw: seq<byte>, total: nat, slots: seq<RecvDelta>, start: nat)
    returns (r: Option<seq<RecvDelta>>)
    requires start <= total <= |raw|
    ensures r == ReadSlots(raw, total, slots, start)
  {
    var recvDeltasPos: nat := start;
    var ds: seq<RecvDelta> := [];
    assert slots[0..] == slots;
    BehindNothing(None, ReadSlots(raw, total, slots, start));
    for i := 0 to |slots|
      invariant recvDeltasPos <= total
      invariant ReadSlots(raw, total, slots, start) ==
                BehindDeltas(ds, ReadSlots(raw, total, slots[i..], recvDeltasPos))
    {
      assert slots[i..][1..] == slots[i + 1..];
      if recvDeltasPos + Taken(slots[i].typ) <= total { SlotRead(raw, total, slots[i..], recvDeltasPos, ds); }
      var d := slots[i];
      if slots[i].typ == SMALL_DELTA {
        if recvDeltasPos + 1 > total {
          return None;
        }
        d := DecodeSmall(raw[recvDeltasPos]);
        recvDeltasPos := recvDeltasPos + 1;
      }
      if slots[i].typ == LARGE_DELTA {
        if recvDeltasPos + 2 > total {
          return None;
        }
        d := DecodeLarge(Get16(raw, recvDeltasPos));
        recvDeltasPos := recvDeltasPos + 2;
      }
      ds := ds + [d];
    }
    assert ds + [] == ds;
    return Some(ds);
  }

  /** The deltas that are announced, before they are read. */
  function Unread(announced: seq<uint16>): (slots: seq<RecvDelta>)
    ensures |slots| == |announced|
  {
    if announced == [] then [] else [RecvDelta(announced[0], 0)] + Unread(announced[1..])
  }

  lemma {:induction false} UnreadAreRead(raw: seq<byte>, total: nat, announced: seq<uint16>, pos: nat)
    requires pos <= total <= |raw| && forall x :: x in announced ==> x in {SMALL_DELTA, LARGE_DELTA}
    ensures ReadSlots(raw, total, Unread(announced), pos) == ReadDeltas(raw, total, announced, pos)
    decreases announced
  {
    if announced != [] {
      var n := Taken(announced[0]);
      assert announced[0] in announced && Unread(announced)[1..] == Unread(announced[1..]);
      assert forall x :: x in announced[1..] ==> x in announced;
      if pos + n <= total { UnreadAreRead(raw, total, announced[1..], pos + n); }
    }
  }

  /** Read into a packet that was used before: chunks are appended to its chunks, and the deltas that the new chunks
      announce to its deltas, all of which are then read. */
  function UnmarshaledInto(before: TransportLayerCC, raw: seq<byte>): Outcome<TransportLayerCC> {
    if |raw| < HEADER_LENGTH + SSRC_LENGTH then Err(PacketTooShort)
    else match DecodeHeader(raw)
      case Err(e) => Err(e)
      case Panic => Panic
      case Ok(header) =>
        var total := TotalLength(header);
        if total < HEADER_LENGTH + PACKET_CHUNK_OFFSET || |raw| < total then Err(PacketTooShort)
        else if header.typ != TRANSPORT_SPECIFIC_FEEDBACK || header.count != FORMAT_TCC then Err(WrongType)
        else
          var count := Get16(raw, 14);
          match ReadChunks(raw, total, count, HEADER_LENGTH + PACKET_CHUNK_OFFSET, 0)
          case None => Err(PacketTooShort)
          case Some(s) =>
            match ReadSlots(raw, total, before.recvDeltas + Unread(s.announced), s.end)
            case None => Err(PacketTooShort)
            case Some(deltas) =>
              Ok(TransportLayerCC(header, Get32(raw, 4), Get32(raw, 8), Get16(raw, 12), count, Get24(raw, 16), raw[19],
                                  before.packetChunks + s.chunks, deltas))
  }

  /** Into a packet without chunks and deltas. */
  lemma IntoEmpty(before: TransportLayerCC, raw: seq<byte>)
    requires before.packetChunks == [] && before.recvDeltas == []
    ensures UnmarshaledInto(before, raw) == Unmarshaled(raw)
  {
    if |raw| >= HEADER_LENGTH + SSRC_LENGTH && DecodeHeader(raw).Ok? {
      var total := TotalLength(DecodeHeader(raw).value);
      if HEADER_LENGTH + PACKET_CHUNK_OFFSET <= total <= |raw| {
        IntoEmptyReads(raw, total, Get16(raw, 14));
      }
    }
  }

  lemma IntoEmptyReads(raw: seq<byte>, total: nat, count: uint16)
    requires HEADER_LENGTH + PACKET_CHUNK_OFFSET <= total <= |raw|
    ensures var r := ReadChunks(raw, total, count, HEADER_LENGTH + PACKET_CHUNK_OFFSET, 0);
            r.Some? ==>
              && [] + r.value.chunks == r.value.chunks
              && ReadSlots(raw, total, [] + Unread(r.value.announced), r.value.end)
                 == ReadDeltas(raw, total, r.value.announced, r.value.end)
  {
    OnlyDeltasAnnounced(raw, total, count, HEADER_LENGTH + PACKET_CHUNK_OFFSET, 0);
    var r := ReadChunks(raw, total, count, HEADER_LENGTH + PACKET_CHUNK_OFFSET, 0);
    if r.Some? {
      assert [] + Unread(r.value.announced) == Unread(r.value.announced);
      UnreadAreRead(raw, total, r.value.announced, r.value.end);
    }
  }

  method Unmarshal(before: TransportLayerCC, raw: seq<byte>) returns (r: Outcome<TransportLayerCC>)
    ensures r == UnmarshaledInto(before, raw)
    ensures before.packetChunks == [] && before.recvDeltas == [] ==> r == Unmarshaled(raw)
  {
    if before.packetChunks == [] && before.recvDeltas == [] { IntoEmpty(before, raw); }
    if |raw| < HEADER_LENGTH + SSRC_LENGTH {
      return Err(PacketTooShort);
    }
    var h := DecodeHeader(raw);
    if !h.Ok? {
      return Err(h.error);
    }
    var header := h.value;
    var totalLength := TotalLength(header);
    if totalLength < HEADER_LENGTH + PACKET_CHUNK_OFFSET {
      return Err(PacketTooShort);
    }
    if |raw| < totalLength {
      return Err(PacketTooShort);
    }
    if header.typ != TRANSPORT_SPECIFIC_FEEDBACK || header.count != FORMAT_TCC {
      return Err(WrongType);
    }
    var count := Get16(raw, 14);
    var s := UnmarshalChunks(raw, totalLength, count);
    if s.None? {
      return Err(PacketTooShort);
    }
    var slots := before.recvDeltas + Unread(s.value.announced);
    var ds := UnmarshalDeltas(raw, totalLength, slots, s.value.end);
    if ds.None? {
      return Err(PacketTooShort);
    }
    return Ok(TransportLayerCC(header, Get32(raw, 4), Get32(raw, 8), Get16(raw, 12), count, Get24(raw, 16), raw[19],
                               before.packetChunks + s.value.chunks, ds.value));
  }
}
