/** The count of packets that the status chunks account for is kept in 16 bits: when it wraps, and what is read then. */
module StatusCount {
  import opened Bits
  import opened StatusChunks
  import opened TransportCC
  import opened TransportCCRoundTrip

  /** The packets that a chunk has a status for. */
  function Length(c: Chunk): nat {
    match c
    case RunLengthChunk(_, runLength) => runLength
    case StatusVectorChunk(_, symbols) => |symbols|
  }

  function Total(chunks: seq<Chunk>): nat {
    if chunks == [] then 0 else Length(chunks[0]) + Total(chunks[1..])
  }

  /** No chunk takes the number of packets accounted for past 2^16. */
  predicate NeverWraps(chunks: seq<Chunk>, count: uint16, processed: uint16) {
    chunks == [] ||
    (processed < count && (chunks[0].StatusVectorChunk? ==> processed + |chunks[0].symbols| < 0x1_0000)
     && NeverWraps(chunks[1..], count, Advanced(chunks[0], count, processed)))
  }

  /** Reading stops with the first chunk that reaches the status count exactly when the count does not wrap; otherwise
      the code reads on behind it. */
  lemma {:induction false} StopsAtCountIff(chunks: seq<Chunk>, count: uint16, processed: uint16)
    requires AllWellFormed(chunks) && Exhausts(chunks, count, processed)
    ensures NeverWraps(chunks, count, processed) <==>
            (chunks == [] || processed + Total(chunks[..|chunks| - 1]) < count)
    decreases chunks
  {
    if chunks != [] {
      var c, rest := chunks[0], chunks[1..];
      StopsAtCountIff(rest, count, Advanced(c, count, processed));
      if rest == [] {
        assert chunks[..0] == [];
      } else {
        var before := chunks[..|chunks| - 1];
        assert before[0] == c && before[1..] == rest[..|rest| - 1];
      }
    }
  }

  /** In particular for what is read from any bytes. */
  lemma DecodedStopsAtCountIff(raw: seq<byte>)
    requires Unmarshaled(raw).Ok?
    ensures var t := Unmarshaled(raw).value;
            NeverWraps(t.packetChunks, t.packetStatusCount, 0) <==>
            (t.packetChunks == [] || Total(t.packetChunks[..|t.packetChunks| - 1]) < t.packetStatusCount)
  {
    DecodedIsConsistent(raw);
    StopsAtCountIff(Unmarshaled(raw).value.packetChunks, Unmarshaled(raw).value.packetStatusCount, 0);
  }

  // ---------------------------------------------------------------- for which counts

  lemma {:induction false} SmallCountNeverWraps(chunks: seq<Chunk>, count: uint16, processed: uint16)
    requires AllWellFormed(chunks) && Exhausts(chunks, count, processed) && count <= 65522
    ensures NeverWraps(chunks, count, processed)
    decreases chunks
  {
    if chunks != [] {
      assert WellFormed(chunks[0]);
      SmallCountNeverWraps(chunks[1..], count, Advanced(chunks[0], count, processed));
    }
  }

  const LONGEST_RUN := 8191

  /** Runs of packets that were not received, `n` of them in all. */
  function RunsOf(n: nat): (chunks: seq<Chunk>)
    ensures AllWellFormed(chunks) && LONGEST_RUN * |chunks| < n + LONGEST_RUN
  {
    if n == 0 then []
    else if n <= LONGEST_RUN then [RunLengthChunk(NOT_RECEIVED, n)]
    else [RunLengthChunk(NOT_RECEIVED, LONGEST_RUN)] + RunsOf(n - LONGEST_RUN)
  }

  /** The chunks end at the count and announce these deltas; and whether the count wraps on the way. */
  predicate Reads(chunks: seq<Chunk>, count: uint16, processed: uint16, announced: seq<uint16>, safe: bool) {
    && Exhausts(chunks, count, processed) && AllAnnounced(chunks, count, processed) == announced
    && (NeverWraps(chunks, count, processed) <==> safe)
  }

  lemma RunFirst(k: nat, rest: seq<Chunk>, count: uint16, processed: uint16, announced: seq<uint16>, safe: bool)
    requires 0 < k && processed + k <= count && Reads(rest, count, processed + k, announced, safe)
    ensures Reads([RunLengthChunk(NOT_RECEIVED, k)] + rest, count, processed, announced, safe)
  {
    var c := RunLengthChunk(NOT_RECEIVED, k);
    var all := [c] + rest;
    assert all[0] == c && all[1..] == rest;
    assert Advanced(c, count, processed) == processed + k && Announced(c, count, processed) == [];
    assert [] + announced == announced;
  }

  function Longest(n: nat): (k: nat)
    ensures k <= n && (n > 0 ==> k > 0)
  {
    if n <= LONGEST_RUN then n else LONGEST_RUN
  }

  lemma FirstRun(n: nat, rest: seq<Chunk>)
    requires n > 0
    ensures RunsOf(n) + rest == [RunLengthChunk(NOT_RECEIVED, Longest(n))] + (RunsOf(n - Longest(n)) + rest)
  {
  }

  /** Runs of packets not received bring the count forward and announce nothing. */
  lemma {:induction false} RunsFirst(n: nat, rest: seq<Chunk>, count: uint16, processed: uint16,
        announced: seq<uint16>, safe: bool)
    requires processed + n <= count && Reads(rest, count, processed + n, announced, safe)
    ensures Reads(RunsOf(n) + rest, count, processed, announced, safe)
    decreases n
  {
    if n == 0 {
      assert RunsOf(0) + rest == rest;
    } else {
      var k := Longest(n);
      RunsFirst(n - k, rest, count, processed + k, announced, safe);
      RunFirst(k, RunsOf(n - k) + rest, count, processed, announced, safe);
      FirstRun(n, rest);
    }
  }

  /** One packet received of fourteen. */
  predicate OneOfFourteen(c: Chunk) {
    WellFormed(c) && c.StatusVectorChunk? && |c.symbols| == 14 && Received(c.symbolSize, c.symbols) == [SMALL_DELTA]
  }

  lemma {:induction false} OneReceived(n: nat)
    ensures Received(ONE_BIT, [SMALL_DELTA] + Repeat(NOT_RECEIVED, n)) == [SMALL_DELTA]
  {
    var symbols := [SMALL_DELTA] + Repeat(NOT_RECEIVED, n);
    if n == 0 {
      assert symbols == [SMALL_DELTA] && symbols[..0] == [];
    } else {
      assert symbols[..|symbols| - 1] == [SMALL_DELTA] + Repeat(NOT_RECEIVED, n - 1);
      assert symbols[|symbols| - 1] == NOT_RECEIVED;
      OneReceived(n - 1);
    }
  }

  lemma FirstOfFourteen() returns (c: Chunk)
    ensures OneOfFourteen(c)
  {
    var n: nat :| n == 13;
    RepeatOnly(NOT_RECEIVED, n);
    OneReceived(n);
    var symbols := [SMALL_DELTA] + Repeat(NOT_RECEIVED, n);
    assert forall i :: 0 <= i < |symbols| ==> symbols[i] < 2;
    c := StatusVectorChunk(ONE_BIT, symbols);
  }

  /** `first` packets, then the fourteen at which the count wraps, then as many as are still missing after that. */
  function WrappingChunks(c: Chunk, first: uint16, count: uint16): seq<Chunk>
    requires 65522 <= first < count
  {
    RunsOf(first) + ([c] + RunsOf(count - (first + 14 - 65536)))
  }

  lemma VectorFirst(c: Chunk, rest: seq<Chunk>, count: uint16, processed: uint16)
    requires OneOfFourteen(c) && 65522 <= processed < count
    requires Reads(rest, count, processed + 14 - 65536, [], true)
    ensures Reads([c] + rest, count, processed, [SMALL_DELTA], false)
  {
    var all := [c] + rest;
    assert all[0] == c && all[1..] == rest;
    assert Advanced(c, count, processed) == processed + 14 - 65536 && Announced(c, count, processed) == [SMALL_DELTA];
  }

  lemma WrappingChunksWrap(c: Chunk, first: uint16, count: uint16)
    requires OneOfFourteen(c) && 65522 <= first < count
    ensures Reads(WrappingChunks(c, first, count), count, 0, [SMALL_DELTA], false)
  {
    var wrapped := first + 14 - 65536;
    var runs := RunsOf(count - wrapped);
    assert Reads([], count, count, [], true);
    RunsFirst(count - wrapped, [], count, wrapped, [], true);
    assert runs + [] == runs;
    VectorFirst(c, runs, count, first);
    RunsFirst(first, [c] + runs, count, 0, [SMALL_DELTA], false);
  }

  lemma FewChunks(c: Chunk, first: uint16, count: uint16)
    requires WellFormed(c) && 65522 <= first < count
    ensures var chunks := WrappingChunks(c, first, count); AllWellFormed(chunks) && |chunks| <= 20
  {
    assert |RunsOf(first)| <= 9;
  }

  /** A packet with these chunks and the one delta that they announce. */
  function PacketOf(chunks: seq<Chunk>, count: uint16): (t: TransportLayerCC)
    requires |chunks| <= 20
  {
    var length := (20 + 2 * |chunks| + 4) / 4 - 1;
    var header := Header(false, FORMAT_TCC, TRANSPORT_SPECIFIC_FEEDBACK, length);
    TransportLayerCC(header, 1, 2, 0, count, 3, 4, chunks, [RecvDelta(SMALL_DELTA, 0)])
  }

  lemma DeltaPart(chunks: seq<Chunk>, count: uint16)
    requires |chunks| <= 20 && AllWellFormed(chunks) && Reads(chunks, count, 0, [SMALL_DELTA], false)
    ensures WellFormedPacket(PacketOf(chunks, count))
  {
    var t, d := PacketOf(chunks, count), RecvDelta(SMALL_DELTA, 0);
    assert [d][1..] == [] && [d][..0] == [];
    assert DeltaSizes([d]) == 1 && TypesOf([d]) == [SMALL_DELTA];
  }

  /** The packet is read back from its bytes, to the last chunk, although the chunks before that one have a status for
      every packet already. */
  predicate ReadOn(t: TransportLayerCC) {
    Marshaled(t).Ok? && Unmarshaled(Marshaled(t).value) == Ok(t) && Overshoots(t.packetChunks, t.packetStatusCount)
  }

  predicate Overshoots(chunks: seq<Chunk>, count: uint16) {
    !NeverWraps(chunks, count, 0) && chunks != [] && Total(chunks[..|chunks| - 1]) >= count
  }

  lemma Overshot(chunks: seq<Chunk>, count: uint16)
    requires AllWellFormed(chunks) && Reads(chunks, count, 0, [SMALL_DELTA], false)
    ensures Overshoots(chunks, count)
  {
    StopsAtCountIff(chunks, count, 0);
  }

  lemma PacketIsRead(chunks: seq<Chunk>, count: uint16)
    requires |chunks| <= 20 && AllWellFormed(chunks) && Reads(chunks, count, 0, [SMALL_DELTA], false)
    ensures ReadOn(PacketOf(chunks, count))
  {
    Overshot(chunks, count);
    DeltaPart(chunks, count);
    RoundTrip(PacketOf(chunks, count));
  }

  lemma WrappingPacket(first: uint16, count: uint16) returns (t: TransportLayerCC)
    requires 65522 <= first < count
    ensures t.packetStatusCount == count && ReadOn(t)
  {
    var c := FirstOfFourteen();
    var chunks := WrappingChunks(c, first, count);
    WrappingChunksWrap(c, first, count);
    FewChunks(c, first, count);
    PacketIsRead(chunks, count);
    t := PacketOf(chunks, count);
  }

  /** Whatever is read with this status count, the number of packets accounted for does not wrap. */
  ghost predicate CountIsSafe(count: uint16) {
    forall raw :: Unmarshaled(raw).Ok? && Unmarshaled(raw).value.packetStatusCount == count ==>
      NeverWraps(Unmarshaled(raw).value.packetChunks, count, 0)
  }

  lemma CountIsSafeIff(count: uint16)
    ensures CountIsSafe(count) <==> count <= 65522
  {
    if count <= 65522 {
      forall raw | Unmarshaled(raw).Ok? && Unmarshaled(raw).value.packetStatusCount == count
        ensures NeverWraps(Unmarshaled(raw).value.packetChunks, count, 0)
      {
        DecodedIsConsistent(raw);
        SmallCountNeverWraps(Unmarshaled(raw).value.packetChunks, count, 0);
      }
    } else {
      var t := WrappingPacket(65522, count);
      assert Unmarshaled(Marshaled(t).value).Ok?;
    }
  }
}
