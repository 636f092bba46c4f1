/** Packet status chunks of transport-wide congestion control feedback
    (section 3.1 of draft-holmer-rmcat-transport-wide-cc-extensions-01). */
module StatusChunks {
  import opened Bits
  import opened BitLemmas
  import opened BitFields

  const NOT_RECEIVED: uint16 := 0
  const SMALL_DELTA: uint16 := 1
  const LARGE_DELTA: uint16 := 2

  const ONE_BIT: uint16 := 0
  const TWO_BIT: uint16 := 1

  const CHUNK_LENGTH := 2

  datatype Chunk =
    | RunLengthChunk(symbol: uint16, runLength: uint16)
    | StatusVectorChunk(symbolSize: uint16, symbols: seq<uint16>)

  // ---------------------------------------------------------------- encoding

  /** Bits per symbol; a size that is neither one nor two bits has none. */
  function NumOfBits(symbolSize: uint16): nat {
    if symbolSize == ONE_BIT then 1 else if symbolSize == TWO_BIT then 2 else 0
  }

  /** Where symbol `i` starts in the word. */
  function SymbolIndex(symbolSize: uint16, i: nat): nat {
    2 + if symbolSize == ONE_BIT then i else if symbolSize == TWO_BIT then 2 * i else 0
  }

  /** The word once the first `n` symbols are set. */
  function SetSymbols(dst: uint16, symbolSize: uint16, symbols: seq<uint16>, n: nat): Option<uint16>
    requires n <= |symbols|
  {
    if n == 0 then Some(dst)
    else match SetSymbols(dst, symbolSize, symbols, n - 1)
      case None => None
      case Some(d) =>
        SetField(d, NumOfBits(symbolSize), SymbolIndex(symbolSize, n - 1), symbols[n - 1])
  }

  /** A value to be set with `size` bits at bit `start`. */
  datatype BitField = BitField(size: nat, start: nat, value: uint16)

  /** The word once the first `n` fields are set. */
  function SetFields(fields: seq<BitField>, n: nat): uint16
    requires n <= |fields| && forall i :: 0 <= i < |fields| ==> fields[i].start + fields[i].size <= 16
  {
    if n == 0 then 0
    else SetField(SetFields(fields, n - 1), fields[n - 1].size, fields[n - 1].start, fields[n - 1].value).value
  }

  function RunWord(symbol: uint16, runLength: uint16): uint16 {
    SetFields([BitField(1, 0, 0), BitField(2, 1, symbol), BitField(13, 3, runLength)], 3)
  }

  function VectorStart(symbolSize: uint16): uint16 {
    SetFields([BitField(1, 0, 1), BitField(1, 1, symbolSize)], 2)
  }

  /** The fields are set one after the other. */
  lemma SetFieldsOneByOne(symbol: uint16, runLength: uint16, symbolSize: uint16)
    ensures RunWord(symbol, runLength) ==
            SetField(SetField(SetField(0, 1, 0, 0).value, 2, 1, symbol).value, 13, 3, runLength).value
    ensures VectorStart(symbolSize) == SetField(SetField(0, 1, 0, 1).value, 1, 1, symbolSize).value
  {
    var run := [BitField(1, 0, 0), BitField(2, 1, symbol), BitField(13, 3, runLength)];
    assert SetFields(run, 1) == SetField(SetFields(run, 0), 1, 0, 0).value;
    assert SetFields(run, 2) == SetField(SetFields(run, 1), 2, 1, symbol).value;
    assert SetFields(run, 3) == SetField(SetFields(run, 2), 13, 3, runLength).value;
    var vector := [BitField(1, 0, 1), BitField(1, 1, symbolSize)];
    assert SetFields(vector, 1) == SetField(SetFields(vector, 0), 1, 0, 1).value;
    assert SetFields(vector, 2) == SetField(SetFields(vector, 1), 1, 1, symbolSize).value;
  }

  function ChunkWord(c: Chunk): Option<uint16> {
    match c
    case RunLengthChunk(symbol, runLength) => Some(RunWord(symbol, runLength))
    case StatusVectorChunk(symbolSize, symbols) =>
      SetSymbols(VectorStart(symbolSize), symbolSize, symbols, |symbols|)
  }

  method MarshalRunLength(symbol: uint16, runLength: uint16) returns (chunk: seq<byte>)
    ensures chunk == Put16(RunWord(symbol, runLength))
  {
    SetFieldsOneByOne(symbol, runLength, 0);
    var dst := SetNBitsOfUint16(0, 1, 0, 0);
    dst := SetNBitsOfUint16(dst.value, 2, 1, symbol);
    dst := SetNBitsOfUint16(dst.value, 13, 3, runLength);
    chunk := Put16(dst.value);
  }

  method StartVector(symbolSize: uint16) returns (dst: uint16)
    ensures dst == VectorStart(symbolSize)
  {
    SetFieldsOneByOne(0, 0, symbolSize);
    var d := SetNBitsOfUint16(0, 1, 0, 1);
    d := SetNBitsOfUint16(d.value, 1, 1, symbolSize);
    dst := d.value;
  }

  method MarshalStatusVector(symbolSize: uint16, symbols: seq<uint16>) returns (chunk: Option<seq<byte>>)
    ensures chunk == match SetSymbols(VectorStart(symbolSize), symbolSize, symbols, |symbols|)
                     case None => None
                     case Some(w) => Some(Put16(w))
  {
    var start := StartVector(symbolSize);
    var dst := start;
    var i := 0;
    while i < |symbols|
      invariant 0 <= i <= |symbols|
      invariant SetSymbols(start, symbolSize, symbols, i) == Some(dst) && SymbolIndex(symbolSize, i) <= 16
    {
      var next := SetNBitsOfUint16(dst, NumOfBits(symbolSize), SymbolIndex(symbolSize, i), symbols[i]);
      if next.None? {
        FailsForGood(start, symbolSize, symbols, i + 1);
        return None;
      }
      dst := next.value;
      i := i + 1;
    }
    chunk := Some(Put16(dst));
  }

  method MarshalChunk(c: Chunk) returns (chunk: Option<seq<byte>>)
    ensures chunk == match ChunkWord(c) case None => None case Some(w) => Some(Put16(w))
  {
    match c
    case RunLengthChunk(symbol, runLength) =>
      var b := MarshalRunLength(symbol, runLength);
      chunk := Some(b);
    case StatusVectorChunk(symbolSize, symbols) =>
      chunk := MarshalStatusVector(symbolSize, symbols);
  }

  lemma {:induction false} FailsForGood(dst: uint16, symbolSize: uint16, symbols: seq<uint16>, n: nat)
    requires n <= |symbols| && SetSymbols(dst, symbolSize, symbols, n).None?
    ensures SetSymbols(dst, symbolSize, symbols, |symbols|).None?
    decreases |symbols| - n
  {
    if n < |symbols| { FailsForGood(dst, symbolSize, symbols, n + 1); }
  }

  // ---------------------------------------------------------------- decoding

  /** The first `k` of the `n`-bit symbols that start at bit `begin`. */
  function Symbols(b: byte, begin: nat, n: nat, k: nat): (s: seq<uint16>)
    requires begin + n * k <= 8
    ensures |s| == k
  {
    if k == 0 then []
    else
      assert n * (k - 1) + n == n * k;
      Symbols(b, begin, n, k - 1) + [Field(b, begin + n * (k - 1), n)]
  }

  lemma {:induction false} SymbolsAt(b: byte, begin: nat, n: nat, k: nat, i: nat)
    requires begin + n * k <= 8 && i < k
    ensures 0 <= n * i && begin + n * i + n <= 8 && Symbols(b, begin, n, k)[i] == Field(b, begin + n * i, n)
  {
    assert n * (k - 1) + n == n * k;
    if i < k - 1 { SymbolsAt(b, begin, n, k - 1, i); }
  }

  function OneBitSymbols(b0: byte, b1: byte): seq<uint16> {
    Symbols(b0, 2, 1, 6) + Symbols(b1, 0, 1, 8)
  }

  function TwoBitSymbols(b0: byte, b1: byte): seq<uint16> {
    Symbols(b0, 2, 2, 3) + Symbols(b1, 0, 2, 4)
  }

  function DecodeRunLength(b0: byte, b1: byte): Chunk {
    FieldBelow(b0, 3, 5);
    RunLengthChunk(Field(b0, 1, 2), Field(b0, 3, 5) as int * 0x100 + b1)
  }

  function DecodeVector(b0: byte, b1: byte): (c: Chunk)
    ensures c.StatusVectorChunk?
  {
    if Field(b0, 1, 1) == 0 then StatusVectorChunk(ONE_BIT, OneBitSymbols(b0, b1))
    else StatusVectorChunk(TWO_BIT, TwoBitSymbols(b0, b1))
  }

  function DecodeChunk(b0: byte, b1: byte): Chunk {
    if Field(b0, 0, 1) == 0 then DecodeRunLength(b0, b1) else DecodeVector(b0, b1)
  }

  lemma FieldBelow(b: byte, begin: nat, n: nat)
    requires begin + n <= 8
    ensures Field(b, begin, n) < Pow2(n)
  {
    LowBelow(Shr(b, 8 - begin - n), n);
  }

  /** Any two bytes: the type bit is not looked at. */
  method UnmarshalRunLength(raw: seq<byte>) returns (c: Option<Chunk>)
    ensures c == if |raw| == 2 then Some(DecodeRunLength(raw[0], raw[1])) else None
  {
    if |raw| != 2 {
      return None;
    }
    FieldBelow(raw[0], 3, 5);
    var symbol := GetNBitsFromByte(raw[0], 1, 2);
    var high := GetNBitsFromByte(raw[0], 3, 5);
    c := Some(RunLengthChunk(symbol, high as int * 0x100 + raw[1]));
  }

  /** The vector read into a chunk that has these symbols already. */
  function VectorBehind(before: seq<uint16>, b0: byte, b1: byte): Chunk {
    var c := DecodeVector(b0, b1);
    c.(symbols := before + c.symbols)
  }

  /** The symbols are appended to those the chunk has. */
  method UnmarshalStatusVector(before: seq<uint16>, raw: seq<byte>) returns (c: Option<Chunk>)
    ensures c == if |raw| == 2 then Some(VectorBehind(before, raw[0], raw[1])) else None
    ensures before == [] && |raw| == 2 ==> c == Some(DecodeVector(raw[0], raw[1]))
  {
    if |raw| != 2 {
      return None;
    }
    var list;
    var symbolSize := GetNBitsFromByte(raw[0], 1, 1);
    if symbolSize == ONE_BIT {
      list := ReadSymbols(before, raw[0], 2, 1, 6);
      list := ReadSymbols(list, raw[1], 0, 1, 8);
      assert list == before + OneBitSymbols(raw[0], raw[1]);
      assert before == [] ==> list == OneBitSymbols(raw[0], raw[1]);
      return Some(StatusVectorChunk(ONE_BIT, list));
    }
    list := ReadSymbols(before, raw[0], 2, 2, 3);
    list := ReadSymbols(list, raw[1], 0, 2, 4);
    assert list == before + TwoBitSymbols(raw[0], raw[1]);
    assert before == [] ==> list == TwoBitSymbols(raw[0], raw[1]);
    return Some(StatusVectorChunk(TWO_BIT, list));
  }

  /** One of the loops that append a byte's symbols to the list. */
  method ReadSymbols(before: seq<uint16>, b: byte, begin: nat, n: uint16, k: nat) returns (list: seq<uint16>)
    requires begin + n * k <= 8
    ensures list == before + Symbols(b, begin, n, k)
  {
    list := before;
    for i := 0 to k
      invariant begin + n * i <= 8 && list == before + Symbols(b, begin, n, i)
    {
      assert n * (i + 1) == n * i + n;
      assert n * (i + 1) <= n * k;
      var s := GetNBitsFromByte(b, begin + n * i, n);
      list := list + [s];
    }
  }

  // ---------------------------------------------------------------- round trip

  /** The chunks that the wire format can carry. */
  predicate WellFormed(c: Chunk) {
    match c
    case RunLengthChunk(symbol, runLength) => symbol < 4 && runLength < 0x2000
    case StatusVectorChunk(symbolSize, symbols) =>
      || (symbolSize == ONE_BIT && |symbols| == 14 && forall i :: 0 <= i < |symbols| ==> symbols[i] < 2)
      || (symbolSize == TWO_BIT && |symbols| == 7 && forall i :: 0 <= i < |symbols| ==> symbols[i] < 4)
  }

  /** Bit `i` of a field of the first or the second byte of a word. */
  lemma WordFieldBit(w: uint16, begin: nat, n: nat, i: nat)
    requires begin + n <= 8
    ensures Bit(Field(w / 0x100, begin, n), i) <==> i < n && Bit(w, i + 16 - begin - n)
    ensures Bit(Field(w % 0x100, begin, n), i) <==> i < n && Bit(w, i + 8 - begin - n)
  {
    FieldBit(w / 0x100, begin, n, i);
    FieldBit(w % 0x100, begin, n, i);
    HighByteBit(w, i + 8 - begin - n);
    LowByteBit(w, i + 8 - begin - n);
  }

  lemma NestedRunBit(symbol: uint16, runLength: uint16, i: nat)
    ensures Bit(SetField(SetField(SetField(0, 1, 0, 0).value, 2, 1, symbol).value, 13, 3, runLength).value, i) <==>
            if i < 13 then Bit(runLength, i) else i < 15 && Bit(symbol, i - 13)
  {
    var d0 := SetField(0, 1, 0, 0).value;
    var d1 := SetField(d0, 2, 1, symbol).value;
    SetBit(0, 1, 0, 0, i);
    ZeroBit(i);
    if i >= 15 { ZeroBit(i - 15); }
    SetBit(d0, 2, 1, symbol, i);
    SetBit(d1, 13, 3, runLength, i);
  }

  lemma RunWordBit(symbol: uint16, runLength: uint16, i: nat)
    ensures Bit(RunWord(symbol, runLength), i) <==>
            if i < 13 then Bit(runLength, i) else i < 15 && Bit(symbol, i - 13)
  {
    SetFieldsOneByOne(symbol, runLength, 0);
    NestedRunBit(symbol, runLength, i);
  }

  lemma RunType(symbol: uint16, runLength: uint16)
    ensures Field(RunWord(symbol, runLength) / 0x100, 0, 1) == 0
  {
    var w := RunWord(symbol, runLength);
    RunWordBit(symbol, runLength, 15);
    forall i: nat ensures !Bit(Field(w / 0x100, 0, 1), i) { WordFieldBit(w, 0, 1, i); }
    if Field(w / 0x100, 0, 1) > 0 { SomeBit(Field(w / 0x100, 0, 1)); }
  }

  lemma RunSymbol(symbol: uint16, runLength: uint16)
    requires symbol < 4
    ensures Field(RunWord(symbol, runLength) / 0x100, 1, 2) == symbol
  {
    var w := RunWord(symbol, runLength);
    BitLimit(symbol, 2);
    forall i: nat ensures Bit(Field(w / 0x100, 1, 2), i) <==> Bit(symbol, i) {
      WordFieldBit(w, 1, 2, i);
      RunWordBit(symbol, runLength, i + 13);
    }
    SameBits(Field(w / 0x100, 1, 2), symbol);
  }

  lemma RunHigh(symbol: uint16, runLength: uint16)
    requires runLength < 0x2000
    ensures Field(RunWord(symbol, runLength) / 0x100, 3, 5) == runLength / 0x100
  {
    var w := RunWord(symbol, runLength);
    assert Pow2(5) == 0x20;
    BitLimit(runLength / 0x100, 5);
    forall i: nat ensures Bit(Field(w / 0x100, 3, 5), i) <==> Bit(runLength / 0x100, i) {
      WordFieldBit(w, 3, 5, i);
      HighByteBit(runLength, i);
      RunWordBit(symbol, runLength, i + 8);
    }
    SameBits(Field(w / 0x100, 3, 5), runLength / 0x100);
  }

  lemma RunLow(symbol: uint16, runLength: uint16)
    ensures RunWord(symbol, runLength) % 0x100 == runLength % 0x100
  {
    var w := RunWord(symbol, runLength);
    forall i: nat ensures Bit(w % 0x100, i) <==> Bit(runLength % 0x100, i) {
      LowByteBit(w, i);
      LowByteBit(runLength, i);
      RunWordBit(symbol, runLength, i);
    }
    SameBits(w % 0x100, runLength % 0x100);
  }

  lemma RunRoundTrip(symbol: uint16, runLength: uint16)
    requires symbol < 4 && runLength < 0x2000
    ensures var w := RunWord(symbol, runLength);
            DecodeChunk(w / 0x100, w % 0x100) == RunLengthChunk(symbol, runLength)
  {
    RunType(symbol, runLength);
    RunSymbol(symbol, runLength);
    RunHigh(symbol, runLength);
    RunLow(symbol, runLength);
  }

  lemma FirstBit(one: uint16, i: nat)
    requires one == 1
    ensures Bit(SetField(0, 1, 0, one).value, i) <==> i == 15
  {
    SetBit(0, 1, 0, one, i);
    ZeroBit(i);
  }

  lemma SecondBit(src: uint16, symbolSize: uint16, i: nat)
    requires symbolSize < 2 && (Bit(src, i) <==> i == 15)
    ensures Bit(SetField(src, 1, 1, symbolSize).value, i) <==> i == 15 || (i == 14 && symbolSize == TWO_BIT)
  {
    SetBit(src, 1, 1, symbolSize, i);
  }

  lemma VectorStartBit(symbolSize: uint16, i: nat)
    requires symbolSize < 2
    ensures Bit(VectorStart(symbolSize), i) <==> i == 15 || (i == 14 && symbolSize == TWO_BIT)
  {
    SetFieldsOneByOne(0, 0, symbolSize);
    FirstBit(1, i);
    SecondBit(SetField(0, 1, 0, 1).value, symbolSize, i);
  }

  lemma {:induction false} OneBitWord(start: uint16, symbols: seq<uint16>, n: nat, i: nat)
    requires n <= |symbols| <= 14
    ensures var w := SetSymbols(start, ONE_BIT, symbols, n);
            w.Some? && (Bit(w.value, i) <==> Bit(start, i) || (14 - n <= i < 14 && Bit(symbols[13 - i], 0)))
  {
    if n > 0 {
      OneBitWord(start, symbols, n - 1, i);
      SetBit(SetSymbols(start, ONE_BIT, symbols, n - 1).value, 1, n + 1, symbols[n - 1], i);
    }
  }

  lemma {:induction false} TwoBitWord(start: uint16, symbols: seq<uint16>, n: nat, i: nat)
    requires n <= |symbols| <= 7
    ensures var w := SetSymbols(start, TWO_BIT, symbols, n);
            w.Some? && (Bit(w.value, i) <==>
                        Bit(start, i) || (14 - 2 * n <= i < 14 && Bit(symbols[(13 - i) / 2], 1 - (13 - i) % 2)))
  {
    if n > 0 {
      TwoBitWord(start, symbols, n - 1, i);
      SetBit(SetSymbols(start, TWO_BIT, symbols, n - 1).value, 2, 2 * n, symbols[n - 1], i);
      if 14 - 2 * n <= i < 16 - 2 * n {
        assert (13 - i) / 2 == n - 1 && 1 - (13 - i) % 2 == i - (14 - 2 * n);
      }
    }
  }

  /** A one-bit field is bit `k` of the word. */
  lemma FieldIsBit(w: uint16, k: nat)
    requires k < 16
    ensures (if k >= 8 then Field(w / 0x100, 15 - k, 1) else Field(w % 0x100, 7 - k, 1)) == if Bit(w, k) then 1 else 0
  {
    var f := if k >= 8 then Field(w / 0x100, 15 - k, 1) else Field(w % 0x100, 7 - k, 1);
    var r := if Bit(w, k) then 1 else 0;
    forall i: nat ensures Bit(f, i) <==> Bit(r, i) {
      if k >= 8 { WordFieldBit(w, 15 - k, 1, i); } else { WordFieldBit(w, 7 - k, 1, i); }
      if Bit(w, k) { Pow2Bit(0, i); } else { ZeroBit(i); }
    }
    SameBits(f, r);
  }

  lemma OneBitSymbolBack(w: uint16, symbols: seq<uint16>, k: nat)
    requires k < 14 == |symbols| && symbols[k] < 2
    requires Bit(w, 13 - k) <==> Bit(symbols[k], 0)
    ensures OneBitSymbols(w / 0x100, w % 0x100)[k] == symbols[k]
  {
    FieldIsBit(w, 13 - k);
    if k < 6 {
      SymbolsAt(w / 0x100, 2, 1, 6, k);
    } else {
      SymbolsAt(w % 0x100, 0, 1, 8, k - 6);
    }
  }

  lemma TwoBitSymbolBack(w: uint16, symbols: seq<uint16>, k: nat)
    requires k < 7 == |symbols| && symbols[k] < 4
    requires forall i: nat :: i < 2 ==> (Bit(w, i + 12 - 2 * k) <==> Bit(symbols[k], i))
    ensures TwoBitSymbols(w / 0x100, w % 0x100)[k] == symbols[k]
  {
    BitLimit(symbols[k], 2);
    if k < 3 {
      SymbolsAt(w / 0x100, 2, 2, 3, k);
      var f := Field(w / 0x100, 2 + 2 * k, 2);
      forall i: nat ensures Bit(f, i) <==> Bit(symbols[k], i) { WordFieldBit(w, 2 + 2 * k, 2, i); }
      SameBits(f, symbols[k]);
    } else {
      SymbolsAt(w % 0x100, 0, 2, 4, k - 3);
      var f := Field(w % 0x100, 2 * (k - 3), 2);
      forall i: nat ensures Bit(f, i) <==> Bit(symbols[k], i) { WordFieldBit(w, 2 * (k - 3), 2, i); }
      SameBits(f, symbols[k]);
    }
  }

  /** The word spells these one-bit symbols. */
  ghost predicate SpellsOneBit(w: uint16, symbols: seq<uint16>)
    requires |symbols| == 14
  {
    forall i: nat :: Bit(w, i) <==> i == 15 || (i < 14 && Bit(symbols[13 - i], 0))
  }

  ghost predicate SpellsTwoBit(w: uint16, symbols: seq<uint16>)
    requires |symbols| == 7
  {
    forall i: nat :: Bit(w, i) <==> i == 15 || i == 14 || (i < 14 && Bit(symbols[(13 - i) / 2], 1 - (13 - i) % 2))
  }

  lemma OneBitDecodes(w: uint16, symbols: seq<uint16>)
    requires WellFormed(StatusVectorChunk(ONE_BIT, symbols)) && SpellsOneBit(w, symbols)
    ensures DecodeChunk(w / 0x100, w % 0x100) == StatusVectorChunk(ONE_BIT, symbols)
  {
    FieldIsBit(w, 15);
    FieldIsBit(w, 14);
    forall k | 0 <= k < 14 ensures OneBitSymbols(w / 0x100, w % 0x100)[k] == symbols[k] {
      OneBitSymbolBack(w, symbols, k);
    }
  }

  lemma TwoBitDecodes(w: uint16, symbols: seq<uint16>)
    requires WellFormed(StatusVectorChunk(TWO_BIT, symbols)) && SpellsTwoBit(w, symbols)
    ensures DecodeChunk(w / 0x100, w % 0x100) == StatusVectorChunk(TWO_BIT, symbols)
  {
    FieldIsBit(w, 15);
    FieldIsBit(w, 14);
    forall k | 0 <= k < 7 ensures TwoBitSymbols(w / 0x100, w % 0x100)[k] == symbols[k] {
      forall i: nat | i < 2 ensures Bit(w, i + 12 - 2 * k) <==> Bit(symbols[k], i) {
        assert (13 - (i + 12 - 2 * k)) / 2 == k && 1 - (13 - (i + 12 - 2 * k)) % 2 == i;
      }
      TwoBitSymbolBack(w, symbols, k);
    }
  }

  lemma OneBitSpells(symbols: seq<uint16>)
    requires |symbols| == 14
    ensures var w := SetSymbols(VectorStart(ONE_BIT), ONE_BIT, symbols, 14);
            w.Some? && SpellsOneBit(w.value, symbols)
  {
    var start := VectorStart(ONE_BIT);
    OneBitWord(start, symbols, 14, 0);
    var w := SetSymbols(start, ONE_BIT, symbols, 14).value;
    forall i: nat ensures Bit(w, i) <==> i == 15 || (i < 14 && Bit(symbols[13 - i], 0)) {
      OneBitWord(start, symbols, 14, i);
      VectorStartBit(ONE_BIT, i);
    }
  }

  lemma TwoBitSpells(symbols: seq<uint16>)
    requires |symbols| == 7
    ensures var w := SetSymbols(VectorStart(TWO_BIT), TWO_BIT, symbols, 7);
            w.Some? && SpellsTwoBit(w.value, symbols)
  {
    var start := VectorStart(TWO_BIT);
    TwoBitWord(start, symbols, 7, 0);
    var w := SetSymbols(start, TWO_BIT, symbols, 7).value;
    forall i: nat
      ensures Bit(w, i) <==> i == 15 || i == 14 || (i < 14 && Bit(symbols[(13 - i) / 2], 1 - (13 - i) % 2))
    {
      TwoBitWord(start, symbols, 7, i);
      VectorStartBit(TWO_BIT, i);
    }
  }

  /** A well-formed chunk comes back from its two bytes. */
  lemma ChunkRoundTrip(c: Chunk)
    requires WellFormed(c)
    ensures ChunkWord(c).Some?
    ensures var w := ChunkWord(c).value; DecodeChunk(w / 0x100, w % 0x100) == c
  {
    match c
    case RunLengthChunk(symbol, runLength) => RunRoundTrip(symbol, runLength);
    case StatusVectorChunk(symbolSize, symbols) =>
      if symbolSize == ONE_BIT {
        OneBitSpells(symbols);
        OneBitDecodes(ChunkWord(c).value, symbols);
      } else {
        TwoBitSpells(symbols);
        TwoBitDecodes(ChunkWord(c).value, symbols);
      }
  }

  /** Whatever two bytes are read, the chunk is one that the wire format can carry. */
  lemma DecodedIsWellFormed(b0: byte, b1: byte)
    ensures WellFormed(DecodeChunk(b0, b1))
  {
    FieldBelow(b0, 1, 2);
    FieldBelow(b0, 3, 5);
    forall i | 0 <= i < 14 ensures OneBitSymbols(b0, b1)[i] < 2 {
      if i < 6 {
        SymbolsAt(b0, 2, 1, 6, i);
        FieldBelow(b0, 2 + i, 1);
      } else {
        SymbolsAt(b1, 0, 1, 8, i - 6);
        FieldBelow(b1, i - 6, 1);
      }
    }
    forall i | 0 <= i < 7 ensures TwoBitSymbols(b0, b1)[i] < 4 {
      if i < 3 {
        SymbolsAt(b0, 2, 2, 3, i);
        FieldBelow(b0, 2 + 2 * i, 2);
      } else {
        SymbolsAt(b1, 0, 2, 4, i - 3);
        FieldBelow(b1, 2 * (i - 3), 2);
      }
    }
  }
}
