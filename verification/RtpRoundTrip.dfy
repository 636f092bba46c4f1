/** RTP packets come back from their bytes. */
module RtpRoundTrip {
  import opened Bits
  import opened BitLemmas
  import opened BitFields
  import opened Buffers
  import opened Rtp

  // ---------------------------------------------------------------- well-formed packets

  predicate WellFormedElement(profile: uint16, e: Extension) {
    if profile == PROFILE_ONE_BYTE then 1 <= e.id <= 14 && 1 <= |e.payload| <= 16
    else 1 <= e.id && |e.payload| <= 255
  }

  predicate WellFormedElements(profile: uint16, es: seq<Extension>) {
    forall i :: 0 <= i < |es| ==> WellFormedElement(profile, es[i])
  }

  predicate WellFormedHeader(h: Header) {
    && h.version < 4 && h.payloadType < 0x80 && |h.csrc| <= 15
    && if !h.extension then h.extensionProfile == 0 && h.extensions == []
       else if WithElements(h.extensionProfile) then
         WellFormedElements(h.extensionProfile, h.extensions)
         && RoundUp(ElementSizes(h.extensionProfile, h.extensions)) / 4 < 0x1_0000
       else
         && |h.extensions| == 1 && h.extensions[0].id == 0
         && |h.extensions[0].payload| % 4 == 0 && |h.extensions[0].payload| / 4 < 0x1_0000
  }

  predicate WellFormedPacket(p: Packet) {
    WellFormedHeader(p.header) && (p.header.padding <==> p.paddingSize > 0)
  }

  // ---------------------------------------------------------------- bytes made of bit fields

  lemma {:induction false} OrAboveBits(a: nat, y: nat, k: nat)
    requires y < Pow2(k)
    ensures Or(Shl(a, k), y) == Shl(a, k) + y
  {
    if k > 0 {
      OrAboveBits(a, y / 2, k - 1);
      OrStep(Shl(a, k), y);
    }
  }

  lemma {:induction false} OrClearBit(x: nat, k: nat)
    requires !Bit(x, k)
    ensures Or(x, Pow2(k)) == x + Pow2(k)
  {
    OrStep(x, Pow2(k));
    if k > 0 { OrClearBit(x / 2, k - 1); }
  }

  lemma ShlSix(v: nat)
    ensures Shl(v, 6) == 0x40 * v
  {
    ShlNibble(v);
    assert Shl(v, 5) == 2 * Shl(v, 4);
  }

  lemma BitFour(x: nat)
    ensures Bit(x, 4) <==> x / 0x10 % 2 == 1
  {
    ShrNibble(x);
    ShrBit(x, 4, 0);
  }

  lemma BitFive(x: nat)
    ensures Bit(x, 5) <==> x / 0x10 / 2 % 2 == 1
  {
    ShrNibble(x);
    ShrBit(x, 4, 1);
    assert Bit(x / 0x10, 1) <==> Bit(x / 0x10 / 2, 0);
  }

  lemma BitSeven(x: nat)
    ensures Bit(x, 7) <==> x / 0x10 / 2 / 2 / 2 % 2 == 1
  {
    ShrNibble(x);
    ShrBit(x, 4, 3);
    var y := x / 0x10;
    assert Bit(y, 3) <==> Bit(y / 2, 2);
    assert Bit(y / 2, 2) <==> Bit(y / 2 / 2, 1);
    assert Bit(y / 2 / 2, 1) <==> Bit(y / 2 / 2 / 2, 0);
  }

  /** Version and source count leave the two flags clear. */
  lemma WithPadding(v: nat, n: nat)
    requires v < 4 && n <= 15
    ensures Or(0x40 * v + n, 0x20) == 0x40 * v + n + 0x20
  {
    var b := 0x40 * v + n;
    BitFive(b);
    assert b / 0x10 == 4 * v;
    OrClearBit(b, 5);
    assert Pow2(5) == 0x20;
  }

  lemma WithExtension(v: nat, n: nat, padding: nat)
    requires v < 4 && n <= 15 && padding <= 1
    ensures Or(0x40 * v + n + 0x20 * padding, 0x10) == 0x40 * v + n + 0x20 * padding + 0x10
  {
    var b := 0x40 * v + n + 0x20 * padding;
    BitFour(b);
    assert b / 0x10 == 4 * v + 2 * padding;
    OrClearBit(b, 4);
    assert Pow2(4) == 0x10;
  }

  lemma VersionAndCount(v: byte, n: nat)
    requires v < 4 && n <= 15
    ensures Or8(Shl(v, 6) % 0x100, n % 0x100) == 0x40 * v as int + n
  {
    ShlSix(v);
    assert Shl(v, 6) % 0x100 == Shl(v, 6) && n % 0x100 == n;
    assert Pow2(6) == 0x40;
    OrAboveBits(v, n, 6);
  }

  lemma PaddingFlag(v: byte, n: nat, padding: bool)
    requires v < 4 && n <= 15
    ensures Or8(0x40 * v as int + n, if padding then 0x20 else 0) == 0x40 * v as int + n + if padding then 0x20 else 0
  {
    WithPadding(v, n);
    OrNone(0x40 * v as int + n);
  }

  lemma ExtensionFlag(v: byte, n: nat, padding: nat, extension: bool)
    requires v < 4 && n <= 15 && padding <= 1
    ensures var b := 0x40 * v as int + n + 0x20 * padding;
            Or8(b, if extension then 0x10 else 0) == b + if extension then 0x10 else 0
  {
    WithExtension(v, n, padding);
    OrNone(0x40 * v as int + n + 0x20 * padding);
  }

  lemma FirstByteSum(h: Header)
    requires h.version < 4 && |h.csrc| <= 15
    ensures FirstByte(h) ==
            0x40 * h.version as int + |h.csrc| + (if h.padding then 0x20 else 0) + (if h.extension then 0x10 else 0)
  {
    OrFour(FirstParts(h));
    VersionAndCount(h.version, |h.csrc|);
    PaddingFlag(h.version, |h.csrc|, h.padding);
    ExtensionFlag(h.version, |h.csrc|, if h.padding then 1 else 0, h.extension);
  }

  lemma SecondByteSum(h: Header)
    requires h.payloadType < 0x80
    ensures SecondByte(h) == h.payloadType + if h.marker then 0x80 else 0
  {
    OrTwo([h.payloadType, if h.marker then 0x80 else 0]);
    OrNone(h.payloadType);
    assert Pow2(7) == 0x80;
    BitSeven(h.payloadType);
    OrClearBit(h.payloadType, 7);
  }

  lemma OneByteHeaderSum(e: Extension)
    requires WellFormedElement(PROFILE_ONE_BYTE, e)
    ensures ElementHeader(PROFILE_ONE_BYTE, e) == [0x10 * e.id as int + |e.payload| - 1]
  {
    OrTwo([Shl(e.id, 4) % 0x100, (|e.payload| - 1) % 0x100]);
    TwoNibbles(e.id, |e.payload| - 1);
  }

  lemma TwoNibbles(id: byte, n: nat)
    requires id <= 14 && n <= 15
    ensures Or8(Shl(id, 4) % 0x100, n % 0x100) == 0x10 * id as int + n
  {
    ShlNibble(id);
    assert Shl(id, 4) % 0x100 == Shl(id, 4) && n % 0x100 == n;
    assert Pow2(4) == 0x10;
    OrAboveBits(id, n, 4);
  }

  // ---------------------------------------------------------------- elements

  function OneElementBytes(profile: uint16, e: Extension): seq<byte> {
    ElementHeader(profile, e) + e.payload
  }

  lemma {:induction false} ElementsFromFront(profile: uint16, es: seq<Extension>)
    requires es != []
    ensures ElementBytes(profile, es) == OneElementBytes(profile, es[0]) + ElementBytes(profile, es[1..])
  {
    var n := |es| - 1;
    if n > 0 {
      ElementsFromFront(profile, es[..n]);
      assert es[..n][1..] == es[1..][..n - 1];
      var a, b, c := OneElementBytes(profile, es[0]), ElementBytes(profile, es[1..n]), OneElementBytes(profile, es[n]);
      assert es[1..n] == es[1..][..n - 1];
      assert a + b + c == a + (b + c);
    } else {
      assert ElementBytes(profile, es[..0]) == [];
      assert ElementBytes(profile, es[1..]) == [];
    }
  }

  lemma {:induction false} SkipZeros(buf: seq<byte>, profile: uint16, n: nat, end: nat)
    requires n <= end <= |buf| && forall i :: n <= i < end ==> buf[i] == 0
    ensures ReadElements(buf, profile, n, end) == Some(Elements([], end))
    decreases end - n
  {
    if n < end { SkipZeros(buf, profile, n + 1, end); }
  }

  lemma OneByteBack(buf: seq<byte>, n: nat, end: nat, e: Extension)
    requires WellFormedElement(PROFILE_ONE_BYTE, e) && n < end <= |buf|
    requires At(buf, n, ElementHeader(PROFILE_ONE_BYTE, e))
    ensures ReadElements(buf, PROFILE_ONE_BYTE, n, end) ==
            ReadElement(buf, PROFILE_ONE_BYTE, n + 1, end, e.id, |e.payload|)
  {
    OneByteHeaderSum(e);
    assert buf[n] == buf[n..n + 1][0];
    assert buf[n] / 0x10 == e.id && buf[n] % 0x10 == |e.payload| - 1;
  }

  lemma TwoByteBack(buf: seq<byte>, n: nat, end: nat, e: Extension)
    requires WellFormedElement(PROFILE_TWO_BYTE, e) && n < end <= |buf|
    requires At(buf, n, ElementHeader(PROFILE_TWO_BYTE, e))
    ensures ReadElements(buf, PROFILE_TWO_BYTE, n, end) ==
            ReadElement(buf, PROFILE_TWO_BYTE, n + 2, end, e.id, |e.payload|)
  {
    assert buf[n] == buf[n..n + 2][0] && buf[n + 1] == buf[n..n + 2][1];
  }

  /** An element that stands at `n` is read as itself. */
  lemma ElementBack(buf: seq<byte>, profile: uint16, n: nat, end: nat, e: Extension)
    requires WithElements(profile) && WellFormedElement(profile, e) && n < end <= |buf|
    requires At(buf, n, OneElementBytes(profile, e))
    ensures var start := n + |ElementHeader(profile, e)|;
            && At(buf, start, e.payload) && |e.payload| < 0x100
            && ReadElements(buf, profile, n, end) == ReadElement(buf, profile, start, end, e.id, |e.payload|)
  {
    AtSplit(buf, n, ElementHeader(profile, e), e.payload);
    if profile == PROFILE_ONE_BYTE { OneByteBack(buf, n, end, e); } else { TwoByteBack(buf, n, end, e); }
  }

  /** What reading well-formed elements gives: a last one with no byte behind it is refused. */
  function ElementsOutcome(es: seq<Extension>, last: nat, end: nat, size: nat): Option<Elements> {
    if es == [] || last < size then Some(Elements(es, end)) else None
  }

  /** Reading gives what it should. */
  predicate ReadsAs(buf: seq<byte>, profile: uint16, n: nat, end: nat, es: seq<Extension>, last: nat)
    requires end <= |buf|
  {
    ReadElements(buf, profile, n, end) == ElementsOutcome(es, last, end, |buf|)
  }

  lemma OneMoreElement(buf: seq<byte>, profile: uint16, start: nat, end: nat, es: seq<Extension>, last: nat)
    requires es != [] && |es[0].payload| < 0x100 && end <= |buf| && start + |es[0].payload| <= last <= |buf|
    requires At(buf, start, es[0].payload)
    requires es[1..] == [] ==> last == start + |es[0].payload|
    requires start + |es[0].payload| < |buf| ==> ReadsAs(buf, profile, start + |es[0].payload|, end, es[1..], last)
    ensures ReadElement(buf, profile, start, end, es[0].id, |es[0].payload|) == ElementsOutcome(es, last, end, |buf|)
  {
    assert [es[0]] + es[1..] == es;
  }

  /** Where the payload of an element starts. */
  function PayloadAt(profile: uint16, n: nat): nat {
    if profile == PROFILE_ONE_BYTE then n + 1 else n + 2
  }

  /** The elements stand from `n` on, up to `last`. */
  predicate ElementsAt(buf: seq<byte>, profile: uint16, n: nat, es: seq<Extension>, last: nat) {
    n + |ElementBytes(profile, es)| == last && At(buf, n, ElementBytes(profile, es))
  }

  /** The first element and those behind it. */
  lemma FirstElement(buf: seq<byte>, profile: uint16, n: nat, end: nat, es: seq<Extension>, last: nat)
    requires WithElements(profile) && es != [] && WellFormedElements(profile, es)
    requires ElementsAt(buf, profile, n, es, last) && last <= end <= |buf|
    ensures var start, length := PayloadAt(profile, n), |es[0].payload|;
            && At(buf, start, es[0].payload) && length < 0x100
            && ReadElements(buf, profile, n, end) == ReadElement(buf, profile, start, end, es[0].id, length)
            && ElementsAt(buf, profile, start + length, es[1..], last)
            && start + length <= last && (es[1..] == [] ==> last == start + length)
  {
    ElementsFromFront(profile, es);
    AtSplit(buf, n, OneElementBytes(profile, es[0]), ElementBytes(profile, es[1..]));
    ElementBack(buf, profile, n, end, es[0]);
  }

  lemma {:induction false} ElementsBack(buf: seq<byte>, profile: uint16, n: nat, end: nat, es: seq<Extension>, last: nat)
    requires WithElements(profile) && WellFormedElements(profile, es)
    requires ElementsAt(buf, profile, n, es, last) && last <= end <= |buf|
    requires forall i :: last <= i < end ==> buf[i] == 0
    ensures ReadsAs(buf, profile, n, end, es, last)
    decreases es
  {
    if es == [] {
      SkipZeros(buf, profile, n, end);
    } else {
      FirstElement(buf, profile, n, end, es, last);
      var start := PayloadAt(profile, n);
      if start + |es[0].payload| < |buf| {
        ElementsBack(buf, profile, start + |es[0].payload|, end, es[1..], last);
      }
      OneMoreElement(buf, profile, start, end, es, last);
    }
  }

  // ---------------------------------------------------------------- headers

  lemma {:induction false} CsrcBack(buf: seq<byte>, csrc: seq<uint32>)
    requires At(buf, CSRC_OFFSET, CsrcBytes(csrc))
    ensures ReadCsrcs(buf, |csrc|) == csrc
  {
    if csrc != [] {
      var n := |csrc| - 1;
      AtSplit(buf, CSRC_OFFSET, CsrcBytes(csrc[..n]), Put32(csrc[n]));
      CsrcBack(buf, csrc[..n]);
      Get32Put32(buf, CSRC_OFFSET + 4 * n, csrc[n]);
      assert csrc[..n] + [csrc[n]] == csrc;
    }
  }

  lemma FixedBack(buf: seq<byte>, h: Header)
    requires At(buf, 0, FixedBytes(h))
    ensures buf[0] == FirstByte(h) && buf[1] == SecondByte(h)
    ensures Get16(buf, 2) == h.sequenceNumber && Get32(buf, 4) == h.timestamp && Get32(buf, 8) == h.ssrc
  {
    var two := [FirstByte(h), SecondByte(h)];
    AtSplit(buf, 0, two + Put16(h.sequenceNumber) + Put32(h.timestamp), Put32(h.ssrc));
    AtSplit(buf, 0, two + Put16(h.sequenceNumber), Put32(h.timestamp));
    AtSplit(buf, 0, two, Put16(h.sequenceNumber));
    assert buf[0] == buf[0..2][0] && buf[1] == buf[0..2][1];
    Get16Put16(buf, 2, h.sequenceNumber);
    Get32Put32(buf, 4, h.timestamp);
    Get32Put32(buf, 8, h.ssrc);
  }

  lemma FirstByteParts(b: nat, v: nat, n: nat, padding: nat, extension: nat)
    requires v < 4 && n <= 15 && padding <= 1 && extension <= 1
    requires b == 0x40 * v + n + 0x20 * padding + 0x10 * extension
    ensures b / 0x40 == v && b / 0x20 % 2 == padding && b / 0x10 % 2 == extension && b % 0x10 == n
  {
    assert b / 0x10 == 4 * v + 2 * padding + extension && b % 0x10 == n;
    assert b / 0x20 == 2 * v + padding;
  }

  /** What the flags and counts are read as. */
  lemma FlagsBack(h: Header)
    requires h.version < 4 && h.payloadType < 0x80 && |h.csrc| <= 15
    ensures var b0, b1 := FirstByte(h), SecondByte(h);
            && b0 / 0x40 == h.version && (b0 / 0x20 % 2 > 0 <==> h.padding) && (b0 / 0x10 % 2 > 0 <==> h.extension)
            && b0 % 0x10 == |h.csrc| && (b1 / 0x80 > 0 <==> h.marker) && b1 % 0x80 == h.payloadType
  {
    FirstByteSum(h);
    SecondByteSum(h);
    var b0: int, b1: int := FirstByte(h), SecondByte(h);
    FirstByteParts(b0, h.version, |h.csrc|, if h.padding then 1 else 0, if h.extension then 1 else 0);
  }

  lemma FrontBack(buf: seq<byte>, h: Header)
    requires h.version < 4 && h.payloadType < 0x80 && |h.csrc| <= 15
    requires At(buf, 0, FixedBytes(h) + CsrcBytes(h.csrc))
    ensures buf[0] % 0x10 == |h.csrc| && CSRC_OFFSET + 4 * |h.csrc| <= |buf|
    ensures FrontRead(buf) == h.(extensionProfile := 0, extensions := [])
  {
    AtSplit(buf, 0, FixedBytes(h), CsrcBytes(h.csrc));
    FixedBack(buf, h);
    FlagsBack(h);
    CsrcBack(buf, h.csrc);
  }

  /** The parts of an extension block. */
  lemma BlockBack(buf: seq<byte>, n: nat, profile: uint16, ext: seq<byte>)
    requires At(buf, n, Block(profile, ext)) && RoundUp(|ext|) / 4 < 0x1_0000
    ensures n + 4 <= |buf| && Get16(buf, n) == profile && 4 * Get16(buf, n + 2) as int == RoundUp(|ext|)
    ensures n + 4 + RoundUp(|ext|) <= |buf| && At(buf, n + 4, ext)
    ensures forall i :: n + 4 + |ext| <= i < n + 4 + RoundUp(|ext|) ==> buf[i] == 0
  {
    var words, zeros := RoundUp(|ext|) / 4, Zeros(RoundUp(|ext|) - |ext|);
    AtSplit(buf, n, Put16(profile) + Put16(words % 0x1_0000), ext + zeros);
    AtSplit(buf, n, Put16(profile), Put16(words % 0x1_0000));
    AtSplit(buf, n + 4, ext, zeros);
    Get16Put16(buf, n, profile);
    Get16Put16(buf, n + 2, words % 0x1_0000);
    AllZeros(|zeros|);
    var from := n + 4 + |ext|;
    forall i | from <= i < from + |zeros| ensures buf[i] == 0 {
      assert buf[i] == buf[from..from + |zeros|][i - from] == zeros[i - from];
    }
  }

  /** A byte follows the last element of the extension, be it filling, payload or padding. */
  predicate ByteFollows(h: Header, size: nat) {
    h.extension && WithElements(h.extensionProfile) && h.extensions != [] ==>
      CSRC_OFFSET + 4 * |h.csrc| + 4 + ElementSizes(h.extensionProfile, h.extensions) < size
  }

  /** What reading a well-formed header gives. */
  function HeaderOutcome(h: Header, size: nat, end: nat): Outcome<HeaderRead> {
    if ByteFollows(h, size) then Ok(HeaderRead(h, end)) else Err(HeaderSizeInsufficientForExtension)
  }

  /** The header up to its sources. */
  function Front(h: Header): Header {
    h.(extensionProfile := 0, extensions := [])
  }

  lemma ElementsBlockRead(buf: seq<byte>, h: Header, n: nat)
    requires WellFormedHeader(h) && h.extension && WithElements(h.extensionProfile)
    requires n == CSRC_OFFSET + 4 * |h.csrc| && At(buf, n, ExtensionBlock(h))
    ensures ReadBlock(buf, n, Front(h)) == HeaderOutcome(h, |buf|, n + |ExtensionBlock(h)|)
  {
    var ext := ExtensionBytes(h);
    ElementBytesSize(h.extensionProfile, h.extensions);
    BlockBack(buf, n, h.extensionProfile, ext);
    ElementsBack(buf, h.extensionProfile, n + 4, n + 4 + RoundUp(|ext|), h.extensions, n + 4 + |ext|);
  }

  lemma RawBlockRead(buf: seq<byte>, h: Header, n: nat)
    requires WellFormedHeader(h) && h.extension && !WithElements(h.extensionProfile)
    requires n == CSRC_OFFSET + 4 * |h.csrc| && At(buf, n, ExtensionBlock(h))
    ensures ReadBlock(buf, n, Front(h)) == HeaderOutcome(h, |buf|, n + |ExtensionBlock(h)|)
  {
    var ext := ExtensionBytes(h);
    assert RoundUp(|ext|) == |ext|;
    BlockBack(buf, n, h.extensionProfile, ext);
    assert [h.extensions[0]] == h.extensions;
  }

  lemma FrontThenBlock(buf: seq<byte>, h: Header, n: nat)
    requires |buf| >= n >= CSRC_OFFSET && n == CSRC_OFFSET + 4 * (buf[0] % 0x10) as int
    requires FrontRead(buf) == h
    ensures ReadHeader(buf) == if h.extension then ReadBlock(buf, n, h) else Ok(HeaderRead(h, n))
  {
  }

  /** The buffer starts with this header, which ends at `end`. */
  predicate HeaderReads(buf: seq<byte>, h: Header, end: nat) {
    ReadHeader(buf) == HeaderOutcome(h, |buf|, end)
  }

  lemma ExtendedHeaderBack(buf: seq<byte>, h: Header, n: nat)
    requires WellFormedHeader(h) && h.extension && n == CSRC_OFFSET + 4 * |h.csrc|
    requires At(buf, 0, FixedBytes(h) + CsrcBytes(h.csrc)) && At(buf, n, ExtensionBlock(h))
    ensures HeaderReads(buf, h, n + |ExtensionBlock(h)|)
  {
    FrontBack(buf, h);
    FrontThenBlock(buf, Front(h), n);
    if WithElements(h.extensionProfile) { ElementsBlockRead(buf, h, n); } else { RawBlockRead(buf, h, n); }
  }

  /** The bytes of a well-formed header. */
  function Whole(h: Header): (b: seq<byte>)
    requires WellFormedHeader(h)
    ensures |b| == CSRC_OFFSET + 4 * |h.csrc| + if h.extension then |ExtensionBlock(h)| else 0
  {
    if h.extension then FixedBytes(h) + CsrcBytes(h.csrc) + ExtensionBlock(h) else FixedBytes(h) + CsrcBytes(h.csrc)
  }

  lemma HeaderBytesWhole(h: Header)
    requires WellFormedHeader(h)
    ensures HeaderBytes(h) == Ok(Whole(h))
  {
  }

  lemma PlainHeaderBack(buf: seq<byte>, h: Header)
    requires WellFormedHeader(h) && !h.extension && At(buf, 0, FixedBytes(h) + CsrcBytes(h.csrc))
    ensures HeaderReads(buf, h, CSRC_OFFSET + 4 * |h.csrc|)
  {
    FrontBack(buf, h);
    FrontThenBlock(buf, h, CSRC_OFFSET + 4 * |h.csrc|);
  }

  lemma ExtendedWholeBack(buf: seq<byte>, h: Header, n: nat, size: nat)
    requires WellFormedHeader(h) && h.extension && At(buf, 0, Whole(h))
    requires n == CSRC_OFFSET + 4 * |h.csrc| && size == n + |ExtensionBlock(h)|
    ensures HeaderReads(buf, h, size)
  {
    WholeSplits(buf, h);
    ExtendedHeaderBack(buf, h, n);
  }

  lemma HeaderBack(buf: seq<byte>, h: Header, b: seq<byte>)
    requires WellFormedHeader(h) && b == Whole(h) && At(buf, 0, b)
    ensures HeaderReads(buf, h, |b|)
  {
    if h.extension {
      ExtendedWholeBack(buf, h, CSRC_OFFSET + 4 * |h.csrc|, |b|);
    } else {
      PlainHeaderBack(buf, h);
    }
  }

  lemma WholeSplits(buf: seq<byte>, h: Header)
    requires WellFormedHeader(h) && h.extension && At(buf, 0, Whole(h))
    ensures At(buf, 0, FixedBytes(h) + CsrcBytes(h.csrc)) && At(buf, CSRC_OFFSET + 4 * |h.csrc|, ExtensionBlock(h))
  {
    AtSplit(buf, 0, FixedBytes(h) + CsrcBytes(h.csrc), ExtensionBlock(h));
  }

  // ---------------------------------------------------------------- packets

  /** Any bytes of the packet's padding, as long as the last says how many they are. */
  predicate PadsAs(pad: seq<byte>, p: Packet) {
    |pad| == p.paddingSize && (p.header.padding ==> p.paddingSize > 0 && pad[|pad| - 1] == p.paddingSize)
  }

  /** Behind the header come the payload and the padding. */
  lemma BodyBack(buf: seq<byte>, b: seq<byte>, pad: seq<byte>, p: Packet)
    requires PadsAs(pad, p) && buf == b + p.payload + pad
    ensures var end := |buf| - p.paddingSize;
            && |b| <= end && buf[|b|..end] == p.payload
            && (p.header.padding ==> |buf| > |b| && buf[|buf| - 1] == p.paddingSize)
  {
    if p.header.padding { assert buf[|buf| - 1] == pad[p.paddingSize - 1]; }
  }

  lemma ReadBack(buf: seq<byte>, b: seq<byte>, pad: seq<byte>, p: Packet)
    requires ReadHeader(buf) == Ok(HeaderRead(p.header, |b|))
    requires p.header.padding <==> p.paddingSize > 0
    requires PadsAs(pad, p) && buf == b + p.payload + pad
    ensures Unmarshaled(buf) == Ok(p)
  {
    BodyBack(buf, b, pad, p);
  }

  /** The bytes of a well-formed packet. */
  lemma PacketWhole(p: Packet)
    requires WellFormedPacket(p)
    ensures PacketBytes(p) == Ok(Whole(p.header) + p.payload + PaddingBytes(p))
    ensures PacketSize(p) == Ok(|Whole(p.header)| + |p.payload| + p.paddingSize)
  {
    HeaderBytesSize(p.header);
    HeaderBytesWhole(p.header);
  }

  lemma WholeBack(buf: seq<byte>, b: seq<byte>, pad: seq<byte>, p: Packet)
    requires WellFormedPacket(p) && b == Whole(p.header) && PadsAs(pad, p) && buf == b + p.payload + pad
    ensures Unmarshaled(buf) ==
            if ByteFollows(p.header, |buf|) then Ok(p) else Err(HeaderSizeInsufficientForExtension)
  {
    assert At(buf, 0, b);
    HeaderBack(buf, p.header, b);
    if ByteFollows(p.header, |buf|) { ReadBack(buf, b, pad, p); }
  }

  /** A well-formed packet is written without error, in as many bytes as its computed size, and reads back as itself
      exactly when a byte follows its last one-byte or two-byte extension; otherwise it is refused. */
  lemma RoundTrip(p: Packet)
    requires WellFormedPacket(p)
    ensures PacketBytes(p).Ok? && PacketSize(p) == Ok(|PacketBytes(p).value|)
    ensures Unmarshaled(PacketBytes(p).value) ==
            if ByteFollows(p.header, PacketSize(p).value) then Ok(p) else Err(HeaderSizeInsufficientForExtension)
  {
    PacketWhole(p);
    WholeBack(PacketBytes(p).value, Whole(p.header), PaddingBytes(p), p);
  }

  /** The same for what is written over any buffer at all, of which the padding keeps all but its last byte. */
  lemma RoundTripOverAnyBuffer(p: Packet, s: seq<byte>, t: seq<byte>)
    requires WellFormedPacket(p) && HeaderBytes(p.header).Ok?
    requires WrotePacket(s, t, HeaderBytes(p.header).value + p.payload, p)
    ensures PacketSize(p).Ok? && PacketSize(p).value <= |t|
    ensures Unmarshaled(t[..PacketSize(p).value]) ==
            if ByteFollows(p.header, PacketSize(p).value) then Ok(p) else Err(HeaderSizeInsufficientForExtension)
  {
    PacketWhole(p);
    HeaderBytesWhole(p.header);
    var b := Whole(p.header);
    var front, n := b + p.payload, PacketSize(p).value;
    var pad := t[|front|..n];
    assert t[..n] == front + pad;
    WholeBack(t[..n], b, pad, p);
  }

  /** Into a packet that was used before it reads back as itself exactly when, besides, it has an extension or the used
      packet's profile is its own. */
  lemma RoundTripInto(before: Packet, p: Packet)
    requires WellFormedPacket(p) && ByteFollows(p.header, PacketSize(p).value)
    ensures PacketBytes(p).Ok? && Unmarshaled(PacketBytes(p).value).Ok?
    ensures var q := Unmarshaled(PacketBytes(p).value).value;
            q.(header := Into(before.header, q.header)) == p <==>
            p.header.extension || before.header.extensionProfile == p.header.extensionProfile
  {
    RoundTrip(p);
  }

  /** A packet of one extension that fills its block, with no payload and no padding: well-formed, and refused. */
  lemma RefusedPacket() returns (p: Packet)
    ensures p.payload == [] && p.paddingSize == 0 && p.header.extensions == [Extension(1, [7, 8, 9])]
    ensures WellFormedPacket(p) && PacketBytes(p).Ok?
    ensures Unmarshaled(PacketBytes(p).value) == Err(HeaderSizeInsufficientForExtension)
  {
    var e := Extension(1, [7, 8, 9]);
    p := Packet(Header(2, false, true, false, 96, 1, 2, 3, [], PROFILE_ONE_BYTE, [e]), [], 0);
    assert [e][..0] == [];
    assert ElementSizes(PROFILE_ONE_BYTE, [e]) == 4;
    RoundTrip(p);
  }

  lemma OrFull(x: byte)
    ensures Or8(x, 0xff) == 0xff
  {
    assert Pow2(8) == 0x100;
    BitLimit(x, 8);
    forall i: nat ensures Bit(Or(x, 0xff), i) <==> Bit(0xff, i) {
      OrBit(x, 0xff, i);
      ByteMaskBit(i);
    }
    SameBits(Or(x, 0xff), 0xff);
  }

  /** Why a one-byte extension needs a byte of payload: an empty one is written with the reserved id, whatever its own,
      and reading stops there. */
  lemma EmptyOneByteElementIsLost(id: byte, buf: seq<byte>, n: nat, end: nat)
    requires n < end <= |buf| && At(buf, n, ElementHeader(PROFILE_ONE_BYTE, Extension(id, [])))
    ensures ReadElements(buf, PROFILE_ONE_BYTE, n, end) == Some(Elements([], n + 1))
  {
    var x: byte := Shl(id, 4) % 0x100;
    assert (0 - 1) % 0x100 == 0xff;
    OrTwo([x, 0xff]);
    OrFull(x);
    assert buf[n] == buf[n..n + 1][0] == 0xff;
  }
}
