/** RTP packets with header extensions (section 5.1 of RFC 3550, sections 4.2 and 4.3 of RFC 8285). */
module Rtp {
  import opened Bits
  import opened BitLemmas
  import opened BitFields
  import opened Buffers

  const PROFILE_ONE_BYTE: uint16 := 0xBEDE
  const PROFILE_TWO_BYTE: uint16 := 0x1000
  const EXTENSION_ID_RESERVED: byte := 15
  const CSRC_OFFSET := 12

  datatype Extension = Extension(id: byte, payload: seq<byte>)

  datatype Header = Header(version: byte, padding: bool, extension: bool, marker: bool, payloadType: byte,
                           sequenceNumber: uint16, timestamp: uint32, ssrc: uint32, csrc: seq<uint32>,
                           extensionProfile: uint16, extensions: seq<Extension>)

  datatype Packet = Packet(header: Header, payload: seq<byte>, paddingSize: byte)

  datatype Error = ShortBuffer | InvalidPadding | HeaderSizeInsufficient | HeaderSizeInsufficientForExtension | TooSmall

  /** `Panic` is an index out of range at run time. */
  datatype Outcome<+T> = Ok(value: T) | Err(error: Error) | Panic

  // ---------------------------------------------------------------- the bytes of a header

  function Or8(x: byte, y: byte): byte {
    assert Pow2(8) == 0x100;
    OrBound(x, y, 8);
    Or(x, y)
  }

  /** The first `n` of these, one after the other. */
  function OrAll(xs: seq<byte>, n: nat): byte
    requires n <= |xs|
  {
    if n == 0 then 0 else Or8(OrAll(xs, n - 1), xs[n - 1])
  }

  function FirstParts(h: Header): seq<byte> {
    [Shl(h.version, 6) % 0x100, |h.csrc| % 0x100, if h.padding then 0x20 else 0, if h.extension then 0x10 else 0]
  }

  function FirstByte(h: Header): byte {
    OrAll(FirstParts(h), 4)
  }

  function SecondByte(h: Header): byte {
    OrAll([h.payloadType, if h.marker then 0x80 else 0], 2)
  }

  lemma OrNone(x: byte)
    ensures Or8(x, 0) == x && Or8(0, x) == x
  {
  }

  /** Four parts, and two. */
  lemma OrFour(xs: seq<byte>)
    requires |xs| == 4
    ensures OrAll(xs, 4) == Or8(Or8(Or8(xs[0], xs[1]), xs[2]), xs[3])
  {
    assert OrAll(xs, 1) == Or8(OrAll(xs, 0), xs[0]) == xs[0];
    assert OrAll(xs, 2) == Or8(OrAll(xs, 1), xs[1]);
    assert OrAll(xs, 3) == Or8(OrAll(xs, 2), xs[2]);
  }

  lemma OrTwo(xs: seq<byte>)
    requires |xs| == 2
    ensures OrAll(xs, 2) == Or8(xs[0], xs[1])
  {
    assert OrAll(xs, 1) == Or8(OrAll(xs, 0), xs[0]) == xs[0];
  }

  function CsrcBytes(csrc: seq<uint32>): (b: seq<byte>)
    ensures |b| == 4 * |csrc|
  {
    if csrc == [] then [] else CsrcBytes(csrc[..|csrc| - 1]) + Put32(csrc[|csrc| - 1])
  }

  /** The element header in front of an extension's payload. */
  function ElementHeader(profile: uint16, e: Extension): seq<byte> {
    if profile == PROFILE_ONE_BYTE then [OrAll([Shl(e.id, 4) % 0x100, (|e.payload| - 1) % 0x100], 2)]
    else [e.id, |e.payload| % 0x100]
  }

  function ElementBytes(profile: uint16, es: seq<Extension>): seq<byte> {
    if es == [] then []
    else
      ElementBytes(profile, es[..|es| - 1]) + (ElementHeader(profile, es[|es| - 1]) + es[|es| - 1].payload)
  }

  predicate WithElements(profile: uint16) {
    profile == PROFILE_ONE_BYTE || profile == PROFILE_TWO_BYTE
  }

  /** An extension of another profile is one payload, as it stands. */
  function ExtensionBytes(h: Header): seq<byte>
    requires !WithElements(h.extensionProfile) ==> h.extensions != []
  {
    if WithElements(h.extensionProfile) then ElementBytes(h.extensionProfile, h.extensions) else h.extensions[0].payload
  }

  function RoundUp(n: nat): (r: nat)
    ensures n <= r < n + 4 && r % 4 == 0
  {
    (n + 3) / 4 * 4
  }

  /** A profile, the length in words and the payloads, filled up to whole words. */
  function Block(profile: uint16, ext: seq<byte>): (b: seq<byte>)
    ensures |b| == 4 + RoundUp(|ext|)
  {
    Put16(profile) + Put16(RoundUp(|ext|) / 4 % 0x1_0000) + (ext + Zeros(RoundUp(|ext|) - |ext|))
  }

  function ExtensionBlock(h: Header): seq<byte>
    requires !WithElements(h.extensionProfile) ==> h.extensions != []
  {
    Block(h.extensionProfile, ExtensionBytes(h))
  }

  function FixedBytes(h: Header): (b: seq<byte>)
    ensures |b| == CSRC_OFFSET
  {
    [FirstByte(h), SecondByte(h)] + Put16(h.sequenceNumber) + Put32(h.timestamp) + Put32(h.ssrc)
  }

  /** What `Marshal` of the header gives. */
  function HeaderBytes(h: Header): Outcome<seq<byte>> {
    if !h.extension then Ok(FixedBytes(h) + CsrcBytes(h.csrc))
    else if !WithElements(h.extensionProfile) && h.extensions == [] then Panic
    else if !WithElements(h.extensionProfile) && |h.extensions[0].payload| % 4 != 0 then Err(ShortBuffer)
    else Ok(FixedBytes(h) + CsrcBytes(h.csrc) + ExtensionBlock(h))
  }

  // ---------------------------------------------------------------- sizes

  function ElementSizes(profile: uint16, es: seq<Extension>): nat {
    if es == [] then 0
    else
      ElementSizes(profile, es[..|es| - 1]) + (if profile == PROFILE_ONE_BYTE then 1 else 2) + |es[|es| - 1].payload|
  }

  function HeaderSize(h: Header): Outcome<nat> {
    var size := CSRC_OFFSET + 4 * |h.csrc|;
    if !h.extension then Ok(size)
    else if WithElements(h.extensionProfile) then Ok(size + RoundUp(4 + ElementSizes(h.extensionProfile, h.extensions)))
    else if h.extensions == [] then Panic
    else Ok(size + RoundUp(4 + |h.extensions[0].payload|))
  }

  method MarshalSize(h: Header) returns (r: Outcome<nat>)
    ensures r == HeaderSize(h)
  {
    var size := 12 + |h.csrc| * 4;
    if h.extension {
      var extSize := 4;
      if h.extensionProfile == PROFILE_ONE_BYTE || h.extensionProfile == PROFILE_TWO_BYTE {
        var each := if h.extensionProfile == PROFILE_ONE_BYTE then 1 else 2;
        assert h.extensions[..|h.extensions|] == h.extensions;
        for i := 0 to |h.extensions|
          invariant extSize == 4 + ElementSizes(h.extensionProfile, h.extensions[..i])
        {
          assert h.extensions[..i + 1][..i] == h.extensions[..i];
          extSize := extSize + each + |h.extensions[i].payload|;
        }
      } else {
        if |h.extensions| == 0 {
          return Panic;
        }
        extSize := extSize + |h.extensions[0].payload|;
      }
      size := size + (extSize + 3) / 4 * 4;
    }
    return Ok(size);
  }

  lemma {:induction false} ElementBytesSize(profile: uint16, es: seq<Extension>)
    requires WithElements(profile)
    ensures |ElementBytes(profile, es)| == ElementSizes(profile, es)
  {
    if es != [] { ElementBytesSize(profile, es[..|es| - 1]); }
  }

  /** The header takes exactly the size that is computed for it. */
  lemma HeaderBytesSize(h: Header)
    ensures HeaderSize(h).Panic? <==> HeaderBytes(h).Panic?
    ensures HeaderBytes(h).Ok? ==> HeaderSize(h) == Ok(|HeaderBytes(h).value|)
  {
    if h.extension && WithElements(h.extensionProfile) { ElementBytesSize(h.extensionProfile, h.extensions); }
  }

  // ---------------------------------------------------------------- the bytes of a packet

  /** What `Marshal` of the packet gives, into a buffer of zeros. */
  function PacketBytes(p: Packet): Outcome<seq<byte>> {
    if p.header.padding && p.paddingSize == 0 then Err(InvalidPadding)
    else match HeaderBytes(p.header)
      case Ok(b) => Ok(b + p.payload + PaddingBytes(p))
      case failed => failed
  }

  function PaddingBytes(p: Packet): (b: seq<byte>)
    requires p.header.padding ==> p.paddingSize > 0
    ensures |b| == p.paddingSize
  {
    if p.header.padding then Zeros(p.paddingSize - 1) + [p.paddingSize] else Zeros(p.paddingSize)
  }

  // ---------------------------------------------------------------- writing into a buffer

  method PutFlags(buf: array<byte>, h: Header)
    requires buf.Length >= CSRC_OFFSET
    modifies buf
    ensures Wrote(old(buf[..]), buf[..], 0, [FirstByte(h), SecondByte(h)])
  {
    OrFour(FirstParts(h));
    var b0 := Or8(Shl(h.version, 6) % 0x100, |h.csrc| % 0x100);
    OrNone(b0);
    if h.padding {
      b0 := Or8(b0, 0x20);
    }
    OrNone(b0);
    if h.extension {
      b0 := Or8(b0, 0x10);
    }
    OrTwo([h.payloadType, if h.marker then 0x80 else 0]);
    OrNone(h.payloadType);
    var b1 := h.payloadType;
    if h.marker {
      b1 := Or8(b1, 0x80);
    }
    assert b0 == FirstByte(h) && b1 == SecondByte(h);
    buf[0] := b0;
    buf[1] := b1;
  }

  method PutFixed(buf: array<byte>, h: Header)
    requires buf.Length >= CSRC_OFFSET
    modifies buf
    ensures Wrote(old(buf[..]), buf[..], 0, FixedBytes(h))
  {
    ghost var s0 := buf[..];
    PutFlags(buf, h);
    ghost var s1 := buf[..];
    Put(buf, 2, Put16(h.sequenceNumber));
    ghost var s2 := buf[..];
    WroteBoth(s0, s1, s2, 0, [FirstByte(h), SecondByte(h)], Put16(h.sequenceNumber));
    Put(buf, 4, Put32(h.timestamp));
    ghost var s3 := buf[..];
    WroteBoth(s0, s2, s3, 0, [FirstByte(h), SecondByte(h)] + Put16(h.sequenceNumber), Put32(h.timestamp));
    Put(buf, 8, Put32(h.ssrc));
    WroteBoth(s0, s3, buf[..], 0, [FirstByte(h), SecondByte(h)] + Put16(h.sequenceNumber) + Put32(h.timestamp),
              Put32(h.ssrc));
  }

  method PutCsrcs(buf: array<byte>, csrc: seq<uint32>) returns (n: nat)
    requires buf.Length >= CSRC_OFFSET + 4 * |csrc|
    modifies buf
    ensures n == CSRC_OFFSET + 4 * |csrc| && Wrote(old(buf[..]), buf[..], CSRC_OFFSET, CsrcBytes(csrc))
  {
    n := CSRC_OFFSET;
    ghost var start := buf[..];
    WroteNothing(start, n);
    assert csrc[..|csrc|] == csrc;
    for i := 0 to |csrc|
      invariant n == CSRC_OFFSET + 4 * i && Wrote(start, buf[..], CSRC_OFFSET, CsrcBytes(csrc[..i]))
    {
      assert csrc[..i + 1][..i] == csrc[..i];
      ghost var before := buf[..];
      Put(buf, n, Put32(csrc[i]));
      WroteBoth(start, before, buf[..], CSRC_OFFSET, CsrcBytes(csrc[..i]), Put32(csrc[i]));
      n := n + 4;
    }
  }

  /** One element: its header and its payload. */
  method PutElement(buf: array<byte>, start: nat, profile: uint16, e: Extension) returns (n: nat)
    requires WithElements(profile) && start + |ElementHeader(profile, e)| + |e.payload| <= buf.Length
    modifies buf
    ensures n == start + |ElementHeader(profile, e)| + |e.payload|
    ensures Wrote(old(buf[..]), buf[..], start, ElementHeader(profile, e) + e.payload)
  {
    n := start;
    ghost var s0 := buf[..];
    if profile == PROFILE_ONE_BYTE {
      OrTwo([Shl(e.id, 4) % 0x100, (|e.payload| - 1) % 0x100]);
      buf[n] := Or8(Shl(e.id, 4) % 0x100, (|e.payload| - 1) % 0x100);
      n := n + 1;
    } else {
      buf[n] := e.id;
      n := n + 1;
      buf[n] := |e.payload| % 0x100;
      n := n + 1;
    }
    ghost var s1 := buf[..];
    assert Wrote(s0, s1, start, ElementHeader(profile, e));
    Put(buf, n, e.payload);
    WroteBoth(s0, s1, buf[..], start, ElementHeader(profile, e), e.payload);
    n := n + |e.payload|;
  }

  method PutElements(buf: array<byte>, start: nat, profile: uint16, es: seq<Extension>) returns (n: nat)
    requires WithElements(profile) && start + ElementSizes(profile, es) <= buf.Length
    modifies buf
    ensures n == start + |ElementBytes(profile, es)| && Wrote(old(buf[..]), buf[..], start, ElementBytes(profile, es))
  {
    n := start;
    ghost var s0 := buf[..];
    WroteNothing(s0, n);
    assert es[..|es|] == es;
    for i := 0 to |es|
      invariant n == start + |ElementBytes(profile, es[..i])|
      invariant Wrote(s0, buf[..], start, ElementBytes(profile, es[..i]))
    {
      assert es[..i + 1][..i] == es[..i];
      ElementsFit(profile, es, i);
      ghost var before := buf[..];
      n := PutElement(buf, n, profile, es[i]);
      WroteBoth(s0, before, buf[..], start, ElementBytes(profile, es[..i]),
                ElementHeader(profile, es[i]) + es[i].payload);
    }
  }

  lemma {:induction false} SizesGrow(profile: uint16, es: seq<Extension>, i: nat)
    requires i <= |es|
    ensures ElementSizes(profile, es[..i]) <= ElementSizes(profile, es)
    decreases |es| - i
  {
    if i < |es| {
      assert es[..i + 1][..i] == es[..i];
      SizesGrow(profile, es, i + 1);
    } else {
      assert es[..i] == es;
    }
  }

  lemma ElementsFit(profile: uint16, es: seq<Extension>, i: nat)
    requires i < |es| && WithElements(profile)
    ensures |ElementBytes(profile, es[..i])| + |ElementHeader(profile, es[i])| + |es[i].payload| <= ElementSizes(profile, es)
  {
    ElementBytesSize(profile, es[..i]);
    assert es[..i + 1][..i] == es[..i];
    SizesGrow(profile, es, i + 1);
  }

  /** The extension payloads, or an error for a raw one that is not in whole words. */
  method PutExtensions(buf: array<byte>, start: nat, h: Header) returns (n: Outcome<nat>)
    requires !WithElements(h.extensionProfile) ==> h.extensions != []
    requires start + |ExtensionBytes(h)| <= buf.Length
    modifies buf
    ensures n == if WithElements(h.extensionProfile) || |h.extensions[0].payload| % 4 == 0
                 then Ok(start + |ExtensionBytes(h)|) else Err(ShortBuffer)
    ensures n.Ok? ==> Wrote(old(buf[..]), buf[..], start, ExtensionBytes(h))
  {
    if h.extensionProfile == PROFILE_ONE_BYTE || h.extensionProfile == PROFILE_TWO_BYTE {
      ElementBytesSize(h.extensionProfile, h.extensions);
      var m := PutElements(buf, start, h.extensionProfile, h.extensions);
      return Ok(m);
    }
    if |h.extensions[0].payload| % 4 != 0 {
      return Err(ShortBuffer);
    }
    Put(buf, start, h.extensions[0].payload);
    return Ok(start + |h.extensions[0].payload|);
  }

  /** The loop that fills an extension up to whole words. */
  method PutZeros(buf: array<byte>, start: nat, k: nat) returns (n: nat)
    requires start + k <= buf.Length
    modifies buf
    ensures n == start + k && Wrote(old(buf[..]), buf[..], start, Zeros(k))
  {
    n := start;
    ghost var s0 := buf[..];
    for i := 0 to k
      invariant n == start + i && Wrote(s0, buf[..], start, Zeros(i))
    {
      buf[n] := 0;
      n := n + 1;
    }
  }

  /** Fills in the length of an extension that has been written, and the zeros behind it. */
  method FinishBlock(buf: array<byte>, start: nat, extSize: nat, ghost s0: seq<byte>, ghost s1: seq<byte>,
                     ghost profile: uint16, ghost ext: seq<byte>)
    returns (n: nat)
    requires extSize == |ext| && start + 4 + RoundUp(extSize) <= buf.Length
    requires Wrote(s0, s1, start, Put16(profile)) && Wrote(s1, buf[..], start + 4, ext)
    modifies buf
    ensures n == start + 4 + RoundUp(extSize) && Wrote(s0, buf[..], start, Block(profile, ext))
  {
    var roundedExtSize := (extSize + 3) / 4 * 4;
    ghost var s2 := buf[..];
    var word := Put16(roundedExtSize / 4 % 0x1_0000);
    Put(buf, start + 2, word);
    ghost var s3 := buf[..];
    n := PutZeros(buf, start + 4 + extSize, roundedExtSize - extSize);
    Interleaved(s0, s1, s2, s3, buf[..], start, Put16(profile), word, ext, Zeros(roundedExtSize - extSize));
  }

  method PutBlock(buf: array<byte>, start: nat, h: Header) returns (n: Outcome<nat>)
    requires !WithElements(h.extensionProfile) ==> h.extensions != []
    requires start + |ExtensionBlock(h)| <= buf.Length
    modifies buf
    ensures n == if WithElements(h.extensionProfile) || |h.extensions[0].payload| % 4 == 0
                 then Ok(start + |ExtensionBlock(h)|) else Err(ShortBuffer)
    ensures n.Ok? ==> Wrote(old(buf[..]), buf[..], start, ExtensionBlock(h))
  {
    ghost var s0 := buf[..];
    Put(buf, start, Put16(h.extensionProfile));
    ghost var s1 := buf[..];
    n := PutExtensions(buf, start + 4, h);
    if n.Ok? {
      var m := FinishBlock(buf, start, n.value - (start + 4), s0, s1, h.extensionProfile, ExtensionBytes(h));
      n := Ok(m);
    }
  }

  /** The profile, the payloads, the length in between and the zeros, written in that order, make up the block. */
  lemma Interleaved(s0: seq<byte>, s1: seq<byte>, s2: seq<byte>, s3: seq<byte>, s4: seq<byte>, start: nat,
                    profile: seq<byte>, word: seq<byte>, ext: seq<byte>, zeros: seq<byte>)
    requires |profile| == |word| == 2
    requires Wrote(s0, s1, start, profile) && Wrote(s1, s2, start + 4, ext) && Wrote(s2, s3, start + 2, word)
    requires Wrote(s3, s4, start + 4 + |ext|, zeros)
    ensures Wrote(s0, s4, start, profile + word + (ext + zeros))
  {
    var end, stop := start + 4 + |ext|, start + 4 + |ext| + |zeros|;
    assert s2[..start + 2] == s2[..end][..start + 2] == s1[..start + 2];
    assert s3[start + 4..end] == s2[start + 4..end] by { assert s3[start + 4..end] == s3[start + 4..][..|ext|]; }
    assert s2[start + 4..end] == s2[..end][start + 4..] == ext;
    assert s3[..end] == s3[..start + 4] + s3[start + 4..end];
    assert s4[stop..] == s3[start + 4..][stop - start - 4..];
    assert s2[stop..] == s2[end..][stop - end..];
    assert s1[stop..] == s1[start + 2..][stop - start - 2..];
  }

  method PutFront(buf: array<byte>, h: Header) returns (n: nat)
    requires buf.Length >= CSRC_OFFSET + 4 * |h.csrc|
    modifies buf
    ensures n == CSRC_OFFSET + 4 * |h.csrc| && Wrote(old(buf[..]), buf[..], 0, FixedBytes(h) + CsrcBytes(h.csrc))
  {
    ghost var s0 := buf[..];
    PutFixed(buf, h);
    ghost var s1 := buf[..];
    n := PutCsrcs(buf, h.csrc);
    WroteBoth(s0, s1, buf[..], 0, FixedBytes(h), CsrcBytes(h.csrc));
  }

  /** Writes exactly the header's bytes, as many as the computed size, and nothing behind them. */
  method HeaderMarshalTo(h: Header, buf: array<byte>) returns (n: Outcome<nat>)
    modifies buf
    ensures HeaderBytes(h).Panic? ==> n == Panic
    ensures !HeaderBytes(h).Panic? ==>
              n == if HeaderSize(h).value > buf.Length then Err(ShortBuffer)
                   else if HeaderBytes(h).Err? then Err(HeaderBytes(h).error) else HeaderSize(h)
    ensures n.Ok? ==> HeaderBytes(h).Ok? && Wrote(old(buf[..]), buf[..], 0, HeaderBytes(h).value)
  {
    HeaderBytesSize(h);
    var size := MarshalSize(h);
    if size.Panic? {
      return Panic;
    }
    if size.value > buf.Length {
      return Err(ShortBuffer);
    }
    ghost var s0 := buf[..];
    var m := PutFront(buf, h);
    ghost var s2 := buf[..];
    if !h.extension {
      return Ok(m);
    }
    if h.extensionProfile == PROFILE_ONE_BYTE || h.extensionProfile == PROFILE_TWO_BYTE {
      ElementBytesSize(h.extensionProfile, h.extensions);
    }
    n := PutBlock(buf, m, h);
    if n.Ok? {
      WroteBoth(s0, s2, buf[..], 0, FixedBytes(h) + CsrcBytes(h.csrc), ExtensionBlock(h));
    }
  }

  // ---------------------------------------------------------------- packets

  /** The size of the packet, its padding included. */
  function PacketSize(p: Packet): Outcome<nat> {
    match HeaderSize(p.header)
    case Ok(n) => Ok(n + |p.payload| + p.paddingSize)
    case failed => failed
  }

  /** `t` is `s` with this front written over it, and with the last byte of the padding behind it. */
  predicate WrotePacket(s: seq<byte>, t: seq<byte>, front: seq<byte>, p: Packet) {
    && |front| + p.paddingSize <= |s| && (p.header.padding ==> p.paddingSize > 0)
    && t == if p.header.padding then (front + s[|front|..])[|front| + p.paddingSize - 1 := p.paddingSize]
            else front + s[|front|..]
  }

  /** The payload and the last byte of the padding, behind the header. */
  method PutBody(p: Packet, buf: array<byte>, start: nat, ghost s0: seq<byte>, ghost header: seq<byte>)
    requires start == |header| && start + |p.payload| + p.paddingSize <= buf.Length
    requires p.header.padding ==> p.paddingSize > 0
    requires Wrote(s0, buf[..], 0, header)
    modifies buf
    ensures WrotePacket(s0, buf[..], header + p.payload, p)
  {
    ghost var s1 := buf[..];
    Put(buf, start, p.payload);
    ghost var s2 := buf[..];
    WroteBoth(s0, s1, s2, 0, header, p.payload);
    if p.header.padding {
      buf[start + |p.payload| + p.paddingSize - 1] := p.paddingSize;
    }
    WroteInFront(s0, s2, header + p.payload);
  }

  lemma WroteInFront(s: seq<byte>, t: seq<byte>, front: seq<byte>)
    requires Wrote(s, t, 0, front)
    ensures t == front + s[|front|..]
  {
    assert t == t[..|front|] + t[|front|..];
  }

  /** Into a buffer that is large enough, whatever it holds: as many bytes as the computed size, of which all but the
      padding are written, and the last of the padding. */
  method MarshalTo(p: Packet, buf: array<byte>) returns (n: Outcome<nat>)
    modifies buf
    ensures PacketBytes(p).Panic? ==> n == Panic
    ensures PacketBytes(p).Err? ==> n == Err(PacketBytes(p).error)
    ensures PacketBytes(p).Ok? ==> n == if PacketSize(p).value > buf.Length then Err(ShortBuffer) else PacketSize(p)
    ensures n.Ok? ==> WrotePacket(old(buf[..]), buf[..], HeaderBytes(p.header).value + p.payload, p)
  {
    if p.header.padding && p.paddingSize == 0 {
      return Err(InvalidPadding);
    }
    HeaderBytesSize(p.header);
    ghost var s0 := buf[..];
    n := HeaderMarshalTo(p.header, buf);
    if !n.Ok? {
      return;
    }
    if n.value + |p.payload| + p.paddingSize > buf.Length {
      return Err(ShortBuffer);
    }
    PutBody(p, buf, n.value, s0, HeaderBytes(p.header).value);
    n := Ok(n.value + |p.payload| + p.paddingSize);
  }

  lemma PaddingWritten(s0: seq<byte>, s3: seq<byte>, front: seq<byte>, p: Packet)
    requires s0 == Zeros(|s0|) && WrotePacket(s0, s3, front, p)
    ensures Wrote(s0, s3, 0, front + PaddingBytes(p))
  {
    var s2 := front + s0[|front|..];
    AllZeros(|s0|);
    AllZeros(p.paddingSize);
    if p.header.padding { AllZeros(p.paddingSize - 1); }
    var end := |front| + p.paddingSize;
    forall i | 0 <= i < |s0| ensures s3[i] == if i < end then (front + PaddingBytes(p))[i] else 0 {
      if i >= |front| { assert s2[i] == s2[|front|..][i - |front|] == s0[i] == 0; }
      if i < |front| { assert s2[i] == s2[..|front|][i]; }
    }
    assert s3[..end] == s0[..0] + (front + PaddingBytes(p));
  }

  method Marshal(p: Packet) returns (r: Outcome<seq<byte>>)
    ensures r == if HeaderSize(p.header).Panic? then Panic else PacketBytes(p)
  {
    HeaderBytesSize(p.header);
    var size := MarshalSize(p.header);
    if size.Panic? {
      return Panic;
    }
    var buf := new byte[size.value + |p.payload| + p.paddingSize](i => 0);
    assert buf[..] == Zeros(buf.Length) by { AllZeros(buf.Length); }
    ghost var s0 := buf[..];
    var n := MarshalTo(p, buf);
    if !n.Ok? {
      return if n.Err? then Err(n.error) else Panic;
    }
    PaddingWritten(s0, buf[..], HeaderBytes(p.header).value + p.payload, p);
    ghost var b := PacketBytes(p).value;
    assert n.value == |b| && buf[..|b|] == b;
    return Ok(buf[..n.value]);
  }

  // ---------------------------------------------------------------- decoding

  /** The extensions read, and the place after them. */
  datatype Elements = Elements(es: seq<Extension>, end: nat)

  /** The elements between `n` and `end`. One that reaches the end of the buffer is an error, even if it just fits. */
  function ReadElements(buf: seq<byte>, profile: uint16, n: nat, end: nat): Option<Elements>
    requires end <= |buf|
    decreases |buf| - n, 0
  {
    if n >= end then Some(Elements([], n))
    else if buf[n] == 0 then ReadElements(buf, profile, n + 1, end)
    else if profile == PROFILE_ONE_BYTE then
      if buf[n] / 0x10 == EXTENSION_ID_RESERVED then Some(Elements([], n + 1))
      else ReadElement(buf, profile, n + 1, end, buf[n] / 0x10, buf[n] % 0x10 + 1)
    else if |buf| <= n + 1 then None
    else ReadElement(buf, profile, n + 2, end, buf[n], buf[n + 1])
  }

  function ReadElement(buf: seq<byte>, profile: uint16, n: nat, end: nat, id: byte, length: byte): Option<Elements>
    requires end <= |buf|
    decreases |buf| - n, 1
  {
    if |buf| <= n + length then None
    else match ReadElements(buf, profile, n + length, end)
      case None => None
      case Some(rest) => Some(Elements([Extension(id, buf[n..n + length])] + rest.es, rest.end))
  }

  function Behind(es: seq<Extension>, r: Option<Elements>): Option<Elements> {
    match r
    case None => None
    case Some(rest) => Some(Elements(es + rest.es, rest.end))
  }

  method UnmarshalElements(buf: seq<byte>, profile: uint16, start: nat, end: nat) returns (r: Option<Elements>)
    requires WithElements(profile) && start <= end <= |buf|
    ensures r == ReadElements(buf, profile, start, end)
  {
    var n := start;
    var es: seq<Extension> := [];
    BehindNothing(ReadElements(buf, profile, start, end));
    while n < end
      invariant ReadElements(buf, profile, start, end) == Behind(es, ReadElements(buf, profile, n, end))
      decreases |buf| - n
    {
      if buf[n] == 0 {
        n := n + 1;
        continue;
      }
      var id: byte, length: byte;
      if profile == PROFILE_ONE_BYTE {
        id := buf[n] / 0x10;
        length := buf[n] % 0x10 + 1;
        n := n + 1;
        if id == EXTENSION_ID_RESERVED {
          break;
        }
      } else {
        id := buf[n];
        n := n + 1;
        if |buf| <= n {
          return None;
        }
        length := buf[n];
        n := n + 1;
      }
      if |buf| <= n + length {
        return None;
      }
      OneElement(buf, profile, n, end, id, length, es);
      es := es + [Extension(id, buf[n..n + length])];
      n := n + length;
    }
    assert es + [] == es;
    return Some(Elements(es, n));
  }

  lemma BehindNothing(r: Option<Elements>)
    ensures Behind([], r) == r
  {
    if r.Some? { assert [] + r.value.es == r.value.es; }
  }

  lemma OneElement(buf: seq<byte>, profile: uint16, n: nat, end: nat, id: byte, length: byte, es: seq<Extension>)
    requires end <= |buf| && n + length < |buf|
    ensures Behind(es, ReadElement(buf, profile, n, end, id, length)) ==
            Behind(es + [Extension(id, buf[n..n + length])], ReadElements(buf, profile, n + length, end))
  {
    var e, rest := Extension(id, buf[n..n + length]), ReadElements(buf, profile, n + length, end);
    if rest.Some? { assert es + ([e] + rest.value.es) == es + [e] + rest.value.es; }
  }

  /** The first `k` contributing sources. */
  function ReadCsrcs(buf: seq<byte>, k: nat): (csrc: seq<uint32>)
    requires CSRC_OFFSET + 4 * k <= |buf|
    ensures |csrc| == k
  {
    if k == 0 then [] else ReadCsrcs(buf, k - 1) + [Get32(buf, CSRC_OFFSET + 4 * (k - 1))]
  }

  datatype HeaderRead = HeaderRead(h: Header, end: nat)

  /** The header up to its contributing sources. */
  function FrontRead(buf: seq<byte>): Header
    requires |buf| > 0 && CSRC_OFFSET + 4 * (buf[0] % 0x10) as int <= |buf|
  {
    Header(buf[0] / 0x40, buf[0] / 0x20 % 2 > 0, buf[0] / 0x10 % 2 > 0, buf[1] / 0x80 > 0, buf[1] % 0x80,
           Get16(buf, 2), Get32(buf, 4), Get32(buf, 8), ReadCsrcs(buf, buf[0] % 0x10), 0, [])
  }

  function ReadHeader(buf: seq<byte>): Outcome<HeaderRead> {
    if |buf| < 4 then Err(HeaderSizeInsufficient)
    else
      var n := CSRC_OFFSET + 4 * (buf[0] % 0x10) as int;
      if |buf| < n then Err(HeaderSizeInsufficient)
      else if !FrontRead(buf).extension then Ok(HeaderRead(FrontRead(buf), n))
      else ReadBlock(buf, n, FrontRead(buf))
  }

  function ReadBlock(buf: seq<byte>, n: nat, front: Header): Outcome<HeaderRead>
    requires n <= |buf|
  {
    if |buf| < n + 4 then Err(HeaderSizeInsufficientForExtension)
    else
      var profile, start := Get16(buf, n), n + 4;
      var end := start + 4 * Get16(buf, n + 2) as int;
      if |buf| < end then Err(HeaderSizeInsufficientForExtension)
      else if WithElements(profile) then
        match ReadElements(buf, profile, start, end)
        case None => Err(HeaderSizeInsufficientForExtension)
        case Some(r) => Ok(HeaderRead(front.(extensionProfile := profile, extensions := r.es), r.end))
      else Ok(HeaderRead(front.(extensionProfile := profile, extensions := [Extension(0, buf[start..end])]), end))
  }

  function Unmarshaled(buf: seq<byte>): Outcome<Packet> {
    match ReadHeader(buf)
    case Err(e) => Err(e)
    case Panic => Panic
    case Ok(r) =>
      if r.h.padding && |buf| <= r.end then Err(TooSmall)
      else
        var padding: byte := if r.h.padding then buf[|buf| - 1] else 0;
        if |buf| - padding < r.end then Err(TooSmall)
        else Ok(Packet(r.h, buf[r.end..|buf| - padding], padding))
  }

  /** A header that was used before keeps its extension profile if the new one has no extension; all else is new. */
  function Into(before: Header, h: Header): Header {
    if h.extension then h else h.(extensionProfile := before.extensionProfile)
  }

  method UnmarshalHeader(before: Header, buf: seq<byte>) returns (r: Outcome<HeaderRead>)
    ensures r == match ReadHeader(buf) case Ok(x) => Ok(x.(h := Into(before, x.h))) case failed => failed
  {
    if |buf| < 4 {
      return Err(HeaderSizeInsufficient);
    }
    var nCSRC := buf[0] % 0x10;
    var n := CSRC_OFFSET + nCSRC as int * 4;
    if |buf| < n {
      return Err(HeaderSizeInsufficient);
    }
    var csrc: seq<uint32> := [];
    for i := 0 to nCSRC
      invariant csrc == ReadCsrcs(buf, i)
    {
      csrc := csrc + [Get32(buf, CSRC_OFFSET + i * 4)];
    }
    var h := Header(buf[0] / 0x40, buf[0] / 0x20 % 2 > 0, buf[0] / 0x10 % 2 > 0, buf[1] / 0x80 > 0, buf[1] % 0x80,
                    Get16(buf, 2), Get32(buf, 4), Get32(buf, 8), csrc, before.extensionProfile, []);
    if !h.extension {
      return Ok(HeaderRead(h, n));
    }
    r := UnmarshalBlock(buf, n, h);
  }

  method UnmarshalBlock(buf: seq<byte>, n: nat, front: Header) returns (r: Outcome<HeaderRead>)
    requires n <= |buf|
    ensures r == ReadBlock(buf, n, front)
  {
    if |buf| < n + 4 {
      return Err(HeaderSizeInsufficientForExtension);
    }
    var profile, start := Get16(buf, n), n + 4;
    var end := start + Get16(buf, n + 2) as int * 4;
    if |buf| < end {
      return Err(HeaderSizeInsufficientForExtension);
    }
    if profile == PROFILE_ONE_BYTE || profile == PROFILE_TWO_BYTE {
      var es := UnmarshalElements(buf, profile, start, end);
      if es.None? {
        return Err(HeaderSizeInsufficientForExtension);
      }
      return Ok(HeaderRead(front.(extensionProfile := profile, extensions := es.value.es), es.value.end));
    }
    return Ok(HeaderRead(front.(extensionProfile := profile, extensions := [Extension(0, buf[start..end])]), end));
  }

  method Unmarshal(before: Packet, buf: seq<byte>) returns (r: Outcome<Packet>)
    ensures r == match Unmarshaled(buf) case Ok(p) => Ok(p.(header := Into(before.header, p.header))) case failed => failed
  {
    var header := UnmarshalHeader(before.header, buf);
    if !header.Ok? {
      return if header.Err? then Err(header.error) else Panic;
    }
    var h, n := header.value.h, header.value.end;
    var end, padding: byte := |buf|, 0;
    if h.padding {
      if end <= n {
        return Err(TooSmall);
      }
      padding := buf[end - 1];
      end := end - padding;
    }
    if end < n {
      return Err(TooSmall);
    }
    return Ok(Packet(h, buf[n..end], padding));
  }
}
