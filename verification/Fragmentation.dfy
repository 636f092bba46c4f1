/** Handshake messages over a lossy datagram network: fragmentation at the sender, reassembly at the receiver. */
module Fragmentation {
  import opened Bits
  import opened Wire

  /** A handshake message body; lengths are 24-bit on the wire. */
  datatype RawMessage = RawMessage(typ: byte, epoch: uint16, content: seq<byte>)
  type Message = m: RawMessage | |m.content| < MAX_MESSAGE_LENGTH witness RawMessage(0, 0, [])

  /** The message as one unfragmented handshake message numbered `i`. */
  function WireMessage(m: Message, i: uint16): seq<byte> {
    EncodeHeader(Header(m.typ, |m.content|, i, 0, |m.content|)) + m.content
  }

  function Pieces(bytes: seq<byte>, size: nat): seq<seq<byte>>
    requires size > 0
  {
    if bytes == [] then []
    else if |bytes| <= size then [bytes]
    else [bytes[..size]] + Pieces(bytes[size..], size)
  }

  method SplitBytes(bytes: seq<byte>, splitLen: nat) returns (pieces: seq<seq<byte>>)
    requires splitLen > 0
    ensures pieces == Pieces(bytes, splitLen)
  {
    pieces := [];
    var i := 0;
    while i < |bytes|
      invariant pieces + Pieces(if i <= |bytes| then bytes[i..] else [], splitLen) == Pieces(bytes, splitLen)
      decreases |bytes| - i
    {
      var j := i + splitLen;
      if j > |bytes| {
        j := |bytes|;
      }
      if j < |bytes| {
        assert bytes[i..][..splitLen] == bytes[i..j] && bytes[i..][splitLen..] == bytes[j..];
      } else {
        assert bytes[i..] == bytes[i..j];
        assert Pieces(bytes[i..], splitLen) == [bytes[i..j]] + [];
      }
      pieces := pieces + [bytes[i..j]];
      i := i + splitLen;
    }
  }

  /** Each piece behind its own fragment header, from offset `offset` on. */
  function Headed(m: Message, i: uint16, pieces: seq<seq<byte>>, offset: nat): seq<seq<byte>>
    requires offset + Total(pieces) <= |m.content|
  {
    if pieces == [] then []
    else
      [EncodeHeader(Header(m.typ, |m.content|, i, offset, |pieces[0]|)) + pieces[0]]
      + Headed(m, i, pieces[1..], offset + |pieces[0]|)
  }

  function Total(pieces: seq<seq<byte>>): nat {
    if pieces == [] then 0 else |pieces[0]| + Total(pieces[1..])
  }

  lemma {:induction false} PiecesTotal(bytes: seq<byte>, size: nat)
    requires size > 0
    ensures Total(Pieces(bytes, size)) == |bytes|
    decreases |bytes|
  {
    if |bytes| > size {
      PiecesTotal(bytes[size..], size);
    }
  }

  /** `fragmentHandshake`: an empty message still gets one, empty, fragment. */
  function Fragments(m: Message, i: uint16, mtu: nat): seq<seq<byte>>
    requires mtu > 0
  {
    PiecesTotal(m.content, mtu);
    Headed(m, i, if m.content == [] then [[]] else Pieces(m.content, mtu), 0)
  }

  method FragmentHandshake(m: Message, i: uint16, mtu: nat) returns (fragments: seq<seq<byte>>)
    requires mtu > 0
    ensures fragments == Fragments(m, i, mtu)
  {
    var pieces := SplitBytes(m.content, mtu);
    PiecesTotal(m.content, mtu);
    if |pieces| == 0 {
      pieces := [[]];
    }
    fragments := [];
    var offset: nat := 0;
    for k := 0 to |pieces|
      invariant offset + Total(pieces[k..]) == |m.content|
      invariant fragments + Headed(m, i, pieces[k..], offset) == Fragments(m, i, mtu)
    {
      assert pieces[k..][1..] == pieces[k + 1..];
      var header := Header(m.typ, |m.content|, i, offset, |pieces[k]|);
      offset := offset + |pieces[k]|;
      fragments := fragments + [EncodeHeader(header) + pieces[k]];
    }
  }

  // ---------------------------------------------------------------- what the fragments are

  /** A genuine slice of message `i`: the header describes it, and it is empty only if the message is. */
  predicate Slice(m: Message, i: nat, h: Header, data: seq<byte>) {
    && h.typ == m.typ && h.length == |m.content| && h.messageSequence == i
    && h.fragmentOffset + h.fragmentLength <= |m.content|
    && (h.fragmentLength == 0 ==> m.content == [])
    && data == m.content[h.fragmentOffset..h.fragmentOffset + h.fragmentLength]
  }

  predicate Honest(m: Message, i: nat, body: seq<byte>) {
    |body| >= HANDSHAKE_HEADER_SIZE && Slice(m, i, DecodeHeader(body).value, body[HANDSHAKE_HEADER_SIZE..])
  }

  /** The offsets 0, mtu, 2*mtu, ... */
  predicate OnGrid(offset: nat, mtu: nat)
    requires mtu > 0
  {
    offset == 0 || (offset >= mtu && OnGrid(offset - mtu, mtu))
  }

  /** The offsets at which the message is cut with this mtu. */
  predicate CutAt(m: Message, mtu: nat, offset: nat)
    requires mtu > 0
  {
    OnGrid(offset, mtu) && (offset < |m.content| || offset == |m.content| == 0)
  }

  function PieceLength(m: Message, mtu: nat, offset: nat): nat
    requires offset <= |m.content|
  {
    if |m.content| - offset <= mtu then |m.content| - offset else mtu
  }

  predicate StartsAt(body: seq<byte>, offset: nat) {
    |body| >= HANDSHAKE_HEADER_SIZE && DecodeHeader(body).value.fragmentOffset == offset
  }

  /** The header of one of the slices cut with this mtu. */
  predicate IsPiece(m: Message, mtu: nat, h: Header)
    requires mtu > 0
  {
    CutAt(m, mtu, h.fragmentOffset) && h.fragmentLength == PieceLength(m, mtu, h.fragmentOffset)
  }

  predicate Cut(m: Message, i: nat, mtu: nat, body: seq<byte>)
    requires mtu > 0
  {
    Honest(m, i, body) && IsPiece(m, mtu, DecodeHeader(body).value)
  }

  function FirstFragment(m: Message, i: uint16, mtu: nat, offset: nat): seq<byte>
    requires mtu > 0 && offset < |m.content|
  {
    var n := PieceLength(m, mtu, offset);
    EncodeHeader(Header(m.typ, |m.content|, i, offset, n)) + m.content[offset..offset + n]
  }

  lemma FirstFragmentIsCut(m: Message, i: uint16, mtu: nat, offset: nat)
    requires mtu > 0 && offset < |m.content| && OnGrid(offset, mtu)
    ensures var first := FirstFragment(m, i, mtu, offset); Cut(m, i, mtu, first) && StartsAt(first, offset)
  {
    var n := PieceLength(m, mtu, offset);
    HeaderRoundTrip(Header(m.typ, |m.content|, i, offset, n), m.content[offset..offset + n]);
  }

  /** The fragments from a grid offset on: the first, and then those from the next grid offset on. */
  lemma HeadedFrom(m: Message, i: uint16, mtu: nat, offset: nat)
    requires mtu > 0 && offset < |m.content|
    ensures offset + Total(Pieces(m.content[offset..], mtu)) == |m.content|
    ensures offset + mtu < |m.content| ==> offset + mtu + Total(Pieces(m.content[offset + mtu..], mtu)) == |m.content|
    ensures Headed(m, i, Pieces(m.content[offset..], mtu), offset) ==
            [FirstFragment(m, i, mtu, offset)] +
            if offset + mtu >= |m.content| then []
            else Headed(m, i, Pieces(m.content[offset + mtu..], mtu), offset + mtu)
  {
    PiecesTotal(m.content[offset..], mtu);
    var pieces := Pieces(m.content[offset..], mtu);
    assert pieces[0] == m.content[offset..offset + PieceLength(m, mtu, offset)];
    if offset + mtu < |m.content| {
      assert m.content[offset..][mtu..] == m.content[offset + mtu..];
      assert pieces[1..] == Pieces(m.content[offset + mtu..], mtu);
      PiecesTotal(m.content[offset + mtu..], mtu);
    } else if offset + mtu == |m.content| {
      assert m.content[offset..][mtu..] == [];
      assert Headed(m, i, pieces[1..], offset + |pieces[0]|) == [];
    } else {
      assert Headed(m, i, pieces[1..], offset + |pieces[0]|) == [];
    }
  }

  /** Nothing but cuts, and every cut from `offset` on. */
  ghost predicate TheCuts(m: Message, i: nat, mtu: nat, offset: nat, fs: seq<seq<byte>>)
    requires mtu > 0
  {
    && (forall f :: f in fs ==> Cut(m, i, mtu, f))
    && (forall o :: o >= offset && CutAt(m, mtu, o) ==> exists f :: f in fs && StartsAt(f, o))
  }

  lemma OneMoreCut(m: Message, i: nat, mtu: nat, offset: nat, first: seq<byte>, rest: seq<seq<byte>>)
    requires mtu > 0 && OnGrid(offset, mtu)
    requires Cut(m, i, mtu, first) && StartsAt(first, offset)
    requires if offset + mtu >= |m.content| then rest == [] else TheCuts(m, i, mtu, offset + mtu, rest)
    ensures TheCuts(m, i, mtu, offset, [first] + rest)
  {
    var fs := [first] + rest;
    forall o | o >= offset && CutAt(m, mtu, o) ensures exists f :: f in fs && StartsAt(f, o) {
      if o == offset {
        assert first in fs;
      } else {
        GridGap(offset, o, mtu);
        var f :| f in rest && StartsAt(f, o);
        assert f in fs;
      }
    }
  }

  lemma {:induction false} HeadedShape(m: Message, i: uint16, mtu: nat, offset: nat)
    requires mtu > 0 && offset < |m.content| && OnGrid(offset, mtu)
    ensures offset + Total(Pieces(m.content[offset..], mtu)) == |m.content|
    ensures TheCuts(m, i, mtu, offset, Headed(m, i, Pieces(m.content[offset..], mtu), offset))
    decreases |m.content| - offset
  {
    HeadedFrom(m, i, mtu, offset);
    FirstFragmentIsCut(m, i, mtu, offset);
    var rest := [];
    if offset + mtu < |m.content| {
      HeadedShape(m, i, mtu, offset + mtu);
      rest := Headed(m, i, Pieces(m.content[offset + mtu..], mtu), offset + mtu);
    }
    OneMoreCut(m, i, mtu, offset, FirstFragment(m, i, mtu, offset), rest);
  }

  lemma {:induction false} GridGap(a: nat, b: nat, mtu: nat)
    requires mtu > 0 && OnGrid(a, mtu) && OnGrid(b, mtu) && a < b
    ensures a + mtu <= b
  {
    if a > 0 {
      GridGap(a - mtu, b - mtu, mtu);
    }
  }

  /** `fragmentHandshake` cuts the message exactly at the grid offsets, into honest fragments. */
  lemma FragmentsAreTheCuts(m: Message, i: uint16, mtu: nat)
    requires mtu > 0
    ensures forall f :: f in Fragments(m, i, mtu) ==> Cut(m, i, mtu, f)
    ensures forall o :: CutAt(m, mtu, o) ==> exists f :: f in Fragments(m, i, mtu) && StartsAt(f, o)
  {
    if m.content == [] {
      var h := Header(m.typ, 0, i, 0, 0);
      HeaderRoundTrip(h, []);
      var empty: seq<seq<byte>> := [[]];
      assert Headed(m, i, empty[1..], 0) == [];
      assert Fragments(m, i, mtu) == [EncodeHeader(h) + []];
      assert EncodeHeader(h) + [] in Fragments(m, i, mtu);
    } else {
      assert m.content[0..] == m.content;
      HeadedShape(m, i, mtu, 0);
    }
  }
}
