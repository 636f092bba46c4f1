/** The DTLS record header and handshake header on the wire (sections 4.1 and 4.2.2 of RFC 6347). */
module Wire {
  import opened Bits

  const RECORD_HEADER_SIZE := 13
  const HANDSHAKE_HEADER_SIZE := 12
  const CONTENT_TYPE_HANDSHAKE: byte := 22
  const MAX_MESSAGE_LENGTH := 0x100_0000

  datatype Header = Header(typ: byte, length: uint24, messageSequence: uint16,
                           fragmentOffset: uint24, fragmentLength: uint24)

  function EncodeHeader(h: Header): (b: seq<byte>) {
    [h.typ] + Put24(h.length) + Put16(h.messageSequence) + Put24(h.fragmentOffset) + Put24(h.fragmentLength)
  }

  function DecodeHeader(b: seq<byte>): (r: Option<Header>) {
    if |b| < HANDSHAKE_HEADER_SIZE then None
    else Some(Header(b[0], Get24(b, 1), Get16(b, 4), Get24(b, 6), Get24(b, 9)))
  }

  lemma HeaderRoundTrip(h: Header, rest: seq<byte>)
    ensures |EncodeHeader(h)| == HANDSHAKE_HEADER_SIZE
    ensures DecodeHeader(EncodeHeader(h) + rest) == Some(h)
  {
    var b := EncodeHeader(h) + rest;
    Get24Put24(b, 1, h.length);
    Get16Put16(b, 4, h.messageSequence);
    Get24Put24(b, 6, h.fragmentOffset);
    Get24Put24(b, 9, h.fragmentLength);
  }

  /** What `push` reads of a record header; a version other than 1.0 and 1.2 is an error. */
  datatype RecordHeader = RecordHeader(contentType: byte, epoch: uint16)

  function DecodeRecordHeader(b: seq<byte>): (r: Option<RecordHeader>) {
    if |b| < RECORD_HEADER_SIZE then None
    else if b[1] != 0xfe || (b[2] != 0xff && b[2] != 0xfd) then None
    else Some(RecordHeader(b[0], Get16(b, 3)))
  }

  /** A DTLS 1.2 handshake record; `number` is the 48-bit record sequence number. */
  function EncodeHandshakeRecord(epoch: uint16, number: nat, body: seq<byte>): (b: seq<byte>)
    requires number < 0x1_0000_0000_0000
  {
    [CONTENT_TYPE_HANDSHAKE, 0xfe, 0xfd] + Put16(epoch)
    + Put24(number / 0x100_0000) + Put24(number % 0x100_0000) + Put16(|body| % 0x1_0000) + body
  }

  lemma RecordRoundTrip(epoch: uint16, number: nat, body: seq<byte>)
    requires number < 0x1_0000_0000_0000
    ensures var b := EncodeHandshakeRecord(epoch, number, body);
            && |b| == RECORD_HEADER_SIZE + |body|
            && DecodeRecordHeader(b) == Some(RecordHeader(CONTENT_TYPE_HANDSHAKE, epoch))
            && b[RECORD_HEADER_SIZE..] == body
  {
    Get16Put16(EncodeHandshakeRecord(epoch, number, body), 3, epoch);
  }

  /** The sequence number of a record, which the replay detector looks at. */
  function RecordNumber(b: seq<byte>): nat
    requires |b| >= RECORD_HEADER_SIZE
  {
    0x100_0000 * Get24(b, 5) as int + Get24(b, 8)
  }

  lemma NumberRoundTrip(epoch: uint16, number: nat, body: seq<byte>)
    requires number < 0x1_0000_0000_0000
    ensures var b := EncodeHandshakeRecord(epoch, number, body);
            |b| >= RECORD_HEADER_SIZE && RecordNumber(b) == number
  {
    var b := EncodeHandshakeRecord(epoch, number, body);
    Get24Put24(b, 5, number / 0x100_0000);
    Get24Put24(b, 8, number % 0x100_0000);
  }
}
