/** The DTLS fragment buffer: out-of-order reassembly of handshake messages. */
module Reassembly {
  import opened Bits
  import opened Wire

  const FRAGMENT_BUFFER_MAX_SIZE := 2_000_000

  datatype Fragment = Fragment(epoch: uint16, header: Header, data: seq<byte>)

  type Cache = map<uint16, seq<Fragment>>

  datatype Buffer = Buffer(cache: Cache, current: uint16)

  datatype PushResult =
    | Overflow
    | Malformed
    | NotHandshake
    | Pushed(isRetransmit: bool)

  // ---------------------------------------------------------------- size

  function FragmentBytes(frags: seq<Fragment>): nat {
    if frags == [] then 0 else FragmentBytes(frags[..|frags| - 1]) + |frags[|frags| - 1].data|
  }

  /** Number of buffered payload bytes. */
  ghost function CacheSize(m: Cache): nat {
    if m == map[] then 0
    else
      var k :| k in m;
      FragmentBytes(m[k]) + CacheSize(m - {k})
  }

  lemma {:induction false} CacheSizeSplit(m: Cache, k: uint16)
    requires k in m
    ensures CacheSize(m) == FragmentBytes(m[k]) + CacheSize(m - {k})
    decreases |m|
  {
    var j :| j in m && CacheSize(m) == FragmentBytes(m[j]) + CacheSize(m - {j});
    if j != k {
      CacheSizeSplit(m - {j}, k);
      CacheSizeSplit(m - {k}, j);
      assert m - {j} - {k} == m - {k} - {j};
    }
  }

  lemma CacheSizeUpdate(m: Cache, k: uint16, frags: seq<Fragment>)
    ensures CacheSize(m[k := frags]) == CacheSize(m - {k}) + FragmentBytes(frags)
  {
    CacheSizeSplit(m[k := frags], k);
    assert m[k := frags] - {k} == m - {k};
  }

  // ---------------------------------------------------------------- push

  function FragmentsOf(m: Cache, k: uint16): seq<Fragment> {
    if k in m then m[k] else []
  }

  /** Where `push` cuts: the total message length, or the end of the record when the message was fragmented. */
  function CutPoint(h: Header, body: seq<byte>): (end: nat)
    requires |body| >= HANDSHAKE_HEADER_SIZE
    ensures HANDSHAKE_HEADER_SIZE <= end <= |body|
  {
    var end := HANDSHAKE_HEADER_SIZE + h.length;
    if end > |body| then |body| else end
  }

  predicate Retransmitted(h: Header, current: uint16) {
    h.fragmentOffset == 0 && h.messageSequence < current
  }

  /** The loop of `push` over the handshake messages of one record; only the first is given the record's epoch. */
  function Absorb(m: Cache, current: uint16, epoch: uint16, body: seq<byte>, isRetransmit: bool): (Cache, PushResult)
    decreases |body|
  {
    if body == [] then (m, Pushed(isRetransmit))
    else match DecodeHeader(body)
      case None => (m, Malformed)
      case Some(h) =>
        var end := CutPoint(h, body);
        var frag := Fragment(epoch, h, body[HANDSHAKE_HEADER_SIZE..end]);
        Absorb(m[h.messageSequence := FragmentsOf(m, h.messageSequence) + [frag]], current, 0, body[end..],
               Retransmitted(h, current))
  }

  ghost function AfterPush(b: Buffer, buf: seq<byte>): (Buffer, PushResult) {
    if CacheSize(b.cache) + |buf| >= FRAGMENT_BUFFER_MAX_SIZE then (b, Overflow)
    else match DecodeRecordHeader(buf)
      case None => (b, Malformed)
      case Some(rh) =>
        if rh.contentType != CONTENT_TYPE_HANDSHAKE then (b, NotHandshake)
        else
          var (m, r) := Absorb(b.cache, b.current, rh.epoch, buf[RECORD_HEADER_SIZE..], false);
          (b.(cache := m), r)
  }

  // ---------------------------------------------------------------- pop

  /** Index of the first fragment that starts at `target`, or the number of fragments. */
  function FirstAt(frags: seq<Fragment>, target: nat): (i: nat)
    ensures i <= |frags|
    ensures forall j :: 0 <= j < i ==> frags[j].header.fragmentOffset != target
    ensures i < |frags| ==> frags[i].header.fragmentOffset == target
  {
    if frags == [] then 0
    else if frags[0].header.fragmentOffset == target then 0
    else 1 + FirstAt(frags[1..], target)
  }

  /** `appendMessage`: follow the chain of fragments from `target`. It stops at the message's end or at an empty
      fragment, and every recursive call starts further on, so it ends on any fragments whatever. */
  function Assemble(frags: seq<Fragment>, target: nat): Option<seq<byte>>
    requires target < 2 * MAX_MESSAGE_LENGTH
    decreases 2 * MAX_MESSAGE_LENGTH - target
  {
    var i := FirstAt(frags, target);
    if i == |frags| then None
    else
      var f := frags[i];
      var end := f.header.fragmentOffset + f.header.fragmentLength;
      if end == f.header.length || f.header.fragmentLength == 0 then Some(f.data)
      else match Assemble(frags, end)
        case None => None
        case Some(rest) => Some(f.data + rest)
  }

  datatype Popped = Popped(content: seq<byte>, epoch: uint16)

  function AfterPop(b: Buffer): (Buffer, Option<Popped>) {
    var frags := FragmentsOf(b.cache, b.current);
    match Assemble(frags, 0)
    case None => (b, None)
    case Some(raw) =>
      var h := frags[0].header;
      var whole := h.(fragmentOffset := 0, fragmentLength := h.length);
      (Buffer(b.cache - {b.current}, (b.current + 1) % 0x1_0000),
       Some(Popped(EncodeHeader(whole) + raw, frags[0].epoch)))
  }

  /** The pop loop of `handleIncomingPacket`: pop until nothing comes out. */
  function Drain(b: Buffer): (Buffer, seq<Popped>)
    decreases |b.cache|
  {
    match AfterPop(b)
    case (_, None) => (b, [])
    case (b1, Some(p)) =>
      PopShrinks(b);
      var (b2, rest) := Drain(b1);
      (b2, [p] + rest)
  }

  lemma PopShrinks(b: Buffer)
    ensures var (b1, out) := AfterPop(b);
            if out.Some? then b.current in b.cache && |b1.cache| < |b.cache| else b1 == b
  {
    if b.current in b.cache {
      assert b.cache.Keys == (b.cache - {b.current}).Keys + {b.current};
    }
  }

  lemma DrainStops(b: Buffer, popped: seq<Popped>)
    requires AfterPop(b).1.None?
    ensures AfterPop(b).0 == b == Drain(b).0 && popped + Drain(b).1 == popped
  {
    PopShrinks(b);
  }

  ghost function Receive(b: Buffer, buf: seq<byte>): (Buffer, PushResult, seq<Popped>) {
    var (b1, r) := AfterPush(b, buf);
    if r.Pushed? then
      var (b2, out) := Drain(b1);
      (b2, r, out)
    else (b1, r, [])
  }

  // ---------------------------------------------------------------- the code

  class FragmentBuffer {
    var cache: Cache
    var currentMessageSequenceNumber: uint16

    ghost function View(): Buffer
      reads this
    {
      Buffer(cache, currentMessageSequenceNumber)
    }

    constructor ()
      ensures View() == Buffer(map[], 0)
    {
      cache := map[];
      currentMessageSequenceNumber := 0;
    }

    method Size() returns (size: nat)
      ensures size == CacheSize(cache)
    {
      size := 0;
      var remaining := cache;
      while remaining != map[]
        invariant size + CacheSize(remaining) == CacheSize(cache)
        decreases |remaining|
      {
        var i :| i in remaining;
        var frags := remaining[i];
        ghost var before := size;
        for j := 0 to |frags|
          invariant size == before + FragmentBytes(frags[..j])
        {
          assert frags[..j + 1][..j] == frags[..j];
          size := size + |frags[j].data|;
        }
        assert frags[..|frags|] == frags;
        CacheSizeSplit(remaining, i);
        assert remaining.Keys == (remaining - {i}).Keys + {i};
        remaining := remaining - {i};
      }
    }

    method Push(buf: seq<byte>) returns (result: PushResult)
      modifies this
      ensures (View(), result) == AfterPush(old(View()), buf)
    {
      var size := Size();
      if size + |buf| >= FRAGMENT_BUFFER_MAX_SIZE {
        return Overflow;
      }
      var recordHeader := DecodeRecordHeader(buf);
      if recordHeader.None? {
        return Malformed;
      }
      if recordHeader.value.contentType != CONTENT_TYPE_HANDSHAKE {
        return NotHandshake;
      }
      var epoch := recordHeader.value.epoch;
      var isRetransmit := false;
      var rest := buf[RECORD_HEADER_SIZE..];
      while rest != []
        invariant currentMessageSequenceNumber == old(currentMessageSequenceNumber)
        invariant Absorb(cache, currentMessageSequenceNumber, epoch, rest, isRetransmit)
               == Absorb(old(cache), old(currentMessageSequenceNumber), recordHeader.value.epoch,
                         buf[RECORD_HEADER_SIZE..], false)
        decreases |rest|
      {
        var header := DecodeHeader(rest);
        if header.None? {
          return Malformed;
        }
        var h := header.value;
        isRetransmit := Retransmitted(h, currentMessageSequenceNumber);
        var end := HANDSHAKE_HEADER_SIZE + h.length;
        if end > |rest| {
          end := |rest|;
        }
        var frag := Fragment(epoch, h, rest[HANDSHAKE_HEADER_SIZE..end]);
        cache := cache[h.messageSequence := FragmentsOf(cache, h.messageSequence) + [frag]];
        rest := rest[end..];
        epoch := 0;
      }
      return Pushed(isRetransmit);
    }

    static method AppendMessage(frags: seq<Fragment>, targetOffset: nat) returns (ok: bool, raw: seq<byte>)
      requires targetOffset < 2 * MAX_MESSAGE_LENGTH
      ensures Assemble(frags, targetOffset) == if ok then Some(raw) else None
      decreases 2 * MAX_MESSAGE_LENGTH - targetOffset
    {
      for i := 0 to |frags|
        invariant forall j :: 0 <= j < i ==> frags[j].header.fragmentOffset != targetOffset
      {
        var f := frags[i];
        if f.header.fragmentOffset == targetOffset {
          assert FirstAt(frags, targetOffset) == i;
          raw := [];
          var fragmentEnd := f.header.fragmentOffset + f.header.fragmentLength;
          if fragmentEnd != f.header.length && f.header.fragmentLength != 0 {
            ok, raw := AppendMessage(frags, fragmentEnd);
            if !ok {
              return false, [];
            }
          } else {
            assert f.data + raw == f.data;
          }
          return true, f.data + raw;
        }
      }
      return false, [];
    }

    method Pop() returns (out: Option<Popped>)
      modifies this
      ensures (View(), out) == AfterPop(old(View()))
    {
      if currentMessageSequenceNumber !in cache {
        return None;
      }
      var frags := cache[currentMessageSequenceNumber];
      var ok, raw := AppendMessage(frags, 0);
      if !ok {
        return None;
      }
      var firstHeader := frags[0].header;
      firstHeader := firstHeader.(fragmentOffset := 0, fragmentLength := firstHeader.length);
      var epoch := frags[0].epoch;
      cache := cache - {currentMessageSequenceNumber};
      currentMessageSequenceNumber := (currentMessageSequenceNumber + 1) % 0x1_0000;
      return Some(Popped(EncodeHeader(firstHeader) + raw, epoch));
    }

    /** The pop loop of `handleIncomingPacket`; the popped messages are what it hands to the handshake cache. */
    method PopAll() returns (popped: seq<Popped>)
      modifies this
      ensures (View(), popped) == Drain(old(View()))
    {
      popped := [];
      ghost var start := View();
      ghost var last := start;  // the buffer before the latest pop
      var out := Pop();
      while out.Some?
        invariant (View(), out) == AfterPop(last)
        invariant Drain(start).0 == Drain(last).0
        invariant Drain(start).1 == popped + Drain(last).1
        decreases |last.cache|
      {
        PopShrinks(last);
        popped := popped + [out.value];
        last := View();
        out := Pop();
      }
      DrainStops(last, popped);
    }

    method HandleRecord(buf: seq<byte>) returns (result: PushResult, popped: seq<Popped>)
      modifies this
      ensures (View(), result, popped) == Receive(old(View()), buf)
    {
      result := Push(buf);
      popped := [];
      if result.Pushed? {
        popped := PopAll();
      }
    }
  }
}
