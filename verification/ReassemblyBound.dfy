/** No sequence of pushes of arbitrary bytes and pops lets the buffer reach its size limit. */
module ReassemblyBound {
  import opened Bits
  import opened Wire
  import opened Reassembly

  datatype Op = PushRecord(buf: seq<byte>) | PopMessage

  ghost function Apply(b: Buffer, op: Op): Buffer {
    match op
    case PushRecord(buf) => AfterPush(b, buf).0
    case PopMessage => AfterPop(b).0
  }

  ghost function Run(ops: seq<Op>): Buffer {
    if ops == [] then Buffer(map[], 0) else Apply(Run(ops[..|ops| - 1]), ops[|ops| - 1])
  }

  lemma {:induction false} AbsorbSize(m: Cache, current: uint16, epoch: uint16, body: seq<byte>, r: bool)
    ensures CacheSize(Absorb(m, current, epoch, body, r).0) <= CacheSize(m) + |body|
    decreases |body|
  {
    if body != [] && DecodeHeader(body).Some? {
      var h := DecodeHeader(body).value;
      var k, end := h.messageSequence, CutPoint(h, body);
      var frag := Fragment(epoch, h, body[HANDSHAKE_HEADER_SIZE..end]);
      var frags := FragmentsOf(m, k) + [frag];
      assert frags[..|frags| - 1] == FragmentsOf(m, k);
      CacheSizeUpdate(m, k, frags);
      if k in m { CacheSizeSplit(m, k); } else { assert m - {k} == m; }
      AbsorbSize(m[k := frags], current, 0, body[end..], Retransmitted(h, current));
    }
  }

  lemma PopSize(b: Buffer)
    ensures CacheSize(AfterPop(b).0.cache) <= CacheSize(b.cache)
  {
    if b.current in b.cache { CacheSizeSplit(b.cache, b.current); }
  }

  lemma {:induction false} BufferedBytesStayBelowLimit(ops: seq<Op>)
    ensures CacheSize(Run(ops).cache) < FRAGMENT_BUFFER_MAX_SIZE
  {
    if ops != [] {
      var before := Run(ops[..|ops| - 1]);
      BufferedBytesStayBelowLimit(ops[..|ops| - 1]);
      match ops[|ops| - 1]
      case PopMessage => PopSize(before);
      case PushRecord(buf) =>
        if |buf| >= RECORD_HEADER_SIZE {
          AbsorbSize(before.cache, before.current, Get16(buf, 3), buf[RECORD_HEADER_SIZE..], false);
        }
    }
  }
}
