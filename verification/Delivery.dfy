/** One direction of the handshake: a sender, a network that loses, reorders and duplicates records, and a receiver. */
module Delivery {
  import opened Bits
  import opened Wire
  import opened Reassembly
  import opened Fragmentation

  const MAX_MESSAGES := 0x1_0000

  /** `wire` holds every record ever put on the network; `accepted` the message, offset and length of each
      fragment that `push` took. */
  datatype Link = Link(sent: seq<Message>, wire: set<seq<byte>>, buffer: Buffer, popped: seq<Popped>,
                       accepted: set<(nat, nat, nat)>)

  /** Losing a record is never delivering it; duplicating it is delivering it again. */
  datatype Event =
    | Send(m: Message)
    | Transmit(message: nat, mtu: nat, piece: nat, number: nat)
    | Deliver(record: seq<byte>)

  const INITIAL := Link([], {}, Buffer(map[], 0), [], {})

  predicate Enabled(l: Link, e: Event) {
    match e
    case Send(m) => |l.sent| + 1 < MAX_MESSAGES
    case Transmit(i, mtu, piece, number) =>
      i < |l.sent| < MAX_MESSAGES && mtu > 0 && piece < |Fragments(l.sent[i], i, mtu)| && number < 0x1_0000_0000_0000
    case Deliver(record) => record in l.wire
  }

  ghost function Apply(l: Link, e: Event): Link
    requires Enabled(l, e)
  {
    match e
    case Send(m) => l.(sent := l.sent + [m])
    case Transmit(i, mtu, piece, number) =>
      l.(wire := l.wire + {EncodeHandshakeRecord(l.sent[i].epoch, number, Fragments(l.sent[i], i, mtu)[piece])})
    case Deliver(record) =>
      var (b, r, out) := Receive(l.buffer, record);
      l.(buffer := b, popped := l.popped + out,
         accepted := if r.Pushed? then l.accepted + {Key(record)} else l.accepted)
  }

  /** The message number, fragment offset and fragment length that a record's first handshake header carries. */
  function Key(record: seq<byte>): (nat, nat, nat) {
    if |record| < RECORD_HEADER_SIZE + HANDSHAKE_HEADER_SIZE then (0, 0, 0)
    else
      var h := DecodeHeader(record[RECORD_HEADER_SIZE..]).value;
      (h.messageSequence, h.fragmentOffset, h.fragmentLength)
  }

  ghost function Run(es: seq<Event>): Option<Link> {
    if es == [] then Some(INITIAL)
    else match Run(es[..|es| - 1])
      case None => None
      case Some(l) => if Enabled(l, es[|es| - 1]) then Some(Apply(l, es[|es| - 1])) else None
  }

  // ---------------------------------------------------------------- the invariant

  predicate HonestFragment(m: Message, i: nat, f: Fragment) {
    f.epoch == m.epoch && Slice(m, i, f.header, f.data)
  }

  predicate HonestRecord(sent: seq<Message>, record: seq<byte>) {
    && |record| >= RECORD_HEADER_SIZE + HANDSHAKE_HEADER_SIZE
    && Key(record).0 < |sent|
    && var m := sent[Key(record).0];
    && DecodeRecordHeader(record) == Some(RecordHeader(CONTENT_TYPE_HANDSHAKE, m.epoch))
    && Honest(m, Key(record).0, record[RECORD_HEADER_SIZE..])
  }

  predicate HonestCache(sent: seq<Message>, m: Cache) {
    forall k :: k in m ==> k < |sent| && m[k] != [] && forall f :: f in m[k] ==> HonestFragment(sent[k], k, f)
  }

  /** The i-th message as the receiver should see it: offset 0, fragment length equal to total length. */
  function Expected(sent: seq<Message>, i: nat): Popped
    requires i < |sent| < MAX_MESSAGES
  {
    Popped(WireMessage(sent[i], i), sent[i].epoch)
  }

  predicate InOrder(sent: seq<Message>, b: Buffer, popped: seq<Popped>) {
    && |sent| < MAX_MESSAGES
    && b.current == |popped| <= |sent|
    && (forall i :: 0 <= i < |popped| ==> popped[i] == Expected(sent, i))
    && HonestCache(sent, b.cache)
  }

  predicate Invariant(l: Link) {
    InOrder(l.sent, l.buffer, l.popped) && forall r :: r in l.wire ==> HonestRecord(l.sent, r)
  }

  // ---------------------------------------------------------------- one record in

  /** An honest record is taken exactly when it fits, and then only its fragment is appended, under its own number. */
  lemma PushHonest(sent: seq<Message>, b: Buffer, record: seq<byte>)
    requires HonestRecord(sent, record)
    ensures AfterPush(b, record).1.Pushed? <==> CacheSize(b.cache) + |record| < FRAGMENT_BUFFER_MAX_SIZE
    ensures var (b1, r) := AfterPush(b, record);
            if !r.Pushed? then b1 == b
            else
              var h := DecodeHeader(record[RECORD_HEADER_SIZE..]).value;
              var f := Fragment(sent[h.messageSequence].epoch, h, record[RECORD_HEADER_SIZE + HANDSHAKE_HEADER_SIZE..]);
              && HonestFragment(sent[h.messageSequence], h.messageSequence, f)
              && b1 == b.(cache := b.cache[h.messageSequence := FragmentsOf(b.cache, h.messageSequence) + [f]])
  {
    var body := record[RECORD_HEADER_SIZE..];
    var h := DecodeHeader(body).value;
    assert body[HANDSHAKE_HEADER_SIZE..] == record[RECORD_HEADER_SIZE + HANDSHAKE_HEADER_SIZE..];
    assert CutPoint(h, body) == |body|;
    var epoch := sent[h.messageSequence].epoch;
    var f := Fragment(epoch, h, body[HANDSHAKE_HEADER_SIZE..|body|]);
    assert f.data == body[HANDSHAKE_HEADER_SIZE..];
    var m1 := b.cache[h.messageSequence := FragmentsOf(b.cache, h.messageSequence) + [f]];
    var rtx := Retransmitted(h, b.current);
    assert Absorb(m1, b.current, 0, body[|body|..], rtx) == (m1, Pushed(rtx));
    assert Absorb(b.cache, b.current, epoch, body, false) == (m1, Pushed(rtx));
  }

  /** On honest fragments a chain from `target` spells out the rest of the message. */
  lemma {:induction false} AssembleHonest(m: Message, i: nat, frags: seq<Fragment>, target: nat)
    requires forall f :: f in frags ==> HonestFragment(m, i, f)
    requires target <= |m.content|
    ensures Assemble(frags, target).Some? ==> Assemble(frags, target).value == m.content[target..]
    decreases |m.content| - target
  {
    var j := FirstAt(frags, target);
    if j < |frags| {
      var f := frags[j];
      assert f in frags;
      var end := target + f.header.fragmentLength;
      if end != |m.content| && f.header.fragmentLength != 0 {
        AssembleHonest(m, i, frags, end);
        assert m.content[target..] == m.content[target..end] + m.content[end..];
      }
    }
  }

  lemma PopInOrder(sent: seq<Message>, b: Buffer, popped: seq<Popped>)
    requires InOrder(sent, b, popped) && AfterPop(b).1.Some?
    ensures var (b1, out) := AfterPop(b); InOrder(sent, b1, popped + [out.value])
  {
    PopShrinks(b);
    var frags := b.cache[b.current];
    AssembleHonest(sent[b.current], b.current, frags, 0);
    assert frags[0] in frags;
    assert HonestFragment(sent[b.current], b.current, frags[0]);
  }

  lemma DrainOne(b: Buffer, popped: seq<Popped>)
    requires AfterPop(b).1.Some?
    ensures var (b1, out) := AfterPop(b);
            && |b1.cache| < |b.cache| && Drain(b).0 == Drain(b1).0
            && popped + Drain(b).1 == popped + [out.value] + Drain(b1).1
  {
    PopShrinks(b);
    var (b1, out) := AfterPop(b);
    assert Drain(b).1 == [out.value] + Drain(b1).1;
  }

  lemma {:induction false} DrainInOrder(sent: seq<Message>, b: Buffer, popped: seq<Popped>)
    requires InOrder(sent, b, popped)
    ensures var (b1, out) := Drain(b); InOrder(sent, b1, popped + out) && AfterPop(b1).1.None?
    decreases |b.cache|
  {
    if AfterPop(b).1.Some? {
      var (b1, out) := AfterPop(b);
      DrainOne(b, popped);
      PopInOrder(sent, b, popped);
      DrainInOrder(sent, b1, popped + [out.value]);
    } else {
      DrainStops(b, popped);
    }
  }

  // ---------------------------------------------------------------- every run

  lemma HonestStays(sent: seq<Message>, m: Message, record: seq<byte>)
    requires HonestRecord(sent, record)
    ensures HonestRecord(sent + [m], record)
  {
  }

  lemma TransmittedIsHonest(sent: seq<Message>, i: nat, mtu: nat, piece: nat, number: nat)
    requires i < |sent| < MAX_MESSAGES && mtu > 0 && piece < |Fragments(sent[i], i, mtu)|
    requires number < 0x1_0000_0000_0000
    ensures var record := EncodeHandshakeRecord(sent[i].epoch, number, Fragments(sent[i], i, mtu)[piece]);
            && HonestRecord(sent, record) && Key(record).0 == i
            && Cut(sent[i], i, mtu, record[RECORD_HEADER_SIZE..])
  {
    var body := Fragments(sent[i], i, mtu)[piece];
    FragmentsAreTheCuts(sent[i], i, mtu);
    assert body in Fragments(sent[i], i, mtu);
    RecordRoundTrip(sent[i].epoch, number, body);
  }

  lemma DeliverKeeps(l: Link, record: seq<byte>)
    requires Invariant(l) && record in l.wire
    ensures Invariant(Apply(l, Deliver(record)))
  {
    PushHonest(l.sent, l.buffer, record);
    var (b1, r) := AfterPush(l.buffer, record);
    assert InOrder(l.sent, b1, l.popped);
    if r.Pushed? {
      DrainInOrder(l.sent, b1, l.popped);
    } else {
      assert l.popped + [] == l.popped;
    }
  }

  lemma StepKeeps(l: Link, e: Event)
    requires Invariant(l) && Enabled(l, e)
    ensures Invariant(Apply(l, e))
  {
    match e
    case Send(m) =>
      forall r | r in l.wire ensures HonestRecord(l.sent + [m], r) { HonestStays(l.sent, m, r); }
    case Transmit(i, mtu, piece, number) => TransmittedIsHonest(l.sent, i, mtu, piece, number);
    case Deliver(record) => DeliverKeeps(l, record);
  }

  lemma {:induction false} RunKeeps(es: seq<Event>)
    requires Run(es).Some?
    ensures Invariant(Run(es).value)
  {
    if es != [] {
      RunKeeps(es[..|es| - 1]);
      StepKeeps(Run(es[..|es| - 1]).value, es[|es| - 1]);
    }
  }

  /** In every run, with any mtu at every transmission, what comes out is a prefix of what was sent, byte for byte. */
  lemma PoppedIsPrefixOfSent(es: seq<Event>)
    requires Run(es).Some?
    ensures var l := Run(es).value;
            && |l.popped| <= |l.sent| < MAX_MESSAGES
            && forall i :: 0 <= i < |l.popped| ==> l.popped[i] == Popped(WireMessage(l.sent[i], i), l.sent[i].epoch)
  {
    RunKeeps(es);
  }
}
