/** When the fragment buffer has become useless: it takes nothing with a byte in it any more, whatever is sent and however
    long one waits. */
module JammedBuffer {
  import opened Bits
  import opened Wire
  import opened Reassembly
  import opened Fragmentation
  import opened Delivery
  import opened Completeness
  import opened MixedSizes
  import opened StaleFragments

  const HEADERS := RECORD_HEADER_SIZE + HANDSHAKE_HEADER_SIZE

  /** There is no room for a record with a fragment of `n` bytes. */
  ghost predicate Full(m: Cache, n: nat) {
    HEADERS + n + CacheSize(m) >= FRAGMENT_BUFFER_MAX_SIZE
  }

  /** In every continuation `push` refuses every record of at least that length, handshake or not. */
  ghost predicate Shut(es: seq<Event>, n: nat) {
    forall more, record :: Run(es + more).Some? && |record| >= HEADERS + n ==>
      AfterPush(Run(es + more).value.buffer, record).1 == Overflow
  }

  /** The records that arrive have numbers from `number` on, and no two have the same. */
  predicate FreshFrom(es: seq<Event>, number: nat) {
    NoReplay(es) && forall i :: 0 <= i < |es| && es[i].Deliver? ==> RecordNumber(es[i].record) >= number
  }

  /** In every continuation in which only such records arrive, none that is on the wire brings in a fragment of at least
      `n` bytes. */
  ghost predicate Jammed(es: seq<Event>, n: nat, number: nat) {
    forall more, record | Run(es + more).Some? && record in Run(es + more).value.wire && Key(record).2 >= n ::
      FreshFrom(more + [Deliver(record)], number) ==> !AfterPush(Run(es + more).value.buffer, record).1.Pushed?
  }

  lemma RecordLength(sent: seq<Message>, record: seq<byte>)
    requires HonestRecord(sent, record)
    ensures |record| == HEADERS + Key(record).2
  {
    var body := record[RECORD_HEADER_SIZE..];
    assert |body[HANDSHAKE_HEADER_SIZE..]| == Key(record).2;
  }

  /** A shut buffer is a jammed one. */
  lemma ShutIsJammed(es: seq<Event>, n: nat, number: nat)
    requires Shut(es, n)
    ensures Jammed(es, n, number)
  {
    forall more, record | Run(es + more).Some? && record in Run(es + more).value.wire && Key(record).2 >= n
      ensures !AfterPush(Run(es + more).value.buffer, record).1.Pushed?
    {
      RunKeeps(es + more);
      RecordLength(Run(es + more).value.sent, record);
    }
  }

  // ---------------------------------------------------------------- by stale fragments

  /** Stale fragments that leave no room for `n` bytes shut the buffer for good. */
  lemma StaleShut(es: seq<Event>, n: nat)
    requires Run(es).Some? && Full(Stale(Run(es).value.buffer), n)
    ensures Shut(es, n)
  {
    forall more, record | Run(es + more).Some? && |record| >= HEADERS + n
      ensures AfterPush(Run(es + more).value.buffer, record).1 == Overflow
    {
      assert (es + more)[..|es|] == es;
      StaleFragmentsStay(es + more, |es|);
      var b, b1 := Run(es).value.buffer, Run(es + more).value.buffer;
      LargerCache(Stale(b), Stale(b1));
      LargerCache(Stale(b1), b1.cache);
    }
  }

  // ---------------------------------------------------------------- what every run keeps

  lemma {:induction false} DrainRoomy(b: Buffer)
    requires Roomy(b.cache)
    ensures Roomy(Drain(b).0.cache)
    decreases |b.cache|
  {
    PopShrinks(b);
    if AfterPop(b).1.Some? {
      PopRoomy(b);
      DrainRoomy(AfterPop(b).0);
    }
  }

  lemma DeliverSettles(l: Link, record: seq<byte>)
    requires Invariant(l) && record in l.wire && Roomy(l.buffer.cache) && AfterPop(l.buffer).1.None?
    ensures var b := Receive(l.buffer, record).0; Roomy(b.cache) && AfterPop(b).1.None?
  {
    PushHonest(l.sent, l.buffer, record);
    var (b1, r) := AfterPush(l.buffer, record);
    if r.Pushed? {
      var h := DecodeHeader(record[RECORD_HEADER_SIZE..]).value;
      var f := Fragment(l.sent[h.messageSequence].epoch, h, record[RECORD_HEADER_SIZE + HANDSHAKE_HEADER_SIZE..]);
      CachedSize(l.buffer.cache, h.messageSequence, f);
      DrainRoomy(b1);
      assert InOrder(l.sent, b1, l.popped);
      DrainInOrder(l.sent, b1, l.popped);
    }
  }

  /** There is always room for an empty fragment, and nothing that could be popped waits. */
  lemma {:induction false} RunSettled(es: seq<Event>)
    requires Run(es).Some?
    ensures Roomy(Run(es).value.buffer.cache) && AfterPop(Run(es).value.buffer).1.None?
  {
    if es == [] {
      assert FirstAt([], 0) == 0;
    } else {
      var before, e := es[..|es| - 1], es[|es| - 1];
      RunSettled(before);
      RunKeeps(before);
      if e.Deliver? { DeliverSettles(Run(before).value, e.record); }
    }
  }

  // ---------------------------------------------------------------- what can still be released

  /** The buffer once every empty message that is outstanding has come, and all has been popped that then can be. */
  function Released(sent: seq<Message>, b: Buffer): (r: Buffer)
    requires b.current <= |sent| < MAX_MESSAGES
    ensures b.current <= r.current <= |sent|
    decreases |sent| - b.current
  {
    if b.current < |sent| && (sent[b.current].content == [] || AfterPop(b).1.Some?)
    then Released(sent, Buffer(b.cache - {b.current}, b.current + 1))
    else b
  }

  lemma {:induction false} ReleasedWithin(sent: seq<Message>, b: Buffer)
    requires b.current <= |sent| < MAX_MESSAGES
    ensures Within(Released(sent, b).cache, b.cache)
    decreases |sent| - b.current
  {
    if b.current < |sent| && (sent[b.current].content == [] || AfterPop(b).1.Some?) {
      ReleasedWithin(sent, Buffer(b.cache - {b.current}, b.current + 1));
    }
  }

  /** The two buffers hold the same of every message that is not empty. */
  predicate SameContents(sent: seq<Message>, m: Cache, m1: Cache) {
    forall k: uint16 :: k < |sent| && sent[k].content != [] ==> FragmentsOf(m, k) == FragmentsOf(m1, k)
  }

  /** More empty fragments release no more. */
  lemma {:induction false} ReleasedGrows(sent: seq<Message>, b: Buffer, b1: Buffer)
    requires b.current == b1.current <= |sent| < MAX_MESSAGES && Within(b.cache, b1.cache)
    requires SameContents(sent, b.cache, b1.cache)
    ensures Within(Released(sent, b).cache, Released(sent, b1).cache)
    decreases |sent| - b.current
  {
    if b.current < |sent| {
      var next, next1 := Buffer(b.cache - {b.current}, b.current + 1), Buffer(b1.cache - {b.current}, b.current + 1);
      if sent[b.current].content == [] {
        ReleasedGrows(sent, next, next1);
      } else {
        assert FragmentsOf(b.cache, b.current) == FragmentsOf(b1.cache, b.current);
        if AfterPop(b).1.Some? { ReleasedGrows(sent, next, next1); }
      }
    }
  }

  lemma PopReleased(sent: seq<Message>, b: Buffer, popped: seq<Popped>)
    requires InOrder(sent, b, popped) && AfterPop(b).1.Some?
    ensures var b1 := AfterPop(b).0;
            && b1.current == b.current + 1 <= |sent| && Released(sent, b) == Released(sent, b1)
            && InOrder(sent, b1, popped + [AfterPop(b).1.value])
            && |b1.cache| < |b.cache| && Drain(b).0 == Drain(b1).0
  {
    PopShrinks(b);
    PopInOrder(sent, b, popped);
    DrainOne(b, popped);
    assert b.current < |sent|;
  }

  /** What is popped was to be released. */
  lemma {:induction false} DrainReleased(sent: seq<Message>, b: Buffer, popped: seq<Popped>)
    requires InOrder(sent, b, popped)
    ensures Drain(b).0.current <= |sent| && Released(sent, Drain(b).0) == Released(sent, b)
    decreases |b.cache|
  {
    if AfterPop(b).1.Some? {
      PopReleased(sent, b, popped);
      DrainReleased(sent, AfterPop(b).0, popped + [AfterPop(b).1.value]);
    } else {
      DrainStops(b, popped);
    }
  }

  lemma {:induction false} SendReleased(sent: seq<Message>, m: Message, b: Buffer)
    requires b.current <= |sent| && |sent| + 1 < MAX_MESSAGES && HonestCache(sent, b.cache)
    ensures Released(sent + [m], b).cache == Released(sent, b).cache
    decreases |sent| - b.current
  {
    if b.current < |sent| {
      if sent[b.current].content == [] || AfterPop(b).1.Some? {
        SendReleased(sent, m, Buffer(b.cache - {b.current}, b.current + 1));
      }
    } else {
      assert b.current !in b.cache;
      assert b.cache - {b.current} == b.cache;
    }
  }

  /** Taking an empty fragment. */
  lemma TakesEmpty(l: Link, record: seq<byte>)
    requires Invariant(l) && record in l.wire && Key(record).2 == 0 && AfterPush(l.buffer, record).1.Pushed?
    ensures var b1 := AfterPush(l.buffer, record).0;
            && InOrder(l.sent, b1, l.popped) && Within(l.buffer.cache, b1.cache)
            && SameContents(l.sent, l.buffer.cache, b1.cache)
  {
    PushHonest(l.sent, l.buffer, record);
  }

  lemma StepReleased(l: Link, e: Event)
    requires Invariant(l) && Enabled(l, e)
    requires e.Deliver? && AfterPush(l.buffer, e.record).1.Pushed? ==> Key(e.record).2 == 0
    ensures var l1 := Apply(l, e);
            && l1.buffer.current <= |l1.sent| < MAX_MESSAGES
            && Within(Released(l.sent, l.buffer).cache, Released(l1.sent, l1.buffer).cache)
  {
    StepKeeps(l, e);
    match e
    case Send(m) => SendReleased(l.sent, m, l.buffer);
    case Transmit(_, _, _, _) =>
    case Deliver(record) =>
      PushHonest(l.sent, l.buffer, record);
      var (b1, r) := AfterPush(l.buffer, record);
      if r.Pushed? {
        TakesEmpty(l, record);
        ReleasedGrows(l.sent, l.buffer, b1);
        DrainReleased(l.sent, b1, l.popped);
      }
  }

  /** Nothing with a byte in it gets into a buffer that stays full whatever is released. */
  lemma FullRefuses(l: Link, e: Event)
    requires Invariant(l) && Enabled(l, e) && Full(Released(l.sent, l.buffer).cache, 1)
    ensures e.Deliver? && AfterPush(l.buffer, e.record).1.Pushed? ==> Key(e.record).2 == 0
  {
    if e.Deliver? {
      PushHonest(l.sent, l.buffer, e.record);
      RecordLength(l.sent, e.record);
      ReleasedWithin(l.sent, l.buffer);
      LargerCache(Released(l.sent, l.buffer).cache, l.buffer.cache);
    }
  }

  ghost predicate StaysFull(l: Link) {
    l.buffer.current <= |l.sent| < MAX_MESSAGES && Full(Released(l.sent, l.buffer).cache, 1)
  }

  lemma StepStaysFull(l: Link, e: Event)
    requires Invariant(l) && Enabled(l, e) && StaysFull(l)
    ensures StaysFull(Apply(l, e))
  {
    FullRefuses(l, e);
    StepReleased(l, e);
    var l1 := Apply(l, e);
    LargerCache(Released(l.sent, l.buffer).cache, Released(l1.sent, l1.buffer).cache);
  }

  lemma {:induction false} RunStaysFull(es: seq<Event>, n: nat)
    requires Run(es).Some? && n <= |es| && Run(es[..n]).Some? && StaysFull(Run(es[..n]).value)
    ensures StaysFull(Run(es).value)
    decreases |es|
  {
    if n < |es| {
      var before := es[..|es| - 1];
      assert before[..n] == es[..n];
      RunStaysFull(before, n);
      RunKeeps(before);
      StepStaysFull(Run(before).value, es[|es| - 1]);
    } else {
      assert es[..n] == es;
    }
  }

  lemma FullShuts(es: seq<Event>)
    requires Run(es).Some? && StaysFull(Run(es).value)
    ensures Shut(es, 1)
  {
    forall more, record | Run(es + more).Some? && |record| >= HEADERS + 1
      ensures AfterPush(Run(es + more).value.buffer, record).1 == Overflow
    {
      assert (es + more)[..|es|] == es;
      RunStaysFull(es + more, |es|);
      var l := Run(es + more).value;
      ReleasedWithin(l.sent, l.buffer);
      LargerCache(Released(l.sent, l.buffer).cache, l.buffer.cache);
    }
  }

  // ---------------------------------------------------------------- and otherwise a byte gets in

  /** Puts the first slice of a message on the wire. */
  lemma TransmitSlice(es: seq<Event>, i: nat, mtu: nat, number: Number) returns (record: seq<byte>)
    requires Run(es).Some? && i < |Run(es).value.sent| && mtu > 0
    ensures var l, m := Run(es).value, Run(es).value.sent[i];
            && Run(es + [Transmit(i, mtu, 0, number)]) == Some(l.(wire := l.wire + {record}))
            && HonestRecord(l.sent, record) && Key(record) == (i, 0, PieceLength(m, mtu, 0))
            && RecordNumber(record) == number
  {
    RunKeeps(es);
    var l := Run(es).value;
    var m := l.sent[i];
    SomeFragment(m, i, mtu);
    OneMoreEvent(es, Transmit(i, mtu, 0, number));
    TransmittedIsHonest(l.sent, i, mtu, 0, number);
    record := EncodeHandshakeRecord(m.epoch, number, Fragments(m, i, mtu)[0]);
    RecordRoundTrip(m.epoch, number, Fragments(m, i, mtu)[0]);
    NumberRoundTrip(m.epoch, number, Fragments(m, i, mtu)[0]);
  }

  /** The first fragment of any message starts at its beginning. */
  lemma SomeFragment(m: Message, i: uint16, mtu: nat)
    requires mtu > 0
    ensures |Fragments(m, i, mtu)| > 0 && StartsAt(Fragments(m, i, mtu)[0], 0)
  {
    if m.content == [] {
      var h := Header(m.typ, 0, i, 0, 0);
      HeaderRoundTrip(h, []);
      var empty: seq<seq<byte>> := [[]];
      assert Headed(m, i, empty[1..], 0) == [];
      assert Fragments(m, i, mtu) == [EncodeHeader(h) + []];
    } else {
      FirstOfFragments(m, i, mtu);
      FirstFragmentIsCut(m, i, mtu, 0);
    }
  }

  /** The empty message that is next has come. */
  lemma EmptyComes(l: Link, record: seq<byte>)
    requires Invariant(l) && record in l.wire && Roomy(l.buffer.cache) && l.buffer.current < |l.sent|
    requires l.sent[l.buffer.current].content == [] && Key(record) == (l.buffer.current, 0, 0)
    ensures var l1 := Apply(l, Deliver(record));
            && l.buffer.current < l1.buffer.current <= |l1.sent|
            && Released(l1.sent, l1.buffer) == Released(l.sent, l.buffer)
  {
    RecordLength(l.sent, record);
    PushHonest(l.sent, l.buffer, record);
    var b1 := AfterPush(l.buffer, record).0;
    TakesEmpty(l, record);
    EmptyReleased(l.sent, l.buffer, b1);
    EmptyPops(l.sent, b1);
    DrainReleased(l.sent, b1, l.popped);
    PopReleased(l.sent, b1, l.popped);
    DrainStale(l.sent, AfterPop(b1).0, l.popped + [AfterPop(b1).1.value]);
  }

  lemma EmptyReleased(sent: seq<Message>, b: Buffer, b1: Buffer)
    requires b.current == b1.current < |sent| < MAX_MESSAGES && sent[b.current].content == []
    requires b.cache - {b.current} == b1.cache - {b.current}
    ensures Released(sent, b) == Released(sent, b1)
  {
  }

  lemma EmptyPops(sent: seq<Message>, b: Buffer)
    requires b.current < |sent| && sent[b.current].content == [] && HonestCache(sent, b.cache) && b.current in b.cache
    ensures AfterPop(b).1.Some?
  {
    var frags := b.cache[b.current];
    assert frags[0] in frags;
    assert HonestFragment(sent[b.current], b.current, frags[0]);
    assert FirstAt(frags, 0) == 0;
  }

  /** The records arrive in the order of their numbers, which lie from `lo` to below `hi`. */
  predicate Rising(es: seq<Event>, lo: nat, hi: nat) {
    && (forall i :: 0 <= i < |es| && es[i].Deliver? ==>
          |es[i].record| >= RECORD_HEADER_SIZE && lo <= RecordNumber(es[i].record) < hi)
    && (forall i, j :: 0 <= i < j < |es| && es[i].Deliver? && es[j].Deliver? ==>
          RecordNumber(es[i].record) < RecordNumber(es[j].record))
  }

  lemma RisingBoth(a: seq<Event>, b: seq<Event>, lo: nat, mid: nat, hi: nat)
    requires lo <= mid <= hi && Rising(a, lo, mid) && Rising(b, mid, hi)
    ensures Rising(a + b, lo, hi)
  {
  }

  lemma RisingIsFresh(es: seq<Event>, lo: nat, hi: nat)
    requires Rising(es, lo, hi)
    ensures FreshFrom(es, lo)
  {
  }

  lemma RisingTwo(e: Event, record: seq<byte>, number: nat)
    requires !e.Deliver? && |record| >= RECORD_HEADER_SIZE && RecordNumber(record) == number
    ensures Rising([e, Deliver(record)], number, number + 1)
  {
  }

  /** The second run goes on from the first with the same messages sent, and with what can still be released the same. */
  ghost predicate ReleasesTo(es: seq<Event>, es1: seq<Event>) {
    && Run(es).Some? && Run(es1).Some?
    && var l, l1 := Run(es).value, Run(es1).value;
    && l1.sent == l.sent && l.buffer.current <= l1.buffer.current <= |l.sent| < MAX_MESSAGES
    && Released(l1.sent, l1.buffer) == Released(l.sent, l.buffer)
  }

  ghost predicate NextIsEmpty(l: Link) {
    l.buffer.current < |l.sent| < MAX_MESSAGES && l.sent[l.buffer.current].content == []
  }

  lemma ReleaseNext(es: seq<Event>, record: seq<byte>)
    requires Run(es).Some? && NextIsEmpty(Run(es).value) && record in Run(es).value.wire
    requires Key(record) == (Run(es).value.buffer.current, 0, 0)
    ensures ReleasesTo(es, es + [Deliver(record)])
    ensures Run(es).value.buffer.current < Run(es + [Deliver(record)]).value.buffer.current
  {
    RunKeeps(es);
    RunSettled(es);
    OneMoreEvent(es, Deliver(record));
    EmptyComes(Run(es).value, record);
  }

  /** So many messages are still to be popped. */
  ghost predicate ToPop(es: seq<Event>, left: nat) {
    Run(es).Some? && |Run(es).value.sent| < MAX_MESSAGES && Run(es).value.buffer.current + left == |Run(es).value.sent|
  }

  /** Delivers the empty message that is next. */
  lemma ReleaseOne(es: seq<Event>, number: Number, left: nat) returns (two: seq<Event>, fewer: nat)
    requires ToPop(es, left) && NextIsEmpty(Run(es).value)
    ensures ReleasesTo(es, es + two) && Rising(two, number, number + 1) && fewer < left && ToPop(es + two, fewer)
  {
    var i := Run(es).value.buffer.current;
    var record := TransmitSlice(es, i, 1, number);
    var es1 := es + [Transmit(i, 1, 0, number)];
    ReleaseNext(es1, record);
    two := [Transmit(i, 1, 0, number), Deliver(record)];
    assert es + two == es1 + [Deliver(record)];
    RisingTwo(Transmit(i, 1, 0, number), record, number);
    fewer := |Run(es).value.sent| - Run(es + two).value.buffer.current;
  }

  lemma ReleasesOn(es: seq<Event>, es1: seq<Event>, es2: seq<Event>)
    requires ReleasesTo(es, es1) && ReleasesTo(es1, es2)
    ensures ReleasesTo(es, es2)
  {
  }

  /** Delivers every empty message that is outstanding. */
  lemma {:induction false} ReleaseAll(es: seq<Event>, number: nat, left: nat) returns (more: seq<Event>, next: nat)
    requires ToPop(es, left) && number + left < 0x1_0000_0000_0000
    ensures ReleasesTo(es, es + more) && !NextIsEmpty(Run(es + more).value)
    ensures number <= next <= number + left && Rising(more, number, next)
    decreases left
  {
    if NextIsEmpty(Run(es).value) {
      var two, fewer := ReleaseOne(es, number, left);
      more, next := ReleaseAll(es + two, number + 1, fewer);
      assert es + two + more == es + (two + more);
      ReleasesOn(es, es + two, es + two + more);
      RisingBoth(two, more, number, number + 1, next);
      more := two + more;
    } else {
      more, next := [], number;
      assert es + more == es;
    }
  }

  /** Some message can carry `n` bytes: one that was sent, or one that still can be. */
  predicate CanCarry(l: Link, n: nat) {
    |l.sent| + 1 < MAX_MESSAGES || exists i :: 0 <= i < |l.sent| && |l.sent[i].content| >= n
  }

  /** After this run a record with `n` bytes is on the wire, and is taken. */
  ghost predicate Takes(es: seq<Event>, record: seq<byte>, n: nat, number: nat) {
    && Run(es).Some? && record in Run(es).value.wire && Key(record).2 == n && |record| == HEADERS + n
    && RecordNumber(record) == number && AfterPush(Run(es).value.buffer, record).1.Pushed?
  }

  lemma TakesIsNotJammed(es: seq<Event>, more: seq<Event>, record: seq<byte>, n: nat, number: nat, next: nat)
    requires number <= next && Rising(more, number, next) && Takes(es + more, record, n, next)
    ensures !Jammed(es, n, number) && !Shut(es, n)
  {
    RisingBoth(more, [Deliver(record)], number, next, next + 1);
    RisingIsFresh(more + [Deliver(record)], number, next + 1);
  }

  /** With room for `n` bytes, a record with that many gets in. */
  lemma GetsIn(es: seq<Event>, n: nat, number: Number) returns (more: seq<Event>, record: seq<byte>)
    requires Run(es).Some? && n > 0 && CanCarry(Run(es).value, n) && !Full(Run(es).value.buffer.cache, n)
    ensures Takes(es + more, record, n, number) && Rising(more, number, number)
  {
    var l := Run(es).value;
    var i := |l.sent|;
    more := [];
    if exists k :: 0 <= k < |l.sent| && |l.sent[k].content| >= n {
      i :| 0 <= i < |l.sent| && |l.sent[i].content| >= n;
    } else {
      var m: Message := RawMessage(CONTENT_TYPE_HANDSHAKE, 0, seq(n, _ => 0));
      OneMoreEvent(es, Send(m));
      more := [Send(m)];
    }
    var es1 := es + more;
    assert more == [] ==> es1 == es;
    record := TransmitSlice(es1, i, n, number);
    more := more + [Transmit(i, n, 0, number)];
    assert es + more == es1 + [Transmit(i, n, 0, number)];
    var l1 := Run(es + more).value;
    RecordLength(l1.sent, record);
    PushHonest(l1.sent, l1.buffer, record);
  }

  /** There are numbers from `number` on for every message and one more record. */
  predicate NumbersLeft(l: Link, number: nat) {
    number + |l.sent| + 1 < 0x1_0000_0000_0000
  }

  lemma ReleasedHasRoom(es: seq<Event>, es1: seq<Event>)
    requires ReleasesTo(es, es1) && !NextIsEmpty(Run(es1).value) && CanCarry(Run(es).value, 1)
    requires !Full(Released(Run(es).value.sent, Run(es).value.buffer).cache, 1)
    ensures CanCarry(Run(es1).value, 1) && !Full(Run(es1).value.buffer.cache, 1)
  {
    RunSettled(es1);
  }

  lemma NotFullGetsIn(es: seq<Event>, number: nat) returns (more: seq<Event>, record: seq<byte>, next: nat)
    requires Run(es).Some? && CanCarry(Run(es).value, 1) && NumbersLeft(Run(es).value, number)
    requires var l := Run(es).value;
             l.buffer.current <= |l.sent| < MAX_MESSAGES && !Full(Released(l.sent, l.buffer).cache, 1)
    ensures number <= next && Rising(more, number, next) && Takes(es + more, record, 1, next)
  {
    var first, further;
    first, next := ReleaseAll(es, number, |Run(es).value.sent| - Run(es).value.buffer.current);
    ReleasedHasRoom(es, es + first);
    further, record := GetsIn(es + first, 1, next);
    more := first + further;
    RisingBoth(first, further, number, next, next);
    TakesOn(es, first, further, record, 1, next);
  }

  lemma TakesOn(es: seq<Event>, a: seq<Event>, b: seq<Event>, record: seq<byte>, n: nat, number: nat)
    requires Takes(es + a + b, record, n, number)
    ensures Takes(es + (a + b), record, n, number)
  {
    assert es + a + b == es + (a + b);
  }

  /** In every run, whatever numbers are still fresh: the buffer never again takes a byte, and refuses every record long
      enough to carry one, exactly when it is full even of what is left once all empty messages have come. */
  lemma JammedIff(es: seq<Event>, number: nat)
    requires Run(es).Some? && CanCarry(Run(es).value, 1) && NumbersLeft(Run(es).value, number)
    ensures var l := Run(es).value;
            && l.buffer.current <= |l.sent| < MAX_MESSAGES
            && (Jammed(es, 1, number) <==> Full(Released(l.sent, l.buffer).cache, 1))
            && (Shut(es, 1) <==> Full(Released(l.sent, l.buffer).cache, 1))
            && (l.buffer.current == |l.sent| || l.sent[l.buffer.current].content != [] ==>
                  Released(l.sent, l.buffer) == l.buffer)
  {
    RunKeeps(es);
    RunSettled(es);
    var l := Run(es).value;
    if Full(Released(l.sent, l.buffer).cache, 1) {
      FullShuts(es);
      ShutIsJammed(es, 1, number);
    } else {
      var more, record, next := NotFullGetsIn(es, number);
      TakesIsNotJammed(es, more, record, 1, number, next);
    }
  }

  /** With everything popped that was sent, the same holds for fragments of any length. */
  lemma JammedAtRestIff(es: seq<Event>, n: nat, number: Number)
    requires Run(es).Some? && n > 0 && CanCarry(Run(es).value, n)
    requires |Run(es).value.popped| == |Run(es).value.sent|
    ensures Jammed(es, n, number) <==> Full(Run(es).value.buffer.cache, n)
    ensures Shut(es, n) <==> Full(Run(es).value.buffer.cache, n)
  {
    RunKeeps(es);
    var l := Run(es).value;
    if Full(l.buffer.cache, n) {
      assert Stale(l.buffer) == l.buffer.cache;
      StaleShut(es, n);
      ShutIsJammed(es, n, number);
    } else {
      var more, record := GetsIn(es, n, number);
      TakesIsNotJammed(es, more, record, n, number, number);
    }
  }

  // ---------------------------------------------------------------- a run that fills the buffer

  /** Datagrams are read into a buffer of this size. */
  const INBOUND_BUFFER_SIZE := 8192

  /** What the connection can receive: no number twice, and no record larger than a datagram. */
  predicate Receivable(es: seq<Event>) {
    NoReplay(es) && forall i :: 0 <= i < |es| && es[i].Deliver? ==> |es[i].record| <= INBOUND_BUFFER_SIZE
  }

  /** Received whole, the message is popped. */
  lemma ReceiveWhole(m: Message, mtu: nat, number: Number)
    requires 0 < |m.content| <= mtu && HEADERS + |m.content| < FRAGMENT_BUFFER_MAX_SIZE
    ensures var (b1, r, out) := Receive(Buffer(map[], 0), FirstRecord(m, mtu, number));
            r.Pushed? && |out| == 1 && b1 == Buffer(map[], 1)
  {
    var empty: Cache := map[];
    var b, f, record := Buffer(empty, 0), FirstSlice(m, mtu), FirstRecord(m, mtu, number);
    FirstRecordIs(m, mtu, number);
    assert CacheSize(empty) == 0;
    PushHonest([m], b, record);
    var b1 := AfterPush(b, record).0;
    assert FragmentsOf(empty, 0) + [f] == [f];
    assert b1 == Buffer(map[0 := [f]], 0);
    assert FirstAt([f], 0) == 0;
    assert b1.cache - {0} == empty;
    var b2 := AfterPop(b1).0;
    assert b2 == Buffer(empty, 1) && AfterPop(b1).1.Some?;
    assert FirstAt([], 0) == 0;
    DrainStops(b2, []);
    DrainOne(b1, []);
  }

  /** Received again, it stays. */
  lemma ReceiveStale(m: Message, mtu: nat, number: Number, b: Buffer)
    requires 0 < |m.content| <= mtu && b.current == 1 && 1 !in b.cache && !Full(b.cache, |m.content|)
    ensures var (b1, r, out) := Receive(b, FirstRecord(m, mtu, number));
            && r.Pushed? && out == [] && b1.current == 1 && 1 !in b1.cache
            && CacheSize(b1.cache) == CacheSize(b.cache) + |m.content|
  {
    var f, record := FirstSlice(m, mtu), FirstRecord(m, mtu, number);
    FirstRecordIs(m, mtu, number);
    PushHonest([m], b, record);
    var b1 := AfterPush(b, record).0;
    CachedSize(b.cache, 0, f);
    assert b1.cache == b.cache[0 := FragmentsOf(b.cache, 0) + [f]];
    assert FirstAt([], 0) == 0;
    DrainStops(b1, []);
  }

  /** The message was sent and popped, and copies of it are all that is held. */
  ghost predicate Refilled(l: Link, m: Message, bytes: nat) {
    && l.sent == [m] && |l.popped| == 1 && l.buffer.current == 1 && 1 !in l.buffer.cache
    && CacheSize(l.buffer.cache) == bytes
  }

  predicate AtMost(es: seq<Event>, size: nat) {
    forall i :: 0 <= i < |es| && es[i].Deliver? ==> |es[i].record| <= size
  }

  /** A run to that, of records of numbers below `number` that hold the whole message. */
  ghost predicate Holding(es: seq<Event>, m: Message, bytes: nat, number: nat) {
    Run(es).Some? && Refilled(Run(es).value, m, bytes) && Rising(es, 0, number) && AtMost(es, HEADERS + |m.content|)
  }

  lemma FirstArrives(es: seq<Event>, m: Message, mtu: nat)
    requires 0 < |m.content| <= mtu && HEADERS + |m.content| < FRAGMENT_BUFFER_MAX_SIZE
    requires Run(es) == Some(INITIAL.(sent := [m], wire := {FirstRecord(m, mtu, 0)}))
    ensures Run(es + [Deliver(FirstRecord(m, mtu, 0))]).Some?
    ensures Refilled(Run(es + [Deliver(FirstRecord(m, mtu, 0))]).value, m, 0)
  {
    ReceiveWhole(m, mtu, 0);
    OneMoreEvent(es, Deliver(FirstRecord(m, mtu, 0)));
  }

  lemma FirstOnWire(m: Message, mtu: nat) returns (es: seq<Event>)
    requires 0 < |m.content| <= mtu
    ensures Run(es) == Some(INITIAL.(sent := [m], wire := {FirstRecord(m, mtu, 0)}))
    ensures forall i :: 0 <= i < |es| ==> !es[i].Deliver?
  {
    SendOne(m);
    TransmitFirst([Send(m)], m, mtu, 0);
    es := [Send(m)] + [Transmit(0, mtu, 0, 0)];
    assert {} + {FirstRecord(m, mtu, 0)} == {FirstRecord(m, mtu, 0)};
  }

  lemma OneDelivery(es: seq<Event>, record: seq<byte>, number: nat)
    requires forall i :: 0 <= i < |es| ==> !es[i].Deliver?
    requires |record| >= RECORD_HEADER_SIZE && RecordNumber(record) == number
    ensures Rising(es + [Deliver(record)], number, number + 1) && AtMost(es + [Deliver(record)], |record|)
  {
  }

  lemma FirstCopy(m: Message) returns (es: seq<Event>)
    requires 0 < |m.content| && HEADERS + |m.content| < FRAGMENT_BUFFER_MAX_SIZE
    ensures Holding(es, m, 0, 1)
  {
    var mtu := |m.content|;
    var record := FirstRecord(m, mtu, 0);
    FirstRecordIs(m, mtu, 0);
    es := FirstOnWire(m, mtu);
    FirstArrives(es, m, mtu);
    OneDelivery(es, record, 0);
    es := es + [Deliver(record)];
  }

  lemma CopyArrives(es: seq<Event>, m: Message, mtu: nat, bytes: nat, number: Number)
    requires Run(es).Some? && Refilled(Run(es).value, m, bytes) && 0 < |m.content| <= mtu
    requires FirstRecord(m, mtu, number) in Run(es).value.wire
    requires HEADERS + |m.content| + bytes < FRAGMENT_BUFFER_MAX_SIZE
    ensures Run(es + [Deliver(FirstRecord(m, mtu, number))]).Some?
    ensures Refilled(Run(es + [Deliver(FirstRecord(m, mtu, number))]).value, m, bytes + |m.content|)
  {
    ReceiveStale(m, mtu, number, Run(es).value.buffer);
    OneMoreEvent(es, Deliver(FirstRecord(m, mtu, number)));
  }

  lemma OneMoreCopy(es: seq<Event>, m: Message, bytes: nat, number: Number) returns (es1: seq<Event>)
    requires Holding(es, m, bytes, number) && 0 < |m.content|
    requires HEADERS + |m.content| + bytes < FRAGMENT_BUFFER_MAX_SIZE
    ensures Holding(es1, m, bytes + |m.content|, number + 1)
  {
    var mtu := |m.content|;
    var e, record := Transmit(0, mtu, 0, number), FirstRecord(m, mtu, number);
    FirstRecordIs(m, mtu, number);
    TransmitFirst(es, m, mtu, number);
    CopyArrives(es + [e], m, mtu, bytes, number);
    es1 := es + [e] + [Deliver(record)];
    assert es1 == es + [e, Deliver(record)];
    RisingTwo(e, record, number);
    RisingBoth(es, [e, Deliver(record)], 0, number, number + 1);
  }

  /** The bytes of `k` copies. */
  function Bytes(k: nat, n: nat): nat {
    if k == 0 then 0 else Bytes(k - 1, n) + n
  }

  lemma {:induction false} BytesAre(k: nat, n: nat)
    ensures Bytes(k, n) == k * n
  {
    if k > 0 { BytesAre(k - 1, n); }
  }

  /** The message arrives once and is popped, and then `k` times more, each time in a new record. */
  lemma {:induction false} Copies(m: Message, k: nat) returns (es: seq<Event>)
    requires 0 < |m.content| && HEADERS + |m.content| < FRAGMENT_BUFFER_MAX_SIZE
    requires HEADERS + Bytes(k, |m.content|) < FRAGMENT_BUFFER_MAX_SIZE && k < FRAGMENT_BUFFER_MAX_SIZE
    ensures Holding(es, m, Bytes(k, |m.content|), k + 1)
  {
    if k == 0 {
      es := FirstCopy(m);
    } else {
      es := Copies(m, k - 1);
      es := OneMoreCopy(es, m, Bytes(k - 1, |m.content|), k);
    }
  }

  /** The message was popped, and the buffer refuses every record with `n` bytes or more from then on. */
  ghost predicate PoppedAndShut(es: seq<Event>, m: Message, n: nat) {
    Run(es).Some? && Receivable(es) && Run(es).value.sent == [m] && |Run(es).value.popped| == 1 && Shut(es, n)
  }

  lemma HoldingShuts(es: seq<Event>, m: Message, bytes: nat, number: nat, n: nat)
    requires Holding(es, m, bytes, number) && HEADERS + n + bytes >= FRAGMENT_BUFFER_MAX_SIZE
    requires HEADERS + |m.content| <= INBOUND_BUFFER_SIZE
    ensures PoppedAndShut(es, m, n)
  {
    RunKeeps(es);
    var b := Run(es).value.buffer;
    assert Stale(b) == b.cache;
    StaleShut(es, n);
    RisingIsFresh(es, 0, number);
  }

  lemma Largest(largest: nat, n: nat) returns (k: nat)
    requires n > 0
    ensures k <= k * n <= largest < k * n + n
  {
    k := largest / n;
  }

  /** Any message that fits into a datagram will do: it arrives and is popped, and enough copies of it, each in a record of
      its own, leave a buffer that refuses every record of that length from then on. */
  lemma RetransmissionsFillTheBuffer(m: Message) returns (es: seq<Event>)
    requires 0 < |m.content| <= INBOUND_BUFFER_SIZE - HEADERS
    ensures PoppedAndShut(es, m, |m.content|)
  {
    var k := Largest(FRAGMENT_BUFFER_MAX_SIZE - 1 - HEADERS, |m.content|);
    BytesAre(k, |m.content|);
    es := Copies(m, k);
    HoldingShuts(es, m, k * |m.content|, k + 1, |m.content|);
  }

  /** And 257 copies of one of 7782 bytes leave one that refuses everything with a byte in it. */
  lemma RetransmissionsJamTheBuffer(m: Message) returns (es: seq<Event>)
    requires |m.content| == 7782
    ensures PoppedAndShut(es, m, 1)
  {
    BytesAre(257, 7782);
    es := Copies(m, 257);
    HoldingShuts(es, m, 257 * 7782, 258, 1);
  }
}
