/** Which fragment sizes can be mixed: the receiver follows the first fragment at each offset, so a slice that ends where
    no other begins can hide a message that it holds in full. */
module MixedSizes {
  import opened Bits
  import opened Wire
  import opened Reassembly
  import opened Fragmentation
  import opened Delivery
  import opened Completeness

  // ---------------------------------------------------------------- lists of fragments

  predicate SomeCuts(m: Message, i: nat, mtus: set<nat>, frags: seq<Fragment>)
    requires 0 !in mtus
  {
    forall f :: f in frags ==> HonestFragment(m, i, f) && SomeCut(m, mtus, f.header)
  }

  /** Whatever such fragments are held, in whatever order: all that one of the mtus cuts is enough. */
  ghost predicate AlwaysAssembles(m: Message, i: nat, mtus: set<nat>)
    requires 0 !in mtus
  {
    forall frags, mtu :: mtu in mtus && SomeCuts(m, i, mtus, frags) && Covered(m, mtu, frags, 0) ==>
      Assemble(frags, 0).Some?
  }

  /** What the sender's fragments become at the receiver. */
  function Parsed(m: Message, i: uint16, mtu: nat): (frags: seq<Fragment>)
    requires mtu > 0
    ensures forall f :: f in frags ==> CutFragment(m, i, mtu, f)
    ensures Covered(m, mtu, frags, 0)
  {
    FragmentsAreTheCuts(m, i, mtu);
    var bodies := Fragments(m, i, mtu);
    assert forall k :: 0 <= k < |bodies| ==> bodies[k] in bodies;
    var frags := seq(|bodies|, k requires 0 <= k < |bodies| => ParsedOne(m.epoch, bodies[k]));
    ParsedCovers(m, mtu, bodies, frags);
    frags
  }

  function ParsedOne(epoch: uint16, body: seq<byte>): Fragment
    requires |body| >= HANDSHAKE_HEADER_SIZE
  {
    Fragment(epoch, DecodeHeader(body).value, body[HANDSHAKE_HEADER_SIZE..])
  }

  lemma ParsedCovers(m: Message, mtu: nat, bodies: seq<seq<byte>>, frags: seq<Fragment>)
    requires mtu > 0 && |frags| == |bodies|
    requires forall k :: 0 <= k < |bodies| ==>
               |bodies[k]| >= HANDSHAKE_HEADER_SIZE && frags[k] == ParsedOne(m.epoch, bodies[k]) && IsPiece(m, mtu, frags[k].header)
    requires forall o :: CutAt(m, mtu, o) ==> exists f :: f in bodies && StartsAt(f, o)
    ensures Covered(m, mtu, frags, 0)
  {
    forall o: nat | CutAt(m, mtu, o) ensures HasPiece(frags, o, PieceLength(m, mtu, o)) {
      var body :| body in bodies && StartsAt(body, o);
      var k :| 0 <= k < |bodies| && bodies[k] == body;
      assert frags[k] in frags;
    }
  }

  /** The first slice of a smaller mtu leads to an offset at which the larger one cuts nothing. */
  lemma SmallerFirstGetsStuck(m: Message, i: nat, a: nat, b: nat, first: Fragment, rest: seq<Fragment>)
    requires 0 < a < b && a < |m.content|
    requires CutFragment(m, i, a, first) && first.header.fragmentOffset == 0
    requires forall f :: f in rest ==> CutFragment(m, i, b, f)
    ensures Assemble([first] + rest, 0) == None
  {
    var frags := [first] + rest;
    assert FirstAt(frags, 0) == 0;
    assert !OnGrid(a, b);
    forall k | 0 <= k < |frags| ensures frags[k].header.fragmentOffset != a {
      assert frags[k] in frags;
    }
    assert FirstAt(frags, a) == |frags|;
  }

  lemma CutsToo(m: Message, i: nat, mtus: set<nat>, mtu: nat, frags: seq<Fragment>)
    requires 0 !in mtus && mtu in mtus && forall f :: f in frags ==> CutFragment(m, i, mtu, f)
    ensures SomeCuts(m, i, mtus, frags)
  {
  }

  lemma MoreIsCovered(m: Message, mtu: nat, first: Fragment, rest: seq<Fragment>)
    requires mtu > 0 && Covered(m, mtu, rest, 0)
    ensures Covered(m, mtu, [first] + rest, 0)
  {
    forall o: nat | CutAt(m, mtu, o) ensures HasPiece([first] + rest, o, PieceLength(m, mtu, o)) {
      assert HasPiece(rest, o, PieceLength(m, mtu, o));
      var f :| f in rest && f.header.fragmentOffset == o && f.header.fragmentLength == PieceLength(m, mtu, o);
      assert f in [first] + rest;
    }
  }

  /** For any two mtus, of which the smaller does not take the message whole. */
  lemma TwoSizesGetStuck(m: Message, i: uint16, mtus: set<nat>, a: nat, b: nat)
    requires 0 !in mtus && a in mtus && b in mtus && a < b && a < |m.content|
    ensures !AlwaysAssembles(m, i, mtus)
  {
    var small, rest := Parsed(m, i, a), Parsed(m, i, b);
    assert HasPiece(small, 0, PieceLength(m, a, 0)) by { assert CutAt(m, a, 0); }
    var first :| first in small && first.header.fragmentOffset == 0 && first.header.fragmentLength == PieceLength(m, a, 0);
    SmallerFirstGetsStuck(m, i, a, b, first, rest);
    MoreIsCovered(m, b, first, rest);
    CutsToo(m, i, mtus, b, rest);
    assert SomeCut(m, mtus, first.header);
    assert SomeCuts(m, i, mtus, [first] + rest);
  }

  lemma OneSizeOrWhole(m: Message, i: nat, mtus: set<nat>, mtu: nat, frags: seq<Fragment>)
    requires 0 !in mtus && mtu in mtus && SomeCuts(m, i, mtus, frags) && Covered(m, mtu, frags, 0)
    requires forall a, b :: a in mtus && b in mtus && a < b ==> |m.content| <= a
    ensures Assemble(frags, 0).Some?
  {
    forall f | f in frags ensures IsPiece(m, mtu, f.header) || ReachesEnd(m, f) {
      var d :| d in mtus && IsPiece(m, d, f.header);
      assert d < mtu || mtu < d || d == mtu;
    }
    assert CutAt(m, mtu, 0);
    AssembleWhenCovered(m, i, mtu, frags, 0);
  }

  /** Mixing the mtus is harmless for a message exactly when there is one, or the message fits into the smaller of any
      two. */
  lemma AssemblesIff(m: Message, i: uint16, mtus: set<nat>)
    requires 0 !in mtus
    ensures AlwaysAssembles(m, i, mtus) <==> forall a, b :: a in mtus && b in mtus && a < b ==> |m.content| <= a
  {
    if forall a, b :: a in mtus && b in mtus && a < b ==> |m.content| <= a {
      forall frags, mtu | mtu in mtus && SomeCuts(m, i, mtus, frags) && Covered(m, mtu, frags, 0)
        ensures Assemble(frags, 0).Some?
      {
        OneSizeOrWhole(m, i, mtus, mtu, frags);
      }
    } else {
      var a, b :| a in mtus && b in mtus && a < b && a < |m.content|;
      TwoSizesGetStuck(m, i, mtus, a, b);
    }
  }

  // ---------------------------------------------------------------- runs

  ghost predicate AcceptedBySome(l: Link, i: nat, mtus: set<nat>)
    requires 0 !in mtus && i < |l.sent|
  {
    exists mtu :: mtu in mtus && AllAccepted(l.sent[i], i, mtu, l.accepted)
  }

  /** If of each of the first `k` messages all fragments of some mtu have been accepted, then those have been popped. */
  ghost predicate PopsWhenAccepted(l: Link, mtus: set<nat>, k: nat)
    requires 0 !in mtus
  {
    k <= |l.sent| && (forall i :: 0 <= i < k ==> AcceptedBySome(l, i, mtus)) ==> k <= |l.popped|
  }

  predicate UpTo(sent: seq<Message>, n: nat) {
    forall i :: 0 <= i < |sent| ==> |sent[i].content| <= n
  }

  /** In every run with these mtus and messages of at most `n` bytes. */
  ghost predicate AlwaysPops(mtus: set<nat>, n: nat)
    requires 0 !in mtus
  {
    forall es, k: nat :: Run(es).Some? && MtusIn(es, mtus) && UpTo(Run(es).value.sent, n) ==>
      PopsWhenAccepted(Run(es).value, mtus, k)
  }

  /** Two slices of which the smaller has `a` bytes and does not reach the end do not fit into the buffer together. */
  predicate DoNotFit(a: nat) {
    RECORD_HEADER_SIZE + HANDSHAKE_HEADER_SIZE + 2 * a + 1 >= FRAGMENT_BUFFER_MAX_SIZE
  }

  predicate Mixable(mtus: set<nat>, n: nat) {
    forall a, b :: a in mtus && b in mtus && a < b ==> n <= a || DoNotFit(a)
  }

  lemma {:induction false} OneInBytes(frags: seq<Fragment>, f: Fragment)
    requires f in frags
    ensures FragmentBytes(frags) >= |f.data|
  {
    var n := |frags| - 1;
    if f != frags[n] { OneInBytes(frags[..n], f); }
  }

  lemma {:induction false} TwoInBytes(frags: seq<Fragment>, f: Fragment, g: Fragment)
    requires f in frags && g in frags && f != g
    ensures FragmentBytes(frags) >= |f.data| + |g.data|
  {
    var n := |frags| - 1;
    if f == frags[n] {
      OneInBytes(frags[..n], g);
    } else if g == frags[n] {
      OneInBytes(frags[..n], f);
    } else {
      TwoInBytes(frags[..n], f, g);
    }
  }

  /** A slice of another size that does not reach the end takes its room beside the first slice of this size. */
  lemma BothFit(m: Message, i: uint16, d: nat, mtu: nat, cache: Cache, f: Fragment)
    requires 0 < mtu && 0 < d && d != mtu && Roomy(cache) && i in cache && f in cache[i]
    requires CutFragment(m, i, d, f) && !ReachesEnd(m, f)
    requires Covered(m, mtu, cache[i], 0) && forall g :: g in cache[i] ==> HonestFragment(m, i, g)
    ensures var a := if d < mtu then d else mtu; a < |m.content| && !DoNotFit(a)
  {
    assert CutAt(m, mtu, 0);
    assert HasPiece(cache[i], 0, PieceLength(m, mtu, 0));
    var g :| g in cache[i] && g.header.fragmentOffset == 0 && g.header.fragmentLength == PieceLength(m, mtu, 0);
    CacheSizeSplit(cache, i);
    assert |f.data| == d && |g.data| == PieceLength(m, mtu, 0);
    TwoInBytes(cache[i], f, g);
  }

  lemma OthersReachEnd(m: Message, i: uint16, mtus: set<nat>, mtu: nat, cache: Cache, f: Fragment)
    requires 0 !in mtus && mtu in mtus && Mixable(mtus, |m.content|) && Roomy(cache) && i in cache
    requires SomeCuts(m, i, mtus, cache[i]) && Covered(m, mtu, cache[i], 0) && f in cache[i]
    ensures IsPiece(m, mtu, f.header) || ReachesEnd(m, f)
  {
    var d :| d in mtus && IsPiece(m, d, f.header);
    if d != mtu && !ReachesEnd(m, f) { BothFit(m, i, d, mtu, cache, f); }
  }

  lemma MixableAssembles(m: Message, i: uint16, mtus: set<nat>, mtu: nat, cache: Cache)
    requires 0 !in mtus && mtu in mtus && Mixable(mtus, |m.content|) && Roomy(cache)
    requires SomeCuts(m, i, mtus, FragmentsOf(cache, i)) && Covered(m, mtu, FragmentsOf(cache, i), 0)
    ensures Assemble(FragmentsOf(cache, i), 0).Some?
  {
    var frags := FragmentsOf(cache, i);
    assert CutAt(m, mtu, 0);
    forall f | f in frags ensures IsPiece(m, mtu, f.header) || ReachesEnd(m, f) {
      OthersReachEnd(m, i, mtus, mtu, cache, f);
    }
    AssembleWhenCovered(m, i, mtu, frags, 0);
  }

  lemma HeldAreCuts(l: Link, mtus: set<nat>, i: uint16)
    requires 0 !in mtus && Complete(l, mtus) && i < |l.sent|
    ensures SomeCuts(l.sent[i], i, mtus, FragmentsOf(l.buffer.cache, i))
  {
  }

  lemma NextIsNotAccepted(l: Link, mtus: set<nat>, n: nat)
    requires 0 !in mtus && Mixable(mtus, n) && Complete(l, mtus) && UpTo(l.sent, n) && |l.popped| < |l.sent|
    ensures !AcceptedBySome(l, |l.popped|, mtus)
  {
    var i := |l.popped|;
    if AcceptedBySome(l, i, mtus) {
      var mtu :| mtu in mtus && AllAccepted(l.sent[i], i, mtu, l.accepted);
      AcceptedIsCovered(l.sent[i], i, mtu, l.buffer, l.accepted);
      HeldAreCuts(l, mtus, i);
      MixableAssembles(l.sent[i], i, mtus, mtu, l.buffer.cache);
    }
  }

  lemma MixablePops(es: seq<Event>, mtus: set<nat>, n: nat, k: nat)
    requires 0 !in mtus && Mixable(mtus, n) && Run(es).Some? && MtusIn(es, mtus) && UpTo(Run(es).value.sent, n)
    ensures PopsWhenAccepted(Run(es).value, mtus, k)
  {
    RunComplete(es, mtus);
    var l := Run(es).value;
    if |l.popped| < k <= |l.sent| { NextIsNotAccepted(l, mtus, n); }
  }

  // ---------------------------------------------------------------- a run that gets stuck

  lemma OneMoreEvent(es: seq<Event>, e: Event)
    requires Run(es).Some? && Enabled(Run(es).value, e)
    ensures Run(es + [e]) == Some(Apply(Run(es).value, e))
  {
    assert (es + [e])[..|es|] == es;
  }

  lemma FirstOfFragments(m: Message, i: uint16, mtu: nat)
    requires mtu > 0 && m.content != []
    ensures |Fragments(m, i, mtu)| > 0 && Fragments(m, i, mtu)[0] == FirstFragment(m, i, mtu, 0)
  {
    assert m.content[0..] == m.content;
    HeadedFrom(m, i, mtu, 0);
  }

  type Number = n: nat | n < 0x1_0000_0000_0000

  /** The record of this number with the first slice of the first message. */
  function FirstRecord(m: Message, mtu: nat, number: Number): seq<byte>
    requires mtu > 0 && m.content != []
  {
    EncodeHandshakeRecord(m.epoch, number, FirstFragment(m, 0, mtu, 0))
  }

  lemma FirstRecordIs(m: Message, mtu: nat, number: Number)
    requires mtu > 0 && m.content != []
    ensures var n, record := PieceLength(m, mtu, 0), FirstRecord(m, mtu, number);
            && |record| == RECORD_HEADER_SIZE + HANDSHAKE_HEADER_SIZE + n
            && HonestRecord([m], record) && Key(record) == (0, 0, n) && RecordNumber(record) == number
            && DecodeHeader(record[RECORD_HEADER_SIZE..]).value == Header(m.typ, |m.content|, 0, 0, n)
            && record[RECORD_HEADER_SIZE + HANDSHAKE_HEADER_SIZE..] == m.content[..n]
  {
    var n := PieceLength(m, mtu, 0);
    var body := FirstFragment(m, 0, mtu, 0);
    RecordRoundTrip(m.epoch, number, body);
    NumberRoundTrip(m.epoch, number, body);
    HeaderRoundTrip(Header(m.typ, |m.content|, 0, 0, n), m.content[0..n]);
    assert FirstRecord(m, mtu, number)[RECORD_HEADER_SIZE..][HANDSHAKE_HEADER_SIZE..] == m.content[..n];
  }

  /** No two records that arrive have one number: none of them is a replay. */
  predicate NoReplay(es: seq<Event>) {
    && (forall i :: 0 <= i < |es| && es[i].Deliver? ==> |es[i].record| >= RECORD_HEADER_SIZE)
    && (forall i, j :: 0 <= i < j < |es| && es[i].Deliver? && es[j].Deliver? ==>
          RecordNumber(es[i].record) != RecordNumber(es[j].record))
  }

  lemma SendOne(m: Message)
    ensures Run([Send(m)]) == Some(INITIAL.(sent := [m]))
  {
    OneMoreEvent([], Send(m));
    assert [] + [Send(m)] == [Send(m)];
    assert INITIAL.sent + [m] == [m];
  }

  lemma TransmitFirst(es: seq<Event>, m: Message, mtu: nat, number: Number)
    requires mtu > 0 && m.content != [] && Run(es).Some? && Run(es).value.sent == [m]
    ensures var l := Run(es).value;
            Run(es + [Transmit(0, mtu, 0, number)]) == Some(l.(wire := l.wire + {FirstRecord(m, mtu, number)}))
  {
    FirstOfFragments(m, 0, mtu);
    OneMoreEvent(es, Transmit(0, mtu, 0, number));
  }

  /** Sends the message and puts its first slice on the wire with both mtus. */
  lemma OnTheWire(m: Message, a: nat, b: nat) returns (es: seq<Event>)
    requires a > 0 && b > 0 && m.content != []
    ensures Run(es) == Some(INITIAL.(sent := [m], wire := {FirstRecord(m, a, 0), FirstRecord(m, b, 1)}))
    ensures MtusIn(es, {a, b}) && forall e :: e in es ==> !e.Deliver?
  {
    es := [Send(m)];
    SendOne(m);
    TransmitFirst(es, m, a, 0);
    TransmitFirst(es + [Transmit(0, a, 0, 0)], m, b, 1);
    es := es + [Transmit(0, a, 0, 0)] + [Transmit(0, b, 0, 1)];
    assert {} + {FirstRecord(m, a, 0)} + {FirstRecord(m, b, 1)} == {FirstRecord(m, a, 0), FirstRecord(m, b, 1)};
  }

  function FirstSlice(m: Message, mtu: nat): Fragment {
    var n := PieceLength(m, mtu, 0);
    Fragment(m.epoch, Header(m.typ, |m.content|, 0, 0, n), m.content[..n])
  }

  /** Receiving it while the slices held do not make up the message. */
  lemma ReceiveFirst(m: Message, mtu: nat, number: Number, b: Buffer)
    requires mtu > 0 && m.content != [] && b.current == 0
    requires CacheSize(b.cache) + |FirstRecord(m, mtu, number)| < FRAGMENT_BUFFER_MAX_SIZE
    requires Assemble(FragmentsOf(b.cache, 0) + [FirstSlice(m, mtu)], 0) == None
    ensures var (b1, r, out) := Receive(b, FirstRecord(m, mtu, number));
            && r.Pushed? && out == []
            && b1 == b.(cache := b.cache[0 := FragmentsOf(b.cache, 0) + [FirstSlice(m, mtu)]])
            && CacheSize(b1.cache) == CacheSize(b.cache) + PieceLength(m, mtu, 0)
  {
    FirstRecordIs(m, mtu, number);
    PushHonest([m], b, FirstRecord(m, mtu, number));
    var b1 := AfterPush(b, FirstRecord(m, mtu, number)).0;
    assert b1 == b.(cache := b.cache[0 := FragmentsOf(b.cache, 0) + [FirstSlice(m, mtu)]]);
    CachedSize(b.cache, 0, FirstSlice(m, mtu));
    assert AfterPop(b1).1.None?;
    DrainStops(b1, []);
  }

  lemma DeliverFirst(es: seq<Event>, m: Message, mtu: nat, number: Number)
    requires mtu > 0 && m.content != [] && Run(es).Some?
    requires var l := Run(es).value;
             && l.buffer.current == 0 && FirstRecord(m, mtu, number) in l.wire
             && CacheSize(l.buffer.cache) + |FirstRecord(m, mtu, number)| < FRAGMENT_BUFFER_MAX_SIZE
             && Assemble(FragmentsOf(l.buffer.cache, 0) + [FirstSlice(m, mtu)], 0) == None
    ensures var l := Run(es).value;
            var cache := l.buffer.cache[0 := FragmentsOf(l.buffer.cache, 0) + [FirstSlice(m, mtu)]];
            && CacheSize(cache) == CacheSize(l.buffer.cache) + PieceLength(m, mtu, 0)
            && Run(es + [Deliver(FirstRecord(m, mtu, number))]) ==
               Some(l.(buffer := Buffer(cache, 0), accepted := l.accepted + {(0, 0, PieceLength(m, mtu, 0))}))
  {
    var l := Run(es).value;
    ReceiveFirst(m, mtu, number, l.buffer);
    FirstRecordIs(m, mtu, number);
    OneMoreEvent(es, Deliver(FirstRecord(m, mtu, number)));
    assert l.popped + [] == l.popped;
  }

  /** The smaller slice comes first and the message whole comes second: every byte is there, and nothing is popped. */
  lemma StuckRun(m: Message, a: nat, b: nat) returns (es: seq<Event>)
    requires 0 < a < b && |m.content| == a + 1 && !DoNotFit(a)
    ensures Run(es).Some? && MtusIn(es, {a, b}) && NoReplay(es)
    ensures var l := Run(es).value; l.sent == [m] && AllAccepted(m, 0, b, l.accepted) && l.popped == []
  {
    es := SmallerComesFirst(m, a, b);
    FirstRecordIs(m, a, 0);
    FirstRecordIs(m, b, 1);
    BothStuck(m, a, b);
    assert FragmentsOf(Run(es).value.buffer.cache, 0) + [FirstSlice(m, b)] == [FirstSlice(m, a), FirstSlice(m, b)];
    DeliverFirst(es, m, b, 1);
    es := es + [Deliver(FirstRecord(m, b, 1))];
    WholeIsAll(m, b, Run(es).value.accepted);
  }

  lemma WholeIsAll(m: Message, mtu: nat, accepted: set<(nat, nat, nat)>)
    requires 0 < |m.content| <= mtu && (0, 0, |m.content|) in accepted
    ensures AllAccepted(m, 0, mtu, accepted)
  {
    forall o: nat | CutAt(m, mtu, o) ensures o == 0 {}
  }

  /** Only the smaller slice has come. */
  lemma SmallerComesFirst(m: Message, a: nat, b: nat) returns (es: seq<Event>)
    requires 0 < a < b && |m.content| == a + 1 && !DoNotFit(a)
    ensures MtusIn(es, {a, b}) && Run(es).Some?
    ensures forall i :: 0 <= i < |es| && es[i].Deliver? ==> i == |es| - 1 && es[i].record == FirstRecord(m, a, 0)
    ensures var l := Run(es).value;
            && l.sent == [m] && FirstRecord(m, b, 1) in l.wire && l.popped == []
            && l.buffer == Buffer(map[0 := [FirstSlice(m, a)]], 0) && CacheSize(l.buffer.cache) == a
  {
    es := OnTheWire(m, a, b);
    FirstRecordIs(m, a, 0);
    BothStuck(m, a, b);
    var cache := Run(es).value.buffer.cache;
    assert CacheSize(cache) == 0 && FragmentsOf(cache, 0) + [FirstSlice(m, a)] == [FirstSlice(m, a)];
    DeliverFirst(es, m, a, 0);
    es := es + [Deliver(FirstRecord(m, a, 0))];
  }

  lemma BothStuck(m: Message, a: nat, b: nat)
    requires 0 < a < b && |m.content| == a + 1
    ensures Assemble([FirstSlice(m, a)], 0) == None
    ensures Assemble([FirstSlice(m, a), FirstSlice(m, b)], 0) == None
  {
    var small, large := FirstSlice(m, a), FirstSlice(m, b);
    assert CutFragment(m, 0, a, small) && CutFragment(m, 0, b, large);
    SmallerFirstGetsStuck(m, 0, a, b, small, []);
    assert [small] + [] == [small];
    SmallerFirstGetsStuck(m, 0, a, b, small, [large]);
  }

  lemma NotMixable(mtus: set<nat>, n: nat, a: nat, b: nat)
    requires 0 !in mtus && a in mtus && b in mtus && a < b && a < n && !DoNotFit(a)
    ensures !AlwaysPops(mtus, n)
  {
    var m := RawMessage(CONTENT_TYPE_HANDSHAKE, 0, seq(a + 1, _ => 0));
    var es := StuckRun(m, a, b);
    var l := Run(es).value;
    assert AcceptedBySome(l, 0, mtus);
    assert !PopsWhenAccepted(l, mtus, 1);
  }

  /** In every run with these mtus and messages of at most `n` bytes, all fragments of one size are enough to pop a
      message, exactly when of any two mtus the smaller takes every message whole, or is so large that slices of both
      do not fit into the buffer. */
  lemma PopsIff(mtus: set<nat>, n: nat)
    requires 0 !in mtus
    ensures AlwaysPops(mtus, n) <==> Mixable(mtus, n)
  {
    if Mixable(mtus, n) {
      forall es, k: nat | Run(es).Some? && MtusIn(es, mtus) && UpTo(Run(es).value.sent, n)
        ensures PopsWhenAccepted(Run(es).value, mtus, k)
      {
        MixablePops(es, mtus, n, k);
      }
    } else {
      var a, b :| a in mtus && b in mtus && a < b && !(n <= a || DoNotFit(a));
      NotMixable(mtus, n, a, b);
    }
  }
}
