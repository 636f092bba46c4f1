/** With one mtu the receiver pops a message as soon as all its fragments have been accepted, and not before. */
module Completeness {
  import opened Bits
  import opened Wire
  import opened Reassembly
  import opened Fragmentation
  import opened Delivery

  predicate HasPiece(frags: seq<Fragment>, offset: nat, length: nat) {
    exists f :: f in frags && f.header.fragmentOffset == offset && f.header.fragmentLength == length
  }

  /** All that this mtu cuts from `target` on. */
  ghost predicate Covered(m: Message, mtu: nat, frags: seq<Fragment>, target: nat)
    requires mtu > 0
  {
    forall o: nat :: o >= target && CutAt(m, mtu, o) ==> HasPiece(frags, o, PieceLength(m, mtu, o))
  }

  predicate CutFragment(m: Message, i: nat, mtu: nat, f: Fragment)
    requires mtu > 0
  {
    HonestFragment(m, i, f) && IsPiece(m, mtu, f.header)
  }

  predicate ReachesEnd(m: Message, f: Fragment) {
    f.header.fragmentOffset + f.header.fragmentLength == |m.content|
  }

  /** Slices of other sizes do no harm as long as each of them reaches the end of the message. */
  lemma {:induction false} AssembleWhenCovered(m: Message, i: nat, mtu: nat, frags: seq<Fragment>, target: nat)
    requires mtu > 0 && CutAt(m, mtu, target) && Covered(m, mtu, frags, target)
    requires forall f :: f in frags ==> HonestFragment(m, i, f) && (IsPiece(m, mtu, f.header) || ReachesEnd(m, f))
    ensures Assemble(frags, target).Some?
    decreases |m.content| - target
  {
    assert HasPiece(frags, target, PieceLength(m, mtu, target));
    var f := frags[FirstAt(frags, target)];
    assert f in frags;
    if !ReachesEnd(m, f) { AssembleWhenCovered(m, i, mtu, frags, target + mtu); }
  }

  lemma {:induction false} AssembleExactlyWhenCovered(m: Message, i: nat, mtu: nat, frags: seq<Fragment>, target: nat)
    requires mtu > 0 && CutAt(m, mtu, target)
    requires forall f :: f in frags ==> CutFragment(m, i, mtu, f)
    ensures Assemble(frags, target).Some? <==> Covered(m, mtu, frags, target)
    decreases |m.content| - target
  {
    if Covered(m, mtu, frags, target) {
      AssembleWhenCovered(m, i, mtu, frags, target);
    } else if Assemble(frags, target).Some? {
      var f := frags[FirstAt(frags, target)];
      assert f in frags;
      forall o: nat | o > target && CutAt(m, mtu, o) ensures o >= target + mtu { GridGap(target, o, mtu); }
      if !ReachesEnd(m, f) { AssembleExactlyWhenCovered(m, i, mtu, frags, target + mtu); }
    }
  }

  // ---------------------------------------------------------------- what the receiver has

  /** A slice cut with one of these mtus. */
  predicate SomeCut(m: Message, mtus: set<nat>, h: Header)
    requires 0 !in mtus
  {
    exists mtu :: mtu in mtus && IsPiece(m, mtu, h)
  }

  predicate CutsOnly(sent: seq<Message>, mtus: set<nat>, m: Cache)
    requires 0 !in mtus
  {
    forall k, f :: k in m && f in m[k] ==> k < |sent| && SomeCut(sent[k], mtus, f.header)
  }

  /** The receiver holds exactly the accepted fragments of the messages that are still to be popped. */
  ghost predicate Accounted(b: Buffer, accepted: set<(nat, nat, nat)>) {
    forall i: uint16, o: nat, n: nat ::
      b.current <= i ==> (HasPiece(FragmentsOf(b.cache, i), o, n) <==> (i, o, n) in accepted)
  }

  /** A record of at least two headers always has room. */
  ghost predicate Roomy(m: Cache) {
    CacheSize(m) + RECORD_HEADER_SIZE + HANDSHAKE_HEADER_SIZE < FRAGMENT_BUFFER_MAX_SIZE
  }

  lemma PopAccounted(b: Buffer, accepted: set<(nat, nat, nat)>)
    requires Accounted(b, accepted) && AfterPop(b).1.Some? && b.current < 0xFFFF
    ensures Accounted(AfterPop(b).0, accepted)
  {
    var b1 := AfterPop(b).0;
    forall i: uint16 | b1.current <= i ensures FragmentsOf(b1.cache, i) == FragmentsOf(b.cache, i) {}
  }

  lemma PopRoomy(b: Buffer)
    requires Roomy(b.cache)
    ensures Roomy(AfterPop(b).0.cache)
  {
    if b.current in b.cache { CacheSizeSplit(b.cache, b.current); }
  }

  ghost predicate Held(sent: seq<Message>, mtus: set<nat>, b: Buffer, accepted: set<(nat, nat, nat)>)
    requires 0 !in mtus
  {
    CutsOnly(sent, mtus, b.cache) && Accounted(b, accepted) && Roomy(b.cache)
  }

  lemma PopHeld(sent: seq<Message>, mtus: set<nat>, b: Buffer, popped: seq<Popped>, accepted: set<(nat, nat, nat)>)
    requires 0 !in mtus && InOrder(sent, b, popped) && Held(sent, mtus, b, accepted) && AfterPop(b).1.Some?
    ensures var (b1, out) := AfterPop(b);
            && b1.current == b.current + 1 && |b1.cache| < |b.cache| && Drain(b).0 == Drain(b1).0
            && InOrder(sent, b1, popped + [out.value]) && Held(sent, mtus, b1, accepted)
  {
    PopShrinks(b);
    PopInOrder(sent, b, popped);
    PopAccounted(b, accepted);
    PopRoomy(b);
  }

  lemma {:induction false} DrainHeld(sent: seq<Message>, mtus: set<nat>, b: Buffer, popped: seq<Popped>,
                                     accepted: set<(nat, nat, nat)>)
    requires 0 !in mtus && InOrder(sent, b, popped) && Held(sent, mtus, b, accepted)
    ensures Held(sent, mtus, Drain(b).0, accepted)
    decreases |b.cache|
  {
    if AfterPop(b).1.Some? {
      PopHeld(sent, mtus, b, popped, accepted);
      DrainHeld(sent, mtus, AfterPop(b).0, popped + [AfterPop(b).1.value], accepted);
    } else {
      DrainStops(b, popped);
    }
  }

  lemma OneMorePiece(frags: seq<Fragment>, f: Fragment, o: nat, n: nat)
    ensures HasPiece(frags + [f], o, n) <==>
            HasPiece(frags, o, n) || (o == f.header.fragmentOffset && n == f.header.fragmentLength)
  {
    assert f in frags + [f];
    if HasPiece(frags, o, n) {
      var g :| g in frags && g.header.fragmentOffset == o && g.header.fragmentLength == n;
      assert g in frags + [f];
    }
  }

  lemma CachedSize(m: Cache, k: uint16, f: Fragment)
    ensures CacheSize(m[k := FragmentsOf(m, k) + [f]]) == CacheSize(m) + |f.data|
  {
    var frags := FragmentsOf(m, k) + [f];
    CacheSizeUpdate(m, k, frags);
    assert frags[..|frags| - 1] == FragmentsOf(m, k);
    if k in m { CacheSizeSplit(m, k); } else { assert m - {k} == m; }
  }

  lemma AddAccounted(b: Buffer, accepted: set<(nat, nat, nat)>, k: uint16, f: Fragment)
    requires Accounted(b, accepted)
    ensures Accounted(b.(cache := b.cache[k := FragmentsOf(b.cache, k) + [f]]),
                      accepted + {(k, f.header.fragmentOffset, f.header.fragmentLength)})
  {
    var b1 := b.(cache := b.cache[k := FragmentsOf(b.cache, k) + [f]]);
    var accepted1 := accepted + {(k, f.header.fragmentOffset, f.header.fragmentLength)};
    forall i: uint16, o: nat, n: nat | b.current <= i
      ensures HasPiece(FragmentsOf(b1.cache, i), o, n) <==> (i, o, n) in accepted1
    {
      if i == k { OneMorePiece(FragmentsOf(b.cache, k), f, o, n); }
      assert HasPiece(FragmentsOf(b.cache, i), o, n) <==> (i, o, n) in accepted;
    }
  }

  lemma AddCutsOnly(sent: seq<Message>, mtus: set<nat>, m: Cache, k: uint16, f: Fragment)
    requires 0 !in mtus && CutsOnly(sent, mtus, m) && k < |sent| && SomeCut(sent[k], mtus, f.header)
    ensures CutsOnly(sent, mtus, m[k := FragmentsOf(m, k) + [f]])
  {
    var m1 := m[k := FragmentsOf(m, k) + [f]];
    forall j, g: Fragment | j in m1 && g in m1[j] ensures j < |sent| && SomeCut(sent[j], mtus, g.header) {
      if g != f || j != k { assert j in m && g in m[j]; }
    }
  }

  lemma PushHeld(sent: seq<Message>, mtus: set<nat>, b: Buffer, accepted: set<(nat, nat, nat)>, record: seq<byte>)
    requires 0 !in mtus && Held(sent, mtus, b, accepted) && HonestRecord(sent, record)
    requires SomeCut(sent[Key(record).0], mtus, DecodeHeader(record[RECORD_HEADER_SIZE..]).value)
    requires AfterPush(b, record).1.Pushed?
    ensures Held(sent, mtus, AfterPush(b, record).0, accepted + {Key(record)})
  {
    PushHonest(sent, b, record);
    var h := DecodeHeader(record[RECORD_HEADER_SIZE..]).value;
    var f := Fragment(sent[h.messageSequence].epoch, h, record[RECORD_HEADER_SIZE + HANDSHAKE_HEADER_SIZE..]);
    CachedSize(b.cache, h.messageSequence, f);
    AddAccounted(b, accepted, h.messageSequence, f);
    AddCutsOnly(sent, mtus, b.cache, h.messageSequence, f);
  }

  // ---------------------------------------------------------------- every run

  ghost predicate Complete(l: Link, mtus: set<nat>)
    requires 0 !in mtus
  {
    && Invariant(l)
    && (forall r :: r in l.wire ==> SomeCut(l.sent[Key(r).0], mtus, DecodeHeader(r[RECORD_HEADER_SIZE..]).value))
    && Held(l.sent, mtus, l.buffer, l.accepted)
    && (forall a :: a in l.accepted ==> a.0 < |l.sent|)
    && AfterPop(l.buffer).1.None?
  }

  predicate MtusIn(es: seq<Event>, mtus: set<nat>) {
    forall e :: e in es && e.Transmit? ==> e.mtu in mtus
  }

  lemma ReceiveHeld(sent: seq<Message>, mtus: set<nat>, b: Buffer, popped: seq<Popped>, accepted: set<(nat, nat, nat)>,
                    record: seq<byte>)
    requires 0 !in mtus && Held(sent, mtus, b, accepted) && InOrder(sent, b, popped) && HonestRecord(sent, record)
    requires SomeCut(sent[Key(record).0], mtus, DecodeHeader(record[RECORD_HEADER_SIZE..]).value)
    requires AfterPush(b, record).1.Pushed?
    ensures Held(sent, mtus, Receive(b, record).0, accepted + {Key(record)}) && AfterPop(Receive(b, record).0).1.None?
  {
    PushHonest(sent, b, record);
    PushHeld(sent, mtus, b, accepted, record);
    var b1 := AfterPush(b, record).0;
    assert InOrder(sent, b1, popped);
    DrainHeld(sent, mtus, b1, popped, accepted + {Key(record)});
    DrainInOrder(sent, b1, popped);
  }

  lemma DeliverComplete(l: Link, mtus: set<nat>, record: seq<byte>)
    requires 0 !in mtus && Complete(l, mtus) && record in l.wire
    ensures Complete(Apply(l, Deliver(record)), mtus)
  {
    DeliverKeeps(l, record);
    if AfterPush(l.buffer, record).1.Pushed? {
      ReceiveHeld(l.sent, mtus, l.buffer, l.popped, l.accepted, record);
    } else {
      PushHonest(l.sent, l.buffer, record);
    }
  }

  lemma StepComplete(l: Link, mtus: set<nat>, e: Event)
    requires 0 !in mtus && Complete(l, mtus) && Enabled(l, e) && (e.Transmit? ==> e.mtu in mtus)
    ensures Complete(Apply(l, e), mtus)
  {
    StepKeeps(l, e);
    match e
    case Send(m) =>
      var l1 := Apply(l, e);
      assert forall k :: k in l.buffer.cache ==> l1.sent[k] == l.sent[k];
    case Transmit(i, mtu, piece, number) => TransmittedIsHonest(l.sent, i, mtu, piece, number);
    case Deliver(record) => DeliverComplete(l, mtus, record);
  }

  lemma InitialComplete(mtus: set<nat>)
    requires 0 !in mtus
    ensures Complete(INITIAL, mtus)
  {
    assert FirstAt([], 0) == 0;
  }

  lemma {:induction false} RunComplete(es: seq<Event>, mtus: set<nat>)
    requires 0 !in mtus && MtusIn(es, mtus) && Run(es).Some?
    ensures Complete(Run(es).value, mtus)
  {
    if es == [] {
      InitialComplete(mtus);
    } else {
      RunComplete(es[..|es| - 1], mtus);
      StepComplete(Run(es[..|es| - 1]).value, mtus, es[|es| - 1]);
    }
  }

  /** Every fragment that this mtu makes of message `i` has been accepted. */
  ghost predicate AllAccepted(m: Message, i: nat, mtu: nat, accepted: set<(nat, nat, nat)>)
    requires mtu > 0
  {
    forall o: nat :: CutAt(m, mtu, o) ==> (i, o, PieceLength(m, mtu, o)) in accepted
  }

  lemma AcceptedIsCovered(m: Message, i: uint16, mtu: nat, b: Buffer, accepted: set<(nat, nat, nat)>)
    requires mtu > 0 && b.current <= i && Accounted(b, accepted)
    ensures AllAccepted(m, i, mtu, accepted) <==> Covered(m, mtu, FragmentsOf(b.cache, i), 0)
  {
    forall o: nat | CutAt(m, mtu, o)
      ensures HasPiece(FragmentsOf(b.cache, i), o, PieceLength(m, mtu, o)) <==> (i, o, PieceLength(m, mtu, o)) in accepted
    {
    }
  }

  // ---------------------------------------------------------------- with one mtu

  ghost predicate FirstAccepted(sent: seq<Message>, mtu: nat, n: nat, accepted: set<(nat, nat, nat)>)
    requires mtu > 0
  {
    n <= |sent| && forall i :: 0 <= i < n ==> AllAccepted(sent[i], i, mtu, accepted)
  }

  lemma StillAccepted(sent: seq<Message>, mtu: nat, n: nat, accepted: set<(nat, nat, nat)>, accepted1: set<(nat, nat, nat)>)
    requires mtu > 0 && FirstAccepted(sent, mtu, n, accepted) && accepted <= accepted1
    ensures FirstAccepted(sent, mtu, n, accepted1)
  {
    forall i | 0 <= i < n ensures AllAccepted(sent[i], i, mtu, accepted1) {
      assert AllAccepted(sent[i], i, mtu, accepted);
    }
  }

  lemma AssembledExactlyWhenAccepted(sent: seq<Message>, mtu: nat, b: Buffer, popped: seq<Popped>,
                                     accepted: set<(nat, nat, nat)>)
    requires mtu > 0 && InOrder(sent, b, popped) && Held(sent, {mtu}, b, accepted) && b.current < |sent|
    ensures AfterPop(b).1.Some? <==> AllAccepted(sent[b.current], b.current, mtu, accepted)
  {
    var m, frags := sent[b.current], FragmentsOf(b.cache, b.current);
    forall f | f in frags ensures CutFragment(m, b.current, mtu, f) { assert SomeCut(m, {mtu}, f.header); }
    AssembleExactlyWhenCovered(m, b.current, mtu, frags, 0);
    AcceptedIsCovered(m, b.current, mtu, b, accepted);
  }

  lemma PopWereAccepted(sent: seq<Message>, mtu: nat, b: Buffer, popped: seq<Popped>, accepted: set<(nat, nat, nat)>)
    requires mtu > 0 && InOrder(sent, b, popped) && Held(sent, {mtu}, b, accepted) && AfterPop(b).1.Some?
    requires FirstAccepted(sent, mtu, b.current, accepted)
    ensures b.current + 1 == AfterPop(b).0.current && FirstAccepted(sent, mtu, b.current + 1, accepted)
  {
    PopHeld(sent, {mtu}, b, popped, accepted);
    AssembledExactlyWhenAccepted(sent, mtu, b, popped, accepted);
  }

  lemma {:induction false} DrainedWereAccepted(sent: seq<Message>, mtu: nat, b: Buffer, popped: seq<Popped>,
                                               accepted: set<(nat, nat, nat)>)
    requires mtu > 0 && InOrder(sent, b, popped) && Held(sent, {mtu}, b, accepted)
    requires FirstAccepted(sent, mtu, b.current, accepted)
    ensures FirstAccepted(sent, mtu, Drain(b).0.current, accepted)
    decreases |b.cache|
  {
    if AfterPop(b).1.Some? {
      PopHeld(sent, {mtu}, b, popped, accepted);
      PopWereAccepted(sent, mtu, b, popped, accepted);
      DrainedWereAccepted(sent, mtu, AfterPop(b).0, popped + [AfterPop(b).1.value], accepted);
    } else {
      DrainStops(b, popped);
    }
  }

  lemma DeliverWereAccepted(l: Link, mtu: nat, record: seq<byte>)
    requires mtu > 0 && Complete(l, {mtu}) && record in l.wire && FirstAccepted(l.sent, mtu, |l.popped|, l.accepted)
    ensures var l1 := Apply(l, Deliver(record)); FirstAccepted(l.sent, mtu, l1.buffer.current, l1.accepted)
  {
    PushHonest(l.sent, l.buffer, record);
    var (b1, r) := AfterPush(l.buffer, record);
    if r.Pushed? {
      PushHeld(l.sent, {mtu}, l.buffer, l.accepted, record);
      StillAccepted(l.sent, mtu, |l.popped|, l.accepted, l.accepted + {Key(record)});
      DrainedWereAccepted(l.sent, mtu, b1, l.popped, l.accepted + {Key(record)});
    }
  }

  lemma {:induction false} RunWereAccepted(es: seq<Event>, mtu: nat)
    requires mtu > 0 && MtusIn(es, {mtu}) && Run(es).Some?
    ensures var l := Run(es).value; FirstAccepted(l.sent, mtu, |l.popped|, l.accepted)
  {
    if es != [] {
      var before, e := es[..|es| - 1], es[|es| - 1];
      RunKeeps(es);
      RunComplete(before, {mtu});
      RunWereAccepted(before, mtu);
      if e.Deliver? { DeliverWereAccepted(Run(before).value, mtu, e.record); }
    }
  }

  /** Exactly the longest run of fully accepted messages has been popped. */
  lemma PoppedExactlyWhenAccepted(es: seq<Event>, mtu: nat, k: nat)
    requires mtu > 0 && MtusIn(es, {mtu}) && Run(es).Some? && k <= |Run(es).value.sent|
    ensures var l := Run(es).value;
            k <= |l.popped| <==> forall i :: 0 <= i < k ==> AllAccepted(l.sent[i], i, mtu, l.accepted)
  {
    RunComplete(es, {mtu});
    RunWereAccepted(es, mtu);
    var l := Run(es).value;
    if k > |l.popped| {
      AssembledExactlyWhenAccepted(l.sent, mtu, l.buffer, l.popped, l.accepted);
    }
  }
}
