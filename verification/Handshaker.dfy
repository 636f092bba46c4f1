/** The handshake state machine in its own form: an object whose steps update its fields. */
module Handshaker {
  import opened Bits
  import opened Fragmentation
  import opened HandshakeCaches
  import opened Flights
  import FlightRuns
  import Numbering
  import Transcript

  class HandshakeFsm {
    const isClient: bool
    const skipHelloVerify: bool
    var currentFlight: Flight
    var phase: Phase
    var retransmit: bool
    var cookie: seq<byte>
    var handshakeSendSequence: nat
    var handshakeRecvSequence: nat
    var flights: seq<Numbered>
    var cache: HandshakeCache
    ghost var log: seq<Numbered>
    ghost var completed: bool

    ghost function View(): Fsm
      reads this, cache
    {
      Fsm(isClient, skipHelloVerify, currentFlight, phase, retransmit, cookie, handshakeSendSequence,
          handshakeRecvSequence, flights, cache.cache, log, completed)
    }

    /** Flights by side, no waiting in flight 5b or 6, a server past flight 2 only on an echoed cookie; and one message
        per number without a gap. */
    ghost predicate Valid()
      reads this, cache
    {
      FlightRuns.Invariant(View()) && Numbering.NumberingInvariant(View())
    }

    constructor (isClient: bool, skipHelloVerify: bool)
      ensures Valid() && View() == Initial(isClient, skipHelloVerify) && fresh(cache)
    {
      this.isClient, this.skipHelloVerify := isClient, skipHelloVerify;
      currentFlight := if isClient then Flight1 else Flight0;
      phase, retransmit, cookie := Preparing, false, [];
      handshakeSendSequence, handshakeRecvSequence, flights := 0, 0, [];
      cache := new HandshakeCache();
      log, completed := [], false;
    }

    /** `prepare` with what the flight's generator produced. */
    method Prepare(drafts: seq<Draft>, freshCookie: seq<byte>)
      requires Valid() && Enabled(View(), Generate(drafts, freshCookie))
      modifies this
      ensures Valid() && FlightRuns.Advances(old(View()), View())
      ensures View() == Apply(old(View()), Generate(drafts, freshCookie)) && cache == old(cache)
      ensures handshakeSendSequence <= Numbering.NUMBERS ==> Numbering.GapFreeAndUnique(log, handshakeSendSequence)
    {
      StepKeepsBoth(View(), Generate(drafts, freshCookie));
      NumbersMean(Apply(View(), Generate(drafts, freshCookie)));
      PrepareFlight(drafts, freshCookie);
    }

    method PrepareFlight(drafts: seq<Draft>, freshCookie: seq<byte>)
      modifies this
      ensures View() == Prepared(old(View()), drafts, freshCookie) && cache == old(cache)
    {
      if currentFlight == Flight0 && !skipHelloVerify {
        cookie := freshCookie;
      } else if currentFlight == Flight1 {
        cookie := [];
      }
      if currentFlight == Flight2 {
        handshakeSendSequence := 0;
      }
      retransmit := currentFlight != Flight2;
      NumberFlight(drafts);
      log := log + flights;
      phase := Sending;
    }

    /** The loop of `prepare` that numbers the handshake messages in order. */
    method NumberFlight(drafts: seq<Draft>)
      modifies `flights, `handshakeSendSequence
      ensures flights == Number(drafts, old(handshakeSendSequence))
      ensures handshakeSendSequence == old(handshakeSendSequence) + |flights|
    {
      flights := [];
      assert drafts[0..] == drafts;
      for i := 0 to |drafts|
        invariant handshakeSendSequence == old(handshakeSendSequence) + |flights|
        invariant flights + Number(drafts[i..], handshakeSendSequence) == Number(drafts, old(handshakeSendSequence))
      {
        assert drafts[i..][1..] == drafts[i + 1..];
        match drafts[i] {
          case ChangeCipherSpec =>
          case Handshake(m) =>
            flights := flights + [Numbered(handshakeSendSequence % 0x1_0000, m)];
            handshakeSendSequence := handshakeSendSequence + 1;
        }
      }
    }

    /** The cache pushes of `writePackets`, done again at every retransmission. */
    method WritePackets()
      modifies cache
      ensures cache.cache == old(cache.cache) + OwnItems(isClient, flights)
    {
      ghost var own := OwnItems(isClient, flights);
      assert flights[0..] == flights;
      for i := 0 to |flights|
        invariant cache.cache + OwnItems(isClient, flights[i..]) == old(cache.cache) + own
      {
        var p := flights[i];
        assert flights[i..][1..] == flights[i + 1..];
        OwnItemsFirst(isClient, flights[i..], cache.cache);
        cache.Push(WireMessage(p.m, p.number), p.m.epoch, p.number, p.m.typ, isClient);
      }
    }

    method Send()
      requires Valid() && phase == Sending
      modifies this, cache
      ensures Valid() && FlightRuns.Advances(old(View()), View())
      ensures View() == Apply(old(View()), Event.WritePackets) && cache == old(cache)
      ensures phase == Waiting || completed
    {
      StepKeepsBoth(View(), Event.WritePackets);
      WritePackets();
      phase := if IsLastSendFlight(currentFlight) then Finished else Waiting;
      completed := completed || phase == Finished;
    }

    /** The connection puts a message it has popped into the cache that it shares with the machine. */
    method CacheReceived(m: Message, number: uint16)
      requires Valid()
      modifies cache
      ensures Valid() && View() == Apply(old(View()), Arrive(m, number))
    {
      StepKeepsBoth(View(), Arrive(m, number));
      cache.Push(WireMessage(m, number), m.epoch, number, m.typ, !isClient);
    }

    /** One round of `wait` on a received handshake message that is not a retransmission. */
    method Wait(inp: ParseInput)
      requires Valid() && phase == Waiting
      modifies this
      ensures Valid() && FlightRuns.Advances(old(View()), View())
      ensures View() == Apply(old(View()), ReadHandshake(inp)) && cache == old(cache)
      ensures !isClient && !skipHelloVerify && currentFlight in {Flight4, Flight6} ==>
                FlightRuns.Echoed(cache.cache, cookie)
      ensures phase == Finished ==> currentFlight == old(currentFlight) && IsLastRecvFlight(currentFlight)
    {
      StepKeepsBoth(View(), ReadHandshake(inp));
      WaitMeans(View(), inp);
      var p := Parse(currentFlight, ParseState(cache.cache, skipHelloVerify, cookie, handshakeRecvSequence), inp);
      cookie, handshakeRecvSequence := p.cookie, p.recvSequence;
      Settle(p.decision);
    }

    /** What `wait` makes of the parser's decision. */
    method Settle(d: Decision)
      modifies this
      ensures View() == Settled(old(View()), d) && cache == old(cache)
    {
      match d {
        case Stay =>
        case Fatal => phase := Errored;
        case Go(next) =>
          if IsLastRecvFlight(next) && currentFlight == next {
            phase := Finished;
            completed := true;
          } else {
            currentFlight := next;
            phase := Preparing;
          }
      }
    }

    /** A retransmission read while waiting, or anything read once finished. */
    method ReadAgain()
      requires Valid() && (phase == Waiting || phase == Finished)
      modifies this
      ensures Valid() && currentFlight == old(currentFlight) && flights == old(flights)
      ensures View() == Apply(old(View()), ReadRetransmit) && cache == old(cache)
      ensures phase == Sending || (phase == Finished && isClient)
    {
      StepKeepsBoth(View(), ReadRetransmit);
      if phase == Waiting {
        phase := Sending;
      } else if isClient {
        completed := true;
      } else {
        phase := Sending;
      }
    }

    /** The flight is sent again, except a HelloVerifyRequest: the server keeps nothing for an unverified client. */
    method Timeout()
      requires Valid() && phase == Waiting
      modifies this
      ensures Valid() && currentFlight == old(currentFlight) && flights == old(flights)
      ensures View() == Apply(old(View()), TimerExpires) && cache == old(cache)
      ensures phase == Sending <==> old(currentFlight) != Flight2
    {
      StepKeepsBoth(View(), TimerExpires);
      if retransmit {
        phase := Sending;
      }
    }
  }

  lemma StepKeepsBoth(s: Fsm, e: Event)
    requires FlightRuns.Invariant(s) && Numbering.NumberingInvariant(s) && Enabled(s, e)
    ensures FlightRuns.Invariant(Apply(s, e)) && Numbering.NumberingInvariant(Apply(s, e))
    ensures FlightRuns.Advances(s, Apply(s, e))
  {
    FlightRuns.StepKeeps(s, e);
    Numbering.StepNumbering(s, e);
  }

  lemma NumbersMean(s: Fsm)
    requires Numbering.NumberingInvariant(s)
    ensures s.sendSequence <= Numbering.NUMBERS ==> Numbering.GapFreeAndUnique(s.log, s.sendSequence)
  {
    if s.sendSequence <= Numbering.NUMBERS { Numbering.OneMessagePerNumberMeans(s.log, s.sendSequence); }
  }

  lemma WaitMeans(s: Fsm, inp: ParseInput)
    requires FlightRuns.Invariant(s) && s.phase == Waiting
    ensures var s1 := Apply(s, ReadHandshake(inp));
            && (!s.isClient && !s.skipHelloVerify && s1.flight in {Flight4, Flight6} ==>
                  FlightRuns.Echoed(s1.cache, s1.cookie))
            && (s1.phase == Finished ==> s1.flight == s.flight && IsLastRecvFlight(s1.flight))
  {
    FlightRuns.StepKeeps(s, ReadHandshake(inp));
  }

  lemma OwnItemsFirst(isClient: bool, ns: seq<Numbered>, before: seq<Item>)
    requires ns != []
    ensures var c := Transcript.Written(ns[0].m, ns[0].number, isClient);
            before + OwnItems(isClient, ns) == before + [c] + OwnItems(isClient, ns[1..])
  {
  }
}
