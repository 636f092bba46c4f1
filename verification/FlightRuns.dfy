/** What every run of the handshake state machine keeps. */
module FlightRuns {
  import opened Bits
  import opened Wire
  import opened HandshakeCaches
  import opened Flights
  import Transcript

  predicate OnOwnSide(s: Fsm) {
    if s.isClient then s.flight in {Flight1, Flight3, Flight5, Flight5b}
    else s.flight in {Flight0, Flight2, Flight4, Flight4b, Flight6}
  }

  /** A ClientHello in the cache echoes this nonempty cookie. */
  predicate Echoed(cache: seq<Item>, cookie: seq<byte>) {
    exists c :: && c in cache && c.typ == CLIENT_HELLO && c.isClient && |c.data| >= HANDSHAKE_HEADER_SIZE
                && HelloCookie(c.data[HANDSHAKE_HEADER_SIZE..]) == Some(cookie) && cookie != []
  }

  predicate Invariant(s: Fsm) {
    && OnOwnSide(s)
    && (s.phase == Waiting ==> !IsLastSendFlight(s.flight))
    && (s.phase !in {Preparing, Errored} ==> (s.retransmit <==> s.flight != Flight2))
    && (s.phase == Finished ==> IsLastSendFlight(s.flight) || IsLastRecvFlight(s.flight))
    && (s.completed ==> IsLastSendFlight(s.flight) || IsLastRecvFlight(s.flight))
    && (s.completed ==> s.phase != Preparing)
    && (s.completed && s.flight == Flight5 ==> s.phase == Finished || s.phase == Errored)
    && (!s.isClient && !s.skipHelloVerify && s.flight in {Flight4, Flight6} ==> Echoed(s.cache, s.cookie))
  }

  lemma EchoStays(s: Fsm, more: seq<Item>)
    requires Echoed(s.cache, s.cookie)
    ensures Echoed(s.cache + more, s.cookie)
  {
    var c :| && c in s.cache && c.typ == CLIENT_HELLO && c.isClient && |c.data| >= HANDSHAKE_HEADER_SIZE
             && HelloCookie(c.data[HANDSHAKE_HEADER_SIZE..]) == Some(s.cookie) && s.cookie != [];
    assert c in s.cache + more;
  }

  /** Flight 2's parser names flight 4 only on seeing its own cookie echoed. */
  lemma CookieGate(s: ParseState, inp: ParseInput)
    requires !s.skipHelloVerify && Flight2Parse(s, inp).decision == Go(Flight4)
    ensures Echoed(s.cache, s.cookie)
  {
    var rule := CLIENT_HELLO_RULES[0];
    assert Governing(CLIENT_HELLO_RULES, CLIENT_HELLO) == Some(rule);
    BestIsHighestMatch(s.cache, rule);
  }

  predicate Successor(f: Flight, next: Flight) {
    match f
    case Flight0 => next in {Flight2, Flight4, Flight4b}
    case Flight1 => next in {Flight3, Flight5, Flight5b}
    case Flight2 => next in {Flight2, Flight4, Flight4b}
    case Flight3 => next in {Flight3, Flight5, Flight5b}
    case Flight4 => next == Flight6
    case _ => next == f
  }

  lemma ParseDecides(f: Flight, s: ParseState, inp: ParseInput)
    ensures var p := Parse(f, s, inp);
            && (f !in {Flight1, Flight3} ==> p.cookie == s.cookie)
            && (p.decision.Go? ==> Successor(f, p.decision.next))
            && (f in {Flight0, Flight2} && !s.skipHelloVerify && p.decision == Go(Flight4) ==> Echoed(s.cache, s.cookie))
  {
    if f == Flight2 && !s.skipHelloVerify && Flight2Parse(s, inp).decision == Go(Flight4) { CookieGate(s, inp); }
  }

  lemma SettledKeeps(s: Fsm, s1: Fsm, d: Decision)
    requires Invariant(s) && s.phase == Waiting
    requires s1 == s.(cookie := s1.cookie, recvSequence := s1.recvSequence)
    requires !s.isClient ==> s1.cookie == s.cookie
    requires d.Go? ==> Successor(s.flight, d.next)
    requires !s.isClient && !s.skipHelloVerify && d == Go(Flight4) ==> Echoed(s.cache, s.cookie)
    ensures var s2 := Settled(s1, d);
            && Invariant(s2) && Rank(s.flight) <= Rank(s2.flight) && s2.isClient == s.isClient
            && s2.skipHelloVerify == s.skipHelloVerify && (s.completed ==> s2.completed && s2.flight == s.flight)
  {
  }

  lemma AdvancesKeep(s: Fsm, phase: Phase)
    requires Invariant(s) && phase != Preparing && (phase != Errored ==> s.phase !in {Preparing, Errored})
    requires phase == Waiting ==> !IsLastSendFlight(s.flight) && !(s.completed && s.flight == Flight5)
    requires phase == Finished ==> IsLastSendFlight(s.flight) || IsLastRecvFlight(s.flight)
    requires phase == Sending ==> !(s.completed && s.flight == Flight5)
    ensures Invariant(Enter(s, phase))
  {
  }

  /** Flights do not go backward, and are frozen once the handshake has finished. */
  predicate Advances(s: Fsm, s1: Fsm) {
    Rank(s.flight) <= Rank(s1.flight) && (s.completed ==> s1.completed && s1.flight == s.flight)
  }

  lemma StepKeeps(s: Fsm, e: Event)
    requires Invariant(s) && Enabled(s, e)
    ensures var s1 := Apply(s, e);
            Invariant(s1) && Advances(s, s1) && s1.isClient == s.isClient && s1.skipHelloVerify == s.skipHelloVerify
  {
    match e
    case Generate(ds, cookie) =>
    case ReadHandshake(inp) =>
      if s.phase == Waiting {
        var ps := ParseState(s.cache, s.skipHelloVerify, s.cookie, s.recvSequence);
        ParseDecides(s.flight, ps, inp);
        var p := Parse(s.flight, ps, inp);
        SettledKeeps(s, s.(cookie := p.cookie, recvSequence := p.recvSequence), p.decision);
      } else {
        AdvancesKeep(s, if s.isClient then Finished else Sending);
      }
    case WritePackets =>
      if Echoed(s.cache, s.cookie) { EchoStays(s, OwnItems(s.isClient, s.flights)); }
      AdvancesKeep(s.(cache := s.cache + OwnItems(s.isClient, s.flights)),
                   if IsLastSendFlight(s.flight) then Finished else Waiting);
    case Arrive(m, number) =>
      if Echoed(s.cache, s.cookie) { EchoStays(s, [Transcript.Written(m, number, !s.isClient)]); }
    case ReadRetransmit =>
      AdvancesKeep(s, if s.phase == Waiting then Sending else if s.isClient then Finished else Sending);
    case TimerExpires => AdvancesKeep(s, if s.retransmit then Sending else Waiting);
    case _ => AdvancesKeep(s, Errored);
  }

  lemma {:induction false} RunKeeps(isClient: bool, skip: bool, es: seq<Event>)
    requires Run(Initial(isClient, skip), es).Some?
    ensures var s := Run(Initial(isClient, skip), es).value;
            Invariant(s) && s.isClient == isClient && s.skipHelloVerify == skip
  {
    if es != [] {
      RunKeeps(isClient, skip, es[..|es| - 1]);
      StepKeeps(Run(Initial(isClient, skip), es[..|es| - 1]).value, es[|es| - 1]);
    }
  }

  /** The states of a run: every prefix of a run is a run. */
  lemma {:induction false} PrefixRuns(s: Fsm, es: seq<Event>, n: nat)
    requires Run(s, es).Some? && n <= |es|
    ensures Run(s, es[..n]).Some?
  {
    if n < |es| {
      PrefixRuns(s, es[..|es| - 1], n);
      assert es[..|es| - 1][..n] == es[..n];
    } else {
      assert es[..n] == es;
    }
  }

  /** In every run each side keeps to its own flights, and never waits in flight 5b or 6. */
  lemma FlightsStayOnSide(isClient: bool, skip: bool, es: seq<Event>)
    requires Run(Initial(isClient, skip), es).Some?
    ensures var s := Run(Initial(isClient, skip), es).value;
            && (isClient ==> s.flight in {Flight1, Flight3, Flight5, Flight5b})
            && (!isClient ==> s.flight in {Flight0, Flight2, Flight4, Flight4b, Flight6})
            && (s.phase == Waiting ==> s.flight != Flight5b && s.flight != Flight6)
  {
    RunKeeps(isClient, skip, es);
  }

  /** Between any two moments of a run. */
  lemma {:induction false} FlightsOnlyAdvance(isClient: bool, skip: bool, es: seq<Event>, n: nat)
    requires Run(Initial(isClient, skip), es).Some? && n <= |es|
    ensures Run(Initial(isClient, skip), es[..n]).Some?
    ensures Advances(Run(Initial(isClient, skip), es[..n]).value, Run(Initial(isClient, skip), es).value)
    decreases |es|
  {
    PrefixRuns(Initial(isClient, skip), es, n);
    if n < |es| {
      var before := es[..|es| - 1];
      assert before[..n] == es[..n];
      FlightsOnlyAdvance(isClient, skip, before, n);
      RunKeeps(isClient, skip, before);
      StepKeeps(Run(Initial(isClient, skip), before).value, es[|es| - 1]);
    } else {
      assert es[..n] == es;
    }
  }

  /** Unless hello verification is skipped, a server in flight 4 or 6 holds a ClientHello that echoes its cookie. */
  lemma ServerProceedsOnlyOnEchoedCookie(es: seq<Event>)
    requires Run(Initial(false, false), es).Some?
    ensures var s := Run(Initial(false, false), es).value; s.flight in {Flight4, Flight6} ==> Echoed(s.cache, s.cookie)
  {
    RunKeeps(false, false, es);
  }
}
