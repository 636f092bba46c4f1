/** What an end of the handshake must have received from the other before it can be in a flight. */
module PulledMessages {
  import opened Bits
  import opened HandshakeCaches
  import opened Flights
  import opened FlightRuns
  import Transcript

  predicate Saw(cache: seq<Item>, r: Rule) {
    exists c :: c in cache && Matches(c, r)
  }

  const HELLO_RULE := Rule(CLIENT_HELLO, 0, true, false)
  const REQUEST_RULE := Rule(HELLO_VERIFY_REQUEST, 0, false, true)
  const DONE_RULE := Rule(SERVER_HELLO_DONE, 0, false, false)
  const CLIENT_FINISHED_RULE := Rule(FINISHED, 1, true, false)
  const SERVER_FINISHED_RULE := Rule(FINISHED, 1, false, false)

  lemma {:induction false} PullSaw(cache: seq<Item>, first: nat, rules: seq<Rule>, bodyParses: (byte,
        seq<byte>) -> bool, i: nat)
    requires PullsFully(cache, first, rules, bodyParses) && i < |rules| && !rules[i].optional
    ensures Saw(cache, rules[i])
  {
    assert rules[i] in rules;
    BestIsHighestMatch(cache, rules[i]);
  }

  /** What the parser of a flight has seen when it names the next one. */
  predicate SawFor(f: Flight, next: Flight, cache: seq<Item>) {
    match next
    case Flight5 => if f == Flight5 then Saw(cache, SERVER_FINISHED_RULE) else Saw(cache, DONE_RULE)
    case Flight5b => Saw(cache, SERVER_FINISHED_RULE)
    case Flight6 => Saw(cache, CLIENT_FINISHED_RULE)
    case Flight4b => Saw(cache, if f == Flight4b then CLIENT_FINISHED_RULE else HELLO_RULE)
    case Flight3 => Saw(cache, REQUEST_RULE)
    case Flight0 => true
    case Flight1 => true
    case _ => Saw(cache, HELLO_RULE)
  }

  lemma {:induction false} RequestSaw(cache: seq<Item>, rules: seq<Rule>)
    requires PulledCookie(cache, rules).Some? && (rules == VERIFY_REQUEST_RULES || rules == FIRST_ANSWER_RULES)
    ensures Saw(cache, REQUEST_RULE)
  {
    assert Governing(VERIFY_REQUEST_RULES, HELLO_VERIFY_REQUEST) == Some(REQUEST_RULE);
    assert FIRST_ANSWER_RULES[..1] == VERIFY_REQUEST_RULES;
    assert Governing(FIRST_ANSWER_RULES, HELLO_VERIFY_REQUEST) == Some(REQUEST_RULE);
    BestIsHighestMatch(cache, REQUEST_RULE);
  }

  lemma {:induction false} HelloSaw(s: ParseState, inp: ParseInput, f: Flight)
    requires f in {Flight0, Flight2} && Parse(f, s, inp).decision.Go?
    ensures Saw(s.cache, HELLO_RULE)
  {
    if f == Flight2 && PullsFully(s.cache, s.recvSequence, CLIENT_HELLO_RULES, Codec(inp.restParses)) {
      PullSaw(s.cache, s.recvSequence, CLIENT_HELLO_RULES, Codec(inp.restParses), 0);
    } else {
      PullSaw(s.cache, 0, CLIENT_HELLO_RULES, Codec(inp.restParses), 0);
    }
  }

  lemma {:induction false} KeyMessagesSaw(s: ParseState, inp: ParseInput)
    requires KeyMessagesParse(s, inp).decision.Go?
    ensures Saw(s.cache, DONE_RULE)
  {
    if inp.psk {
      PullSaw(s.cache, s.recvSequence + 1, PSK_RULES, Codec(inp.restParses), 1);
    } else {
      PullSaw(s.cache, s.recvSequence + 1, CERTIFICATE_RULES, Codec(inp.restParses), 3);
    }
  }

  lemma {:induction false} Flight3Saw(s: ParseState, inp: ParseInput)
    requires Flight3Parse(s, inp).decision.Go?
    ensures SawFor(Flight3, Flight3Parse(s, inp).decision.next, s.cache)
  {
    var p := Flight3Parse(s, inp);
    if p.decision == Go(Flight5) {
      KeyMessagesSaw(s, inp);
    } else if p.decision == Go(Flight5b) {
      PullSaw(s.cache, s.recvSequence + 1, SERVER_FINISHED_RULES, Codec(inp.restParses), 0);
    } else {
      RequestSaw(s.cache, VERIFY_REQUEST_RULES);
    }
  }

  lemma {:induction false} Flight4Saw(s: ParseState, inp: ParseInput)
    requires Flight4Parse(s, inp).decision.Go?
    ensures Saw(s.cache, CLIENT_FINISHED_RULE)
  {
    var next := PulledTo(s.cache, s.recvSequence, CLIENT_KEY_RULES);
    PullSaw(s.cache, next, CLIENT_FINISHED_RULES, Codec(inp.restParses), 0);
  }

  lemma {:induction false} FinishedSaw(s: ParseState, inp: ParseInput, first: nat, own: Flight, isClient: bool)
    requires var rules := if isClient then CLIENT_FINISHED_RULES else SERVER_FINISHED_RULES;
             FinishedParse(s, inp, first, rules, own).decision.Go?
    ensures Saw(s.cache, if isClient then CLIENT_FINISHED_RULE else SERVER_FINISHED_RULE)
  {
    PullSaw(s.cache, first, if isClient then CLIENT_FINISHED_RULES else SERVER_FINISHED_RULES, Codec(inp.restParses), 0);
  }

  /** Every parser, whatever else it finds. */
  lemma {:induction false} ParserSaw(f: Flight, s: ParseState, inp: ParseInput)
    requires Parse(f, s, inp).decision.Go?
    ensures SawFor(f, Parse(f, s, inp).decision.next, s.cache)
  {
    ParseDecides(f, s, inp);
    match f
    case Flight0 => HelloSaw(s, inp, f);
    case Flight2 => HelloSaw(s, inp, f);
    case Flight1 =>
      if Chosen(s.cache, FIRST_ANSWER_RULES, SERVER_HELLO).Some? { Flight3Saw(s, inp); }
      else { RequestSaw(s.cache, FIRST_ANSWER_RULES); }
    case Flight3 => Flight3Saw(s, inp);
    case Flight4 => Flight4Saw(s, inp);
    case Flight4b => FinishedSaw(s, inp, s.recvSequence, Flight4b, true);
    case Flight5 => FinishedSaw(s, inp, s.recvSequence, Flight5, false);
    case Flight5b => FinishedSaw(s, inp, s.recvSequence + 0xffff, Flight5b, false);
    case Flight6 => FinishedSaw(s, inp, s.recvSequence + 0xffff, Flight6, true);
  }

  /** A server past flight 0 has a ClientHello, and a client in flight 3 the HelloVerifyRequest; a client in flight 5 has
      the ServerHelloDone; an end in flight 5b or 6, or finished, has the other's Finished. */
  predicate Seen(s: Fsm) {
    && (!s.isClient && s.flight != Flight0 ==> Saw(s.cache, HELLO_RULE))
    && (s.flight == Flight3 ==> Saw(s.cache, REQUEST_RULE))
    && (s.flight == Flight5 ==> Saw(s.cache, DONE_RULE))
    && (s.phase == Finished ==> s.completed)
    && (s.flight in {Flight5b, Flight6} || s.completed ==>
          Saw(s.cache, if s.isClient then SERVER_FINISHED_RULE else CLIENT_FINISHED_RULE))
  }

  lemma {:induction false} SawMore(cache: seq<Item>, more: seq<Item>, r: Rule)
    requires Saw(cache, r)
    ensures Saw(cache + more, r)
  {
    var c :| c in cache && Matches(c, r);
    assert c in cache + more;
  }

  lemma {:induction false} SeenMore(s: Fsm, more: seq<Item>)
    requires Seen(s)
    ensures Seen(s.(cache := s.cache + more))
  {
    if Saw(s.cache, HELLO_RULE) { SawMore(s.cache, more, HELLO_RULE); }
    if Saw(s.cache, REQUEST_RULE) { SawMore(s.cache, more, REQUEST_RULE); }
    if s.flight == Flight5 { SawMore(s.cache, more, DONE_RULE); }
    var r := if s.isClient then SERVER_FINISHED_RULE else CLIENT_FINISHED_RULE;
    if Saw(s.cache, r) { SawMore(s.cache, more, r); }
  }

  lemma {:induction false} SettledSeen(s: Fsm, s1: Fsm, d: Decision)
    requires Invariant(s) && Seen(s) && s.phase == Waiting
    requires s1 == s.(cookie := s1.cookie, recvSequence := s1.recvSequence)
    requires d.Go? ==> Successor(s.flight, d.next) && SawFor(s.flight, d.next, s.cache)
    ensures Seen(Settled(s1, d))
  {
  }

  lemma {:induction false} StepSeen(s: Fsm, e: Event)
    requires Invariant(s) && Seen(s) && Enabled(s, e)
    ensures Seen(Apply(s, e))
  {
    match e
    case ReadHandshake(inp) =>
      if s.phase == Waiting {
        var ps := ParseState(s.cache, s.skipHelloVerify, s.cookie, s.recvSequence);
        var p := Parse(s.flight, ps, inp);
        ParseDecides(s.flight, ps, inp);
        if p.decision.Go? { ParserSaw(s.flight, ps, inp); }
        SettledSeen(s, s.(cookie := p.cookie, recvSequence := p.recvSequence), p.decision);
      }
    case WritePackets => SeenMore(s, OwnItems(s.isClient, s.flights));
    case Arrive(m, number) => SeenMore(s, [Transcript.Written(m, number, !s.isClient)]);
    case _ =>
  }

  lemma {:induction false} RunSeen(isClient: bool, skip: bool, es: seq<Event>)
    requires Run(Initial(isClient, skip), es).Some?
    ensures Seen(Run(Initial(isClient, skip), es).value)
  {
    if es != [] {
      RunSeen(isClient, skip, es[..|es| - 1]);
      RunKeeps(isClient, skip, es[..|es| - 1]);
      StepSeen(Run(Initial(isClient, skip), es[..|es| - 1]).value, es[|es| - 1]);
    }
  }

  /** No end finishes without the other's Finished, no client gets to flight 5 without a ServerHelloDone or to flight 3
      without a HelloVerifyRequest, and no server past flight 0 without a ClientHello. */
  lemma {:induction false} FinishesOnlyWithTheOther(isClient: bool, skip: bool, es: seq<Event>)
    requires Run(Initial(isClient, skip), es).Some?
    ensures var s := Run(Initial(isClient, skip), es).value;
            && (s.completed ==> Saw(s.cache, if isClient then SERVER_FINISHED_RULE else CLIENT_FINISHED_RULE))
            && (s.flight == Flight5 ==> Saw(s.cache, DONE_RULE)) && (s.flight == Flight3 ==> Saw(s.cache, REQUEST_RULE))
            && (!isClient && s.flight != Flight0 ==> Saw(s.cache, HELLO_RULE))
  {
    RunSeen(isClient, skip, es);
    RunKeeps(isClient, skip, es);
  }
}
