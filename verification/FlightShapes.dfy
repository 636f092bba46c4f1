/** Which messages an end has numbered, and in which order, when the other end is what it should be. */
module FlightShapes {
  import opened Bits
  import opened Wire
  import opened Fragmentation
  import opened HandshakeCaches
  import opened Flights
  import opened FlightRuns
  import opened Numbering

  // ---------------------------------------------------------------- the messages of a flight

  function MessagesOf(ds: seq<Draft>): seq<Message> {
    if ds == [] then []
    else match ds[0]
      case ChangeCipherSpec => MessagesOf(ds[1..])
      case Handshake(m) => [m] + MessagesOf(ds[1..])
  }

  lemma {:induction false} MessagesOfConcat(a: seq<Draft>, b: seq<Draft>)
    ensures MessagesOf(a + b) == MessagesOf(a) + MessagesOf(b)
    decreases a
  {
    if a == [] {
      assert a + b == b;
    } else {
      assert (a + b)[1..] == a[1..] + b;
      MessagesOfConcat(a[1..], b);
    }
  }

  lemma {:induction false} MessagesOfPlain(ds: seq<Draft>)
    requires forall i :: 0 <= i < |ds| ==> ds[i].Handshake?
    ensures |MessagesOf(ds)| == |ds| && forall i :: 0 <= i < |ds| ==> MessagesOf(ds)[i] == ds[i].m
    decreases ds
  {
    if ds != [] { MessagesOfPlain(ds[1..]); }
  }

  lemma {:induction false} MessagesOfChange(ds: seq<Draft>)
    requires CipherChange(ds)
    ensures MessagesOf(ds) == [ds[1].m]
  {
    assert ds[1..] == [ds[1]] && [ds[1]][1..] == [];
    assert MessagesOf([ds[1]]) == [ds[1].m];
  }

  /** Flight 5 ends with its one Finished. */
  lemma {:induction false} MessagesOfFlight5(cookie: seq<byte>, ds: seq<Draft>)
    requires Generates(Flight5, cookie, ds)
    ensures MessagesOf(ds) == MessagesOf(ds[..|ds| - 2]) + [ds[|ds| - 1].m]
    ensures |MessagesOf(ds[..|ds| - 2])| == |ds| - 2 <= 3
    ensures forall i :: 0 <= i < |ds| - 2 ==> MessagesOf(ds[..|ds| - 2])[i] == ds[i].m
  {
    var key, change := ds[..|ds| - 2], ds[|ds| - 2..];
    assert ds == key + change && change[1] == ds[|ds| - 1];
    MessagesOfConcat(key, change);
    MessagesOfPlain(key);
    MessagesOfChange(change);
  }

  lemma {:induction false} MessagesOfFlight4(cookie: seq<byte>, ds: seq<Draft>)
    requires Generates(Flight4, cookie, ds)
    ensures |MessagesOf(ds)| == |ds| <= 5 && forall i :: 0 <= i < |ds| ==> MessagesOf(ds)[i] == ds[i].m && ds[i].Handshake?
    ensures forall i :: 0 <= i < |ds| - 1 ==>
              ds[i].m.typ in {SERVER_HELLO, CERTIFICATE, SERVER_KEY_EXCHANGE, CERTIFICATE_REQUEST}
  {
    var middle := ds[1..|ds| - 1];
    forall i | 0 <= i < |ds| ensures ds[i].Handshake? {
      if 1 <= i < |ds| - 1 { assert middle[i - 1] == ds[i]; }
    }
    forall i | 0 <= i < |ds| - 1
      ensures ds[i].m.typ in {SERVER_HELLO, CERTIFICATE, SERVER_KEY_EXCHANGE, CERTIFICATE_REQUEST}
    {
      if i >= 1 { assert middle[i - 1] == ds[i]; }
    }
    MessagesOfPlain(ds);
  }

  lemma {:induction false} MessagesOfFlight4b(cookie: seq<byte>, ds: seq<Draft>)
    requires Generates(Flight4b, cookie, ds)
    ensures MessagesOf(ds) == [ds[0].m, ds[2].m]
  {
    assert ds == [ds[0]] + ds[1..] && [ds[0]][1..] == [];
    MessagesOfConcat([ds[0]], ds[1..]);
    MessagesOfChange(ds[1..]);
    assert MessagesOf([ds[0]]) == [ds[0].m];
  }

  lemma {:induction false} MessagesOfOne(ds: seq<Draft>)
    requires |ds| == 1 && ds[0].Handshake?
    ensures MessagesOf(ds) == [ds[0].m]
  {
    assert ds[1..] == [];
  }

  // ---------------------------------------------------------------- numbering them

  lemma {:induction false} NumberedMessages(ds: seq<Draft>, first: nat)
    requires first + |MessagesOf(ds)| <= NUMBERS
    ensures |Number(ds, first)| == |MessagesOf(ds)|
    ensures forall i :: 0 <= i < |MessagesOf(ds)| ==> Number(ds, first)[i] == Numbered(first + i, MessagesOf(ds)[i])
    decreases ds
  {
    if ds != [] {
      match ds[0]
      case ChangeCipherSpec => NumberedMessages(ds[1..], first);
      case Handshake(m) => NumberedMessages(ds[1..], first + 1);
    }
  }

  lemma {:induction false} OneMoreMessage(log: seq<Numbered>, n: Numbered)
    requires n.number == |Messages(log)|
    ensures Messages(log + [n]) == Messages(log) + [n.m]
  {
    assert (log + [n])[..|log|] == log;
  }

  lemma {:induction false} NumberFirst(log: seq<Numbered>, m: Message, rest: seq<Draft>, first: uint16)
    ensures log + Number([Handshake(m)] + rest, first) == log + [Numbered(first, m)] + Number(rest, first + 1)
    ensures MessagesOf([Handshake(m)] + rest) == [m] + MessagesOf(rest)
  {
    var ds := [Handshake(m)] + rest;
    assert ds[0] == Handshake(m) && ds[1..] == rest;
  }

  lemma {:induction false} MessagesExtend(log: seq<Numbered>, ds: seq<Draft>, first: nat)
    requires |Messages(log)| == first && first + |MessagesOf(ds)| <= NUMBERS
    ensures Messages(log + Number(ds, first)) == Messages(log) + MessagesOf(ds)
    decreases ds
  {
    if ds == [] {
      assert log + [] == log;
    } else if ds[0].ChangeCipherSpec? {
      MessagesExtend(log, ds[1..], first);
    } else {
      var m, rest := ds[0].m, ds[1..];
      assert ds == [Handshake(m)] + rest;
      NumberFirst(log, m, rest, first);
      OneMoreMessage(log, Numbered(first, m));
      MessagesExtend(log + [Numbered(first, m)], rest, first + 1);
      assert Messages(log) + [m] + MessagesOf(rest) == Messages(log) + ([m] + MessagesOf(rest));
    }
  }

  // ---------------------------------------------------------------- shapes

  predicate AllTyped(ms: seq<Message>, typ: byte) {
    forall i :: 0 <= i < |ms| ==> ms[i].typ == typ
  }

  predicate NoneTyped(ms: seq<Message>, typ: byte) {
    forall i :: 0 <= i < |ms| ==> ms[i].typ != typ
  }

  /** A message of this type is the last one. */
  predicate OnlyLast(ms: seq<Message>, typ: byte) {
    forall i :: 0 <= i < |ms| - 1 ==> ms[i].typ != typ
  }

  /** After a ServerHelloDone there is only a Finished, under the new cipher. */
  predicate DoneCloses(ms: seq<Message>) {
    forall i, j :: 0 <= i < j < |ms| && ms[i].typ == SERVER_HELLO_DONE ==> ms[j].typ == FINISHED && ms[j].epoch == 1
  }

  /** A HelloVerifyRequest is the first one. */
  predicate RequestFirst(ms: seq<Message>) {
    forall i :: 0 < i < |ms| ==> ms[i].typ != HELLO_VERIFY_REQUEST
  }

  predicate ClientShape(flight: Flight, preparing: bool, ms: seq<Message>) {
    match flight
    case Flight1 => AllTyped(ms, CLIENT_HELLO) && |ms| <= if preparing then 0 else 1
    case Flight3 => AllTyped(ms, CLIENT_HELLO) && |ms| <= if preparing then 1 else 2
    case _ => if preparing then AllTyped(ms, CLIENT_HELLO) && |ms| <= 2 else |ms| <= 6 && OnlyLast(ms, FINISHED)
  }

  predicate ServerShape(flight: Flight, preparing: bool, ms: seq<Message>) {
    if flight in {Flight0, Flight2} || (flight in {Flight4, Flight4b} && preparing)
    then AllTyped(ms, HELLO_VERIFY_REQUEST) && |ms| <= 1
    else if flight == Flight4 || (flight == Flight6 && preparing)
    then |ms| <= 6 && NoneTyped(ms, FINISHED) && OnlyLast(ms, SERVER_HELLO_DONE) && RequestFirst(ms)
    else |ms| <= 7 && OnlyLast(ms, FINISHED) && DoneCloses(ms) && RequestFirst(ms)
  }

  predicate SideShape(isClient: bool, flight: Flight, preparing: bool, ms: seq<Message>) {
    if isClient then ClientShape(flight, preparing, ms) else ServerShape(flight, preparing, ms)
  }

  /** The flight at hand is the last messages. */
  predicate Ends(ms: seq<Message>, flights: seq<Numbered>) {
    && |flights| <= |ms|
    && forall i :: 0 <= i < |flights| ==>
         flights[i].number == |ms| - |flights| + i && flights[i].m == ms[|ms| - |flights| + i]
  }

  /** A client in flight 1 has pulled nothing, and one in flight 3 the HelloVerifyRequest. */
  predicate HasPulled(s: Fsm) {
    s.isClient && s.phase != Errored ==>
      (s.flight == Flight1 ==> s.recvSequence == 0) && (s.flight == Flight3 ==> s.recvSequence == 1)
  }

  predicate Shape(s: Fsm) {
    && SideShape(s.isClient, s.flight, s.phase == Preparing, Messages(s.log))
    && HasPulled(s) && s.sendSequence == |Messages(s.log)|
    && (s.phase in {Sending, Waiting, Finished} ==> Ends(Messages(s.log), s.flights))
  }

  // ---------------------------------------------------------------- generating

  lemma {:induction false} ClientGenerates(flight: Flight, cookie: seq<byte>, ds: seq<Draft>, ms: seq<Message>)
    requires flight in {Flight1, Flight3, Flight5, Flight5b}
    requires Generates(flight, cookie, ds) && ClientShape(flight, true, ms)
    ensures ClientShape(flight, false, ms + MessagesOf(ds)) && |MessagesOf(ds)| <= 4
  {
    match flight
    case Flight5 => MessagesOfFlight5(cookie, ds);
    case Flight5b => MessagesOfChange(ds);
    case _ => MessagesOfOne(ds);
  }

  lemma {:induction false} Flight4Generates(cookie: seq<byte>, ds: seq<Draft>, ms: seq<Message>)
    requires Generates(Flight4, cookie, ds) && ServerShape(Flight4, true, ms)
    ensures ServerShape(Flight4, false, ms + MessagesOf(ds)) && |MessagesOf(ds)| <= 5
  {
    MessagesOfFlight4(cookie, ds);
    var all := ms + MessagesOf(ds);
    forall i | 0 <= i < |all| - 1 ensures all[i].typ != SERVER_HELLO_DONE {
      if i >= |ms| { assert all[i] == ds[i - |ms|].m; }
    }
    forall i | 0 <= i < |all| ensures all[i].typ != FINISHED && (i > 0 ==> all[i].typ != HELLO_VERIFY_REQUEST) {
      if i >= |ms| { assert all[i] == ds[i - |ms|].m; }
    }
  }

  lemma {:induction false} ServerGenerates(flight: Flight, cookie: seq<byte>, ds: seq<Draft>, ms: seq<Message>)
    requires flight in {Flight0, Flight4, Flight4b, Flight6}
    requires Generates(flight, cookie, ds) && ServerShape(flight, true, ms)
    ensures ServerShape(flight, false, ms + MessagesOf(ds)) && |MessagesOf(ds)| <= 5
  {
    match flight
    case Flight0 => assert ms + [] == ms;
    case Flight4 => Flight4Generates(cookie, ds, ms);
    case Flight4b => MessagesOfFlight4b(cookie, ds);
    case Flight6 => MessagesOfChange(ds);
  }

  lemma {:induction false} GeneratedShape(s: Fsm, ds: seq<Draft>, ms: seq<Message>)
    requires OnOwnSide(s) && s.flight != Flight2 && Generates(s.flight, s.cookie, ds)
    requires SideShape(s.isClient, s.flight, true, ms)
    ensures SideShape(s.isClient, s.flight, false, ms + MessagesOf(ds)) && |ms| + |MessagesOf(ds)| <= 11
  {
    if s.isClient {
      ClientGenerates(s.flight, s.cookie, ds, ms);
    } else {
      ServerGenerates(s.flight, s.cookie, ds, ms);
    }
  }

  lemma {:induction false} GeneratedEnds(ms: seq<Message>, ds: seq<Draft>)
    requires |ms| + |MessagesOf(ds)| <= NUMBERS
    ensures Ends(ms + MessagesOf(ds), Number(ds, |ms|)) && |Number(ds, |ms|)| == |MessagesOf(ds)|
  {
    NumberedMessages(ds, |ms|);
  }

  lemma {:induction false} PreparedOtherShape(s: Fsm, ds: seq<Draft>, random: seq<byte>)
    requires OnOwnSide(s) && Shape(s) && s.phase == Preparing && s.flight != Flight2 && Generates(s.flight, s.cookie, ds)
    ensures Shape(Prepared(s, ds, random))
    ensures Messages(Prepared(s, ds, random).log) == Messages(s.log) + MessagesOf(ds)
  {
    GeneratedShape(s, ds, Messages(s.log));
    GeneratedEnds(Messages(s.log), ds);
    MessagesExtend(s.log, ds, s.sendSequence);
  }

  lemma {:induction false} PreparedRequestShape(s: Fsm, ds: seq<Draft>, random: seq<byte>)
    requires NumberingInvariant(s) && !s.isClient && Shape(s) && s.phase == Preparing && s.flight == Flight2
    requires Generates(s.flight, s.cookie, ds)
    ensures Shape(Prepared(s, ds, random))
    ensures Messages(Prepared(s, ds, random).log) == MessagesOf(ds)
  {
    var n := VerifyRequest(s.cookie);
    assert Number(ds[1..], 1) == [];
    assert Number(ds, 0) == [n];
    RepeatedRequest(s.log + [n], n);
    MessagesOfOne(ds);
  }

  // ---------------------------------------------------------------- parsing

  /** What an honest server's HelloVerifyRequest looks like in the cache. */
  predicate RequestsAreFirst(cache: seq<Item>) {
    forall c :: c in cache && Matches(c, VERIFY_REQUEST_RULES[0]) ==>
      |c.data| >= HANDSHAKE_HEADER_SIZE && DecodeHeader(c.data).value.messageSequence == 0
  }

  /** A request that is pulled carries the number it is pulled from. */
  lemma {:induction false} RequestNumber(cache: seq<Item>, first: nat, bodyParses: (byte, seq<byte>) -> bool)
    requires PullsFully(cache, first, VERIFY_REQUEST_RULES, bodyParses)
    ensures exists c :: && c in cache && Matches(c, VERIFY_REQUEST_RULES[0]) && |c.data| >= HANDSHAKE_HEADER_SIZE
                        && DecodeHeader(c.data).value.messageSequence == first % 0x1_0000
  {
    var r := VERIFY_REQUEST_RULES[0];
    assert Governing(VERIFY_REQUEST_RULES, HELLO_VERIFY_REQUEST) == Some(r);
    BestIsHighestMatch(cache, r);
    assert |VERIFY_REQUEST_RULES| == 1 && Found(cache, VERIFY_REQUEST_RULES, 0) == [];
    var found := Found(cache, VERIFY_REQUEST_RULES, 1);
    assert found == [HELLO_VERIFY_REQUEST];
    assert InPlace(cache, VERIFY_REQUEST_RULES, found[0], first + 0, bodyParses);
    assert Best(cache, r).value in cache;
  }

  /** A second request is never found. */
  lemma {:induction false} NoSecondRequest(cache: seq<Item>, bodyParses: (byte, seq<byte>) -> bool)
    requires RequestsAreFirst(cache)
    ensures !PullsFully(cache, 1, VERIFY_REQUEST_RULES, bodyParses)
  {
    if PullsFully(cache, 1, VERIFY_REQUEST_RULES, bodyParses) {
      RequestNumber(cache, 1, bodyParses);
    }
  }

  /** A client goes back to flight 3 only from flight 1, and has then pulled one message. */
  lemma {:induction false} RequestIsPulled(s: ParseState, inp: ParseInput, f: Flight)
    requires f in {Flight1, Flight3} && s.recvSequence == (if f == Flight1 then 0 else 1) && RequestsAreFirst(s.cache)
    requires Parse(f, s, inp).decision == Go(Flight3)
    ensures f == Flight1 && Parse(f, s, inp).recvSequence == 1
  {
    if f == Flight3 {
      NoSecondRequest(s.cache, Codec(inp.restParses));
      assert false;
    } else if Chosen(s.cache, FIRST_ANSWER_RULES, SERVER_HELLO).None? {
      assert |Found(s.cache, FIRST_ANSWER_RULES, 1)| <= 1;
    }
  }

  lemma {:induction false} StayingPullsNothing(s: ParseState, inp: ParseInput, f: Flight)
    requires f in {Flight1, Flight3} && Parse(f, s, inp).decision == Stay
    ensures Parse(f, s, inp).recvSequence == s.recvSequence
  {
  }

  lemma {:induction false} SettledShape(s: Fsm, recvSequence: nat, cookie: seq<byte>, d: Decision)
    requires FlightRuns.Invariant(s) && Shape(s) && s.phase == Waiting && (d.Go? ==> Successor(s.flight, d.next))
    requires s.isClient && d == Stay ==> s.flight in {Flight1, Flight3} ==> recvSequence == s.recvSequence
    requires s.isClient && d == Go(Flight3) ==> s.flight == Flight1 && recvSequence == 1
    ensures Shape(Settled(s.(recvSequence := recvSequence, cookie := cookie), d))
  {
    var ms := Messages(s.log);
    if d.Go? {
      assert SideShape(s.isClient, s.flight, false, ms);
      if !(IsLastRecvFlight(d.next) && s.flight == d.next) { NextShape(s, d.next, ms); }
    }
  }

  lemma {:induction false} NextShape(s: Fsm, next: Flight, ms: seq<Message>)
    requires OnOwnSide(s) && !IsLastSendFlight(s.flight) && !IsLastRecvFlight(s.flight)
    requires SideShape(s.isClient, s.flight, false, ms) && Successor(s.flight, next)
    requires next == Flight3 ==> s.flight == Flight1
    ensures SideShape(s.isClient, next, true, ms)
  {
  }

  lemma {:induction false} ReadShape(s: Fsm, inp: ParseInput)
    requires FlightRuns.Invariant(s) && Shape(s) && s.phase == Waiting && (s.isClient ==> RequestsAreFirst(s.cache))
    ensures Shape(Waited(s, inp))
  {
    var ps := ParseState(s.cache, s.skipHelloVerify, s.cookie, s.recvSequence);
    var p := Parse(s.flight, ps, inp);
    ParseDecides(s.flight, ps, inp);
    if s.isClient && p.decision == Go(Flight3) { RequestIsPulled(ps, inp, s.flight); }
    if s.flight in {Flight1, Flight3} && p.decision == Stay { StayingPullsNothing(ps, inp, s.flight); }
    SettledShape(s, p.recvSequence, p.cookie, p.decision);
  }

  lemma {:induction false} StepShape(s: Fsm, e: Event)
    requires FlightRuns.Invariant(s) && NumberingInvariant(s) && Shape(s) && Enabled(s, e)
    requires s.isClient ==> RequestsAreFirst(s.cache)
    ensures Shape(Apply(s, e))
  {
    match e
    case Generate(ds, random) =>
      if s.flight == Flight2 { PreparedRequestShape(s, ds, random); } else { PreparedOtherShape(s, ds, random); }
    case ReadHandshake(inp) => if s.phase == Waiting { ReadShape(s, inp); }
    case _ =>
  }
}
