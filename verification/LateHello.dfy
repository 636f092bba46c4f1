/** A run of both ends in which the server resumes a session after it has asked the client to verify: the two do not agree
    on what the server's Finished is computed over. */
module LateHello {
  import opened Bits
  import opened Wire
  import opened Reassembly
  import opened Fragmentation
  import opened HandshakeCaches
  import opened Flights
  import opened FlightRuns
  import opened Numbering
  import opened FlightShapes
  import opened PulledMessages
  import opened TwoEnds
  import opened ResumedHandshake
  import D = Delivery
  import M = MixedSizes
  import T = Transcript

  // ---------------------------------------------------------------- one message over the network

  predicate Short(m: Message) {
    0 < |m.content| <= 1000
  }

  function Record(m: Message, i: uint16, number: M.Number): seq<byte>
    requires Short(m)
  {
    EncodeHandshakeRecord(m.epoch, number, FirstFragment(m, i, 1000, 0))
  }

  lemma {:induction false} RecordIs(sent: seq<Message>, i: nat, number: M.Number)
    requires i < |sent| < D.MAX_MESSAGES && Short(sent[i])
    ensures var m, record := sent[i], Record(sent[i], i, number);
            && |record| == RECORD_HEADER_SIZE + HANDSHAKE_HEADER_SIZE + |m.content| && D.HonestRecord(sent, record)
            && DecodeHeader(record[RECORD_HEADER_SIZE..]).value == Header(m.typ, |m.content|, i, 0, |m.content|)
            && record[RECORD_HEADER_SIZE + HANDSHAKE_HEADER_SIZE..] == m.content
  {
    var m := sent[i];
    var body := FirstFragment(m, i, 1000, 0);
    assert m.content[0..|m.content|] == m.content;
    RecordRoundTrip(m.epoch, number, body);
    HeaderRoundTrip(Header(m.typ, |m.content|, i, 0, |m.content|), m.content);
    assert Record(m, i, number)[RECORD_HEADER_SIZE..][HANDSHAKE_HEADER_SIZE..] == m.content;
  }

  /** With nothing held, a short message that is next is popped at once. */
  lemma {:induction false} ReceiveNext(sent: seq<Message>, i: nat, number: M.Number)
    requires i < |sent| < D.MAX_MESSAGES && Short(sent[i])
    ensures var (b1, r, out) := Receive(Buffer(map[], i), Record(sent[i], i, number));
            r.Pushed? && |out| == 1 && b1 == Buffer(map[], (i + 1) % 0x1_0000)
  {
    var empty: Cache := map[];
    var m, record := sent[i], Record(sent[i], i, number);
    var f := Fragment(m.epoch, Header(m.typ, |m.content|, i, 0, |m.content|), m.content);
    RecordIs(sent, i, number);
    assert CacheSize(empty) == 0;
    D.PushHonest(sent, Buffer(empty, i), record);
    var b1 := AfterPush(Buffer(empty, i), record).0;
    assert FragmentsOf(empty, i) + [f] == [f];
    assert b1 == Buffer(map[i := [f]], i);
    assert FirstAt([f], 0) == 0;
    assert b1.cache - {i} == empty;
    var b2 := AfterPop(b1).0;
    assert b2 == Buffer(empty, (i + 1) % 0x1_0000) && AfterPop(b1).1.Some?;
    assert FirstAt([], 0) == 0;
    DrainStops(b2, []);
    D.DrainOne(b1, []);
  }

  /** The link once its next message has been transmitted and delivered, in a record with the message's own number. */
  predicate Delivered(l: D.Link, l1: D.Link) {
    && |l.popped| < |l.sent| < D.MAX_MESSAGES && l1.sent == l.sent
    && l1.popped == l.popped + [D.Expected(l.sent, |l.popped|)] && l1.buffer.cache == map[]
  }

  lemma {:induction false} TransmitsNext(l: D.Link, i: nat)
    requires i < |l.sent| < D.MAX_MESSAGES && Short(l.sent[i])
    ensures D.Enabled(l, D.Transmit(i, 1000, 0, i))
    ensures D.Apply(l, D.Transmit(i, 1000, 0, i)) == l.(wire := l.wire + {Record(l.sent[i], i, i)})
  {
    M.FirstOfFragments(l.sent[i], i, 1000);
  }

  lemma {:induction false} PopsNext(l: D.Link, i: nat, record: seq<byte>)
    requires i < |l.sent| < D.MAX_MESSAGES && Short(l.sent[i]) && l.buffer == Buffer(map[], i)
    requires record == Record(l.sent[i], i, i) && record in l.wire
    ensures var l1 := D.Apply(l, D.Deliver(record));
            l1.sent == l.sent && |l1.popped| == |l.popped| + 1 && l.popped <= l1.popped && l1.buffer.cache == map[]
  {
    ReceiveNext(l.sent, i, i);
  }

  lemma {:induction false} DeliversNext(l: D.Link, i: nat)
    requires D.Invariant(l) && i == |l.popped| < |l.sent| && Short(l.sent[i]) && l.buffer.cache == map[]
    requires Record(l.sent[i], i, i) in l.wire
    ensures Delivered(l, D.Apply(l, D.Deliver(Record(l.sent[i], i, i))))
  {
    var record := Record(l.sent[i], i, i);
    assert l.buffer == Buffer(map[], i);
    PopsNext(l, i, record);
    D.StepKeeps(l, D.Deliver(record));
    PoppedInTurn(l, D.Apply(l, D.Deliver(record)));
  }

  lemma {:induction false} PoppedInTurn(l: D.Link, l1: D.Link)
    requires D.Invariant(l1) && l1.sent == l.sent && |l1.popped| == |l.popped| + 1 && l.popped <= l1.popped
    ensures |l.popped| < |l.sent| < D.MAX_MESSAGES && l1.popped == l.popped + [D.Expected(l.sent, |l.popped|)]
  {
    assert l1.popped[|l.popped|] == D.Expected(l.sent, |l.popped|);
  }

  // ---------------------------------------------------------------- pulling one message

  lemma {:induction false} WireParses(m: Message, i: uint16, bodyParses: (byte, seq<byte>) -> bool)
    ensures Parses(WireMessage(m, i), bodyParses) <==> bodyParses(m.typ, m.content)
    ensures |WireMessage(m, i)| >= HANDSHAKE_HEADER_SIZE && DecodeHeader(WireMessage(m, i)).value.messageSequence == i
    ensures WireMessage(m, i)[HANDSHAKE_HEADER_SIZE..] == m.content
  {
    HeaderRoundTrip(Header(m.typ, |m.content|, i, 0, |m.content|), m.content);
  }

  /** The only match of the rule. */
  predicate OnlyMatch(cache: seq<Item>, r: Rule, c: Item) {
    c in cache && Matches(c, r) && forall d :: d in cache && Matches(d, r) ==> d == c
  }

  lemma {:induction false} BestIsOnly(cache: seq<Item>, r: Rule, c: Item)
    requires OnlyMatch(cache, r, c)
    ensures Best(cache, r) == Some(c)
  {
    BestIsHighestMatch(cache, r);
  }

  lemma {:induction false} PullsOnly(cache: seq<Item>, r: Rule, m: Message, i: uint16, first: nat,
                                     bodyParses: (byte, seq<byte>) -> bool)
    requires OnlyMatch(cache, r, T.Written(m, i, r.isClient)) && bodyParses(m.typ, m.content)
    ensures Chosen(cache, [r], r.typ) == Some(T.Written(m, i, r.isClient))
    ensures PullsFully(cache, first, [r], bodyParses) <==> first % 0x1_0000 == i
  {
    BestIsOnly(cache, r, T.Written(m, i, r.isClient));
    WireParses(m, i, bodyParses);
    assert Found(cache, [r], 0) == [];
    var found := Found(cache, [r], 1);
    assert found == [r.typ];
    assert InPlace(cache, [r], found[0], first + 0, bodyParses) <==> first % 0x1_0000 == i;
  }

  // ---------------------------------------------------------------- what the parsers make of it

  const ANY: (byte, seq<byte>) -> bool := (typ: byte, body: seq<byte>) => true

  function Finds(resumes: bool): ParseInput {
    ParseInput(ANY, false, false, resumes, false)
  }

  predicate ReadableHello(m: Message) {
    IsHello(m) && Short(m) && HelloCookie(m.content).Some?
  }

  /** A server that holds this one ClientHello. */
  lemma {:induction false} ServerParses(f: Flight, s: ParseState, hello: Message, resumes: bool)
    requires ReadableHello(hello) && OnlyMatch(s.cache, CLIENT_HELLO_RULES[0], T.Written(hello, 0, true))
    requires f == Flight0 || (f == Flight2 && s.recvSequence == 1)
    ensures Parse(f, s, Finds(resumes)) ==
            Parsed(s.cookie, 1, Go(if resumes then Flight4b else if s.skipHelloVerify then Flight4 else Flight2))
  {
    var r := CLIENT_HELLO_RULES[0];
    assert CLIENT_HELLO_RULES == [r];
    PullsOnly(s.cache, r, hello, 0, 0, Codec(ANY));
    PullsOnly(s.cache, r, hello, 0, s.recvSequence, Codec(ANY));
  }

  lemma {:induction false} RequestFound(cache: seq<Item>, request: Message)
    requires OnlyMatch(cache, REQUEST_RULE, T.Written(request, 0, false))
    requires forall c :: c in cache ==> !Matches(c, FIRST_ANSWER_RULES[1])
    ensures Chosen(cache, FIRST_ANSWER_RULES, SERVER_HELLO).None?
    ensures Chosen(cache, FIRST_ANSWER_RULES, HELLO_VERIFY_REQUEST) == Some(T.Written(request, 0, false))
    ensures Found(cache, FIRST_ANSWER_RULES, 2) == [HELLO_VERIFY_REQUEST]
  {
    BestIsOnly(cache, REQUEST_RULE, T.Written(request, 0, false));
    BestIsHighestMatch(cache, FIRST_ANSWER_RULES[1]);
    var one := FIRST_ANSWER_RULES[..1];
    assert one == [REQUEST_RULE];
    assert Governing(one, HELLO_VERIFY_REQUEST) == Some(REQUEST_RULE);
    assert Governing(FIRST_ANSWER_RULES, HELLO_VERIFY_REQUEST) == Some(REQUEST_RULE);
    assert Found(cache, FIRST_ANSWER_RULES, 0) == [];
    assert Found(cache, FIRST_ANSWER_RULES, 1) == [HELLO_VERIFY_REQUEST];
  }

  /** A client in flight 1 that holds this one HelloVerifyRequest and no ServerHello. */
  lemma {:induction false} ClientParses(s: ParseState, request: Message)
    requires OnlyMatch(s.cache, REQUEST_RULE, T.Written(request, 0, false)) && s.recvSequence == 0
    requires request.typ == HELLO_VERIFY_REQUEST && VerifyCookie(request.content).Some?
    requires forall c :: c in s.cache ==> !Matches(c, FIRST_ANSWER_RULES[1])
    ensures Parse(Flight1, s, Finds(false)) == Parsed(VerifyCookie(request.content).value, 1, Go(Flight3))
  {
    RequestFound(s.cache, request);
    WireParses(request, 0, Codec(ANY));
    var found := Found(s.cache, FIRST_ANSWER_RULES, |FIRST_ANSWER_RULES|);
    assert InPlace(s.cache, FIRST_ANSWER_RULES, found[0], 0 + 0, Codec(ANY));
  }

  // ---------------------------------------------------------------- steps of a run

  lemma {:induction false} OneMoreStep(skip: bool, es: seq<Step>, st: Step)
    requires RunBoth(skip, es).Some? && EnabledBoth(RunBoth(skip, es).value, st)
    ensures RunBoth(skip, es + [st]) == Some(ApplyBoth(RunBoth(skip, es).value, st))
  {
    assert (es + [st])[..|es|] == es;
  }

  lemma {:induction false} ReceivedOne(sent: seq<Message>, i: nat, byClient: bool)
    requires i < |sent| < D.MAX_MESSAGES
    ensures T.ReceivedAll([D.Expected(sent, i)], byClient) == [T.Written(sent[i], i, byClient)]
  {
    T.ReceivedIsWritten(sent, i, byClient);
    T.WrittenAt(sent, byClient, i);
    assert [D.Expected(sent, i)][..0] == [];
    assert T.ReceivedAll([], byClient) == [];
  }

  /** The run goes on from one moment to another. */
  ghost predicate Reaches(skip: bool, es: seq<Step>, p: Pair) {
    RunBoth(skip, es) == Some(p)
  }

  /** The server's or the client's next message has not arrived, and nothing else is on its way. */
  predicate Awaits(l: D.Link) {
    |l.popped| < |l.sent| < D.MAX_MESSAGES && Short(l.sent[|l.popped|]) && l.buffer.cache == map[]
  }

  function NextRecord(l: D.Link): seq<byte>
    requires Awaits(l) && D.Invariant(l)
  {
    Record(l.sent[|l.popped|], |l.popped|, |l.popped|)
  }

  function NextItem(l: D.Link, byClient: bool): Item
    requires |l.popped| < |l.sent| < D.MAX_MESSAGES
  {
    T.Written(l.sent[|l.popped|], |l.popped|, byClient)
  }

  lemma {:induction false} UpTransmits(skip: bool, es: seq<Step>, p: Pair) returns (es1: seq<Step>, p1: Pair)
    requires Reaches(skip, es, p) && Awaits(p.up) && D.Invariant(p.up)
    ensures Reaches(skip, es1, p1) && es <= es1
    ensures p1 == p.(up := p.up.(wire := p.up.wire + {NextRecord(p.up)}))
  {
    var st := Network(true, D.Transmit(|p.up.popped|, 1000, 0, |p.up.popped|));
    TransmitsNext(p.up, |p.up.popped|);
    OneMoreStep(skip, es, st);
    es1, p1 := es + [st], ApplyBoth(p, st);
    assert T.ReceivedAll([], true) == [] && p.server.cache + [] == p.server.cache;
  }

  lemma {:induction false} UpDelivers(skip: bool, es: seq<Step>, p: Pair) returns (es1: seq<Step>, p1: Pair)
    requires Reaches(skip, es, p) && Awaits(p.up) && D.Invariant(p.up)
    requires NextRecord(p.up) in p.up.wire
    ensures Reaches(skip, es1, p1) && es <= es1 && Delivered(p.up, p1.up)
    ensures p1 == p.(up := p1.up, server := Receiving(p.server, [NextItem(p.up, true)]))
  {
    var i := |p.up.popped|;
    var st := Network(true, D.Deliver(Record(p.up.sent[i], i, i)));
    DeliversNext(p.up, i);
    OneMoreStep(skip, es, st);
    es1, p1 := es + [st], ApplyBoth(p, st);
    ReceivedOne(p.up.sent, i, true);
    assert p1.up.popped[i..] == [D.Expected(p.up.sent, i)];
  }

  lemma {:induction false} UpArrives(skip: bool, es: seq<Step>, p: Pair) returns (es1: seq<Step>, p1: Pair)
    requires Reaches(skip, es, p) && Awaits(p.up)
    ensures Reaches(skip, es1, p1) && es <= es1 && Delivered(p.up, p1.up)
    ensures p1 == p.(up := p1.up, server := Receiving(p.server, [NextItem(p.up, true)]))
  {
    UpInvariant(skip, es);
    es1, p1 := UpTransmits(skip, es, p);
    UpInvariant(skip, es1);
    es1, p1 := UpDelivers(skip, es1, p1);
  }

  lemma {:induction false} UpInvariant(skip: bool, es: seq<Step>)
    requires RunBoth(skip, es).Some?
    ensures D.Invariant(RunBoth(skip, es).value.up)
  {
    RunKeeps3(skip, es);
  }

  lemma {:induction false} DownTransmits(skip: bool, es: seq<Step>, p: Pair) returns (es1: seq<Step>, p1: Pair)
    requires Reaches(skip, es, p) && Awaits(p.down) && D.Invariant(p.down)
    ensures Reaches(skip, es1, p1) && es <= es1
    ensures p1 == p.(down := p.down.(wire := p.down.wire + {NextRecord(p.down)}))
  {
    var st := Network(false, D.Transmit(|p.down.popped|, 1000, 0, |p.down.popped|));
    TransmitsNext(p.down, |p.down.popped|);
    OneMoreStep(skip, es, st);
    es1, p1 := es + [st], ApplyBoth(p, st);
    assert T.ReceivedAll([], false) == [] && p.client.cache + [] == p.client.cache;
  }

  lemma {:induction false} DownDelivers(skip: bool, es: seq<Step>, p: Pair) returns (es1: seq<Step>, p1: Pair)
    requires Reaches(skip, es, p) && Awaits(p.down) && D.Invariant(p.down)
    requires NextRecord(p.down) in p.down.wire
    ensures Reaches(skip, es1, p1) && es <= es1 && Delivered(p.down, p1.down)
    ensures p1 == p.(down := p1.down, client := Receiving(p.client, [NextItem(p.down, false)]))
  {
    var i := |p.down.popped|;
    var st := Network(false, D.Deliver(Record(p.down.sent[i], i, i)));
    DeliversNext(p.down, i);
    OneMoreStep(skip, es, st);
    es1, p1 := es + [st], ApplyBoth(p, st);
    ReceivedOne(p.down.sent, i, false);
    assert p1.down.popped[i..] == [D.Expected(p.down.sent, i)];
  }

  lemma {:induction false} DownArrives(skip: bool, es: seq<Step>, p: Pair) returns (es1: seq<Step>, p1: Pair)
    requires Reaches(skip, es, p) && Awaits(p.down)
    ensures Reaches(skip, es1, p1) && es <= es1 && Delivered(p.down, p1.down)
    ensures p1 == p.(down := p1.down, client := Receiving(p.client, [NextItem(p.down, false)]))
  {
    DownInvariant(skip, es);
    es1, p1 := DownTransmits(skip, es, p);
    DownInvariant(skip, es1);
    es1, p1 := DownDelivers(skip, es1, p1);
  }

  lemma {:induction false} DownInvariant(skip: bool, es: seq<Step>)
    requires RunBoth(skip, es).Some?
    ensures D.Invariant(RunBoth(skip, es).value.down)
  {
    RunKeeps3(skip, es);
  }

  const COOKIE: seq<byte> := [7, 7, 7, 7, 7, 7, 7, 7, 7, 7, 7, 7, 7, 7, 7, 7, 7, 7, 7, 7]

  /** A flight generated and written. */
  lemma {:induction false} ServerWrites(skip: bool, es: seq<Step>, p: Pair, ds: seq<Draft>)
    returns (es1: seq<Step>, p1: Pair)
    requires Reaches(skip, es, p) && p.server.phase == Preparing && Generates(p.server.flight, p.server.cookie, ds)
    requires !IsLastSendFlight(p.server.flight)
    ensures Reaches(skip, es1, p1) && es <= es1 && |es| < |es1| && es1[|es|] == Server(Generate(ds, COOKIE))
    ensures p1.client == p.client && p1.up == p.up
    ensures p1.server == Written(Prepared(p.server, ds, COOKIE))
    ensures p1.down == p.down.(sent := Messages(p1.server.log))
  {
    OneMoreStep(skip, es, Server(Generate(ds, COOKIE)));
    es1 := es + [Server(Generate(ds, COOKIE))];
    OneMoreStep(skip, es1, Server(WritePackets));
    RunKeeps3(skip, es1);
    var mid := RunBoth(skip, es1).value;
    ReachedHolds(mid.server, false, skip);
    ShortLog(mid.server);
    PutAllSends(mid.down, mid.server.flights, Messages(mid.server.log));
    es1, p1 := es1 + [Server(WritePackets)], ApplyBoth(mid, Server(WritePackets));
  }

  lemma {:induction false} ClientWrites(skip: bool, es: seq<Step>, p: Pair, ds: seq<Draft>)
    returns (es1: seq<Step>, p1: Pair)
    requires Reaches(skip, es, p) && p.client.phase == Preparing && Generates(p.client.flight, p.client.cookie, ds)
    requires !IsLastSendFlight(p.client.flight)
    ensures Reaches(skip, es1, p1) && es <= es1 && p1.server == p.server && p1.down == p.down
    ensures p1.client == Written(Prepared(p.client, ds, COOKIE))
    ensures p1.up == p.up.(sent := Messages(p1.client.log))
  {
    OneMoreStep(skip, es, Client(Generate(ds, COOKIE)));
    es1 := es + [Client(Generate(ds, COOKIE))];
    OneMoreStep(skip, es1, Client(WritePackets));
    RunKeeps3(skip, es1);
    var mid := RunBoth(skip, es1).value;
    ReachedHolds(mid.client, true, false);
    ShortLog(mid.client);
    PutAllSends(mid.up, mid.client.flights, Messages(mid.client.log));
    es1, p1 := es1 + [Client(WritePackets)], ApplyBoth(mid, Client(WritePackets));
  }

  lemma {:induction false} ServerReads(skip: bool, es: seq<Step>, p: Pair, inp: ParseInput)
    returns (es1: seq<Step>, p1: Pair)
    requires Reaches(skip, es, p) && p.server.phase == Waiting
    ensures Reaches(skip, es1, p1) && es <= es1 && p1 == p.(server := Waited(p.server, inp))
  {
    OneMoreStep(skip, es, Server(ReadHandshake(inp)));
    es1, p1 := es + [Server(ReadHandshake(inp))], ApplyBoth(p, Server(ReadHandshake(inp)));
  }

  lemma {:induction false} ClientReads(skip: bool, es: seq<Step>, p: Pair, inp: ParseInput)
    returns (es1: seq<Step>, p1: Pair)
    requires Reaches(skip, es, p) && p.client.phase == Waiting
    ensures Reaches(skip, es1, p1) && es <= es1 && p1 == p.(client := Waited(p.client, inp))
  {
    OneMoreStep(skip, es, Client(ReadHandshake(inp)));
    es1, p1 := es + [Client(ReadHandshake(inp))], ApplyBoth(p, Client(ReadHandshake(inp)));
  }

  // ---------------------------------------------------------------- the run

  predicate Quiet(l: D.Link, sent: seq<Message>, popped: nat) {
    l.sent == sent && |l.popped| == popped && l.buffer.cache == map[]
  }

  predicate End(s: Fsm, flight: Flight, phase: Phase, recvSequence: nat, log: seq<Numbered>, cache: seq<Item>) {
    && s.flight == flight && s.phase == phase && s.recvSequence == recvSequence && s.log == log && s.cache == cache
    && s.sendSequence == |log|
  }

  function Request(): Message {
    RawMessage(HELLO_VERIFY_REQUEST, 0, HelloVerifyBody(COOKIE))
  }

  lemma {:induction false} NumberOne(m: Message, first: uint16)
    ensures Number([Handshake(m)], first) == [Numbered(first, m)]
    ensures OwnItems(true, [Numbered(first, m)]) == [T.Written(m, first, true)]
    ensures OwnItems(false, [Numbered(first, m)]) == [T.Written(m, first, false)]
  {
    assert [Handshake(m)][1..] == [] && [Numbered(first, m)][1..] == [];
    assert Number([], first + 1) == [] && OwnItems(true, []) == [] && OwnItems(false, []) == [];
  }

  lemma {:induction false} MessagesOne(m: Message)
    ensures Messages([Numbered(0, m)]) == [m]
  {
    assert [Numbered(0, m)][..0] == [] && Messages([]) == [];
  }

  /** The server waits in flight 0. */
  lemma {:induction false} ServerOpens() returns (es: seq<Step>, p: Pair)
    ensures Reaches(false, es, p) && p.client == Initial(true, false) && Quiet(p.up, [], 0) && Quiet(p.down, [], 0)
    ensures End(p.server, Flight0, Waiting, 0, [], []) && p.server.cookie == COOKIE
  {
    es, p := ServerWrites(false, [], Start(false), []);
    assert Number([], 0) == [] && OwnItems(false, []) == [] && Messages([]) == [];
  }

  /** And has the client's first ClientHello. */
  lemma {:induction false} HelloArrives(hello: Message) returns (es: seq<Step>, p: Pair)
    requires ReadableHello(hello)
    ensures Reaches(false, es, p) && Quiet(p.up, [hello], 1) && Quiet(p.down, [], 0)
    ensures End(p.client, Flight1, Waiting, 0, [Numbered(0, hello)], [T.Written(hello, 0, true)])
    ensures End(p.server, Flight0, Waiting, 0, [], [T.Written(hello, 0, true)]) && p.server.cookie == COOKIE
  {
    es, p := ServerOpens();
    NumberOne(hello, 0);
    MessagesOne(hello);
    es, p := ClientWrites(false, es, p, [Handshake(hello)]);
    es, p := UpArrives(false, es, p);
  }

  lemma {:induction false} OneItem(hello: Message)
    requires ReadableHello(hello)
    ensures OnlyMatch([T.Written(hello, 0, true)], CLIENT_HELLO_RULES[0], T.Written(hello, 0, true))
  {
  }

  lemma {:induction false} TwoItems(hello: Message)
    requires ReadableHello(hello)
    ensures var cache := [T.Written(hello, 0, true), T.Written(Request(), 0, false)];
            && OnlyMatch(cache, CLIENT_HELLO_RULES[0], T.Written(hello, 0, true))
            && OnlyMatch(cache, REQUEST_RULE, T.Written(Request(), 0, false))
            && forall c :: c in cache ==> !Matches(c, FIRST_ANSWER_RULES[1])
  {
    var cache := [T.Written(hello, 0, true), T.Written(Request(), 0, false)];
    assert cache[0] in cache && cache[1] in cache;
  }

  /** Whether hellos are verified does not change. */
  lemma {:induction false} SkipStays(skip: bool, es: seq<Step>)
    requires RunBoth(skip, es).Some?
    ensures RunBoth(skip, es).value.server.skipHelloVerify == skip && !RunBoth(skip, es).value.server.isClient
  {
    RunKeeps3(skip, es);
    var s := RunBoth(skip, es).value.server;
    var own :| Run(Initial(false, skip), own) == Some(s);
    RunKeeps(false, skip, own);
  }

  /** The server reads the first ClientHello. */
  lemma {:induction false} ServerHears(hello: Message) returns (es: seq<Step>, p: Pair)
    requires ReadableHello(hello)
    ensures Reaches(false, es, p) && Quiet(p.up, [hello], 1) && Quiet(p.down, [], 0)
    ensures End(p.client, Flight1, Waiting, 0, [Numbered(0, hello)], [T.Written(hello, 0, true)])
    ensures End(p.server, Flight2, Preparing, 1, [], [T.Written(hello, 0, true)]) && p.server.cookie == COOKIE
  {
    es, p := HelloArrives(hello);
    OneItem(hello);
    SkipStays(false, es);
    ServerParses(Flight0, ParseState(p.server.cache, false, COOKIE, 0), hello, false);
    es, p := ServerReads(false, es, p, Finds(false));
  }

  lemma {:induction false} FirstWritten(s: Fsm, m: Message, numbered: seq<Numbered>, item: Item)
    requires s.flight == Flight2 && !s.isClient && s.log == [] && s.cache == [item]
    requires numbered == Number([Handshake(m)], 0) == [Numbered(0, m)]
    requires OwnItems(false, numbered) == [T.Written(m, 0, false)]
    ensures var s1 := Written(Prepared(s, [Handshake(m)], COOKIE));
            End(s1, Flight2, Waiting, s.recvSequence, [Numbered(0, m)], [item, T.Written(m, 0, false)])
  {
    assert s.log + numbered == numbered;
    assert s.cache + OwnItems(false, numbered) == [item, T.Written(m, 0, false)];
  }

  /** A server's first message. */
  lemma {:induction false} ServerWritesFirst(skip: bool, es: seq<Step>, p: Pair, m: Message, recvSequence: nat,
        item: Item)
    returns (es1: seq<Step>, p1: Pair)
    requires Reaches(skip, es, p) && Generates(Flight2, p.server.cookie, [Handshake(m)])
    requires End(p.server, Flight2, Preparing, recvSequence, [], [item]) && !p.server.isClient
    ensures Reaches(skip, es1, p1) && es <= es1 && p1.client == p.client && p1.up == p.up
    ensures p1.down == p.down.(sent := [m])
    ensures End(p1.server, Flight2, Waiting, recvSequence, [Numbered(0, m)], [item, T.Written(m, 0, false)])
  {
    NumberOne(m, 0);
    MessagesOne(m);
    FirstWritten(p.server, m, Number([Handshake(m)], 0), item);
    es1, p1 := ServerWrites(skip, es, p, [Handshake(m)]);
  }

  /** And asks the client to verify. */
  lemma {:induction false} ServerAsks(hello: Message) returns (es: seq<Step>, p: Pair)
    requires ReadableHello(hello)
    ensures Reaches(false, es, p) && Quiet(p.up, [hello], 1) && Quiet(p.down, [Request()], 0)
    ensures End(p.client, Flight1, Waiting, 0, [Numbered(0, hello)], [T.Written(hello, 0, true)])
    ensures End(p.server, Flight2, Waiting, 1, [Numbered(0, Request())],
                [T.Written(hello, 0, true), T.Written(Request(), 0, false)])
  {
    es, p := ServerHears(hello);
    SkipStays(false, es);
    es, p := ServerWritesFirst(false, es, p, Request(), 1, T.Written(hello, 0, true));
  }

  lemma {:induction false} RequestCookie()
    ensures VerifyCookie(Request().content) == Some(COOKIE)
  {
    assert HelloVerifyBody(COOKIE)[3..23] == COOKIE;
  }

  lemma {:induction false} TwoMessages(a: Message, b: Message)
    ensures Messages([Numbered(0, a), Numbered(1, b)]) == [a, b]
  {
    var log := [Numbered(0, a), Numbered(1, b)];
    assert log[..1] == [Numbered(0, a)];
    MessagesOne(a);
  }

  lemma {:induction false} ClientWritesSecond(skip: bool, es: seq<Step>, p: Pair, hello: Message, again: Message)
    returns (es1: seq<Step>, p1: Pair)
    requires Reaches(skip, es, p) && IsHello(again) && p.client.flight == Flight3 && p.client.phase == Preparing
    requires p.client.log == [Numbered(0, hello)] && p.client.sendSequence == 1
    ensures Reaches(skip, es1, p1) && es <= es1 && p1.server == p.server && p1.down == p.down
    ensures p1.up == p.up.(sent := [hello, again])
  {
    NumberOne(again, 1);
    TwoMessages(hello, again);
    assert [Numbered(0, hello)] + [Numbered(1, again)] == [Numbered(0, hello), Numbered(1, again)];
    es1, p1 := ClientWrites(skip, es, p, [Handshake(again)]);
  }

  lemma {:induction false} ClientHears(hello: Message) returns (es: seq<Step>, p: Pair)
    requires ReadableHello(hello)
    ensures Reaches(false, es, p) && Quiet(p.up, [hello], 1) && Quiet(p.down, [Request()], 1)
    ensures p.client.flight == Flight3 && p.client.phase == Preparing
    ensures p.client.log == [Numbered(0, hello)] && p.client.sendSequence == 1
    ensures End(p.server, Flight2, Waiting, 1, [Numbered(0, Request())],
                [T.Written(hello, 0, true), T.Written(Request(), 0, false)])
  {
    es, p := ServerAsks(hello);
    es, p := DownArrives(false, es, p);
    TwoItems(hello);
    RequestCookie();
    assert p.client.cache == [T.Written(hello, 0, true), T.Written(Request(), 0, false)];
    ClientParses(ParseState(p.client.cache, p.client.skipHelloVerify, p.client.cookie, 0), Request());
    es, p := ClientReads(false, es, p, Finds(false));
  }

  /** The client says hello again, and that one is still on its way. */
  lemma {:induction false} ClientAnswers(hello: Message, again: Message) returns (es: seq<Step>, p: Pair)
    requires ReadableHello(hello) && IsHello(again)
    ensures Reaches(false, es, p) && Quiet(p.up, [hello, again], 1) && Quiet(p.down, [Request()], 1)
    ensures End(p.server, Flight2, Waiting, 1, [Numbered(0, Request())],
                [T.Written(hello, 0, true), T.Written(Request(), 0, false)])
  {
    es, p := ClientHears(hello);
    es, p := ClientWritesSecond(false, es, p, hello, again);
  }

  /** The server then finds the session of the first one. */
  lemma {:induction false} ServerFindsSession(hello: Message, again: Message) returns (es: seq<Step>, p: Pair)
    requires ReadableHello(hello) && IsHello(again)
    ensures Reaches(false, es, p) && Quiet(p.up, [hello, again], 1) && Quiet(p.down, [Request()], 1)
    ensures p.server.flight == Flight4b && p.server.phase == Preparing
  {
    es, p := ClientAnswers(hello, again);
    TwoItems(hello);
    SkipStays(false, es);
    ServerParses(Flight2, ParseState(p.server.cache, false, p.server.cookie, 1), hello, true);
    es, p := ServerReads(false, es, p, Finds(true));
  }

  predicate Resumes(ds: seq<Draft>) {
    Generates(Flight4b, [], ds) && Short(ds[0].m)
  }

  lemma {:induction false} NumberedAfter(es: seq<Step>, p: Pair, ds: seq<Draft>)
    requires Reaches(false, es, p) && p.server.flight == Flight4b && p.server.phase == Preparing
    requires Generates(Flight4b, [], ds)
    ensures Messages(Prepared(p.server, ds, COOKIE).log) == p.down.sent + [ds[0].m, ds[2].m]
  {
    RunKeeps3(false, es);
    ReachedHolds(p.server, false, false);
    PreparedOtherShape(p.server, ds, COOKIE);
    MessagesOfFlight4b([], ds);
  }

  lemma {:induction false} SessionResumed(hello: Message, again: Message, ds: seq<Draft>)
    returns (es: seq<Step>, n: nat, p: Pair, q: Pair)
    requires ReadableHello(hello) && IsHello(again) && Resumes(ds)
    ensures n < |es| && es[n] == Server(Generate(ds, COOKIE))
    ensures Reaches(false, es[..n], p) && p.server.flight == Flight4b && |p.up.popped| == 1
    ensures Reaches(false, es, q) && q.up.sent == [hello, again] && Quiet(q.down, [Request(), ds[0].m, ds[2].m], 1)
  {
    var es0;
    es0, p := ServerFindsSession(hello, again);
    n := |es0|;
    es, q := ServerWrites(false, es0, p, ds);
    assert es[..n] == es0;
    NumberedAfter(es0, p, ds);
    assert [Request()] + [ds[0].m, ds[2].m] == [Request(), ds[0].m, ds[2].m];
  }

  /** For any two ClientHellos of which the first can be read, and any flight 4b with a short ServerHello: the server
      resumes, the client has its ServerHello, and they do not agree. */
  lemma {:induction false} ResumptionDisagrees(hello: Message, again: Message, ds: seq<Draft>)
    returns (es: seq<Step>, n: nat, p: Pair, q: Pair)
    requires ReadableHello(hello) && IsHello(again) && Resumes(ds)
    ensures n < |es| && es[n] == Server(Generate(ds, COOKIE)) && Reaches(false, es[..n], p) && Reaches(false, es, q)
    ensures p.server.flight == Flight4b && p.server.sendSequence <= 1 && Saw(q.client.cache, SERVER_HELLO_RULE)
    ensures !ResumptionAgrees(p.server.cache, p.server.sendSequence, q.client.cache, ds)
  {
    var es0, q0;
    es0, n, p, q0 := SessionResumed(hello, again, ds);
    es, q := DownArrives(false, es0, q0);
    assert es[..n] == es0[..n] && es[n] == es0[n];
    var c := T.Written(ds[0].m, 1, false);
    assert q.client.cache[|q0.client.cache|] == c && Matches(c, SERVER_HELLO_RULE);
    ResumptionAgreesIff(false, es, n, ds, COOKIE);
    assert IsHello(q.up.sent[1]);
  }

  // ---------------------------------------------------------------- when they always agree

  /** At `n` the server, with `sent` messages behind it, resumes; at the end the client has its ServerHello. */
  ghost predicate Resumption(skip: bool, es: seq<Step>, n: nat, ds: seq<Draft>, random: seq<byte>, sent: nat) {
    && n < |es| && es[n] == Server(Generate(ds, random)) && RunBoth(skip, es).Some? && RunBoth(skip, es[..n]).Some?
    && RunBoth(skip, es[..n]).value.server.flight == Flight4b && RunBoth(skip, es[..n]).value.server.sendSequence == sent
    && Saw(RunBoth(skip, es).value.client.cache, SERVER_HELLO_RULE)
  }

  ghost predicate Agreed(skip: bool, es: seq<Step>, n: nat, ds: seq<Draft>) {
    && n < |es| && RunBoth(skip, es).Some? && RunBoth(skip, es[..n]).Some? && |ds| > 0 && ds[0].Handshake?
    && RunBoth(skip, es[..n]).value.server.sendSequence <= 1
    && ResumptionAgrees(RunBoth(skip, es[..n]).value.server.cache, RunBoth(skip, es[..n]).value.server.sendSequence,
                        RunBoth(skip, es).value.client.cache, ds)
  }

  ghost predicate AlwaysAgree(sent: nat) {
    forall skip, es, n, ds, random :: Resumption(skip, es, n, ds, random, sent) ==> Agreed(skip, es, n, ds)
  }

  lemma {:induction false} SomeDrafts() returns (hello: Message, ds: seq<Draft>)
    ensures ReadableHello(hello) && Resumes(ds)
  {
    hello := RawMessage(CLIENT_HELLO, 0, seq(40, _ => 0));
    ds := [Handshake(RawMessage(SERVER_HELLO, 0, [0])), ChangeCipherSpec, Handshake(RawMessage(FINISHED, 1, [0]))];
    assert ds[1..] == [ChangeCipherSpec, Handshake(RawMessage(FINISHED, 1, [0]))];
  }

  lemma {:induction false} SentOneOrNone(skip: bool, es: seq<Step>, n: nat, ds: seq<Draft>, random: seq<byte>,
        sent: nat)
    requires Resumption(skip, es, n, ds, random, sent)
    ensures sent <= 1 && (sent == 0 ==> Agreed(skip, es, n, ds))
  {
    ResumptionAgreesIff(skip, es, n, ds, random);
    if sent == 0 { ResumptionAgreesWithoutRequest(skip, es, n, ds, random); }
  }

  /** Both ends always agree on what the server's Finished is computed over if and only if the server has not sent a
      HelloVerifyRequest before it resumes. */
  lemma {:induction false} AlwaysAgreeIff(sent: nat)
    ensures AlwaysAgree(sent) <==> sent != 1
  {
    forall skip, es, n, ds, random | Resumption(skip, es, n, ds, random, sent)
      ensures sent <= 1 && (sent == 0 ==> Agreed(skip, es, n, ds))
    {
      SentOneOrNone(skip, es, n, ds, random, sent);
    }
    if sent == 1 {
      var hello, ds := SomeDrafts();
      var es, n, p, q := ResumptionDisagrees(hello, hello, ds);
      SentOneOrNone(false, es, n, ds, COOKIE, p.server.sendSequence);
      assert Resumption(false, es, n, ds, COOKIE, sent) && !Agreed(false, es, n, ds);
    }
  }
}
