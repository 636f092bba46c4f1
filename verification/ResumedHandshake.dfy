/** The abbreviated handshake, over every run of both ends: what one end hashes for its Finished and the other merges. */
module ResumedHandshake {
  import opened Bits
  import opened Wire
  import opened Fragmentation
  import opened HandshakeCaches
  import opened Flights
  import opened Numbering
  import opened FlightShapes
  import opened PulledMessages
  import opened PredictedTranscript
  import opened TwoEnds
  import opened HandshakeAgreement
  import D = Delivery
  import J = JoinedTranscript
  import T = Transcript

  const SERVER_HELLO_RULE := Rule(SERVER_HELLO, 0, false, false)

  /** What the server's Finished is computed over. */
  const HELLOS_RULES := [HELLO_RULE, SERVER_HELLO_RULE]

  /** What the client's Finished is computed over. */
  const ANSWER_RULES := [HELLO_RULE, SERVER_HELLO_RULE, SERVER_FINISHED_RULE]

  // ---------------------------------------------------------------- the server's Finished

  /** At `p` the server generates flight 4b from these drafts, and what it has numbered at `q` ends with them. */
  predicate GeneratesFourB(p: Pair, q: Pair, ds: seq<Draft>) {
    && Generates(Flight4b, p.server.cookie, ds)
    && Messages(q.server.log) == p.down.sent + [ds[0].m, ds[2].m]
    && AllTyped(p.down.sent, HELLO_VERIFY_REQUEST) && |p.down.sent| == p.server.sendSequence <= 1
  }

  lemma {:induction false} GeneratedFourB(p: Pair, q: Pair, skip: bool, ds: seq<Draft>, random: seq<byte>)
    requires Invariant3(p, skip) && Enabled(p.server, Generate(ds, random)) && p.server.flight == Flight4b
    requires StaysClosed(Prepared(p.server, ds, random), q.server)
    ensures GeneratesFourB(p, q, ds)
  {
    ReachedHolds(p.server, false, skip);
    PreparedOtherShape(p.server, ds, random);
    MessagesOfFlight4b(p.server.cookie, ds);
  }

  predicate IsHello(m: Message) {
    m.typ == CLIENT_HELLO && m.epoch == 0
  }

  /** The client sends no ClientHello beyond those that the server had when it hashed. */
  predicate NoLaterHello(p: Pair, q: Pair) {
    forall i :: |p.up.popped| <= i < |q.up.sent| ==> !IsHello(q.up.sent[i])
  }

  /** The number in the bytes of a cached message is the number it is cached under. */
  predicate CarriesNumber(c: Item) {
    |c.data| >= HANDSHAKE_HEADER_SIZE && DecodeHeader(c.data).value.messageSequence == c.messageSequence
  }

  lemma {:induction false} WrittenCarriesNumber(sent: seq<Message>, i: nat, byClient: bool)
    requires i < |sent| < D.MAX_MESSAGES
    ensures CarriesNumber(T.WrittenAll(sent, byClient)[i]) && T.WrittenAll(sent, byClient)[i].messageSequence == i
  {
    T.ReceivedIsWritten(sent, i, byClient);
    T.WrittenAt(sent, byClient, i);
  }

  lemma {:induction false} ServerHasHello(w: T.World, c: Item)
    requires T.Invariant2(w) && c in w.serverCache && Matches(c, HELLO_RULE)
    ensures CarriesNumber(c) && c.messageSequence < |w.up.popped|
  {
    var k :| 0 <= k < |w.serverCache| && w.serverCache[k] == c;
    T.WrittenIndexed(w.down.sent, false);
    var i :| 0 <= i < |w.up.popped| && T.WrittenAll(w.up.sent, true)[i] == c;
    WrittenCarriesNumber(w.up.sent, i, true);
  }

  lemma {:induction false} ClientHasHello(w: T.World, c: Item)
    requires T.Invariant2(w) && c in w.clientCache && Matches(c, HELLO_RULE)
    ensures CarriesNumber(c)
  {
    var k :| 0 <= k < |w.clientCache| && w.clientCache[k] == c;
    T.WrittenIndexed(w.down.sent, false);
    var i :| 0 <= i < |w.up.sent| && T.WrittenAll(w.up.sent, true)[i] == c;
    WrittenCarriesNumber(w.up.sent, i, true);
  }

  /** The client's last ClientHello is not older than this one. */
  lemma {:induction false} LaterHelloPulled(w: T.World, i: nat)
    requires T.Invariant2(w) && i < |w.up.sent| && IsHello(w.up.sent[i])
    ensures Best(w.clientCache, HELLO_RULE).Some? && Best(w.clientCache, HELLO_RULE).value.messageSequence >= i
  {
    T.WrittenAt(w.up.sent, true, i);
    var c := T.WrittenAll(w.up.sent, true)[i];
    assert c in w.clientCache && Matches(c, HELLO_RULE);
    BestIsHighestMatch(w.clientCache, HELLO_RULE);
  }

  lemma {:induction false} OtherHello(w: T.World, w1: T.World, i: nat)
    requires T.Invariant2(w) && T.Invariant2(w1) && |w.up.popped| <= i < |w1.up.sent| && IsHello(w1.up.sent[i])
    ensures Pulled(w1.clientCache, HELLO_RULE) != Pulled(w.serverCache, HELLO_RULE)
  {
    LaterHelloPulled(w1, i);
    BestIsHighestMatch(w1.clientCache, HELLO_RULE);
    BestIsHighestMatch(w.serverCache, HELLO_RULE);
    ClientHasHello(w1, Best(w1.clientCache, HELLO_RULE).value);
    if Best(w.serverCache, HELLO_RULE).Some? { ServerHasHello(w, Best(w.serverCache, HELLO_RULE).value); }
  }

  lemma {:induction false} SameHello(p: Pair, q: Pair, skip: bool)
    requires Follows(p, q, skip) && NoLaterHello(p, q)
    ensures Pulled(q.client.cache, HELLO_RULE) == Pulled(p.server.cache, HELLO_RULE)
  {
    J.RuleAgreesBack(World(p), World(q), HELLO_RULE);
    J.BestSame(p.server.cache, q.client.cache, HELLO_RULE);
  }

  /** The ServerHello in the client's cache is the one generated. */
  lemma {:induction false} HelloIsTheOne(w: T.World, before: seq<Message>, hello: Message, finished: Message, c: Item)
    requires T.Invariant2(w) && w.down.sent <= before + [hello, finished] && |before| <= 1
    requires AllTyped(before, HELLO_VERIFY_REQUEST) && finished.typ == FINISHED
    requires c in w.clientCache && Matches(c, SERVER_HELLO_RULE)
    ensures c.data == WireMessage(hello, |before|)
  {
    T.WrittenIndexed(w.up.sent, true);
    var k :| 0 <= k < |w.clientCache| && w.clientCache[k] == c;
    var i :| 0 <= i < |w.down.popped| && T.WrittenAll(w.down.sent, false)[i] == c;
    T.WrittenAt(w.down.sent, false, i);
    assert w.down.sent[i] == (before + [hello, finished])[i];
  }

  lemma {:induction false} HelloPulled(p: Pair, q: Pair, skip: bool, ds: seq<Draft>)
    requires Follows(p, q, skip) && GeneratesFourB(p, q, ds) && Saw(q.client.cache, SERVER_HELLO_RULE)
    ensures Pulled(q.client.cache, SERVER_HELLO_RULE) == WireMessage(ds[0].m, p.server.sendSequence)
  {
    BestIsHighestMatch(q.client.cache, SERVER_HELLO_RULE);
    HelloIsTheOne(World(q), p.down.sent, ds[0].m, ds[2].m, Best(q.client.cache, SERVER_HELLO_RULE).value);
  }

  lemma {:induction false} SameBefore(a: seq<byte>, b: seq<byte>, rest: seq<byte>)
    ensures a + rest == b + rest <==> a == b
  {
    if a + rest == b + rest {
      assert a == (a + rest)[..|a|] && b == (b + rest)[..|b|];
    }
  }

  lemma {:induction false} PulledAlone(cache: seq<Item>)
    ensures Merged(cache, [HELLO_RULE]) == Pulled(cache, HELLO_RULE)
  {
    assert [HELLO_RULE][..0] == [];
    assert Merged(cache, [HELLO_RULE]) == [] + Pulled(cache, HELLO_RULE);
  }

  /** What a server with this cache hashes for its Finished in flight 4b is what the client merges. */
  predicate ResumptionAgrees(server: seq<Item>, sendSequence: uint16, client: seq<Item>, ds: seq<Draft>)
    requires |ds| > 0 && ds[0].Handshake?
  {
    Merged(client, HELLOS_RULES) == Merged(server, [HELLO_RULE]) + WireMessage(ds[0].m, sendSequence)
  }

  lemma {:induction false} ResumptionAgreesAtIff(p: Pair, q: Pair, skip: bool, ds: seq<Draft>)
    requires Follows(p, q, skip) && GeneratesFourB(p, q, ds) && Saw(q.client.cache, SERVER_HELLO_RULE)
    ensures ResumptionAgrees(p.server.cache, p.server.sendSequence, q.client.cache, ds) <==> NoLaterHello(p, q)
  {
    MergedPair(q.client.cache, HELLO_RULE, SERVER_HELLO_RULE);
    PulledAlone(p.server.cache);
    HelloPulled(p, q, skip, ds);
    SameBefore(Pulled(q.client.cache, HELLO_RULE), Pulled(p.server.cache, HELLO_RULE),
               WireMessage(ds[0].m, p.server.sendSequence));
    if NoLaterHello(p, q) {
      SameHello(p, q, skip);
    } else {
      var i :| |p.up.popped| <= i < |q.up.sent| && IsHello(q.up.sent[i]);
      OtherHello(World(p), World(q), i);
    }
  }

  lemma {:induction false} FourBFollows(skip: bool, es: seq<Step>, n: nat, ds: seq<Draft>, random: seq<byte>)
    requires RunBoth(skip, es).Some? && n < |es| && es[n] == Server(Generate(ds, random))
    requires RunBoth(skip, es[..n]).Some? && RunBoth(skip, es[..n]).value.server.flight == Flight4b
    ensures Follows(RunBoth(skip, es[..n]).value, RunBoth(skip, es).value, skip)
    ensures GeneratesFourB(RunBoth(skip, es[..n]).value, RunBoth(skip, es).value, ds)
  {
    RunFollows(skip, es, n);
    ClosedAfter(skip, es, n);
    GeneratedFourB(RunBoth(skip, es[..n]).value, RunBoth(skip, es).value, skip, ds, random);
  }

  /** In every run of both ends, at any moment after the server has generated flight 4b at which the client has its
      ServerHello: the client merges what the server hashed if and only if it has sent no ClientHello that the server did
      not have. */
  lemma {:induction false} ResumptionAgreesIff(skip: bool, es: seq<Step>, n: nat, ds: seq<Draft>, random: seq<byte>)
    requires RunBoth(skip, es).Some? && n < |es| && es[n] == Server(Generate(ds, random))
    requires RunBoth(skip, es[..n]).Some? && RunBoth(skip, es[..n]).value.server.flight == Flight4b
    requires Saw(RunBoth(skip, es).value.client.cache, SERVER_HELLO_RULE)
    ensures var p, q := RunBoth(skip, es[..n]).value, RunBoth(skip, es).value;
            && |ds| == 3 && ds[0].Handshake? && p.server.sendSequence <= 1
            && (ResumptionAgrees(p.server.cache, p.server.sendSequence, q.client.cache, ds) <==> NoLaterHello(p, q))
  {
    FourBFollows(skip, es, n, ds, random);
    ResumptionAgreesAtIff(RunBoth(skip, es[..n]).value, RunBoth(skip, es).value, skip, ds);
  }

  // ---------------------------------------------------------------- without a HelloVerifyRequest

  predicate SecondHello(ms: seq<Message>) {
    exists i :: 0 < i < |ms| && ms[i].typ == CLIENT_HELLO
  }

  /** A client says hello again only when it is asked to. */
  predicate Asked(s: Fsm) {
    SecondHello(Messages(s.log)) ==> Saw(s.cache, REQUEST_RULE)
  }

  lemma {:induction false} NoNewHello(ms: seq<Message>, more: seq<Message>)
    requires NoneTyped(more, CLIENT_HELLO) && SecondHello(ms + more)
    ensures SecondHello(ms)
  {
    var i :| 0 < i < |ms + more| && (ms + more)[i].typ == CLIENT_HELLO;
    assert i < |ms| && ms[i] == (ms + more)[i];
  }

  lemma {:induction false} LastFlightHasNoHello(flight: Flight, cookie: seq<byte>, ds: seq<Draft>)
    requires flight in {Flight5, Flight5b} && Generates(flight, cookie, ds)
    ensures NoneTyped(MessagesOf(ds), CLIENT_HELLO)
  {
    if flight == Flight5 {
      MessagesOfFlight5(cookie, ds);
      KeyDrafts(ds[..|ds| - 2]);
    } else {
      MessagesOfChange(ds);
    }
  }

  lemma {:induction false} GenerateAsked(s: Fsm, ds: seq<Draft>, random: seq<byte>)
    requires AlwaysHolds(s) && Shape(s) && s.isClient && Asked(s) && Enabled(s, Generate(ds, random))
    ensures Asked(Prepared(s, ds, random))
  {
    PreparedOtherShape(s, ds, random);
    var ms, more := Messages(s.log), MessagesOf(ds);
    if s.flight in {Flight5, Flight5b} && SecondHello(ms + more) {
      LastFlightHasNoHello(s.flight, s.cookie, ds);
      NoNewHello(ms, more);
    }
    if s.flight == Flight1 {
      MessagesOfOne(ds);
    }
  }

  lemma {:induction false} AskedMore(s: Fsm, s1: Fsm, more: seq<Item>)
    requires Asked(s) && s1.log == s.log && s1.cache == s.cache + more
    ensures Asked(s1)
  {
    if SecondHello(Messages(s.log)) { SawMore(s.cache, more, REQUEST_RULE); }
  }

  lemma {:induction false} ClientStepAsked(s: Fsm, e: Event)
    requires AlwaysHolds(s) && Shape(s) && s.isClient && Asked(s) && Enabled(s, e) && !e.Arrive?
    ensures Asked(Apply(s, e))
  {
    if e.Generate? {
      GenerateAsked(s, e.drafts, e.freshCookie);
    } else if e.WritePackets? {
      AskedMore(s, Apply(s, e), OwnItems(s.isClient, s.flights));
    } else {
      OtherSteps(s, e);
      OtherStepsCache(s, e);
    }
  }

  lemma {:induction false} StepAsked(p: Pair, skip: bool, st: Step)
    requires Invariant3(p, skip) && EnabledBoth(p, st) && Asked(p.client)
    ensures Asked(ApplyBoth(p, st).client)
  {
    match st
    case Client(e) =>
      ReachedHolds(p.client, true, false);
      ClientStepAsked(p.client, e);
    case Server(e) =>
    case Network(byClient, ev) =>
      if !byClient {
        AskedMore(p.client, ApplyBoth(p, st).client,
                  T.ReceivedAll(D.Apply(p.down, ev).popped[|p.down.popped|..], false));
      }
  }

  lemma {:induction false} RunAsked(skip: bool, es: seq<Step>)
    requires RunBoth(skip, es).Some?
    ensures Asked(RunBoth(skip, es).value.client)
  {
    if es == [] {
      assert Messages([]) == [];
    } else {
      RunAsked(skip, es[..|es| - 1]);
      RunKeeps3(skip, es[..|es| - 1]);
      StepAsked(RunBoth(skip, es[..|es| - 1]).value, skip, es[|es| - 1]);
    }
  }

  lemma {:induction false} NoRequestSeen(p: Pair, q: Pair, skip: bool, ds: seq<Draft>)
    requires Follows(p, q, skip) && GeneratesFourB(p, q, ds) && p.server.sendSequence == 0
    ensures !Saw(q.client.cache, REQUEST_RULE)
  {
    if Saw(q.client.cache, REQUEST_RULE) {
      var i := ClientSawAt(World(q), REQUEST_RULE);
    }
  }

  lemma {:induction false} NoHelloWithoutRequest(p: Pair, q: Pair, skip: bool, ds: seq<Draft>)
    requires Follows(p, q, skip) && GeneratesFourB(p, q, ds) && p.server.sendSequence == 0 && p.server.flight == Flight4b
    requires Asked(q.client)
    ensures NoLaterHello(p, q)
  {
    NoRequestSeen(p, q, skip, ds);
    ReachedHolds(p.server, false, skip);
    var k := ServerSawAt(World(p), HELLO_RULE);
    forall i | |p.up.popped| <= i < |q.up.sent| ensures !IsHello(q.up.sent[i]) {
      assert q.up.sent[i] == Messages(q.client.log)[i];
    }
  }

  /** So a server that resumes without having sent a HelloVerifyRequest always agrees with the client. */
  lemma {:induction false} ResumptionAgreesWithoutRequest(skip: bool, es: seq<Step>, n: nat, ds: seq<Draft>,
        random: seq<byte>)
    requires RunBoth(skip, es).Some? && n < |es| && es[n] == Server(Generate(ds, random))
    requires RunBoth(skip, es[..n]).Some? && RunBoth(skip, es[..n]).value.server.flight == Flight4b
    requires RunBoth(skip, es[..n]).value.server.sendSequence == 0
    requires Saw(RunBoth(skip, es).value.client.cache, SERVER_HELLO_RULE)
    ensures var p, q := RunBoth(skip, es[..n]).value, RunBoth(skip, es).value;
            |ds| == 3 && ds[0].Handshake? && ResumptionAgrees(p.server.cache, p.server.sendSequence, q.client.cache, ds)
  {
    FourBFollows(skip, es, n, ds, random);
    RunAsked(skip, es);
    var p, q := RunBoth(skip, es[..n]).value, RunBoth(skip, es).value;
    NoHelloWithoutRequest(p, q, skip, ds);
    ResumptionAgreesAtIff(p, q, skip, ds);
  }

  // ---------------------------------------------------------------- the client's answer

  /** At `p` the client generates flight 5b from these drafts, and what it has numbered at `q` ends with them. */
  predicate GeneratesFiveB(p: Pair, q: Pair, ds: seq<Draft>) {
    && CipherChange(ds) && Messages(q.client.log) == p.up.sent + [ds[1].m] && AllTyped(p.up.sent, CLIENT_HELLO)
  }

  lemma {:induction false} GeneratedFiveB(p: Pair, q: Pair, skip: bool, ds: seq<Draft>, random: seq<byte>)
    requires Invariant3(p, skip) && Enabled(p.client, Generate(ds, random)) && p.client.flight == Flight5b
    requires StaysClosed(Prepared(p.client, ds, random), q.client)
    ensures GeneratesFiveB(p, q, ds) && Saw(p.client.cache, SERVER_FINISHED_RULE)
  {
    ReachedHolds(p.client, true, false);
    PreparedOtherShape(p.client, ds, random);
    MessagesOfChange(ds);
  }

  lemma {:induction false} ShapeFinishedLast(s: Fsm)
    requires Shape(s) && !s.isClient
    ensures OnlyLast(Messages(s.log), FINISHED)
  {
  }

  /** A client that has the server's Finished has everything the server ever sends. */
  lemma {:induction false} ServerAllArrived(p: Pair, q: Pair, skip: bool)
    requires Follows(p, q, skip) && Saw(p.client.cache, SERVER_FINISHED_RULE)
    ensures |q.down.sent| <= |p.down.popped|
  {
    var f := ClientSawAt(World(p), SERVER_FINISHED_RULE);
    ReachedHolds(q.server, false, skip);
    ShapeFinishedLast(q.server);
    assert q.down.sent[f] == Messages(q.server.log)[f] == p.down.sent[f];
  }

  /** And a server that has the client's Finished has all its hellos. */
  lemma {:induction false} ClientAllArrived(p: Pair, q: Pair, skip: bool, ds: seq<Draft>)
    requires Follows(p, q, skip) && GeneratesFiveB(p, q, ds) && Saw(q.server.cache, CLIENT_FINISHED_RULE)
    ensures |p.up.sent| < |q.up.popped|
  {
    var f := ServerSawAt(World(q), CLIENT_FINISHED_RULE);
    assert q.up.sent[f] == (p.up.sent + [ds[1].m])[f];
  }

  lemma {:induction false} AnswerRuleCarried(p: Pair, q: Pair, skip: bool, ds: seq<Draft>, r: Rule)
    requires Follows(p, q, skip) && GeneratesFiveB(p, q, ds)
    requires |q.down.sent| <= |p.down.popped| && |p.up.sent| < |q.up.popped|
    requires !r.isClient || r == HELLO_RULE
    ensures J.NothingElse(World(p), World(q), [], r)
  {
    forall i | 0 <= i < |q.up.sent| && Matches(T.Written(q.up.sent[i], i, true), r) ensures i < |p.up.sent| {
      assert q.up.sent[i] == (p.up.sent + [ds[1].m])[i];
    }
  }

  lemma {:induction false} AnswerAt(p: Pair, q: Pair, skip: bool, ds: seq<Draft>)
    requires Follows(p, q, skip) && GeneratesFiveB(p, q, ds) && Saw(p.client.cache, SERVER_FINISHED_RULE)
    requires Saw(q.server.cache, CLIENT_FINISHED_RULE)
    ensures Merged(q.server.cache, ANSWER_RULES) == Merged(p.client.cache, ANSWER_RULES)
  {
    ServerAllArrived(p, q, skip);
    ClientAllArrived(p, q, skip, ds);
    forall r | r in ANSWER_RULES ensures J.NothingElse(World(p), World(q), [], r) {
      AnswerRuleCarried(p, q, skip, ds, r);
    }
    assert p.up.sent + [] == p.up.sent;
    J.ServerMergesTheSame(World(p), World(q), [], ANSWER_RULES);
    assert p.client.cache + J.Next(|p.up.sent|, []) == p.client.cache;
  }

  /** In every run of both ends: what the client hashes for its Finished in flight 5b is what the server merges to check
      it, once it has pulled it. */
  lemma {:induction false} AnswerAgrees(skip: bool, es: seq<Step>, n: nat, ds: seq<Draft>, random: seq<byte>)
    requires RunBoth(skip, es).Some? && n < |es| && es[n] == Client(Generate(ds, random))
    requires RunBoth(skip, es[..n]).Some? && RunBoth(skip, es[..n]).value.client.flight == Flight5b
    requires Saw(RunBoth(skip, es).value.server.cache, CLIENT_FINISHED_RULE)
    ensures var p, q := RunBoth(skip, es[..n]).value, RunBoth(skip, es).value;
            Merged(q.server.cache, ANSWER_RULES) == Merged(p.client.cache, ANSWER_RULES)
  {
    RunFollows(skip, es, n);
    ClosedAfter(skip, es, n);
    var p, q := RunBoth(skip, es[..n]).value, RunBoth(skip, es).value;
    GeneratedFiveB(p, q, skip, ds, random);
    AnswerAt(p, q, skip, ds);
  }
}
