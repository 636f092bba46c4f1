/** Over every run of both ends: what one end signs or hashes is what the other merges to check it. */
module HandshakeAgreement {
  import opened Bits
  import opened Fragmentation
  import opened HandshakeCaches
  import opened Flights
  import opened FlightRuns
  import opened Numbering
  import opened FlightShapes
  import opened PulledMessages
  import opened PredictedTranscript
  import opened TwoEnds
  import D = Delivery
  import J = JoinedTranscript
  import T = Transcript

  // ---------------------------------------------------------------- earlier and later in a run

  lemma {:induction false} PutSends(l: D.Link, n: Numbered)
    ensures l.sent <= Put(l, n).sent && Put(l, n).popped == l.popped
  {
  }

  lemma {:induction false} PutAllStays(l: D.Link, ns: seq<Numbered>)
    ensures l.sent <= PutAll(l, ns).sent && PutAll(l, ns).popped == l.popped
    decreases ns
  {
    if ns != [] {
      PutSends(l, ns[0]);
      PutAllStays(Put(l, ns[0]), ns[1..]);
    }
  }

  lemma {:induction false} StepLater(p: Pair, skip: bool, st: Step)
    requires Invariant3(p, skip) && EnabledBoth(p, st)
    ensures J.Later(World(p), World(ApplyBoth(p, st)))
  {
    match st
    case Client(e) => if e.WritePackets? { PutAllStays(p.up, p.client.flights); }
    case Server(e) => if e.WritePackets? { PutAllStays(p.down, p.server.flights); }
    case Network(byClient, ev) => T.NetworkOnlyPops(if byClient then p.up else p.down, ev);
  }

  /** An end that has numbered its last flight numbers nothing more. */
  predicate Closed(s: Fsm) {
    s.flight in {Flight4b, Flight5, Flight5b, Flight6} && s.phase != Preparing
  }

  predicate StaysClosed(s: Fsm, s1: Fsm) {
    Closed(s) ==> Closed(s1) && s1.log == s.log && s1.flight == s.flight
  }

  lemma {:induction false} ReadClosed(s: Fsm, inp: ParseInput)
    requires FlightRuns.Invariant(s) && Closed(s) && s.phase == Waiting
    ensures StaysClosed(s, Waited(s, inp))
  {
    ParseDecides(s.flight, ParseState(s.cache, s.skipHelloVerify, s.cookie, s.recvSequence), inp);
  }

  lemma {:induction false} EndStaysClosed(s: Fsm, e: Event)
    requires FlightRuns.Invariant(s) && Enabled(s, e)
    ensures StaysClosed(s, Apply(s, e))
  {
    if Closed(s) && e.ReadHandshake? && s.phase == Waiting { ReadClosed(s, e.inp); }
  }

  lemma {:induction false} StepClosed(p: Pair, skip: bool, st: Step)
    requires Invariant3(p, skip) && EnabledBoth(p, st)
    ensures StaysClosed(p.client, ApplyBoth(p, st).client) && StaysClosed(p.server, ApplyBoth(p, st).server)
  {
    ReachedHolds(p.client, true, false);
    ReachedHolds(p.server, false, skip);
    match st
    case Client(e) => EndStaysClosed(p.client, e);
    case Server(e) => EndStaysClosed(p.server, e);
    case Network(byClient, ev) =>
  }

  /** Between two moments of a run. */
  ghost predicate Follows(p: Pair, q: Pair, skip: bool) {
    && Invariant3(p, skip) && Invariant3(q, skip) && J.Later(World(p), World(q))
    && StaysClosed(p.client, q.client) && StaysClosed(p.server, q.server)
  }

  lemma {:induction false} OneStepFollows(p: Pair, q: Pair, skip: bool, st: Step)
    requires Follows(p, q, skip) && EnabledBoth(q, st)
    ensures Follows(p, ApplyBoth(q, st), skip)
  {
    StepKeeps3(q, skip, st);
    StepLater(q, skip, st);
    StepClosed(q, skip, st);
  }

  lemma {:induction false} RunFollows(skip: bool, es: seq<Step>, n: nat)
    requires RunBoth(skip, es).Some? && n <= |es|
    ensures RunBoth(skip, es[..n]).Some? && Follows(RunBoth(skip, es[..n]).value, RunBoth(skip, es).value, skip)
    decreases |es|
  {
    if n < |es| {
      var before := es[..|es| - 1];
      assert before[..n] == es[..n];
      RunFollows(skip, before, n);
      OneStepFollows(RunBoth(skip, es[..n]).value, RunBoth(skip, before).value, skip, es[|es| - 1]);
    } else {
      assert es[..n] == es;
      RunKeeps3(skip, es);
    }
  }

  // ---------------------------------------------------------------- what has been seen has arrived

  /** A message of the client's in the server's cache is one that was sent and popped. */
  lemma {:induction false} ServerSawAt(w: T.World, r: Rule) returns (i: nat)
    requires T.Invariant2(w) && Saw(w.serverCache, r) && r.isClient
    ensures i < |w.up.popped| <= |w.up.sent| && w.up.sent[i].typ == r.typ && w.up.sent[i].epoch == r.epoch
  {
    var c :| c in w.serverCache && Matches(c, r);
    var k :| 0 <= k < |w.serverCache| && w.serverCache[k] == c;
    T.WrittenIndexed(w.down.sent, false);
    i :| 0 <= i < |w.up.popped| && T.WrittenAll(w.up.sent, true)[i] == c;
    T.WrittenAt(w.up.sent, true, i);
  }

  lemma {:induction false} ClientSawAt(w: T.World, r: Rule) returns (i: nat)
    requires T.Invariant2(w) && Saw(w.clientCache, r) && !r.isClient
    ensures i < |w.down.popped| <= |w.down.sent| && w.down.sent[i].typ == r.typ && w.down.sent[i].epoch == r.epoch
  {
    var c :| c in w.clientCache && Matches(c, r);
    var k :| 0 <= k < |w.clientCache| && w.clientCache[k] == c;
    T.WrittenIndexed(w.up.sent, true);
    i :| 0 <= i < |w.down.popped| && T.WrittenAll(w.down.sent, false)[i] == c;
    T.WrittenAt(w.down.sent, false, i);
  }

  lemma {:induction false} ShapeDoneCloses(s: Fsm)
    requires Shape(s) && !s.isClient
    ensures DoneCloses(Messages(s.log))
  {
  }

  /** A client that has the ServerHelloDone has everything the server ever sends before it changes the cipher. */
  lemma {:induction false} ServerKeysArrived(p: Pair, q: Pair, skip: bool)
    requires Follows(p, q, skip) && Saw(p.client.cache, DONE_RULE)
    ensures forall i :: 0 <= i < |q.down.sent| && q.down.sent[i].epoch == 0 ==> i < |p.down.popped|
  {
    var d := ClientSawAt(World(p), DONE_RULE);
    ReachedHolds(q.server, false, skip);
    ShapeDoneCloses(q.server);
    assert q.down.sent[d] == p.down.sent[d];
    forall i | 0 <= i < |q.down.sent| && q.down.sent[i].epoch == 0 ensures i < |p.down.popped| {
      assert q.down.sent[i] == Messages(q.server.log)[i] && q.down.sent[d] == Messages(q.server.log)[d];
    }
  }

  // ---------------------------------------------------------------- flight 5

  /** At `p` the client generates flight 5 from these drafts, and what it has numbered at `q` ends with them. */
  predicate GeneratesFive(p: Pair, q: Pair, ds: seq<Draft>) {
    && p.client.flight == Flight5 && p.client.phase == Preparing && Generates(Flight5, p.client.cookie, ds)
    && Messages(q.client.log) == p.up.sent + MessagesOf(ds)
  }

  lemma {:induction false} GeneratedFive(p: Pair, q: Pair, skip: bool, ds: seq<Draft>, random: seq<byte>)
    requires Invariant3(p, skip) && Enabled(p.client, Generate(ds, random)) && p.client.flight == Flight5
    requires StaysClosed(Prepared(p.client, ds, random), q.client)
    ensures GeneratesFive(p, q, ds)
  {
    ReachedHolds(p.client, true, false);
    PreparedOtherShape(p.client, ds, random);
  }

  /** Of a run, the step that is taken at this moment. */
  lemma {:induction false} TakenStep(skip: bool, es: seq<Step>, n: nat)
    requires n < |es| && RunBoth(skip, es[..n + 1]).Some?
    ensures RunBoth(skip, es[..n]).Some? && EnabledBoth(RunBoth(skip, es[..n]).value, es[n])
    ensures RunBoth(skip, es[..n + 1]).value == ApplyBoth(RunBoth(skip, es[..n]).value, es[n])
  {
    assert es[..n + 1][..n] == es[..n];
  }

  /** What is closed after the step stays so. */
  lemma {:induction false} ClosedAfter(skip: bool, es: seq<Step>, n: nat)
    requires RunBoth(skip, es).Some? && n < |es|
    ensures RunBoth(skip, es[..n]).Some? && EnabledBoth(RunBoth(skip, es[..n]).value, es[n])
    ensures var p1, q := ApplyBoth(RunBoth(skip, es[..n]).value, es[n]), RunBoth(skip, es).value;
            StaysClosed(p1.client, q.client) && StaysClosed(p1.server, q.server)
  {
    RunFollows(skip, es, n + 1);
    TakenStep(skip, es, n);
  }

  lemma {:induction false} FlightFiveFollows(skip: bool, es: seq<Step>, n: nat, ds: seq<Draft>, random: seq<byte>)
    requires RunBoth(skip, es).Some? && n < |es| && es[n] == Client(Generate(ds, random))
    requires RunBoth(skip, es[..n]).Some? && RunBoth(skip, es[..n]).value.client.flight == Flight5
    ensures Follows(RunBoth(skip, es[..n]).value, RunBoth(skip, es).value, skip)
    ensures GeneratesFive(RunBoth(skip, es[..n]).value, RunBoth(skip, es).value, ds)
  {
    RunFollows(skip, es, n);
    ClosedAfter(skip, es, n);
    GeneratedFive(RunBoth(skip, es[..n]).value, RunBoth(skip, es).value, skip, ds, random);
  }

  /** The messages of flight 5 before the Finished. */
  function KeysOf(ds: seq<Draft>): seq<Message>
    requires |ds| >= 2
  {
    MessagesOf(ds[..|ds| - 2])
  }

  lemma {:induction false} KeyDrafts(ds: seq<Draft>)
    requires ClientKeyMessages(ds)
    ensures forall i :: 0 <= i < |ds| ==>
              && ds[i].Handshake? && ds[i].m.epoch == 0
              && ds[i].m.typ in {CERTIFICATE, CLIENT_KEY_EXCHANGE, CERTIFICATE_VERIFY}
    ensures forall i :: 0 <= i < |ds| && ds[i].m.typ == CERTIFICATE_VERIFY ==> i == |ds| - 1
    ensures ds[|ds| - 1].m.typ == CERTIFICATE_VERIFY ==>
              && |ds| >= 2 && ClientKeyMessages(ds[..|ds| - 1]) && ds[|ds| - 2].m.typ != CERTIFICATE_VERIFY
  {
  }

  lemma {:induction false} DraftsOfKeys(ds: seq<Draft>, ms: seq<Message>)
    requires |ms| == |ds| && forall i :: 0 <= i < |ds| ==> ds[i].Handshake? && ds[i].m == ms[i]
    ensures Drafts(ms) == ds
  {
    DraftsIndex(ms);
  }

  predicate SentKeys(hellos: seq<Message>, keys: seq<Message>, finished: Message, sent: seq<Message>) {
    && AllTyped(hellos, CLIENT_HELLO) && sent <= hellos + keys + [finished]
    && finished.typ == FINISHED && finished.epoch == 1
    && ClientKeyMessages(Drafts(keys))
    && (forall i :: 0 <= i < |keys| ==>
          keys[i].epoch == 0 && keys[i].typ in {CERTIFICATE, CLIENT_KEY_EXCHANGE, CERTIFICATE_VERIFY})
    && (forall i :: 0 <= i < |keys| - 1 ==> keys[i].typ != CERTIFICATE_VERIFY)
  }

  lemma {:induction false} ClientSentKeys(p: Pair, q: Pair, skip: bool, ds: seq<Draft>)
    requires Follows(p, q, skip) && GeneratesFive(p, q, ds)
    ensures SentKeys(p.up.sent, KeysOf(ds), ds[|ds| - 1].m, q.up.sent) && Drafts(KeysOf(ds)) == ds[..|ds| - 2]
  {
    ReachedHolds(p.client, true, false);
    MessagesOfFlight5(p.client.cookie, ds);
    KeyDrafts(ds[..|ds| - 2]);
    DraftsOfKeys(ds[..|ds| - 2], KeysOf(ds));
    assert p.up.sent + (KeysOf(ds) + [ds[|ds| - 1].m]) == p.up.sent + KeysOf(ds) + [ds[|ds| - 1].m];
  }

  /** Where the CertificateVerify is. */
  lemma {:induction false} VerifyAt(hellos: seq<Message>, keys: seq<Message>, finished: Message,
        sent: seq<Message>, v: nat)
    requires SentKeys(hellos, keys, finished, sent) && v < |sent| && sent[v].typ == CERTIFICATE_VERIFY
    ensures keys != [] && v == |hellos| + |keys| - 1 && keys[|keys| - 1].typ == CERTIFICATE_VERIFY
  {
    var all := hellos + keys + [finished];
    assert all[v].typ == CERTIFICATE_VERIFY;
    assert v >= |hellos|;
    assert all[v] == (keys + [finished])[v - |hellos|];
  }

  lemma {:induction false} FinishedAt(hellos: seq<Message>, keys: seq<Message>, finished: Message,
        sent: seq<Message>, f: nat)
    requires SentKeys(hellos, keys, finished, sent) && f < |sent| && sent[f].typ == FINISHED
    ensures f == |hellos| + |keys| && sent == hellos + keys + [finished]
  {
    var all := hellos + keys + [finished];
    assert all[f].typ == FINISHED;
    assert f >= |hellos|;
    assert all[f] == (keys + [finished])[f - |hellos|];
  }

  /** What the merges rest on. */
  predicate Premises(w: T.World, w1: T.World, keys: seq<Message>) {
    T.Invariant2(w) && T.Invariant2(w1) && J.Later(w, w1) && J.OnlyHellosSent(w.up.sent) && ClientKeyMessages(Drafts(keys))
  }

  lemma {:induction false} PremisesHold(p: Pair, q: Pair, skip: bool, ds: seq<Draft>)
    requires Follows(p, q, skip) && GeneratesFive(p, q, ds)
    ensures Premises(World(p), World(q), KeysOf(ds)) && Saw(p.client.cache, DONE_RULE)
    ensures SentKeys(p.up.sent, KeysOf(ds), ds[|ds| - 1].m, q.up.sent) && Drafts(KeysOf(ds)) == ds[..|ds| - 2]
    ensures p.client.sendSequence == |p.up.sent| <= 2 && |KeysOf(ds)| == |ds| - 2
  {
    ReachedHolds(p.client, true, false);
    ClientSentKeys(p, q, skip, ds);
    DraftsIndex(KeysOf(ds));
  }

  // ---------------------------------------------------------------- what the client signs

  /** Of what the rules ask for, the client's part is before the CertificateVerify. */
  lemma {:induction false} ClientPartBefore(hellos: seq<Message>, keys: seq<Message>, finished: Message,
        sent: seq<Message>, i: nat,
                                            limit: nat, typ: byte, epoch: uint16)
    requires SentKeys(hellos, keys, finished, sent) && i < |sent| && sent[i].typ == typ && sent[i].epoch == epoch
    requires limit <= |keys| && NoneTyped(keys[limit..], typ) && epoch == 0
    ensures i < |hellos| + limit
  {
    var all := hellos + keys + [finished];
    assert all[i] == sent[i];
  }

  lemma {:induction false} EarlyRule(p: Pair, q: Pair, skip: bool, keys: seq<Message>, finished: Message,
        limit: nat, r: Rule)
    requires Follows(p, q, skip) && Saw(p.client.cache, DONE_RULE) && SentKeys(p.up.sent, keys, finished, q.up.sent)
    requires r.epoch == 0 && limit <= |keys| && NoneTyped(keys[limit..], r.typ)
    requires |p.up.sent| + limit <= |q.up.popped|
    ensures J.NothingElse(World(p), World(q), keys[..limit], r)
  {
    ServerKeysArrived(p, q, skip);
    forall i | 0 <= i < |q.up.sent| && Matches(T.Written(q.up.sent[i], i, true), r) ensures i < |p.up.sent| + limit {
      ClientPartBefore(p.up.sent, keys, finished, q.up.sent, i, limit, r.typ, r.epoch);
    }
  }

  lemma {:induction false} PrefixOfSent(hellos: seq<Message>, keys: seq<Message>, finished: Message,
        sent: seq<Message>, limit: nat)
    requires sent <= hellos + keys + [finished] && limit <= |keys| && |hellos| + limit <= |sent|
    ensures hellos + keys[..limit] <= sent
  {
    assert (hellos + keys + [finished])[..|hellos| + limit] == hellos + keys[..limit];
  }

  predicate Early(rules: seq<Rule>, keys: seq<Message>, limit: nat)
    requires limit <= |keys|
  {
    forall r :: r in rules ==> r.epoch == 0 && NoneTyped(keys[limit..], r.typ)
  }

  lemma {:induction false} KeysCarried(p: Pair, q: Pair, skip: bool, keys: seq<Message>, finished: Message,
        limit: nat, rules: seq<Rule>)
    requires Follows(p, q, skip) && Saw(p.client.cache, DONE_RULE) && SentKeys(p.up.sent, keys, finished, q.up.sent)
    requires limit <= |keys| && |p.up.sent| + limit <= |q.up.popped| && Early(rules, keys, limit)
    ensures J.Carried(World(p), World(q), keys[..limit], rules)
  {
    PrefixOfSent(p.up.sent, keys, finished, q.up.sent, limit);
    forall r | r in rules ensures J.NothingElse(World(p), World(q), keys[..limit], r) {
      EarlyRule(p, q, skip, keys, finished, limit, r);
    }
  }

  predicate BeforeVerify(rules: seq<Rule>) {
    forall r :: r in rules ==> r.epoch == 0 && r.typ != CERTIFICATE_VERIFY
  }

  lemma {:induction false} OnlyVerifyLeft(rules: seq<Rule>, keys: seq<Message>)
    requires BeforeVerify(rules) && keys != [] && keys[|keys| - 1].typ == CERTIFICATE_VERIFY
    ensures Early(rules, keys, |keys| - 1)
  {
  }

  lemma {:induction false} VerifyRulesBefore()
    ensures BeforeVerify(VERIFY_RULES)
  {
  }

  lemma {:induction false} VerifyPopped(w: T.World, hellos: seq<Message>, keys: seq<Message>, finished: Message)
    requires T.Invariant2(w) && SentKeys(hellos, keys, finished, w.up.sent)
    requires Saw(w.serverCache, ClientRule(CERTIFICATE_VERIFY))
    ensures keys != [] && keys[|keys| - 1].typ == CERTIFICATE_VERIFY && |hellos| + |keys| - 1 <= |w.up.popped|
  {
    var v := ServerSawAt(w, ClientRule(CERTIFICATE_VERIFY));
    VerifyAt(hellos, keys, finished, w.up.sent, v);
  }

  lemma {:induction false} SignedIsCarried(p: Pair, q: Pair, skip: bool, keys: seq<Message>, finished: Message,
        rules: seq<Rule>)
    requires Follows(p, q, skip) && Saw(p.client.cache, DONE_RULE) && SentKeys(p.up.sent, keys, finished, q.up.sent)
    requires Saw(q.server.cache, ClientRule(CERTIFICATE_VERIFY)) && BeforeVerify(rules)
    ensures keys != [] && keys[|keys| - 1].typ == CERTIFICATE_VERIFY
    ensures J.Carried(World(p), World(q), keys[..|keys| - 1], rules)
  {
    VerifyPopped(World(q), p.up.sent, keys, finished);
    OnlyVerifyLeft(rules, keys);
    KeysCarried(p, q, skip, keys, finished, |keys| - 1, rules);
  }

  /** What a client with this cache signs, ahead of sending it, is what the server merges. */
  predicate SignatureAgrees(cache: seq<Item>, first: nat, server: seq<Item>, ds: seq<Draft>) {
    && |ds| >= 4 && IsMessage(ds[|ds| - 3], CERTIFICATE_VERIFY, 0)
    && Merged(server, VERIFY_RULES) == Merged(cache, VERIFY_RULES) + SentBytes(Number(ds[..|ds| - 3], first))
  }

  lemma {:induction false} ReadSignature(cache: seq<Item>, first: nat, server: seq<Item>, ds: seq<Draft>,
        key: seq<Message>)
    requires |ds| >= 4 && IsMessage(ds[|ds| - 3], CERTIFICATE_VERIFY, 0) && Drafts(key) == ds[..|ds| - 3]
    requires J.Merges(server, VERIFY_RULES, Merged(cache, VERIFY_RULES) + SentBytes(Number(Drafts(key), first)))
    ensures SignatureAgrees(cache, first, server, ds)
  {
  }

  lemma {:induction false} SignedKeys(ds: seq<Draft>, keys: seq<Message>)
    requires |ds| >= 3 && ClientKeyMessages(ds[..|ds| - 2]) && Drafts(keys) == ds[..|ds| - 2]
    requires keys != [] && keys[|keys| - 1].typ == CERTIFICATE_VERIFY
    ensures |ds| >= 4 && IsMessage(ds[|ds| - 3], CERTIFICATE_VERIFY, 0) && Drafts(keys[..|keys| - 1]) == ds[..|ds| - 3]
    ensures |keys| >= 2 && ClientKeyMessages(ds[..|ds| - 3]) && keys[|keys| - 2].typ != CERTIFICATE_VERIFY
  {
    var before := ds[..|ds| - 2];
    DraftsIndex(keys);
    KeyDrafts(before);
    assert before[..|before| - 1] == ds[..|ds| - 3];
    DraftsOfKeys(ds[..|ds| - 3], keys[..|keys| - 1]);
  }

  lemma {:induction false} SignedAt(p: Pair, q: Pair, skip: bool, ds: seq<Draft>)
    requires Follows(p, q, skip) && GeneratesFive(p, q, ds) && Saw(q.server.cache, ClientRule(CERTIFICATE_VERIFY))
    ensures SignatureAgrees(p.client.cache, p.client.sendSequence, q.server.cache, ds)
  {
    var keys := KeysOf(ds);
    PremisesHold(p, q, skip, ds);
    VerifyRulesBefore();
    SignedIsCarried(p, q, skip, keys, ds[|ds| - 1].m, VERIFY_RULES);
    SignedKeys(ds, keys);
    var key := keys[..|keys| - 1];
    J.ServerMergesSigned(World(p), World(q), key);
    ReadSignature(p.client.cache, p.client.sendSequence, q.server.cache, ds, key);
  }

  /** What a client signs for its CertificateVerify is what the server merges to check it: in every run of both ends,
      whatever was lost, repeated or reordered, once the server has pulled that message. */
  lemma {:induction false} SignedIsWhatTheServerChecks(skip: bool, es: seq<Step>, n: nat, ds: seq<Draft>,
        random: seq<byte>)
    requires RunBoth(skip, es).Some? && n < |es| && es[n] == Client(Generate(ds, random))
    requires RunBoth(skip, es[..n]).Some? && RunBoth(skip, es[..n]).value.client.flight == Flight5
    requires Saw(RunBoth(skip, es).value.server.cache, ClientRule(CERTIFICATE_VERIFY))
    ensures var p, q := RunBoth(skip, es[..n]).value, RunBoth(skip, es).value;
            SignatureAgrees(p.client.cache, p.client.sendSequence, q.server.cache, ds)
  {
    FlightFiveFollows(skip, es, n, ds, random);
    SignedAt(RunBoth(skip, es[..n]).value, RunBoth(skip, es).value, skip, ds);
  }

  // ---------------------------------------------------------------- what the client hashes

  lemma {:induction false} FinishedPopped(w: T.World, hellos: seq<Message>, keys: seq<Message>, finished: Message)
    requires T.Invariant2(w) && SentKeys(hellos, keys, finished, w.up.sent) && Saw(w.serverCache, CLIENT_FINISHED_RULE)
    ensures w.up.sent == hellos + keys + [finished] && |w.up.popped| == |w.up.sent|
  {
    var f := ServerSawAt(w, CLIENT_FINISHED_RULE);
    FinishedAt(hellos, keys, finished, w.up.sent, f);
  }

  lemma {:induction false} BeforeFinishedEarly(keys: seq<Message>)
    ensures Early(J.BEFORE_FINISHED_RULES, keys, |keys|)
  {
  }

  lemma {:induction false} HashedIsCarried(p: Pair, q: Pair, skip: bool, keys: seq<Message>, finished: Message)
    requires Follows(p, q, skip) && Saw(p.client.cache, DONE_RULE) && SentKeys(p.up.sent, keys, finished, q.up.sent)
    requires Saw(q.server.cache, CLIENT_FINISHED_RULE)
    ensures J.Carried(World(p), World(q), keys, J.BEFORE_FINISHED_RULES)
    ensures q.up.sent == p.up.sent + keys + [finished] && |q.up.popped| == |q.up.sent|
  {
    FinishedPopped(World(q), p.up.sent, keys, finished);
    BeforeFinishedEarly(keys);
    KeysCarried(p, q, skip, keys, finished, |keys|, J.BEFORE_FINISHED_RULES);
    assert keys[..|keys|] == keys;
  }

  lemma {:induction false} FinishedRuleCarried(w: T.World, w1: T.World, keys: seq<Message>, finished: Message, r: Rule)
    requires T.Invariant2(w1) && w1.up.sent == w.up.sent + keys + [finished] && |w1.up.popped| == |w1.up.sent|
    requires r == FINISHED_RULE || J.NothingElse(w, w1, keys, r)
    ensures J.NothingElse(w, w1, keys + [finished], r)
  {
  }

  lemma {:induction false} FinishedRules(r: Rule)
    requires r in FINISHED_RULES
    ensures r == FINISHED_RULE || r in J.BEFORE_FINISHED_RULES
  {
  }

  lemma {:induction false} RestIsCarried(p: Pair, q: Pair, skip: bool, keys: seq<Message>, finished: Message)
    requires Follows(p, q, skip) && J.Carried(World(p), World(q), keys, J.BEFORE_FINISHED_RULES)
    requires q.up.sent == p.up.sent + keys + [finished] && |q.up.popped| == |q.up.sent|
    ensures J.Carried(World(p), World(q), keys + [finished], FINISHED_RULES)
  {
    assert p.up.sent + keys + [finished] == p.up.sent + (keys + [finished]);
    forall r | r in FINISHED_RULES ensures J.NothingElse(World(p), World(q), keys + [finished], r) {
      FinishedRules(r);
      FinishedRuleCarried(World(p), World(q), keys, finished, r);
    }
  }

  /** What a client with this cache hashes, ahead of sending it, is what the server merges up to the client's Finished;
      and with the Finished it is what the server hashes for its own. */
  predicate HashAgrees(cache: seq<Item>, first: nat, server: seq<Item>, ds: seq<Draft>) {
    && |ds| >= 3 && IsMessage(ds[|ds| - 1], FINISHED, 1) && first + |ds| < D.MAX_MESSAGES
    && var hashed := Merged(cache, FINISHED_RULES) + SentBytes(Number(ds[..|ds| - 2], first));
    && Merged(server, J.BEFORE_FINISHED_RULES) == hashed
    && Merged(server, FINISHED_RULES) == hashed + WireMessage(ds[|ds| - 1].m, first + |ds| - 2)
  }

  lemma {:induction false} ReadHash(cache: seq<Item>, first: nat, server: seq<Item>, ds: seq<Draft>, keys: seq<Message>)
    requires |ds| >= 3 && IsMessage(ds[|ds| - 1], FINISHED, 1) && Drafts(keys) == ds[..|ds| - 2] && |keys| == |ds| - 2
    requires first + |ds| < D.MAX_MESSAGES
    requires J.Merges(server, J.BEFORE_FINISHED_RULES,
                      Merged(cache, FINISHED_RULES) + SentBytes(Number(Drafts(keys), first)))
    requires J.HasTheRest(cache, first, server, keys, ds[|ds| - 1].m)
    ensures HashAgrees(cache, first, server, ds)
  {
  }

  lemma {:induction false} HashedOverWorlds(w: T.World, w1: T.World, keys: seq<Message>, finished: Message)
    requires Premises(w, w1, keys) && finished.typ == FINISHED && finished.epoch == 1
    requires J.Carried(w, w1, keys, J.BEFORE_FINISHED_RULES) && J.Carried(w, w1, keys + [finished], FINISHED_RULES)
    ensures J.Merges(w1.serverCache, J.BEFORE_FINISHED_RULES,
                     Merged(w.clientCache, FINISHED_RULES) + SentBytes(Number(Drafts(keys), |w.up.sent|)))
    ensures J.HasTheRest(w.clientCache, |w.up.sent|, w1.serverCache, keys, finished)
  {
    J.ServerMergesHashed(w, w1, keys);
    J.ServerMergesTheRest(w, w1, keys, finished);
  }

  lemma {:induction false} BothCarried(p: Pair, q: Pair, skip: bool, keys: seq<Message>, finished: Message)
    requires Follows(p, q, skip) && Saw(p.client.cache, DONE_RULE) && SentKeys(p.up.sent, keys, finished, q.up.sent)
    requires Saw(q.server.cache, CLIENT_FINISHED_RULE)
    ensures J.Carried(World(p), World(q), keys, J.BEFORE_FINISHED_RULES)
    ensures J.Carried(World(p), World(q), keys + [finished], FINISHED_RULES)
  {
    HashedIsCarried(p, q, skip, keys, finished);
    RestIsCarried(p, q, skip, keys, finished);
  }

  lemma {:induction false} HashedAt(p: Pair, q: Pair, skip: bool, ds: seq<Draft>)
    requires Follows(p, q, skip) && GeneratesFive(p, q, ds) && Saw(q.server.cache, CLIENT_FINISHED_RULE)
    ensures HashAgrees(p.client.cache, p.client.sendSequence, q.server.cache, ds)
  {
    var keys, finished := KeysOf(ds), ds[|ds| - 1].m;
    PremisesHold(p, q, skip, ds);
    BothCarried(p, q, skip, keys, finished);
    HashedOverWorlds(World(p), World(q), keys, finished);
    ReadHash(p.client.cache, p.client.sendSequence, q.server.cache, ds, keys);
  }

  /** In every run of both ends, once the server is in flight 6. */
  lemma {:induction false} HashedIsWhatTheServerHas(skip: bool, es: seq<Step>, n: nat, ds: seq<Draft>,
        random: seq<byte>)
    requires RunBoth(skip, es).Some? && n < |es| && es[n] == Client(Generate(ds, random))
    requires RunBoth(skip, es[..n]).Some? && RunBoth(skip, es[..n]).value.client.flight == Flight5
    requires RunBoth(skip, es).value.server.flight == Flight6
    ensures var p, q := RunBoth(skip, es[..n]).value, RunBoth(skip, es).value;
            HashAgrees(p.client.cache, p.client.sendSequence, q.server.cache, ds)
  {
    FlightFiveFollows(skip, es, n, ds, random);
    ReachedHolds(RunBoth(skip, es).value.server, false, skip);
    HashedAt(RunBoth(skip, es[..n]).value, RunBoth(skip, es).value, skip, ds);
  }

  // ---------------------------------------------------------------- what the server hashes

  lemma {:induction false} NoServerFinishedYet(q: Pair, skip: bool)
    requires Invariant3(q, skip) && q.server.flight == Flight6 && q.server.phase == Preparing
    ensures !Saw(q.client.cache, SERVER_FINISHED_RULE)
  {
    ReachedHolds(q.server, false, skip);
    if Saw(q.client.cache, SERVER_FINISHED_RULE) {
      var g := ClientSawAt(World(q), SERVER_FINISHED_RULE);
    }
  }

  /** A server about to generate flight 6 has all that the client sends, and the client is in flight 5. */
  lemma {:induction false} FlightSixHasAll(q: Pair, skip: bool)
    requires Invariant3(q, skip) && q.server.flight == Flight6 && q.server.phase == Preparing
    ensures Closed(q.client) && q.client.flight == Flight5 && q.up.sent == Messages(q.client.log)
    ensures |q.up.popped| == |q.up.sent|
  {
    ReachedHolds(q.client, true, false);
    ReachedHolds(q.server, false, skip);
    NoServerFinishedYet(q, skip);
    var f := ServerSawAt(World(q), CLIENT_FINISHED_RULE);
    assert Messages(q.client.log)[f].typ == FINISHED;
  }

  lemma {:induction false} NothingNewSince(q: Pair, r: Pair, skip: bool, rule: Rule)
    requires Follows(q, r, skip) && Saw(q.client.cache, DONE_RULE)
    requires r.up.sent == q.up.sent && |q.up.popped| == |q.up.sent|
    requires rule.isClient || rule.epoch == 0
    ensures J.NothingNew(World(q), World(r), rule)
  {
    ServerKeysArrived(q, r, skip);
  }

  lemma {:induction false} AllNothingNew(q: Pair, r: Pair, skip: bool)
    requires Follows(q, r, skip) && Saw(q.client.cache, DONE_RULE)
    requires r.up.sent == q.up.sent && |q.up.popped| == |q.up.sent|
    ensures forall rule :: rule in FINISHED_RULES ==> J.NothingNew(World(q), World(r), rule)
  {
    forall rule | rule in FINISHED_RULES ensures J.NothingNew(World(q), World(r), rule) {
      FinishedRules(rule);
      NothingNewSince(q, r, skip, rule);
    }
  }

  lemma {:induction false} SentTheSame(q: Pair, r: Pair, skip: bool)
    requires Follows(q, r, skip) && q.server.flight == Flight6 && q.server.phase == Preparing
    ensures Saw(q.client.cache, DONE_RULE) && r.up.sent == q.up.sent && |q.up.popped| == |q.up.sent|
  {
    FlightSixHasAll(q, skip);
    ReachedHolds(q.client, true, false);
  }

  /** What the server hashes for its Finished at `q` is what the client merges to check it at `r`. */
  lemma {:induction false} CheckedAt(q: Pair, r: Pair, skip: bool)
    requires Follows(q, r, skip) && q.server.flight == Flight6 && q.server.phase == Preparing
    ensures Merged(r.client.cache, FINISHED_RULES) == Merged(q.server.cache, FINISHED_RULES)
  {
    SentTheSame(q, r, skip);
    AllNothingNew(q, r, skip);
    J.ClientMergesTheSame(World(q), World(r), FINISHED_RULES);
  }

  lemma {:induction false} FlightSixEnds(q: Pair, r: Pair, skip: bool, ds: seq<Draft>, random: seq<byte>)
    requires Invariant3(q, skip) && q.server.flight == Flight6 && Enabled(q.server, Generate(ds, random))
    requires StaysClosed(Prepared(q.server, ds, random), r.server)
    ensures Messages(r.server.log) == q.down.sent + [ds[1].m] && NoneTyped(q.down.sent, FINISHED)
    ensures |q.down.sent| == q.server.sendSequence < 7
  {
    ReachedHolds(q.server, false, skip);
    PreparedOtherShape(q.server, ds, random);
    MessagesOfChange(ds);
  }

  /** The server's Finished in the client's cache is the last message. */
  lemma {:induction false} FinishedIsTheOne(w: T.World, before: seq<Message>, finished: Message, c: Item)
    requires T.Invariant2(w) && w.down.sent <= before + [finished] && NoneTyped(before, FINISHED) && |before| < 7
    requires c in w.clientCache && Matches(c, SERVER_FINISHED_RULE)
    ensures c.data == WireMessage(finished, |before|)
  {
    T.WrittenIndexed(w.up.sent, true);
    var k :| 0 <= k < |w.clientCache| && w.clientCache[k] == c;
    var i :| 0 <= i < |w.down.popped| && T.WrittenAll(w.down.sent, false)[i] == c;
    T.WrittenAt(w.down.sent, false, i);
    assert w.down.sent[i] == (before + [finished])[i];
  }

  /** In every run of both ends: when the server generates flight 6 it hashes `Merged(..., FINISHED_RULES)` of its cache;
      at any later moment the client merges the same, and the Finished it compares with is that very message. */
  lemma {:induction false} ClientChecksWhatTheServerHashed(skip: bool, es: seq<Step>, n: nat, ds: seq<Draft>,
        random: seq<byte>)
    requires RunBoth(skip, es).Some? && n < |es| && es[n] == Server(Generate(ds, random))
    requires RunBoth(skip, es[..n]).Some? && RunBoth(skip, es[..n]).value.server.flight == Flight6
    ensures var q, r := RunBoth(skip, es[..n]).value, RunBoth(skip, es).value;
            && Merged(r.client.cache, FINISHED_RULES) == Merged(q.server.cache, FINISHED_RULES)
            && |ds| == 2 && IsMessage(ds[1], FINISHED, 1) && q.server.sendSequence < 7
            && forall c :: c in r.client.cache && Matches(c, SERVER_FINISHED_RULE) ==>
                 c.data == WireMessage(ds[1].m, q.server.sendSequence)
  {
    RunFollows(skip, es, n);
    ClosedAfter(skip, es, n);
    var q, r := RunBoth(skip, es[..n]).value, RunBoth(skip, es).value;
    CheckedAt(q, r, skip);
    FlightSixEnds(q, r, skip, ds, random);
    forall c | c in r.client.cache && Matches(c, SERVER_FINISHED_RULE)
      ensures c.data == WireMessage(ds[1].m, q.server.sendSequence)
    {
      FinishedIsTheOne(World(r), q.down.sent, ds[1].m, c);
    }
  }
}
