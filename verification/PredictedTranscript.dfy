/** Flights 5 and 4b hash messages before they are numbered and sent: the hashed bytes are the sent bytes. */
module PredictedTranscript {
  import opened Bits
  import opened Wire
  import opened Fragmentation
  import opened HandshakeCaches
  import opened Flights
  import opened FlightRuns
  import opened Numbering
  import Transcript

  type Body = b: seq<byte> | |b| < MAX_MESSAGE_LENGTH

  function ClientRule(typ: byte): Rule { Rule(typ, 0, true, false) }

  const HELLO_AND_SERVER_RULES :=
    [ClientRule(CLIENT_HELLO), Rule(SERVER_HELLO, 0, false, false), Rule(CERTIFICATE, 0, false, false),
     Rule(SERVER_KEY_EXCHANGE, 0, false, false), Rule(CERTIFICATE_REQUEST, 0, false, false),
     Rule(SERVER_HELLO_DONE, 0, false, false)]

  const FINISHED_RULE := Rule(FINISHED, 1, true, false)

  const KEY_RULES := [ClientRule(CERTIFICATE), ClientRule(CLIENT_KEY_EXCHANGE)]

  const CLOSING_RULES := [ClientRule(CERTIFICATE_VERIFY), FINISHED_RULE]

  /** The rules CertificateVerify and the session hash pull by. */
  const VERIFY_RULES := HELLO_AND_SERVER_RULES + KEY_RULES

  /** The rules a Finished is computed by. */
  const FINISHED_RULES := VERIFY_RULES + CLOSING_RULES

  /** The bytes `writePackets` will put in the cache and on the wire for these messages. */
  function SentBytes(ns: seq<Numbered>): seq<byte> {
    if ns == [] then [] else SentBytes(ns[..|ns| - 1]) + WireMessage(ns[|ns| - 1].m, ns[|ns| - 1].number)
  }

  // ---------------------------------------------------------------- the code

  /** The loop that predicts numbers: `merged` is exactly what sending the packets from `sendSequence` on will emit. */
  method MergeAhead(pkts: seq<Message>, sendSequence: nat) returns (merged: seq<byte>, seqPred: uint16)
    ensures merged == Ahead(pkts, sendSequence)
    ensures seqPred == (sendSequence + |pkts|) % 0x1_0000
  {
    merged := [];
    seqPred := sendSequence % 0x1_0000;
    for i := 0 to |pkts|
      invariant seqPred == (sendSequence + i) % 0x1_0000
      invariant merged == Ahead(pkts[..i], sendSequence)
    {
      AheadStep(pkts, i, sendSequence, merged);
      merged := merged + WireMessage(pkts[i], seqPred);
      seqPred := (seqPred + 1) % 0x1_0000;
    }
    assert pkts[..|pkts|] == pkts;
  }

  /** The bytes that numbering the messages from `first` on and sending them emits. */
  function Ahead(ms: seq<Message>, first: nat): seq<byte> {
    SentBytes(Number(Drafts(ms), first))
  }

  lemma AheadStep(pkts: seq<Message>, i: nat, first: nat, merged: seq<byte>)
    requires i < |pkts| && merged == Ahead(pkts[..i], first)
    ensures merged + WireMessage(pkts[i], (first + i) % 0x1_0000) == Ahead(pkts[..i + 1], first)
    ensures ((first + i) % 0x1_0000 + 1) % 0x1_0000 == (first + i + 1) % 0x1_0000
  {
    assert pkts[..i + 1] == pkts[..i] + [pkts[i]];
    NumberAppend(pkts[..i], pkts[i], first);
  }

  /** `flight5Generate`; `signer` is present when a certificate was requested and its key can sign. */
  method Flight5Generate(cache: HandshakeCache, sendSequence: nat, certificate: Option<Body>, keyExchange: Body,
                         signer: Option<seq<byte> -> Body>, verifyData: seq<byte> -> Body)
    returns (drafts: seq<Draft>, signed: Option<seq<byte>>, hashed: seq<byte>)
    requires signer.Some? ==> certificate.Some?
    ensures Generates(Flight5, [], drafts) && |drafts| >= 3
    ensures signed.Some? <==> signer.Some?
    ensures var before := drafts[..|drafts| - 2];
            && hashed == Merged(cache.cache, FINISHED_RULES) + SentBytes(Number(before, sendSequence))
            && (signed.Some? ==> signed.value == Merged(cache.cache, VERIFY_RULES)
                                                + SentBytes(Number(before[..|before| - 1], sendSequence)))
            && drafts[|drafts| - 1] == Handshake(RawMessage(FINISHED, 1, verifyData(hashed)))
            && (signer.Some? ==> before[|before| - 1] == Handshake(RawMessage(CERTIFICATE_VERIFY, 0, signer.value(signed.value))))
  {
    var pkts: seq<Message> := [];
    if certificate.Some? {
      pkts := [RawMessage(CERTIFICATE, 0, certificate.value)];
    }
    pkts := pkts + [RawMessage(CLIENT_KEY_EXCHANGE, 0, keyExchange)];
    var merged, seqPred := MergeAhead(pkts, sendSequence);
    signed := None;
    ghost var early := pkts;
    if signer.Some? {
      var plainText := cache.PullAndMerge(VERIFY_RULES);
      signed := Some(plainText + merged);
      var verify: Message := RawMessage(CERTIFICATE_VERIFY, 0, signer.value(plainText + merged));
      NumberAppend(pkts, verify, sendSequence);
      pkts := pkts + [verify];
      merged := merged + WireMessage(verify, seqPred);
    }
    var finishedText := cache.PullAndMerge(FINISHED_RULES);
    hashed := finishedText + merged;
    drafts := Drafts(pkts) + [ChangeCipherSpec, Handshake(RawMessage(FINISHED, 1, verifyData(hashed)))];
    DraftsIndex(pkts);
    assert drafts[..|drafts| - 2] == Drafts(pkts);
    if signer.Some? {
      DraftsIndex(early);
      assert Drafts(pkts)[..|pkts| - 1] == Drafts(early);
    }
  }

  function Drafts(ms: seq<Message>): seq<Draft> {
    if ms == [] then [] else Drafts(ms[..|ms| - 1]) + [Handshake(ms[|ms| - 1])]
  }

  lemma {:induction false} DraftsIndex(ms: seq<Message>)
    ensures |Drafts(ms)| == |ms|
    ensures forall i :: 0 <= i < |ms| ==> Drafts(ms)[i] == Handshake(ms[i])
  {
    if ms != [] { DraftsIndex(ms[..|ms| - 1]); }
  }

  lemma {:induction false} NumberConcat(a: seq<Draft>, b: seq<Draft>, first: nat)
    ensures Number(a + b, first) == Number(a, first) + Number(b, first + |Number(a, first)|)
    decreases a
  {
    if a == [] {
      assert a + b == b;
    } else {
      assert (a + b)[1..] == a[1..] + b;
      NumberConcat(a[1..], b, if a[0].Handshake? then first + 1 else first);
    }
  }

  lemma {:induction false} NumberDrafts(ms: seq<Message>, first: nat)
    ensures |Number(Drafts(ms), first)| == |ms|
  {
    if ms != [] {
      NumberDrafts(ms[..|ms| - 1], first);
      NumberConcat(Drafts(ms[..|ms| - 1]), [Handshake(ms[|ms| - 1])], first);
      assert |Number([Handshake(ms[|ms| - 1])], first + |ms| - 1)| == 1;
    }
  }

  lemma NumberAppend(ms: seq<Message>, m: Message, first: nat)
    ensures Number(Drafts(ms + [m]), first) == Number(Drafts(ms), first) + [Numbered((first + |ms|) % 0x1_0000, m)]
    ensures SentBytes(Number(Drafts(ms + [m]), first))
         == SentBytes(Number(Drafts(ms), first)) + WireMessage(m, (first + |ms|) % 0x1_0000)
  {
    assert (ms + [m])[..|ms|] == ms;
    NumberConcat(Drafts(ms), [Handshake(m)], first);
    NumberDrafts(ms, first);
    assert Number([Handshake(m)], first + |ms|) == [Numbered((first + |ms|) % 0x1_0000, m)] + [];
    var all := Number(Drafts(ms + [m]), first);
    assert all[..|all| - 1] == Number(Drafts(ms), first);
  }

  // ---------------------------------------------------------------- what pulling makes of the sent messages

  lemma BestSkips(cache: seq<Item>, more: seq<Item>, r: Rule)
    requires forall c :: c in more ==> !Matches(c, r)
    ensures Best(cache + more, r) == Best(cache, r)
    decreases more
  {
    if more == [] {
      assert cache + more == cache;
    } else {
      var c := more[|more| - 1];
      assert c in more;
      assert (cache + more)[..|cache + more| - 1] == cache + more[..|more| - 1];
      BestSkips(cache, more[..|more| - 1], r);
    }
  }

  lemma {:induction false} MergedSkips(cache: seq<Item>, more: seq<Item>, rules: seq<Rule>)
    requires forall c, r :: c in more && r in rules ==> !Matches(c, r)
    ensures Merged(cache + more, rules) == Merged(cache, rules)
  {
    if rules != [] {
      MergedSkips(cache, more, rules[..|rules| - 1]);
      assert rules[|rules| - 1] in rules;
      BestSkips(cache, more, rules[|rules| - 1]);
    }
  }

  lemma {:induction false} MergedConcat(cache: seq<Item>, a: seq<Rule>, b: seq<Rule>)
    ensures Merged(cache, a + b) == Merged(cache, a) + Merged(cache, b)
  {
    if b == [] {
      assert a + b == a;
    } else {
      assert (a + b)[..|a + b| - 1] == a + b[..|b| - 1];
      MergedConcat(cache, a, b[..|b| - 1]);
    }
  }

  /** The bytes one rule contributes. */
  function Pulled(cache: seq<Item>, r: Rule): seq<byte> {
    match Best(cache, r)
    case None => []
    case Some(c) => c.data
  }

  lemma MergedPair(cache: seq<Item>, a: Rule, b: Rule)
    ensures Merged(cache, [a, b]) == Pulled(cache, a) + Pulled(cache, b)
  {
    assert [a, b][..1] == [a];
    assert [a][..0] == [];
    assert Merged(cache, [a]) == [] + Pulled(cache, a);
  }

  lemma PulledIsOnlyMatch(cache: seq<Item>, r: Rule, c: Item)
    requires c in cache && Matches(c, r) && forall d :: d in cache && Matches(d, r) ==> d == c
    ensures Pulled(cache, r) == c.data
  {
    BestIsHighestMatch(cache, r);
  }

  lemma PulledNothing(cache: seq<Item>, r: Rule)
    requires forall d :: d in cache ==> !Matches(d, r)
    ensures Pulled(cache, r) == []
  {
    BestIsHighestMatch(cache, r);
  }

  // ---------------------------------------------------------------- flight 5

  /** Certificate if any, ClientKeyExchange, CertificateVerify if any: the client's own, of epoch 0. */
  predicate KeyItems(own: seq<Item>) {
    var k := if own != [] && own[0].typ == CERTIFICATE then 1 else 0;
    && k < |own| <= k + 2
    && own[k].typ == CLIENT_KEY_EXCHANGE
    && (|own| == k + 2 ==> own[k + 1].typ == CERTIFICATE_VERIFY)
    && forall i :: 0 <= i < |own| ==> own[i].isClient && own[i].epoch == 0
  }

  predicate NoOwnKeyMessages(cache: seq<Item>) {
    forall c :: c in cache && c.isClient ==> c.typ == CLIENT_HELLO
  }

  function DataOf(items: seq<Item>): seq<byte> {
    if items == [] then [] else DataOf(items[..|items| - 1]) + items[|items| - 1].data
  }

  lemma PulledPresent(cache: seq<Item>, own: seq<Item>, i: nat)
    requires NoOwnKeyMessages(cache) && KeyItems(own) && i < |own|
    ensures Pulled(cache + own, ClientRule(own[i].typ)) == own[i].data
  {
    assert (cache + own)[|cache| + i] == own[i];
    PulledIsOnlyMatch(cache + own, ClientRule(own[i].typ), own[i]);
  }

  lemma PulledAbsent(cache: seq<Item>, own: seq<Item>, typ: byte)
    requires NoOwnKeyMessages(cache) && KeyItems(own) && typ != CLIENT_HELLO
    requires forall i :: 0 <= i < |own| ==> own[i].typ != typ
    ensures Pulled(cache + own, ClientRule(typ)) == []
  {
    PulledNothing(cache + own, ClientRule(typ));
  }

  lemma SentKeyMessages(cache: seq<Item>, own: seq<Item>)
    requires NoOwnKeyMessages(cache) && KeyItems(own)
    ensures var after := cache + own;
            DataOf(own) == Pulled(after, ClientRule(CERTIFICATE)) + Pulled(after, ClientRule(CLIENT_KEY_EXCHANGE))
                           + Pulled(after, ClientRule(CERTIFICATE_VERIFY))
  {
    if own[0].typ == CERTIFICATE {
      PulledPresent(cache, own, 0);
      PulledPresent(cache, own, 1);
      if |own| == 3 { PulledPresent(cache, own, 2); } else { PulledAbsent(cache, own, CERTIFICATE_VERIFY); }
    } else {
      PulledAbsent(cache, own, CERTIFICATE);
      PulledPresent(cache, own, 0);
      if |own| == 2 { PulledPresent(cache, own, 1); } else { PulledAbsent(cache, own, CERTIFICATE_VERIFY); }
    }
    DataOfShort(own);
  }

  lemma DataOfShort(own: seq<Item>)
    requires 1 <= |own| <= 3
    ensures DataOf(own) == own[0].data + (if |own| > 1 then own[1].data else []) + (if |own| > 2 then own[2].data else [])
  {
    assert DataOf(own[..0]) == [];
    assert own[..1][..0] == own[..0];
    assert |own| > 1 ==> own[..2][..1] == own[..1];
    assert |own| > 2 ==> own[..3][..2] == own[..2];
    assert own[..|own|] == own;
  }

  lemma PulledBefore(cache: seq<Item>)
    requires NoOwnKeyMessages(cache)
    ensures Merged(cache, FINISHED_RULES) == Merged(cache, VERIFY_RULES) == Merged(cache, HELLO_AND_SERVER_RULES)
  {
    MergedFinished(cache);
    PulledNothing(cache, ClientRule(CERTIFICATE));
    PulledNothing(cache, ClientRule(CLIENT_KEY_EXCHANGE));
    PulledNothing(cache, ClientRule(CERTIFICATE_VERIFY));
    PulledNothing(cache, FINISHED_RULE);
  }

  lemma ServerRulesSkipOwn(cache: seq<Item>, own: seq<Item>)
    requires KeyItems(own)
    ensures Merged(cache + own, HELLO_AND_SERVER_RULES) == Merged(cache, HELLO_AND_SERVER_RULES)
  {
    forall c, r | c in own && r in HELLO_AND_SERVER_RULES ensures !Matches(c, r) {
      assert c.isClient && c.typ != CLIENT_HELLO;
    }
    MergedSkips(cache, own, HELLO_AND_SERVER_RULES);
  }

  lemma PulledAfter(cache: seq<Item>, own: seq<Item>)
    requires NoOwnKeyMessages(cache) && KeyItems(own)
    ensures Merged(cache + own, FINISHED_RULES) == Merged(cache, HELLO_AND_SERVER_RULES) + DataOf(own)
  {
    MergedFinished(cache + own);
    ServerRulesSkipOwn(cache, own);
    PulledNothing(cache + own, FINISHED_RULE);
    SentKeyMessages(cache, own);
  }

  lemma PulledUnsigned(cache: seq<Item>, own: seq<Item>)
    requires NoOwnKeyMessages(cache) && KeyItems(own) && own[|own| - 1].typ != CERTIFICATE_VERIFY
    ensures Merged(cache + own, VERIFY_RULES) == Merged(cache, HELLO_AND_SERVER_RULES) + DataOf(own)
  {
    MergedFinished(cache + own);
    ServerRulesSkipOwn(cache, own);
    PulledAbsent(cache, own, CERTIFICATE_VERIFY);
    SentKeyMessages(cache, own);
  }

  /** Pulling before sending and appending the predicted bytes is pulling after sending. */
  lemma PredictedIsActual(cache: seq<Item>, own: seq<Item>)
    requires NoOwnKeyMessages(cache) && KeyItems(own)
    ensures Merged(cache, FINISHED_RULES) + DataOf(own) == Merged(cache + own, FINISHED_RULES)
    ensures own[|own| - 1].typ != CERTIFICATE_VERIFY ==>
              Merged(cache, VERIFY_RULES) + DataOf(own) == Merged(cache + own, VERIFY_RULES)
  {
    PulledBefore(cache);
    PulledAfter(cache, own);
    if own[|own| - 1].typ != CERTIFICATE_VERIFY { PulledUnsigned(cache, own); }
  }

  lemma MergedFinished(cache: seq<Item>)
    ensures Merged(cache, VERIFY_RULES)
         == Merged(cache, HELLO_AND_SERVER_RULES) + (Pulled(cache, ClientRule(CERTIFICATE)) + Pulled(cache, ClientRule(CLIENT_KEY_EXCHANGE)))
    ensures Merged(cache, FINISHED_RULES)
         == Merged(cache, VERIFY_RULES) + (Pulled(cache, ClientRule(CERTIFICATE_VERIFY)) + Pulled(cache, FINISHED_RULE))
  {
    MergedConcat(cache, HELLO_AND_SERVER_RULES, KEY_RULES);
    MergedConcat(cache, VERIFY_RULES, CLOSING_RULES);
    MergedPair(cache, ClientRule(CERTIFICATE), ClientRule(CLIENT_KEY_EXCHANGE));
    MergedPair(cache, ClientRule(CERTIFICATE_VERIFY), FINISHED_RULE);
  }

  // ---------------------------------------------------------------- over whole runs

  lemma {:induction false} SentBytesAreCached(isClient: bool, ns: seq<Numbered>)
    ensures SentBytes(ns) == DataOf(OwnItems(isClient, ns))
  {
    OwnItemsIndex(isClient, ns);
    if ns != [] {
      SentBytesAreCached(isClient, ns[..|ns| - 1]);
      OwnItemsIndex(isClient, ns[..|ns| - 1]);
      var own := OwnItems(isClient, ns);
      assert own[..|own| - 1] == OwnItems(isClient, ns[..|ns| - 1]);
    }
  }

  lemma {:induction false} OwnItemsIndex(isClient: bool, ns: seq<Numbered>)
    ensures |OwnItems(isClient, ns)| == |ns|
    ensures forall i :: 0 <= i < |ns| ==> OwnItems(isClient, ns)[i] == Transcript.Written(ns[i].m, ns[i].number, isClient)
  {
    if ns != [] {
      OwnItemsIndex(isClient, ns[1..]);
    }
  }

  lemma {:induction false} NumberMessages(ds: seq<Draft>, first: nat)
    requires forall i :: 0 <= i < |ds| ==> ds[i].Handshake?
    ensures |Number(ds, first)| == |ds| && forall i :: 0 <= i < |ds| ==> Number(ds, first)[i].m == ds[i].m
  {
    if ds != [] {
      NumberMessages(ds[1..], first + 1);
    }
  }

  lemma KeyDraftsAreKeyItems(ds: seq<Draft>, first: nat)
    requires ClientKeyMessages(ds)
    ensures KeyItems(OwnItems(true, Number(ds, first)))
  {
    NumberMessages(ds, first);
    OwnItemsIndex(true, Number(ds, first));
  }

  predicate MergesAhead(cache: seq<Item>, ds: seq<Draft>, first: nat, rules: seq<Rule>) {
    Merged(cache, rules) + SentBytes(Number(ds, first)) == Merged(cache + OwnItems(true, Number(ds, first)), rules)
  }

  /** What is hashed for the Finished, and signed for the CertificateVerify, before the messages of flight 5 are numbered
      is what pulling gives once they are cached. */
  predicate HashesWhatItSends(s: Fsm, drafts: seq<Draft>)
    requires |drafts| >= 3
  {
    var before := drafts[..|drafts| - 2];
    && MergesAhead(s.cache, before, s.sendSequence, FINISHED_RULES)
    && Number(before, s.sendSequence) <= Prepared(s, drafts, []).flights
    && (IsMessage(before[|before| - 1], CERTIFICATE_VERIFY, 0) ==>
          MergesAhead(s.cache, before[..|before| - 1], s.sendSequence, VERIFY_RULES))
  }

  lemma SignedAhead(cache: seq<Item>, before: seq<Draft>, first: nat)
    requires NoOwnKeyMessages(cache) && ClientKeyMessages(before)
    requires IsMessage(before[|before| - 1], CERTIFICATE_VERIFY, 0)
    ensures MergesAhead(cache, before[..|before| - 1], first, VERIFY_RULES)
  {
    KeyBytesPredicted(cache, before[..|before| - 1], first);
  }

  lemma KeysFirst(drafts: seq<Draft>, first: nat)
    requires |drafts| >= 3
    ensures Number(drafts[..|drafts| - 2], first) <= Number(drafts, first)
  {
    assert drafts == drafts[..|drafts| - 2] + drafts[|drafts| - 2..];
    NumberConcat(drafts[..|drafts| - 2], drafts[|drafts| - 2..], first);
  }

  lemma HashedAhead(s: Fsm, drafts: seq<Draft>)
    requires NoOwnKeyMessages(s.cache) && s.flight == Flight5 && Generates(Flight5, s.cookie, drafts)
    ensures HashesWhatItSends(s, drafts)
  {
    var before := drafts[..|drafts| - 2];
    KeysFirst(drafts, s.sendSequence);
    KeyBytesPredicted(s.cache, before, s.sendSequence);
    if IsMessage(before[|before| - 1], CERTIFICATE_VERIFY, 0) {
      SignedAhead(s.cache, before, s.sendSequence);
    }
  }

  /** In every run of a client that comes to generate flight 5. */
  lemma FlightFiveHashesWhatItSends(skip: bool, es: seq<Event>, drafts: seq<Draft>)
    requires Run(Initial(true, skip), es).Some?
    requires var s := Run(Initial(true, skip), es).value;
             s.flight == Flight5 && s.phase == Preparing && Generates(Flight5, s.cookie, drafts)
    ensures |drafts| >= 3 && HashesWhatItSends(Run(Initial(true, skip), es).value, drafts)
  {
    RunNumbering(true, skip, es);
    RunKeeps(true, skip, es);
    HashedAhead(Run(Initial(true, skip), es).value, drafts);
  }

  lemma KeyBytesPredicted(cache: seq<Item>, ds: seq<Draft>, first: nat)
    requires NoOwnKeyMessages(cache) && ClientKeyMessages(ds)
    ensures var own := OwnItems(true, Number(ds, first));
            && Merged(cache, FINISHED_RULES) + SentBytes(Number(ds, first)) == Merged(cache + own, FINISHED_RULES)
            && (!IsMessage(ds[|ds| - 1], CERTIFICATE_VERIFY, 0) ==>
                  Merged(cache, VERIFY_RULES) + SentBytes(Number(ds, first)) == Merged(cache + own, VERIFY_RULES))
  {
    var ns := Number(ds, first);
    SentBytesAreCached(true, ns);
    KeyDraftsAreKeyItems(ds, first);
    NumberMessages(ds, first);
    OwnItemsIndex(true, ns);
    PredictedIsActual(cache, OwnItems(true, ns));
  }

  /** Flight 4b likewise: the ServerHello hashed with the number it is about to get. */
  lemma FlightFourBHashesWhatItSends(skip: bool, es: seq<Event>, drafts: seq<Draft>)
    requires Run(Initial(false, skip), es).Some?
    requires var s := Run(Initial(false, skip), es).value;
             s.flight == Flight4b && s.phase == Preparing && Generates(Flight4b, s.cookie, drafts)
    ensures |drafts| == 3 && drafts[0].Handshake?
    ensures var s := Run(Initial(false, skip), es).value;
            var hello := Numbered(s.sendSequence % 0x1_0000, drafts[0].m);
            && Merged(s.cache, [ClientRule(CLIENT_HELLO)]) + WireMessage(hello.m, hello.number)
               == Merged(s.cache + OwnItems(false, [hello]), [ClientRule(CLIENT_HELLO), Rule(SERVER_HELLO, 0, false, false)])
            && [hello] <= Prepared(s, drafts, []).flights
  {
    RunNumbering(false, skip, es);
    RunKeeps(false, skip, es);
    var s := Run(Initial(false, skip), es).value;
    var hello := Numbered(s.sendSequence % 0x1_0000, drafts[0].m);
    var own := OwnItems(false, [hello]);
    OwnItemsIndex(false, [hello]);
    var r, h := Rule(SERVER_HELLO, 0, false, false), ClientRule(CLIENT_HELLO);
    MergedPair(s.cache + own, h, r);
    BestSkips(s.cache, own, h);
    assert (s.cache + own)[|s.cache|] == own[0];
    PulledIsOnlyMatch(s.cache + own, r, own[0]);
    assert [h][..0] == [];
    assert Merged(s.cache, [h]) == [] + Pulled(s.cache, h);
  }
}
