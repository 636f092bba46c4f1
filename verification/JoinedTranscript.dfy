/** Both ends at flight 5: what the client signs and hashes ahead of time is what the server merges when it reads it. */
module JoinedTranscript {
  import opened Bits
  import opened Fragmentation
  import opened HandshakeCaches
  import D = Delivery
  import F = Flights
  import T = Transcript
  import opened PredictedTranscript

  /** What was sent and received stays. */
  predicate Later(w: T.World, w1: T.World) {
    && w.up.sent <= w1.up.sent && w.down.sent <= w1.down.sent
    && |w.up.popped| <= |w1.up.popped| && |w.down.popped| <= |w1.down.popped|
  }

  // ---------------------------------------------------------------- the same matches, the same bytes

  /** Two caches with the same matches of a rule, of which no two have one number. */
  predicate SameMatches(a: seq<Item>, b: seq<Item>, r: Rule) {
    && (forall c :: c in a && Matches(c, r) ==> c in b)
    && (forall c :: c in b && Matches(c, r) ==> c in a)
    && (forall c, d :: c in a && d in a && Matches(c, r) && Matches(d, r) && c.messageSequence == d.messageSequence ==> c == d)
  }

  lemma {:induction false} BestSame(a: seq<Item>, b: seq<Item>, r: Rule)
    requires SameMatches(a, b, r)
    ensures Best(a, r) == Best(b, r)
  {
    BestIsHighestMatch(a, r);
    BestIsHighestMatch(b, r);
  }

  lemma {:induction false} MergedSame(a: seq<Item>, b: seq<Item>, rules: seq<Rule>)
    requires forall r :: r in rules ==> SameMatches(a, b, r)
    ensures Merged(a, rules) == Merged(b, rules)
  {
    if rules != [] {
      MergedSame(a, b, rules[..|rules| - 1]);
      BestSame(a, b, rules[|rules| - 1]);
    }
  }

  /** What pulling by these rules and merging gives. */
  predicate Merges(cache: seq<Item>, rules: seq<Rule>, bytes: seq<byte>) {
    Merged(cache, rules) == bytes
  }

  // ---------------------------------------------------------------- the client ahead, the server behind

  /** On lists of items: one end's cache and its own next items, against the other end's cache later on. */
  lemma {:induction false} SameOnItems(client: seq<Item>, own: seq<Item>, server: seq<Item>, up: seq<Item>,
        down: seq<Item>,
                    upPopped: nat, downPopped: nat, down1: seq<Item>, up1: seq<Item>, r: Rule, byClient: bool)
    requires up + own <= up1 && down <= down1 && upPopped <= |up1| && downPopped <= |down|
    requires T.Indexed(up1, byClient) && T.Indexed(down1, !byClient)
    requires T.Holds(client, up, down[..downPopped]) && T.Holds(server, up1[..upPopped], down1)
    requires forall i :: 0 <= i < |up1| && Matches(up1[i], r) ==> i < upPopped && i < |up| + |own|
    requires forall i :: 0 <= i < |down1| && Matches(down1[i], r) ==> i < downPopped
    ensures SameMatches(client + own, server, r)
  {
    forall c | Matches(c, r)
      ensures c in client + own <==> c in up1 || c in down1
      ensures c in server <==> c in up1 || c in down1
    {
      ClientHasMatch(client, own, up, down, downPopped, down1, up1, r, c);
      ServerHasMatch(server, up1, down1, upPopped, r, c);
    }
  }

  lemma {:induction false} ClientHasMatch(client: seq<Item>, own: seq<Item>, up: seq<Item>, down: seq<Item>,
        downPopped: nat,
                       down1: seq<Item>, up1: seq<Item>, r: Rule, c: Item)
    requires up + own <= up1 && down <= down1 && downPopped <= |down|
    requires T.Holds(client, up, down[..downPopped])
    requires forall i :: 0 <= i < |up1| && Matches(up1[i], r) ==> i < |up| + |own|
    requires forall i :: 0 <= i < |down1| && Matches(down1[i], r) ==> i < downPopped
    requires Matches(c, r)
    ensures c in client + own <==> c in up1 || c in down1
  {
    if c in up1 {
      var i :| 0 <= i < |up1| && up1[i] == c;
      assert (up + own)[i] == c;
    }
    if c in down1 {
      var i :| 0 <= i < |down1| && down1[i] == c;
      assert down[..downPopped][i] == c;
    }
    if c in own {
      var i :| 0 <= i < |own| && own[i] == c;
      assert up1[|up| + i] == (up + own)[|up| + i] == c;
    }
    if c in up {
      var i :| 0 <= i < |up| && up[i] == c;
      assert up1[i] == (up + own)[i] == c;
    }
    if c in down[..downPopped] {
      var i :| 0 <= i < downPopped && down[i] == c;
      assert down1[i] == c;
    }
  }

  lemma {:induction false} ServerHasMatch(server: seq<Item>, up1: seq<Item>, down1: seq<Item>, upPopped: nat,
        r: Rule, c: Item)
    requires upPopped <= |up1| && T.Holds(server, up1[..upPopped], down1)
    requires forall i :: 0 <= i < |up1| && Matches(up1[i], r) ==> i < upPopped
    requires Matches(c, r)
    ensures c in server <==> c in up1 || c in down1
  {
    if c in up1 {
      var i :| 0 <= i < |up1| && up1[i] == c;
      assert up1[..upPopped][i] == c;
    }
  }

  /** The items of messages numbered from `first` on. */
  function Next(first: nat, ms: seq<Message>): (items: seq<Item>)
    requires first + |ms| < D.MAX_MESSAGES
    ensures |items| == |ms| && forall i :: 0 <= i < |ms| ==> items[i] == T.Written(ms[i], first + i, true)
  {
    seq(|ms|, i requires 0 <= i < |ms| => T.Written(ms[i], first + i, true))
  }

  predicate AsWritten(items: seq<Item>, sent: seq<Message>, byClient: bool)
    requires |sent| < D.MAX_MESSAGES
  {
    |items| == |sent| && forall i :: 0 <= i < |sent| ==> items[i] == T.Written(sent[i], i, byClient)
  }

  lemma {:induction false} WrittenAsWritten(sent: seq<Message>, byClient: bool)
    requires |sent| < D.MAX_MESSAGES
    ensures AsWritten(T.WrittenAll(sent, byClient), sent, byClient)
  {
    forall i | 0 <= i < |sent| ensures T.WrittenAll(sent, byClient)[i] == T.Written(sent[i], i, byClient) {
      T.WrittenAt(sent, byClient, i);
    }
  }

  lemma {:induction false} WrittenPrefix(a: seq<Message>, b: seq<Message>, itemsA: seq<Item>, itemsB: seq<Item>,
        byClient: bool)
    requires a <= b && |b| < D.MAX_MESSAGES && AsWritten(itemsA, a, byClient) && AsWritten(itemsB, b, byClient)
    ensures itemsA <= itemsB
  {
    forall i | 0 <= i < |a| ensures itemsA[i] == itemsB[i] { assert a[i] == b[i]; }
  }

  lemma {:induction false} ItemsAreNext(sent: seq<Message>, ms: seq<Message>, sent1: seq<Message>, up: seq<Item>,
        up1: seq<Item>)
    requires sent + ms <= sent1 && |sent1| < D.MAX_MESSAGES && AsWritten(up, sent, true) && AsWritten(up1, sent1, true)
    ensures up + Next(|sent|, ms) <= up1
  {
    assert AsWritten(up + Next(|sent|, ms), sent + ms, true);
    WrittenPrefix(sent + ms, sent1, up + Next(|sent|, ms), up1, true);
  }

  /** Of what the rule asks for, nothing is sent but what the client had and these messages, and they have arrived. */
  predicate NothingElse(w: T.World, w1: T.World, ms: seq<Message>, r: Rule)
    requires |w1.up.sent| < D.MAX_MESSAGES && |w1.down.sent| < D.MAX_MESSAGES
  {
    && (forall i :: 0 <= i < |w1.up.sent| && Matches(T.Written(w1.up.sent[i], i, true), r) ==>
          i < |w1.up.popped| && i < |w.up.sent| + |ms|)
    && (forall i :: 0 <= i < |w1.down.sent| && Matches(T.Written(w1.down.sent[i], i, false), r) ==> i < |w.down.popped|)
  }

  lemma {:induction false} NothingElseInItems(w: T.World, w1: T.World, ms: seq<Message>, r: Rule)
    requires |w1.up.sent| < D.MAX_MESSAGES && |w1.down.sent| < D.MAX_MESSAGES && NothingElse(w, w1, ms, r)
    ensures forall i :: 0 <= i < |w1.up.sent| && Matches(T.WrittenAll(w1.up.sent, true)[i], r) ==>
              i < |w1.up.popped| && i < |w.up.sent| + |ms|
    ensures forall i :: 0 <= i < |w1.down.sent| && Matches(T.WrittenAll(w1.down.sent, false)[i], r) ==> i < |w.down.popped|
  {
    forall i | 0 <= i < |w1.up.sent| && Matches(T.WrittenAll(w1.up.sent, true)[i], r)
      ensures i < |w1.up.popped| && i < |w.up.sent| + |ms|
    {
      T.WrittenAt(w1.up.sent, true, i);
    }
    forall i | 0 <= i < |w1.down.sent| && Matches(T.WrittenAll(w1.down.sent, false)[i], r) ensures i < |w.down.popped| {
      T.WrittenAt(w1.down.sent, false, i);
    }
  }

  lemma {:induction false} RuleAgrees(w: T.World, w1: T.World, ms: seq<Message>, r: Rule)
    requires T.Invariant2(w) && T.Invariant2(w1) && Later(w, w1) && w.up.sent + ms <= w1.up.sent && NothingElse(w, w1, ms, r)
    ensures SameMatches(w.clientCache + Next(|w.up.sent|, ms), w1.serverCache, r)
  {
    var up, up1 := T.WrittenAll(w.up.sent, true), T.WrittenAll(w1.up.sent, true);
    var down, down1 := T.WrittenAll(w.down.sent, false), T.WrittenAll(w1.down.sent, false);
    T.WrittenIndexed(w1.up.sent, true);
    T.WrittenIndexed(w1.down.sent, false);
    WrittenAsWritten(w.up.sent, true);
    WrittenAsWritten(w1.up.sent, true);
    WrittenAsWritten(w.down.sent, false);
    WrittenAsWritten(w1.down.sent, false);
    ItemsAreNext(w.up.sent, ms, w1.up.sent, up, up1);
    WrittenPrefix(w.down.sent, w1.down.sent, down, down1, false);
    NothingElseInItems(w, w1, ms, r);
    SameOnItems(w.clientCache, Next(|w.up.sent|, ms), w1.serverCache, up, down, |w1.up.popped|, |w.down.popped|, down1, up1, r, true);
  }

  /** These messages are what the client sends next, and the rules ask for nothing beyond them. */
  predicate Carried(w: T.World, w1: T.World, ms: seq<Message>, rules: seq<Rule>) {
    && w.up.sent + ms <= w1.up.sent && |w1.up.sent| < D.MAX_MESSAGES && |w1.down.sent| < D.MAX_MESSAGES
    && forall r :: r in rules ==> NothingElse(w, w1, ms, r)
  }

  lemma {:induction false} ServerMergesTheSame(w: T.World, w1: T.World, ms: seq<Message>, rules: seq<Rule>)
    requires T.Invariant2(w) && T.Invariant2(w1) && Later(w, w1) && Carried(w, w1, ms, rules)
    ensures Merges(w1.serverCache, rules, Merged(w.clientCache + Next(|w.up.sent|, ms), rules))
  {
    forall r | r in rules ensures SameMatches(w.clientCache + Next(|w.up.sent|, ms), w1.serverCache, r) {
      RuleAgrees(w, w1, ms, r);
    }
    MergedSame(w.clientCache + Next(|w.up.sent|, ms), w1.serverCache, rules);
  }

  // ---------------------------------------------------------------- the server ahead, the client behind

  /** What the rule asks for is with both: all of the client's had arrived, and of the server's nothing is sent beyond
      what the client had. */
  predicate NothingNew(w: T.World, w1: T.World, r: Rule)
    requires |w1.up.sent| < D.MAX_MESSAGES && |w1.down.sent| < D.MAX_MESSAGES
  {
    && (forall i :: 0 <= i < |w1.up.sent| && Matches(T.Written(w1.up.sent[i], i, true), r) ==> i < |w.up.popped|)
    && (forall i :: 0 <= i < |w1.down.sent| && Matches(T.Written(w1.down.sent[i], i, false), r) ==>
          i < |w1.down.popped| && i < |w.down.sent|)
  }

  lemma {:induction false} HoldsEither(cache: seq<Item>, a: seq<Item>, b: seq<Item>)
    requires T.Holds(cache, a, b)
    ensures T.Holds(cache, b, a)
  {
  }

  lemma {:induction false} NothingNewInItems(w: T.World, w1: T.World, r: Rule)
    requires |w1.up.sent| < D.MAX_MESSAGES && |w1.down.sent| < D.MAX_MESSAGES && NothingNew(w, w1, r)
    ensures forall i :: 0 <= i < |w1.up.sent| && Matches(T.WrittenAll(w1.up.sent, true)[i], r) ==> i < |w.up.popped|
    ensures forall i :: 0 <= i < |w1.down.sent| && Matches(T.WrittenAll(w1.down.sent, false)[i], r) ==>
              i < |w1.down.popped| && i < |w.down.sent|
  {
    forall i | 0 <= i < |w1.up.sent| && Matches(T.WrittenAll(w1.up.sent, true)[i], r) ensures i < |w.up.popped| {
      T.WrittenAt(w1.up.sent, true, i);
    }
    forall i | 0 <= i < |w1.down.sent| && Matches(T.WrittenAll(w1.down.sent, false)[i], r)
      ensures i < |w1.down.popped| && i < |w.down.sent|
    {
      T.WrittenAt(w1.down.sent, false, i);
    }
  }

  lemma {:induction false} RuleAgreesBack(w: T.World, w1: T.World, r: Rule)
    requires T.Invariant2(w) && T.Invariant2(w1) && Later(w, w1) && NothingNew(w, w1, r)
    ensures SameMatches(w.serverCache, w1.clientCache, r)
  {
    var up, up1 := T.WrittenAll(w.up.sent, true), T.WrittenAll(w1.up.sent, true);
    var down, down1 := T.WrittenAll(w.down.sent, false), T.WrittenAll(w1.down.sent, false);
    T.WrittenIndexed(w1.up.sent, true);
    T.WrittenIndexed(w1.down.sent, false);
    WrittenAsWritten(w.up.sent, true);
    WrittenAsWritten(w1.up.sent, true);
    WrittenAsWritten(w.down.sent, false);
    WrittenAsWritten(w1.down.sent, false);
    WrittenPrefix(w.up.sent, w1.up.sent, up, up1, true);
    WrittenPrefix(w.down.sent, w1.down.sent, down, down1, false);
    NothingNewInItems(w, w1, r);
    HoldsEither(w.serverCache, up[..|w.up.popped|], down);
    HoldsEither(w1.clientCache, up1, down1[..|w1.down.popped|]);
    assert down + [] == down && w.serverCache + [] == w.serverCache;
    SameOnItems(w.serverCache, [], w1.clientCache, down, up, |w1.down.popped|, |w.up.popped|, up1, down1, r, false);
  }

  lemma {:induction false} ClientMergesTheSame(w: T.World, w1: T.World, rules: seq<Rule>)
    requires T.Invariant2(w) && T.Invariant2(w1) && Later(w, w1)
    requires forall r :: r in rules ==> NothingNew(w, w1, r)
    ensures Merged(w1.clientCache, rules) == Merged(w.serverCache, rules)
  {
    forall r | r in rules ensures SameMatches(w.serverCache, w1.clientCache, r) {
      RuleAgreesBack(w, w1, r);
    }
    MergedSame(w.serverCache, w1.clientCache, rules);
  }

  // ---------------------------------------------------------------- flight 5

  predicate OnlyHellosSent(sent: seq<Message>) {
    forall i :: 0 <= i < |sent| ==> sent[i].typ == F.CLIENT_HELLO
  }

  lemma {:induction false} OnlyHellosCached(w: T.World)
    requires T.Invariant2(w) && OnlyHellosSent(w.up.sent)
    ensures NoOwnKeyMessages(w.clientCache)
  {
    var up, down := T.WrittenAll(w.up.sent, true), T.WrittenAll(w.down.sent, false);
    T.WrittenIndexed(w.down.sent, false);
    forall i | 0 <= i < |up| ensures up[i].typ == F.CLIENT_HELLO { T.WrittenAt(w.up.sent, true, i); }
    forall c | c in w.clientCache && c.isClient ensures c.typ == F.CLIENT_HELLO {
      var k :| 0 <= k < |w.clientCache| && w.clientCache[k] == c;
    }
  }

  predicate NumbersAs(ns: seq<F.Numbered>, ms: seq<Message>, first: nat) {
    |ns| == |ms| && forall i :: 0 <= i < |ms| ==> ns[i] == F.Numbered((first + i) % 0x1_0000, ms[i])
  }

  lemma {:induction false} ItemsOfNumbered(ms: seq<Message>, first: nat, ns: seq<F.Numbered>)
    requires first + |ms| < D.MAX_MESSAGES && NumbersAs(ns, ms, first)
    ensures Next(first, ms) == F.OwnItems(true, ns)
  {
    OwnItemsIndex(true, ns);
    SameItems(ms, first, ns, F.OwnItems(true, ns));
  }

  lemma {:induction false} SameItems(ms: seq<Message>, first: nat, ns: seq<F.Numbered>, own: seq<Item>)
    requires first + |ms| < D.MAX_MESSAGES && NumbersAs(ns, ms, first) && |own| == |ns|
    requires forall i :: 0 <= i < |ns| ==> own[i] == T.Written(ns[i].m, ns[i].number, true)
    ensures Next(first, ms) == own
  {
    var next := Next(first, ms);
    forall i | 0 <= i < |ms| ensures next[i] == own[i] { assert ns[i] == F.Numbered(first + i, ms[i]); }
  }

  /** The items of the next messages are those that numbering their drafts from here on gives. */
  lemma {:induction false} NextAreNumbered(ms: seq<Message>, first: nat)
    requires first + |ms| < D.MAX_MESSAGES
    ensures Next(first, ms) == F.OwnItems(true, F.Number(Drafts(ms), first))
  {
    NumberedAre(ms, first);
    ItemsOfNumbered(ms, first, F.Number(Drafts(ms), first));
  }

  lemma {:induction false} NumberedAre(ms: seq<Message>, first: nat)
    ensures NumbersAs(F.Number(Drafts(ms), first), ms, first)
  {
    if ms != [] {
      var n := |ms| - 1;
      NumberedAre(ms[..n], first);
      assert ms == ms[..n] + [ms[n]];
      NumberAppend(ms[..n], ms[n], first);
    } else {
      assert F.Number([], first) == [];
    }
  }

  /** What the client signs for its CertificateVerify, at `w`, is what the server merges to check it, at `w1`. */
  lemma {:induction false} ServerMergesSigned(w: T.World, w1: T.World, key: seq<Message>)
    requires T.Invariant2(w) && T.Invariant2(w1) && Later(w, w1) && OnlyHellosSent(w.up.sent)
    requires F.ClientKeyMessages(Drafts(key)) && key != [] && key[|key| - 1].typ != F.CERTIFICATE_VERIFY
    requires Carried(w, w1, key, VERIFY_RULES)
    ensures Merges(w1.serverCache, VERIFY_RULES,
                   Merged(w.clientCache, VERIFY_RULES) + SentBytes(F.Number(Drafts(key), |w.up.sent|)))
  {
    ServerMergesTheSame(w, w1, key, VERIFY_RULES);
    OnlyHellosCached(w);
    DraftsIndex(key);
    KeyBytesPredicted(w.clientCache, Drafts(key), |w.up.sent|);
    NextAreNumbered(key, |w.up.sent|);
  }

  /** The rules of a Finished without the Finished itself. */
  const BEFORE_FINISHED_RULES := VERIFY_RULES + [ClientRule(F.CERTIFICATE_VERIFY)]

  lemma {:induction false} MergedUpToFinished(cache: seq<Item>)
    ensures Merged(cache, FINISHED_RULES) == Merged(cache, BEFORE_FINISHED_RULES) + Pulled(cache, FINISHED_RULE)
  {
    MergedConcat(cache, VERIFY_RULES, [ClientRule(F.CERTIFICATE_VERIFY)]);
    MergedFinished(cache);
    assert [ClientRule(F.CERTIFICATE_VERIFY)][..0] == [];
    assert Merged(cache, [ClientRule(F.CERTIFICATE_VERIFY)]) == [] + Pulled(cache, ClientRule(F.CERTIFICATE_VERIFY));
  }

  lemma {:induction false} WithoutFinished(cache: seq<Item>)
    requires forall c :: c in cache ==> !Matches(c, FINISHED_RULE)
    ensures Merged(cache, BEFORE_FINISHED_RULES) == Merged(cache, FINISHED_RULES)
  {
    MergedUpToFinished(cache);
    PulledNothing(cache, FINISHED_RULE);
  }

  lemma {:induction false} KeyItemsAreNotFinished(cache: seq<Item>, own: seq<Item>)
    requires NoOwnKeyMessages(cache) && KeyItems(own)
    ensures forall c :: c in cache + own ==> !Matches(c, FINISHED_RULE)
  {
  }

  /** What the client hashes for its Finished is what the server merges up to that message. */
  lemma {:induction false} ServerMergesHashed(w: T.World, w1: T.World, ms: seq<Message>)
    requires T.Invariant2(w) && T.Invariant2(w1) && Later(w, w1) && OnlyHellosSent(w.up.sent)
    requires F.ClientKeyMessages(Drafts(ms)) && Carried(w, w1, ms, BEFORE_FINISHED_RULES)
    ensures Merges(w1.serverCache, BEFORE_FINISHED_RULES,
                   Merged(w.clientCache, FINISHED_RULES) + SentBytes(F.Number(Drafts(ms), |w.up.sent|)))
  {
    ServerMergesTheSame(w, w1, ms, BEFORE_FINISHED_RULES);
    OnlyHellosCached(w);
    KeyBytesPredicted(w.clientCache, Drafts(ms), |w.up.sent|);
    NextAreNumbered(ms, |w.up.sent|);
    KeyDraftsAreKeyItems(Drafts(ms), |w.up.sent|);
    var own := Next(|w.up.sent|, ms);
    KeyItemsAreNotFinished(w.clientCache, own);
    WithoutFinished(w.clientCache + own);
  }

  lemma {:induction false} BeforeRulesSkip(cache: seq<Item>, f: Item)
    requires Matches(f, FINISHED_RULE)
    ensures Merged(cache + [f], BEFORE_FINISHED_RULES) == Merged(cache, BEFORE_FINISHED_RULES)
  {
    forall c, r | c in [f] && r in BEFORE_FINISHED_RULES ensures !Matches(c, r) {
      assert r.typ != F.FINISHED;
    }
    MergedSkips(cache, [f], BEFORE_FINISHED_RULES);
  }

  /** One Finished more. */
  lemma {:induction false} WithFinished(cache: seq<Item>, f: Item)
    requires Matches(f, FINISHED_RULE) && forall c :: c in cache ==> !Matches(c, FINISHED_RULE)
    ensures Merged(cache + [f], FINISHED_RULES) == Merged(cache, FINISHED_RULES) + f.data
  {
    BeforeRulesSkip(cache, f);
    WithoutFinished(cache);
    var after := cache + [f];
    assert after[|cache|] == f;
    PulledIsOnlyMatch(after, FINISHED_RULE, f);
    MergedUpToFinished(after);
  }

  lemma {:induction false} NextAndOne(cache: seq<Item>, first: nat, ms: seq<Message>, m: Message)
    requires first + |ms| + 1 < D.MAX_MESSAGES
    ensures cache + Next(first, ms + [m]) == cache + Next(first, ms) + [T.Written(m, first + |ms|, true)]
  {
  }

  /** What the client's own cache merges to once all of flight 5 is in it. */
  lemma {:induction false} FlightFiveMerges(cache: seq<Item>, first: nat, ms: seq<Message>, finished: Message)
    requires NoOwnKeyMessages(cache) && F.ClientKeyMessages(Drafts(ms)) && first + |ms| + 1 < D.MAX_MESSAGES
    requires finished.typ == F.FINISHED && finished.epoch == 1
    ensures Merges(cache + Next(first, ms + [finished]), FINISHED_RULES,
                   Merged(cache, FINISHED_RULES) + SentBytes(F.Number(Drafts(ms), first)) + WireMessage(finished, first + |ms|))
  {
    NextAndOne(cache, first, ms, finished);
    KeyBytesPredicted(cache, Drafts(ms), first);
    NextAreNumbered(ms, first);
    KeyDraftsAreKeyItems(Drafts(ms), first);
    KeyItemsAreNotFinished(cache, Next(first, ms));
    WithFinished(cache + Next(first, ms), T.Written(finished, first + |ms|, true));
  }

  /** The server merges what the client hashed, and the client's Finished behind it. */
  predicate HasTheRest(cache: seq<Item>, first: nat, server: seq<Item>, ms: seq<Message>, finished: Message) {
    && first + |ms| + 1 < D.MAX_MESSAGES
    && Merges(server, FINISHED_RULES,
              Merged(cache, FINISHED_RULES) + SentBytes(F.Number(Drafts(ms), first)) + WireMessage(finished, first + |ms|))
  }

  lemma {:induction false} ServerHasTheRest(cache: seq<Item>, first: nat, server: seq<Item>, ms: seq<Message>,
                                            finished: Message)
    requires NoOwnKeyMessages(cache) && F.ClientKeyMessages(Drafts(ms)) && first + |ms| + 1 < D.MAX_MESSAGES
    requires finished.typ == F.FINISHED && finished.epoch == 1
    requires Merges(server, FINISHED_RULES, Merged(cache + Next(first, ms + [finished]), FINISHED_RULES))
    ensures HasTheRest(cache, first, server, ms, finished)
  {
    FlightFiveMerges(cache, first, ms, finished);
    MergesToo(server, cache + Next(first, ms + [finished]), FINISHED_RULES,
              Merged(cache, FINISHED_RULES) + SentBytes(F.Number(Drafts(ms), first)) + WireMessage(finished, first + |ms|));
  }

  lemma {:induction false} MergesToo(a: seq<Item>, b: seq<Item>, rules: seq<Rule>, bytes: seq<byte>)
    requires Merges(a, rules, Merged(b, rules)) && Merges(b, rules, bytes)
    ensures Merges(a, rules, bytes)
  {
  }

  /** And what the server merges for its own Finished, in flight 6, is that and the client's Finished. */
  lemma {:induction false} ServerMergesTheRest(w: T.World, w1: T.World, ms: seq<Message>, finished: Message)
    requires T.Invariant2(w) && T.Invariant2(w1) && Later(w, w1) && OnlyHellosSent(w.up.sent)
    requires F.ClientKeyMessages(Drafts(ms)) && finished.typ == F.FINISHED && finished.epoch == 1
    requires Carried(w, w1, ms + [finished], FINISHED_RULES)
    ensures HasTheRest(w.clientCache, |w.up.sent|, w1.serverCache, ms, finished)
  {
    ServerMergesTheSame(w, w1, ms + [finished], FINISHED_RULES);
    CarriedFits(w, w1, ms + [finished], FINISHED_RULES);
    OnlyHellosCached(w);
    ServerHasTheRest(w.clientCache, |w.up.sent|, w1.serverCache, ms, finished);
  }

  lemma {:induction false} CarriedFits(w: T.World, w1: T.World, ms: seq<Message>, rules: seq<Rule>)
    requires Carried(w, w1, ms, rules)
    ensures |w.up.sent| + |ms| < D.MAX_MESSAGES
  {
    assert |w.up.sent + ms| <= |w1.up.sent|;
  }
}
