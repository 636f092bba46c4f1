/** A client's and a server's handshake state machine, joined by a network that loses, reorders and duplicates records. */
module TwoEnds {
  import opened Bits
  import opened Wire
  import opened Fragmentation
  import opened HandshakeCaches
  import opened Flights
  import opened FlightRuns
  import opened Numbering
  import opened FlightShapes
  import D = Delivery
  import PulledMessages
  import T = Transcript

  /** `up` carries the client's messages, `down` the server's. */
  datatype Pair = Pair(client: Fsm, server: Fsm, up: D.Link, down: D.Link)

  datatype Step =
    | Client(e: Event)
    | Server(e: Event)
    | Network(byClient: bool, ev: D.Event)

  function Start(skip: bool): Pair {
    Pair(Initial(true, false), Initial(false, skip), D.INITIAL, D.INITIAL)
  }

  predicate EnabledBoth(p: Pair, st: Step) {
    match st
    case Client(e) => !e.Arrive? && Enabled(p.client, e)
    case Server(e) => !e.Arrive? && Enabled(p.server, e)
    case Network(byClient, ev) => !ev.Send? && D.Enabled(if byClient then p.up else p.down, ev)
  }

  /** A message written for the first time is on the link from then on; one written again is there already. */
  ghost function Put(l: D.Link, n: Numbered): D.Link {
    if n.number == |l.sent| && D.Enabled(l, D.Send(n.m)) then D.Apply(l, D.Send(n.m)) else l
  }

  ghost function PutAll(l: D.Link, ns: seq<Numbered>): D.Link
    decreases ns
  {
    if ns == [] then l else PutAll(Put(l, ns[0]), ns[1..])
  }

  ghost function Sent(l: D.Link, s: Fsm, e: Event): D.Link {
    if e.WritePackets? then PutAll(l, s.flights) else l
  }

  function Receiving(s: Fsm, items: seq<Item>): Fsm {
    s.(cache := s.cache + items)
  }

  ghost function ApplyBoth(p: Pair, st: Step): Pair
    requires EnabledBoth(p, st)
  {
    match st
    case Client(e) => p.(client := Apply(p.client, e), up := Sent(p.up, p.client, e))
    case Server(e) => p.(server := Apply(p.server, e), down := Sent(p.down, p.server, e))
    case Network(true, ev) =>
      var l := D.Apply(p.up, ev);
      p.(up := l, server := Receiving(p.server, T.ReceivedAll(l.popped[|p.up.popped|..], true)))
    case Network(false, ev) =>
      var l := D.Apply(p.down, ev);
      p.(down := l, client := Receiving(p.client, T.ReceivedAll(l.popped[|p.down.popped|..], false)))
  }

  ghost function RunBoth(skip: bool, es: seq<Step>): Option<Pair> {
    if es == [] then Some(Start(skip))
    else match RunBoth(skip, es[..|es| - 1])
      case None => None
      case Some(p) => if EnabledBoth(p, es[|es| - 1]) then Some(ApplyBoth(p, es[|es| - 1])) else None
  }

  function World(p: Pair): T.World {
    T.World(p.up, p.down, p.client.cache, p.server.cache)
  }

  // ---------------------------------------------------------------- each end runs as it does alone

  ghost predicate Reached(s: Fsm, isClient: bool, skip: bool) {
    exists es :: Run(Initial(isClient, skip), es) == Some(s)
  }

  lemma {:induction false} ReachedStep(s: Fsm, isClient: bool, skip: bool, e: Event)
    requires Reached(s, isClient, skip) && Enabled(s, e)
    ensures Reached(Apply(s, e), isClient, skip)
  {
    var es :| Run(Initial(isClient, skip), es) == Some(s);
    assert (es + [e])[..|es|] == es;
    assert Run(Initial(isClient, skip), es + [e]) == Some(Apply(s, e));
  }

  /** Each of these items is a message of the other end. */
  ghost predicate FromOther(items: seq<Item>, isClient: bool) {
    forall i :: 0 <= i < |items| ==> IsWritten(items[i], !isClient)
  }

  ghost predicate IsWritten(c: Item, byClient: bool) {
    exists m, number :: c == T.Written(m, number, byClient)
  }

  lemma {:induction false} ReachedReceivingOne(s: Fsm, isClient: bool, skip: bool, c: Item)
    requires Reached(s, isClient, skip) && s.isClient == isClient && IsWritten(c, !isClient)
    ensures Reached(Receiving(s, [c]), isClient, skip)
  {
    var m, number :| c == T.Written(m, number, !isClient);
    ReachedStep(s, isClient, skip, Arrive(m, number));
  }

  lemma {:induction false} ReceivingInTurn(s: Fsm, items: seq<Item>)
    requires items != []
    ensures Receiving(Receiving(s, [items[0]]), items[1..]) == Receiving(s, items)
  {
    assert s.cache + [items[0]] + items[1..] == s.cache + items;
  }

  lemma {:induction false} ReachedReceiving(s: Fsm, isClient: bool, skip: bool, items: seq<Item>)
    requires Reached(s, isClient, skip) && s.isClient == isClient && FromOther(items, isClient)
    ensures Reached(Receiving(s, items), isClient, skip)
    decreases |items|
  {
    if items == [] {
      assert s.cache + [] == s.cache;
    } else {
      assert IsWritten(items[0], !isClient);
      ReachedReceivingOne(s, isClient, skip, items[0]);
      ReachedReceiving(Receiving(s, [items[0]]), isClient, skip, items[1..]);
      ReceivingInTurn(s, items);
    }
  }

  predicate AlwaysHolds(s: Fsm) {
    FlightRuns.Invariant(s) && NumberingInvariant(s) && PulledMessages.Seen(s)
  }

  lemma {:induction false} ReachedHolds(s: Fsm, isClient: bool, skip: bool)
    requires Reached(s, isClient, skip)
    ensures AlwaysHolds(s) && s.isClient == isClient
  {
    var es :| Run(Initial(isClient, skip), es) == Some(s);
    RunKeeps(isClient, skip, es);
    RunNumbering(isClient, skip, es);
    PulledMessages.RunSeen(isClient, skip, es);
  }

  // ---------------------------------------------------------------- what is numbered and what is sent

  /** The messages on the link are those numbered, but for a flight that is about to be written. */
  predicate Sync(s: Fsm, sent: seq<Message>) {
    && sent <= Messages(s.log)
    && (s.phase in {Preparing, Waiting, Finished} ==> sent == Messages(s.log))
    && (s.phase == Sending ==> |Messages(s.log)| - |s.flights| <= |sent|)
  }

  lemma {:induction false} PutAllSends(l: D.Link, ns: seq<Numbered>, ms: seq<Message>)
    requires FlightShapes.Ends(ms, ns) && l.sent <= ms && |ms| - |ns| <= |l.sent| && |ms| < D.MAX_MESSAGES
    ensures PutAll(l, ns) == l.(sent := ms)
    decreases ns
  {
    if ns != [] {
      PutAllSends(Put(l, ns[0]), ns[1..], ms);
    }
  }

  lemma {:induction false} RequestSync(s: Fsm, sent: seq<Message>, ds: seq<Draft>, random: seq<byte>)
    requires NumberingInvariant(s) && Shape(s) && Sync(s, sent) && Enabled(s, Generate(ds, random)) && s.flight == Flight2
    ensures Sync(Prepared(s, ds, random), sent)
  {
    PreparedRequestShape(s, ds, random);
    MessagesOfOne(ds);
    if s.log != [] { RepeatedRequest(s.log, VerifyRequest(s.cookie)); }
  }

  /** Generating a flight keeps what is numbered, and its messages come after. */
  lemma {:induction false} GenerateSync(s: Fsm, sent: seq<Message>, ds: seq<Draft>, random: seq<byte>)
    requires OnOwnSide(s) && Shape(s) && Sync(s, sent) && Enabled(s, Generate(ds, random)) && s.flight != Flight2
    ensures Sync(Prepared(s, ds, random), sent)
  {
    PreparedOtherShape(s, ds, random);
    GeneratedShape(s, ds, Messages(s.log));
    GeneratedEnds(Messages(s.log), ds);
  }

  lemma {:induction false} ShortLog(s: Fsm)
    requires OnOwnSide(s) && Shape(s)
    ensures |Messages(s.log)| <= 7
  {
  }

  predicate Wrote(s: Fsm) {
    s.phase in {Preparing, Waiting, Finished}
  }

  /** Nothing is numbered and nothing written. */
  lemma {:induction false} OtherSync(s: Fsm, s1: Fsm, sent: seq<Message>)
    requires Sync(s, sent) && s1.log == s.log && (Wrote(s1) ==> Wrote(s))
    requires s1.phase == Sending ==> Wrote(s)
    ensures Sync(s1, sent)
  {
  }

  lemma {:induction false} WriteSync(s: Fsm, l: D.Link)
    requires OnOwnSide(s) && Shape(s) && Sync(s, l.sent) && s.phase == Sending
    ensures Sync(Written(s), PutAll(l, s.flights).sent)
  {
    ShortLog(s);
    PutAllSends(l, s.flights, Messages(s.log));
  }

  lemma {:induction false} OtherSteps(s: Fsm, e: Event)
    requires Enabled(s, e) && !e.Arrive? && !e.Generate? && !e.WritePackets?
    ensures Apply(s, e).log == s.log && (Wrote(Apply(s, e)) ==> Wrote(s)) && (Apply(s, e).phase == Sending ==> Wrote(s))
  {
  }

  lemma {:induction false} StepSync(s: Fsm, l: D.Link, e: Event)
    requires AlwaysHolds(s) && Shape(s) && Sync(s, l.sent) && Enabled(s, e) && !e.Arrive?
    ensures Sync(Apply(s, e), Sent(l, s, e).sent)
  {
    if e.Generate? {
      if s.flight == Flight2 { RequestSync(s, l.sent, e.drafts, e.freshCookie); }
      else { GenerateSync(s, l.sent, e.drafts, e.freshCookie); }
    } else if e.WritePackets? {
      WriteSync(s, l);
    } else {
      OtherSteps(s, e);
      OtherSync(s, Apply(s, e), l.sent);
    }
  }

  // ---------------------------------------------------------------- what the caches hold

  function ClientWrote(w: T.World, l: D.Link, items: seq<Item>): T.World {
    w.(up := l, clientCache := w.clientCache + items)
  }

  function ServerWrote(w: T.World, l: D.Link, items: seq<Item>): T.World {
    w.(down := l, serverCache := w.serverCache + items)
  }

  lemma {:induction false} ClientWritesOne(w: T.World, n: Numbered)
    requires T.Invariant2(w) && |w.up.sent| + 1 < D.MAX_MESSAGES
    requires n.number <= |w.up.sent| && (n.number < |w.up.sent| ==> w.up.sent[n.number] == n.m)
    ensures T.Invariant2(ClientWrote(w, Put(w.up, n), [T.Written(n.m, n.number, true)]))
  {
    if n.number == |w.up.sent| {
      T.ClientWriteKeeps(w, n.m);
    } else {
      T.RewriteKeeps(w, true, n.number);
    }
  }

  lemma {:induction false} ServerWritesOne(w: T.World, n: Numbered)
    requires T.Invariant2(w) && |w.down.sent| + 1 < D.MAX_MESSAGES
    requires n.number <= |w.down.sent| && (n.number < |w.down.sent| ==> w.down.sent[n.number] == n.m)
    ensures T.Invariant2(ServerWrote(w, Put(w.down, n), [T.Written(n.m, n.number, false)]))
  {
    if n.number == |w.down.sent| {
      T.ServerWriteKeeps(w, n.m);
    } else {
      T.RewriteKeeps(w, false, n.number);
    }
  }

  /** These are the messages from some number on, and the ones before it are on the link. */
  predicate Continues(sent: seq<Message>, ns: seq<Numbered>, ms: seq<Message>) {
    FlightShapes.Ends(ms, ns) && sent <= ms && |ms| - |ns| <= |sent| && |ms| + 1 < D.MAX_MESSAGES
  }

  lemma {:induction false} ContinuesRest(l: D.Link, ns: seq<Numbered>, ms: seq<Message>)
    requires Continues(l.sent, ns, ms) && ns != []
    ensures Continues(Put(l, ns[0]).sent, ns[1..], ms)
    ensures ns[0].number <= |l.sent| && (ns[0].number < |l.sent| ==> l.sent[ns[0].number] == ns[0].m)
  {
  }

  lemma {:induction false} ClientWroteInTurn(w: T.World, ns: seq<Numbered>, item: Item)
    requires ns != [] && item == T.Written(ns[0].m, ns[0].number, true)
    ensures ClientWrote(ClientWrote(w, Put(w.up, ns[0]), [item]), PutAll(Put(w.up, ns[0]), ns[1..]),
                        OwnItems(true, ns[1..]))
            == ClientWrote(w, PutAll(w.up, ns), OwnItems(true, ns))
  {
    assert w.clientCache + [item] + OwnItems(true, ns[1..]) == w.clientCache + OwnItems(true, ns);
  }

  lemma {:induction false} ServerWroteInTurn(w: T.World, ns: seq<Numbered>, item: Item)
    requires ns != [] && item == T.Written(ns[0].m, ns[0].number, false)
    ensures ServerWrote(ServerWrote(w, Put(w.down, ns[0]), [item]), PutAll(Put(w.down, ns[0]), ns[1..]),
                        OwnItems(false, ns[1..]))
            == ServerWrote(w, PutAll(w.down, ns), OwnItems(false, ns))
  {
    assert w.serverCache + [item] + OwnItems(false, ns[1..]) == w.serverCache + OwnItems(false, ns);
  }

  lemma {:induction false} ClientWritesAll(w: T.World, ns: seq<Numbered>, ms: seq<Message>)
    requires T.Invariant2(w) && Continues(w.up.sent, ns, ms)
    ensures T.Invariant2(ClientWrote(w, PutAll(w.up, ns), OwnItems(true, ns)))
    decreases ns
  {
    if ns == [] {
      assert w.clientCache + [] == w.clientCache;
    } else {
      var item := T.Written(ns[0].m, ns[0].number, true);
      ContinuesRest(w.up, ns, ms);
      ClientWritesOne(w, ns[0]);
      ClientWritesAll(ClientWrote(w, Put(w.up, ns[0]), [item]), ns[1..], ms);
      ClientWroteInTurn(w, ns, item);
    }
  }

  lemma {:induction false} ServerWritesAll(w: T.World, ns: seq<Numbered>, ms: seq<Message>)
    requires T.Invariant2(w) && Continues(w.down.sent, ns, ms)
    ensures T.Invariant2(ServerWrote(w, PutAll(w.down, ns), OwnItems(false, ns)))
    decreases ns
  {
    if ns == [] {
      assert w.serverCache + [] == w.serverCache;
    } else {
      var item := T.Written(ns[0].m, ns[0].number, false);
      ContinuesRest(w.down, ns, ms);
      ServerWritesOne(w, ns[0]);
      ServerWritesAll(ServerWrote(w, Put(w.down, ns[0]), [item]), ns[1..], ms);
      ServerWroteInTurn(w, ns, item);
    }
  }

  /** An honest HelloVerifyRequest is number 0 in the client's cache. */
  lemma {:induction false} RequestsFirst(w: T.World, ms: seq<Message>)
    requires T.Invariant2(w) && w.down.sent <= ms && RequestFirst(ms)
    ensures RequestsAreFirst(w.clientCache)
  {
    var up, down := T.WrittenAll(w.up.sent, true), T.WrittenAll(w.down.sent, false);
    T.WrittenIndexed(w.up.sent, true);
    forall c | c in w.clientCache && Matches(c, VERIFY_REQUEST_RULES[0])
      ensures |c.data| >= HANDSHAKE_HEADER_SIZE && DecodeHeader(c.data).value.messageSequence == 0
    {
      var k :| 0 <= k < |w.clientCache| && w.clientCache[k] == c;
      var i :| 0 <= i < |down| && down[i] == c;
      T.WrittenAt(w.down.sent, false, i);
      T.ReceivedIsWritten(w.down.sent, i, false);
      assert w.down.sent[i] == ms[i];
    }
  }

  lemma {:induction false} ShapeRequestFirst(s: Fsm)
    requires Shape(s) && !s.isClient
    ensures RequestFirst(Messages(s.log))
  {
  }

  // ---------------------------------------------------------------- every run

  ghost predicate EndHolds(s: Fsm, sent: seq<Message>, isClient: bool, skip: bool) {
    Reached(s, isClient, skip) && Shape(s) && Sync(s, sent)
  }

  ghost predicate Invariant3(p: Pair, skip: bool) {
    && EndHolds(p.client, p.up.sent, true, false) && EndHolds(p.server, p.down.sent, false, skip)
    && T.Invariant2(World(p))
  }

  lemma {:induction false} EndStepKeeps(s: Fsm, l: D.Link, isClient: bool, skip: bool, e: Event)
    requires EndHolds(s, l.sent, isClient, skip) && Enabled(s, e) && !e.Arrive?
    requires isClient ==> RequestsAreFirst(s.cache)
    ensures EndHolds(Apply(s, e), Sent(l, s, e).sent, isClient, skip)
  {
    ReachedHolds(s, isClient, skip);
    ReachedStep(s, isClient, skip, e);
    StepShape(s, e);
    StepSync(s, l, e);
  }

  /** A step that writes nothing leaves the cache alone. */
  lemma {:induction false} OtherStepsCache(s: Fsm, e: Event)
    requires Enabled(s, e) && !e.Arrive? && !e.WritePackets?
    ensures Apply(s, e).cache == s.cache
  {
  }

  lemma {:induction false} ClientWorld(p: Pair, e: Event)
    requires EndHolds(p.client, p.up.sent, true, false) && T.Invariant2(World(p)) && EnabledBoth(p, Client(e))
    ensures T.Invariant2(World(ApplyBoth(p, Client(e))))
  {
    if e.WritePackets? {
      ReachedHolds(p.client, true, false);
      ShortLog(p.client);
      ClientWritesAll(World(p), p.client.flights, Messages(p.client.log));
    } else {
      OtherStepsCache(p.client, e);
    }
  }

  lemma {:induction false} ServerWorld(p: Pair, skip: bool, e: Event)
    requires EndHolds(p.server, p.down.sent, false, skip) && T.Invariant2(World(p)) && EnabledBoth(p, Server(e))
    ensures T.Invariant2(World(ApplyBoth(p, Server(e))))
  {
    if e.WritePackets? {
      ReachedHolds(p.server, false, skip);
      ShortLog(p.server);
      ServerWritesAll(World(p), p.server.flights, Messages(p.server.log));
    } else {
      OtherStepsCache(p.server, e);
    }
  }

  lemma {:induction false} ClientSeesRequestsFirst(p: Pair, skip: bool)
    requires Invariant3(p, skip)
    ensures RequestsAreFirst(p.client.cache)
  {
    ReachedHolds(p.server, false, skip);
    ShapeRequestFirst(p.server);
    RequestsFirst(World(p), Messages(p.server.log));
  }

  lemma {:induction false} ClientStepKeeps(p: Pair, skip: bool, e: Event)
    requires Invariant3(p, skip) && EnabledBoth(p, Client(e))
    ensures Invariant3(ApplyBoth(p, Client(e)), skip)
  {
    ClientSeesRequestsFirst(p, skip);
    EndStepKeeps(p.client, p.up, true, false, e);
    ClientWorld(p, e);
  }

  lemma {:induction false} ServerStepKeeps(p: Pair, skip: bool, e: Event)
    requires Invariant3(p, skip) && EnabledBoth(p, Server(e))
    ensures Invariant3(ApplyBoth(p, Server(e)), skip)
  {
    EndStepKeeps(p.server, p.down, false, skip, e);
    ServerWorld(p, skip, e);
  }

  lemma {:induction false} PoppedFromOther(l: D.Link, l1: D.Link, byClient: bool)
    requires D.Invariant(l) && D.Invariant(l1) && l1.sent == l.sent && l.popped <= l1.popped
    ensures FromOther(T.ReceivedAll(l1.popped[|l.popped|..], byClient), !byClient)
  {
    T.NetworkCaches(l, l1, byClient);
    var items := T.WrittenAll(l.sent, byClient)[|l.popped|..|l1.popped|];
    forall i | 0 <= i < |items| ensures IsWritten(items[i], byClient) {
      T.WrittenAt(l.sent, byClient, |l.popped| + i);
    }
  }

  lemma {:induction false} EndReceives(s: Fsm, sent: seq<Message>, isClient: bool, skip: bool, items: seq<Item>)
    requires EndHolds(s, sent, isClient, skip) && FromOther(items, isClient)
    ensures EndHolds(Receiving(s, items), sent, isClient, skip)
  {
    ReachedHolds(s, isClient, skip);
    ReachedReceiving(s, isClient, skip, items);
  }

  lemma {:induction false} NetworkStepKeeps(p: Pair, skip: bool, byClient: bool, ev: D.Event)
    requires Invariant3(p, skip) && EnabledBoth(p, Network(byClient, ev))
    ensures Invariant3(ApplyBoth(p, Network(byClient, ev)), skip)
  {
    T.NetworkKeeps(World(p), byClient, ev);
    var l := if byClient then p.up else p.down;
    var l1 := D.Apply(l, ev);
    T.NetworkOnlyPops(l, ev);
    PoppedFromOther(l, l1, byClient);
    var items := T.ReceivedAll(l1.popped[|l.popped|..], byClient);
    if byClient {
      EndReceives(p.server, p.down.sent, false, skip, items);
    } else {
      EndReceives(p.client, p.up.sent, true, false, items);
    }
  }

  lemma {:induction false} StepKeeps3(p: Pair, skip: bool, st: Step)
    requires Invariant3(p, skip) && EnabledBoth(p, st)
    ensures Invariant3(ApplyBoth(p, st), skip)
  {
    match st
    case Client(e) => ClientStepKeeps(p, skip, e);
    case Server(e) => ServerStepKeeps(p, skip, e);
    case Network(byClient, ev) => NetworkStepKeeps(p, skip, byClient, ev);
  }

  lemma {:induction false} EndStarts(isClient: bool, skip: bool)
    ensures EndHolds(Initial(isClient, skip), [], isClient, skip)
  {
    assert Run(Initial(isClient, skip), []) == Some(Initial(isClient, skip));
    assert Messages([]) == [];
  }

  lemma {:induction false} StartKeeps(skip: bool)
    ensures Invariant3(Start(skip), skip)
  {
    EndStarts(true, false);
    EndStarts(false, skip);
    T.RunKeeps2([]);
  }

  lemma {:induction false} RunKeeps3(skip: bool, es: seq<Step>)
    requires RunBoth(skip, es).Some?
    ensures Invariant3(RunBoth(skip, es).value, skip)
  {
    if es == [] {
      StartKeeps(skip);
    } else {
      RunKeeps3(skip, es[..|es| - 1]);
      StepKeeps3(RunBoth(skip, es[..|es| - 1]).value, skip, es[|es| - 1]);
    }
  }
}
