/** Both ends of a handshake, each with a handshake cache of what it sent and what it received. */
module Transcript {
  import opened Bits
  import opened Wire
  import opened Reassembly
  import opened Fragmentation
  import opened Delivery
  import opened HandshakeCaches

  /** `up` carries the client's messages, `down` the server's. */
  datatype World = World(up: Link, down: Link, clientCache: seq<Item>, serverCache: seq<Item>)

  datatype Event2 =
    | Write(byClient: bool, m: Message)      // number a new message and write it for the first time
    | Rewrite(byClient: bool, message: nat)  // write a message of an earlier flight again
    | Network(byClient: bool, e: Event)      // a record of the client's or of the server's moves

  const START := World(INITIAL, INITIAL, [], [])

  /** What `writePackets` caches for message `i`. */
  function Written(m: Message, i: uint16, byClient: bool): Item {
    Item(m.typ, byClient, m.epoch, i, WireMessage(m, i))
  }

  /** What `handleIncomingPacket` caches for a popped message. */
  function Received(p: Popped, byClient: bool): Item
    requires |p.content| >= HANDSHAKE_HEADER_SIZE
  {
    var h := DecodeHeader(p.content).value;
    Item(h.typ, byClient, p.epoch, h.messageSequence, p.content)
  }

  function ReceivedAll(ps: seq<Popped>, byClient: bool): seq<Item> {
    if ps == [] then []
    else
      var p := ps[|ps| - 1];
      ReceivedAll(ps[..|ps| - 1], byClient) +
      (if |p.content| >= HANDSHAKE_HEADER_SIZE then [Received(p, byClient)] else [])
  }

  predicate Enabled2(w: World, e: Event2) {
    match e
    case Write(byClient, m) => Enabled(if byClient then w.up else w.down, Send(m))
    case Rewrite(byClient, i) => i < |if byClient then w.up.sent else w.down.sent| < MAX_MESSAGES
    case Network(byClient, ev) => !ev.Send? && Enabled(if byClient then w.up else w.down, ev)
  }

  ghost function Apply2(w: World, e: Event2): World
    requires Enabled2(w, e)
  {
    match e
    case Write(true, m) =>
      w.(up := Apply(w.up, Send(m)), clientCache := w.clientCache + [Written(m, |w.up.sent|, true)])
    case Write(false, m) =>
      w.(down := Apply(w.down, Send(m)), serverCache := w.serverCache + [Written(m, |w.down.sent|, false)])
    case Rewrite(true, i) => w.(clientCache := w.clientCache + [Written(w.up.sent[i], i, true)])
    case Rewrite(false, i) => w.(serverCache := w.serverCache + [Written(w.down.sent[i], i, false)])
    case Network(true, ev) =>
      w.(up := Apply(w.up, ev),
         serverCache := w.serverCache + ReceivedAll(Apply(w.up, ev).popped[|w.up.popped|..], true))
    case Network(false, ev) =>
      w.(down := Apply(w.down, ev),
         clientCache := w.clientCache + ReceivedAll(Apply(w.down, ev).popped[|w.down.popped|..], false))
  }

  ghost function Run2(es: seq<Event2>): Option<World> {
    if es == [] then Some(START)
    else match Run2(es[..|es| - 1])
      case None => None
      case Some(w) => if Enabled2(w, es[|es| - 1]) then Some(Apply2(w, es[|es| - 1])) else None
  }

  // ---------------------------------------------------------------- what each cache holds

  /** The items that one end caches for its own messages, in order. */
  function WrittenAll(sent: seq<Message>, byClient: bool): (items: seq<Item>)
    requires |sent| < MAX_MESSAGES
    ensures |items| == |sent|
  {
    if sent == [] then []
    else WrittenAll(sent[..|sent| - 1], byClient) + [Written(sent[|sent| - 1], |sent| - 1, byClient)]
  }

  lemma {:induction false} WrittenAt(sent: seq<Message>, byClient: bool, i: nat)
    requires i < |sent| < MAX_MESSAGES
    ensures WrittenAll(sent, byClient)[i] == Written(sent[i], i, byClient)
  {
    if i < |sent| - 1 { WrittenAt(sent[..|sent| - 1], byClient, i); }
  }

  predicate Indexed(items: seq<Item>, byClient: bool) {
    forall i :: 0 <= i < |items| ==> items[i].messageSequence == i && items[i].isClient == byClient
  }

  lemma WrittenIndexed(sent: seq<Message>, byClient: bool)
    requires |sent| < MAX_MESSAGES
    ensures Indexed(WrittenAll(sent, byClient), byClient)
  {
    forall i | 0 <= i < |sent|
      ensures var c := WrittenAll(sent, byClient)[i]; c.messageSequence == i && c.isClient == byClient
    {
      WrittenAt(sent, byClient, i);
    }
  }

  /** The cache holds exactly these items of the client's and of the server's. */
  predicate Holds(cache: seq<Item>, client: seq<Item>, server: seq<Item>) {
    && (forall k :: 0 <= k < |cache| ==> cache[k] in client || cache[k] in server)
    && (forall i :: 0 <= i < |client| ==> client[i] in cache)
    && (forall i :: 0 <= i < |server| ==> server[i] in cache)
  }

  predicate Invariant2(w: World) {
    && Invariant(w.up) && Invariant(w.down)
    && Holds(w.clientCache, WrittenAll(w.up.sent, true), WrittenAll(w.down.sent, false)[..|w.down.popped|])
    && Holds(w.serverCache, WrittenAll(w.up.sent, true)[..|w.up.popped|], WrittenAll(w.down.sent, false))
  }

  lemma HoldsMore(cache: seq<Item>, client: seq<Item>, server: seq<Item>, client1: seq<Item>, server1: seq<Item>,
                  more: seq<Item>)
    requires client <= client1 && server <= server1 && Holds(cache, client, server)
    requires forall k :: 0 <= k < |more| ==> more[k] in client1 || more[k] in server1
    requires forall i :: |client| <= i < |client1| ==> client1[i] in more
    requires forall i :: |server| <= i < |server1| ==> server1[i] in more
    ensures Holds(cache + more, client1, server1)
  {
    forall k | 0 <= k < |cache + more| ensures (cache + more)[k] in client1 || (cache + more)[k] in server1 {
      if k < |cache| {
        assert cache[k] in client || cache[k] in server;
      } else {
        assert (cache + more)[k] == more[k - |cache|];
      }
    }
    forall i | 0 <= i < |client1| ensures client1[i] in cache + more {
      if i < |client| { assert client1[i] == client[i]; }
    }
    forall i | 0 <= i < |server1| ensures server1[i] in cache + more {
      if i < |server| { assert server1[i] == server[i]; }
    }
  }

  predicate ReceivedAs(p: Popped, c: Item, byClient: bool) {
    |p.content| >= HANDSHAKE_HEADER_SIZE && Received(p, byClient) == c
  }

  /** A popped message is cached as its sender cached it. */
  lemma ReceivedIsWritten(sent: seq<Message>, i: nat, byClient: bool)
    requires i < |sent| < MAX_MESSAGES
    ensures ReceivedAs(Expected(sent, i), WrittenAll(sent, byClient)[i], byClient)
  {
    HeaderRoundTrip(Header(sent[i].typ, |sent[i].content|, i, 0, |sent[i].content|), sent[i].content);
    WrittenAt(sent, byClient, i);
  }

  lemma {:induction false} ReceivedItems(ps: seq<Popped>, items: seq<Item>, byClient: bool)
    requires |ps| == |items| && forall k :: 0 <= k < |ps| ==> ReceivedAs(ps[k], items[k], byClient)
    ensures ReceivedAll(ps, byClient) == items
  {
    if ps != [] {
      var n := |ps| - 1;
      ReceivedItems(ps[..n], items[..n], byClient);
      assert ReceivedAs(ps[n], items[n], byClient);
      assert items == items[..n] + [items[n]];
    }
  }

  lemma NetworkOnlyPops(l: Link, ev: Event)
    requires Invariant(l) && Enabled(l, ev) && !ev.Send?
    ensures Invariant(Apply(l, ev)) && Apply(l, ev).sent == l.sent && l.popped <= Apply(l, ev).popped
  {
    StepKeeps(l, ev);
  }

  /** What a network event caches is the lengthening of the popped prefix. */
  lemma NetworkCaches(l: Link, l1: Link, byClient: bool)
    requires Invariant(l) && Invariant(l1) && l1.sent == l.sent && l.popped <= l1.popped
    ensures ReceivedAll(l1.popped[|l.popped|..], byClient) ==
            WrittenAll(l.sent, byClient)[|l.popped|..|l1.popped|]
  {
    var ps, items := l1.popped[|l.popped|..], WrittenAll(l.sent, byClient)[|l.popped|..|l1.popped|];
    forall k | 0 <= k < |ps| ensures ReceivedAs(ps[k], items[k], byClient) {
      ReceivedIsWritten(l.sent, |l.popped| + k, byClient);
    }
    ReceivedItems(ps, items, byClient);
  }

  /** Receiving the next items of a list. */
  lemma PopMore(items: seq<Item>, was: nat, now: nat)
    requires was <= now <= |items|
    ensures items[..was] <= items[..now]
    ensures forall i :: was <= i < now ==> items[..now][i] in items[was..now]
    ensures forall k :: 0 <= k < now - was ==> items[was..now][k] in items[..now]
  {
    forall i | was <= i < now ensures items[..now][i] in items[was..now] {
      assert items[was..now][i - was] == items[i];
    }
    forall k | 0 <= k < now - was ensures items[was..now][k] in items[..now] {
      assert items[..now][was + k] == items[was..now][k];
    }
  }

  lemma WriteAll(sent: seq<Message>, m: Message, byClient: bool)
    requires |sent| + 1 < MAX_MESSAGES
    ensures WrittenAll(sent + [m], byClient) == WrittenAll(sent, byClient) + [Written(m, |sent|, byClient)]
  {
    assert (sent + [m])[..|sent|] == sent;
  }

  lemma ClientWriteKeeps(w: World, m: Message)
    requires Invariant2(w) && Enabled2(w, Write(true, m))
    ensures Invariant2(Apply2(w, Write(true, m)))
  {
    var up, down := WrittenAll(w.up.sent, true), WrittenAll(w.down.sent, false);
    StepKeeps(w.up, Send(m));
    WriteAll(w.up.sent, m, true);
    var item := Written(m, |w.up.sent|, true);
    assert (up + [item])[..|w.up.popped|] == up[..|w.up.popped|];
    HoldsMore(w.clientCache, up, down[..|w.down.popped|], up + [item], down[..|w.down.popped|], [item]);
  }

  lemma ServerWriteKeeps(w: World, m: Message)
    requires Invariant2(w) && Enabled2(w, Write(false, m))
    ensures Invariant2(Apply2(w, Write(false, m)))
  {
    var up, down := WrittenAll(w.up.sent, true), WrittenAll(w.down.sent, false);
    StepKeeps(w.down, Send(m));
    WriteAll(w.down.sent, m, false);
    var item := Written(m, |w.down.sent|, false);
    assert (down + [item])[..|w.down.popped|] == down[..|w.down.popped|];
    HoldsMore(w.serverCache, up[..|w.up.popped|], down, up[..|w.up.popped|], down + [item], [item]);
  }

  lemma RewriteKeeps(w: World, byClient: bool, i: nat)
    requires Invariant2(w) && Enabled2(w, Rewrite(byClient, i))
    ensures Invariant2(Apply2(w, Rewrite(byClient, i)))
  {
    var up, down := WrittenAll(w.up.sent, true), WrittenAll(w.down.sent, false);
    if byClient {
      WrittenAt(w.up.sent, true, i);
      HoldsMore(w.clientCache, up, down[..|w.down.popped|], up, down[..|w.down.popped|], [up[i]]);
    } else {
      WrittenAt(w.down.sent, false, i);
      HoldsMore(w.serverCache, up[..|w.up.popped|], down, up[..|w.up.popped|], down, [down[i]]);
    }
  }

  lemma UpPopsKeep(w: World, l1: Link)
    requires Invariant2(w) && Invariant(l1) && l1.sent == w.up.sent && w.up.popped <= l1.popped
    ensures Invariant2(w.(up := l1, serverCache := w.serverCache + ReceivedAll(l1.popped[|w.up.popped|..], true)))
  {
    var up, down := WrittenAll(w.up.sent, true), WrittenAll(w.down.sent, false);
    NetworkCaches(w.up, l1, true);
    PopMore(up, |w.up.popped|, |l1.popped|);
    HoldsMore(w.serverCache, up[..|w.up.popped|], down, up[..|l1.popped|], down, up[|w.up.popped|..|l1.popped|]);
  }

  lemma DownPopsKeep(w: World, l1: Link)
    requires Invariant2(w) && Invariant(l1) && l1.sent == w.down.sent && w.down.popped <= l1.popped
    ensures Invariant2(w.(down := l1, clientCache := w.clientCache + ReceivedAll(l1.popped[|w.down.popped|..], false)))
  {
    var up, down := WrittenAll(w.up.sent, true), WrittenAll(w.down.sent, false);
    NetworkCaches(w.down, l1, false);
    PopMore(down, |w.down.popped|, |l1.popped|);
    HoldsMore(w.clientCache, up, down[..|w.down.popped|], up, down[..|l1.popped|], down[|w.down.popped|..|l1.popped|]);
  }

  lemma NetworkKeeps(w: World, byClient: bool, ev: Event)
    requires Invariant2(w) && Enabled2(w, Network(byClient, ev))
    ensures Invariant2(Apply2(w, Network(byClient, ev)))
  {
    if byClient {
      NetworkOnlyPops(w.up, ev);
      UpPopsKeep(w, Apply(w.up, ev));
    } else {
      NetworkOnlyPops(w.down, ev);
      DownPopsKeep(w, Apply(w.down, ev));
    }
  }

  lemma StepKeeps2(w: World, e: Event2)
    requires Invariant2(w) && Enabled2(w, e)
    ensures Invariant2(Apply2(w, e))
  {
    match e
    case Write(byClient, m) => if byClient { ClientWriteKeeps(w, m); } else { ServerWriteKeeps(w, m); }
    case Rewrite(byClient, i) => RewriteKeeps(w, byClient, i);
    case Network(byClient, ev) => NetworkKeeps(w, byClient, ev);
  }

  lemma {:induction false} RunKeeps2(es: seq<Event2>)
    requires Run2(es).Some?
    ensures Invariant2(Run2(es).value)
  {
    if es != [] {
      RunKeeps2(es[..|es| - 1]);
      StepKeeps2(Run2(es[..|es| - 1]).value, es[|es| - 1]);
    }
  }

  // ---------------------------------------------------------------- agreement

  /** Every message that the rule asks for, and that was sent, has arrived. */
  predicate Arrived(l: Link, r: Rule, byClient: bool)
    requires |l.sent| < MAX_MESSAGES
  {
    forall i :: 0 <= i < |l.sent| && Matches(Written(l.sent[i], i, byClient), r) ==> i < |l.popped|
  }

  /** The items that match a rule, when they have all arrived, are the same at both ends. */
  lemma SameMatches(clientCache: seq<Item>, serverCache: seq<Item>, up: seq<Item>, down: seq<Item>,
                    upPopped: nat, downPopped: nat, r: Rule, c: Item)
    requires upPopped <= |up| && downPopped <= |down|
    requires Holds(clientCache, up, down[..downPopped]) && Holds(serverCache, up[..upPopped], down)
    requires forall i :: 0 <= i < |up| && Matches(up[i], r) ==> i < upPopped
    requires forall i :: 0 <= i < |down| && Matches(down[i], r) ==> i < downPopped
    requires Matches(c, r)
    ensures c in clientCache <==> c in up || c in down
    ensures c in serverCache <==> c in up || c in down
  {
    if c in up {
      var i :| 0 <= i < |up| && up[i] == c;
      assert up[..upPopped][i] == c;
    }
    if c in down {
      var i :| 0 <= i < |down| && down[i] == c;
      assert down[..downPopped][i] == c;
    }
  }

  /** A match is determined by its number. */
  lemma SameNumber(up: seq<Item>, down: seq<Item>, r: Rule, c: Item, d: Item)
    requires Indexed(up, true) && Indexed(down, false)
    requires c in up || c in down
    requires d in up || d in down
    requires Matches(c, r) && Matches(d, r) && c.messageSequence == d.messageSequence
    ensures c == d
  {
  }

  lemma ArrivedItems(l: Link, r: Rule, byClient: bool)
    requires |l.sent| < MAX_MESSAGES && Arrived(l, r, byClient)
    ensures forall i :: 0 <= i < |l.sent| && Matches(WrittenAll(l.sent, byClient)[i], r) ==> i < |l.popped|
  {
    forall i | 0 <= i < |l.sent| && Matches(WrittenAll(l.sent, byClient)[i], r) ensures i < |l.popped| {
      WrittenAt(l.sent, byClient, i);
    }
  }

  lemma BestAgrees(w: World, r: Rule)
    requires Invariant2(w) && Arrived(w.up, r, true) && Arrived(w.down, r, false)
    ensures Best(w.clientCache, r) == Best(w.serverCache, r)
  {
    var up, down := WrittenAll(w.up.sent, true), WrittenAll(w.down.sent, false);
    WrittenIndexed(w.up.sent, true);
    WrittenIndexed(w.down.sent, false);
    ArrivedItems(w.up, r, true);
    ArrivedItems(w.down, r, false);
    BestAgreesOnItems(w.clientCache, w.serverCache, up, down, |w.up.popped|, |w.down.popped|, r);
  }

  lemma BestAgreesOnItems(clientCache: seq<Item>, serverCache: seq<Item>, up: seq<Item>, down: seq<Item>,
                          upPopped: nat, downPopped: nat, r: Rule)
    requires upPopped <= |up| && downPopped <= |down| && Indexed(up, true) && Indexed(down, false)
    requires Holds(clientCache, up, down[..downPopped]) && Holds(serverCache, up[..upPopped], down)
    requires forall i :: 0 <= i < |up| && Matches(up[i], r) ==> i < upPopped
    requires forall i :: 0 <= i < |down| && Matches(down[i], r) ==> i < downPopped
    ensures Best(clientCache, r) == Best(serverCache, r)
  {
    BestIsHighestMatch(clientCache, r);
    BestIsHighestMatch(serverCache, r);
    forall c | Matches(c, r)
      ensures c in clientCache <==> c in up || c in down
      ensures c in serverCache <==> c in up || c in down
    {
      SameMatches(clientCache, serverCache, up, down, upPopped, downPopped, r, c);
    }
    var bc, bs := Best(clientCache, r), Best(serverCache, r);
    if bc.Some? && bs.Some? {
      SameNumber(up, down, r, bc.value, bs.value);
    }
  }

  lemma {:induction false} MergedAgrees(w: World, rules: seq<Rule>)
    requires Invariant2(w) && forall r :: r in rules ==> Arrived(w.up, r, true) && Arrived(w.down, r, false)
    ensures Merged(w.clientCache, rules) == Merged(w.serverCache, rules)
  {
    if rules != [] {
      MergedAgrees(w, rules[..|rules| - 1]);
      BestAgrees(w, rules[|rules| - 1]);
    }
  }

  /** In every run, once the messages the rules ask for have arrived, both ends merge the same transcript bytes,
      however often flights were written again and in whatever order records moved. */
  lemma TranscriptsAgree(es: seq<Event2>, rules: seq<Rule>)
    requires Run2(es).Some?
    ensures var w := Run2(es).value;
            && |w.up.sent| < MAX_MESSAGES && |w.down.sent| < MAX_MESSAGES
            && ((forall r :: r in rules ==> Arrived(w.up, r, true) && Arrived(w.down, r, false))
                ==> Merged(w.clientCache, rules) == Merged(w.serverCache, rules))
  {
    RunKeeps2(es);
    var w := Run2(es).value;
    if forall r :: r in rules ==> Arrived(w.up, r, true) && Arrived(w.down, r, false) {
      MergedAgrees(w, rules);
    }
  }

  /** In particular when each end has popped everything the other sent, for any rules at all. */
  lemma TranscriptsAgreeAtRest(es: seq<Event2>, rules: seq<Rule>)
    requires Run2(es).Some?
    requires var w := Run2(es).value; |w.up.popped| == |w.up.sent| && |w.down.popped| == |w.down.sent|
    ensures Merged(Run2(es).value.clientCache, rules) == Merged(Run2(es).value.serverCache, rules)
  {
    TranscriptsAgree(es, rules);
  }
}
