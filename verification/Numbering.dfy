/** Message numbers over a whole handshake: gap-free, and each number carries one message. */
module Numbering {
  import opened Bits
  import opened Fragmentation
  import opened Flights
  import opened FlightRuns

  const NUMBERS := 0x1_0000

  /** The messages behind the log: an entry that continues the numbering is new, any other is a repetition. */
  function Messages(log: seq<Numbered>): seq<Message> {
    if log == [] then []
    else
      var earlier, last := Messages(log[..|log| - 1]), log[|log| - 1];
      if last.number == |earlier| then earlier + [last.m] else earlier
  }

  /** The log numbers `next` messages 0, 1, 2, ... without a gap, and every entry is the message of its number. */
  predicate OneMessagePerNumber(log: seq<Numbered>, next: nat) {
    && |Messages(log)| == next
    && forall n :: n in log ==> n.number < next && n.m == Messages(log)[n.number]
  }

  lemma {:induction false} NumberExtends(log: seq<Numbered>, ds: seq<Draft>, first: nat)
    requires OneMessagePerNumber(log, first) && first + |Number(ds, first)| <= NUMBERS
    ensures OneMessagePerNumber(log + Number(ds, first), first + |Number(ds, first)|)
    decreases ds
  {
    if ds == [] {
      assert log + [] == log;
    } else if ds[0].ChangeCipherSpec? {
      NumberExtends(log, ds[1..], first);
    } else {
      var n := Numbered(first, ds[0].m);
      assert (log + [n])[..|log|] == log;
      NumberExtends(log + [n], ds[1..], first + 1);
      assert log + [n] + Number(ds[1..], first + 1) == log + Number(ds, first);
    }
  }

  function VerifyRequest(cookie: seq<byte>): Numbered
    requires |cookie| < 0x100
  {
    Numbered(0, RawMessage(HELLO_VERIFY_REQUEST, 0, HelloVerifyBody(cookie)))
  }

  predicate AllAre(log: seq<Numbered>, n: Numbered) {
    forall i :: 0 <= i < |log| ==> log[i] == n
  }

  /** A server in flight 0 has numbered nothing; in flight 2, nothing but its one HelloVerifyRequest. */
  predicate ServerStart(s: Fsm) {
    && (s.flight == Flight0 ==> s.log == [] && s.sendSequence == 0)
    && (s.flight == Flight2 ==>
          || (s.log == [] && s.sendSequence == 0)
          || (s.log != [] && s.sendSequence == 1 && |s.cookie| < 0x100
              && AllAre(s.log, VerifyRequest(s.cookie))))
  }

  /** Before an end's key flight, only hellos of its own are in its cache. */
  predicate OnlyHellos(s: Fsm) {
    var hello := if s.isClient then CLIENT_HELLO else HELLO_VERIFY_REQUEST;
    && (forall c :: c in s.cache && c.isClient == s.isClient ==> c.typ == hello)
    && (s.phase != Preparing ==> forall n :: n in s.flights ==> n.m.typ == hello)
  }

  predicate BeforeKeyFlight(s: Fsm) {
    || s.flight in {Flight0, Flight1, Flight2, Flight3}
    || (s.flight in {Flight4, Flight4b, Flight5} && s.phase == Preparing)
  }

  predicate NumberingInvariant(s: Fsm) {
    && OnOwnSide(s)
    && (s.sendSequence <= NUMBERS ==> OneMessagePerNumber(s.log, s.sendSequence))
    && (!s.isClient ==> ServerStart(s))
    && (BeforeKeyFlight(s) ==> OnlyHellos(s))
  }

  lemma {:induction false} RepeatedRequest(log: seq<Numbered>, n: Numbered)
    requires log != [] && n.number == 0 && AllAre(log, n)
    ensures Messages(log) == [n.m]
  {
    if |log| > 1 {
      RepeatedRequest(log[..|log| - 1], n);
    } else {
      assert log[..0] == [];
    }
  }

  lemma PreparedRequest(s: Fsm, ds: seq<Draft>, random: seq<byte>)
    requires NumberingInvariant(s) && s.phase == Preparing && s.flight == Flight2 && Generates(s.flight, s.cookie, ds)
    ensures NumberingInvariant(Prepared(s, ds, random))
  {
    var n := VerifyRequest(s.cookie);
    assert Number(ds[1..], 1) == [];
    assert Number(ds, 0) == [n];
    RepeatedRequest(s.log + [n], n);
  }

  lemma PreparedOther(s: Fsm, ds: seq<Draft>, random: seq<byte>)
    requires NumberingInvariant(s) && s.phase == Preparing && s.flight != Flight2 && Generates(s.flight, s.cookie, ds)
    ensures NumberingInvariant(Prepared(s, ds, random))
  {
    var s1 := Prepared(s, ds, random);
    if s1.sendSequence <= NUMBERS {
      NumberExtends(s.log, ds, s.sendSequence);
    }
    if s.flight == Flight0 {
      assert s.log + [] == s.log;
    }
    if s.flight in {Flight1, Flight3} {
      assert Number(ds[1..], s.sendSequence + 1) == [];
    }
  }

  lemma {:induction false} OwnItemsTypes(isClient: bool, sent: seq<Numbered>, typ: byte)
    requires forall n :: n in sent ==> n.m.typ == typ
    ensures forall c :: c in OwnItems(isClient, sent) ==> c.typ == typ
  {
    if sent != [] {
      OwnItemsTypes(isClient, sent[1..], typ);
    }
  }

  lemma WrittenNumbering(s: Fsm)
    requires NumberingInvariant(s) && s.phase == Sending
    ensures NumberingInvariant(Written(s))
  {
    if BeforeKeyFlight(s) {
      OwnItemsTypes(s.isClient, s.flights, if s.isClient then CLIENT_HELLO else HELLO_VERIFY_REQUEST);
    }
  }

  lemma AdvancedNumbering(s: Fsm, next: Flight)
    requires NumberingInvariant(s) && s.phase == Waiting && Successor(s.flight, next)
    ensures if IsLastRecvFlight(next) && s.flight == next then NumberingInvariant(Enter(s, Finished))
            else NumberingInvariant(Enter(s.(flight := next), Preparing))
  {
  }

  lemma RenewedNumbering(s: Fsm, cookie: seq<byte>, recvSequence: nat)
    requires NumberingInvariant(s) && (!s.isClient ==> cookie == s.cookie)
    ensures NumberingInvariant(s.(cookie := cookie, recvSequence := recvSequence))
  {
  }

  lemma SettledNumbering(s: Fsm, d: Decision)
    requires NumberingInvariant(s) && s.phase == Waiting && (d.Go? ==> Successor(s.flight, d.next))
    ensures NumberingInvariant(Settled(s, d))
  {
    if d.Go? { AdvancedNumbering(s, d.next); }
  }

  lemma StepNumbering(s: Fsm, e: Event)
    requires NumberingInvariant(s) && Enabled(s, e)
    ensures NumberingInvariant(Apply(s, e))
  {
    match e
    case Generate(ds, cookie) =>
      if s.flight == Flight2 { PreparedRequest(s, ds, cookie); } else { PreparedOther(s, ds, cookie); }
    case WritePackets => WrittenNumbering(s);
    case ReadHandshake(inp) =>
      if s.phase == Waiting {
        var ps := ParseState(s.cache, s.skipHelloVerify, s.cookie, s.recvSequence);
        ParseDecides(s.flight, ps, inp);
        var p := Parse(s.flight, ps, inp);
        RenewedNumbering(s, p.cookie, p.recvSequence);
        SettledNumbering(s.(cookie := p.cookie, recvSequence := p.recvSequence), p.decision);
      }
    case _ =>
  }

  lemma {:induction false} RunNumbering(isClient: bool, skip: bool, es: seq<Event>)
    requires Run(Initial(isClient, skip), es).Some?
    ensures NumberingInvariant(Run(Initial(isClient, skip), es).value)
  {
    if es != [] {
      RunNumbering(isClient, skip, es[..|es| - 1]);
      StepNumbering(Run(Initial(isClient, skip), es[..|es| - 1]).value, es[|es| - 1]);
    }
  }

  predicate Uses(log: seq<Numbered>, i: nat) {
    exists n :: n in log && n.number == i
  }

  predicate GapFreeAndUnique(log: seq<Numbered>, next: nat) {
    && (forall n, k :: n in log && k in log && n.number == k.number ==> n.m == k.m)
    && (forall n :: n in log ==> n.number < next)
    && (forall i :: 0 <= i < next ==> Uses(log, i))
  }

  lemma {:induction false} NumberIsUsed(log: seq<Numbered>, i: nat)
    requires i < |Messages(log)|
    ensures Uses(log, i)
  {
    var before := log[..|log| - 1];
    if i < |Messages(before)| {
      NumberIsUsed(before, i);
      var n :| n in before && n.number == i;
      assert n in log;
    } else {
      assert log[|log| - 1] in log;
    }
  }

  lemma OneMessagePerNumberMeans(log: seq<Numbered>, next: nat)
    requires OneMessagePerNumber(log, next)
    ensures GapFreeAndUnique(log, next)
  {
    forall i | 0 <= i < next ensures Uses(log, i) {
      NumberIsUsed(log, i);
    }
  }

  /** Over every run of either end, resets and repetitions included: the numbers used are exactly 0 to
      `sendSequence` - 1, and two messages with the same number are the same message. */
  lemma NumbersAreGapFreeAndUnique(isClient: bool, skip: bool, es: seq<Event>)
    requires Run(Initial(isClient, skip), es).Some?
    requires Run(Initial(isClient, skip), es).value.sendSequence <= NUMBERS
    ensures var s := Run(Initial(isClient, skip), es).value; GapFreeAndUnique(s.log, s.sendSequence)
  {
    RunNumbering(isClient, skip, es);
    var s := Run(Initial(isClient, skip), es).value;
    OneMessagePerNumberMeans(s.log, s.sendSequence);
  }
}
