/** The handshake state machine: flights, their parsers' decisions, and message numbering. */
module Flights {
  import opened Bits
  import opened Wire
  import opened Fragmentation
  import opened HandshakeCaches
  import Transcript

  datatype Flight = Flight0 | Flight1 | Flight2 | Flight3 | Flight4 | Flight4b | Flight5 | Flight5b | Flight6

  function Rank(f: Flight): nat {
    match f
    case Flight0 => 1
    case Flight1 => 2
    case Flight2 => 3
    case Flight3 => 4
    case Flight4 => 5
    case Flight4b => 6
    case Flight5 => 7
    case Flight5b => 8
    case Flight6 => 9
  }

  predicate IsLastSendFlight(f: Flight) { f == Flight6 || f == Flight5b }

  predicate IsLastRecvFlight(f: Flight) { f == Flight5 || f == Flight4b }

  const CLIENT_HELLO: byte := 1
  const SERVER_HELLO: byte := 2
  const HELLO_VERIFY_REQUEST: byte := 3
  const CERTIFICATE: byte := 11
  const SERVER_KEY_EXCHANGE: byte := 12
  const CERTIFICATE_REQUEST: byte := 13
  const SERVER_HELLO_DONE: byte := 14
  const CERTIFICATE_VERIFY: byte := 15
  const CLIENT_KEY_EXCHANGE: byte := 16
  const FINISHED: byte := 20
  const COOKIE_LENGTH := 20

  datatype Phase = Errored | Preparing | Sending | Waiting | Finished

  /** A generated packet before `prepare` numbers it. */
  datatype Draft = Handshake(m: Message) | ChangeCipherSpec

  /** A handshake message with the number `prepare` gave it. */
  datatype Numbered = Numbered(number: uint16, m: Message)

  datatype Fsm = Fsm(isClient: bool, skipHelloVerify: bool, flight: Flight, phase: Phase, retransmit: bool,
                     cookie: seq<byte>, sendSequence: nat, recvSequence: nat,
                     flights: seq<Numbered>, cache: seq<Item>, log: seq<Numbered>, completed: bool)

  function Initial(isClient: bool, skipHelloVerify: bool): Fsm {
    Fsm(isClient, skipHelloVerify, if isClient then Flight1 else Flight0, Preparing, false, [], 0, 0, [], [], [], false)
  }

  // ---------------------------------------------------------------- generators

  function HelloVerifyBody(cookie: seq<byte>): seq<byte>
    requires |cookie| < 0x100
  {
    [0xfe, 0xfd, |cookie|] + cookie
  }

  predicate IsMessage(d: Draft, typ: byte, epoch: uint16) {
    d.Handshake? && d.m.typ == typ && d.m.epoch == epoch
  }

  /** The messages of flight 5 that are sent before the cipher changes. */
  predicate ClientKeyMessages(ds: seq<Draft>) {
    var n := if ds != [] && IsMessage(ds[0], CERTIFICATE, 0) then 1 else 0;
    && n < |ds| <= n + 2
    && IsMessage(ds[n], CLIENT_KEY_EXCHANGE, 0)
    && (|ds| == n + 2 ==> IsMessage(ds[n + 1], CERTIFICATE_VERIFY, 0))
  }

  predicate ServerKeyMessages(ds: seq<Draft>) {
    || ds == []
    || (|ds| == 1 && IsMessage(ds[0], SERVER_KEY_EXCHANGE, 0))
    || (2 <= |ds| <= 3 && IsMessage(ds[0], CERTIFICATE, 0) && IsMessage(ds[1], SERVER_KEY_EXCHANGE, 0)
        && (|ds| == 3 ==> IsMessage(ds[2], CERTIFICATE_REQUEST, 0)))
  }

  predicate CipherChange(ds: seq<Draft>) {
    |ds| == 2 && ds[0].ChangeCipherSpec? && IsMessage(ds[1], FINISHED, 1)
  }

  /** What each flight's generator can produce; only the HelloVerifyRequest's body is fixed, by the cookie. */
  predicate Generates(f: Flight, cookie: seq<byte>, ds: seq<Draft>) {
    match f
    case Flight0 => ds == []
    case Flight1 => |ds| == 1 && IsMessage(ds[0], CLIENT_HELLO, 0)
    case Flight2 => |cookie| < 0x100 && ds == [Handshake(RawMessage(HELLO_VERIFY_REQUEST, 0, HelloVerifyBody(cookie)))]
    case Flight3 => |ds| == 1 && IsMessage(ds[0], CLIENT_HELLO, 0)
    case Flight4 => |ds| >= 2 && IsMessage(ds[0], SERVER_HELLO, 0) && ServerKeyMessages(ds[1..|ds| - 1])
                    && IsMessage(ds[|ds| - 1], SERVER_HELLO_DONE, 0)
    case Flight4b => |ds| == 3 && IsMessage(ds[0], SERVER_HELLO, 0) && CipherChange(ds[1..])
    case Flight5 => |ds| >= 3 && ClientKeyMessages(ds[..|ds| - 2]) && CipherChange(ds[|ds| - 2..])
    case Flight5b => CipherChange(ds)
    case Flight6 => CipherChange(ds)
  }

  /** Numbers the handshake messages, in order, from `first`, truncated to 16 bits. */
  function Number(ds: seq<Draft>, first: nat): seq<Numbered> {
    if ds == [] then []
    else match ds[0]
      case ChangeCipherSpec => Number(ds[1..], first)
      case Handshake(m) => [Numbered(first % 0x1_0000, m)] + Number(ds[1..], first + 1)
  }

  function Prepared(s: Fsm, ds: seq<Draft>, freshCookie: seq<byte>): Fsm {
    var cookie :=
      if s.flight == Flight0 && !s.skipHelloVerify then freshCookie
      else if s.flight == Flight1 then []
      else s.cookie;
    var first := if s.flight == Flight2 then 0 else s.sendSequence;
    var numbered := Number(ds, first);
    s.(cookie := cookie, retransmit := s.flight != Flight2, flights := numbered,
       sendSequence := first + |numbered|, log := s.log + numbered, phase := Sending)
  }

  // ---------------------------------------------------------------- parsers

  /** The cookie of a ClientHello body, when the fixed part and the two length-prefixed fields are all there. */
  function HelloCookie(b: seq<byte>): Option<seq<byte>> {
    if |b| <= 35 then None
    else
      var sid := b[34] as int;
      if |b| <= 35 + sid then None
      else if |b| <= 36 + sid then None
      else
        var n := b[35 + sid] as int;
        if |b| <= 36 + sid + n then None else Some(b[36 + sid..36 + sid + n])
  }

  /** The cookie of a HelloVerifyRequest body. */
  function VerifyCookie(b: seq<byte>): Option<seq<byte>> {
    if |b| < 3 then None
    else
      var n := b[2] as int;
      if |b| < n + 3 then None else Some(b[3..3 + n])
  }

  /** What a parser finds besides the pulls and the cookies: the rest of the codecs; whether versions, negotiation,
      sessions or signatures fail, before or after the later pulls; whether the ServerHello resumes a session; and
      whether there is a pre-shared key. */
  datatype ParseInput = ParseInput(restParses: (byte, seq<byte>) -> bool, fatal: bool, fatalAfter: bool,
                                   resumes: bool, psk: bool)

  datatype Decision = Stay | Fatal | Go(next: Flight)

  const CLIENT_HELLO_RULES := [Rule(CLIENT_HELLO, 0, true, false)]
  const VERIFY_REQUEST_RULES := [Rule(HELLO_VERIFY_REQUEST, 0, false, true)]
  const FIRST_ANSWER_RULES := [Rule(HELLO_VERIFY_REQUEST, 0, false, true), Rule(SERVER_HELLO, 0, false, true)]
  const SERVER_HELLO_RULES := [Rule(SERVER_HELLO, 0, false, false)]
  const PSK_RULES := [Rule(SERVER_KEY_EXCHANGE, 0, false, true), Rule(SERVER_HELLO_DONE, 0, false, false)]
  const CERTIFICATE_RULES :=
    [Rule(CERTIFICATE, 0, false, true), Rule(SERVER_KEY_EXCHANGE, 0, false, false),
     Rule(CERTIFICATE_REQUEST, 0, false, true), Rule(SERVER_HELLO_DONE, 0, false, false)]
  const CLIENT_KEY_RULES :=
    [Rule(CERTIFICATE, 0, true, true), Rule(CLIENT_KEY_EXCHANGE, 0, true, false), Rule(CERTIFICATE_VERIFY, 0, true, true)]
  const CLIENT_FINISHED_RULES := [Rule(FINISHED, 1, true, false)]
  const SERVER_FINISHED_RULES := [Rule(FINISHED, 1, false, false)]

  function Codec(rest: (byte, seq<byte>) -> bool): (byte, seq<byte>) -> bool {
    (typ: byte, body: seq<byte>) =>
      && (typ == CLIENT_HELLO ==> HelloCookie(body).Some?)
      && (typ == HELLO_VERIFY_REQUEST ==> VerifyCookie(body).Some?)
      && rest(typ, body)
  }

  /** What a parser reads and writes of the connection state. */
  datatype ParseState = ParseState(cache: seq<Item>, skipHelloVerify: bool, cookie: seq<byte>, recvSequence: nat)

  /** The cookie and receive sequence a parser leaves behind, and its decision. */
  datatype Parsed = Parsed(cookie: seq<byte>, recvSequence: nat, decision: Decision)

  function Flight0Parse(s: ParseState, inp: ParseInput): Parsed {
    if !PullsFully(s.cache, 0, CLIENT_HELLO_RULES, Codec(inp.restParses)) then Parsed(s.cookie, s.recvSequence, Stay)
    else Parsed(s.cookie, 1,
                if inp.fatal then Fatal
                else if inp.resumes then Go(Flight4b)
                else Go(if s.skipHelloVerify then Flight4 else Flight2))
  }

  function PulledHello(cache: seq<Item>): Option<seq<byte>> {
    match Chosen(cache, CLIENT_HELLO_RULES, CLIENT_HELLO)
    case None => None
    case Some(c) => if |c.data| < HANDSHAKE_HEADER_SIZE then None else Some(c.data[HANDSHAKE_HEADER_SIZE..])
  }

  /** The cookie gate: version 1.2, a nonempty cookie, and it must be the server's own. */
  function CheckHello(hello: seq<byte>, cookie: seq<byte>): Decision {
    if |hello| < 2 || hello[0] != 0xfe || hello[1] != 0xfd then Fatal
    else match HelloCookie(hello)
      case None => Stay
      case Some(echoed) => if echoed == [] then Stay else if echoed != cookie then Fatal else Go(Flight4)
  }

  function Flight2Parse(s: ParseState, inp: ParseInput): Parsed {
    if !PullsFully(s.cache, s.recvSequence, CLIENT_HELLO_RULES, Codec(inp.restParses)) then Flight0Parse(s, inp)
    else Parsed(s.cookie, s.recvSequence + 1,
                match PulledHello(s.cache)
                case None => Stay
                case Some(hello) => CheckHello(hello, s.cookie))
  }

  /** The number after the last message of a successful pull. */
  function PulledTo(cache: seq<Item>, first: nat, rules: seq<Rule>): nat {
    first + |Found(cache, rules, |rules|)|
  }

  function PulledCookie(cache: seq<Item>, rules: seq<Rule>): Option<seq<byte>> {
    match Chosen(cache, rules, HELLO_VERIFY_REQUEST)
    case None => None
    case Some(c) => if |c.data| < HANDSHAKE_HEADER_SIZE then None else VerifyCookie(c.data[HANDSHAKE_HEADER_SIZE..])
  }

  function Keep(s: ParseState, d: Decision): Parsed {
    Parsed(s.cookie, s.recvSequence, d)
  }

  /** The server's key messages, after its ServerHello. */
  function KeyMessagesParse(s: ParseState, inp: ParseInput): Parsed {
    var rules := if inp.psk then PSK_RULES else CERTIFICATE_RULES;
    if !PullsFully(s.cache, s.recvSequence + 1, rules, Codec(inp.restParses)) then Keep(s, Stay)
    else Parsed(s.cookie, PulledTo(s.cache, s.recvSequence + 1, rules), if inp.fatalAfter then Fatal else Go(Flight5))
  }

  /** The server's Finished, after a ServerHello that resumes a session. */
  function ResumptionParse(s: ParseState, inp: ParseInput): Parsed {
    if !PullsFully(s.cache, s.recvSequence + 1, SERVER_FINISHED_RULES, Codec(inp.restParses)) then Keep(s, Stay)
    else Keep(s, if inp.fatalAfter then Fatal else Go(Flight5b))
  }

  function Flight3Parse(s: ParseState, inp: ParseInput): Parsed {
    if PullsFully(s.cache, s.recvSequence, VERIFY_REQUEST_RULES, Codec(inp.restParses))
       && PulledCookie(s.cache, VERIFY_REQUEST_RULES).Some?
    then
      if inp.fatal then Keep(s, Fatal)
      else Parsed(PulledCookie(s.cache, VERIFY_REQUEST_RULES).value, s.recvSequence + 1, Go(Flight3))
    else if !PullsFully(s.cache, s.recvSequence, SERVER_HELLO_RULES, Codec(inp.restParses)) then Keep(s, Stay)
    else if inp.fatal then Keep(s, Fatal)
    else if inp.resumes then ResumptionParse(s, inp)
    else KeyMessagesParse(s, inp)
  }

  function Flight1Parse(s: ParseState, inp: ParseInput): Parsed {
    if !PullsFully(s.cache, s.recvSequence, FIRST_ANSWER_RULES, Codec(inp.restParses)) then Keep(s, Stay)
    else if Chosen(s.cache, FIRST_ANSWER_RULES, SERVER_HELLO).Some? then Flight3Parse(s, inp)
    else match PulledCookie(s.cache, FIRST_ANSWER_RULES)
      case None => Keep(s, Stay)
      case Some(cookie) =>
        if inp.fatal then Keep(s, Fatal)
        else Parsed(cookie, PulledTo(s.cache, s.recvSequence, FIRST_ANSWER_RULES), Go(Flight3))
  }

  /** The client's key messages, a CertificateVerify among them if there is a certificate, and then its Finished. */
  function Flight4Parse(s: ParseState, inp: ParseInput): Parsed {
    var next := PulledTo(s.cache, s.recvSequence, CLIENT_KEY_RULES);
    if !PullsFully(s.cache, s.recvSequence, CLIENT_KEY_RULES, Codec(inp.restParses)) then Keep(s, Stay)
    else if inp.fatal then Keep(s, Fatal)
    else if Chosen(s.cache, CLIENT_KEY_RULES, CERTIFICATE).Some?
            && Chosen(s.cache, CLIENT_KEY_RULES, CERTIFICATE_VERIFY).None? then Keep(s, Stay)
    else if !PullsFully(s.cache, next, CLIENT_FINISHED_RULES, Codec(inp.restParses)) then Keep(s, Stay)
    else Parsed(s.cookie, next + 1, if inp.fatalAfter then Fatal else Go(Flight6))
  }

  /** The parsers that wait for the peer's Finished and name their own flight when they have it. */
  function FinishedParse(s: ParseState, inp: ParseInput, first: nat, rules: seq<Rule>, own: Flight): Parsed {
    if !PullsFully(s.cache, first, rules, Codec(inp.restParses)) then Keep(s, Stay)
    else Keep(s, if inp.fatal then Fatal else Go(own))
  }

  function Parse(f: Flight, s: ParseState, inp: ParseInput): Parsed {
    match f
    case Flight0 => Flight0Parse(s, inp)
    case Flight1 => Flight1Parse(s, inp)
    case Flight2 => Flight2Parse(s, inp)
    case Flight3 => Flight3Parse(s, inp)
    case Flight4 => Flight4Parse(s, inp)
    case Flight4b => FinishedParse(s, inp, s.recvSequence, CLIENT_FINISHED_RULES, Flight4b)
    case Flight5 => FinishedParse(s, inp, s.recvSequence, SERVER_FINISHED_RULES, Flight5)
    // from the number before, which is 0xffff more in 16 bits
    case Flight5b => FinishedParse(s, inp, s.recvSequence + 0xffff, SERVER_FINISHED_RULES, Flight5b)
    case Flight6 => FinishedParse(s, inp, s.recvSequence + 0xffff, CLIENT_FINISHED_RULES, Flight6)
  }

  // ---------------------------------------------------------------- the loop of Run

  datatype Event =
    | Generate(drafts: seq<Draft>, freshCookie: seq<byte>)
    | GenerateFails
    | WritePackets
    | WriteFails
    | ReadRetransmit
    | ReadHandshake(inp: ParseInput)
    | TimerExpires
    | Cancel
    | Arrive(m: Message, number: uint16)

  predicate Enabled(s: Fsm, e: Event) {
    match e
    case Generate(ds, cookie) =>
      s.phase == Preparing && Generates(s.flight, s.cookie, ds) && |cookie| == COOKIE_LENGTH
    case GenerateFails => s.phase == Preparing
    case WritePackets => s.phase == Sending
    case WriteFails => s.phase == Sending
    case ReadRetransmit => s.phase == Waiting || s.phase == Finished
    case ReadHandshake(_) => s.phase == Waiting || s.phase == Finished
    case TimerExpires => s.phase == Waiting
    case Cancel => s.phase == Waiting || s.phase == Finished
    case Arrive(_, _) => true
  }

  function Enter(s: Fsm, phase: Phase): Fsm {
    s.(phase := phase, completed := s.completed || phase == Finished)
  }

  /** What `writePackets` adds to the sender's handshake cache. */
  function OwnItems(isClient: bool, sent: seq<Numbered>): seq<Item> {
    if sent == [] then []
    else [Transcript.Written(sent[0].m, sent[0].number, isClient)] + OwnItems(isClient, sent[1..])
  }

  function Written(s: Fsm): Fsm {
    Enter(s.(cache := s.cache + OwnItems(s.isClient, s.flights)), if IsLastSendFlight(s.flight) then Finished else Waiting)
  }

  /** What `wait` makes of a parser's decision. */
  function Settled(s: Fsm, d: Decision): Fsm {
    match d
    case Stay => s
    case Fatal => Enter(s, Errored)
    case Go(next) =>
      if IsLastRecvFlight(next) && s.flight == next then Enter(s, Finished)
      else Enter(s.(flight := next), Preparing)
  }

  function Waited(s: Fsm, inp: ParseInput): Fsm {
    var p := Parse(s.flight, ParseState(s.cache, s.skipHelloVerify, s.cookie, s.recvSequence), inp);
    Settled(s.(cookie := p.cookie, recvSequence := p.recvSequence), p.decision)
  }

  function Apply(s: Fsm, e: Event): Fsm
    requires Enabled(s, e)
  {
    match e
    case Generate(ds, cookie) => Prepared(s, ds, cookie)
    case GenerateFails => Enter(s.(flights := []), Errored)
    case WritePackets => Written(s)
    case WriteFails => Enter(s, Errored)
    case ReadRetransmit =>
      Enter(s, if s.phase == Waiting then Sending else if s.isClient then Finished else Sending)
    case ReadHandshake(inp) =>
      if s.phase == Waiting then Waited(s, inp) else Enter(s, if s.isClient then Finished else Sending)
    case TimerExpires => Enter(s, if s.retransmit then Sending else Waiting)
    case Cancel => Enter(s, Errored)
    case Arrive(m, number) => s.(cache := s.cache + [Transcript.Written(m, number, !s.isClient)])
  }

  function Run(s: Fsm, es: seq<Event>): Option<Fsm> {
    if es == [] then Some(s)
    else match Run(s, es[..|es| - 1])
      case None => None
      case Some(s1) => if Enabled(s1, es[|es| - 1]) then Some(Apply(s1, es[|es| - 1])) else None
  }
}
