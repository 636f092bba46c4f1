/** The ICE agent's checklist, nomination, selection and connection state (RFC 8445). The agent runs all of this on one
    task loop, so each handler is one step. Candidates are UDP candidates. */
module IceAgents {
  import opened Bits
  import opened PairPriority

  datatype NetworkType = UDP4 | UDP6

  /** An address and port of one family. */
  datatype Addr = Addr(net: NetworkType, host: nat)

  /** What makes two candidates equal; the network type is the family of the address. */
  datatype Identity = Identity(typ: CandidateType, addr: Addr, related: nat)

  datatype Candidate = Candidate(id: Identity, priority: uint32)

  datatype PairState = PairWaiting | PairInProgress | PairFailed | PairSucceeded

  datatype Pair = Pair(local: Candidate, remote: Candidate, controlling: bool, requests: uint16, state: PairState,
                       nominated: bool, nominateOnBindingSuccess: bool)

  datatype ConnectionState = New | Checking | Connected | Disconnected | Failed

  datatype BindingRequest = BindingRequest(id: nat, destination: Addr, isUseCandidate: bool)

  datatype Config = Config(lite: bool, enableUseCandidateCheckPriority: bool, maxBindingRequests: uint16)

  /** A pair is known by its place in the checklist, which only grows until it is emptied. `nominatedPair` is the
      controlling selector's; it only keeps the two candidates. `nextId` numbers the transactions. */
  datatype Agent = Agent(
    config: Config, started: bool, isControlling: bool, nominatedPair: Option<(Candidate, Candidate)>,
    locals: map<NetworkType, seq<Candidate>>, remotes: map<NetworkType, seq<Candidate>>,
    checklist: seq<Pair>, pending: seq<BindingRequest>, nextId: nat, selected: Option<nat>, state: ConnectionState)

  function Initial(config: Config): Agent {
    Agent(config, false, false, None, map[], map[], [], [], 0, None, New)
  }

  function Of(m: map<NetworkType, seq<Candidate>>, net: NetworkType): seq<Candidate> {
    if net in m then m[net] else []
  }

  predicate Has(cs: seq<Candidate>, id: Identity) {
    exists i :: 0 <= i < |cs| && cs[i].id == id
  }

  // ---------------------------------------------------------------- pairs

  function PriorityOf(p: Pair): uint64 {
    if p.controlling then PairPriorityOf(p.local.priority, p.remote.priority)
    else PairPriorityOf(p.remote.priority, p.local.priority)
  }

  predicate IsPair(p: Pair, local: Identity, remote: Identity) {
    p.local.id == local && p.remote.id == remote
  }

  /** The first pair of these candidates. */
  function FindPair(checklist: seq<Pair>, local: Identity, remote: Identity): (r: Option<nat>)
    ensures r.Some? ==> r.value < |checklist| && IsPair(checklist[r.value], local, remote)
    ensures r.None? ==> forall i :: 0 <= i < |checklist| ==> !IsPair(checklist[i], local, remote)
  {
    if checklist == [] then None
    else
      var n := |checklist| - 1;
      match FindPair(checklist[..n], local, remote)
      case Some(i) => Some(i)
      case None => if IsPair(checklist[n], local, remote) then Some(n) else None
  }

  function NewPair(a: Agent, local: Candidate, remote: Candidate): Pair {
    Pair(local, remote, a.isControlling, 0, PairWaiting, false, false)
  }

  function AddPair(a: Agent, local: Candidate, remote: Candidate): Agent {
    a.(checklist := a.checklist + [NewPair(a, local, remote)])
  }

  /** A pair with each of these local candidates, in their order. */
  function PairsWithRemote(a: Agent, locals: seq<Candidate>, remote: Candidate): (ps: seq<Pair>)
    ensures |ps| == |locals| && forall i :: 0 <= i < |ps| ==> ps[i] == NewPair(a, locals[i], remote)
  {
    if locals == [] then []
    else PairsWithRemote(a, locals[..|locals| - 1], remote) + [NewPair(a, locals[|locals| - 1], remote)]
  }

  function PairsWithLocal(a: Agent, local: Candidate, remotes: seq<Candidate>): (ps: seq<Pair>)
    ensures |ps| == |remotes| && forall i :: 0 <= i < |ps| ==> ps[i] == NewPair(a, local, remotes[i])
  {
    if remotes == [] then []
    else PairsWithLocal(a, local, remotes[..|remotes| - 1]) + [NewPair(a, local, remotes[|remotes| - 1])]
  }

  function AddRemote(a: Agent, c: Candidate): Agent {
    if Has(Of(a.remotes, c.id.addr.net), c.id) then a
    else
      a.(remotes := a.remotes[c.id.addr.net := Of(a.remotes, c.id.addr.net) + [c]],
         checklist := a.checklist + PairsWithRemote(a, Of(a.locals, c.id.addr.net), c))
  }

  function AddLocal(a: Agent, c: Candidate): Agent {
    if Has(Of(a.locals, c.id.addr.net), c.id) then a
    else
      a.(locals := a.locals[c.id.addr.net := Of(a.locals, c.id.addr.net) + [c]],
         checklist := a.checklist + PairsWithLocal(a, c, Of(a.remotes, c.id.addr.net)))
  }

  // ---------------------------------------------------------------- connection state and selection

  /** Forgets pairs, requests, candidates and the selection. */
  function Released(a: Agent): Agent {
    a.(checklist := [], pending := [], selected := None, locals := map[], remotes := map[])
  }

  function UpdateConnectionState(a: Agent, state: ConnectionState): Agent {
    if a.state == state then a
    else (if state == Failed then Released(a) else a).(state := state)
  }

  function SetSelectedPair(a: Agent, i: nat): Agent
    requires i < |a.checklist|
  {
    UpdateConnectionState(
      a.(checklist := a.checklist[i := a.checklist[i].(nominated := true)], selected := Some(i)), Connected)
  }

  /** How long ago the selected remote candidate was last heard, against the two timeouts. */
  datatype Verdict = Gone | Silent | Alive

  function ValidateSelectedPair(a: Agent, v: Verdict): Agent {
    if a.selected.None? then a
    else UpdateConnectionState(a, match v case Gone => Failed case Silent => Disconnected case Alive => Connected)
  }

  // ---------------------------------------------------------------- requests

  function SendBindingRequest(a: Agent, remote: Candidate, useCandidate: bool): Agent {
    a.(pending := a.pending + [BindingRequest(a.nextId, remote.id.addr, useCandidate)], nextId := a.nextId + 1)
  }

  /** One pair's turn in `pingAllCandidates`: what becomes of it, and whether it is pinged. */
  function Pinged(p: Pair, max: uint16): (Pair, bool) {
    if p.state != PairWaiting && p.state != PairInProgress then (p, false)
    else if p.requests > max then (p.(state := PairFailed), false)
    else (p.(state := PairInProgress, requests := (p.requests + 1) % 0x1_0000), true)
  }

  /** After the turns of the first `n` pairs. */
  function PingFirst(a: Agent, n: nat): (b: Agent)
    requires n <= |a.checklist|
    ensures |b.checklist| == |a.checklist|
    ensures b == a.(checklist := b.checklist, pending := b.pending, nextId := b.nextId)
    ensures forall i :: 0 <= i < |a.checklist| ==>
              b.checklist[i] == if i < n then Pinged(a.checklist[i], a.config.maxBindingRequests).0 else a.checklist[i]
  {
    if n == 0 then a
    else
      var b := PingFirst(a, n - 1);
      var (p, ping) := Pinged(b.checklist[n - 1], b.config.maxBindingRequests);
      var c := b.(checklist := b.checklist[n - 1 := p]);
      if ping then SendBindingRequest(c, p.remote, false) else c
  }

  function PingAllCandidates(a: Agent): Agent {
    PingFirst(a, |a.checklist|)
  }

  // ---------------------------------------------------------------- best pairs

  predicate Available(p: Pair) { p.state != PairFailed }
  predicate IsValid(p: Pair) { p.state == PairSucceeded }

  /** The first pair of highest priority among those of the first `n` that qualify. */
  function Best(checklist: seq<Pair>, valid: bool, n: nat): (r: Option<nat>)
    requires n <= |checklist|
    ensures r.Some? ==> r.value < n
  {
    if n == 0 then None
    else
      var p := checklist[n - 1];
      var best := Best(checklist, valid, n - 1);
      if !(if valid then IsValid(p) else Available(p)) then best
      else if best.None? || PriorityOf(checklist[best.value]) < PriorityOf(p) then Some(n - 1)
      else best
  }

  // ---------------------------------------------------------------- the selectors

  function NominatePair(a: Agent, local: Candidate, remote: Candidate): Agent {
    SendBindingRequest(a.(nominatedPair := Some((local, remote))), remote, true)
  }

  function CheckKeepalive(a: Agent, due: bool): Agent
    requires a.selected.Some? ==> a.selected.value < |a.checklist|
  {
    if a.selected.Some? && due then SendBindingRequest(a, a.checklist[a.selected.value].remote, false) else a
  }

  /** What the clocks say at a connectivity check: whether checking has taken too long, whether the selected pair is
      still heard, whether a keepalive is due, and which types of candidates have waited long enough. */
  datatype Clocks = Clocks(checkingOverdue: bool, verdict: Verdict, keepaliveDue: bool, nominatable: set<CandidateType>)

  predicate IsNominatable(c: Candidate, clocks: Clocks) {
    c.id.typ in clocks.nominatable
  }

  function KeepSelected(a: Agent, clocks: Clocks): Agent
    requires a.selected.Some? ==> a.selected.value < |a.checklist|
  {
    var b := ValidateSelectedPair(a, clocks.verdict);
    if a.selected.Some? then CheckKeepalive(b, clocks.keepaliveDue) else b
  }

  function ContactControlling(a: Agent, clocks: Clocks): Agent
    requires a.selected.Some? ==> a.selected.value < |a.checklist|
  {
    if a.selected.Some? then KeepSelected(a, clocks)
    else match a.nominatedPair
      case Some((local, remote)) => SendBindingRequest(a, remote, true)
      case None =>
        var best := Best(a.checklist, true, |a.checklist|);
        if best.Some? && IsNominatable(a.checklist[best.value].local, clocks)
           && IsNominatable(a.checklist[best.value].remote, clocks) then
          var p := a.checklist[best.value];
          NominatePair(a.(checklist := a.checklist[best.value := p.(nominated := true)]), p.local, p.remote)
        else PingAllCandidates(a)
  }

  function ContactControlled(a: Agent, clocks: Clocks): Agent
    requires a.selected.Some? ==> a.selected.value < |a.checklist|
  {
    if a.config.lite then ValidateSelectedPair(a, clocks.verdict)
    else if a.selected.Some? then KeepSelected(a, clocks)
    else PingAllCandidates(a)
  }

  function Contact(a: Agent, clocks: Clocks): Agent
    requires a.selected.Some? ==> a.selected.value < |a.checklist|
  {
    if a.state == Failed then a
    else if a.state == Checking && clocks.checkingOverdue then UpdateConnectionState(a, Failed)
    else if a.isControlling then ContactControlling(a, clocks)
    else ContactControlled(a, clocks)
  }

  predicate NeedsToCheckPriority(a: Agent) {
    !a.config.lite || a.config.enableUseCandidateCheckPriority
  }

  /** A controlled agent takes a nominated pair unless it has a better one. */
  function TakeNominated(a: Agent, i: nat): Agent
    requires i < |a.checklist| && (a.selected.Some? ==> a.selected.value < |a.checklist|)
  {
    if a.selected.None? ||
       (a.selected.value != i &&
        (!NeedsToCheckPriority(a) || PriorityOf(a.checklist[a.selected.value]) <= PriorityOf(a.checklist[i])))
    then SetSelectedPair(a, i)
    else a
  }

  // ---------------------------------------------------------------- inbound messages

  function FindRemote(remotes: seq<Candidate>, from: Addr): (r: Option<Candidate>)
    ensures r.Some? ==> r.value in remotes && r.value.id.addr == from
    ensures r.None? ==> forall i :: 0 <= i < |remotes| ==> remotes[i].id.addr != from
  {
    if remotes == [] then None
    else
      var n := |remotes| - 1;
      match FindRemote(remotes[..n], from)
      case Some(c) => Some(c)
      case None => if remotes[n].id.addr == from then Some(remotes[n]) else None
  }

  function FindPending(pending: seq<BindingRequest>, id: nat): (r: Option<nat>)
    ensures r.Some? ==> r.value < |pending| && pending[r.value].id == id
  {
    if pending == [] then None
    else
      var n := |pending| - 1;
      match FindPending(pending[..n], id)
      case Some(i) => Some(i)
      case None => if pending[n].id == id then Some(n) else None
  }

  function Remove(pending: seq<BindingRequest>, i: nat): seq<BindingRequest>
    requires i < |pending|
  {
    pending[..i] + pending[i + 1..]
  }

  function HandleSuccess(a: Agent, local: Candidate, remote: Candidate, from: Addr, id: nat): Agent
    requires a.selected.Some? ==> a.selected.value < |a.checklist|
  {
    match FindPending(a.pending, id)
    case None => a
    case Some(k) =>
      var request := a.pending[k];
      var b := a.(pending := Remove(a.pending, k));
      if request.destination != from then b
      else match FindPair(b.checklist, local.id, remote.id)
        case None => b
        case Some(i) =>
          var c := b.(checklist := b.checklist[i := b.checklist[i].(state := PairSucceeded)]);
          if c.isControlling then (if request.isUseCandidate && c.selected.None? then SetSelectedPair(c, i) else c)
          else if c.checklist[i].nominateOnBindingSuccess then TakeNominated(c, i)
          else c
  }

  function HandleInboundSuccess(a: Agent, local: Candidate, from: Addr, id: nat): Agent
    requires a.selected.Some? ==> a.selected.value < |a.checklist|
  {
    match FindRemote(Of(a.remotes, local.id.addr.net), from)
    case None => a
    case Some(remote) => HandleSuccess(a, local, remote, from, id)
  }

  function HandleRequestControlling(a: Agent, local: Candidate, remote: Candidate, clocks: Clocks): Agent {
    match FindPair(a.checklist, local.id, remote.id)
    case None => AddPair(a, local, remote)
    case Some(i) =>
      var p := a.checklist[i];
      if p.state == PairSucceeded && a.nominatedPair.None? && a.selected.None? then
        var best := Best(a.checklist, false, |a.checklist|);
        if best.Some? && IsPair(a.checklist[best.value], p.local.id, p.remote.id)
           && IsNominatable(p.local, clocks) && IsNominatable(p.remote, clocks)
        then NominatePair(a, p.local, p.remote)
        else a
      else a
  }

  function HandleRequestControlled(a: Agent, local: Candidate, remote: Candidate, useCandidate: bool): Agent
    requires a.selected.Some? ==> a.selected.value < |a.checklist|
  {
    var found := FindPair(a.checklist, local.id, remote.id);
    var b := if found.None? then AddPair(a, local, remote) else a;
    var i := if found.None? then |a.checklist| else found.value;
    var c :=
      if !useCandidate then b
      else if b.checklist[i].state == PairSucceeded then TakeNominated(b, i)
      else b.(checklist := b.checklist[i := b.checklist[i].(nominateOnBindingSuccess := true)]);
    SendBindingRequest(c, remote, false)
  }

  /** The remote candidate of a request: an address that is none of the known ones of the local candidate's family makes
      a peer-reflexive one. */
  function RequestRemote(a: Agent, local: Candidate, from: Addr, priority: uint32): Candidate {
    var known := FindRemote(Of(a.remotes, local.id.addr.net), from);
    if known.Some? then known.value else Candidate(Identity(PeerReflexive, from, 0), priority)
  }

  /** The agent once it knows that candidate. */
  function Knowing(a: Agent, local: Candidate, from: Addr, priority: uint32): Agent {
    if FindRemote(Of(a.remotes, local.id.addr.net), from).Some? then a
    else AddRemote(a, RequestRemote(a, local, from, priority))
  }

  function HandleInboundRequest(a: Agent, local: Candidate, from: Addr, useCandidate: bool, priority: uint32,
                                clocks: Clocks): Agent
    requires a.selected.Some? ==> a.selected.value < |a.checklist|
  {
    if a.isControlling && useCandidate then a
    else
      var remote, b := RequestRemote(a, local, from, priority), Knowing(a, local, from, priority);
      if a.isControlling then HandleRequestControlling(b, local, remote, clocks)
      else HandleRequestControlled(b, local, remote, useCandidate)
  }

  // ---------------------------------------------------------------- start and restart

  function Start(a: Agent, isControlling: bool): Agent {
    UpdateConnectionState(a.(started := true, isControlling := isControlling, nominatedPair := None), Checking)
  }

  function Restart(a: Agent): Agent {
    var b := Released(a).(nominatedPair := if a.started then None else a.nominatedPair);
    if a.state != New then UpdateConnectionState(b, Checking) else b
  }
}
