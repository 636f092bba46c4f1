/** What every run of the ICE agent keeps. */
module IceAgentRuns {
  import opened Bits
  import opened IceAgents

  datatype Event =
    | AddLocalCandidate(c: Candidate)
    | AddRemoteCandidate(c: Candidate)
    | StartChecks(isControlling: bool)
    | ContactCandidates(clocks: Clocks)
    | InboundRequest(local: Candidate, from: Addr, useCandidate: bool, priority: uint32, clocks: Clocks)
    | InboundSuccess(local: Candidate, from: Addr, id: nat)
    | RestartAgent
    | ExpireRequest(k: nat)

  /** Checks and inbound messages come only after the start, and messages only on local candidates that are still there. */
  predicate Enabled(a: Agent, e: Event) {
    match e
    case AddLocalCandidate(_) => true
    case AddRemoteCandidate(_) => true
    case StartChecks(_) => !a.started
    case ContactCandidates(_) => a.started
    case InboundRequest(local, _, _, _, _) => a.started && local in Of(a.locals, local.id.addr.net)
    case InboundSuccess(local, _, _) => a.started && local in Of(a.locals, local.id.addr.net)
    case RestartAgent => true
    case ExpireRequest(k) => k < |a.pending|
  }

  function Apply(a: Agent, e: Event): Agent
    requires Enabled(a, e) && (a.selected.Some? ==> a.selected.value < |a.checklist|)
  {
    match e
    case AddLocalCandidate(c) => AddLocal(a, c)
    case AddRemoteCandidate(c) => AddRemote(a, c)
    case StartChecks(isControlling) => Start(a, isControlling)
    case ContactCandidates(clocks) => Contact(a, clocks)
    case InboundRequest(local, from, useCandidate, priority, clocks) =>
      HandleInboundRequest(a, local, from, useCandidate, priority, clocks)
    case InboundSuccess(local, from, id) => HandleInboundSuccess(a, local, from, id)
    case RestartAgent => Restart(a)
    case ExpireRequest(k) => a.(pending := Remove(a.pending, k))
  }

  // ---------------------------------------------------------------- the selected pair and the connection state

  predicate Selection(a: Agent) {
    && (a.selected.Some? <==> a.state == Connected || a.state == Disconnected)
    && (a.selected.Some? ==>
          && a.selected.value < |a.checklist|
          && a.checklist[a.selected.value].state == PairSucceeded
          && a.checklist[a.selected.value].nominated)
    && (a.state == New <==> !a.started)
  }

  lemma ContactKeeps(a: Agent, clocks: Clocks)
    requires Selection(a) && a.started
    ensures Selection(Contact(a, clocks))
  {
  }

  lemma SuccessKeeps(a: Agent, local: Candidate, from: Addr, id: nat)
    requires Selection(a) && a.started
    ensures Selection(HandleInboundSuccess(a, local, from, id))
  {
  }

  lemma AddRemoteKeeps(a: Agent, c: Candidate)
    requires Selection(a)
    ensures Selection(AddRemote(a, c)) && AddRemote(a, c).started == a.started
    ensures AddRemote(a, c).isControlling == a.isControlling
  {
  }

  lemma RequestControllingKeeps(a: Agent, local: Candidate, remote: Candidate, clocks: Clocks)
    requires Selection(a) && a.started
    ensures Selection(HandleRequestControlling(a, local, remote, clocks))
  {
  }

  lemma TakeKeeps(a: Agent, i: nat)
    requires Selection(a) && a.started && i < |a.checklist| && a.checklist[i].state == PairSucceeded
    ensures Selection(TakeNominated(a, i))
  {
  }

  lemma RequestControlledKeeps(a: Agent, local: Candidate, remote: Candidate, useCandidate: bool)
    requires Selection(a) && a.started
    ensures Selection(HandleRequestControlled(a, local, remote, useCandidate))
  {
    var found := FindPair(a.checklist, local.id, remote.id);
    var b := if found.None? then AddPair(a, local, remote) else a;
    var i := if found.None? then |a.checklist| else found.value;
    assert Selection(b);
    if useCandidate && b.checklist[i].state == PairSucceeded { TakeKeeps(b, i); }
  }

  lemma RequestKeeps(a: Agent, local: Candidate, from: Addr, useCandidate: bool, priority: uint32, clocks: Clocks)
    requires Selection(a) && a.started
    ensures Selection(HandleInboundRequest(a, local, from, useCandidate, priority, clocks))
  {
    if !(a.isControlling && useCandidate) {
      var remote, b := RequestRemote(a, local, from, priority), Knowing(a, local, from, priority);
      AddRemoteKeeps(a, remote);
      if a.isControlling {
        RequestControllingKeeps(b, local, remote, clocks);
      } else {
        RequestControlledKeeps(b, local, remote, useCandidate);
      }
    }
  }

  lemma StepSelects(a: Agent, e: Event)
    requires Selection(a) && Enabled(a, e)
    ensures Selection(Apply(a, e))
  {
    match e
    case ContactCandidates(clocks) => ContactKeeps(a, clocks);
    case InboundRequest(local, from, useCandidate, priority, clocks) =>
      RequestKeeps(a, local, from, useCandidate, priority, clocks);
    case InboundSuccess(local, from, id) => SuccessKeeps(a, local, from, id);
    case _ =>
  }

  function RunFrom(a: Agent, es: seq<Event>): (r: Option<Agent>)
    requires Selection(a)
    ensures r.Some? ==> Selection(r.value)
    decreases es
  {
    if es == [] then Some(a)
    else if !Enabled(a, es[0]) then None
    else
      StepSelects(a, es[0]);
      RunFrom(Apply(a, es[0]), es[1..])
  }

  function Run(config: Config, es: seq<Event>): Option<Agent> {
    RunFrom(Initial(config), es)
  }

  /** In every reachable state a selected pair exists exactly when the state is Connected or Disconnected, and it is then
      in the checklist, succeeded and nominated. */
  lemma SelectionFollowsState(config: Config, es: seq<Event>)
    requires Run(config, es).Some?
    ensures var a := Run(config, es).value;
            && (a.selected.Some? <==> a.state == Connected || a.state == Disconnected)
            && (a.selected.Some? ==> a.selected.value < |a.checklist|
                                     && a.checklist[a.selected.value].state == PairSucceeded
                                     && a.checklist[a.selected.value].nominated)
  {
    var a := RunFrom(Initial(config), es).value;
    assert Selection(a);
  }

  // ---------------------------------------------------------------- between failures and restarts

  /** The step empties the checklist: a restart, or a failure. */
  predicate Empties(a: Agent, e: Event)
    requires Selection(a) && Enabled(a, e)
  {
    e.RestartAgent? || (Apply(a, e).state == Failed && a.state != Failed)
  }

  /** A pair keeps its candidates and its role; once succeeded it stays so, and once nominated too. */
  predicate Grown(p: Pair, q: Pair) {
    && p.local == q.local && p.remote == q.remote && p.controlling == q.controlling
    && (p.state == PairSucceeded ==> q.state == PairSucceeded)
    && (p.nominated ==> q.nominated)
  }

  predicate Grows(a: Agent, b: Agent) {
    && |a.checklist| <= |b.checklist|
    && (forall i :: 0 <= i < |a.checklist| ==> Grown(a.checklist[i], b.checklist[i]))
    && b.config == a.config && (a.started ==> b.started && b.isControlling == a.isControlling)
  }

  lemma KeepSelectedGrows(a: Agent, clocks: Clocks)
    requires Selection(a) && a.started && !(KeepSelected(a, clocks).state == Failed && a.state != Failed)
    ensures Grows(a, KeepSelected(a, clocks))
  {
  }

  lemma PingGrows(a: Agent)
    ensures Grows(a, PingAllCandidates(a))
  {
  }

  lemma NominateGrows(a: Agent, i: nat)
    requires i < |a.checklist|
    ensures var p := a.checklist[i];
            Grows(a, NominatePair(a.(checklist := a.checklist[i := p.(nominated := true)]), p.local, p.remote))
  {
  }

  lemma ContactGrows(a: Agent, clocks: Clocks)
    requires Selection(a) && a.started && !(Contact(a, clocks).state == Failed && a.state != Failed)
    ensures Grows(a, Contact(a, clocks))
  {
    PingGrows(a);
    if a.state != Failed && a.selected.Some? && (a.isControlling || !a.config.lite) { KeepSelectedGrows(a, clocks); }
    var best := Best(a.checklist, true, |a.checklist|);
    if best.Some? { NominateGrows(a, best.value); }
  }

  lemma SuccessGrows(a: Agent, local: Candidate, from: Addr, id: nat)
    requires Selection(a) && a.started
    ensures Grows(a, HandleInboundSuccess(a, local, from, id))
  {
  }

  lemma GrowsOn(a: Agent, b: Agent, c: Agent)
    requires Grows(a, b) && Grows(b, c)
    ensures Grows(a, c)
  {
    forall i | 0 <= i < |a.checklist| ensures Grown(a.checklist[i], c.checklist[i]) {
      assert Grown(a.checklist[i], b.checklist[i]) && Grown(b.checklist[i], c.checklist[i]);
    }
  }

  lemma RequestControllingGrows(a: Agent, local: Candidate, remote: Candidate, clocks: Clocks)
    ensures Grows(a, HandleRequestControlling(a, local, remote, clocks))
  {
  }

  lemma TakeGrows(a: Agent, i: nat)
    requires i < |a.checklist| && (a.selected.Some? ==> a.selected.value < |a.checklist|)
    ensures Grows(a, TakeNominated(a, i))
  {
  }

  /** A use-candidate request to a controlled agent. */
  lemma NominationGrows(a: Agent, i: nat)
    requires Selection(a) && i < |a.checklist|
    ensures Grows(a, a.(checklist := a.checklist[i := a.checklist[i].(nominateOnBindingSuccess := true)]))
  {
  }

  lemma SendGrows(a: Agent, b: Agent, remote: Candidate)
    requires Grows(a, b)
    ensures Grows(a, SendBindingRequest(b, remote, false))
  {
  }

  lemma RequestControlledGrows(a: Agent, local: Candidate, remote: Candidate, useCandidate: bool)
    requires Selection(a)
    ensures Grows(a, HandleRequestControlled(a, local, remote, useCandidate))
  {
    var found := FindPair(a.checklist, local.id, remote.id);
    var b := if found.None? then AddPair(a, local, remote) else a;
    var i := if found.None? then |a.checklist| else found.value;
    assert Grows(a, b) && Selection(b);
    var c := b;
    if useCandidate {
      if b.checklist[i].state == PairSucceeded {
        TakeGrows(b, i);
        c := TakeNominated(b, i);
      } else {
        NominationGrows(b, i);
        c := b.(checklist := b.checklist[i := b.checklist[i].(nominateOnBindingSuccess := true)]);
      }
    }
    GrowsOn(a, b, c);
    SendGrows(a, c, remote);
  }

  lemma KnowingGrows(a: Agent, local: Candidate, from: Addr, priority: uint32)
    requires Selection(a)
    ensures var b := Knowing(a, local, from, priority);
            Selection(b) && Grows(a, b) && b.selected == a.selected && b.started == a.started && b.isControlling == a.isControlling
  {
    AddRemoteKeeps(a, RequestRemote(a, local, from, priority));
  }

  lemma RequestGrows(a: Agent, local: Candidate, from: Addr, useCandidate: bool, priority: uint32, clocks: Clocks)
    requires Selection(a) && a.started
    ensures Grows(a, HandleInboundRequest(a, local, from, useCandidate, priority, clocks))
  {
    if !(a.isControlling && useCandidate) {
      var remote, b := RequestRemote(a, local, from, priority), Knowing(a, local, from, priority);
      KnowingGrows(a, local, from, priority);
      if a.isControlling {
        RequestControllingGrows(b, local, remote, clocks);
        GrowsOn(a, b, HandleRequestControlling(b, local, remote, clocks));
      } else {
        RequestControlledGrows(b, local, remote, useCandidate);
        GrowsOn(a, b, HandleRequestControlled(b, local, remote, useCandidate));
      }
    }
  }

  lemma StepGrows(a: Agent, e: Event)
    requires Selection(a) && Enabled(a, e) && !Empties(a, e)
    ensures Grows(a, Apply(a, e))
  {
    match e
    case ContactCandidates(clocks) => ContactGrows(a, clocks);
    case InboundRequest(local, from, useCandidate, priority, clocks) =>
      RequestGrows(a, local, from, useCandidate, priority, clocks);
    case InboundSuccess(local, from, id) => SuccessGrows(a, local, from, id);
    case _ =>
  }

  /** A controlling agent keeps the pair it selected; a controlled one that minds priorities only moves up. */
  predicate Better(a: Agent, b: Agent)
    requires Selection(a) && Selection(b)
  {
    a.selected.Some? ==>
      && b.selected.Some?
      && (a.isControlling ==> b.selected == a.selected)
      && (!a.isControlling && NeedsToCheckPriority(a) ==>
            PriorityOf(a.checklist[a.selected.value]) <= PriorityOf(b.checklist[b.selected.value]))
  }

  lemma ContactBetter(a: Agent, clocks: Clocks)
    requires Selection(a) && a.started && !(Contact(a, clocks).state == Failed && a.state != Failed)
    ensures Selection(Contact(a, clocks)) && Better(a, Contact(a, clocks))
  {
    ContactKeeps(a, clocks);
  }

  lemma SuccessBetter(a: Agent, local: Candidate, from: Addr, id: nat)
    requires Selection(a) && a.started
    ensures Selection(HandleInboundSuccess(a, local, from, id)) && Better(a, HandleInboundSuccess(a, local, from, id))
  {
    SuccessKeeps(a, local, from, id);
  }

  lemma RequestControllingBetter(a: Agent, local: Candidate, remote: Candidate, clocks: Clocks)
    requires Selection(a) && a.started
    ensures Selection(HandleRequestControlling(a, local, remote, clocks))
    ensures Better(a, HandleRequestControlling(a, local, remote, clocks))
  {
    RequestControllingKeeps(a, local, remote, clocks);
  }

  lemma TakeBetter(a: Agent, i: nat)
    requires Selection(a) && a.started && !a.isControlling && i < |a.checklist| && a.checklist[i].state == PairSucceeded
    ensures Selection(TakeNominated(a, i)) && Better(a, TakeNominated(a, i))
  {
    TakeKeeps(a, i);
  }

  lemma RequestControlledBetter(a: Agent, local: Candidate, remote: Candidate, useCandidate: bool)
    requires Selection(a) && a.started && !a.isControlling
    ensures Selection(HandleRequestControlled(a, local, remote, useCandidate))
    ensures Better(a, HandleRequestControlled(a, local, remote, useCandidate))
  {
    RequestControlledKeeps(a, local, remote, useCandidate);
    var found := FindPair(a.checklist, local.id, remote.id);
    var b := if found.None? then AddPair(a, local, remote) else a;
    var i := if found.None? then |a.checklist| else found.value;
    assert Selection(b) && Better(a, b);
    if useCandidate && b.checklist[i].state == PairSucceeded { TakeBetter(b, i); }
  }

  lemma RequestBetter(a: Agent, local: Candidate, from: Addr, useCandidate: bool, priority: uint32, clocks: Clocks)
    requires Selection(a) && a.started
    ensures var b := HandleInboundRequest(a, local, from, useCandidate, priority, clocks); Selection(b) && Better(a, b)
  {
    RequestKeeps(a, local, from, useCandidate, priority, clocks);
    if !(a.isControlling && useCandidate) {
      var remote, b := RequestRemote(a, local, from, priority), Knowing(a, local, from, priority);
      KnowingGrows(a, local, from, priority);
      if a.isControlling {
        RequestControllingBetter(b, local, remote, clocks);
        BetterOn(a, b, HandleRequestControlling(b, local, remote, clocks));
      } else {
        RequestControlledBetter(b, local, remote, useCandidate);
        BetterOn(a, b, HandleRequestControlled(b, local, remote, useCandidate));
      }
    }
  }

  lemma StepBetter(a: Agent, e: Event)
    requires Selection(a) && Enabled(a, e) && !Empties(a, e)
    ensures Selection(Apply(a, e)) && Better(a, Apply(a, e))
  {
    StepSelects(a, e);
    match e
    case ContactCandidates(clocks) => ContactBetter(a, clocks);
    case InboundRequest(local, from, useCandidate, priority, clocks) =>
      RequestBetter(a, local, from, useCandidate, priority, clocks);
    case InboundSuccess(local, from, id) => SuccessBetter(a, local, from, id);
    case _ =>
  }

  predicate Undisturbed(a: Agent, es: seq<Event>)
    requires Selection(a) && RunFrom(a, es).Some?
    decreases es
  {
    es == [] || (StepSelects(a, es[0]); !Empties(a, es[0]) && Undisturbed(Apply(a, es[0]), es[1..]))
  }

  lemma BetterOn(a: Agent, b: Agent, c: Agent)
    requires Selection(a) && Selection(b) && Selection(c) && Grows(a, b) && Better(a, b) && Better(b, c)
    ensures Better(a, c)
  {
  }

  /** Over every stretch of a run without a failure or a restart, no pair leaves the succeeded state, a controlling
      agent's selected pair stays the same once set, and the priority of a controlled agent's never decreases unless it
      is lite and told not to mind. */
  lemma {:induction false} SelectionOnlyImproves(a: Agent, es: seq<Event>)
    requires Selection(a) && RunFrom(a, es).Some? && Undisturbed(a, es)
    ensures Grows(a, RunFrom(a, es).value) && Better(a, RunFrom(a, es).value)
    decreases es
  {
    if es != [] {
      var b := Apply(a, es[0]);
      StepGrows(a, es[0]);
      StepBetter(a, es[0]);
      SelectionOnlyImproves(b, es[1..]);
      GrowsOn(a, b, RunFrom(b, es[1..]).value);
      BetterOn(a, b, RunFrom(b, es[1..]).value);
    }
  }
}
