/** The ICE agent as the object it is. Every handler that the task loop runs keeps the selection in step with the
    connection state, and keeps what the checklist has gained. */
module IceAgentObjects {
  import opened Bits
  import opened PairPriority
  import A = IceAgents
  import R = IceAgentRuns
  import C = IceChecklist

  /** No pair leaves its place or the succeeded state, a controlling agent keeps the pair it selected, and a controlled one
      that minds priorities only moves up. */
  predicate Kept(a: A.Agent, b: A.Agent)
    requires R.Selection(a) && R.Selection(b)
  {
    R.Grows(a, b) && R.Better(a, b)
  }

  lemma StepMeans(a: A.Agent, e: R.Event)
    requires R.Selection(a) && R.Enabled(a, e)
    ensures R.Selection(R.Apply(a, e))
    ensures R.Empties(a, e) || Kept(a, R.Apply(a, e))
    ensures C.Exact(a) && !C.CrossFamily(a, e) ==> C.Exact(R.Apply(a, e))
  {
    R.StepSelects(a, e);
    if !R.Empties(a, e) {
      R.StepGrows(a, e);
      R.StepBetter(a, e);
    }
    if C.Exact(a) && !C.CrossFamily(a, e) { C.StepExact(a, e); }
  }

  class IceAgent {
    const config: A.Config
    var started: bool
    var isControlling: bool
    var nominatedPair: Option<(A.Candidate, A.Candidate)>
    var locals: map<A.NetworkType, seq<A.Candidate>>
    var remotes: map<A.NetworkType, seq<A.Candidate>>
    var checklist: seq<A.Pair>
    var pending: seq<A.BindingRequest>
    var nextId: nat
    var selected: Option<nat>
    var state: A.ConnectionState

    function View(): A.Agent
      reads this
    {
      A.Agent(config, started, isControlling, nominatedPair, locals, remotes, checklist, pending, nextId, selected, state)
    }

    predicate InRange()
      reads this
    {
      selected.Some? ==> selected.value < |checklist|
    }

    /** A pair is selected exactly when the agent is connected or disconnected, and it is then in the checklist, succeeded
        and nominated; and the agent is new exactly until it is started. */
    ghost predicate Valid()
      reads this
    {
      R.Selection(View())
    }

    constructor (config: A.Config)
      ensures Valid() && View() == A.Initial(config)
    {
      this.config := config;
      started, isControlling, nominatedPair := false, false, None;
      locals, remotes, checklist, pending, nextId := map[], map[], [], [], 0;
      selected, state := None, A.New;
    }

    method UpdateConnectionState(newState: A.ConnectionState)
      modifies this
      ensures View() == A.UpdateConnectionState(old(View()), newState)
    {
      if state != newState {
        if newState == A.Failed {
          checklist := [];
          pending := [];
          selected := None;
          locals, remotes := map[], map[];
        }
        state := newState;
      }
    }

    method SetSelectedPair(i: nat)
      requires i < |checklist|
      modifies this
      ensures View() == A.SetSelectedPair(old(View()), i)
    {
      checklist := checklist[i := checklist[i].(nominated := true)];
      selected := Some(i);
      UpdateConnectionState(A.Connected);
    }

    method SendBindingRequest(remote: A.Candidate, useCandidate: bool)
      modifies this
      ensures View() == A.SendBindingRequest(old(View()), remote, useCandidate)
    {
      pending := pending + [A.BindingRequest(nextId, remote.id.addr, useCandidate)];
      nextId := nextId + 1;
    }

    method PingAllCandidates()
      modifies this
      ensures View() == A.PingAllCandidates(old(View()))
    {
      for n := 0 to |checklist|
        invariant |checklist| == old(|checklist|) && View() == A.PingFirst(old(View()), n)
      {
        PingPair(n);
      }
    }

    /** One turn of the loop. */
    method PingPair(n: nat)
      requires n < |checklist|
      modifies this
      ensures var (p, ping) := A.Pinged(old(checklist[n]), config.maxBindingRequests);
              var b := old(View()).(checklist := old(checklist)[n := p]);
              View() == if ping then A.SendBindingRequest(b, p.remote, false) else b
    {
      if checklist[n].state == A.PairWaiting {
        checklist := checklist[n := checklist[n].(state := A.PairInProgress)];
      } else if checklist[n].state != A.PairInProgress {
        return;
      }
      if checklist[n].requests > config.maxBindingRequests {
        checklist := checklist[n := checklist[n].(state := A.PairFailed)];
      } else {
        SendBindingRequest(checklist[n].remote, false);
        checklist := checklist[n := checklist[n].(requests := (checklist[n].requests + 1) % 0x1_0000)];
      }
    }

    method GetBestAvailableCandidatePair() returns (best: Option<nat>)
      ensures best == A.Best(checklist, false, |checklist|)
    {
      best := None;
      for n := 0 to |checklist|
        invariant best == A.Best(checklist, false, n)
      {
        var p := checklist[n];
        if p.state == A.PairFailed {
          continue;
        }
        if best.None? {
          best := Some(n);
        } else if A.PriorityOf(checklist[best.value]) < A.PriorityOf(p) {
          best := Some(n);
        }
      }
    }

    method GetBestValidCandidatePair() returns (best: Option<nat>)
      ensures best == A.Best(checklist, true, |checklist|)
    {
      best := None;
      for n := 0 to |checklist|
        invariant best == A.Best(checklist, true, n)
      {
        var p := checklist[n];
        if p.state != A.PairSucceeded {
          continue;
        }
        if best.None? {
          best := Some(n);
        } else if A.PriorityOf(checklist[best.value]) < A.PriorityOf(p) {
          best := Some(n);
        }
      }
    }

    method FindPair(local: A.Identity, remote: A.Identity) returns (r: Option<nat>)
      ensures r == A.FindPair(checklist, local, remote)
    {
      assert checklist[..|checklist|] == checklist;
      for n := 0 to |checklist|
        invariant A.FindPair(checklist[..n], local, remote) == None
      {
        assert checklist[..n + 1][..n] == checklist[..n];
        if A.IsPair(checklist[n], local, remote) {
          FoundEarly(checklist, n + 1, local, remote);
          return Some(n);
        }
      }
      return None;
    }

    lemma {:induction false} FoundEarly(cs: seq<A.Pair>, n: nat, local: A.Identity, remote: A.Identity)
      requires n <= |cs| && A.FindPair(cs[..n], local, remote).Some?
      ensures A.FindPair(cs, local, remote) == A.FindPair(cs[..n], local, remote)
      decreases |cs| - n
    {
      if n < |cs| {
        assert cs[..n + 1][..n] == cs[..n];
        FoundEarly(cs, n + 1, local, remote);
      } else {
        assert cs[..n] == cs;
      }
    }

    method AddPair(local: A.Candidate, remote: A.Candidate) returns (i: nat)
      modifies this
      ensures View() == A.AddPair(old(View()), local, remote) && i == old(|checklist|)
    {
      i := |checklist|;
      checklist := checklist + [A.Pair(local, remote, isControlling, 0, A.PairWaiting, false, false)];
    }

    method Contains(cs: seq<A.Candidate>, id: A.Identity) returns (found: bool)
      ensures found == A.Has(cs, id)
    {
      for i := 0 to |cs|
        invariant !A.Has(cs[..i], id)
      {
        if cs[i].id == id {
          return true;
        }
      }
      return false;
    }

    method AddRemoteCandidate(c: A.Candidate)
      requires Valid()
      modifies this
      ensures Valid() && View() == A.AddRemote(old(View()), c)
      ensures Kept(old(View()), View()) && (C.Exact(old(View())) ==> C.Exact(View()))
    {
      StepMeans(View(), R.AddRemoteCandidate(c));
      PairRemote(c);
    }

    method PairRemote(c: A.Candidate)
      modifies this
      ensures View() == A.AddRemote(old(View()), c)
    {
      var net := c.id.addr.net;
      var known := Contains(A.Of(remotes, net), c.id);
      if known {
        return;
      }
      remotes := remotes[net := A.Of(remotes, net) + [c]];
      var ls := A.Of(locals, net);
      assert ls[..|ls|] == ls;
      ghost var before := checklist;
      for i := 0 to |ls|
        invariant View() == old(View()).(remotes := remotes, checklist := checklist)
        invariant remotes == old(remotes)[net := A.Of(old(remotes), net) + [c]]
        invariant checklist == before + A.PairsWithRemote(old(View()), ls[..i], c)
      {
        assert ls[..i + 1][..i] == ls[..i];
        var _ := AddPair(ls[i], c);
      }
    }

    method AddCandidate(c: A.Candidate)
      requires Valid()
      modifies this
      ensures Valid() && View() == A.AddLocal(old(View()), c)
      ensures Kept(old(View()), View()) && (C.Exact(old(View())) ==> C.Exact(View()))
    {
      StepMeans(View(), R.AddLocalCandidate(c));
      PairLocal(c);
    }

    method PairLocal(c: A.Candidate)
      modifies this
      ensures View() == A.AddLocal(old(View()), c)
    {
      var net := c.id.addr.net;
      var known := Contains(A.Of(locals, net), c.id);
      if known {
        return;
      }
      locals := locals[net := A.Of(locals, net) + [c]];
      var rs := A.Of(remotes, net);
      assert rs[..|rs|] == rs;
      ghost var before := checklist;
      for i := 0 to |rs|
        invariant View() == old(View()).(locals := locals, checklist := checklist)
        invariant locals == old(locals)[net := A.Of(old(locals), net) + [c]]
        invariant checklist == before + A.PairsWithLocal(old(View()), c, rs[..i])
      {
        assert rs[..i + 1][..i] == rs[..i];
        var _ := AddPair(c, rs[i]);
      }
    }

    method ValidateSelectedPair(v: A.Verdict)
      modifies this
      ensures View() == A.ValidateSelectedPair(old(View()), v)
    {
      if selected.None? {
        return;
      }
      match v
      case Gone => UpdateConnectionState(A.Failed);
      case Silent => UpdateConnectionState(A.Disconnected);
      case Alive => UpdateConnectionState(A.Connected);
    }

    method CheckKeepalive(due: bool)
      requires InRange()
      modifies this
      ensures View() == A.CheckKeepalive(old(View()), due)
    {
      if selected.None? {
        return;
      }
      if due {
        SendBindingRequest(checklist[selected.value].remote, false);
      }
    }

    method KeepSelected(clocks: A.Clocks)
      requires InRange() && selected.Some?
      modifies this
      ensures View() == A.KeepSelected(old(View()), clocks)
    {
      ValidateSelectedPair(clocks.verdict);
      CheckKeepalive(clocks.keepaliveDue);
    }

    method NominatePair(local: A.Candidate, remote: A.Candidate)
      modifies this
      ensures View() == A.NominatePair(old(View()), local, remote)
    {
      nominatedPair := Some((local, remote));
      SendBindingRequest(remote, true);
    }

    method ContactControlling(clocks: A.Clocks)
      requires InRange()
      modifies this
      ensures View() == A.ContactControlling(old(View()), clocks)
    {
      if selected.Some? {
        KeepSelected(clocks);
        return;
      }
      if nominatedPair.Some? {
        SendBindingRequest(nominatedPair.value.1, true);
        return;
      }
      var best := GetBestValidCandidatePair();
      if best.Some? {
        var p := checklist[best.value];
        if A.IsNominatable(p.local, clocks) && A.IsNominatable(p.remote, clocks) {
          checklist := checklist[best.value := p.(nominated := true)];
          NominatePair(p.local, p.remote);
          return;
        }
      }
      PingAllCandidates();
    }

    method ContactControlled(clocks: A.Clocks)
      requires InRange()
      modifies this
      ensures View() == A.ContactControlled(old(View()), clocks)
    {
      if config.lite {
        ValidateSelectedPair(clocks.verdict);
        return;
      }
      if selected.Some? {
        KeepSelected(clocks);
      } else {
        PingAllCandidates();
      }
    }

    /** One run of the connectivity-check task; it fails the agent or keeps what there is. */
    method Contact(clocks: A.Clocks)
      requires Valid() && started
      modifies this
      ensures Valid() && View() == A.Contact(old(View()), clocks)
      ensures if state == A.Failed && old(state) != A.Failed then checklist == [] && pending == [] && selected == None
              else Kept(old(View()), View())
      ensures C.Exact(old(View())) ==> C.Exact(View())
    {
      StepMeans(View(), R.ContactCandidates(clocks));
      FailureEmpties(View(), clocks);
      ContactByState(clocks);
    }

    method ContactByState(clocks: A.Clocks)
      requires InRange()
      modifies this
      ensures View() == A.Contact(old(View()), clocks)
    {
      if state == A.Failed {
        return;
      }
      if state == A.Checking && clocks.checkingOverdue {
        UpdateConnectionState(A.Failed);
        return;
      }
      if isControlling {
        ContactControlling(clocks);
      } else {
        ContactControlled(clocks);
      }
    }

    method TakeNominated(i: nat)
      requires InRange() && i < |checklist|
      modifies this
      ensures View() == A.TakeNominated(old(View()), i)
    {
      var mindPriority := !config.lite || config.enableUseCandidateCheckPriority;
      if selected.None? ||
         (selected.value != i &&
          (!mindPriority || A.PriorityOf(checklist[selected.value]) <= A.PriorityOf(checklist[i]))) {
        SetSelectedPair(i);
      }
    }

    method FindRemoteCandidate(net: A.NetworkType, from: A.Addr) returns (r: Option<A.Candidate>)
      ensures r == A.FindRemote(A.Of(remotes, net), from)
    {
      var cs := A.Of(remotes, net);
      assert cs[..|cs|] == cs;
      for n := 0 to |cs|
        invariant A.FindRemote(cs[..n], from) == None
      {
        assert cs[..n + 1][..n] == cs[..n];
        if cs[n].id.addr == from {
          RemoteFoundEarly(cs, n + 1, from);
          return Some(cs[n]);
        }
      }
      return None;
    }

    lemma {:induction false} RemoteFoundEarly(cs: seq<A.Candidate>, n: nat, from: A.Addr)
      requires n <= |cs| && A.FindRemote(cs[..n], from).Some?
      ensures A.FindRemote(cs, from) == A.FindRemote(cs[..n], from)
      decreases |cs| - n
    {
      if n < |cs| {
        assert cs[..n + 1][..n] == cs[..n];
        RemoteFoundEarly(cs, n + 1, from);
      } else {
        assert cs[..n] == cs;
      }
    }

    /** Finds a pending request and takes it off the list. */
    method HandleInboundBindingSuccess(id: nat) returns (request: Option<A.BindingRequest>)
      modifies this
      ensures match A.FindPending(old(pending), id)
              case None => request == None && View() == old(View())
              case Some(k) => request == Some(old(pending)[k]) && View() == old(View()).(pending := A.Remove(old(pending), k))
    {
      assert pending[..|pending|] == pending;
      for n := 0 to |pending|
        invariant A.FindPending(pending[..n], id) == None && View() == old(View())
      {
        assert pending[..n + 1][..n] == pending[..n];
        if pending[n].id == id {
          PendingFoundEarly(pending, n + 1, id);
          request := Some(pending[n]);
          pending := pending[..n] + pending[n + 1..];
          return;
        }
      }
      return None;
    }

    lemma {:induction false} PendingFoundEarly(ps: seq<A.BindingRequest>, n: nat, id: nat)
      requires n <= |ps| && A.FindPending(ps[..n], id).Some?
      ensures A.FindPending(ps, id) == A.FindPending(ps[..n], id)
      decreases |ps| - n
    {
      if n < |ps| {
        assert ps[..n + 1][..n] == ps[..n];
        PendingFoundEarly(ps, n + 1, id);
      } else {
        assert ps[..n] == ps;
      }
    }

    method HandleSuccess(local: A.Candidate, remote: A.Candidate, from: A.Addr, id: nat)
      requires InRange()
      modifies this
      ensures View() == A.HandleSuccess(old(View()), local, remote, from, id)
    {
      var request := HandleInboundBindingSuccess(id);
      if request.None? {
        return;
      }
      if request.value.destination != from {
        return;
      }
      var found := FindPair(local.id, remote.id);
      if found.None? {
        return;
      }
      var i := found.value;
      checklist := checklist[i := checklist[i].(state := A.PairSucceeded)];
      if isControlling {
        if request.value.isUseCandidate && selected.None? {
          SetSelectedPair(i);
        }
      } else if checklist[i].nominateOnBindingSuccess {
        TakeNominated(i);
      }
    }

    /** A success response takes no more than its own request off the list, and never fails the agent. */
    method HandleInboundSuccess(local: A.Candidate, from: A.Addr, id: nat)
      requires Valid() && started && local in A.Of(locals, local.id.addr.net)
      modifies this
      ensures Valid() && View() == A.HandleInboundSuccess(old(View()), local, from, id)
      ensures Kept(old(View()), View()) && |checklist| == old(|checklist|)
      ensures C.Exact(old(View())) ==> C.Exact(View())
    {
      StepMeans(View(), R.InboundSuccess(local, from, id));
      SuccessStays(View(), local, from, id);
      RespondTo(local, from, id);
    }

    method RespondTo(local: A.Candidate, from: A.Addr, id: nat)
      requires InRange()
      modifies this
      ensures View() == A.HandleInboundSuccess(old(View()), local, from, id)
    {
      var remote := FindRemoteCandidate(local.id.addr.net, from);
      if remote.None? {
        return;
      }
      HandleSuccess(local, remote.value, from, id);
    }

    method HandleRequestControlling(local: A.Candidate, remote: A.Candidate, clocks: A.Clocks)
      modifies this
      ensures View() == A.HandleRequestControlling(old(View()), local, remote, clocks)
    {
      var found := FindPair(local.id, remote.id);
      if found.None? {
        var _ := AddPair(local, remote);
        return;
      }
      var p := checklist[found.value];
      if p.state == A.PairSucceeded && nominatedPair.None? && selected.None? {
        var best := GetBestAvailableCandidatePair();
        if best.Some? && A.IsPair(checklist[best.value], p.local.id, p.remote.id)
           && A.IsNominatable(p.local, clocks) && A.IsNominatable(p.remote, clocks) {
          NominatePair(p.local, p.remote);
        }
      }
    }

    method HandleRequestControlled(local: A.Candidate, remote: A.Candidate, useCandidate: bool)
      requires InRange()
      modifies this
      ensures View() == A.HandleRequestControlled(old(View()), local, remote, useCandidate)
    {
      var found := FindPair(local.id, remote.id);
      var i;
      if found.None? {
        i := AddPair(local, remote);
      } else {
        i := found.value;
      }
      if useCandidate {
        if checklist[i].state == A.PairSucceeded {
          TakeNominated(i);
        } else {
          checklist := checklist[i := checklist[i].(nominateOnBindingSuccess := true)];
        }
      }
      SendBindingRequest(remote, false);
    }

    /** A request never fails the agent, and keeps the checklist the exact product unless it came from the other family. */
    method HandleInboundRequest(local: A.Candidate, from: A.Addr, useCandidate: bool, priority: uint32, clocks: A.Clocks)
      requires Valid() && started && local in A.Of(locals, local.id.addr.net)
      modifies this
      ensures Valid() && View() == A.HandleInboundRequest(old(View()), local, from, useCandidate, priority, clocks)
      ensures Kept(old(View()), View())
      ensures C.Exact(old(View())) && from.net == local.id.addr.net ==> C.Exact(View())
    {
      StepMeans(View(), R.InboundRequest(local, from, useCandidate, priority, clocks));
      RequestStays(View(), local, from, useCandidate, priority, clocks);
      AnswerTo(local, from, useCandidate, priority, clocks);
    }

    method AnswerTo(local: A.Candidate, from: A.Addr, useCandidate: bool, priority: uint32, clocks: A.Clocks)
      requires InRange()
      modifies this
      ensures View() == A.HandleInboundRequest(old(View()), local, from, useCandidate, priority, clocks)
    {
      if isControlling && useCandidate {
        return;
      }
      var known := FindRemoteCandidate(local.id.addr.net, from);
      var remote;
      if known.None? {
        remote := A.Candidate(A.Identity(PeerReflexive, from, 0), priority);
        PairRemote(remote);
      } else {
        remote := known.value;
      }
      if isControlling {
        HandleRequestControlling(local, remote, clocks);
      } else {
        HandleRequestControlled(local, remote, useCandidate);
      }
    }

    /** An agent starts once; a second start is an error. */
    method StartConnectivityChecks(controlling: bool) returns (ok: bool)
      requires Valid()
      modifies this
      ensures Valid() && ok == !old(started) && started
      ensures View() == if ok then A.Start(old(View()), controlling) else old(View())
      ensures C.Exact(old(View())) ==> C.Exact(View())
    {
      if !started { StepMeans(View(), R.StartChecks(controlling)); }
      if started {
        return false;
      }
      isControlling := controlling;
      nominatedPair := None;
      started := true;
      UpdateConnectionState(A.Checking);
      return true;
    }

    /** Back to an empty checklist, which is the exact product again. */
    method Restart()
      requires Valid()
      modifies this
      ensures Valid() && View() == A.Restart(old(View()))
      ensures checklist == [] && selected == None && C.Exact(View()) && (state == A.New <==> old(state) == A.New)
    {
      StepMeans(View(), R.RestartAgent);
      C.ReleasedExact(View(), A.Restart(View()));
      checklist := [];
      pending := [];
      selected := None;
      locals, remotes := map[], map[];
      if started {
        nominatedPair := None;
      }
      if state != A.New {
        UpdateConnectionState(A.Checking);
      }
    }
  }

  lemma FailureEmpties(a: A.Agent, clocks: A.Clocks)
    requires R.Selection(a) && a.started
    ensures var b := A.Contact(a, clocks);
            b.state == A.Failed && a.state != A.Failed ==> b.checklist == [] && b.pending == [] && b.selected == None
  {
  }

  lemma SuccessStays(a: A.Agent, local: A.Candidate, from: A.Addr, id: nat)
    requires R.Selection(a) && a.started
    ensures var b := A.HandleInboundSuccess(a, local, from, id);
            |b.checklist| == |a.checklist| && !(b.state == A.Failed && a.state != A.Failed)
  {
  }

  lemma RequestStays(a: A.Agent, local: A.Candidate, from: A.Addr, useCandidate: bool, priority: uint32, clocks: A.Clocks)
    requires R.Selection(a) && a.started
    ensures var b := A.HandleInboundRequest(a, local, from, useCandidate, priority, clocks);
            !(b.state == A.Failed && a.state != A.Failed)
  {
  }
}
