/** The checklist is the product of local and remote candidates of the same family. */
module IceChecklist {
  import opened Bits
  import opened PairPriority
  import opened IceAgents
  import opened IceAgentRuns

  predicate Distinct(cs: seq<Candidate>) {
    forall i, j :: 0 <= i < j < |cs| ==> cs[i].id != cs[j].id
  }

  /** Each candidate stands once, under its own family. */
  predicate ByFamily(m: map<NetworkType, seq<Candidate>>) {
    forall net :: net in m ==> Distinct(m[net]) && forall i :: 0 <= i < |m[net]| ==> m[net][i].id.addr.net == net
  }

  predicate Listed(checklist: seq<Pair>, local: Identity, remote: Identity) {
    exists k :: 0 <= k < |checklist| && IsPair(checklist[k], local, remote)
  }

  /** The candidates of a pair are there, and of one family. */
  predicate InProduct(a: Agent, p: Pair) {
    && p.local.id.addr.net == p.remote.id.addr.net
    && Has(Of(a.locals, p.local.id.addr.net), p.local.id)
    && Has(Of(a.remotes, p.local.id.addr.net), p.remote.id)
  }

  predicate NoneTwice(checklist: seq<Pair>) {
    forall k, l :: 0 <= k < l < |checklist| ==> !IsPair(checklist[l], checklist[k].local.id, checklist[k].remote.id)
  }

  predicate AllListed(a: Agent, net: NetworkType) {
    forall i, j :: 0 <= i < |Of(a.locals, net)| && 0 <= j < |Of(a.remotes, net)| ==>
      Listed(a.checklist, Of(a.locals, net)[i].id, Of(a.remotes, net)[j].id)
  }

  /** Exactly one pair for each local and remote candidate of the same family, and no other pair. */
  predicate Exact(a: Agent) {
    && ByFamily(a.locals) && ByFamily(a.remotes)
    && (forall k :: 0 <= k < |a.checklist| ==> InProduct(a, a.checklist[k]))
    && AllListed(a, UDP4) && AllListed(a, UDP6)
    && NoneTwice(a.checklist)
  }

  predicate SamePairs(a: Agent, b: Agent) {
    && b.locals == a.locals && b.remotes == a.remotes && |b.checklist| == |a.checklist|
    && forall k :: 0 <= k < |a.checklist| ==> IsPair(b.checklist[k], a.checklist[k].local.id, a.checklist[k].remote.id)
  }

  lemma SamePairsExact(a: Agent, b: Agent)
    requires Exact(a) && SamePairs(a, b)
    ensures Exact(b)
  {
    forall k | 0 <= k < |b.checklist| ensures InProduct(b, b.checklist[k]) { assert InProduct(a, a.checklist[k]); }
    forall net: NetworkType ensures AllListed(b, net) {
      assert AllListed(a, net);
      forall i, j | 0 <= i < |Of(b.locals, net)| && 0 <= j < |Of(b.remotes, net)|
        ensures Listed(b.checklist, Of(b.locals, net)[i].id, Of(b.remotes, net)[j].id)
      {
        StillListed(a.checklist, b.checklist, Of(a.locals, net)[i].id, Of(a.remotes, net)[j].id);
      }
    }
  }

  lemma StillListed(cs: seq<Pair>, ds: seq<Pair>, local: Identity, remote: Identity)
    requires Listed(cs, local, remote) && |cs| <= |ds|
    requires forall k :: 0 <= k < |cs| ==> IsPair(ds[k], cs[k].local.id, cs[k].remote.id)
    ensures Listed(ds, local, remote)
  {
    var k :| 0 <= k < |cs| && IsPair(cs[k], local, remote);
    assert IsPair(ds[k], local, remote);
  }

  // ---------------------------------------------------------------- new candidates

  lemma HasMore(cs: seq<Candidate>, c: Candidate, id: Identity)
    ensures Has(cs + [c], id) <==> Has(cs, id) || c.id == id
  {
    if Has(cs, id) {
      var i :| 0 <= i < |cs| && cs[i].id == id;
      assert (cs + [c])[i].id == id;
    }
    if c.id == id { assert (cs + [c])[|cs|].id == id; }
    if Has(cs + [c], id) {
      var i :| 0 <= i < |cs + [c]| && (cs + [c])[i].id == id;
      if i < |cs| { assert cs[i].id == id; }
    }
  }

  lemma ByFamilyMore(m: map<NetworkType, seq<Candidate>>, c: Candidate)
    requires ByFamily(m) && !Has(Of(m, c.id.addr.net), c.id)
    ensures ByFamily(m[c.id.addr.net := Of(m, c.id.addr.net) + [c]])
  {
  }

  lemma AddRemoteExact(a: Agent, c: Candidate)
    requires Exact(a)
    ensures Exact(AddRemote(a, c))
  {
    if !Has(Of(a.remotes, c.id.addr.net), c.id) {
      ByFamilyMore(a.remotes, c);
      AddRemoteInProduct(a, c);
      AddRemoteListed(a, c, UDP4);
      AddRemoteListed(a, c, UDP6);
      AddRemoteOnce(a, c);
    }
  }

  lemma AddRemoteInProduct(a: Agent, c: Candidate)
    requires Exact(a) && !Has(Of(a.remotes, c.id.addr.net), c.id)
    ensures var b := AddRemote(a, c); forall k :: 0 <= k < |b.checklist| ==> InProduct(b, b.checklist[k])
  {
    var b, net := AddRemote(a, c), c.id.addr.net;
    forall k | 0 <= k < |b.checklist| ensures InProduct(b, b.checklist[k]) {
      var p := b.checklist[k];
      HasMore(Of(a.remotes, net), c, p.remote.id);
      if k < |a.checklist| {
        assert InProduct(a, a.checklist[k]);
      } else {
        assert p == NewPair(a, Of(a.locals, net)[k - |a.checklist|], c);
      }
    }
  }

  lemma AddRemoteListed(a: Agent, c: Candidate, net: NetworkType)
    requires Exact(a) && !Has(Of(a.remotes, c.id.addr.net), c.id)
    ensures AllListed(AddRemote(a, c), net)
  {
    var b := AddRemote(a, c);
    var locals, remotes := Of(b.locals, net), Of(b.remotes, net);
    forall i, j | 0 <= i < |locals| && 0 <= j < |remotes| ensures Listed(b.checklist, locals[i].id, remotes[j].id) {
      if j < |Of(a.remotes, net)| {
        assert AllListed(a, net);
        StillListed(a.checklist, b.checklist, locals[i].id, remotes[j].id);
      } else {
        assert IsPair(b.checklist[|a.checklist| + i], locals[i].id, remotes[j].id);
      }
    }
  }

  lemma AddRemoteOnce(a: Agent, c: Candidate)
    requires Exact(a) && !Has(Of(a.remotes, c.id.addr.net), c.id)
    ensures NoneTwice(AddRemote(a, c).checklist)
  {
    var b, n := AddRemote(a, c), |a.checklist|;
    forall k, l | 0 <= k < l < |b.checklist|
      ensures !IsPair(b.checklist[l], b.checklist[k].local.id, b.checklist[k].remote.id)
    {
      if l >= n && k < n { assert InProduct(a, a.checklist[k]); }
    }
  }

  lemma AddLocalExact(a: Agent, c: Candidate)
    requires Exact(a)
    ensures Exact(AddLocal(a, c))
  {
    if !Has(Of(a.locals, c.id.addr.net), c.id) {
      ByFamilyMore(a.locals, c);
      AddLocalInProduct(a, c);
      AddLocalListed(a, c, UDP4);
      AddLocalListed(a, c, UDP6);
      AddLocalOnce(a, c);
    }
  }

  lemma AddLocalInProduct(a: Agent, c: Candidate)
    requires Exact(a) && !Has(Of(a.locals, c.id.addr.net), c.id)
    ensures var b := AddLocal(a, c); forall k :: 0 <= k < |b.checklist| ==> InProduct(b, b.checklist[k])
  {
    var b, net := AddLocal(a, c), c.id.addr.net;
    forall k | 0 <= k < |b.checklist| ensures InProduct(b, b.checklist[k]) {
      var p := b.checklist[k];
      HasMore(Of(a.locals, net), c, p.local.id);
      if k < |a.checklist| {
        assert InProduct(a, a.checklist[k]);
      } else {
        assert p == NewPair(a, c, Of(a.remotes, net)[k - |a.checklist|]);
      }
    }
  }

  lemma AddLocalListed(a: Agent, c: Candidate, net: NetworkType)
    requires Exact(a) && !Has(Of(a.locals, c.id.addr.net), c.id)
    ensures AllListed(AddLocal(a, c), net)
  {
    var b := AddLocal(a, c);
    var locals, remotes := Of(b.locals, net), Of(b.remotes, net);
    forall i, j | 0 <= i < |locals| && 0 <= j < |remotes| ensures Listed(b.checklist, locals[i].id, remotes[j].id) {
      if i < |Of(a.locals, net)| {
        assert AllListed(a, net);
        StillListed(a.checklist, b.checklist, locals[i].id, remotes[j].id);
      } else {
        assert IsPair(b.checklist[|a.checklist| + j], locals[i].id, remotes[j].id);
      }
    }
  }

  lemma AddLocalOnce(a: Agent, c: Candidate)
    requires Exact(a) && !Has(Of(a.locals, c.id.addr.net), c.id)
    ensures NoneTwice(AddLocal(a, c).checklist)
  {
    var b, n := AddLocal(a, c), |a.checklist|;
    forall k, l | 0 <= k < l < |b.checklist|
      ensures !IsPair(b.checklist[l], b.checklist[k].local.id, b.checklist[k].remote.id)
    {
      if l >= n && k < n { assert InProduct(a, a.checklist[k]); }
    }
  }

  // ---------------------------------------------------------------- the other steps

  lemma ReleasedExact(a: Agent, b: Agent)
    requires b.checklist == [] && b.locals == map[] && b.remotes == map[]
    ensures Exact(b)
  {
  }

  /** Selecting and pinging change no pair's candidates. */
  lemma ContactExact(a: Agent, clocks: Clocks)
    requires Selection(a) && a.started && Exact(a)
    ensures Exact(Contact(a, clocks))
  {
    var b := Contact(a, clocks);
    if b.state == Failed && a.state != Failed {
      ReleasedExact(a, b);
    } else {
      ContactGrows(a, clocks);
      ContactSize(a, clocks);
      GrownSame(a, b);
    }
  }

  /** No candidate and no pair more or fewer. */
  predicate SameSize(a: Agent, b: Agent) {
    b.locals == a.locals && b.remotes == a.remotes && |b.checklist| == |a.checklist|
  }

  lemma GrownSame(a: Agent, b: Agent)
    requires Exact(a) && Grows(a, b) && SameSize(a, b)
    ensures Exact(b)
  {
    forall k | 0 <= k < |a.checklist|
      ensures IsPair(b.checklist[k], a.checklist[k].local.id, a.checklist[k].remote.id)
    {
      assert Grown(a.checklist[k], b.checklist[k]);
    }
    SamePairsExact(a, b);
  }

  lemma KeepSelectedSize(a: Agent, clocks: Clocks)
    requires Selection(a) && !(KeepSelected(a, clocks).state == Failed && a.state != Failed)
    ensures SameSize(a, KeepSelected(a, clocks))
  {
  }

  lemma ContactControllingSize(a: Agent, clocks: Clocks)
    requires Selection(a) && !(ContactControlling(a, clocks).state == Failed && a.state != Failed)
    ensures SameSize(a, ContactControlling(a, clocks))
  {
    if a.selected.Some? { KeepSelectedSize(a, clocks); }
  }

  lemma ContactControlledSize(a: Agent, clocks: Clocks)
    requires Selection(a) && !(ContactControlled(a, clocks).state == Failed && a.state != Failed)
    ensures SameSize(a, ContactControlled(a, clocks))
  {
    if a.selected.Some? && !a.config.lite { KeepSelectedSize(a, clocks); }
  }

  lemma ContactSize(a: Agent, clocks: Clocks)
    requires Selection(a) && !(Contact(a, clocks).state == Failed && a.state != Failed)
    ensures SameSize(a, Contact(a, clocks))
  {
    if a.state != Failed && !(a.state == Checking && clocks.checkingOverdue) {
      if a.isControlling { ContactControllingSize(a, clocks); } else { ContactControlledSize(a, clocks); }
    }
  }

  lemma SuccessSize(a: Agent, local: Candidate, from: Addr, id: nat)
    requires Selection(a)
    ensures SameSize(a, HandleInboundSuccess(a, local, from, id))
  {
  }

  lemma SuccessExact(a: Agent, local: Candidate, from: Addr, id: nat)
    requires Selection(a) && a.started && Exact(a)
    ensures Exact(HandleInboundSuccess(a, local, from, id))
  {
    SuccessGrows(a, local, from, id);
    SuccessSize(a, local, from, id);
    GrownSame(a, HandleInboundSuccess(a, local, from, id));
  }

  /** Candidates that are there, of one family, have a pair. */
  lemma PairIsThere(a: Agent, local: Candidate, remote: Candidate)
    requires Exact(a) && local.id.addr.net == remote.id.addr.net
    requires local in Of(a.locals, local.id.addr.net) && Has(Of(a.remotes, local.id.addr.net), remote.id)
    ensures FindPair(a.checklist, local.id, remote.id).Some?
  {
    var net := local.id.addr.net;
    assert AllListed(a, net);
    var i :| 0 <= i < |Of(a.locals, net)| && Of(a.locals, net)[i] == local;
    var j :| 0 <= j < |Of(a.remotes, net)| && Of(a.remotes, net)[j].id == remote.id;
    assert Listed(a.checklist, Of(a.locals, net)[i].id, Of(a.remotes, net)[j].id);
  }

  lemma RequestControllingSize(a: Agent, local: Candidate, remote: Candidate, clocks: Clocks)
    requires FindPair(a.checklist, local.id, remote.id).Some?
    ensures SameSize(a, HandleRequestControlling(a, local, remote, clocks))
  {
  }

  lemma RequestControllingExact(a: Agent, local: Candidate, remote: Candidate, clocks: Clocks)
    requires Exact(a) && FindPair(a.checklist, local.id, remote.id).Some?
    ensures Exact(HandleRequestControlling(a, local, remote, clocks))
  {
    RequestControllingGrows(a, local, remote, clocks);
    RequestControllingSize(a, local, remote, clocks);
    GrownSame(a, HandleRequestControlling(a, local, remote, clocks));
  }

  lemma RequestControlledSize(a: Agent, local: Candidate, remote: Candidate, useCandidate: bool)
    requires Selection(a) && FindPair(a.checklist, local.id, remote.id).Some?
    ensures SameSize(a, HandleRequestControlled(a, local, remote, useCandidate))
  {
  }

  lemma RequestControlledExact(a: Agent, local: Candidate, remote: Candidate, useCandidate: bool)
    requires Selection(a) && Exact(a) && FindPair(a.checklist, local.id, remote.id).Some?
    ensures Exact(HandleRequestControlled(a, local, remote, useCandidate))
  {
    RequestControlledGrows(a, local, remote, useCandidate);
    RequestControlledSize(a, local, remote, useCandidate);
    GrownSame(a, HandleRequestControlled(a, local, remote, useCandidate));
  }

  lemma KnowingExact(a: Agent, local: Candidate, from: Addr, priority: uint32)
    requires Selection(a) && Exact(a)
    requires local in Of(a.locals, local.id.addr.net) && from.net == local.id.addr.net
    ensures var b, remote := Knowing(a, local, from, priority), RequestRemote(a, local, from, priority);
            && Selection(b) && Exact(b) && b.started == a.started && b.isControlling == a.isControlling
            && FindPair(b.checklist, local.id, remote.id).Some?
  {
    var net, remote := local.id.addr.net, RequestRemote(a, local, from, priority);
    var b := Knowing(a, local, from, priority);
    if FindRemote(Of(a.remotes, net), from).Some? {
      var j :| 0 <= j < |Of(a.remotes, net)| && Of(a.remotes, net)[j] == remote;
      assert Of(a.remotes, net)[j].id == remote.id;
    } else {
      AddRemoteKeeps(a, remote);
      AddRemoteExact(a, remote);
      HasMore(Of(a.remotes, net), remote, remote.id);
    }
    PairIsThere(b, local, remote);
  }

  lemma RequestExact(a: Agent, local: Candidate, from: Addr, useCandidate: bool, priority: uint32, clocks: Clocks)
    requires Selection(a) && a.started && Exact(a)
    requires local in Of(a.locals, local.id.addr.net) && from.net == local.id.addr.net
    ensures Exact(HandleInboundRequest(a, local, from, useCandidate, priority, clocks))
  {
    if !(a.isControlling && useCandidate) {
      KnowingExact(a, local, from, priority);
      var b, remote := Knowing(a, local, from, priority), RequestRemote(a, local, from, priority);
      if a.isControlling {
        RequestControllingExact(b, local, remote, clocks);
      } else {
        RequestControlledExact(b, local, remote, useCandidate);
      }
    }
  }

  // ---------------------------------------------------------------- every run

  /** A request that is handled, from an address of another family than the local candidate it came in on. */
  predicate CrossFamily(a: Agent, e: Event) {
    e.InboundRequest? && e.from.net != e.local.id.addr.net && !(a.isControlling && e.useCandidate)
  }

  lemma StepExact(a: Agent, e: Event)
    requires Selection(a) && Exact(a) && Enabled(a, e) && !CrossFamily(a, e)
    ensures Exact(Apply(a, e))
  {
    match e
    case AddLocalCandidate(c) => AddLocalExact(a, c);
    case AddRemoteCandidate(c) => AddRemoteExact(a, c);
    case StartChecks(isControlling) => SamePairsExact(a, Start(a, isControlling));
    case ContactCandidates(clocks) => ContactExact(a, clocks);
    case InboundRequest(local, from, useCandidate, priority, clocks) =>
      if from.net == local.id.addr.net { RequestExact(a, local, from, useCandidate, priority, clocks); }
    case InboundSuccess(local, from, id) => SuccessExact(a, local, from, id);
    case RestartAgent => ReleasedExact(a, Restart(a));
    case ExpireRequest(k) => SamePairsExact(a, Apply(a, e));
  }

  /** After a handled request its two candidates have a pair, whatever their families. */
  lemma RequestIsPaired(a: Agent, local: Candidate, from: Addr, useCandidate: bool, priority: uint32, clocks: Clocks)
    requires Selection(a) && a.started && !(a.isControlling && useCandidate)
    ensures var b := HandleInboundRequest(a, local, from, useCandidate, priority, clocks);
            Listed(b.checklist, local.id, RequestRemote(a, local, from, priority).id)
  {
    var b, remote := Knowing(a, local, from, priority), RequestRemote(a, local, from, priority);
    AddRemoteKeeps(a, remote);
    if a.isControlling {
      RequestControllingPairs(b, local, remote, clocks);
    } else {
      RequestControlledPairs(b, local, remote, useCandidate);
    }
  }

  lemma RequestControllingPairs(a: Agent, local: Candidate, remote: Candidate, clocks: Clocks)
    ensures Listed(HandleRequestControlling(a, local, remote, clocks).checklist, local.id, remote.id)
  {
    var b := HandleRequestControlling(a, local, remote, clocks);
    match FindPair(a.checklist, local.id, remote.id)
    case None => assert IsPair(b.checklist[|a.checklist|], local.id, remote.id);
    case Some(i) =>
      RequestControllingGrows(a, local, remote, clocks);
      assert Grown(a.checklist[i], b.checklist[i]);
  }

  lemma RequestControlledPairs(a: Agent, local: Candidate, remote: Candidate, useCandidate: bool)
    requires Selection(a)
    ensures Listed(HandleRequestControlled(a, local, remote, useCandidate).checklist, local.id, remote.id)
  {
    var b := HandleRequestControlled(a, local, remote, useCandidate);
    match FindPair(a.checklist, local.id, remote.id)
    case None => assert IsPair(b.checklist[|a.checklist|], local.id, remote.id);
    case Some(i) =>
      RequestControlledGrows(a, local, remote, useCandidate);
      assert Grown(a.checklist[i], b.checklist[i]);
  }

  lemma CrossFamilyAddsAPair(a: Agent, e: Event)
    requires Selection(a) && Enabled(a, e) && CrossFamily(a, e)
    ensures !Exact(Apply(a, e))
  {
    var b, remote := Apply(a, e), RequestRemote(a, e.local, e.from, e.priority);
    RequestIsPaired(a, e.local, e.from, e.useCandidate, e.priority, e.clocks);
    var k :| 0 <= k < |b.checklist| && IsPair(b.checklist[k], e.local.id, remote.id);
    assert !InProduct(b, b.checklist[k]);
  }

  predicate ExactThroughout(a: Agent, es: seq<Event>)
    requires Selection(a) && RunFrom(a, es).Some?
    decreases es
  {
    Exact(a) && (es == [] || (StepSelects(a, es[0]); ExactThroughout(Apply(a, es[0]), es[1..])))
  }

  predicate NoCrossFamily(a: Agent, es: seq<Event>)
    requires Selection(a) && RunFrom(a, es).Some?
    decreases es
  {
    es == [] || (!CrossFamily(a, es[0]) && (StepSelects(a, es[0]); NoCrossFamily(Apply(a, es[0]), es[1..])))
  }

  /** The checklist is exactly the product throughout a run, in whatever order candidates trickle in and requests,
      failures and restarts happen, if and only if no request is handled that came from the other family. */
  lemma {:induction false} ChecklistIsTheProductIff(a: Agent, es: seq<Event>)
    requires Selection(a) && Exact(a) && RunFrom(a, es).Some?
    ensures ExactThroughout(a, es) <==> NoCrossFamily(a, es)
    decreases es
  {
    if es != [] {
      StepSelects(a, es[0]);
      var b := Apply(a, es[0]);
      if CrossFamily(a, es[0]) {
        CrossFamilyAddsAPair(a, es[0]);
        assert !ExactThroughout(b, es[1..]);
      } else {
        StepExact(a, es[0]);
        ChecklistIsTheProductIff(b, es[1..]);
      }
    }
  }

  /** From a new agent. */
  lemma ChecklistIsTheProduct(config: Config, es: seq<Event>)
    requires Run(config, es).Some?
    ensures ExactThroughout(Initial(config), es) <==> NoCrossFamily(Initial(config), es)
  {
    ReleasedExact(Initial(config), Initial(config));
    ChecklistIsTheProductIff(Initial(config), es);
  }

  /** Such a run: a request over IPv6 reaches an IPv4 candidate. */
  lemma CrossFamilyRun(config: Config) returns (es: seq<Event>)
    ensures Run(config, es).Some? && !Exact(Run(config, es).value)
  {
    var local := Candidate(Identity(Host, Addr(UDP4, 0), 0), 1);
    var clocks := Clocks(false, Alive, false, {});
    var e0, e1 := StartChecks(false), AddLocalCandidate(local);
    var e2 := InboundRequest(local, Addr(UDP6, 0), false, 1, clocks);
    es := [e0, e1, e2];
    var a0 := Initial(config);
    var a1 := Apply(a0, e0);
    var a2 := Apply(a1, e1);
    assert Of(a2.locals, UDP4) == [local];
    assert es[1..] == [e1, e2] && [e1, e2][1..] == [e2] && [e2][1..] == [];
    StepSelects(a0, e0);
    StepSelects(a1, e1);
    StepSelects(a2, e2);
    CrossFamilyAddsAPair(a2, e2);
    assert RunFrom(a2, [e2]) == Some(Apply(a2, e2));
    assert RunFrom(a1, [e1, e2]) == RunFrom(a2, [e2]);
  }
}
