/** The best-pair searches find the standard's maximum. */
module IceBestPair {
  import opened Bits
  import opened PairPriority
  import opened IceAgents
  import opened IceAgentRuns

  predicate Qualifies(p: Pair, valid: bool) {
    if valid then IsValid(p) else Available(p)
  }

  /** The first among the pairs of highest priority that qualify, and none exactly when no pair qualifies. */
  lemma {:induction false} BestIsFirstMaximum(checklist: seq<Pair>, valid: bool, n: nat)
    requires n <= |checklist|
    ensures var best := Best(checklist, valid, n);
            if best.None? then forall j :: 0 <= j < n ==> !Qualifies(checklist[j], valid)
            else
              && Qualifies(checklist[best.value], valid)
              && (forall j :: 0 <= j < n && Qualifies(checklist[j], valid) ==>
                    PriorityOf(checklist[j]) <= PriorityOf(checklist[best.value]))
              && (forall j :: 0 <= j < best.value && Qualifies(checklist[j], valid) ==>
                    PriorityOf(checklist[j]) < PriorityOf(checklist[best.value]))
  {
    if n > 0 { BestIsFirstMaximum(checklist, valid, n - 1); }
  }

  /** The standard's priority of a pair, for the agent's role. */
  function StandardOf(p: Pair, isControlling: bool): nat {
    if isControlling then Standard(p.local.priority, p.remote.priority)
    else Standard(p.remote.priority, p.local.priority)
  }

  predicate Small(p: Pair) {
    p.local.priority < 0x8000_0000 && p.remote.priority < 0x8000_0000
  }

  // ---------------------------------------------------------------- when the code's order is the standard's

  /** The code compares these two pairs as the standard does for the agent's role. */
  predicate OrdersAgree(p: Pair, q: Pair, isControlling: bool) {
    && (PriorityOf(p) < PriorityOf(q) <==> StandardOf(p, isControlling) < StandardOf(q, isControlling))
    && (PriorityOf(p) == PriorityOf(q) <==> StandardOf(p, isControlling) == StandardOf(q, isControlling))
  }

  /** The candidates of one pair have the priorities of the other's, the other way round. */
  predicate Crossed(p: Pair, q: Pair) {
    p.local.priority == q.remote.priority && p.remote.priority == q.local.priority
  }

  predicate SamePriorities(p: Pair, q: Pair) {
    Crossed(p, q) || (p.local.priority == q.local.priority && p.remote.priority == q.remote.priority)
  }

  /** Two unequal priorities, the same in both pairs, and the roles differ, or both are wrong and the pairs crossed. */
  predicate Clash(p: Pair, q: Pair, isControlling: bool) {
    && SamePriorities(p, q) && p.local.priority != p.remote.priority
    && (p.controlling != q.controlling || (p.controlling != isControlling && Crossed(p, q)))
  }

  /** The code's order is the standard's for the roles that the pairs carry. */
  lemma OrderOfOwnRoles(p: Pair, q: Pair)
    requires Small(p) && Small(q)
    ensures PriorityOf(p) < PriorityOf(q) <==> StandardOf(p, p.controlling) < StandardOf(q, q.controlling)
    ensures PriorityOf(p) == PriorityOf(q) <==> StandardOf(p, p.controlling) == StandardOf(q, q.controlling)
  {
    var (g, d) := Sides(p, p.controlling);
    var (g1, d1) := Sides(q, q.controlling);
    OrdersAsStandard(g, d, g1, d1);
  }

  /** The priorities in the order of the formula: the controlling side's first. */
  function Sides(p: Pair, isControlling: bool): (uint32, uint32) {
    if isControlling then (p.local.priority, p.remote.priority) else (p.remote.priority, p.local.priority)
  }

  lemma StandardOrder(p: Pair, q: Pair, r: bool, r1: bool)
    requires Small(p) && Small(q)
    ensures var (g, d) := Sides(p, r);
            var (g1, d1) := Sides(q, r1);
            && (StandardOf(p, r) < StandardOf(q, r1) <==> Below(g, d, g1, d1))
            && (StandardOf(q, r1) < StandardOf(p, r) <==> Below(g1, d1, g, d))
  {
    var (g, d) := Sides(p, r);
    var (g1, d1) := Sides(q, r1);
    StandardIsLexicographic(g, d, g1, d1);
    StandardIsLexicographic(g1, d1, g, d);
  }

  lemma OrdersAgreeInSides(p: Pair, q: Pair, isControlling: bool)
    requires Small(p) && Small(q)
    ensures var (g, d) := Sides(p, p.controlling);
            var (g1, d1) := Sides(q, q.controlling);
            var (x, y) := Sides(p, isControlling);
            var (x1, y1) := Sides(q, isControlling);
            OrdersAgree(p, q, isControlling) <==>
              (Below(g, d, g1, d1) <==> Below(x, y, x1, y1)) && (Below(g1, d1, g, d) <==> Below(x1, y1, x, y))
  {
    OrderOfOwnRoles(p, q);
    OrderOfOwnRoles(q, p);
    StandardOrder(p, q, p.controlling, q.controlling);
    StandardOrder(p, q, isControlling, isControlling);
  }

  /** For any two pairs, whatever roles they carry, with candidate priorities below 2^31. */
  lemma OrdersAgreeIff(p: Pair, q: Pair, isControlling: bool)
    requires Small(p) && Small(q)
    ensures OrdersAgree(p, q, isControlling) <==> !Clash(p, q, isControlling)
  {
    OrdersAgreeInSides(p, q, isControlling);
  }

  /** The first of the qualifying pairs that no qualifying pair beats by the standard's formula. */
  predicate IsStandardBest(checklist: seq<Pair>, valid: bool, isControlling: bool, best: nat) {
    && best < |checklist| && Qualifies(checklist[best], valid)
    && (forall j :: 0 <= j < |checklist| && Qualifies(checklist[j], valid) ==>
          StandardOf(checklist[j], isControlling) <= StandardOf(checklist[best], isControlling))
    && (forall j :: 0 <= j < best && Qualifies(checklist[j], valid) ==>
          StandardOf(checklist[j], isControlling) < StandardOf(checklist[best], isControlling))
  }

  /** The search finds it, or finds nothing because nothing qualifies. */
  predicate FindsStandardBest(checklist: seq<Pair>, valid: bool, isControlling: bool) {
    match Best(checklist, valid, |checklist|)
    case None => forall j :: 0 <= j < |checklist| ==> !Qualifies(checklist[j], valid)
    case Some(best) => IsStandardBest(checklist, valid, isControlling, best)
  }

  ghost predicate NoClash(pairs: set<Pair>, valid: bool, isControlling: bool) {
    forall p, q :: p in pairs && q in pairs && Qualifies(p, valid) && Qualifies(q, valid) ==> !Clash(p, q, isControlling)
  }

  predicate From(checklist: seq<Pair>, pairs: set<Pair>) {
    forall k :: 0 <= k < |checklist| ==> checklist[k] in pairs
  }

  lemma BestIsStandardMaximum(checklist: seq<Pair>, pairs: set<Pair>, valid: bool, isControlling: bool)
    requires From(checklist, pairs) && (forall p :: p in pairs ==> Small(p)) && NoClash(pairs, valid, isControlling)
    ensures FindsStandardBest(checklist, valid, isControlling)
  {
    BestIsFirstMaximum(checklist, valid, |checklist|);
    var best := Best(checklist, valid, |checklist|);
    if best.Some? {
      forall j | 0 <= j < |checklist| && Qualifies(checklist[j], valid)
        ensures OrdersAgree(checklist[j], checklist[best.value], isControlling)
      {
        OrdersAgreeIff(checklist[j], checklist[best.value], isControlling);
      }
    }
  }

  /** Of two pairs that clash, some arrangement is searched wrongly. */
  lemma ClashMisleads(p: Pair, q: Pair, valid: bool, isControlling: bool)
    requires Small(p) && Small(q) && Qualifies(p, valid) && Qualifies(q, valid) && Clash(p, q, isControlling)
    ensures !FindsStandardBest([p, q], valid, isControlling) || !FindsStandardBest([q, p], valid, isControlling)
  {
    OrdersAgreeIff(p, q, isControlling);
    BestOfTwo(p, q, valid);
    BestOfTwo(q, p, valid);
  }

  lemma BestOfTwo(p: Pair, q: Pair, valid: bool)
    requires Qualifies(p, valid) && Qualifies(q, valid)
    ensures Best([p, q], valid, 2) == Some(if PriorityOf(p) < PriorityOf(q) then 1 else 0)
  {
    assert Best([p, q], valid, 1) == Some(0);
  }

  /** The searches find the standard's best pair on every checklist made of these pairs exactly when no two of them that
      qualify clash. */
  lemma BestIsStandardIff(pairs: set<Pair>, valid: bool, isControlling: bool)
    requires forall p :: p in pairs ==> Small(p)
    ensures (forall checklist :: From(checklist, pairs) ==> FindsStandardBest(checklist, valid, isControlling)) <==>
            NoClash(pairs, valid, isControlling)
  {
    if NoClash(pairs, valid, isControlling) {
      forall checklist | From(checklist, pairs) ensures FindsStandardBest(checklist, valid, isControlling) {
        BestIsStandardMaximum(checklist, pairs, valid, isControlling);
      }
    } else {
      var p, q :| p in pairs && q in pairs && Qualifies(p, valid) && Qualifies(q, valid) && Clash(p, q, isControlling);
      ClashMisleads(p, q, valid, isControlling);
      assert From([p, q], pairs) && From([q, p], pairs);
    }
  }

  /** The agent's own side has the higher priority if it controls, and the peer's if it does not. */
  predicate Favoured(p: Pair, isControlling: bool) {
    if isControlling then p.local.priority > p.remote.priority else p.remote.priority > p.local.priority
  }

  /** What a search of any one checklist misses: only a crossed pair on the favoured side can beat the pair it returns, and
      always does. */
  lemma BeatenExactlyByCrossed(checklist: seq<Pair>, valid: bool, isControlling: bool, j: nat)
    requires (forall k :: 0 <= k < |checklist| ==> Small(checklist[k])) && Best(checklist, valid, |checklist|).Some?
    requires j < |checklist| && Qualifies(checklist[j], valid)
    ensures var q := checklist[Best(checklist, valid, |checklist|).value];
            StandardOf(checklist[j], isControlling) > StandardOf(q, isControlling) <==>
            Crossed(checklist[j], q) && Favoured(checklist[j], isControlling)
  {
    BestIsFirstMaximum(checklist, valid, |checklist|);
    var p, q := checklist[j], checklist[Best(checklist, valid, |checklist|).value];
    OrdersAgreeIff(p, q, isControlling);
    StandardOrder(p, q, isControlling, isControlling);
  }

  // ---------------------------------------------------------------- the role that a pair carries

  /** A pair has the priority of the agent's role exactly when it carries that role, or its candidates' priorities are
      equal. */
  lemma RoleMatters(p: Pair, isControlling: bool)
    ensures StandardOf(p, p.controlling) == StandardOf(p, isControlling) <==>
            p.controlling == isControlling || p.local.priority == p.remote.priority
  {
  }

  predicate RolesRight(a: Agent) {
    && (!a.started ==> !a.isControlling)
    && forall k :: 0 <= k < |a.checklist| ==> a.checklist[k].controlling == a.isControlling
  }

  lemma ContactRoles(a: Agent, clocks: Clocks)
    requires Selection(a) && a.started && RolesRight(a)
    ensures RolesRight(Contact(a, clocks))
  {
    var b := Contact(a, clocks);
    if !(b.state == Failed && a.state != Failed) {
      ContactGrows(a, clocks);
      ContactLength(a, clocks);
      forall k | 0 <= k < |b.checklist| ensures b.checklist[k].controlling == b.isControlling {
        assert Grown(a.checklist[k], b.checklist[k]);
      }
    }
  }

  lemma ContactLength(a: Agent, clocks: Clocks)
    requires Selection(a) && !(Contact(a, clocks).state == Failed && a.state != Failed)
    ensures |Contact(a, clocks).checklist| == |a.checklist|
  {
  }

  lemma SuccessRoles(a: Agent, local: Candidate, from: Addr, id: nat)
    requires Selection(a) && a.started && RolesRight(a)
    ensures RolesRight(HandleInboundSuccess(a, local, from, id))
  {
  }

  lemma TakeRoles(a: Agent, i: nat)
    requires RolesRight(a) && i < |a.checklist| && (a.selected.Some? ==> a.selected.value < |a.checklist|)
    ensures RolesRight(TakeNominated(a, i))
  {
  }

  lemma RequestControlledRoles(a: Agent, local: Candidate, remote: Candidate, useCandidate: bool)
    requires Selection(a) && RolesRight(a)
    ensures RolesRight(HandleRequestControlled(a, local, remote, useCandidate))
  {
    var found := FindPair(a.checklist, local.id, remote.id);
    var b := if found.None? then AddPair(a, local, remote) else a;
    var i := if found.None? then |a.checklist| else found.value;
    assert RolesRight(b);
    if useCandidate && b.checklist[i].state == PairSucceeded { TakeRoles(b, i); }
  }

  lemma RequestRoles(a: Agent, local: Candidate, from: Addr, useCandidate: bool, priority: uint32, clocks: Clocks)
    requires Selection(a) && a.started && RolesRight(a)
    ensures RolesRight(HandleInboundRequest(a, local, from, useCandidate, priority, clocks))
  {
    if !a.isControlling {
      var remote, b := RequestRemote(a, local, from, priority), Knowing(a, local, from, priority);
      AddRemoteKeeps(a, remote);
      RequestControlledRoles(b, local, remote, useCandidate);
    }
  }

  /** All pairs keep carrying the agent's role, except when the agent is started as the controlling one with pairs
      already in its checklist: those carry the other role from then on. */
  lemma StepRoles(a: Agent, e: Event)
    requires Selection(a) && Enabled(a, e) && RolesRight(a)
    ensures RolesRight(Apply(a, e)) <==> !(e.StartChecks? && e.isControlling && a.checklist != [])
  {
    match e
    case ContactCandidates(clocks) => ContactRoles(a, clocks);
    case InboundSuccess(local, from, id) => SuccessRoles(a, local, from, id);
    case InboundRequest(local, from, useCandidate, priority, clocks) =>
      RequestRoles(a, local, from, useCandidate, priority, clocks);
    case StartChecks(isControlling) => if a.checklist != [] { assert Start(a, isControlling).checklist[0] == a.checklist[0]; }
    case _ =>
  }

  predicate CleanStart(a: Agent, es: seq<Event>)
    requires Selection(a) && RunFrom(a, es).Some?
    decreases es
  {
    es == [] ||
    (!(es[0].StartChecks? && es[0].isControlling && a.checklist != []) &&
     (StepSelects(a, es[0]); CleanStart(Apply(a, es[0]), es[1..])))
  }

  predicate RolesThroughout(a: Agent, es: seq<Event>)
    requires Selection(a) && RunFrom(a, es).Some?
    decreases es
  {
    RolesRight(a) && (es == [] || (StepSelects(a, es[0]); RolesThroughout(Apply(a, es[0]), es[1..])))
  }

  /** Every pair carries the agent's role throughout a run if and only if the run is not started so. */
  lemma {:induction false} PairsCarryTheRoleIff(a: Agent, es: seq<Event>)
    requires Selection(a) && RolesRight(a) && RunFrom(a, es).Some?
    ensures RolesThroughout(a, es) <==> CleanStart(a, es)
    decreases es
  {
    if es != [] {
      StepSelects(a, es[0]);
      StepRoles(a, es[0]);
      var b := Apply(a, es[0]);
      if RolesRight(b) { PairsCarryTheRoleIff(b, es[1..]); } else { assert !RolesThroughout(b, es[1..]); }
    }
  }

  lemma {:induction false} RolesAtTheEnd(a: Agent, es: seq<Event>)
    requires Selection(a) && RunFrom(a, es).Some? && RolesThroughout(a, es)
    ensures RolesRight(RunFrom(a, es).value)
    decreases es
  {
    if es != [] {
      StepSelects(a, es[0]);
      RolesAtTheEnd(Apply(a, es[0]), es[1..]);
    }
  }

  /** From a new agent; and then every search finds the standard's best pair. */
  lemma SearchesFindTheBest(config: Config, es: seq<Event>, valid: bool)
    requires Run(config, es).Some?
    ensures RolesThroughout(Initial(config), es) <==> CleanStart(Initial(config), es)
    ensures var a := Run(config, es).value;
            CleanStart(Initial(config), es) && (forall k :: 0 <= k < |a.checklist| ==> Small(a.checklist[k])) ==>
              FindsStandardBest(a.checklist, valid, a.isControlling)
  {
    PairsCarryTheRoleIff(Initial(config), es);
    var a := Run(config, es).value;
    if CleanStart(Initial(config), es) && forall k :: 0 <= k < |a.checklist| ==> Small(a.checklist[k]) {
      RolesAtTheEnd(Initial(config), es);
      BestIsStandardMaximum(a.checklist, set k | 0 <= k < |a.checklist| :: a.checklist[k], valid, a.isControlling);
    }
  }

  // ---------------------------------------------------------------- a run that nominates the wrong pair

  lemma {:induction false} OneMoreEvent(a: Agent, es: seq<Event>, e: Event)
    requires Selection(a) && RunFrom(a, es).Some? && Enabled(RunFrom(a, es).value, e)
    ensures RunFrom(a, es + [e]) == Some(Apply(RunFrom(a, es).value, e))
    decreases es
  {
    if es == [] {
      assert [] + [e] == [e] && [e][1..] == [];
      StepSelects(a, e);
      assert RunFrom(Apply(a, e), []) == Some(Apply(a, e));
    } else {
      assert (es + [e])[1..] == es[1..] + [e];
      StepSelects(a, es[0]);
      OneMoreEvent(Apply(a, es[0]), es[1..], e);
    }
  }

  function At(net: NetworkType, host: nat, priority: uint32): Candidate {
    Candidate(Identity(Host, Addr(net, host), 0), priority)
  }

  /** A pair of host candidates of one family, made before the start. */
  function Early(net: NetworkType, local: uint32, remote: uint32, requests: uint16, state: PairState): Pair {
    Pair(At(net, 0, local), At(net, 1, remote), false, requests, state, false, false)
  }

  /** One pair over IPv4 and its crossed twin over IPv6, both made before a controlling agent starts. */
  function WithTwins(config: Config, lo: uint32, hi: uint32, checklist: seq<Pair>, pending: seq<BindingRequest>,
                     nextId: nat): Agent
  {
    Agent(config, true, true, None, map[UDP4 := [At(UDP4, 0, lo)], UDP6 := [At(UDP6, 0, hi)]],
          map[UDP4 := [At(UDP4, 1, hi)], UDP6 := [At(UDP6, 1, lo)]], checklist, pending, nextId, None, Checking)
  }

  lemma AddsLocal(a: Agent, c: Candidate)
    requires Of(a.locals, c.id.addr.net) == [] && Of(a.remotes, c.id.addr.net) == []
    ensures AddLocal(a, c) == a.(locals := a.locals[c.id.addr.net := [c]])
  {
    assert [] + [c] == [c] && a.checklist + [] == a.checklist;
  }

  lemma AddsRemote(a: Agent, local: Candidate, c: Candidate)
    requires Of(a.locals, c.id.addr.net) == [local] && Of(a.remotes, c.id.addr.net) == []
    ensures AddRemote(a, c) == a.(remotes := a.remotes[c.id.addr.net := [c]],
                                  checklist := a.checklist + [NewPair(a, local, c)])
  {
    assert [] + [c] == [c];
    assert PairsWithRemote(a, [local], c) == [NewPair(a, local, c)];
  }

  lemma TwinsAreMade(config: Config, lo: uint32, hi: uint32) returns (es: seq<Event>)
    ensures Run(config, es) ==
            Some(WithTwins(config, lo, hi, [Early(UDP4, lo, hi, 0, PairWaiting), Early(UDP6, hi, lo, 0, PairWaiting)], [], 0))
  {
    var a := Initial(config);
    var l4, r4, l6, r6 := At(UDP4, 0, lo), At(UDP4, 1, hi), At(UDP6, 0, hi), At(UDP6, 1, lo);
    es := [];
    AddsLocal(RunFrom(a, es).value, l4);
    OneMoreEvent(a, es, AddLocalCandidate(l4));
    es := es + [AddLocalCandidate(l4)];
    AddsLocal(RunFrom(a, es).value, l6);
    OneMoreEvent(a, es, AddLocalCandidate(l6));
    es := es + [AddLocalCandidate(l6)];
    AddsRemote(RunFrom(a, es).value, l4, r4);
    OneMoreEvent(a, es, AddRemoteCandidate(r4));
    es := es + [AddRemoteCandidate(r4)];
    AddsRemote(RunFrom(a, es).value, l6, r6);
    OneMoreEvent(a, es, AddRemoteCandidate(r6));
    es := es + [AddRemoteCandidate(r6)];
    var b := RunFrom(a, es).value;
    assert b.locals == map[UDP4 := [l4], UDP6 := [l6]] && b.remotes == map[UDP4 := [r4], UDP6 := [r6]];
    assert b.checklist == [Early(UDP4, lo, hi, 0, PairWaiting), Early(UDP6, hi, lo, 0, PairWaiting)];
    OneMoreEvent(a, es, StartChecks(true));
    es := es + [StartChecks(true)];
  }

  const SOON := Clocks(false, Alive, false, {Host})

  /** The first check pings both. */
  lemma TwinsArePinged(config: Config, lo: uint32, hi: uint32)
    ensures Contact(WithTwins(config, lo, hi, [Early(UDP4, lo, hi, 0, PairWaiting), Early(UDP6, hi, lo, 0, PairWaiting)], [], 0), SOON) ==
            WithTwins(config, lo, hi, [Early(UDP4, lo, hi, 1, PairInProgress), Early(UDP6, hi, lo, 1, PairInProgress)],
                      [BindingRequest(0, Addr(UDP4, 1), false), BindingRequest(1, Addr(UDP6, 1), false)], 2)
  {
    var a := WithTwins(config, lo, hi, [Early(UDP4, lo, hi, 0, PairWaiting), Early(UDP6, hi, lo, 0, PairWaiting)], [], 0);
    assert Best(a.checklist, true, 1) == None;
    var b := PingFirst(a, 1);
    assert PingFirst(a, 0) == a;
    assert b == WithTwins(config, lo, hi, [Early(UDP4, lo, hi, 1, PairInProgress), Early(UDP6, hi, lo, 0, PairWaiting)],
                          [BindingRequest(0, Addr(UDP4, 1), false)], 1);
  }

  lemma FirstSucceeds(config: Config, lo: uint32, hi: uint32)
    requires lo < hi
    ensures HandleInboundSuccess(
              WithTwins(config, lo, hi, [Early(UDP4, lo, hi, 1, PairInProgress), Early(UDP6, hi, lo, 1, PairInProgress)],
                        [BindingRequest(0, Addr(UDP4, 1), false), BindingRequest(1, Addr(UDP6, 1), false)], 2),
              At(UDP4, 0, lo), Addr(UDP4, 1), 0) ==
            WithTwins(config, lo, hi, [Early(UDP4, lo, hi, 1, PairSucceeded), Early(UDP6, hi, lo, 1, PairInProgress)],
                      [BindingRequest(1, Addr(UDP6, 1), false)], 2)
  {
    var first, second := BindingRequest(0, Addr(UDP4, 1), false), BindingRequest(1, Addr(UDP6, 1), false);
    var p, q := Early(UDP4, lo, hi, 1, PairInProgress), Early(UDP6, hi, lo, 1, PairInProgress);
    assert [first, second][..1] == [first] && [first][..0] == [];
    assert FindPending([first], 0) == Some(0);
    assert [p, q][..1] == [p] && [p][..0] == [];
    assert FindPair([p], p.local.id, p.remote.id) == Some(0);
    assert [At(UDP4, 1, hi)][..0] == [];
    assert FindRemote([At(UDP4, 1, hi)], Addr(UDP4, 1)) == Some(At(UDP4, 1, hi));
    assert Remove([first, second], 0) == [second];
  }

  lemma SecondSucceeds(config: Config, lo: uint32, hi: uint32)
    requires lo < hi
    ensures HandleInboundSuccess(
              WithTwins(config, lo, hi, [Early(UDP4, lo, hi, 1, PairSucceeded), Early(UDP6, hi, lo, 1, PairInProgress)],
                        [BindingRequest(1, Addr(UDP6, 1), false)], 2),
              At(UDP6, 0, hi), Addr(UDP6, 1), 1) ==
            WithTwins(config, lo, hi, [Early(UDP4, lo, hi, 1, PairSucceeded), Early(UDP6, hi, lo, 1, PairSucceeded)], [], 2)
  {
    var second := BindingRequest(1, Addr(UDP6, 1), false);
    var p, q := Early(UDP4, lo, hi, 1, PairSucceeded), Early(UDP6, hi, lo, 1, PairInProgress);
    assert [second][..0] == [];
    assert FindPending([second], 1) == Some(0);
    assert [p, q][..1] == [p] && [p][..0] == [];
    assert FindPair([p], q.local.id, q.remote.id) == None;
    assert [At(UDP6, 1, lo)][..0] == [];
    assert FindRemote([At(UDP6, 1, lo)], Addr(UDP6, 1)) == Some(At(UDP6, 1, lo));
    assert Remove([second], 0) == [];
  }

  lemma TwinsSucceed(config: Config, lo: uint32, hi: uint32) returns (es: seq<Event>)
    requires lo < hi
    ensures Run(config, es) ==
            Some(WithTwins(config, lo, hi, [Early(UDP4, lo, hi, 1, PairSucceeded), Early(UDP6, hi, lo, 1, PairSucceeded)], [], 2))
  {
    var a := Initial(config);
    es := TwinsAreMade(config, lo, hi);
    TwinsArePinged(config, lo, hi);
    OneMoreEvent(a, es, ContactCandidates(SOON));
    es := es + [ContactCandidates(SOON)];
    FirstSucceeds(config, lo, hi);
    OneMoreEvent(a, es, InboundSuccess(At(UDP4, 0, lo), Addr(UDP4, 1), 0));
    es := es + [InboundSuccess(At(UDP4, 0, lo), Addr(UDP4, 1), 0)];
    SecondSucceeds(config, lo, hi);
    OneMoreEvent(a, es, InboundSuccess(At(UDP6, 0, hi), Addr(UDP6, 1), 1));
    es := es + [InboundSuccess(At(UDP6, 0, hi), Addr(UDP6, 1), 1)];
  }

  /** Two host pairs are made, a controlling agent starts, checks both with success, and searches: it nominates the pair
      over IPv4 although the standard puts its twin over IPv6 above it. */
  lemma EarlyPairsMisorder(config: Config, lo: uint32, hi: uint32) returns (es: seq<Event>)
    requires lo < hi
    ensures Run(config, es).Some?
    ensures var a := Run(config, es).value;
            && |a.checklist| == 2 && Best(a.checklist, true, 2) == Some(0)
            && a.isControlling && StandardOf(a.checklist[0], true) < StandardOf(a.checklist[1], true)
            && Contact(a, SOON).nominatedPair == Some((a.checklist[0].local, a.checklist[0].remote))
  {
    es := TwinsSucceed(config, lo, hi);
    BestOfTwo(Early(UDP4, lo, hi, 1, PairSucceeded), Early(UDP6, hi, lo, 1, PairSucceeded), true);
  }
}
