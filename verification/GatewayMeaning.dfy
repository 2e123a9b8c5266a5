/** What the two gateway policies of routing_policy.py mean: for every packet, the verdict of the whole
    compiled list in terms of the domain lists, the environment and the resolvers. */
module GatewayMeaning {
  import opened Wrappers
  import Text
  import opened RouteSemantics
  import opened RoutingPolicy
  import opened GatewayPolicies

  // ---- Pairs of resolve and route rules ---------------------------------------------------------

  /** One rule for every condition. */
  function RulesFor(conditions: seq<Condition>, action: Action, outbound: Option<string>, server: Option<string>)
    : seq<Rule>
  {
    seq(|conditions|, i requires 0 <= i < |conditions| => Rule(None, None, conditions[i], action, outbound, server))
  }

  /** Where reading stands: a verdict, or the addresses known so far. */
  datatype Walked = Done(verdict: Verdict) | Onward(addresses: set<Address>)

  function OutcomeOf(decision: Decision): Walked {
    match decision
    case Undecided(known) => Onward(known)
    case _ => Done(VerdictOf(decision))
  }

  /** The addresses after a resolver was asked: names only. */
  function Asking(world: World, server: string, packet: Packet, addresses: set<Address>): set<Address> {
    if packet.literal.None? && packet.name.Some? then world.resolve(server, packet.name.value) else addresses
  }

  /** resolve, guards, route for one condition. */
  ghost function Step(world: World, condition: Condition, server: string, outbound: string, guards: seq<Rule>,
                      packet: Packet, addresses: set<Address>): Walked
  {
    var known := if Satisfies(world, condition, packet, addresses) then Asking(world, server, packet, addresses)
                 else addresses;
    if GuardHit(world, guards, packet, known) then Done(Blocked)
    else if Satisfies(world, condition, packet, known) then Done(To(outbound)) else Onward(known)
  }

  ghost function Walk(world: World, conditions: seq<Condition>, server: string, outbound: string, guards: seq<Rule>,
                      packet: Packet, addresses: set<Address>): Walked
  {
    if conditions == [] then Onward(addresses)
    else
      var n := |conditions| - 1;
      match Walk(world, conditions[..n], server, outbound, guards, packet, addresses)
      case Done(verdict) => Done(verdict)
      case Onward(known) => Step(world, conditions[n], server, outbound, guards, packet, known)
  }

  lemma {:induction false} PairMeans(world: World, condition: Condition, server: string, outbound: string,
                                     guards: seq<Rule>, packet: Packet, addresses: set<Address>)
    requires AllReject(guards)
    ensures var resolve := Rule(None, None, condition, Resolve, None, Some(server));
      var route := Rule(None, None, condition, Route, Some(outbound), None);
      OutcomeOf(Evaluate(world, [resolve] + guards + [route], packet, addresses))
      == Step(world, condition, server, outbound, guards, packet, addresses)
  {
    var resolve := Rule(None, None, condition, Resolve, None, Some(server));
    var route := Rule(None, None, condition, Route, Some(outbound), None);
    assert [resolve][1..] == [] && [route][1..] == [];
    var known := if Satisfies(world, condition, packet, addresses) then Asking(world, server, packet, addresses)
                 else addresses;
    assert Evaluate(world, [resolve], packet, addresses) == Undecided(known);
    EvaluateConcat(world, [resolve], guards, packet, addresses);
    EvaluateConcat(world, [resolve] + guards, [route], packet, addresses);
    GuardsDecide(world, guards, packet, known);
    hide GuardHit, Satisfies;
  }

  lemma {:induction false} PairsMean(world: World, conditions: seq<Condition>, server: string, outbound: string,
                                     guards: seq<Rule>, packet: Packet, addresses: set<Address>)
    requires AllReject(guards)
    ensures var resolves := RulesFor(conditions, Resolve, None, Some(server));
      var routes := RulesFor(conditions, Route, Some(outbound), None);
      OutcomeOf(Evaluate(world, Paired(resolves, routes, guards), packet, addresses))
      == Walk(world, conditions, server, outbound, guards, packet, addresses)
  {
    if conditions != [] {
      var n := |conditions| - 1;
      var resolves := RulesFor(conditions, Resolve, None, Some(server));
      var routes := RulesFor(conditions, Route, Some(outbound), None);
      assert resolves[..n] == RulesFor(conditions[..n], Resolve, None, Some(server));
      assert routes[..n] == RulesFor(conditions[..n], Route, Some(outbound), None);
      PairsMean(world, conditions[..n], server, outbound, guards, packet, addresses);
      var before := Paired(resolves[..n], routes[..n], guards);
      assert Paired(resolves, routes, guards) == before + ([resolves[n]] + guards + [routes[n]]);
      EvaluateConcat(world, before, [resolves[n]] + guards + [routes[n]], packet, addresses);
      var first := Evaluate(world, before, packet, addresses);
      if first.Undecided? { PairMeans(world, conditions[n], server, outbound, guards, packet, first.addresses); }
      hide Evaluate, Step, Paired, RulesFor, AllReject;
    }
  }

  lemma {:induction false} WalkConcat(world: World, a: seq<Condition>, b: seq<Condition>, server: string,
                                      outbound: string, guards: seq<Rule>, packet: Packet, addresses: set<Address>)
    ensures Walk(world, a + b, server, outbound, guards, packet, addresses)
      == match Walk(world, a, server, outbound, guards, packet, addresses)
         case Done(verdict) => Done(verdict)
         case Onward(known) => Walk(world, b, server, outbound, guards, packet, known)
  {
    hide Step;
    if b == [] {
      assert a + b == a;
    } else {
      var n := |b| - 1;
      WalkConcat(world, a, b[..n], server, outbound, guards, packet, addresses);
      assert (a + b)[..|a + b| - 1] == a + b[..n];
    }
  }

  /** Conditions that look at the name alone. */
  predicate NameOnly(condition: Condition) { condition.Domain? || condition.DomainSuffix? || condition.DomainRegex? }

  predicate AnySatisfied(world: World, conditions: seq<Condition>, packet: Packet, addresses: set<Address>) {
    exists i :: 0 <= i < |conditions| && Satisfies(world, conditions[i], packet, addresses)
  }

  /** The first condition on the name decides after one look of the guards at what the resolver found. */
  lemma {:induction false} NameWalk(world: World, conditions: seq<Condition>, server: string, outbound: string,
                                    guards: seq<Rule>, packet: Packet, addresses: set<Address>)
    requires !GuardHit(world, guards, packet, addresses)
    requires forall i :: 0 <= i < |conditions| ==> NameOnly(conditions[i])
    ensures Walk(world, conditions, server, outbound, guards, packet, addresses)
      == if !AnySatisfied(world, conditions, packet, {}) then Onward(addresses)
         else if GuardHit(world, guards, packet, Asking(world, server, packet, addresses)) then Done(Blocked)
         else Done(To(outbound))
  {
    hide GuardHit;
    if conditions != [] {
      var n := |conditions| - 1;
      var init, last := conditions[..n], conditions[n];
      NameWalk(world, init, server, outbound, guards, packet, addresses);
      NameSatisfied(world, last, packet, addresses);
      NameSatisfied(world, last, packet, Asking(world, server, packet, addresses));
      assert AnySatisfied(world, conditions, packet, {})
        <==> AnySatisfied(world, init, packet, {}) || Satisfies(world, last, packet, {}) by {
        assert forall i :: 0 <= i < n ==> init[i] == conditions[i];
      }
      hide Satisfies, AnySatisfied, Asking;
    }
  }

  lemma {:induction false} NameSatisfied(world: World, condition: Condition, packet: Packet, addresses: set<Address>)
    requires NameOnly(condition)
    ensures Satisfies(world, condition, packet, addresses) == Satisfies(world, condition, packet, {})
  {
  }

  /** Route rules without resolution: the first whose condition holds decides. */
  lemma {:induction false} RoutesMean(world: World, conditions: seq<Condition>, outbound: string, packet: Packet,
                                      addresses: set<Address>)
    ensures OutcomeOf(Evaluate(world, RulesFor(conditions, Route, Some(outbound), None), packet, addresses))
      == if AnySatisfied(world, conditions, packet, addresses) then Done(To(outbound)) else Onward(addresses)
  {
    var rules := RulesFor(conditions, Route, Some(outbound), None);
    if conditions != [] {
      assert rules[1..] == RulesFor(conditions[1..], Route, Some(outbound), None);
      RoutesMean(world, conditions[1..], outbound, packet, addresses);
      assert AnySatisfied(world, conditions, packet, addresses)
        <==> (Satisfies(world, conditions[0], packet, addresses)
              || AnySatisfied(world, conditions[1..], packet, addresses)) by {
        assert forall i :: 0 < i < |conditions| ==> conditions[i] == conditions[1..][i - 1];
      }
      hide AnySatisfied, Satisfies;
    }
  }

  // ---- The classes of the gateways --------------------------------------------------------------

  /** A class of pairs, bound. */
  predicate PairClass(entry: RouteClass, conditions: seq<Condition>, server: string, outbound: string) {
    && entry.preRoutes == RulesFor(conditions, Resolve, None, Some(server))
    && entry.routes == RulesFor(conditions, Route, Some(outbound), None)
    && entry.guards == [] && entry.fallback == BLOCKED
  }

  lemma {:induction false} PairsBind(name: string, outbound: string, resolver: string, timeoutPolicy: string,
                                     fallback: string, dns: seq<Rule>, conditions: seq<Condition>)
    requires TrafficClass(name, outbound, resolver, timeoutPolicy, fallback, dns,
                          RulesFor(conditions, Resolve, None, None), [],
                            RulesFor(conditions, Route, None, None)).Success?
    requires fallback == BLOCKED
    ensures PairClass(TrafficClass(name, outbound, resolver, timeoutPolicy, fallback, dns,
                                   RulesFor(conditions, Resolve, None, None), [],
                                   RulesFor(conditions, Route, None, None)).value, conditions, resolver, outbound)
  {
    var resolves, routes := RulesFor(conditions, Resolve, None, None), RulesFor(conditions, Route, None, None);
    TrafficClassBinds(name, outbound, resolver, timeoutPolicy, fallback, dns, resolves, [], routes);
    var c := TrafficClass(name, outbound, resolver, timeoutPolicy, fallback, dns, resolves, [], routes).value;
    hide TrafficClass;
    forall i | 0 <= i < |conditions|
      ensures c.preRoutes[i] == Rule(None, None, conditions[i], Resolve, None, Some(resolver))
      ensures c.routes[i] == Rule(None, None, conditions[i], Route, Some(outbound), None)
    {
      assert c.preRoutes[i] in c.preRoutes && c.routes[i] in c.routes;
    }
  }

  /** A class of route rules alone, bound. */
  predicate RouteOnly(entry: RouteClass, conditions: seq<Condition>, outbound: string) {
    entry.preRoutes == [] && entry.routes == RulesFor(conditions, Route, Some(outbound), None) && entry.guards == []
  }

  lemma {:induction false} RoutesBind(name: string, outbound: string, resolver: string, timeoutPolicy: string,
                                      fallback: string, conditions: seq<Condition>)
    requires TrafficClass(name, outbound, resolver, timeoutPolicy, fallback, [], [], [],
                          RulesFor(conditions, Route, None, None)).Success?
    ensures RouteOnly(TrafficClass(name, outbound, resolver, timeoutPolicy, fallback, [], [], [],
                                   RulesFor(conditions, Route, None, None)).value, conditions, outbound)
  {
    var routes := RulesFor(conditions, Route, None, None);
    TrafficClassBinds(name, outbound, resolver, timeoutPolicy, fallback, [], [], [], routes);
    var c := TrafficClass(name, outbound, resolver, timeoutPolicy, fallback, [], [], [], routes).value;
    hide TrafficClass;
    forall i | 0 <= i < |conditions|
      ensures c.routes[i] == Rule(None, None, conditions[i], Route, Some(outbound), None)
    {
      assert c.routes[i] in c.routes;
    }
  }

  // ---- The compiled list of a gateway -----------------------------------------------------------

  /** A class whose rules all come in pairs, if it has any. */
  predicate PairsOnly(entry: RouteClass) { !Mismatched(entry) && (entry.preRoutes == [] <==> entry.routes == []) }

  predicate WithoutRules(entry: RouteClass) { entry.preRoutes == [] && entry.routes == [] }

  /** What reading the classes one by one has collected. */
  predicate Collected(traffic: seq<RouteClass>, guards: seq<Rule>, pairs: seq<Rule>, terminals: seq<Rule>) {
    && (forall c :: c in traffic ==> !Mismatched(c))
    && PreOnly(traffic) == [] && Blocks(traffic, guards) == pairs && Terminals(traffic) == terminals
  }

  lemma {:induction false} CollectedMore(traffic: seq<RouteClass>, entry: RouteClass, guards: seq<Rule>,
                                         pairs: seq<Rule>, terminals: seq<Rule>)
    requires Collected(traffic, guards, pairs, terminals)
    ensures PairsOnly(entry) ==> Collected(traffic + [entry], guards, pairs + BlocksOf(entry, guards), terminals)
    ensures WithoutRules(entry) ==> Collected(traffic + [entry], guards, pairs, terminals)
    ensures entry.preRoutes == [] ==> Collected(traffic + [entry], guards, pairs, terminals + entry.routes)
  {
    var longer := traffic + [entry];
    assert longer[..|longer| - 1] == traffic;
    assert pairs + [] == pairs && terminals + [] == terminals;
  }

  /** The nine classes of a gateway: pairs, pairs, nothing, pairs, two guard classes, three with routes. */
  lemma {:induction false} GatewayCollected(a: RouteClass, b: RouteClass, c: RouteClass, d: RouteClass,
                                            pair: seq<RouteClass>, e: RouteClass, literals: seq<RouteClass>,
                                            guards: seq<Rule>)
    requires PairsOnly(a) && PairsOnly(b) && WithoutRules(c) && PairsOnly(d)
    requires |pair| == 2 && |literals| == 2 && WithoutRules(pair[0]) && WithoutRules(pair[1])
    requires e.preRoutes == [] && literals[0].preRoutes == [] && literals[1].preRoutes == []
    ensures Collected([a, b, c, d] + pair + [e] + literals, guards,
                      BlocksOf(a, guards) + BlocksOf(b, guards) + BlocksOf(d, guards),
                      e.routes + (literals[0].routes + literals[1].routes))
  {
    hide Collected, BlocksOf, Mismatched;
    var one, two := BlocksOf(a, guards), BlocksOf(a, guards) + BlocksOf(b, guards);
    var all := two + BlocksOf(d, guards);
    FirstCollected(a, b, c, d, guards);
    var four := [a, b, c, d];
    CollectedMore(four, pair[0], guards, all, []);
    CollectedMore(four + [pair[0]], pair[1], guards, all, []);
    assert four + [pair[0]] + [pair[1]] == four + pair;
    var six := four + pair;
    CollectedMore(six, e, guards, all, []);
    assert [] + e.routes == e.routes;
    CollectedMore(six + [e], literals[0], guards, all, e.routes);
    CollectedMore(six + [e] + [literals[0]], literals[1], guards, all, e.routes + literals[0].routes);
    assert six + [e] + [literals[0]] + [literals[1]] == six + [e] + literals;
    assert e.routes + literals[0].routes + literals[1].routes == e.routes + (literals[0].routes + literals[1].routes);
  }

  lemma {:induction false} FirstCollected(a: RouteClass, b: RouteClass, c: RouteClass, d: RouteClass, guards: seq<Rule>)
    requires PairsOnly(a) && PairsOnly(b) && WithoutRules(c) && PairsOnly(d)
    ensures Collected([a, b, c, d], guards, BlocksOf(a, guards) + BlocksOf(b, guards) + BlocksOf(d, guards), [])
  {
    NothingCollected(guards);
    hide Collected, BlocksOf, Mismatched;
    var one, two := BlocksOf(a, guards), BlocksOf(a, guards) + BlocksOf(b, guards);
    CollectedMore([], a, guards, [], []);
    assert [] + [a] == [a] && [] + one == one;
    CollectedMore([a], b, guards, one, []);
    assert [a] + [b] == [a, b];
    CollectedMore([a, b], c, guards, two, []);
    assert [a, b] + [c] == [a, b, c];
    CollectedMore([a, b, c], d, guards, two, []);
    assert [a, b, c] + [d] == [a, b, c, d];
  }

  lemma {:induction false} NothingCollected(guards: seq<Rule>)
    ensures Collected([], guards, [], [])
  {
  }

  /** Reading a compiled gateway list behind its control rules. */
  lemma {:induction false} GatewayReads(world: World, policy: Policy, guards: seq<Rule>, pairs: seq<Rule>,
                                        terminals: seq<Rule>, packet: Packet)
    requires Collected(policy.traffic, guards, pairs, terminals) && Guards(policy.traffic) == guards
             && AllReject(guards)
    ensures forall c :: c in policy.traffic ==> !Mismatched(c)
    ensures var start := Initial(packet);
      OutcomeOf(Evaluate(world, TrafficRules(policy), packet, start))
      == match OutcomeOf(Evaluate(world, pairs, packet, start))
         case Done(verdict) => Done(verdict)
         case Onward(known) =>
           if GuardHit(world, guards, packet, known) then Done(Blocked)
           else OutcomeOf(Evaluate(world, terminals, packet, known))
  {
    var start := Initial(packet);
    assert TrafficRules(policy) == pairs + (guards + terminals);
    hide Evaluate, TrafficRules, GuardHit, Collected, Guards, AllReject, Initial;
    EvaluateConcat(world, pairs, guards + terminals, packet, start);
    var first := Evaluate(world, pairs, packet, start);
    if first.Undecided? {
      EvaluateConcat(world, guards, terminals, packet, first.addresses);
      GuardsDecide(world, guards, packet, first.addresses);
    }
  }

  /** The control rules send port 53 of the public inbound out and leave the rest alone. */
  lemma {:induction false} ControlReads(world: World, rest: seq<Rule>, packet: Packet, outbound: string)
    ensures VerdictOf(Evaluate(world, ControlRules(outbound) + rest, packet, Initial(packet)))
      == if packet.inbound == "public-hy2-in" && packet.port == 53 then To(outbound)
         else VerdictOf(Evaluate(world, rest, packet, Initial(packet)))
  {
    var control := ControlRules(outbound);
    PassiveRules(world, control[..2], packet, Initial(packet));
    assert control == control[..2] + [control[2]];
    EvaluateConcat(world, control, rest, packet, Initial(packet));
    EvaluateConcat(world, control[..2], [control[2]], packet, Initial(packet));
    assert [control[2]][1..] == [];
    assert Matches(world, control[2], packet, Initial(packet))
      == (packet.inbound == "public-hy2-in" && packet.port == 53);
  }

  // ---- What the lists of names say -------------------------------------------------------------------

  predicate Among(name: string, names: seq<string>) { name in names }

  predicate Below(name: string, suffixes: seq<string>) {
    exists i :: 0 <= i < |suffixes| && EndsWith(name, suffixes[i])
  }

  /** The name belongs to the foreign services. */
  predicate ForeignName(lists: DnsLists, name: string) {
    Among(name, lists.foreignDomains) || Among(name, lists.ipv6OnlyDomains) || Below(name, lists.foreignSuffixes)
  }

  /** The text differs from each of these in more than the case of its letters. */
  predicate Differs(text: string, texts: seq<string>) {
    forall i :: 0 <= i < |texts| ==> Text.Lower(texts[i]) != Text.Lower(text)
  }

  /** The name is forced direct, by an entry that differs from every foreign one in more than case. */
  predicate DirectName(env: GatewayEnv, lists: DnsLists, name: string) {
    || (Among(name, env.directDomains)
        && Differs(name, lists.foreignDomains) && Differs(name, lists.ipv6OnlyDomains))
    || exists i :: 0 <= i < |env.directSuffixes| && EndsWith(name, env.directSuffixes[i])
         && Differs(env.directSuffixes[i], lists.foreignSuffixes)
  }

  lemma {:induction false} DistinctMembers(texts: seq<string>)
    ensures forall t :: t in Distinct(texts) <==> t in texts
  {
    if texts != [] {
      DistinctMembers(texts[..|texts| - 1]);
      assert texts == texts[..|texts| - 1] + [texts[|texts| - 1]];
    }
  }

  lemma {:induction false} WithoutMembers(texts: seq<string>, dropped: set<string>)
    ensures forall t :: t in Without(texts, dropped) <==> t in texts && Text.Lower(t) !in dropped
  {
    if texts != [] {
      WithoutMembers(texts[1..], dropped);
      assert texts == [texts[0]] + texts[1..];
    }
  }

  function ForeignConds(lists: DnsLists): seq<Condition> {
    [Domain(Distinct(lists.foreignDomains + lists.ipv6OnlyDomains)), DomainSuffix(lists.foreignSuffixes)]
  }

  lemma {:induction false} ForeignMeans(world: World, lists: DnsLists, packet: Packet)
    ensures AnySatisfied(world, ForeignConds(lists), packet, {})
      <==> packet.name.Some? && ForeignName(lists, packet.name.value)
  {
    var conditions := ForeignConds(lists);
    DistinctMembers(lists.foreignDomains + lists.ipv6OnlyDomains);
    BelowMeans(world, lists.foreignSuffixes, packet);
    assert AnySatisfied(world, conditions, packet, {})
      <==> Satisfies(world, conditions[0], packet, {}) || Satisfies(world, conditions[1], packet, {});
    hide Distinct;
  }

  lemma {:induction false} BelowMeans(world: World, suffixes: seq<string>, packet: Packet)
    ensures Satisfies(world, DomainSuffix(suffixes), packet, {})
            <==> packet.name.Some? && Below(packet.name.value, suffixes)
  {
    if packet.name.Some? && Below(packet.name.value, suffixes) {
      var i :| 0 <= i < |suffixes| && EndsWith(packet.name.value, suffixes[i]);
      assert suffixes[i] in suffixes;
    }
  }

  lemma {:induction false} LoweredMeans(texts: seq<string>, text: string)
    ensures Text.Lower(text) in LowerAll(texts) <==> !Differs(text, texts)
  {
  }

  function ConditionFor(texts: seq<string>, condition: Condition): seq<Condition> {
    if texts == [] then [] else [condition]
  }

  function DirectDomains(env: GatewayEnv, lists: DnsLists): seq<string> {
    Without(env.directDomains, LowerAll(lists.ipv6OnlyDomains) + LowerAll(lists.foreignDomains))
  }

  function DirectSuffixes(env: GatewayEnv, lists: DnsLists): seq<string> {
    Without(env.directSuffixes, LowerAll(lists.foreignSuffixes))
  }

  function DirectConds(env: GatewayEnv, lists: DnsLists): seq<Condition> {
    ConditionFor(DirectDomains(env, lists), Domain(DirectDomains(env, lists)))
    + ConditionFor(DirectSuffixes(env, lists), DomainSuffix(DirectSuffixes(env, lists)))
  }

  lemma {:induction false} DirectSplits(world: World, domains: seq<string>, suffixes: seq<string>, packet: Packet)
    ensures AnySatisfied(world, ConditionFor(domains, Domain(domains)) + ConditionFor(suffixes, DomainSuffix(suffixes)),
                         packet, {})
      <==> packet.name.Some? && (packet.name.value in domains || Below(packet.name.value, suffixes))
  {
    BelowMeans(world, suffixes, packet);
    var conditions := ConditionFor(domains, Domain(domains)) + ConditionFor(suffixes, DomainSuffix(suffixes));
    if packet.name.Some? && packet.name.value in domains { assert Satisfies(world, conditions[0], packet, {}); }
    if packet.name.Some? && Below(packet.name.value, suffixes) {
      assert Satisfies(world, conditions[|conditions| - 1], packet, {});
    }
  }

  lemma {:induction false} DirectMeans(world: World, env: GatewayEnv, lists: DnsLists, packet: Packet)
    ensures AnySatisfied(world, DirectConds(env, lists), packet, {})
      <==> packet.name.Some? && DirectName(env, lists, packet.name.value)
  {
    var domains, suffixes := DirectDomains(env, lists), DirectSuffixes(env, lists);
    DirectSplits(world, domains, suffixes, packet);
    WithoutMembers(env.directDomains, LowerAll(lists.ipv6OnlyDomains) + LowerAll(lists.foreignDomains));
    WithoutMembers(env.directSuffixes, LowerAll(lists.foreignSuffixes));
    hide Without, LowerAll, Differs, AnySatisfied;
    if packet.name.Some? {
      var name := packet.name.value;
      LoweredMeans(lists.ipv6OnlyDomains, name);
      LoweredMeans(lists.foreignDomains, name);
      forall t ensures Text.Lower(t) in LowerAll(lists.foreignSuffixes) <==> !Differs(t, lists.foreignSuffixes) {
        LoweredMeans(lists.foreignSuffixes, t);
      }
      if Below(name, suffixes) {
        var i :| 0 <= i < |suffixes| && EndsWith(name, suffixes[i]);
        assert suffixes[i] in suffixes;
        var j :| 0 <= j < |env.directSuffixes| && env.directSuffixes[j] == suffixes[i];
      }
      if exists j :: 0 <= j < |env.directSuffixes| && EndsWith(name, env.directSuffixes[j])
                     && Differs(env.directSuffixes[j], lists.foreignSuffixes) {
        var j :| 0 <= j < |env.directSuffixes| && EndsWith(name, env.directSuffixes[j])
                 && Differs(env.directSuffixes[j], lists.foreignSuffixes);
        assert env.directSuffixes[j] in suffixes;
        var i :| 0 <= i < |suffixes| && suffixes[i] == env.directSuffixes[j];
      }
    }
  }

  // ---- The verdicts --------------------------------------------------------------------------------

  /** Some address is private or in a blocked range. */
  ghost predicate Bad(world: World, env: GatewayEnv, addresses: set<Address>) {
    exists a :: a in addresses && (world.isPrivate(a) || exists c :: c in env.blockedCidrs && world.inCidr(c, a))
  }

  /** Ask this resolver, refuse bad addresses, and send the rest to this outbound. */
  ghost function Judged(world: World, env: GatewayEnv, packet: Packet, server: string, outbound: string): Verdict {
    if Bad(world, env, Asking(world, server, packet, Initial(packet))) then Blocked else To(outbound)
  }

  /** An address is the gateway's own or in a range forced direct, or the address set of RU knows it. */
  ghost predicate DirectAddress(world: World, env: GatewayEnv, packet: Packet, known: set<Address>) {
    || (exists a :: a in known && (exists c :: c in env.directCidrs && world.inCidr(c, a)))
    || (env.publicIp != "" && exists a :: a in known && world.inCidr(env.publicIp + "/32", a))
    || world.inRuleSet("ru-geoip", packet.name, known)
  }

  ghost predicate AnyAddress(world: World, known: set<Address>) {
    exists a :: a in known && (world.version(a) == 6 || world.inCidr("0.0.0.0/0", a))
  }

  /** What the dual gateway does with a packet. */
  ghost function DualVerdict(world: World, env: GatewayEnv, lists: DnsLists, packet: Packet): Verdict {
    var start := Initial(packet);
    var named := packet.name.Some?;
    if packet.inbound == "public-hy2-in" && packet.port == 53 then To("to-foreign")
    else if Bad(world, env, start) then Blocked
    else if named && ForeignName(lists, packet.name.value) then Judged(world, env, packet, "dns-global", "to-foreign")
    else if named && DirectName(env, lists, packet.name.value) then
      Judged(world, env, packet, "dns-ru-direct", "direct-ru")
    else
      var known := if world.inRuleSet("ru-geosite", packet.name, start)
                   then Asking(world, "dns-ru-direct", packet, start) else start;
      if Bad(world, env, known) then Blocked
      else if world.inRuleSet("ru-geosite", packet.name, known) then To("direct-ru")
      else if named && world.matchesRegex(NAME_PATTERN, packet.name.value) then
        Judged(world, env, packet, "dns-global", "to-foreign")
      else if DirectAddress(world, env, packet, known) then To("direct-ru")
      else if AnyAddress(world, known) then To("to-foreign")
      else Passed
  }

  /** What the single gateway does with a packet. */
  ghost function SingleVerdict(world: World, env: GatewayEnv, packet: Packet): Verdict {
    var start := Initial(packet);
    if packet.inbound == "public-hy2-in" && packet.port == 53 then To("local-egress")
    else if Bad(world, env, start) then Blocked
    else if packet.name.Some? && world.matchesRegex(NAME_PATTERN, packet.name.value) then
      Judged(world, env, packet, "dns-local", "local-egress")
    else if AnyAddress(world, start) then To("local-egress")
    else Passed
  }

  lemma {:induction false} BadIsHit(world: World, env: GatewayEnv, packet: Packet, addresses: set<Address>)
    ensures GuardHit(world, GuardRulesOf(env.blockedCidrs), packet, addresses) <==> Bad(world, env, addresses)
  {
    GatewayGuardHit(world, env.blockedCidrs, packet, addresses);
  }

  /** A bad literal address is refused by the guards of the first pair. */
  lemma {:induction false} BadWalk(world: World, conditions: seq<Condition>, server: string, outbound: string,
                                   env: GatewayEnv, packet: Packet)
    requires conditions != [] && Bad(world, env, Initial(packet))
    ensures Walk(world, conditions, server, outbound, GuardRulesOf(env.blockedCidrs), packet, Initial(packet))
      == Done(Blocked)
  {
    var n := |conditions| - 1;
    if n > 0 { BadWalk(world, conditions[..n], server, outbound, env, packet); }
    BadIsHit(world, env, packet, Initial(packet));
    hide GuardHit, Satisfies;
  }

  /** Names alone, in terms of bad addresses. */
  lemma {:induction false} NameVerdict(world: World, conditions: seq<Condition>, server: string, outbound: string,
                                       env: GatewayEnv, packet: Packet, addresses: set<Address>)
    requires !Bad(world, env, addresses) && forall i :: 0 <= i < |conditions| ==> NameOnly(conditions[i])
    requires packet.literal.Some? || packet.name.None? ==> addresses == Initial(packet)
    ensures Walk(world, conditions, server, outbound, GuardRulesOf(env.blockedCidrs), packet, addresses)
      == if AnySatisfied(world, conditions, packet, {}) then Done(Judged(world, env, packet, server, outbound))
         else Onward(addresses)
  {
    BadIsHit(world, env, packet, addresses);
    BadIsHit(world, env, packet, Asking(world, server, packet, addresses));
    NameWalk(world, conditions, server, outbound, GuardRulesOf(env.blockedCidrs), packet, addresses);
    assert Asking(world, server, packet, addresses) == Asking(world, server, packet, Initial(packet));
    hide GuardHit, Bad, Walk, AnySatisfied;
  }

  // ---- The dual gateway ------------------------------------------------------------------------------

  const SITE: Condition := RuleSet(["ru-geosite"])
  const NAMES: Condition := DomainRegex([NAME_PATTERN])

  /** The pairs of the dual gateway, read one class after the other. */
  ghost function DualWalk(world: World, env: GatewayEnv, lists: DnsLists, packet: Packet): Walked {
    var guards := GuardRulesOf(env.blockedCidrs);
    match Walk(world, ForeignConds(lists), DNS_GLOBAL, TO_FOREIGN, guards, packet, Initial(packet))
    case Done(verdict) => Done(verdict)
    case Onward(first) =>
      match Walk(world, DirectConds(env, lists) + [SITE], DNS_RU, DIRECT_RU, guards, packet, first)
      case Done(verdict) => Done(verdict)
      case Onward(second) => Walk(world, [NAMES], DNS_GLOBAL, TO_FOREIGN, guards, packet, second)
  }

  lemma {:induction false} OneStep(world: World, condition: Condition, server: string, outbound: string,
                                   guards: seq<Rule>, packet: Packet, addresses: set<Address>)
    ensures Walk(world, [condition], server, outbound, guards, packet, addresses)
      == Step(world, condition, server, outbound, guards, packet, addresses)
  {
    hide Step;
    assert [condition][..0] == [];
    assert Walk(world, [condition][..0], server, outbound, guards, packet, addresses) == Onward(addresses);
  }

  lemma {:induction false} PatternMeans(world: World, packet: Packet)
    ensures AnySatisfied(world, [NAMES], packet, {})
      <==> packet.name.Some? && world.matchesRegex(NAME_PATTERN, packet.name.value)
  {
    assert AnySatisfied(world, [NAMES], packet, {}) <==> Satisfies(world, [NAMES][0], packet, {});
    assert NAME_PATTERN in [NAME_PATTERN];
  }

  lemma {:induction false} SiteMeans(world: World, packet: Packet, addresses: set<Address>)
    ensures Satisfies(world, SITE, packet, addresses) <==> world.inRuleSet("ru-geosite", packet.name, addresses)
  {
    assert "ru-geosite" in ["ru-geosite"];
  }

  /** The three classes of pairs give the verdict down to the names, or hand on the addresses. */
  lemma {:induction false} DualWalkMeans(world: World, env: GatewayEnv, lists: DnsLists, packet: Packet)
    ensures var start := Initial(packet);
      var known := if world.inRuleSet("ru-geosite", packet.name, start)
                   then Asking(world, DNS_RU, packet, start) else start;
      DualWalk(world, env, lists, packet)
      == if Bad(world, env, start) then Done(Blocked)
         else if packet.name.Some? && ForeignName(lists, packet.name.value) then
           Done(Judged(world, env, packet, DNS_GLOBAL, TO_FOREIGN))
         else if packet.name.Some? && DirectName(env, lists, packet.name.value) then
           Done(Judged(world, env, packet, DNS_RU, DIRECT_RU))
         else if Bad(world, env, known) then Done(Blocked)
         else if world.inRuleSet("ru-geosite", packet.name, known) then Done(To(DIRECT_RU))
         else if packet.name.Some? && world.matchesRegex(NAME_PATTERN, packet.name.value) then
           Done(Judged(world, env, packet, DNS_GLOBAL, TO_FOREIGN))
         else Onward(known)
  {
    hide Walk, Bad, GuardHit, ForeignConds, DirectConds, AnySatisfied, ForeignName, DirectName, Satisfies, Judged,
         Asking;
    var start, guards := Initial(packet), GuardRulesOf(env.blockedCidrs);
    if Bad(world, env, start) {
      assert ForeignConds(lists) != [] by { ForeignShape(lists); }
      BadWalk(world, ForeignConds(lists), DNS_GLOBAL, TO_FOREIGN, env, packet);
    } else {
      ForeignShape(lists);
      NameVerdict(world, ForeignConds(lists), DNS_GLOBAL, TO_FOREIGN, env, packet, start);
      ForeignMeans(world, lists, packet);
      DirectShape(env, lists);
      NameVerdict(world, DirectConds(env, lists), DNS_RU, DIRECT_RU, env, packet, start);
      DirectMeans(world, env, lists, packet);
      WalkConcat(world, DirectConds(env, lists), [SITE], DNS_RU, DIRECT_RU, guards, packet, start);
      OneStep(world, SITE, DNS_RU, DIRECT_RU, guards, packet, start);
      var known := if world.inRuleSet("ru-geosite", packet.name, start) then Asking(world, DNS_RU, packet, start)
                   else start;
      SiteMeans(world, packet, start);
      SiteMeans(world, packet, known);
      BadIsHit(world, env, packet, known);
      PatternMeans(world, packet);
      StillInitial(world, packet, known, DNS_RU);
      if !Bad(world, env, known) { NameVerdict(world, [NAMES], DNS_GLOBAL, TO_FOREIGN, env, packet, known); }
    }
  }

  lemma {:induction false} StillInitial(world: World, packet: Packet, known: set<Address>, server: string)
    ensures packet.literal.Some? || packet.name.None? ==>
              Asking(world, server, packet, Initial(packet)) == Initial(packet)
  {
  }

  lemma {:induction false} ForeignShape(lists: DnsLists)
    ensures ForeignConds(lists) != [] && forall i :: 0 <= i < |ForeignConds(lists)| ==> NameOnly(ForeignConds(lists)[i])
  {
  }

  lemma {:induction false} DirectShape(env: GatewayEnv, lists: DnsLists)
    ensures forall i :: 0 <= i < |DirectConds(env, lists)| ==> NameOnly(DirectConds(env, lists)[i])
  {
  }

  function AddressConds(env: GatewayEnv): seq<Condition> {
    ConditionFor(DirectCidrs(env), IpCidr(DirectCidrs(env))) + [RuleSet(["ru-geoip"])]
  }

  lemma {:induction false} AddressMeans(world: World, env: GatewayEnv, packet: Packet, known: set<Address>)
    ensures AnySatisfied(world, AddressConds(env), packet, known) <==> DirectAddress(world, env, packet, known)
  {
    var conditions, cidrs := AddressConds(env), DirectCidrs(env);
    assert conditions[|conditions| - 1] == RuleSet(["ru-geoip"]) && "ru-geoip" in ["ru-geoip"];
    assert Satisfies(world, RuleSet(["ru-geoip"]), packet, known) <==> world.inRuleSet("ru-geoip", packet.name, known);
    if cidrs != [] { assert conditions[0] == IpCidr(cidrs); }
    assert forall c :: c in cidrs <==> c in env.directCidrs || (env.publicIp != "" && c == env.publicIp + "/32");
    assert AnySatisfied(world, conditions, packet, known)
      <==> (cidrs != [] && Satisfies(world, IpCidr(cidrs), packet, known))
           || world.inRuleSet("ru-geoip", packet.name, known);
    hide DirectCidrs;
  }

  lemma {:induction false} LiteralMeans(world: World, packet: Packet, known: set<Address>)
    ensures AnySatisfied(world, [IpVersion(6)], packet, known)
            || AnySatisfied(world, [IpCidr(["0.0.0.0/0"])], packet, known)
      <==> AnyAddress(world, known)
  {
    var six, four := [IpVersion(6)], [IpCidr(["0.0.0.0/0"])];
    assert AnySatisfied(world, six, packet, known) <==> Satisfies(world, six[0], packet, known);
    assert AnySatisfied(world, four, packet, known) <==> Satisfies(world, four[0], packet, known);
    assert "0.0.0.0/0" in ["0.0.0.0/0"];
  }

  // ---- The policies as built ---------------------------------------------------------------------------

  lemma {:induction false} ForeignIs(lists: DnsLists)
    ensures ForeignClass(lists).Success?
    ensures PairClass(ForeignClass(lists).value, ForeignConds(lists), DNS_GLOBAL, TO_FOREIGN)
  {
    ForeignBuilds(lists);
    assert ForeignConditions(lists, Resolve) == RulesFor(ForeignConds(lists), Resolve, None, None);
    assert ForeignConditions(lists, Route) == RulesFor(ForeignConds(lists), Route, None, None);
    hide TrafficClass, PairClass, RulesFor, ForeignConds;
    PairsBind("global_foreign", TO_FOREIGN, DNS_GLOBAL, "system", BLOCKED, ForeignConditions(lists, Route),
              ForeignConds(lists));
  }

  lemma {:induction false} DirectRules(domains: seq<string>, suffixes: seq<string>, action: Action)
    ensures var conditions := ConditionFor(domains, Domain(domains)) + ConditionFor(suffixes, DomainSuffix(suffixes))
            + [SITE];
      DirectConditions(domains, suffixes, action) == RulesFor(conditions, action, None, None)
  {
  }

  lemma {:induction false} DirectIs(env: GatewayEnv, lists: DnsLists)
    ensures DirectDomainClass(env, lists).Success?
    ensures PairClass(DirectDomainClass(env, lists).value, DirectConds(env, lists) + [SITE], DNS_RU, DIRECT_RU)
  {
    DirectDomainBuilds(env, lists);
    var domains, suffixes := DirectDomains(env, lists), DirectSuffixes(env, lists);
    DirectRules(domains, suffixes, Resolve);
    DirectRules(domains, suffixes, Route);
    hide TrafficClass, PairClass, RulesFor, Without, LowerAll, DirectConditions, ConditionFor;
    PairsBind("ru_direct_domain", DIRECT_RU, DNS_RU, "none", BLOCKED, DirectConditions(domains, suffixes, Route),
              DirectConds(env, lists) + [SITE]);
  }

  lemma {:induction false} NamesIs(outbound: string, resolver: string)
    requires !NonOutbound(outbound) && !NonOutbound(resolver)
    ensures NameClass(outbound, resolver).Success?
            && PairClass(NameClass(outbound, resolver).value, [NAMES], resolver, outbound)
  {
    NameBuilds(outbound, resolver);
    assert [Plain(NAMES, Resolve)] == RulesFor([NAMES], Resolve, None, None);
    assert [Plain(NAMES, Route)] == RulesFor([NAMES], Route, None, None);
    hide TrafficClass, PairClass, RulesFor;
    PairsBind("domain_foreign", outbound, resolver, "system", BLOCKED, [], [NAMES]);
  }

  lemma {:induction false} BareIs(name: string, fallback: string, dns: seq<Rule>, outbound: string, resolver: string)
    requires fallback in {"none", BLOCKED} && AllReject(dns)
    ensures BareClass(name, fallback, dns, outbound, resolver).Success?
    ensures WithoutRules(BareClass(name, fallback, dns, outbound, resolver).value)
  {
    BareBuilds(name, fallback, dns, outbound, resolver);
    TrafficClassBinds(name, outbound, resolver, "system", fallback, dns, [], [], []);
    hide TrafficClass;
  }

  lemma {:induction false} AddressesIs(env: GatewayEnv)
    ensures DirectIpClass(env).Success? && RouteOnly(DirectIpClass(env).value, AddressConds(env), DIRECT_RU)
  {
    DirectIpBuilds(env);
    var cidrs := DirectCidrs(env);
    assert Optional(cidrs, Plain(IpCidr(cidrs), Route)) + [Plain(RuleSet(["ru-geoip"]), Route)]
      == RulesFor(AddressConds(env), Route, None, None);
    hide TrafficClass, RouteOnly, RulesFor, AddressConds, DirectCidrs;
    RoutesBind("ru_direct_ip", DIRECT_RU, DNS_RU, "none", BLOCKED, AddressConds(env));
  }

  lemma {:induction false} LiteralsIs(outbound: string)
    requires !NonOutbound(outbound)
    ensures LiteralClasses(outbound).Success? && |LiteralClasses(outbound).value| == 2
    ensures RouteOnly(LiteralClasses(outbound).value[0], [IpVersion(6)], outbound)
    ensures RouteOnly(LiteralClasses(outbound).value[1], [IpCidr(["0.0.0.0/0"])], outbound)
  {
    LiteralClassesBuild(outbound);
    assert [Plain(IpVersion(6), Route)] == RulesFor([IpVersion(6)], Route, None, None);
    assert [Plain(IpCidr(["0.0.0.0/0"]), Route)] == RulesFor([IpCidr(["0.0.0.0/0"])], Route, None, None);
    hide TrafficClass, RouteOnly, RulesFor;
    RoutesBind("ipv6_literal_foreign", outbound, "none", "system", "none", [IpVersion(6)]);
    RoutesBind("ipv4_literal_foreign", outbound, "none", "system", "none", [IpCidr(["0.0.0.0/0"])]);
  }

  /** The compiled pairs of one class. */
  function PairRules(conditions: seq<Condition>, server: string, outbound: string, guards: seq<Rule>): seq<Rule> {
    Paired(RulesFor(conditions, Resolve, None, Some(server)), RulesFor(conditions, Route, Some(outbound), None), guards)
  }

  lemma {:induction false} PairBlocks(entry: RouteClass, conditions: seq<Condition>, server: string, outbound: string,
                                      guards: seq<Rule>)
    requires PairClass(entry, conditions, server, outbound) && conditions != []
    ensures PairsOnly(entry) && BlocksOf(entry, guards) == PairRules(conditions, server, outbound, guards)
  {
  }

  function DualPairs(env: GatewayEnv, lists: DnsLists): seq<Rule> {
    var guards := GuardRulesOf(env.blockedCidrs);
    PairRules(ForeignConds(lists), DNS_GLOBAL, TO_FOREIGN, guards)
    + PairRules(DirectConds(env, lists) + [SITE], DNS_RU, DIRECT_RU, guards)
    + PairRules([NAMES], DNS_GLOBAL, TO_FOREIGN, guards)
  }

  function LiteralRules(outbound: string): seq<Rule> {
    RulesFor([IpVersion(6)], Route, Some(outbound), None)
      + RulesFor([IpCidr(["0.0.0.0/0"])], Route, Some(outbound), None)
  }

  lemma {:induction false} GuardsQuiet(blockedCidrs: seq<string>)
    ensures var r := GuardClasses(blockedCidrs);
      r.Success? && |r.value| == 2 && WithoutRules(r.value[0]) && WithoutRules(r.value[1])
  {
    hide GuardClasses, WellBuilt, GuardRulesOf, NonOutbound;
    GuardClassesBuild(blockedCidrs);
  }

  function DnsRules(): seq<Rule> { [Plain(IpIsPrivate, Reject).(server := Some(DNS_GLOBAL))] }

  lemma {:induction false} DualTraffic(env: GatewayEnv, lists: DnsLists)
    requires env.dual && DualPolicy(env, lists).Success?
    ensures ForeignClass(lists).Success? && DirectDomainClass(env, lists).Success? && DirectIpClass(env).Success?
    ensures BareClass("dns_global", "none", DnsRules(), TO_FOREIGN, DNS_GLOBAL).Success?
    ensures NameClass(TO_FOREIGN, DNS_GLOBAL).Success?
    ensures GuardClasses(env.blockedCidrs).Success? && LiteralClasses(TO_FOREIGN).Success?
    ensures DualPolicy(env, lists).value.traffic
      == [ForeignClass(lists).value, DirectDomainClass(env, lists).value,
          BareClass("dns_global", "none", DnsRules(), TO_FOREIGN, DNS_GLOBAL).value,
          NameClass(TO_FOREIGN, DNS_GLOBAL).value]
         + GuardClasses(env.blockedCidrs).value + [DirectIpClass(env).value] + LiteralClasses(TO_FOREIGN).value
  {
    hide ForeignClass, DirectDomainClass, BareClass, NameClass, GuardClasses, DirectIpClass, LiteralClasses;
  }

  /** The classes of the dual policy, compiled. */
  lemma {:induction false} DualCompiled(env: GatewayEnv, lists: DnsLists)
    requires env.dual && DualPolicy(env, lists).Success?
    ensures Collected(DualPolicy(env, lists).value.traffic, GuardRulesOf(env.blockedCidrs), DualPairs(env, lists),
                      RulesFor(AddressConds(env), Route, Some(DIRECT_RU), None) + LiteralRules(TO_FOREIGN))
  {
    hide ForeignClass, DirectDomainClass, BareClass, NameClass, GuardClasses, DirectIpClass, LiteralClasses, DualPolicy,
      BlocksOf, Collected, RulesFor, GuardRulesOf, ForeignConds, DirectConds, AddressConds, WithoutRules, PairRules,
      PairClass, PairsOnly, NonOutbound;
    var guards := GuardRulesOf(env.blockedCidrs);
    DualTraffic(env, lists);
    ForeignIs(lists);
    ForeignShape(lists);
    PairBlocks(ForeignClass(lists).value, ForeignConds(lists), DNS_GLOBAL, TO_FOREIGN, guards);
    DirectIs(env, lists);
    PairBlocks(DirectDomainClass(env, lists).value, DirectConds(env, lists) + [SITE], DNS_RU, DIRECT_RU, guards);
    BareIs("dns_global", "none", DnsRules(), TO_FOREIGN, DNS_GLOBAL);
    NamesAre(TO_FOREIGN, DNS_GLOBAL, guards);
    GuardsQuiet(env.blockedCidrs);
    AddressesIs(env);
    LiteralsAre(TO_FOREIGN);
    GatewayCollected(ForeignClass(lists).value, DirectDomainClass(env, lists).value,
                     BareClass("dns_global", "none", DnsRules(), TO_FOREIGN, DNS_GLOBAL).value,
                     NameClass(TO_FOREIGN, DNS_GLOBAL).value, GuardClasses(env.blockedCidrs).value,
                     DirectIpClass(env).value, LiteralClasses(TO_FOREIGN).value, guards);
  }

  lemma {:induction false} NamesAre(outbound: string, resolver: string, guards: seq<Rule>)
    requires outbound in {TO_FOREIGN, LOCAL_EGRESS} && resolver in {DNS_GLOBAL, DNS_LOCAL}
    ensures NameClass(outbound, resolver).Success? && PairsOnly(NameClass(outbound, resolver).value)
    ensures BlocksOf(NameClass(outbound, resolver).value, guards) == PairRules([NAMES], resolver, outbound, guards)
  {
    NamesIs(outbound, resolver);
    hide NameClass, BlocksOf, PairRules, PairClass, PairsOnly;
    PairBlocks(NameClass(outbound, resolver).value, [NAMES], resolver, outbound, guards);
  }

  lemma {:induction false} LiteralsAre(outbound: string)
    requires outbound in {TO_FOREIGN, LOCAL_EGRESS}
    ensures var r := LiteralClasses(outbound);
      && r.Success? && |r.value| == 2 && r.value[0].preRoutes == [] && r.value[1].preRoutes == []
      && r.value[0].routes + r.value[1].routes == LiteralRules(outbound)
  {
    LiteralsIs(outbound);
    hide LiteralClasses, RulesFor;
  }

  /** Reading the three classes of pairs. */
  lemma {:induction false} DualPairsRead(world: World, env: GatewayEnv, lists: DnsLists, packet: Packet)
    ensures OutcomeOf(Evaluate(world, DualPairs(env, lists), packet, Initial(packet)))
            == DualWalk(world, env, lists, packet)
  {
    var guards, direct := GuardRulesOf(env.blockedCidrs), DirectConds(env, lists) + [SITE];
    assert AllReject(guards);
    var p := PairRules(ForeignConds(lists), DNS_GLOBAL, TO_FOREIGN, guards);
    var q := PairRules(direct, DNS_RU, DIRECT_RU, guards);
    var r := PairRules([NAMES], DNS_GLOBAL, TO_FOREIGN, guards);
    hide RulesFor, Paired, Evaluate, Walk, ForeignConds, DirectConds, GuardRulesOf, AllReject;
    EvaluateConcat(world, p + q, r, packet, Initial(packet));
    EvaluateConcat(world, p, q, packet, Initial(packet));
    PairsMean(world, ForeignConds(lists), DNS_GLOBAL, TO_FOREIGN, guards, packet, Initial(packet));
    var first := Evaluate(world, p, packet, Initial(packet));
    if first.Undecided? {
      PairsMean(world, direct, DNS_RU, DIRECT_RU, guards, packet, first.addresses);
      var second := Evaluate(world, q, packet, first.addresses);
      if second.Undecided? { PairsMean(world, [NAMES], DNS_GLOBAL, TO_FOREIGN, guards, packet, second.addresses); }
    }
  }

  lemma {:induction false} AllGuardsReject(blockedCidrs: seq<string>)
    ensures AllReject(GuardRulesOf(blockedCidrs))
  {
  }

  /** The route rules behind the guards. */
  lemma {:induction false} DualTerminals(world: World, env: GatewayEnv, packet: Packet, known: set<Address>)
    ensures var direct := RulesFor(AddressConds(env), Route, Some(DIRECT_RU), None);
      OutcomeOf(Evaluate(world, direct + LiteralRules(TO_FOREIGN), packet, known))
      == if DirectAddress(world, env, packet, known) then Done(To(DIRECT_RU))
         else if AnyAddress(world, known) then Done(To(TO_FOREIGN)) else Onward(known)
  {
    hide Evaluate, RulesFor, AddressConds, LiteralRules, AnyAddress, DirectAddress, AnySatisfied;
    EvaluateConcat(world, RulesFor(AddressConds(env), Route, Some(DIRECT_RU), None), LiteralRules(TO_FOREIGN), packet,
                   known);
    RoutesMean(world, AddressConds(env), DIRECT_RU, packet, known);
    LiteralsRead(world, TO_FOREIGN, packet, known);
    AddressMeans(world, env, packet, known);
  }

  /** Everything behind the control rules. */
  lemma {:induction false} DualReads(world: World, env: GatewayEnv, lists: DnsLists, packet: Packet)
    requires env.dual && DualPolicy(env, lists).Success? && Dependable(DualPolicy(env, lists).value, env, TO_FOREIGN)
    ensures forall c :: c in DualPolicy(env, lists).value.traffic ==> !Mismatched(c)
    ensures OutcomeOf(Evaluate(world, TrafficRules(DualPolicy(env, lists).value), packet, Initial(packet)))
      == match DualWalk(world, env, lists, packet)
         case Done(verdict) => Done(verdict)
         case Onward(known) =>
           if Bad(world, env, known) then Done(Blocked)
           else if DirectAddress(world, env, packet, known) then Done(To(DIRECT_RU))
           else if AnyAddress(world, known) then Done(To(TO_FOREIGN)) else Onward(known)
  {
    var policy, guards := DualPolicy(env, lists).value, GuardRulesOf(env.blockedCidrs);
    assert Guards(policy.traffic) == guards;
    hide DualPolicy, Dependable, RulesFor, Evaluate, AddressConds, GuardRulesOf, Collected, TrafficRules, DualWalk, Bad,
      Guards, AllReject, GuardHit, DualPairs, LiteralRules, DirectAddress, AnyAddress, Initial;
    AllGuardsReject(env.blockedCidrs);
    DualCompiled(env, lists);
    GatewayReads(world, policy, guards, DualPairs(env, lists),
                 RulesFor(AddressConds(env), Route, Some(DIRECT_RU), None) + LiteralRules(TO_FOREIGN), packet);
    DualPairsRead(world, env, lists, packet);
    var walked := DualWalk(world, env, lists, packet);
    if walked.Onward? {
      BadIsHit(world, env, packet, walked.addresses);
      DualTerminals(world, env, packet, walked.addresses);
    }
  }

  /** For every dual environment and every packet: the compiled policy gives exactly this verdict. */
  lemma {:induction false} DualMeans(world: World, env: GatewayEnv, lists: DnsLists, packet: Packet)
    requires env.dual
    ensures DualPolicy(env, lists).Success? && RouteRules(DualPolicy(env, lists).value).Success?
    ensures VerdictOf(Evaluate(world, RouteRules(DualPolicy(env, lists).value).value, packet, Initial(packet)))
      == DualVerdict(world, env, lists, packet)
  {
    DualBuilds(env, lists);
    var policy := DualPolicy(env, lists).value;
    assert policy.control == ControlRules(TO_FOREIGN);
    DualReads(world, env, lists, packet);
    hide DualPolicy, Dependable, RouteRules, Evaluate, TrafficRules, DualWalk, Bad, ControlRules, ForeignName,
         DirectName,
      Judged, DirectAddress, AnyAddress, Asking;
    DualWalkMeans(world, env, lists, packet);
    ControlReads(world, TrafficRules(policy), packet, TO_FOREIGN);
  }

  lemma {:induction false} LiteralsRead(world: World, outbound: string, packet: Packet, known: set<Address>)
    ensures OutcomeOf(Evaluate(world, LiteralRules(outbound), packet, known))
      == if AnyAddress(world, known) then Done(To(outbound)) else Onward(known)
  {
    hide RulesFor, Evaluate, AnySatisfied, AnyAddress;
    RoutesMean(world, [IpVersion(6)], outbound, packet, known);
    RoutesMean(world, [IpCidr(["0.0.0.0/0"])], outbound, packet, known);
    LiteralMeans(world, packet, known);
    EvaluateConcat(world, RulesFor([IpVersion(6)], Route, Some(outbound), None),
                   RulesFor([IpCidr(["0.0.0.0/0"])], Route, Some(outbound), None), packet, known);
  }

  // ---- The single gateway ------------------------------------------------------------------------------

  function BareLocal(name: string, fallback: string): Result<RouteClass, PolicyError> {
    BareClass(name, fallback, [], LOCAL_EGRESS, DNS_LOCAL)
  }

  lemma {:induction false} SingleTraffic(env: GatewayEnv)
    requires !env.dual && SinglePolicy(env).Success?
    ensures BareLocal("global_foreign", BLOCKED).Success? && BareLocal("ru_direct_domain", BLOCKED).Success?
    ensures BareLocal("dns_global", "none").Success? && BareLocal("ru_direct_ip", "none").Success?
    ensures NameClass(LOCAL_EGRESS, DNS_LOCAL).Success?
    ensures GuardClasses(env.blockedCidrs).Success? && LiteralClasses(LOCAL_EGRESS).Success?
    ensures SinglePolicy(env).value.traffic
      == [BareLocal("global_foreign", BLOCKED).value, BareLocal("ru_direct_domain", BLOCKED).value,
          BareLocal("dns_global", "none").value, NameClass(LOCAL_EGRESS, DNS_LOCAL).value]
         + GuardClasses(env.blockedCidrs).value + [BareLocal("ru_direct_ip", "none").value]
         + LiteralClasses(LOCAL_EGRESS).value
  {
    hide BareClass, NameClass, GuardClasses, LiteralClasses;
  }

  lemma {:induction false} BareLocalIs(name: string, fallback: string, guards: seq<Rule>)
    requires fallback in {"none", BLOCKED}
    ensures BareLocal(name, fallback).Success?
    ensures var c := BareLocal(name, fallback).value;
      WithoutRules(c) && PairsOnly(c) && BlocksOf(c, guards) == [] && c.routes == [] && c.preRoutes == []
  {
    hide BareClass;
    BareIs(name, fallback, [], LOCAL_EGRESS, DNS_LOCAL);
  }

  lemma {:induction false} SingleCompiled(env: GatewayEnv)
    requires !env.dual && SinglePolicy(env).Success?
    ensures var guards := GuardRulesOf(env.blockedCidrs);
      Collected(SinglePolicy(env).value.traffic, guards, PairRules([NAMES], DNS_LOCAL, LOCAL_EGRESS, guards),
                LiteralRules(LOCAL_EGRESS))
  {
    hide BareLocal, NameClass, GuardClasses, LiteralClasses, SinglePolicy, BlocksOf, Collected, RulesFor, GuardRulesOf,
      WithoutRules, PairRules, PairsOnly, LiteralRules;
    var guards := GuardRulesOf(env.blockedCidrs);
    SingleTraffic(env);
    BareLocalIs("global_foreign", BLOCKED, guards);
    BareLocalIs("ru_direct_domain", BLOCKED, guards);
    BareLocalIs("dns_global", "none", guards);
    BareLocalIs("ru_direct_ip", "none", guards);
    NamesAre(LOCAL_EGRESS, DNS_LOCAL, guards);
    GuardsQuiet(env.blockedCidrs);
    LiteralsAre(LOCAL_EGRESS);
    GatewayCollected(BareLocal("global_foreign", BLOCKED).value, BareLocal("ru_direct_domain", BLOCKED).value,
                     BareLocal("dns_global", "none").value, NameClass(LOCAL_EGRESS, DNS_LOCAL).value,
                     GuardClasses(env.blockedCidrs).value, BareLocal("ru_direct_ip", "none").value,
                     LiteralClasses(LOCAL_EGRESS).value, guards);
    var pairs := PairRules([NAMES], DNS_LOCAL, LOCAL_EGRESS, guards);
    assert [] + [] + pairs == pairs && [] + LiteralRules(LOCAL_EGRESS) == LiteralRules(LOCAL_EGRESS);
  }

  /** For every single-gateway environment and every packet: the compiled policy gives exactly this verdict. */
  lemma {:induction false} SingleMeans(world: World, env: GatewayEnv, packet: Packet)
    requires !env.dual
    ensures SinglePolicy(env).Success? && RouteRules(SinglePolicy(env).value).Success?
    ensures VerdictOf(Evaluate(world, RouteRules(SinglePolicy(env).value).value, packet, Initial(packet)))
      == SingleVerdict(world, env, packet)
  {
    SingleBuilds(env);
    SingleCompiled(env);
    var policy, guards := SinglePolicy(env).value, GuardRulesOf(env.blockedCidrs);
    assert AllReject(guards);
    hide SinglePolicy, RouteRules, RulesFor, Evaluate, GuardRulesOf, Collected, TrafficRules, Bad, Guards, WellBuilt,
      ControlRules, AllReject, GuardHit, Judged, Walk, LiteralRules, AnySatisfied, AnyAddress;
    GatewayReads(world, policy, guards, PairRules([NAMES], DNS_LOCAL, LOCAL_EGRESS, guards),
                 LiteralRules(LOCAL_EGRESS), packet);
    ControlReads(world, TrafficRules(policy), packet, LOCAL_EGRESS);
    var start := Initial(packet);
    PairsMean(world, [NAMES], DNS_LOCAL, LOCAL_EGRESS, guards, packet, start);
    PatternMeans(world, packet);
    BadIsHit(world, env, packet, start);
    LiteralsRead(world, LOCAL_EGRESS, packet, start);
    if Bad(world, env, start) {
      BadWalk(world, [NAMES], DNS_LOCAL, LOCAL_EGRESS, env, packet);
    } else {
      NameVerdict(world, [NAMES], DNS_LOCAL, LOCAL_EGRESS, env, packet, start);
    }
  }
}
