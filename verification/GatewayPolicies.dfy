/** The two gateway policies of routing_policy.py: the dual topology with its RU split, and the
    single gateway with one local egress. The topology is a flag and a public address; the
    domain lists of dns_policy.py and the lists of the environment are parameters. */
module GatewayPolicies {
  import opened Wrappers
  import Text
  import opened RouteSemantics
  import opened RoutingPolicy

  datatype GatewayEnv = GatewayEnv(dual: bool, publicIp: string, directDomains: seq<string>,
                                   directSuffixes: seq<string>, directCidrs: seq<string>, blockedCidrs: seq<string>)

  datatype DnsLists = DnsLists(foreignDomains: seq<string>, ipv6OnlyDomains: seq<string>, foreignSuffixes: seq<string>)

  function LowerAll(texts: seq<string>): set<string> { set t | t in texts :: Text.Lower(t) }

  function Without(texts: seq<string>, dropped: set<string>): seq<string> {
    if texts == [] then []
    else (if Text.Lower(texts[0]) in dropped then [] else [texts[0]]) + Without(texts[1..], dropped)
  }

  /** dict.fromkeys: the first occurrence of every text. */
  function Distinct(texts: seq<string>): seq<string> {
    if texts == [] then []
    else
      var before := Distinct(texts[..|texts| - 1]);
      if texts[|texts| - 1] in before then before else before + [texts[|texts| - 1]]
  }

  function Plain(condition: Condition, action: Action): Rule { Rule(None, None, condition, action, None, None) }

  function Optional(texts: seq<string>, rule: Rule): seq<Rule> { if texts == [] then [] else [rule] }

  const NAME_PATTERN: string := "^[^:]*[A-Za-z][^:]*$"
  const TO_FOREIGN: string := "to-foreign"
  const DIRECT_RU: string := "direct-ru"
  const LOCAL_EGRESS: string := "local-egress"
  const DNS_GLOBAL: string := "dns-global"
  const DNS_RU: string := "dns-ru-direct"
  const DNS_LOCAL: string := "dns-local"

  function ControlRules(outbound: string): seq<Rule> {
    [Rule(Some(["router-in"]), None, Anything, Sniff, None, None),
     Plain(Anything, RouteOptions),
     Rule(Some(["public-hy2-in"]), Some(53), Anything, Route, Some(outbound), None)]
  }

  function GuardClasses(blockedCidrs: seq<string>): Result<seq<RouteClass>, PolicyError> {
    var blocked :- TrafficClass("blocked", "reject", "none", "none", "none", [], [],
                                Optional(blockedCidrs, Plain(IpCidr(blockedCidrs), Reject)), []);
    var privates :- TrafficClass("private_or_fake", "reject", "none", "none", "none", [], [],
                                 [Plain(IpIsPrivate, Reject)], []);
    Success([blocked, privates])
  }

  function LiteralClasses(outbound: string): Result<seq<RouteClass>, PolicyError> {
    var six :- TrafficClass("ipv6_literal_foreign", outbound, "none", "system", "none", [], [], [],
                            [Plain(IpVersion(6), Route)]);
    var four :- TrafficClass("ipv4_literal_foreign", outbound, "none", "system", "none", [], [], [],
                             [Plain(IpCidr(["0.0.0.0/0"]), Route)]);
    Success([six, four])
  }

  function DirectConditions(domains: seq<string>, suffixes: seq<string>, action: Action): seq<Rule> {
    Optional(domains, Plain(Domain(domains), action)) + Optional(suffixes, Plain(DomainSuffix(suffixes), action))
    + [Plain(RuleSet(["ru-geosite"]), action)]
  }

  function DirectCidrs(env: GatewayEnv): seq<string> {
    if env.publicIp == "" || env.publicIp + "/32" in env.directCidrs then env.directCidrs
    else env.directCidrs + [env.publicIp + "/32"]
  }

  function ForeignConditions(lists: DnsLists, action: Action): seq<Rule> {
    [Plain(Domain(Distinct(lists.foreignDomains + lists.ipv6OnlyDomains)), action),
     Plain(DomainSuffix(lists.foreignSuffixes), action)]
  }

  function ForeignClass(lists: DnsLists): Result<RouteClass, PolicyError> {
    TrafficClass("global_foreign", TO_FOREIGN, DNS_GLOBAL, "system", BLOCKED,
                 ForeignConditions(lists, Route), ForeignConditions(lists, Resolve), [],
                 ForeignConditions(lists, Route))
  }

  function DirectDomainClass(env: GatewayEnv, lists: DnsLists): Result<RouteClass, PolicyError> {
    var domains := Without(env.directDomains, LowerAll(lists.ipv6OnlyDomains) + LowerAll(lists.foreignDomains));
    var suffixes := Without(env.directSuffixes, LowerAll(lists.foreignSuffixes));
    TrafficClass("ru_direct_domain", DIRECT_RU, DNS_RU, "none", BLOCKED, DirectConditions(domains, suffixes, Route),
                 DirectConditions(domains, suffixes, Resolve), [], DirectConditions(domains, suffixes, Route))
  }

  function DirectIpClass(env: GatewayEnv): Result<RouteClass, PolicyError> {
    var cidrs := DirectCidrs(env);
    TrafficClass("ru_direct_ip", DIRECT_RU, DNS_RU, "none", BLOCKED, [], [], [],
                 Optional(cidrs, Plain(IpCidr(cidrs), Route)) + [Plain(RuleSet(["ru-geoip"]), Route)])
  }

  function NameClass(outbound: string, resolver: string): Result<RouteClass, PolicyError> {
    TrafficClass("domain_foreign", outbound, resolver, "system", BLOCKED, [],
                 [Plain(DomainRegex([NAME_PATTERN]), Resolve)], [], [Plain(DomainRegex([NAME_PATTERN]), Route)])
  }

  function BareClass(name: string, fallback: string, dns: seq<Rule>, outbound: string,
                     resolver: string): Result<RouteClass, PolicyError> {
    TrafficClass(name, outbound, resolver, "system", fallback, dns, [], [], [])
  }

  function Assemble(four: seq<RouteClass>, guards: seq<RouteClass>, addresses: RouteClass, literals: seq<RouteClass>,
                    outbounds: seq<string>, outbound: string): Policy
  {
    Policy(four + guards + [addresses] + literals, ControlRules(outbound), outbounds, outbound)
  }

  /** build_ru_routing_policy. */
  function DualPolicy(env: GatewayEnv, lists: DnsLists): Result<Policy, PolicyError> {
    if !env.dual then Failure(WrongTopology)
    else
      var global :- ForeignClass(lists);
      var direct :- DirectDomainClass(env, lists);
      var dnsGlobal :- BareClass("dns_global", "none", [Plain(IpIsPrivate, Reject).(server := Some(DNS_GLOBAL))],
                                 TO_FOREIGN, DNS_GLOBAL);
      var names :- NameClass(TO_FOREIGN, DNS_GLOBAL);
      var guards :- GuardClasses(env.blockedCidrs);
      var addresses :- DirectIpClass(env);
      var literals :- LiteralClasses(TO_FOREIGN);
      Success(Assemble([global, direct, dnsGlobal, names], guards, addresses, literals, [DIRECT_RU, TO_FOREIGN],
                       TO_FOREIGN))
  }

  /** build_single_gateway_routing_policy. */
  function SinglePolicy(env: GatewayEnv): Result<Policy, PolicyError> {
    if env.dual then Failure(WrongTopology)
    else
      var global :- BareClass("global_foreign", BLOCKED, [], LOCAL_EGRESS, DNS_LOCAL);
      var direct :- BareClass("ru_direct_domain", BLOCKED, [], LOCAL_EGRESS, DNS_LOCAL);
      var dnsGlobal :- BareClass("dns_global", "none", [], LOCAL_EGRESS, DNS_LOCAL);
      var names :- NameClass(LOCAL_EGRESS, DNS_LOCAL);
      var guards :- GuardClasses(env.blockedCidrs);
      var addresses :- BareClass("ru_direct_ip", "none", [], LOCAL_EGRESS, DNS_LOCAL);
      var literals :- LiteralClasses(LOCAL_EGRESS);
      Success(Assemble([global, direct, dnsGlobal, names], guards, addresses, literals, [LOCAL_EGRESS], LOCAL_EGRESS))
  }

  // ---- What the builders guarantee -----------------------------------------------------------------

  lemma {:induction false} BindSucceeds(rules: seq<Rule>, action: Action, key: TargetKey, target: string)
    requires forall r :: r in rules ==> BindProblem(r, action, key, target).None?
    ensures Bind(rules, action, key, target).Success?
  {
    if rules != [] {
      assert rules[|rules| - 1] in rules;
      BindSucceeds(rules[..|rules| - 1], action, key, target);
    }
  }

  /** Rules that look at neither inbound nor port. */
  predicate Unscoped(rules: seq<Rule>) { forall r :: r in rules ==> r.inbound.None? && r.port.None? }

  predicate UnscopedClass(entry: RouteClass) {
    Unscoped(entry.preRoutes) && Unscoped(entry.guards) && Unscoped(entry.routes)
  }

  /** The rules of a class name no target that contradicts the class. */
  predicate Bindable(outbound: string, resolver: string, dns: seq<Rule>, preRoutes: seq<Rule>, guards: seq<Rule>,
                     routes: seq<Rule>) {
    && Unscoped(preRoutes) && Unscoped(guards) && Unscoped(routes)
    && (forall r :: r in dns ==> BindProblem(r, Route, ServerKey, resolver).None?)
    && (forall r :: r in preRoutes ==> r.action.Resolve? && r.server.None?)
    && AllReject(guards)
    && (forall r :: r in routes ==> r.action.Route? && r.outbound.None?)
    && (preRoutes != [] ==> !NonOutbound(resolver))
    && (routes != [] ==> !NonOutbound(outbound))
  }

  lemma {:induction false} ClassSucceeds(name: string, outbound: string, resolver: string, timeoutPolicy: string,
                                         fallback: string, dns: seq<Rule>, preRoutes: seq<Rule>, guards: seq<Rule>,
                                         routes: seq<Rule>)
    requires timeoutPolicy in {"none", "system"} && fallback in {"none", BLOCKED}
    requires Bindable(outbound, resolver, dns, preRoutes, guards, routes)
    ensures TrafficClass(name, outbound, resolver, timeoutPolicy, fallback, dns, preRoutes, guards, routes).Success?
  {
    BindSucceeds(dns, Route, ServerKey, resolver);
    BindSucceeds(preRoutes, Resolve, ServerKey, resolver);
    BindSucceeds(guards, Route, OutboundKey, outbound);
    BindSucceeds(routes, Route, OutboundKey, outbound);
    hide Bind, Bindable;
  }

  /** A class whose rules name no target yet binds without a problem and keeps its shape. */
  lemma {:induction false} ClassBuilds(name: string, outbound: string, resolver: string, timeoutPolicy: string,
                                       fallback: string, dns: seq<Rule>, preRoutes: seq<Rule>, guards: seq<Rule>,
                                       routes: seq<Rule>)
    requires timeoutPolicy in {"none", "system"} && fallback in {"none", BLOCKED}
    requires Bindable(outbound, resolver, dns, preRoutes, guards, routes)
    requires preRoutes != [] && routes != [] ==> fallback == BLOCKED && |preRoutes| == |routes|
    ensures var c := TrafficClass(name, outbound, resolver, timeoutPolicy, fallback, dns, preRoutes, guards, routes);
      && c.Success? && BoundClass(c.value) && ShapedClass(c.value) && BlockingClass(c.value) && !Mismatched(c.value)
      && UnscopedClass(c.value) && c.value.guards == guards && |c.value.preRoutes| == |preRoutes|
         && |c.value.routes| == |routes|
      && c.value.outbound == outbound && c.value.resolver == resolver && c.value.name == name
         && c.value.fallback == fallback
  {
    ClassSucceeds(name, outbound, resolver, timeoutPolicy, fallback, dns, preRoutes, guards, routes);
    TrafficClassBinds(name, outbound, resolver, timeoutPolicy, fallback, dns, preRoutes, guards, routes);
    hide Bind, TrafficClass, BoundClass;
    var c := TrafficClass(name, outbound, resolver, timeoutPolicy, fallback, dns, preRoutes, guards, routes).value;
    forall i | 0 <= i < |guards| ensures c.guards[i] == guards[i] {
      assert guards[i] in guards;
    }
    assert c.guards == guards;
    assert forall i :: 0 <= i < |routes| ==> routes[i] in routes;
    assert forall i :: 0 <= i < |preRoutes| ==> preRoutes[i] in preRoutes;
  }

  /** Well-built policies: every class bound, shaped and paired. */
  predicate WellBuilt(traffic: seq<RouteClass>) {
    forall c :: c in traffic ==> WellBuiltClass(c)
  }

  predicate WellBuiltClass(entry: RouteClass) {
    BoundClass(entry) && ShapedClass(entry) && BlockingClass(entry) && !Mismatched(entry) && UnscopedClass(entry)
  }

  function GuardRulesOf(blockedCidrs: seq<string>): seq<Rule> {
    Optional(blockedCidrs, Plain(IpCidr(blockedCidrs), Reject)) + [Plain(IpIsPrivate, Reject)]
  }

  lemma {:induction false} GuardClassesBuild(blockedCidrs: seq<string>)
    ensures var r := GuardClasses(blockedCidrs);
      r.Success? && |r.value| == 2 && WellBuilt(r.value)
      && r.value[0].guards + r.value[1].guards == GuardRulesOf(blockedCidrs)
      && (forall c :: c in r.value ==>
          c.preRoutes == [] && c.routes == [] && NonOutbound(c.outbound) && c.resolver == NO_TARGET)
  {
    ClassBuilds("blocked", "reject", "none", "none", "none", [], [],
                Optional(blockedCidrs, Plain(IpCidr(blockedCidrs), Reject)), []);
    ClassBuilds("private_or_fake", "reject", "none", "none", "none", [], [], [Plain(IpIsPrivate, Reject)], []);
    hide TrafficClass;
  }

  lemma {:induction false} LiteralClassesBuild(outbound: string)
    requires !NonOutbound(outbound)
    ensures var r := LiteralClasses(outbound);
      r.Success? && |r.value| == 2 && WellBuilt(r.value)
      && (forall c :: c in r.value ==>
          c.preRoutes == [] && c.guards == [] && c.outbound == outbound && c.resolver == NO_TARGET)
  {
    ClassBuilds("ipv6_literal_foreign", outbound, "none", "system", "none", [], [], [], [Plain(IpVersion(6), Route)]);
    ClassBuilds("ipv4_literal_foreign", outbound, "none", "system", "none", [], [], [],
                [Plain(IpCidr(["0.0.0.0/0"]), Route)]);
    hide TrafficClass;
  }

  lemma {:induction false} GuardsConcat(a: seq<RouteClass>, b: seq<RouteClass>)
    ensures Guards(a + b) == Guards(a) + Guards(b)
  {
    if b == [] {
      assert a + b == a;
    } else {
      assert (a + b)[..|a + b| - 1] == a + b[..|b| - 1];
      GuardsConcat(a, b[..|b| - 1]);
    }
  }

  lemma {:induction false} NoGuards(traffic: seq<RouteClass>)
    requires forall c :: c in traffic ==> c.guards == []
    ensures Guards(traffic) == []
  {
    if traffic != [] {
      assert traffic[|traffic| - 1] in traffic;
      NoGuards(traffic[..|traffic| - 1]);
    }
  }

  lemma {:induction false} GuardsOfPair(pair: seq<RouteClass>)
    requires |pair| == 2
    ensures Guards(pair) == pair[0].guards + pair[1].guards
  {
    assert pair[..1] == [pair[0]] && [pair[0]][..0] == [];
    assert Guards([pair[0]]) == pair[0].guards;
  }

  /** Classes around the two guard classes contribute no guard of their own. */
  lemma {:induction false} GuardsOfGateway(before: seq<RouteClass>, guards: seq<RouteClass>, after: seq<RouteClass>)
    requires |guards| == 2 && forall c :: c in before || c in after ==> c.guards == []
    ensures Guards(before + guards + after) == guards[0].guards + guards[1].guards
  {
    GuardsConcat(before + guards, after);
    GuardsConcat(before, guards);
    NoGuards(before);
    NoGuards(after);
    GuardsOfPair(guards);
    hide Guards;
  }

  /** What both builders guarantee about the policy they return. */
  ghost predicate Dependable(policy: Policy, env: GatewayEnv, outbound: string) {
    && WellBuilt(policy.traffic)
    && policy.control == ControlRules(outbound) && policy.finalOutbound == outbound
    && Guards(policy.traffic) == GuardRulesOf(env.blockedCidrs)
    && RouteRules(policy) == Success(policy.control + TrafficRules(policy))
  }

  /** A class that is well built and contributes no guard. */
  predicate Sober(built: Result<RouteClass, PolicyError>) {
    built.Success? && WellBuiltClass(built.value) && built.value.guards == []
  }

  lemma {:induction false} ForeignBuilds(lists: DnsLists)
    ensures Sober(ForeignClass(lists))
  {
    ClassBuilds("global_foreign", TO_FOREIGN, DNS_GLOBAL, "system", BLOCKED,
                ForeignConditions(lists, Route), ForeignConditions(lists, Resolve), [],
                ForeignConditions(lists, Route));
    hide TrafficClass, BoundClass, ShapedClass, Distinct;
  }

  lemma {:induction false} DirectConditionsShape(domains: seq<string>, suffixes: seq<string>, action: Action)
    ensures forall r :: r in DirectConditions(domains, suffixes, action) ==>
      r.action == action && r.server.None? && r.outbound.None? && r.inbound.None? && r.port.None?
    ensures |DirectConditions(domains, suffixes, action)|
      == (if domains == [] then 0 else 1) + (if suffixes == [] then 0 else 1) + 1
  {
  }

  lemma {:induction false} DirectBindable(domains: seq<string>, suffixes: seq<string>)
    ensures Bindable(DIRECT_RU, DNS_RU, DirectConditions(domains, suffixes, Route),
                     DirectConditions(domains, suffixes, Resolve),
                     [], DirectConditions(domains, suffixes, Route))
    ensures |DirectConditions(domains, suffixes, Resolve)| == |DirectConditions(domains, suffixes, Route)|
  {
    DirectConditionsShape(domains, suffixes, Route);
    DirectConditionsShape(domains, suffixes, Resolve);
    hide DirectConditions;
  }

  lemma {:induction false} DirectDomainBuilds(env: GatewayEnv, lists: DnsLists)
    ensures Sober(DirectDomainClass(env, lists))
  {
    var domains := Without(env.directDomains, LowerAll(lists.ipv6OnlyDomains) + LowerAll(lists.foreignDomains));
    var suffixes := Without(env.directSuffixes, LowerAll(lists.foreignSuffixes));
    DirectBindable(domains, suffixes);
    hide TrafficClass, BoundClass, ShapedClass, BlockingClass, Mismatched, Without, LowerAll, DirectConditions,
         Bindable;
    ClassBuilds("ru_direct_domain", DIRECT_RU, DNS_RU, "none", BLOCKED, DirectConditions(domains, suffixes, Route),
                DirectConditions(domains, suffixes, Resolve), [], DirectConditions(domains, suffixes, Route));
  }

  lemma {:induction false} DirectIpBuilds(env: GatewayEnv)
    ensures Sober(DirectIpClass(env))
  {
    var cidrs := DirectCidrs(env);
    ClassBuilds("ru_direct_ip", DIRECT_RU, DNS_RU, "none", BLOCKED, [], [], [],
                Optional(cidrs, Plain(IpCidr(cidrs), Route)) + [Plain(RuleSet(["ru-geoip"]), Route)]);
    hide TrafficClass, BoundClass, ShapedClass;
  }

  lemma {:induction false} NameBuilds(outbound: string, resolver: string)
    requires !NonOutbound(outbound) && !NonOutbound(resolver)
    ensures Sober(NameClass(outbound, resolver))
  {
    ClassBuilds("domain_foreign", outbound, resolver, "system", BLOCKED, [],
                [Plain(DomainRegex([NAME_PATTERN]), Resolve)], [], [Plain(DomainRegex([NAME_PATTERN]), Route)]);
    hide TrafficClass, BoundClass, ShapedClass;
  }

  lemma {:induction false} BareBuilds(name: string, fallback: string, dns: seq<Rule>, outbound: string,
                                      resolver: string)
    requires fallback in {"none", BLOCKED} && AllReject(dns)
    ensures Sober(BareClass(name, fallback, dns, outbound, resolver))
  {
    ClassBuilds(name, outbound, resolver, "system", fallback, dns, [], [], []);
    hide TrafficClass, BoundClass, ShapedClass;
  }

  lemma {:induction false} AssembleDepends(a: RouteClass, b: RouteClass, c: RouteClass, d: RouteClass,
                                           guards: seq<RouteClass>, e: RouteClass, literals: seq<RouteClass>,
                                           outbounds: seq<string>, outbound: string, env: GatewayEnv)
    requires |guards| == 2 && WellBuilt(guards) && WellBuilt(literals)
    requires guards[0].guards + guards[1].guards == GuardRulesOf(env.blockedCidrs)
    requires forall x :: x in {a, b, c, d, e} ==> WellBuiltClass(x) && x.guards == []
    requires forall x :: x in literals ==> x.guards == []
    ensures Dependable(Assemble([a, b, c, d], guards, e, literals, outbounds, outbound), env, outbound)
  {
    hide WellBuiltClass, Guards, GuardRulesOf, PreOnly, Blocks, Terminals;
    var policy := Assemble([a, b, c, d], guards, e, literals, outbounds, outbound);
    assert policy.traffic == [a, b, c, d] + guards + ([e] + literals);
    GuardsOfGateway([a, b, c, d], guards, [e] + literals);
    assert WellBuilt(policy.traffic);
    NothingMismatched(policy.traffic);
    assert policy.control + PreOnly(policy.traffic) + Blocks(policy.traffic, Guards(policy.traffic))
           + Guards(policy.traffic) + Terminals(policy.traffic) == policy.control + TrafficRules(policy);
  }

  lemma {:induction false} NothingMismatched(traffic: seq<RouteClass>)
    requires WellBuilt(traffic)
    ensures forall c :: c in traffic ==> !Mismatched(c)
  {
  }

  /** Every dual environment compiles. */
  lemma {:induction false} DualBuilds(env: GatewayEnv, lists: DnsLists)
    requires env.dual
    ensures DualPolicy(env, lists).Success? && Dependable(DualPolicy(env, lists).value, env, TO_FOREIGN)
  {
    var dns := [Plain(IpIsPrivate, Reject).(server := Some(DNS_GLOBAL))];
    ForeignBuilds(lists);
    DirectDomainBuilds(env, lists);
    BareBuilds("dns_global", "none", dns, TO_FOREIGN, DNS_GLOBAL);
    NameBuilds(TO_FOREIGN, DNS_GLOBAL);
    GuardClassesBuild(env.blockedCidrs);
    DirectIpBuilds(env);
    LiteralClassesBuild(TO_FOREIGN);
    hide ForeignClass, DirectDomainClass, BareClass, NameClass, GuardClasses, DirectIpClass, LiteralClasses,
         WellBuiltClass,
      Assemble, Dependable, GuardRulesOf;
    AssembleDepends(ForeignClass(lists).value, DirectDomainClass(env, lists).value,
                    BareClass("dns_global", "none", dns, TO_FOREIGN, DNS_GLOBAL).value,
                    NameClass(TO_FOREIGN, DNS_GLOBAL).value,
                    GuardClasses(env.blockedCidrs).value, DirectIpClass(env).value, LiteralClasses(TO_FOREIGN).value,
                    [DIRECT_RU, TO_FOREIGN], TO_FOREIGN, env);
  }

  /** Every single-gateway environment compiles. */
  lemma {:induction false} SingleBuilds(env: GatewayEnv)
    requires !env.dual
    ensures SinglePolicy(env).Success? && Dependable(SinglePolicy(env).value, env, LOCAL_EGRESS)
  {
    BareBuilds("global_foreign", BLOCKED, [], LOCAL_EGRESS, DNS_LOCAL);
    BareBuilds("ru_direct_domain", BLOCKED, [], LOCAL_EGRESS, DNS_LOCAL);
    BareBuilds("dns_global", "none", [], LOCAL_EGRESS, DNS_LOCAL);
    NameBuilds(LOCAL_EGRESS, DNS_LOCAL);
    GuardClassesBuild(env.blockedCidrs);
    BareBuilds("ru_direct_ip", "none", [], LOCAL_EGRESS, DNS_LOCAL);
    LiteralClassesBuild(LOCAL_EGRESS);
    hide BareClass, NameClass, GuardClasses, LiteralClasses, WellBuiltClass, Assemble, Dependable, GuardRulesOf;
    AssembleDepends(BareClass("global_foreign", BLOCKED, [], LOCAL_EGRESS, DNS_LOCAL).value,
                    BareClass("ru_direct_domain", BLOCKED, [], LOCAL_EGRESS, DNS_LOCAL).value,
                    BareClass("dns_global", "none", [], LOCAL_EGRESS, DNS_LOCAL).value,
                    NameClass(LOCAL_EGRESS, DNS_LOCAL).value,
                    GuardClasses(env.blockedCidrs).value,
                    BareClass("ru_direct_ip", "none", [], LOCAL_EGRESS, DNS_LOCAL).value,
                    LiteralClasses(LOCAL_EGRESS).value, [LOCAL_EGRESS], LOCAL_EGRESS, env);
  }

  /** The guards of a gateway match exactly the blocked ranges and the private addresses. */
  lemma {:induction false} GatewayGuardHit(world: World, blockedCidrs: seq<string>, packet: Packet,
                                           addresses: set<Address>)
    ensures GuardHit(world, GuardRulesOf(blockedCidrs), packet, addresses)
      <==> exists a :: a in addresses && (world.isPrivate(a) || exists c :: c in blockedCidrs && world.inCidr(c, a))
  {
    var privates := Plain(IpIsPrivate, Reject);
    var blocked := Plain(IpCidr(blockedCidrs), Reject);
    assert privates in GuardRulesOf(blockedCidrs);
    if blockedCidrs != [] { assert blocked in GuardRulesOf(blockedCidrs); }
    if a :| a in addresses && (world.isPrivate(a) || exists c :: c in blockedCidrs && world.inCidr(c, a)) {
      if world.isPrivate(a) {
        assert Matches(world, privates, packet, addresses);
      } else {
        assert Matches(world, blocked, packet, addresses);
      }
    }
  }

  /** For every dual environment a packet whose known addresses include a private or blocked one
      is sent somewhere only by the port-53 control rule. */
  lemma {:induction false} DualGuardDomination(world: World, env: GatewayEnv, lists: DnsLists, packet: Packet)
    requires env.dual
    ensures DualPolicy(env, lists).Success? && RouteRules(DualPolicy(env, lists).value).Success?
    ensures var decision := Evaluate(world, RouteRules(DualPolicy(env, lists).value).value, packet, Initial(packet));
      (exists a :: a in decision.addresses
        && (world.isPrivate(a) || exists c :: c in env.blockedCidrs && world.inCidr(c, a)))
      ==> decision.Refused?
          || (decision.Sent? && decision.rule == ControlRules(TO_FOREIGN)[2] && packet.inbound == "public-hy2-in"
              && packet.port == 53)
  {
    DualBuilds(env, lists);
    var policy := DualPolicy(env, lists).value;
    assert Shaped(policy.traffic);
    GuardDomination(world, policy, packet);
    var decision := Evaluate(world, RouteRules(policy).value, packet, Initial(packet));
    GatewayGuardHit(world, env.blockedCidrs, packet, decision.addresses);
    DecidedByMember(world, RouteRules(policy).value, packet, Initial(packet));
    hide DualPolicy, RouteRules, Evaluate, GuardHit;
  }

  /** In a gateway policy the control rules name the final outbound, so a validated gateway
      policy has no dangling target at all. */
  lemma {:induction false} GatewayTargetsExist(policy: Policy, env: GatewayEnv, outbound: string,
                                               dnsServers: set<string>, outbounds: set<string>)
    requires Dependable(policy, env, outbound) && TargetProblem(policy, dnsServers, outbounds).None?
    ensures RouteRules(policy).Success?
    ensures forall rule :: rule in RouteRules(policy).value ==> TargetsExist(rule, dnsServers, outbounds)
  {
    assert forall c :: c in policy.traffic ==> WellBuiltClass(c);
    NoDanglingTargets(policy, dnsServers, outbounds);
    hide TrafficRules, RouteRules, TargetProblem, Dependable;
  }
}
