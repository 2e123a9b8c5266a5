/** The compiler of traffic classes into one ordered rule list (routing_policy.py). */
module RoutingPolicy {
  import opened Wrappers
  import opened RouteSemantics

  const NO_TARGET: string := "none"
  const REJECT_TARGET: string := "reject"
  const BLOCKED: string := "blocked"

  predicate NonOutbound(target: string) { target == NO_TARGET || target == REJECT_TARGET }

  datatype RouteClass = RouteClass(name: string, outbound: string, resolver: string, timeoutPolicy: string,
                                   fallback: string, dnsRules: seq<Rule>, preRoutes: seq<Rule>, guards: seq<Rule>,
                                   routes: seq<Rule>)

  datatype Policy = Policy(traffic: seq<RouteClass>, control: seq<Rule>, outbounds: seq<string>, finalOutbound: string)

  datatype PolicyError =
    | UnsupportedTimeout | UnsupportedFallback | MissingTarget | ConflictingTarget | MismatchedRules
    | MissingServers | MissingOutbounds | WrongTopology | Incomplete

  // ---- Binding rules to their class -------------------------------------------------------------

  datatype TargetKey = ServerKey | OutboundKey

  function TargetOf(rule: Rule, key: TargetKey): Option<string> {
    if key.ServerKey? then rule.server else rule.outbound
  }

  function WithTarget(rule: Rule, key: TargetKey, target: string): Rule {
    if TargetOf(rule, key).Some? then rule
    else if key.ServerKey? then rule.(server := Some(target)) else rule.(outbound := Some(target))
  }

  /** Why a rule cannot be bound, if it cannot. */
  function BindProblem(rule: Rule, action: Action, key: TargetKey, target: string): Option<PolicyError> {
    if rule.action != action then None
    else if NonOutbound(target) then Some(MissingTarget)
    else if TargetOf(rule, key).Some? && TargetOf(rule, key).value != target then Some(ConflictingTarget)
    else None
  }

  function BoundRule(rule: Rule, action: Action, key: TargetKey, target: string): Rule {
    if rule.action == action then WithTarget(rule, key, target) else rule
  }

  /** The first problem among the rules, or the rules with their targets filled in. */
  function Bind(rules: seq<Rule>, action: Action, key: TargetKey, target: string): Result<seq<Rule>, PolicyError> {
    if rules == [] then Success([])
    else
      var before := Bind(rules[..|rules| - 1], action, key, target);
      var last := rules[|rules| - 1];
      if before.Failure? then before
      else if BindProblem(last, action, key, target).Some? then Failure(BindProblem(last, action, key, target).value)
      else Success(before.value + [BoundRule(last, action, key, target)])
  }

  method BindRuleTarget(rules: seq<Rule>, action: Action, key: TargetKey, target: string)
      returns (r: Result<seq<Rule>, PolicyError>)
    ensures r == Bind(rules, action, key, target)
  {
    var compiled: seq<Rule> := [];
    var i := 0;
    while i < |rules|
      invariant 0 <= i <= |rules|
      invariant Bind(rules[..i], action, key, target) == Success(compiled)
    {
      assert rules[..i + 1][..i] == rules[..i];
      var problem := BindProblem(rules[i], action, key, target);
      if problem.Some? {
        BindStops(rules, i + 1, action, key, target);
        return Failure(problem.value);
      }
      compiled := compiled + [BoundRule(rules[i], action, key, target)];
      i := i + 1;
    }
    assert rules[..i] == rules;
    return Success(compiled);
  }

  lemma {:induction false} BindStops(rules: seq<Rule>, n: nat, action: Action, key: TargetKey, target: string)
    requires n <= |rules| && Bind(rules[..n], action, key, target).Failure?
    ensures Bind(rules, action, key, target) == Bind(rules[..n], action, key, target)
    decreases |rules|
  {
    if n < |rules| {
      assert rules[..|rules| - 1][..n] == rules[..n];
      BindStops(rules[..|rules| - 1], n, action, key, target);
    } else {
      assert rules[..n] == rules;
    }
  }

  /** Every bound rule of the given action names the target, and nothing else about it changed. */
  lemma {:induction false} BindNamesTarget(rules: seq<Rule>, action: Action, key: TargetKey, target: string)
    requires Bind(rules, action, key, target).Success?
    ensures var bound := Bind(rules, action, key, target).value;
      && |bound| == |rules|
      && forall i :: 0 <= i < |rules| ==>
           && bound[i] == (if key.ServerKey? then rules[i].(server := bound[i].server)
                           else rules[i].(outbound := bound[i].outbound))
           && (rules[i].action == action ==> TargetOf(bound[i], key) == Some(target) && !NonOutbound(target))
           && (rules[i].action != action ==> bound[i] == rules[i])
  {
    if rules != [] { BindNamesTarget(rules[..|rules| - 1], action, key, target); }
  }

  /** Rules can be bound exactly when every rule of the action names the target or nothing, and the target is
      a real one if there is such a rule. */
  lemma {:induction false} BindExactly(rules: seq<Rule>, action: Action, key: TargetKey, target: string)
    ensures Bind(rules, action, key, target).Success? <==>
      forall i :: 0 <= i < |rules| && rules[i].action == action ==>
        target != "none" && target != "reject"
        && var named := if key.ServerKey? then rules[i].server else rules[i].outbound;
        named.None? || named.value == target
  {
    if rules != [] {
      var init := rules[..|rules| - 1];
      BindExactly(init, action, key, target);
      assert forall i :: 0 <= i < |init| ==> init[i] == rules[i];
    }
  }

  /** _traffic_class with the checks of the class itself. */
  function TrafficClass(name: string, outbound: string, resolver: string, timeoutPolicy: string, fallback: string,
                        dns: seq<Rule>, preRoutes: seq<Rule>, guards: seq<Rule>,
                        routes: seq<Rule>): Result<RouteClass, PolicyError>
  {
    var boundDns :- Bind(dns, Route, ServerKey, resolver);
    var boundPre :- Bind(preRoutes, Resolve, ServerKey, resolver);
    var boundGuards :- Bind(guards, Route, OutboundKey, outbound);
    var boundRoutes :- Bind(routes, Route, OutboundKey, outbound);
    if timeoutPolicy != NO_TARGET && timeoutPolicy != "system" then Failure(UnsupportedTimeout)
    else if fallback != NO_TARGET && fallback != BLOCKED then Failure(UnsupportedFallback)
    else Success(RouteClass(name, outbound, resolver, timeoutPolicy, fallback, boundDns, boundPre, boundGuards,
                            boundRoutes))
  }

  // ---- Compilation ------------------------------------------------------------------------------------

  function Guards(traffic: seq<RouteClass>): seq<Rule> {
    if traffic == [] then [] else Guards(traffic[..|traffic| - 1]) + traffic[|traffic| - 1].guards
  }

  /** Resolve rules of classes that have no route rules. */
  function PreOnly(traffic: seq<RouteClass>): seq<Rule> {
    if traffic == [] then []
    else
      PreOnly(traffic[..|traffic| - 1])
      + (if traffic[|traffic| - 1].routes == [] then traffic[|traffic| - 1].preRoutes else [])
  }

  function FallbackOf(entry: RouteClass, guards: seq<Rule>): seq<Rule> {
    if entry.fallback == BLOCKED then guards else []
  }

  /** resolve, guards, route: once for every pair. */
  function Paired(preRoutes: seq<Rule>, routes: seq<Rule>, fallback: seq<Rule>): seq<Rule>
    requires |preRoutes| == |routes|
  {
    if routes == [] then []
    else Paired(preRoutes[..|routes| - 1], routes[..|routes| - 1], fallback)
         + [preRoutes[|routes| - 1]] + fallback + [routes[|routes| - 1]]
  }

  predicate Mismatched(entry: RouteClass) {
    entry.preRoutes != [] && entry.routes != [] && |entry.preRoutes| != |entry.routes|
  }

  function BlocksOf(entry: RouteClass, guards: seq<Rule>): seq<Rule>
    requires !Mismatched(entry)
  {
    if entry.preRoutes != [] && entry.routes != [] then Paired(entry.preRoutes, entry.routes, FallbackOf(entry, guards))
    else []
  }

  function Blocks(traffic: seq<RouteClass>, guards: seq<Rule>): seq<Rule>
    requires forall c :: c in traffic ==> !Mismatched(c)
  {
    if traffic == [] then [] else Blocks(traffic[..|traffic| - 1], guards) + BlocksOf(traffic[|traffic| - 1], guards)
  }

  /** Route rules of classes that resolve nothing. */
  function Terminals(traffic: seq<RouteClass>): seq<Rule> {
    if traffic == [] then []
    else
      Terminals(traffic[..|traffic| - 1])
      + (if traffic[|traffic| - 1].preRoutes == [] then traffic[|traffic| - 1].routes else [])
  }

  function RouteRules(policy: Policy): Result<seq<Rule>, PolicyError> {
    if exists c :: c in policy.traffic && Mismatched(c) then Failure(MismatchedRules)
    else Success(policy.control + PreOnly(policy.traffic) + Blocks(policy.traffic, Guards(policy.traffic))
                 + Guards(policy.traffic) + Terminals(policy.traffic))
  }

  /** The inner loop of route_rules: the pairs of one class, each behind the fallback rules. */
  method CompilePairs(item: RouteClass, fallback: seq<Rule>, start: seq<Rule>) returns (compiled: seq<Rule>)
    requires |item.preRoutes| == |item.routes|
    ensures compiled == start + Paired(item.preRoutes, item.routes, fallback)
  {
    compiled := start;
    var j := 0;
    while j < |item.routes|
      invariant 0 <= j <= |item.routes|
      invariant compiled == start + Paired(item.preRoutes[..j], item.routes[..j], fallback)
    {
      assert item.preRoutes[..j + 1][..j] == item.preRoutes[..j] && item.routes[..j + 1][..j] == item.routes[..j];
      compiled := compiled + ([item.preRoutes[j]] + fallback + [item.routes[j]]);
      j := j + 1;
    }
    assert item.preRoutes[..j] == item.preRoutes && item.routes[..j] == item.routes;
  }

  lemma {:induction false} OneMoreClass(traffic: seq<RouteClass>, guards: seq<Rule>, i: nat)
    requires i < |traffic| && forall c :: c in traffic[..i] ==> !Mismatched(c)
    requires !Mismatched(traffic[i])
    ensures forall c :: c in traffic[..i + 1] ==> !Mismatched(c)
    ensures Blocks(traffic[..i + 1], guards) == Blocks(traffic[..i], guards) + BlocksOf(traffic[i], guards)
    ensures Terminals(traffic[..i + 1]) == Terminals(traffic[..i])
            + (if traffic[i].preRoutes == [] then traffic[i].routes else [])
  {
    assert traffic[..i + 1][..i] == traffic[..i] && traffic[..i + 1] == traffic[..i] + [traffic[i]];
  }

  /** route_rules, as the loops that grow the lists. */
  method CompileRouteRules(policy: Policy) returns (r: Result<seq<Rule>, PolicyError>)
    ensures r == RouteRules(policy)
  {
    hide Blocks, Terminals, Guards, PreOnly, Paired;
    var traffic := policy.traffic;
    var guards := Guards(traffic);
    var terminal: seq<Rule> := [];
    var start := policy.control + PreOnly(traffic);
    var compiled := start;
    var i := 0;
    EmptyClasses(guards);
    while i < |traffic|
      invariant 0 <= i <= |traffic|
      invariant forall c :: c in traffic[..i] ==> !Mismatched(c)
      invariant compiled == start + Blocks(traffic[..i], guards)
      invariant terminal == Terminals(traffic[..i])
    {
      var item := traffic[i];
      if item.preRoutes != [] && item.routes != [] {
        if |item.preRoutes| != |item.routes| {
          assert item in traffic && Mismatched(item);
          return Failure(MismatchedRules);
        }
        compiled := CompilePairs(item, if item.fallback == BLOCKED then guards else [], compiled);
      } else if item.routes != [] {
        terminal := terminal + item.routes;
      }
      OneMoreClass(traffic, guards, i);
      i := i + 1;
    }
    assert traffic[..i] == traffic;
    return Success(compiled + guards + terminal);
  }

  lemma {:induction false} EmptyClasses(guards: seq<Rule>)
    ensures Blocks([], guards) == [] && Terminals([]) == []
  {
  }

  // ---- Guard domination -----------------------------------------------------------------------------

  /** The shape every class has: resolve rules resolve, guards reject, route rules route. */
  predicate ShapedClass(entry: RouteClass) {
    && (forall r :: r in entry.preRoutes ==> r.action.Resolve?)
    && AllReject(entry.guards)
    && (forall r :: r in entry.routes ==> r.action.Route?)
  }

  /** Classes that resolve and route fall back to blocking. */
  predicate BlockingClass(entry: RouteClass) {
    entry.preRoutes != [] && entry.routes != [] ==> entry.fallback == BLOCKED
  }

  predicate Shaped(traffic: seq<RouteClass>) {
    forall c :: c in traffic ==> ShapedClass(c) && BlockingClass(c)
  }

  /** Reading these rules never sends a packet whose addresses a guard matches. */
  ghost predicate Guarded(world: World, rules: seq<Rule>, guards: seq<Rule>, packet: Packet) {
    forall addresses ::
      match Evaluate(world, rules, packet, addresses)
      case Sent(_, known) => !GuardHit(world, guards, packet, known)
      case _ => true
  }

  lemma {:induction false} GuardedConcat(world: World, a: seq<Rule>, b: seq<Rule>, guards: seq<Rule>, packet: Packet)
    requires Guarded(world, a, guards, packet) && Guarded(world, b, guards, packet)
    ensures Guarded(world, a + b, guards, packet)
  {
    forall addresses
      ensures match Evaluate(world, a + b, packet, addresses)
              case Sent(_, known) => !GuardHit(world, guards, packet, known)
              case _ => true
    {
      EvaluateConcat(world, a, b, packet, addresses);
      hide Evaluate;
    }
  }

  /** Rules that route nothing are guarded. */
  lemma {:induction false} NoRouteIsGuarded(world: World, rules: seq<Rule>, guards: seq<Rule>, packet: Packet)
    requires forall r :: r in rules ==> !r.action.Route?
    ensures Guarded(world, rules, guards, packet)
  {
    forall addresses
      ensures match Evaluate(world, rules, packet, addresses)
              case Sent(_, known) => !GuardHit(world, guards, packet, known)
              case _ => true
    {
      DecidedByMember(world, rules, packet, addresses);
    }
  }

  /** Route rules right behind the guards are guarded: nothing between them changes the addresses. */
  lemma {:induction false} RoutesBehindGuards(world: World, guards: seq<Rule>, routes: seq<Rule>, packet: Packet)
    requires AllReject(guards) && forall r :: r in routes ==> r.action.Route?
    ensures Guarded(world, guards + routes, guards, packet)
  {
    forall addresses
      ensures match Evaluate(world, guards + routes, packet, addresses)
              case Sent(_, known) => !GuardHit(world, guards, packet, known)
              case _ => true
    {
      EvaluateConcat(world, guards, routes, packet, addresses);
      GuardsDecide(world, guards, packet, addresses);
      RoutesKeepAddresses(world, routes, packet, addresses);
    }
  }

  lemma {:induction false} RoutesKeepAddresses(world: World, routes: seq<Rule>, packet: Packet, addresses: set<Address>)
    requires forall r :: r in routes ==> r.action.Route?
    ensures Evaluate(world, routes, packet, addresses).addresses == addresses
  {
    if routes != [] { RoutesKeepAddresses(world, routes[1..], packet, addresses); }
  }

  lemma {:induction false} PairedGuarded(world: World, preRoutes: seq<Rule>, routes: seq<Rule>, guards: seq<Rule>,
                                         packet: Packet)
    requires |preRoutes| == |routes| && AllReject(guards)
    requires (forall r :: r in preRoutes ==> r.action.Resolve?) && (forall r :: r in routes ==> r.action.Route?)
    ensures Guarded(world, Paired(preRoutes, routes, guards), guards, packet)
  {
    var n := |routes|;
    if n == 0 {
      NoRouteIsGuarded(world, [], guards, packet);
    } else {
      PairedGuarded(world, preRoutes[..n - 1], routes[..n - 1], guards, packet);
      NoRouteIsGuarded(world, [preRoutes[n - 1]], guards, packet);
      RoutesBehindGuards(world, guards, [routes[n - 1]], packet);
      var before := Paired(preRoutes[..n - 1], routes[..n - 1], guards);
      GuardedConcat(world, before, [preRoutes[n - 1]], guards, packet);
      GuardedConcat(world, before + [preRoutes[n - 1]], guards + [routes[n - 1]], guards, packet);
      assert Paired(preRoutes, routes, guards)
        == before + [preRoutes[n - 1]] + (guards + [routes[n - 1]]);
    }
  }

  lemma {:induction false} BlocksGuarded(world: World, traffic: seq<RouteClass>, guards: seq<Rule>, packet: Packet)
    requires Shaped(traffic) && AllReject(guards) && forall c :: c in traffic ==> !Mismatched(c)
    ensures Guarded(world, Blocks(traffic, guards), guards, packet)
  {
    if traffic == [] {
      NoRouteIsGuarded(world, [], guards, packet);
    } else {
      var last := traffic[|traffic| - 1];
      assert last in traffic;
      BlocksGuarded(world, traffic[..|traffic| - 1], guards, packet);
      if last.preRoutes != [] && last.routes != [] {
        PairedGuarded(world, last.preRoutes, last.routes, guards, packet);
      } else {
        NoRouteIsGuarded(world, [], guards, packet);
      }
      GuardedConcat(world, Blocks(traffic[..|traffic| - 1], guards), BlocksOf(last, guards), guards, packet);
    }
  }

  lemma {:induction false} TrafficShapes(traffic: seq<RouteClass>)
    requires Shaped(traffic)
    ensures AllReject(Guards(traffic))
    ensures forall r :: r in PreOnly(traffic) ==> r.action.Resolve?
    ensures forall r :: r in Terminals(traffic) ==> r.action.Route?
  {
    if traffic != [] {
      assert traffic[|traffic| - 1] in traffic;
      TrafficShapes(traffic[..|traffic| - 1]);
    }
  }

  /** The part of the compiled list that the traffic classes contribute. */
  function TrafficRules(policy: Policy): seq<Rule>
    requires forall c :: c in policy.traffic ==> !Mismatched(c)
  {
    PreOnly(policy.traffic) + Blocks(policy.traffic, Guards(policy.traffic)) + Guards(policy.traffic)
      + Terminals(policy.traffic)
  }

  lemma {:induction false} TrafficGuarded(world: World, policy: Policy, packet: Packet)
    requires Shaped(policy.traffic) && forall c :: c in policy.traffic ==> !Mismatched(c)
    ensures Guarded(world, TrafficRules(policy), Guards(policy.traffic), packet)
  {
    var traffic := policy.traffic;
    var guards := Guards(traffic);
    TrafficShapes(traffic);
    hide Guarded;
    NoRouteIsGuarded(world, PreOnly(traffic), guards, packet);
    BlocksGuarded(world, traffic, guards, packet);
    RoutesBehindGuards(world, guards, Terminals(traffic), packet);
    GuardedConcat(world, PreOnly(traffic), Blocks(traffic, guards), guards, packet);
    GuardedConcat(world, PreOnly(traffic) + Blocks(traffic, guards), guards + Terminals(traffic), guards, packet);
    assert TrafficRules(policy) == PreOnly(traffic) + Blocks(traffic, guards) + (guards + Terminals(traffic));
  }

  /** No packet whose addresses match a guard is sent to an outbound by a traffic-class rule, and
      none of them reaches the final outbound: only the control rules are exempt. */
  lemma {:induction false} GuardDomination(world: World, policy: Policy, packet: Packet)
    requires Shaped(policy.traffic) && RouteRules(policy).Success?
    ensures match Evaluate(world, RouteRules(policy).value, packet, Initial(packet))
      case Sent(rule, known) => rule in policy.control || !GuardHit(world, Guards(policy.traffic), packet, known)
      case Undecided(known) => !GuardHit(world, Guards(policy.traffic), packet, known)
      case Refused(_, _) => true
  {
    var traffic := policy.traffic;
    var rules := TrafficRules(policy);
    assert RouteRules(policy).value == policy.control + rules;
    EvaluateConcat(world, policy.control, rules, packet, Initial(packet));
    DecidedByMember(world, policy.control, packet, Initial(packet));
    TrafficGuarded(world, policy, packet);
    var start := Evaluate(world, policy.control, packet, Initial(packet));
    if start.Undecided? { TrafficFinishesClean(world, policy, packet, start.addresses); }
    hide Evaluate, TrafficRules;
  }

  /** What falls through all traffic rules matches no guard. */
  lemma {:induction false} TrafficFinishesClean(world: World, policy: Policy, packet: Packet, addresses: set<Address>)
    requires Shaped(policy.traffic) && forall c :: c in policy.traffic ==> !Mismatched(c)
    ensures match Evaluate(world, TrafficRules(policy), packet, addresses)
      case Undecided(known) => !GuardHit(world, Guards(policy.traffic), packet, known)
      case _ => true
  {
    var traffic := policy.traffic;
    var guards := Guards(traffic);
    var early := PreOnly(traffic) + Blocks(traffic, guards);
    TrafficShapes(traffic);
    assert TrafficRules(policy) == early + (guards + Terminals(traffic));
    EvaluateConcat(world, early, guards + Terminals(traffic), packet, addresses);
    var known := Evaluate(world, early, packet, addresses).addresses;
    EvaluateConcat(world, guards, Terminals(traffic), packet, known);
    GuardsDecide(world, guards, packet, known);
    RoutesKeepAddresses(world, Terminals(traffic), packet, known);
  }

  // ---- Runtime targets -------------------------------------------------------------------------------

  /** What _traffic_class guarantees about the targets of a class. */
  predicate BoundClass(entry: RouteClass) {
    && (forall r :: r in entry.routes && r.action.Route? ==>
        r.outbound == Some(entry.outbound) && !NonOutbound(entry.outbound))
    && (forall r :: r in entry.guards && r.action.Route? ==>
        r.outbound == Some(entry.outbound) && !NonOutbound(entry.outbound))
    && (forall r :: r in entry.preRoutes && r.action.Resolve? ==>
        r.server == Some(entry.resolver) && !NonOutbound(entry.resolver))
  }

  lemma {:induction false} TrafficClassBinds(name: string, outbound: string, resolver: string, timeoutPolicy: string,
                                             fallback: string, dns: seq<Rule>, preRoutes: seq<Rule>,
                                             guards: seq<Rule>, routes: seq<Rule>)
    requires TrafficClass(name, outbound, resolver, timeoutPolicy, fallback, dns, preRoutes, guards, routes).Success?
    ensures var c := TrafficClass(name, outbound, resolver, timeoutPolicy, fallback, dns, preRoutes, guards,
                                  routes).value;
      && c.name == name && c.outbound == outbound && c.resolver == resolver && c.fallback == fallback
      && BoundClass(c)
      && |c.preRoutes| == |preRoutes| && |c.guards| == |guards| && |c.routes| == |routes|
      && (forall i :: 0 <= i < |preRoutes| ==> c.preRoutes[i] == preRoutes[i].(server := c.preRoutes[i].server))
      && (forall i :: 0 <= i < |guards| ==> c.guards[i] == guards[i].(outbound := c.guards[i].outbound)
                                            && (!guards[i].action.Route? ==> c.guards[i] == guards[i]))
      && (forall i :: 0 <= i < |routes| ==> c.routes[i] == routes[i].(outbound := c.routes[i].outbound))
  {
    BindNamesTarget(preRoutes, Resolve, ServerKey, resolver);
    BindNamesTarget(guards, Route, OutboundKey, outbound);
    BindNamesTarget(routes, Route, OutboundKey, outbound);
    hide Bind;
  }

  /** validate_runtime_targets. */
  function TargetProblem(policy: Policy, dnsServers: set<string>, outbounds: set<string>): Option<PolicyError> {
    if exists c :: c in policy.traffic && c.resolver != NO_TARGET && c.resolver !in dnsServers then Some(MissingServers)
    else if (exists c :: c in policy.traffic && !NonOutbound(c.outbound) && c.outbound !in outbounds)
            || policy.finalOutbound !in outbounds then Some(MissingOutbounds)
    else None
  }

  /** Exactly what validate_runtime_targets accepts. */
  lemma {:induction false} TargetsExactly(policy: Policy, dnsServers: set<string>, outbounds: set<string>)
    ensures TargetProblem(policy, dnsServers, outbounds).None? <==>
      && policy.finalOutbound in outbounds
      && forall i :: 0 <= i < |policy.traffic| ==>
           && (policy.traffic[i].resolver == "none" || policy.traffic[i].resolver in dnsServers)
           && (policy.traffic[i].outbound in {"none", "reject"} || policy.traffic[i].outbound in outbounds)
  {
    assert forall i :: 0 <= i < |policy.traffic| ==> policy.traffic[i] in policy.traffic;
  }

  predicate TargetsExist(rule: Rule, dnsServers: set<string>, outbounds: set<string>) {
    && (rule.action.Route? ==> rule.outbound.Some? && rule.outbound.value in outbounds)
    && (rule.action.Resolve? ==> rule.server.Some? && rule.server.value in dnsServers)
  }

  lemma {:induction false} PairedMembers(preRoutes: seq<Rule>, routes: seq<Rule>, fallback: seq<Rule>, rule: Rule)
    requires |preRoutes| == |routes| && rule in Paired(preRoutes, routes, fallback)
    ensures rule in preRoutes || rule in fallback || rule in routes
  {
    var n := |routes|;
    if rule in Paired(preRoutes[..n - 1], routes[..n - 1], fallback) {
      PairedMembers(preRoutes[..n - 1], routes[..n - 1], fallback, rule);
    }
  }

  ghost predicate ComesFrom(entry: RouteClass, rule: Rule) {
    rule in entry.preRoutes || rule in entry.guards || rule in entry.routes
  }

  lemma {:induction false} SectionMembers(traffic: seq<RouteClass>, guards: seq<Rule>, rule: Rule)
    requires forall c :: c in traffic ==> !Mismatched(c)
    requires rule in PreOnly(traffic) || rule in Blocks(traffic, guards) || rule in Guards(traffic)
             || rule in Terminals(traffic)
    ensures rule in guards || exists c :: c in traffic && ComesFrom(c, rule)
  {
    var n := |traffic| - 1;
    var last := traffic[n];
    assert last in traffic;
    if rule in BlocksOf(last, guards) {
      if last.preRoutes != [] && last.routes != [] {
        PairedMembers(last.preRoutes, last.routes, FallbackOf(last, guards), rule);
      }
    }
    if !ComesFrom(last, rule) && rule !in guards {
      SectionMembers(traffic[..n], guards, rule);
    }
  }

  /** Every rule the classes contribute comes from one of them. */
  lemma {:induction false} TrafficMembers(policy: Policy, rule: Rule)
    requires (forall c :: c in policy.traffic ==> !Mismatched(c)) && rule in TrafficRules(policy)
    ensures exists c :: c in policy.traffic && ComesFrom(c, rule)
  {
    var guards := Guards(policy.traffic);
    SectionMembers(policy.traffic, guards, rule);
    if rule in guards { SectionMembers(policy.traffic, [], rule); }
  }

  /** Once the runtime targets are validated, no traffic rule names a missing outbound or resolver. */
  lemma {:induction false} NoDanglingTargets(policy: Policy, dnsServers: set<string>, outbounds: set<string>)
    requires RouteRules(policy).Success? && TargetProblem(policy, dnsServers, outbounds).None?
    requires forall c :: c in policy.traffic ==> BoundClass(c) && ShapedClass(c)
    ensures RouteRules(policy).value == policy.control + TrafficRules(policy)
    ensures forall rule :: rule in TrafficRules(policy) ==> TargetsExist(rule, dnsServers, outbounds)
    ensures policy.finalOutbound in outbounds
  {
    assert RouteRules(policy).value == policy.control + TrafficRules(policy);
    forall rule | rule in TrafficRules(policy) ensures TargetsExist(rule, dnsServers, outbounds) {
      TrafficMembers(policy, rule);
      var c :| c in policy.traffic && ComesFrom(c, rule);
      assert BoundClass(c) && ShapedClass(c);
    }
  }

  /** Control rules are not validated: this policy passes with a control rule to a missing outbound. */
  lemma {:induction false} ControlTargetsUnchecked()
    ensures var stray := Rule(None, None, Anything, Route, Some("gone"), None);
      var policy := Policy([], [stray], ["direct"], "direct");
      TargetProblem(policy, {}, {"direct"}).None? && RouteRules(policy).Success?
      && stray in RouteRules(policy).value && !TargetsExist(stray, {}, {"direct"})
  {
  }

  /** After a passed validation the compiled rules are free of missing targets exactly when the
      control rules, which no validation reads, are. */
  lemma {:induction false} ControlTargetsDecide(policy: Policy, dnsServers: set<string>, outbounds: set<string>)
    requires RouteRules(policy).Success? && TargetProblem(policy, dnsServers, outbounds).None?
    requires forall c :: c in policy.traffic ==> BoundClass(c) && ShapedClass(c)
    ensures (forall rule :: rule in RouteRules(policy).value ==> TargetsExist(rule, dnsServers, outbounds))
      <==> (forall rule :: rule in policy.control ==> TargetsExist(rule, dnsServers, outbounds))
  {
    NoDanglingTargets(policy, dnsServers, outbounds);
    hide RouteRules, TrafficRules, TargetProblem, TargetsExist;
    var all := RouteRules(policy).value;
    assert forall rule :: rule in all <==> rule in policy.control || rule in TrafficRules(policy);
  }

  // A policy whose first class resolves and routes without a blocking fallback.
  const OPEN_RESOLVE: Rule := Rule(None, None, Domain(["x"]), Resolve, None, Some("dns"))
  const OPEN_ROUTE: Rule := Rule(None, None, Domain(["x"]), Route, Some("out"), None)
  const PRIVATE_GUARD: Rule := Rule(None, None, IpIsPrivate, Reject, None, None)
  const OPEN_CLASS: RouteClass := RouteClass("open", "out", "dns", "none", "none", [], [OPEN_RESOLVE], [], [OPEN_ROUTE])
  const GUARD_CLASS: RouteClass := RouteClass("block", "reject", "none", "none", "none", [], [], [PRIVATE_GUARD], [])
  const OPEN_POLICY: Policy := Policy([OPEN_CLASS, GUARD_CLASS], [], ["out"], "out")

  /** A policy of two classes, the first resolving and routing one pair without fallback, the
      second contributing one guard. */
  lemma {:induction false} TwoClassPolicy(a: RouteClass, b: RouteClass, policy: Policy)
    requires policy.traffic == [a, b] && policy.control == []
    requires a.guards == [] && |a.preRoutes| == |a.routes| == 1 && a.fallback != BLOCKED
    requires b.preRoutes == [] && b.routes == [] && |b.guards| == 1
    ensures Guards(policy.traffic) == b.guards
    ensures RouteRules(policy) == Success([a.preRoutes[0], a.routes[0], b.guards[0]])
  {
    var traffic := policy.traffic;
    assert traffic[..|traffic| - 1] == [a] && [a][..0] == [] && traffic[|traffic| - 1] == b;
    assert Guards([a]) == [];
    assert Guards(traffic) == Guards([a]) + b.guards == b.guards;
    assert PreOnly([a]) == [];
    assert PreOnly(traffic) == PreOnly([a]) + b.preRoutes == [];
    assert Terminals([a]) == [];
    assert Terminals(traffic) == Terminals([a]) + b.routes == [];
    assert a.preRoutes[..0] == [] && a.routes[..0] == [];
    assert Paired(a.preRoutes, a.routes, []) == [a.preRoutes[0], a.routes[0]];
    assert BlocksOf(a, b.guards) == [a.preRoutes[0], a.routes[0]];
    assert Blocks([a], b.guards) == [a.preRoutes[0], a.routes[0]];
    assert Blocks(traffic, b.guards) == Blocks([a], b.guards) + [] == [a.preRoutes[0], a.routes[0]];
    assert policy.control + PreOnly(traffic) + Blocks(traffic, b.guards) + Guards(traffic) + Terminals(traffic)
      == [a.preRoutes[0], a.routes[0], b.guards[0]];
    assert forall c :: c in traffic ==> c == a || c == b;
  }

  /** Blocking fallbacks are needed: that policy sends a packet to the address it resolved
      although a guard matches the address. */
  lemma {:induction false} UnblockedClassLeaks(world: World, bad: Address)
    requires world.resolve("dns", "x") == {bad} && world.isPrivate(bad)
    ensures var packet := Packet("", 443, Some("x"), None);
      && RouteRules(OPEN_POLICY).Success?
      && Evaluate(world, RouteRules(OPEN_POLICY).value, packet, Initial(packet)) == Sent(OPEN_ROUTE, {bad})
      && GuardHit(world, Guards(OPEN_POLICY.traffic), packet, {bad})
  {
    TwoClassPolicy(OPEN_CLASS, GUARD_CLASS, OPEN_POLICY);
    hide RouteRules, Guards, Evaluate;
    var packet := Packet("", 443, Some("x"), None);
    assert "x" in ["x"];
    ResolveThenRoute(world, OPEN_RESOLVE, OPEN_ROUTE, PRIVATE_GUARD, packet);
    assert PRIVATE_GUARD in [PRIVATE_GUARD] && Matches(world, PRIVATE_GUARD, packet, {bad});
  }

  lemma {:induction false} ResolveThenRoute(world: World, a: Rule, b: Rule, c: Rule, packet: Packet)
    requires a.action.Resolve? && Matches(world, a, packet, Initial(packet))
    requires b.action.Route? && Matches(world, b, packet, Resolved(world, a, packet, Initial(packet)))
    ensures Evaluate(world, [a, b, c], packet, Initial(packet)) == Sent(b, Resolved(world, a, packet, Initial(packet)))
  {
    assert [a, b, c][1..] == [b, c];
    assert Evaluate(world, [b, c], packet, Resolved(world, a, packet, Initial(packet)))
      == Sent(b, Resolved(world, a, packet, Initial(packet)));
  }
}
