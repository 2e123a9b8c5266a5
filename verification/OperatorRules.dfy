/** Operator rules spliced into a base configuration (admin_apply.py): what the compiled list
    means is stated against the rules themselves. */
module OperatorRules {
  import opened Wrappers
  import opened RouteSemantics
  import opened RoutingPolicy
  import opened GatewayPolicies

  datatype Kind = CidrRule | DomainRule

  datatype OperatorRule = OperatorRule(kind: Kind, value: string, includeSubdomains: bool, outbound: string,
                                       enabled: bool)

  /** Outbound tag to the DNS server that resolves for it. */
  type Catalog = map<string, string>

  datatype ApplyError = EmptyCatalog | UnknownOutbound

  // ---- Where operator rules go --------------------------------------------------------------

  predicate Leading(rule: Rule) {
    || rule.inbound == Some(["router-in"])
    || rule.action.RouteOptions?
    || (rule.port == Some(53) && rule.outbound == Some(TO_FOREIGN))
  }

  /** One past the last leading rule. */
  function InsertIndex(rules: seq<Rule>): (index: nat)
    ensures index <= |rules|
    ensures forall i :: index <= i < |rules| ==> !Leading(rules[i])
    ensures index > 0 ==> Leading(rules[index - 1])
  {
    if rules == [] then 0
    else if Leading(rules[|rules| - 1]) then |rules|
    else InsertIndex(rules[..|rules| - 1])
  }

  /** route_insert_index: scans forward and remembers the last rule of the router, with route options,
      or for port 53 to the foreign gateway. */
  method RouteInsertIndex(rules: seq<Rule>) returns (index: nat)
    ensures index == InsertIndex(rules) <= |rules|
    ensures forall i :: index <= i < |rules| ==>
      && rules[i].inbound != Some(["router-in"]) && !rules[i].action.RouteOptions?
      && !(rules[i].port == Some(53) && rules[i].outbound == Some("to-foreign"))
    ensures index > 0 ==>
      || rules[index - 1].inbound == Some(["router-in"]) || rules[index - 1].action.RouteOptions?
      || (rules[index - 1].port == Some(53) && rules[index - 1].outbound == Some("to-foreign"))
  {
    index := 0;
    var i := 0;
    while i < |rules|
      invariant 0 <= i <= |rules| && index == InsertIndex(rules[..i])
    {
      assert rules[..i + 1][..i] == rules[..i];
      if Leading(rules[i]) { index := i + 1; }
      i := i + 1;
    }
    assert rules[..i] == rules;
  }

  // ---- Compilation ---------------------------------------------------------------------------

  predicate IsGuard(rule: Rule) {
    rule.action.Reject? && (rule.condition.IpCidr? || rule.condition.IpIsPrivate?)
  }

  /** The reject rules of the base that look at addresses, each once. */
  function GuardsIn(rules: seq<Rule>): seq<Rule> {
    if rules == [] then []
    else
      var before := GuardsIn(rules[..|rules| - 1]);
      var last := rules[|rules| - 1];
      if IsGuard(last) && last !in before then before + [last] else before
  }

  function Block(condition: Condition, rule: OperatorRule, server: string, guards: seq<Rule>): seq<Rule> {
    [Rule(None, None, condition, Resolve, None, Some(server))] + guards
    + [Rule(None, None, condition, Route, Some(rule.outbound), None)]
  }

  /** The rules one operator rule contributes. */
  function CompileRule(rule: OperatorRule, server: string, guards: seq<Rule>): seq<Rule> {
    if rule.kind.CidrRule? then
      guards + [Rule(None, None, IpCidr([rule.value]), Route, Some(rule.outbound), None)]
    else
      Block(Domain([rule.value]), rule, server, guards)
      + (if rule.includeSubdomains then Block(DomainSuffix(["." + rule.value]), rule, server, guards) else [])
  }

  function Enabled(rules: seq<OperatorRule>): seq<OperatorRule> {
    if rules == [] then []
    else Enabled(rules[..|rules| - 1]) + (if rules[|rules| - 1].enabled then [rules[|rules| - 1]] else [])
  }

  /** Every enabled rule has an outbound of the catalog. */
  predicate Known(rules: seq<OperatorRule>, catalog: Catalog) {
    forall r :: r in rules && r.enabled ==> r.outbound in catalog
  }

  /** What the enabled rules contribute, in order. */
  function Inserts(rules: seq<OperatorRule>, catalog: Catalog, guards: seq<Rule>): seq<Rule>
    requires Known(rules, catalog)
  {
    if rules == [] then []
    else
      var last := rules[|rules| - 1];
      assert last in rules;
      Inserts(rules[..|rules| - 1], catalog, guards)
      + if last.enabled then CompileRule(last, catalog[last.outbound], guards) else []
  }

  lemma {:induction false} InsertsMore(rules: seq<OperatorRule>, last: OperatorRule, catalog: Catalog,
                                       guards: seq<Rule>)
    requires Known(rules + [last], catalog)
    ensures Known(rules, catalog) && (last.enabled ==> last.outbound in catalog)
    ensures Inserts(rules + [last], catalog, guards)
      == Inserts(rules, catalog, guards)
         + if last.enabled then CompileRule(last, catalog[last.outbound], guards) else []
  {
    hide CompileRule;
    var longer := rules + [last];
    assert last in longer && longer[..|longer| - 1] == rules && forall r :: r in rules ==> r in longer;
  }

  lemma {:induction false} KnownMore(rules: seq<OperatorRule>, last: OperatorRule, catalog: Catalog)
    requires Known(rules, catalog) && last.outbound in catalog
    ensures Known(rules + [last], catalog)
  {
  }

  lemma {:induction false} EnabledKnown(rules: seq<OperatorRule>, catalog: Catalog)
    ensures forall r :: r in Enabled(rules) <==> r in rules && r.enabled
    ensures Known(Enabled(rules), catalog) <==> Known(rules, catalog)
  {
    if rules != [] {
      EnabledKnown(rules[..|rules| - 1], catalog);
      assert rules == rules[..|rules| - 1] + [rules[|rules| - 1]];
    }
  }

  /** Compiling the enabled rules alone gives the same. */
  lemma {:induction false} EnabledInserts(rules: seq<OperatorRule>, catalog: Catalog, guards: seq<Rule>)
    requires Known(rules, catalog)
    ensures Known(Enabled(rules), catalog)
    ensures Inserts(Enabled(rules), catalog, guards) == Inserts(rules, catalog, guards)
  {
    hide CompileRule, Known;
    EnabledKnown(rules, catalog);
    if rules != [] {
      var shorter, last := rules[..|rules| - 1], rules[|rules| - 1];
      assert rules == shorter + [last];
      var chosen := Enabled(shorter);
      InsertsMore(shorter, last, catalog, guards);
      EnabledInserts(shorter, catalog, guards);
      if last.enabled {
        assert Enabled(rules) == chosen + [last];
        InsertsMore(chosen, last, catalog, guards);
      } else {
        assert Enabled(rules) == chosen + [] == chosen;
        assert Inserts(shorter, catalog, guards) + [] == Inserts(shorter, catalog, guards);
      }
      hide Inserts, Enabled;
    }
  }

  /** The route rules of the effective configuration. */
  function Apply(base: seq<Rule>, rules: seq<OperatorRule>, catalog: Catalog): Result<seq<Rule>, ApplyError> {
    if catalog == map[] then Failure(EmptyCatalog)
    else if !Known(rules, catalog) then Failure(UnknownOutbound)
    else
      var index := InsertIndex(base);
      Success(base[..index] + Inserts(rules, catalog, GuardsIn(base)) + base[index..])
  }

  /** The guard collection of apply_admin_rules_to_config. */
  method CollectGuards(base: seq<Rule>) returns (guards: seq<Rule>)
    ensures guards == GuardsIn(base)
  {
    guards := [];
    var i := 0;
    while i < |base|
      invariant 0 <= i <= |base| && guards == GuardsIn(base[..i])
    {
      assert base[..i + 1][..i] == base[..i];
      if IsGuard(base[i]) && base[i] !in guards { guards := guards + [base[i]]; }
      i := i + 1;
    }
    assert base[..i] == base;
  }

  /** The loop over the enabled rules that grows the inserts. */
  method CompileEnabled(enabled: seq<OperatorRule>, catalog: Catalog, guards: seq<Rule>)
      returns (r: Result<seq<Rule>, ApplyError>)
    requires forall i :: 0 <= i < |enabled| ==> enabled[i].enabled
    ensures r.Success? <==> Known(enabled, catalog)
    ensures r == if Known(enabled, catalog) then Success(Inserts(enabled, catalog, guards))
                 else Failure(UnknownOutbound)
  {
    hide CompileRule;
    var inserts: seq<Rule> := [];
    var i := 0;
    while i < |enabled|
      invariant 0 <= i <= |enabled| && Known(enabled[..i], catalog)
      invariant inserts == Inserts(enabled[..i], catalog, guards)
    {
      var rule := enabled[i];
      if rule.outbound !in catalog {
        assert rule in enabled;
        return Failure(UnknownOutbound);
      }
      KnownMore(enabled[..i], rule, catalog);
      InsertsMore(enabled[..i], rule, catalog, guards);
      assert enabled[..i + 1] == enabled[..i] + [rule];
      hide Inserts, Known;
      inserts := inserts + CompileRule(rule, catalog[rule.outbound], guards);
      i := i + 1;
    }
    assert enabled[..i] == enabled;
    r := Success(inserts);
  }

  /** apply_admin_rules_to_config, the part about routing: grow the inserts, then splice them in. */
  method ApplyAdminRules(base: seq<Rule>, rules: seq<OperatorRule>, catalog: Catalog)
      returns (r: Result<seq<Rule>, ApplyError>)
    ensures r == Apply(base, rules, catalog)
  {
    hide Inserts, Enabled, Known, InsertIndex, Leading, GuardsIn;
    if catalog == map[] { return Failure(EmptyCatalog); }
    var enabled := Enabled(rules);
    EnabledKnown(rules, catalog);
    var guards := CollectGuards(base);
    var inserts :- CompileEnabled(enabled, catalog, guards);
    EnabledInserts(rules, catalog, guards);
    var index := RouteInsertIndex(base);
    return Success(base[..index] + inserts + base[index..]);
  }

  // ---- What operator rules mean -----------------------------------------------------------------

  /** Whether a rule is about this packet: its name, or the literal address. */
  predicate Concerns(world: World, rule: OperatorRule, packet: Packet) {
    if rule.kind.CidrRule? then packet.literal.Some? && world.inCidr(rule.value, packet.literal.value)
    else packet.name.Some?
         && (packet.name.value == rule.value
             || (rule.includeSubdomains && EndsWith(packet.name.value, "." + rule.value)))
  }

  predicate Speaks(world: World, rule: OperatorRule, packet: Packet) { rule.enabled && Concerns(world, rule, packet) }

  /** The index of the first enabled rule that is about the packet, or the length of the list. */
  function FirstSpeaking(world: World, rules: seq<OperatorRule>, packet: Packet): (i: nat)
    ensures i <= |rules| && forall j :: 0 <= j < i ==> !Speaks(world, rules[j], packet)
    ensures i < |rules| ==> Speaks(world, rules[i], packet)
  {
    if rules == [] || Speaks(world, rules[0], packet) then 0 else 1 + FirstSpeaking(world, rules[1..], packet)
  }

  /** The addresses a rule decides about: the literal one, or what its resolver finds. */
  function AddressesFor(world: World, rule: OperatorRule, catalog: Catalog, packet: Packet): set<Address>
    requires rule.outbound in catalog
  {
    if packet.literal.Some? then {packet.literal.value}
    else if packet.name.Some? then world.resolve(catalog[rule.outbound], packet.name.value)
    else {}
  }

  predicate AnyEnabled(rules: seq<OperatorRule>) { exists r :: r in rules && r.enabled }

  /** The meaning of a list of operator rules: the guards first look at a literal address; then the first
      enabled rule about the packet decides, after the guards have looked at its addresses. */
  ghost function Meaning(world: World, rules: seq<OperatorRule>, catalog: Catalog, guards: seq<Rule>,
                         packet: Packet): Verdict
    requires Known(rules, catalog)
  {
    var i := FirstSpeaking(world, rules, packet);
    if !AnyEnabled(rules) then Passed
    else if GuardHit(world, guards, packet, Initial(packet)) then Blocked
    else if i == |rules| then Passed
    else if GuardHit(world, guards, packet, AddressesFor(world, rules[i], catalog, packet)) then Blocked
    else To(rules[i].outbound)
  }

  predicate AddressGuards(guards: seq<Rule>) { forall g :: g in guards ==> IsGuard(g) }

  /** Guards look at addresses, so they never match a name that has not been resolved. */
  lemma {:induction false} NoAddressNoHit(world: World, guards: seq<Rule>, packet: Packet)
    requires AddressGuards(guards)
    ensures !GuardHit(world, guards, packet, {})
  {
  }

  /** What one block does to a packet that starts with its own addresses. */
  ghost predicate Decides(world: World, rules: seq<Rule>, guards: seq<Rule>, packet: Packet,
                          concerned: bool, addresses: set<Address>, outbound: string)
  {
    var d := Evaluate(world, rules, packet, Initial(packet));
    if GuardHit(world, guards, packet, Initial(packet)) then VerdictOf(d) == Blocked
    else if !concerned then d == Undecided(Initial(packet))
    else if GuardHit(world, guards, packet, addresses) then VerdictOf(d) == Blocked
    else VerdictOf(d) == To(outbound)
  }

  lemma {:induction false} BlockDecides(world: World, condition: Condition, rule: OperatorRule, catalog: Catalog,
                                        guards: seq<Rule>, packet: Packet)
    requires rule.outbound in catalog && AddressGuards(guards)
    requires condition.Domain? || condition.DomainSuffix?
    ensures Decides(world, Block(condition, rule, catalog[rule.outbound], guards), guards, packet,
                    Satisfies(world, condition, packet, {}), AddressesFor(world, rule, catalog, packet), rule.outbound)
  {
    var resolve := Rule(None, None, condition, Resolve, None, Some(catalog[rule.outbound]));
    var route := Rule(None, None, condition, Route, Some(rule.outbound), None);
    var start := Initial(packet);
    var concerned := Satisfies(world, condition, packet, {});
    var known := if concerned then Resolved(world, resolve, packet, start) else start;
    assert Satisfies(world, condition, packet, start) == concerned == Satisfies(world, condition, packet, known);
    assert Block(condition, rule, catalog[rule.outbound], guards) == [resolve] + (guards + [route]);
    EvaluateConcat(world, [resolve], guards + [route], packet, start);
    assert [resolve][1..] == [];
    assert Evaluate(world, [resolve], packet, start) == Undecided(known);
    EvaluateConcat(world, guards, [route], packet, known);
    GuardsDecide(world, guards, packet, known);
    NoAddressNoHit(world, guards, packet);
    assert [route][1..] == [];
    hide GuardHit, Satisfies;
  }

  lemma {:induction false} CidrDecides(world: World, rule: OperatorRule, guards: seq<Rule>, packet: Packet,
                                       catalog: Catalog)
    requires rule.kind.CidrRule? && rule.outbound in catalog && AddressGuards(guards)
    ensures Decides(world, CompileRule(rule, catalog[rule.outbound], guards), guards, packet,
                    Concerns(world, rule, packet), AddressesFor(world, rule, catalog, packet), rule.outbound)
  {
    var route := Rule(None, None, IpCidr([rule.value]), Route, Some(rule.outbound), None);
    EvaluateConcat(world, guards, [route], packet, Initial(packet));
    GuardsDecide(world, guards, packet, Initial(packet));
    assert [route][1..] == [];
    assert rule.value in [rule.value];
    assert Satisfies(world, route.condition, packet, Initial(packet)) == Concerns(world, rule, packet);
    hide GuardHit, Satisfies;
  }

  lemma {:induction false} DomainDecides(world: World, rule: OperatorRule, guards: seq<Rule>, packet: Packet,
                                         catalog: Catalog)
    requires rule.kind.DomainRule? && rule.outbound in catalog && AddressGuards(guards)
    ensures Decides(world, CompileRule(rule, catalog[rule.outbound], guards), guards, packet,
                    Concerns(world, rule, packet), AddressesFor(world, rule, catalog, packet), rule.outbound)
  {
    var server := catalog[rule.outbound];
    var exact := Block(Domain([rule.value]), rule, server, guards);
    BlockDecides(world, Domain([rule.value]), rule, catalog, guards, packet);
    assert Satisfies(world, Domain([rule.value]), packet, {}) == (packet.name.Some? && packet.name.value == rule.value);
    if rule.includeSubdomains {
      var below := Block(DomainSuffix(["." + rule.value]), rule, server, guards);
      BlockDecides(world, DomainSuffix(["." + rule.value]), rule, catalog, guards, packet);
      assert "." + rule.value in ["." + rule.value];
      assert Satisfies(world, DomainSuffix(["." + rule.value]), packet, {})
        == (packet.name.Some? && EndsWith(packet.name.value, "." + rule.value));
      EvaluateConcat(world, exact, below, packet, Initial(packet));
    } else {
      assert exact + [] == exact;
    }
    hide GuardHit, Satisfies, Evaluate, Block;
  }

  lemma {:induction false} InsertsHead(rules: seq<OperatorRule>, catalog: Catalog, guards: seq<Rule>)
    requires Known(rules, catalog) && rules != []
    ensures (rules[0].enabled ==> rules[0].outbound in catalog) && Known(rules[1..], catalog)
    ensures Inserts(rules, catalog, guards)
      == (if rules[0].enabled then CompileRule(rules[0], catalog[rules[0].outbound], guards) else [])
         + Inserts(rules[1..], catalog, guards)
  {
    hide CompileRule;
    assert rules[0] in rules;
    var last := rules[|rules| - 1];
    assert last in rules;
    var shorter, tail := rules[..|rules| - 1], rules[1..];
    var more := if last.enabled then CompileRule(last, catalog[last.outbound], guards) else [];
    assert Inserts(rules, catalog, guards) == Inserts(shorter, catalog, guards) + more;
    if |rules| > 1 {
      assert shorter[1..] == tail[..|tail| - 1] && tail[|tail| - 1] == last;
      assert Inserts(tail, catalog, guards) == Inserts(shorter[1..], catalog, guards) + more;
      hide Inserts;
      InsertsHead(shorter, catalog, guards);
    }
  }

  /** First-match reading of the compiled rules gives exactly the meaning of the rule list, and a
      packet that no rule decides leaves them unchanged. */
  lemma {:induction false} InsertsMeanRules(world: World, rules: seq<OperatorRule>, catalog: Catalog,
                                            guards: seq<Rule>, packet: Packet)
    requires Known(rules, catalog) && AddressGuards(guards)
    ensures var d := Evaluate(world, Inserts(rules, catalog, guards), packet, Initial(packet));
      VerdictOf(d) == Meaning(world, rules, catalog, guards, packet)
      && (d.Undecided? ==> d.addresses == Initial(packet))
  {
    if rules != [] {
      hide Evaluate, GuardHit, CompileRule, Inserts, Concerns, Known, AddressGuards, AddressesFor, Initial, AnyEnabled;
      var rule, tail := rules[0], rules[1..];
      InsertsHead(rules, catalog, guards);
      AnyHead(rules);
      InsertsMeanRules(world, tail, catalog, guards, packet);
      if rule.enabled {
        if rule.kind.CidrRule? {
          CidrDecides(world, rule, guards, packet, catalog);
        } else {
          DomainDecides(world, rule, guards, packet, catalog);
        }
        EvaluateConcat(world, CompileRule(rule, catalog[rule.outbound], guards), Inserts(tail, catalog, guards),
                       packet, Initial(packet));
        NothingEnabled(world, tail, packet);
      } else {
        assert [] + Inserts(tail, catalog, guards) == Inserts(tail, catalog, guards);
      }
    } else {
      assert !AnyEnabled(rules);
    }
  }

  lemma {:induction false} AnyHead(rules: seq<OperatorRule>)
    requires rules != []
    ensures AnyEnabled(rules) <==> rules[0].enabled || AnyEnabled(rules[1..])
  {
    assert rules == [rules[0]] + rules[1..];
  }

  lemma {:induction false} NothingEnabled(world: World, rules: seq<OperatorRule>, packet: Packet)
    ensures !AnyEnabled(rules) ==> FirstSpeaking(world, rules, packet) == |rules|
  {
  }

  // ---- The whole configuration -----------------------------------------------------------------------

  lemma {:induction false} GuardsInMembers(rules: seq<Rule>)
    ensures forall g :: g in GuardsIn(rules) <==> g in rules && IsGuard(g)
  {
    if rules != [] { GuardsInMembers(rules[..|rules| - 1]); }
  }

  predicate ResolvesNothing(rules: seq<Rule>) { forall r :: r in rules ==> !r.action.Resolve? }

  lemma {:induction false} AddressesStay(world: World, rules: seq<Rule>, packet: Packet, addresses: set<Address>)
    requires ResolvesNothing(rules)
    ensures Evaluate(world, rules, packet, addresses).addresses == addresses
  {
    if rules != [] { AddressesStay(world, rules[1..], packet, addresses); }
  }

  /** The effective configuration decides a packet by the leading base rules, then by the meaning
      of the operator rules, then by the rest of the base. */
  lemma {:induction false} ApplyMeans(world: World, base: seq<Rule>, rules: seq<OperatorRule>, catalog: Catalog,
                                      packet: Packet)
    requires Apply(base, rules, catalog).Success? && ResolvesNothing(base[..InsertIndex(base)])
    ensures Known(rules, catalog)
    ensures var index := InsertIndex(base); var start := Initial(packet);
      var first := Evaluate(world, base[..index], packet, start);
      var meant := Meaning(world, rules, catalog, GuardsIn(base), packet);
      VerdictOf(Evaluate(world, Apply(base, rules, catalog).value, packet, start))
      == (if !first.Undecided? then VerdictOf(first)
          else if meant != Passed then meant
          else VerdictOf(Evaluate(world, base[index..], packet, start)))
  {
    var index := InsertIndex(base);
    var inserts := Inserts(rules, catalog, GuardsIn(base));
    GuardsInMembers(base);
    AddressesStay(world, base[..index], packet, Initial(packet));
    InsertsMeanRules(world, rules, catalog, GuardsIn(base), packet);
    EvaluateConcat(world, base[..index] + inserts, base[index..], packet, Initial(packet));
    EvaluateConcat(world, base[..index], inserts, packet, Initial(packet));
    hide Evaluate, Meaning, Inserts, GuardsIn, GuardHit;
  }

  lemma {:induction false} BaseSplits(world: World, base: seq<Rule>, packet: Packet)
    requires ResolvesNothing(base[..InsertIndex(base)])
    ensures var index := InsertIndex(base); var first := Evaluate(world, base[..index], packet, Initial(packet));
      Evaluate(world, base, packet, Initial(packet))
      == if first.Undecided? then Evaluate(world, base[index..], packet, Initial(packet)) else first
  {
    var index := InsertIndex(base);
    assert base == base[..index] + base[index..];
    AddressesStay(world, base[..index], packet, Initial(packet));
    EvaluateConcat(world, base[..index], base[index..], packet, Initial(packet));
    hide Evaluate;
  }

  predicate NoneConcerns(world: World, rules: seq<OperatorRule>, packet: Packet) {
    forall r :: r in rules && r.enabled ==> !Concerns(world, r, packet)
  }

  /** A packet no operator rule is about is decided as by the base, unless it reaches the operator
      rules, a guard matches its literal address, and the rest of the base would let it pass. */
  lemma {:induction false} UnconcernedPackets(world: World, base: seq<Rule>, rules: seq<OperatorRule>,
                                              catalog: Catalog, packet: Packet)
    requires Apply(base, rules, catalog).Success? && ResolvesNothing(base[..InsertIndex(base)])
    requires NoneConcerns(world, rules, packet)
    ensures var index := InsertIndex(base); var start := Initial(packet);
      VerdictOf(Evaluate(world, Apply(base, rules, catalog).value, packet, start))
        == VerdictOf(Evaluate(world, base, packet, start))
      <==> !(AnyEnabled(rules) && Evaluate(world, base[..index], packet, start).Undecided?
             && GuardHit(world, GuardsIn(base), packet, start)
             && VerdictOf(Evaluate(world, base[index..], packet, start)) != Blocked)
  {
    ApplyMeans(world, base, rules, catalog, packet);
    BaseSplits(world, base, packet);
    hide Evaluate, GuardHit, GuardsIn, Apply;
  }

  // ---- The gateway bases -----------------------------------------------------------------------------------

  lemma {:induction false} TrafficRulesUnscoped(policy: Policy)
    requires WellBuilt(policy.traffic)
    ensures forall c :: c in policy.traffic ==> !Mismatched(c)
    ensures forall r :: r in TrafficRules(policy) ==> !Leading(r) && (r.action.Reject? ==> r in Guards(policy.traffic))
  {
    assert forall c :: c in policy.traffic ==> WellBuiltClass(c);
    forall r | r in TrafficRules(policy) ensures !Leading(r) && (r.action.Reject? ==> r in Guards(policy.traffic)) {
      TrafficMembers(policy, r);
      var c :| c in policy.traffic && ComesFrom(c, r);
      assert WellBuiltClass(c) && ShapedClass(c) && UnscopedClass(c);
      if r in c.guards { GuardOfClass(policy.traffic, c, r); }
    }
  }

  lemma {:induction false} GuardOfClass(traffic: seq<RouteClass>, entry: RouteClass, guard: Rule)
    requires entry in traffic && guard in entry.guards
    ensures guard in Guards(traffic)
  {
    if traffic[|traffic| - 1] != entry {
      var i :| 0 <= i < |traffic| && traffic[i] == entry;
      assert traffic[..|traffic| - 1][i] == entry;
      GuardOfClass(traffic[..|traffic| - 1], entry, guard);
    }
  }

  lemma {:induction false} GuardsAreTraffic(policy: Policy)
    requires forall c :: c in policy.traffic ==> !Mismatched(c)
    ensures forall g :: g in Guards(policy.traffic) ==> g in TrafficRules(policy)
  {
    hide Guards, PreOnly, Blocks, Terminals;
  }

  lemma {:induction false} InsertIndexOf(before: seq<Rule>, last: Rule, after: seq<Rule>)
    requires Leading(last) && forall r :: r in after ==> !Leading(r)
    ensures InsertIndex(before + [last] + after) == |before| + 1
    ensures (before + [last] + after)[|before| + 1..] == after
    ensures (before + [last] + after)[..|before| + 1] == before + [last]
  {
    var rules := before + [last] + after;
    assert rules[|before|] == last;
    forall i | |before| + 1 <= i < |rules| ensures !Leading(rules[i]) {
      assert rules[i] == after[i - |before| - 1];
    }
  }

  /** A gateway base: the transport rules of the dual topology, then the compiled policy. */
  function GatewayBase(transport: seq<Rule>, policy: Policy): seq<Rule>
    requires RouteRules(policy).Success?
  {
    transport + RouteRules(policy).value
  }

  predicate OnlyRoutes(rules: seq<Rule>) { forall r :: r in rules ==> r.action.Route? }

  /** The guards found in a gateway base match exactly what the policy's guards match. */
  lemma {:induction false} SameGuards(world: World, transport: seq<Rule>, policy: Policy, env: GatewayEnv,
                                      outbound: string, packet: Packet, addresses: set<Address>)
    requires Dependable(policy, env, outbound) && OnlyRoutes(transport)
    ensures GuardHit(world, GuardsIn(GatewayBase(transport, policy)), packet, addresses)
      <==> GuardHit(world, Guards(policy.traffic), packet, addresses)
  {
    var base := GatewayBase(transport, policy);
    GuardsInMembers(base);
    TrafficRulesUnscoped(policy);
    GuardsAreTraffic(policy);
    assert base == transport + (policy.control + TrafficRules(policy));
    assert forall r :: r in policy.control ==> !r.action.Reject?;
    assert forall g :: g in Guards(policy.traffic) ==> IsGuard(g);
    assert forall g :: g in GuardsIn(base) <==> g in Guards(policy.traffic);
    hide GuardsIn, Guards, TrafficRules, Matches;
  }

  /** Traffic rules refuse every literal address a guard matches. */
  lemma {:induction false} TrafficRefusesGuarded(world: World, policy: Policy, packet: Packet)
    requires WellBuilt(policy.traffic) && (forall c :: c in policy.traffic ==> !Mismatched(c))
    requires packet.literal.Some? && GuardHit(world, Guards(policy.traffic), packet, Initial(packet))
    ensures VerdictOf(Evaluate(world, TrafficRules(policy), packet, Initial(packet))) == Blocked
  {
    assert forall c :: c in policy.traffic ==> WellBuiltClass(c);
    assert Shaped(policy.traffic);
    TrafficGuarded(world, policy, packet);
    TrafficFinishesClean(world, policy, packet, Initial(packet));
    LiteralsStay(world, TrafficRules(policy), packet);
    hide TrafficRules, GuardHit, Shaped;
  }

  lemma {:induction false} LiteralsStay(world: World, rules: seq<Rule>, packet: Packet)
    requires packet.literal.Some?
    ensures Evaluate(world, rules, packet, Initial(packet)).addresses == Initial(packet)
  {
    if rules != [] { LiteralsStay(world, rules[1..], packet); }
  }

  lemma {:induction false} HitIsLiteral(world: World, guards: seq<Rule>, packet: Packet)
    requires AddressGuards(guards) && GuardHit(world, guards, packet, Initial(packet))
    ensures packet.literal.Some?
  {
    NoAddressNoHit(world, guards, packet);
  }

  lemma {:induction false} DependableFacts(policy: Policy, env: GatewayEnv, outbound: string)
    requires Dependable(policy, env, outbound)
    ensures RouteRules(policy) == Success(policy.control + TrafficRules(policy)) && WellBuilt(policy.traffic)
    ensures policy.control == ControlRules(outbound) && Guards(policy.traffic) == GuardRulesOf(env.blockedCidrs)
    ensures forall c :: c in policy.traffic ==> !Mismatched(c)
    ensures AddressGuards(GuardRulesOf(env.blockedCidrs))
  {
    TrafficRulesUnscoped(policy);
  }

  lemma {:induction false} StillResolvesNothing(a: seq<Rule>, b: seq<Rule>)
    requires OnlyRoutes(a) && ResolvesNothing(b)
    ensures ResolvesNothing(a + b)
  {
  }

  /** The operator rules of a dual base go right behind its control rules. */
  lemma {:induction false} DualInsertIndex(transport: seq<Rule>, policy: Policy, env: GatewayEnv)
    requires Dependable(policy, env, TO_FOREIGN) && OnlyRoutes(transport)
    ensures RouteRules(policy).Success?
    ensures var base := GatewayBase(transport, policy); var index := InsertIndex(base);
      base[index..] == TrafficRules(policy) && ResolvesNothing(base[..index])
  {
    hide TrafficRules, RouteRules, Dependable, InsertIndex, Guards, GuardRulesOf, WellBuilt;
    DependableFacts(policy, env, TO_FOREIGN);
    TrafficRulesUnscoped(policy);
    assert Leading(policy.control[2]) && ResolvesNothing(policy.control);
    hide Leading;
    var before := transport + policy.control[..2];
    var base := GatewayBase(transport, policy);
    assert base == before + [policy.control[2]] + TrafficRules(policy);
    InsertIndexOf(before, policy.control[2], TrafficRules(policy));
    hide ResolvesNothing;
    StillResolvesNothing(transport, policy.control);
    assert transport + policy.control == before + [policy.control[2]];
  }

  /** On the dual gateway base every packet that no operator rule is about is decided exactly as
      without operator rules. */
  lemma {:induction false} DualBaseKept(world: World, policy: Policy, env: GatewayEnv, transport: seq<Rule>,
                                        rules: seq<OperatorRule>, catalog: Catalog, packet: Packet)
    requires Dependable(policy, env, TO_FOREIGN) && OnlyRoutes(transport) && NoneConcerns(world, rules, packet)
    ensures RouteRules(policy).Success?
    ensures var base := GatewayBase(transport, policy);
      Apply(base, rules, catalog).Success? ==>
        VerdictOf(Evaluate(world, Apply(base, rules, catalog).value, packet, Initial(packet)))
        == VerdictOf(Evaluate(world, base, packet, Initial(packet)))
  {
    DependableFacts(policy, env, TO_FOREIGN);
    DualInsertIndex(transport, policy, env);
    var base := GatewayBase(transport, policy);
    SameGuards(world, transport, policy, env, TO_FOREIGN, packet, Initial(packet));
    hide GatewayBase, RouteRules, TrafficRules, Dependable, Apply, Evaluate, GuardHit, Guards, GuardsIn, InsertIndex,
      NoneConcerns, WellBuilt, GuardRulesOf, AddressGuards, ResolvesNothing;
    if Apply(base, rules, catalog).Success? {
      UnconcernedPackets(world, base, rules, catalog, packet);
      if GuardHit(world, Guards(policy.traffic), packet, Initial(packet)) {
        HitIsLiteral(world, Guards(policy.traffic), packet);
        TrafficRefusesGuarded(world, policy, packet);
      }
    }
  }

  lemma {:induction false} TwoLead(control: seq<Rule>, after: seq<Rule>)
    requires |control| == 3 && Leading(control[1]) && !Leading(control[2]) && forall r :: r in after ==> !Leading(r)
    ensures InsertIndex(control + after) == 2
    ensures (control + after)[2..] == [control[2]] + after && (control + after)[..2] == control[..2]
  {
    hide InsertIndex, Leading;
    var rest := [control[2]] + after;
    assert control + after == [control[0]] + [control[1]] + rest;
    InsertIndexOf([control[0]], control[1], rest);
    assert control[..2] == [control[0]] + [control[1]];
  }

  /** The operator rules of a single-gateway base go in front of its port-53 control rule. */
  lemma {:induction false} SingleInsertIndex(policy: Policy, env: GatewayEnv)
    requires Dependable(policy, env, LOCAL_EGRESS)
    ensures RouteRules(policy).Success? && |policy.control| == 3
    ensures var base := GatewayBase([], policy); var index := InsertIndex(base);
      base[index..] == [policy.control[2]] + TrafficRules(policy) && base[..index] == policy.control[..2]
  {
    hide TrafficRules, RouteRules, Dependable, InsertIndex, Guards, GuardRulesOf, WellBuilt;
    DependableFacts(policy, env, LOCAL_EGRESS);
    TrafficRulesUnscoped(policy);
    assert Leading(policy.control[1]) && !Leading(policy.control[2]);
    hide Leading;
    TwoLead(policy.control, TrafficRules(policy));
    assert GatewayBase([], policy) == policy.control + TrafficRules(policy);
  }

  lemma {:induction false} Port53First(world: World, rest: seq<Rule>, packet: Packet, outbound: string)
    ensures VerdictOf(Evaluate(world, [ControlRules(outbound)[2]] + rest, packet, Initial(packet)))
      == if packet.inbound == "public-hy2-in" && packet.port == 53 then To(outbound)
         else VerdictOf(Evaluate(world, rest, packet, Initial(packet)))
  {
    var first := ControlRules(outbound)[2];
    assert ([first] + rest)[1..] == rest;
    assert Matches(world, first, packet, Initial(packet)) == (packet.inbound == "public-hy2-in" && packet.port == 53);
  }

  /** On the single-gateway base operator rules go in front of the port-53 control rule, so such
      a packet is decided differently exactly when it is a port-53 packet of the public inbound
      to a literal address that a guard matches. */
  lemma {:induction false} SingleBaseChanges(world: World, policy: Policy, env: GatewayEnv, rules: seq<OperatorRule>,
                                             catalog: Catalog, packet: Packet)
    requires Dependable(policy, env, LOCAL_EGRESS) && NoneConcerns(world, rules, packet)
             && AnyEnabled(rules)
    ensures RouteRules(policy).Success?
    ensures var base := GatewayBase([], policy);
      Apply(base, rules, catalog).Success? ==>
        (VerdictOf(Evaluate(world, Apply(base, rules, catalog).value, packet, Initial(packet)))
         == VerdictOf(Evaluate(world, base, packet, Initial(packet)))
         <==> !(packet.inbound == "public-hy2-in" && packet.port == 53
                && GuardHit(world, GuardRulesOf(env.blockedCidrs), packet, Initial(packet))))
  {
    hide TrafficRules, RouteRules, Dependable, InsertIndex, Guards, GuardRulesOf, WellBuilt, Apply, Evaluate, GuardHit,
      NoneConcerns, AddressGuards, GuardsIn;
    DependableFacts(policy, env, LOCAL_EGRESS);
    SingleInsertIndex(policy, env);
    var base := GatewayBase([], policy);
    SameGuards(world, [], policy, env, LOCAL_EGRESS, packet, Initial(packet));
    PassiveRules(world, policy.control[..2], packet, Initial(packet));
    Port53First(world, TrafficRules(policy), packet, LOCAL_EGRESS);
    hide GatewayBase, ControlRules;
    if Apply(base, rules, catalog).Success? {
      UnconcernedPackets(world, base, rules, catalog, packet);
      if GuardHit(world, Guards(policy.traffic), packet, Initial(packet)) {
        HitIsLiteral(world, Guards(policy.traffic), packet);
        TrafficRefusesGuarded(world, policy, packet);
      }
    }
  }

  /** Both gateway builders return policies of that kind. */
  lemma {:induction false} GatewayPoliciesDepend(env: GatewayEnv, lists: DnsLists)
    ensures env.dual ==> DualPolicy(env, lists).Success? && Dependable(DualPolicy(env, lists).value, env, TO_FOREIGN)
    ensures !env.dual ==> SinglePolicy(env).Success? && Dependable(SinglePolicy(env).value, env, LOCAL_EGRESS)
  {
    if env.dual { DualBuilds(env, lists); } else { SingleBuilds(env); }
  }
}
