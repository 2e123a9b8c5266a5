/** What an ordered list of routing rules means: rules are read first to last, `resolve`
    attaches addresses to a name destination and reading goes on, `route` and `reject` decide.

    Resolvers, address classes, rule sets and patterns are parameters (World), so every
    statement holds for all of them. */
module RouteSemantics {
  import opened Wrappers

  type Address = nat

  datatype Condition =
    | Anything
    | Domain(names: seq<string>)
    | DomainSuffix(suffixes: seq<string>)
    | DomainRegex(patterns: seq<string>)
    | RuleSet(tags: seq<string>)
    | IpCidr(cidrs: seq<string>)
    | IpIsPrivate
    | IpVersion(version: nat)

  datatype Action = Route | Resolve | Reject | Sniff | RouteOptions

  datatype Rule = Rule(inbound: Option<seq<string>>, port: Option<nat>, condition: Condition, action: Action,
                       outbound: Option<string>, server: Option<string>)

  datatype World = World(resolve: (string, string) -> set<Address>, inCidr: (string, Address) -> bool,
                         isPrivate: Address -> bool, version: Address -> nat,
                         inRuleSet: (string, Option<string>, set<Address>) -> bool,
                         matchesRegex: (string, string) -> bool)

  /** A connection: its destination is an address, or a name; a name may also have been sniffed. */
  datatype Packet = Packet(inbound: string, port: nat, name: Option<string>, literal: Option<Address>)

  function Initial(packet: Packet): set<Address> {
    if packet.literal.Some? then {packet.literal.value} else {}
  }

  predicate EndsWith(text: string, suffix: string) {
    |suffix| <= |text| && text[|text| - |suffix|..] == suffix
  }

  predicate Satisfies(world: World, condition: Condition, packet: Packet, addresses: set<Address>) {
    match condition
    case Anything => true
    case Domain(names) => packet.name.Some? && packet.name.value in names
    case DomainSuffix(suffixes) => packet.name.Some? && exists s :: s in suffixes && EndsWith(packet.name.value, s)
    case DomainRegex(patterns) =>
      packet.name.Some? && exists p :: p in patterns && world.matchesRegex(p, packet.name.value)
    case RuleSet(tags) => exists t :: t in tags && world.inRuleSet(t, packet.name, addresses)
    case IpCidr(cidrs) => exists c, a :: c in cidrs && a in addresses && world.inCidr(c, a)
    case IpIsPrivate => exists a :: a in addresses && world.isPrivate(a)
    case IpVersion(version) => exists a :: a in addresses && world.version(a) == version
  }

  predicate Matches(world: World, rule: Rule, packet: Packet, addresses: set<Address>) {
    && (rule.inbound.Some? ==> packet.inbound in rule.inbound.value)
    && (rule.port.Some? ==> packet.port == rule.port.value)
    && Satisfies(world, rule.condition, packet, addresses)
  }

  /** The rule that decided, with the addresses known at that moment. */
  datatype Decision =
    | Sent(rule: Rule, addresses: set<Address>)
    | Refused(rule: Rule, addresses: set<Address>)
    | Undecided(addresses: set<Address>)

  /** What becomes of a packet; one that passes goes to the final outbound. */
  datatype Verdict = To(outbound: string) | Blocked | Passed

  function VerdictOf(decision: Decision): Verdict {
    match decision
    case Sent(rule, _) => To(if rule.outbound.Some? then rule.outbound.value else "")
    case Refused(_, _) => Blocked
    case Undecided(_) => Passed
  }

  /** `resolve` acts on name destinations only. */
  function Resolved(world: World, rule: Rule, packet: Packet, addresses: set<Address>): set<Address> {
    if packet.literal.None? && packet.name.Some? && rule.server.Some?
    then world.resolve(rule.server.value, packet.name.value) else addresses
  }

  function Evaluate(world: World, rules: seq<Rule>, packet: Packet, addresses: set<Address>): Decision {
    if rules == [] then Undecided(addresses)
    else if !Matches(world, rules[0], packet, addresses) then Evaluate(world, rules[1..], packet, addresses)
    else match rules[0].action
      case Route => Sent(rules[0], addresses)
      case Reject => Refused(rules[0], addresses)
      case Resolve => Evaluate(world, rules[1..], packet, Resolved(world, rules[0], packet, addresses))
      case _ => Evaluate(world, rules[1..], packet, addresses)
  }

  lemma {:induction false} EvaluateConcat(world: World, a: seq<Rule>, b: seq<Rule>, packet: Packet,
                                          addresses: set<Address>)
    ensures Evaluate(world, a + b, packet, addresses)
      == match Evaluate(world, a, packet, addresses)
         case Undecided(known) => Evaluate(world, b, packet, known)
         case decided => decided
  {
    if a == [] {
      assert a + b == b;
    } else {
      assert (a + b)[1..] == a[1..] + b;
      EvaluateConcat(world, a[1..], b, packet, Resolved(world, a[0], packet, addresses));
      EvaluateConcat(world, a[1..], b, packet, addresses);
    }
  }

  lemma {:induction false} DecidedByMember(world: World, rules: seq<Rule>, packet: Packet, addresses: set<Address>)
    ensures match Evaluate(world, rules, packet, addresses)
      case Sent(rule, known) => rule in rules && rule.action.Route? && Matches(world, rule, packet, known)
      case Refused(rule, known) => rule in rules && rule.action.Reject? && Matches(world, rule, packet, known)
      case Undecided(_) => true
  {
    if rules != [] {
      DecidedByMember(world, rules[1..], packet, addresses);
      DecidedByMember(world, rules[1..], packet, Resolved(world, rules[0], packet, addresses));
    }
  }

  // ---- Guards -------------------------------------------------------------------------------

  ghost predicate GuardHit(world: World, guards: seq<Rule>, packet: Packet, addresses: set<Address>) {
    exists g :: g in guards && Matches(world, g, packet, addresses)
  }

  predicate AllReject(rules: seq<Rule>) { forall g :: g in rules ==> g.action.Reject? }

  /** A list of reject rules refuses exactly what one of them matches and lets the rest pass. */
  lemma {:induction false} GuardsDecide(world: World, guards: seq<Rule>, packet: Packet, addresses: set<Address>)
    requires AllReject(guards)
    ensures var d := Evaluate(world, guards, packet, addresses);
      if GuardHit(world, guards, packet, addresses) then d.Refused? && d.addresses == addresses
      else d == Undecided(addresses)
  {
    if guards != [] {
      GuardsDecide(world, guards[1..], packet, addresses);
      assert guards == [guards[0]] + guards[1..];
      if Matches(world, guards[0], packet, addresses) {
        assert guards[0] in guards;
      } else if GuardHit(world, guards[1..], packet, addresses) {
        var g :| g in guards[1..] && Matches(world, g, packet, addresses);
        assert g in guards;
      }
    }
  }

  /** Rules that neither route, reject nor resolve leave every packet alone. */
  lemma {:induction false} PassiveRules(world: World, rules: seq<Rule>, packet: Packet, addresses: set<Address>)
    requires forall r :: r in rules ==> r.action.Sniff? || r.action.RouteOptions?
    ensures Evaluate(world, rules, packet, addresses) == Undecided(addresses)
  {
    if rules != [] { PassiveRules(world, rules[1..], packet, addresses); }
  }
}
