/** Normal form of operator rules (admin_apply.py). Normalization is idempotent, which is what
    lets a stored list be compared with a freshly loaded one by its generation. */
module RuleNormalization {
  import opened Wrappers
  import opened Text

  datatype RawRule = RawRule(id: string, kind: string, value: string, includeSubdomains: bool,
                             outbound: string, enabled: bool, conflict: string)

  datatype RuleError =
    | NotAnObject | NoSuchServer | EmptyValue | NotGlobal | NotADomain | DuplicateId | UnavailableOutbound

  const OUTBOUNDS: set<string> := {"direct-ru", "to-foreign", "local-egress"}

  predicate Alphanumeric(c: char) { 'a' <= c <= 'z' || '0' <= c <= '9' }

  /** A DNS label: letters, digits and inner hyphens, at most 63 characters. */
  predicate Label(text: string) {
    && 1 <= |text| <= 63
    && Alphanumeric(text[0]) && Alphanumeric(text[|text| - 1])
    && forall c :: c in text ==> Alphanumeric(c) || c == '-'
  }

  /** Where the first dot is, or the length. */
  function FirstDot(text: string): (i: nat)
    ensures i <= |text| && '.' !in text[..i] && (i < |text| ==> text[i] == '.')
  {
    if text == "" || text[0] == '.' then 0 else 1 + FirstDot(text[1..])
  }

  /** Labels separated by single dots. */
  predicate Labels(text: string)
    decreases |text|
  {
    var dot := FirstDot(text);
    Label(text[..dot]) && (dot < |text| ==> Labels(text[dot + 1..]))
  }

  /** DOMAIN_RE: at least two labels, at most 253 characters. */
  predicate IsDomain(text: string) {
    1 <= |text| <= 253 && Labels(text) && FirstDot(text) < |text|
  }

  /** normalize_domain: the bare name and whether a wildcard asked for subdomains. */
  function NormalizeDomain(raw: string): Result<(string, bool), RuleError> {
    var value := StripDots(Lower(Strip(raw)));
    var starred := "*." <= value;
    var bare := if starred then value[2..] else value;
    var dotted := "." <= bare;
    var name := if dotted then bare[1..] else bare;
    if IsDomain(name) then Success((name, starred || dotted)) else Failure(NotADomain)
  }

  /** Networks stands for the ip_network parser: the printed form of a global network. */
  type Networks = string -> Option<string>

  predicate Canonical(networks: Networks, value: string) {
    networks(value) == Some(value) && Trimmed(value) && value != ""
  }

  /** The parser prints networks in a form it parses back to itself. */
  ghost predicate Stable(networks: Networks) {
    forall value :: networks(value).Some? ==> Canonical(networks, networks(value).value)
  }

  function IdOf(raw: RawRule, newId: string): string { if Strip(raw.id) == "" then newId else Strip(raw.id) }

  function ConflictOf(raw: RawRule): string { if raw.enabled then "" else Strip(raw.conflict) }

  /** normalize_rule; newId is the identifier a rule without one receives. */
  function NormalizeRule(raw: RawRule, newId: string, networks: Networks): Result<RawRule, RuleError> {
    var outbound := Strip(raw.outbound);
    var value := Strip(raw.value);
    if outbound !in OUTBOUNDS then Failure(NoSuchServer)
    else if value == "" then Failure(EmptyValue)
    else if Strip(raw.kind) == "cidr" || '/' in value then
      if networks(value).None? then Failure(NotGlobal)
      else Success(RawRule(IdOf(raw, newId), "cidr", networks(value).value, false, outbound, raw.enabled,
                           ConflictOf(raw)))
    else
      var domain :- NormalizeDomain(value);
      Success(RawRule(IdOf(raw, newId), "domain", domain.0, raw.includeSubdomains || domain.1, outbound, raw.enabled,
                      ConflictOf(raw)))
  }

  predicate NewId(newId: string) { Trimmed(newId) && newId != "" }

  /** A rule normalization leaves alone, whatever identifier is offered. */
  ghost predicate Normal(rule: RawRule, networks: Networks) {
    forall newId :: NormalizeRule(rule, newId, networks) == Success(rule)
  }

  lemma {:induction false} LabelsPlain(text: string)
    requires Labels(text)
    ensures text != "" && Alphanumeric(text[0]) && Alphanumeric(text[|text| - 1])
    ensures forall c :: c in text ==> Alphanumeric(c) || c == '-' || c == '.'
    decreases |text|
  {
    var dot := FirstDot(text);
    if dot < |text| {
      LabelsPlain(text[dot + 1..]);
      assert text == text[..dot] + ["."[0]] + text[dot + 1..];
    } else {
      assert text[..dot] == text;
    }
  }

  /** A domain in normal form is its own normal form. */
  lemma {:induction false} DomainFixed(name: string)
    requires IsDomain(name)
    ensures NormalizeDomain(name) == Success((name, false)) && Trimmed(name)
  {
    LabelsPlain(name);
    StripTrimmed(name);
    LowerFixed(name);
  }

  /** A submitted name: an optional "*." or "." or both, a domain name, and dots. */
  predicate Spelled(text: string, prefix: string, name: string, dots: string) {
    text == prefix + name + dots && prefix in {"", "*.", ".", "*.."} && IsDomain(name) && AllDots(dots)
  }

  /** A name is accepted exactly when it is spelled like that, apart from blanks at its ends and
      capital letters; a prefix asks for subdomains. */
  lemma {:induction false} DomainSpelled(raw: string, name: string, subdomains: bool)
    ensures NormalizeDomain(raw) == Success((name, subdomains)) <==>
      exists prefix, dots :: Spelled(Lower(Strip(raw)), prefix, name, dots) && (subdomains <==> prefix != "")
  {
    hide *;
    if NormalizeDomain(raw) == Success((name, subdomains)) {
      var prefix, dots := NameReads(raw, name, subdomains);
    }
    if exists prefix, dots :: Spelled(Lower(Strip(raw)), prefix, name, dots) && (subdomains <==> prefix != "") {
      var prefix, dots :| Spelled(Lower(Strip(raw)), prefix, name, dots) && (subdomains <==> prefix != "");
      SpellingReads(raw, prefix, name, dots);
    }
  }

  lemma {:induction false} NameReads(raw: string, name: string, subdomains: bool) returns (prefix: string, dots: string)
    requires NormalizeDomain(raw) == Success((name, subdomains))
    ensures Spelled(Lower(Strip(raw)), prefix, name, dots) && (subdomains <==> prefix != "")
  {
    hide IsDomain, Strip, Lower, StripDots;
    prefix, dots := ReadSpells(Lower(Strip(raw)), name);
  }

  lemma {:induction false} SpellingReads(raw: string, prefix: string, name: string, dots: string)
    requires Spelled(Lower(Strip(raw)), prefix, name, dots)
    ensures NormalizeDomain(raw) == Success((name, prefix != ""))
  {
    hide IsDomain, Strip, Lower, StripDots;
    SpelledReads(Lower(Strip(raw)), prefix, name, dots);
  }

  lemma {:induction false} ReadSpells(text: string, name: string) returns (prefix: string, dots: string)
    requires var value := StripDots(text); var bare := if "*." <= value then value[2..] else value;
      name == (if "." <= bare then bare[1..] else bare) && IsDomain(name)
    ensures Spelled(text, prefix, name, dots)
    ensures var value := StripDots(text); var starred := "*." <= value;
      var bare := if starred then value[2..] else value;
      prefix != "" <==> starred || "." <= bare
  {
    hide IsDomain;
    dots := DotsSplit(text);
    var value := StripDots(text);
    hide StripDots;
    var bare := if "*." <= value then value[2..] else value;
    if "*." <= value {
      prefix := if "." <= bare then "*.." else "*.";
      assert value == "*." + bare;
    } else {
      prefix := if "." <= bare then "." else "";
    }
    assert "." <= bare ==> bare == "." + name;
    assert value == prefix + name;
    assert text == prefix + name + dots;
  }

  lemma {:induction false} SpelledReads(text: string, prefix: string, name: string, dots: string)
    requires Spelled(text, prefix, name, dots)
    ensures var value := StripDots(text); var starred := "*." <= value;
      var bare := if starred then value[2..] else value;
      value == prefix + name && (if "." <= bare then bare[1..] else bare) == name
      && (prefix != "" <==> starred || "." <= bare)
  {
    assert Labels(name);
    LabelsPlain(name);
    hide IsDomain, Labels;
    DotsDropped(prefix + name, dots);
    var value := prefix + name;
    assert value[|value| - 1] == name[|name| - 1];
    assert value[|prefix|..] == name;
    if prefix == "*.." { assert value[2..] == "." + name; }
  }

  /** The parts both kinds of rule share are in normal form. */
  predicate Settled(rule: RawRule) {
    && Trimmed(rule.id) && rule.id != ""
    && rule.outbound in OUTBOUNDS && Trimmed(rule.outbound)
    && Trimmed(rule.conflict) && (rule.enabled ==> rule.conflict == "")
    && Trimmed(rule.value) && rule.value != ""
  }

  lemma {:induction false} SettledNetworkIsNormal(rule: RawRule, networks: Networks)
    requires Settled(rule) && rule.kind == "cidr" && !rule.includeSubdomains
    requires networks(rule.value) == Some(rule.value)
    ensures Normal(rule, networks)
  {
    StripTrimmed(rule.id);
    StripTrimmed(rule.outbound);
    StripTrimmed(rule.conflict);
    StripTrimmed(rule.value);
    StripTrimmed("cidr");
    hide Strip, NormalizeDomain;
    forall newId ensures NormalizeRule(rule, newId, networks) == Success(rule) {}
  }

  lemma {:induction false} NoSlash(name: string)
    requires IsDomain(name)
    ensures '/' !in name
  {
    LabelsPlain(name);
  }

  lemma {:induction false} SettledDomainIsNormal(rule: RawRule, networks: Networks)
    requires Settled(rule) && rule.kind == "domain" && IsDomain(rule.value)
    ensures Normal(rule, networks)
  {
    StripTrimmed(rule.id);
    StripTrimmed(rule.outbound);
    StripTrimmed(rule.conflict);
    StripTrimmed(rule.value);
    StripTrimmed("domain");
    DomainFixed(rule.value);
    NoSlash(rule.value);
    hide Strip, NormalizeDomain, IsDomain, Trimmed, Labels, FirstDot;
    forall newId ensures NormalizeRule(rule, newId, networks) == Success(rule) {}
  }

  /** Every accepted rule has its shared parts in normal form. */
  lemma {:induction false} AcceptedSettles(raw: RawRule, newId: string, networks: Networks)
    requires Stable(networks) && NewId(newId) && NormalizeRule(raw, newId, networks).Success?
    ensures var rule := NormalizeRule(raw, newId, networks).value;
      && Settled(rule)
      && (rule.kind == "cidr" ==> !rule.includeSubdomains && networks(rule.value) == Some(rule.value))
      && (rule.kind != "cidr" ==> rule.kind == "domain" && IsDomain(rule.value))
  {
    var rule := NormalizeRule(raw, newId, networks).value;
    StripTrims(raw.id);
    StripTrims(raw.outbound);
    StripTrims(raw.conflict);
    hide Strip;
    if rule.kind == "cidr" {
      assert Canonical(networks, rule.value);
    } else {
      assert IsDomain(rule.value);
      DomainFixed(rule.value);
    }
  }

  /** Normalizing once is normalizing for good. */
  lemma {:induction false} NormalizeRuleIdempotent(raw: RawRule, newId: string, networks: Networks)
    requires Stable(networks) && NewId(newId) && NormalizeRule(raw, newId, networks).Success?
    ensures Normal(NormalizeRule(raw, newId, networks).value, networks)
  {
    AcceptedSettles(raw, newId, networks);
    var rule := NormalizeRule(raw, newId, networks).value;
    if rule.kind == "cidr" {
      SettledNetworkIsNormal(rule, networks);
    } else {
      SettledDomainIsNormal(rule, networks);
    }
  }

  /** What an accepted rule says is what was submitted: blanks are trimmed, a missing identifier is
      filled in, a slash or the kind "cidr" makes a network of the value, anything else is a name, and
      a conflict is noted for a disabled rule only. */
  lemma {:induction false} AcceptedSays(raw: RawRule, newId: string, networks: Networks)
    requires NormalizeRule(raw, newId, networks).Success?
    ensures var rule := NormalizeRule(raw, newId, networks).value;
      && rule.outbound == Strip(raw.outbound) && rule.enabled == raw.enabled
      && rule.id == (if Strip(raw.id) != "" then Strip(raw.id) else newId)
      && rule.conflict == (if raw.enabled then "" else Strip(raw.conflict))
      && if Strip(raw.kind) == "cidr" || '/' in Strip(raw.value)
         then rule.kind == "cidr" && Some(rule.value) == networks(Strip(raw.value)) && !rule.includeSubdomains
         else rule.kind == "domain" && exists prefix, dots ::
           Spelled(Lower(Strip(raw.value)), prefix, rule.value, dots)
           && (rule.includeSubdomains <==> raw.includeSubdomains || prefix != "")
  {
    hide IsDomain, Lower, Strip;
    var rule := NormalizeRule(raw, newId, networks).value;
    if rule.kind == "domain" {
      StripTrims(raw.value);
      var domain := NormalizeDomain(Strip(raw.value)).value;
      hide NormalizeDomain;
      var prefix, dots := NameReads(Strip(raw.value), domain.0, domain.1);
    }
  }

  /** Exactly which rules are accepted. */
  lemma {:induction false} AcceptedExactly(raw: RawRule, newId: string, networks: Networks)
    ensures NormalizeRule(raw, newId, networks).Success? <==>
      && Strip(raw.outbound) in {"direct-ru", "to-foreign", "local-egress"} && Strip(raw.value) != ""
      && if Strip(raw.kind) == "cidr" || '/' in Strip(raw.value) then networks(Strip(raw.value)).Some?
         else exists prefix, name, dots :: Spelled(Lower(Strip(raw.value)), prefix, name, dots)
  {
    hide IsDomain, Lower, Strip;
    StripTrims(raw.value);
    var value := Strip(raw.value);
    hide NormalizeDomain;
    if NormalizeDomain(value).Success? {
      var domain := NormalizeDomain(value).value;
      var prefix, dots := NameReads(value, domain.0, domain.1);
    }
    if exists prefix, name, dots :: Spelled(Lower(value), prefix, name, dots) {
      var prefix, name, dots :| Spelled(Lower(value), prefix, name, dots);
      SpellingReads(value, prefix, name, dots);
    }
  }
}
