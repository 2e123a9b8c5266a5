/** Committing operator rules (admin_apply.py): the list forms, the all-or-nothing replacement of
    the rules, configuration and manifest files, and optimistic concurrency between editors.
    A digest is modelled by the content it is taken of. */
module RuleCommit {
  import opened Wrappers
  import opened Text
  import opened RuleNormalization

  // ---- Lists of rules ------------------------------------------------------------------------

  type Rules = seq<RawRule>

  /** Items of a stored or submitted list; None is an item that is not an object. */
  type Items = seq<Option<RawRule>>

  /** The identifier offered to the item at each position. */
  type Ids = nat -> string

  datatype Key = Key(kind: string, value: string, includeSubdomains: bool, outbound: string)

  function KeyOf(rule: RawRule): Key { Key(rule.kind, rule.value, rule.includeSubdomains, rule.outbound) }

  predicate HasKey(rules: Rules, key: Key) { exists j :: 0 <= j < |rules| && KeyOf(rules[j]) == key }

  predicate HasId(rules: Rules, id: string) { exists j :: 0 <= j < |rules| && rules[j].id == id }

  function ItemsOf(rules: Rules): Items { seq(|rules|, i requires 0 <= i < |rules| => Some(rules[i])) }

  function NormalizeItem(item: Option<RawRule>, newId: string, networks: Networks): Result<RawRule, RuleError> {
    match item
    case None => Failure(NotAnObject)
    case Some(raw) => NormalizeRule(raw, newId, networks)
  }

  /** normalize_rules: the first rule of every key, in order; identifiers may not repeat. */
  function NormalizeRules(items: Items, ids: Ids, networks: Networks): Result<Rules, RuleError> {
    if items == [] then Success([])
    else
      var last := |items| - 1;
      var kept :- NormalizeRules(items[..last], ids, networks);
      var rule :- NormalizeItem(items[last], ids(last), networks);
      if HasKey(kept, KeyOf(rule)) then Success(kept)
      else if HasId(kept, rule.id) then Failure(DuplicateId)
      else Success(kept + [rule])
  }

  /** load_rules: the same, but items that are not objects are skipped and identifiers may repeat. */
  function LoadRules(items: Items, ids: Ids, networks: Networks): Result<Rules, RuleError> {
    if items == [] then Success([])
    else
      var last := |items| - 1;
      var kept :- LoadRules(items[..last], ids, networks);
      if items[last].None? then Success(kept)
      else
        var rule :- NormalizeItem(items[last], ids(last), networks);
        Success(if HasKey(kept, KeyOf(rule)) then kept else kept + [rule])
  }

  ghost predicate Supplies(ids: Ids) { forall i :: NewId(ids(i)) }

  /** A list in normal form: normal rules, no key and no identifier twice. */
  ghost predicate Listed(rules: Rules, networks: Networks) {
    && (forall i :: 0 <= i < |rules| ==> Normal(rules[i], networks))
    && (forall i, j :: 0 <= i < j < |rules| ==> KeyOf(rules[i]) != KeyOf(rules[j]) && rules[i].id != rules[j].id)
  }

  lemma {:induction false} NormalizedLast(items: Items, ids: Ids, networks: Networks)
      returns (kept: Rules, rule: RawRule)
    requires items != [] && NormalizeRules(items, ids, networks).Success?
    ensures NormalizeRules(items[..|items| - 1], ids, networks) == Success(kept)
    ensures NormalizeItem(items[|items| - 1], ids(|items| - 1), networks) == Success(rule)
    ensures NormalizeRules(items, ids, networks).value == if HasKey(kept, KeyOf(rule)) then kept else kept + [rule]
    ensures !HasKey(kept, KeyOf(rule)) ==> !HasId(kept, rule.id)
  {
    hide NormalizeItem, HasKey, HasId, KeyOf;
    kept := NormalizeRules(items[..|items| - 1], ids, networks).value;
    rule := NormalizeItem(items[|items| - 1], ids(|items| - 1), networks).value;
  }

  lemma {:induction false} ListedMore(rules: Rules, rule: RawRule, networks: Networks)
    requires Listed(rules, networks) && Normal(rule, networks) && !HasKey(rules, KeyOf(rule)) && !HasId(rules, rule.id)
    ensures Listed(rules + [rule], networks)
  {
    hide Normal, KeyOf;
  }

  lemma {:induction false} ItemIsNormal(item: Option<RawRule>, newId: string, networks: Networks)
    requires Stable(networks) && NewId(newId) && NormalizeItem(item, newId, networks).Success?
    ensures Normal(NormalizeItem(item, newId, networks).value, networks)
  {
    hide NormalizeRule, Normal, Stable, NewId;
    NormalizeRuleIdempotent(item.value, newId, networks);
  }

  /** What normalize_rules accepts is in normal form. */
  lemma {:induction false} NormalizedIsListed(items: Items, ids: Ids, networks: Networks)
    requires Stable(networks) && Supplies(ids) && NormalizeRules(items, ids, networks).Success?
    ensures Listed(NormalizeRules(items, ids, networks).value, networks)
  {
    if items != [] {
      assert NewId(ids(|items| - 1));
      hide *;
      var kept, rule := NormalizedLast(items, ids, networks);
      NormalizedIsListed(items[..|items| - 1], ids, networks);
      ItemIsNormal(items[|items| - 1], ids(|items| - 1), networks);
      if !HasKey(kept, KeyOf(rule)) { ListedMore(kept, rule, networks); }
    }
  }

  lemma {:induction false} ItemsLast(rules: Rules)
    requires rules != []
    ensures ItemsOf(rules) == ItemsOf(rules[..|rules| - 1]) + [Some(rules[|rules| - 1])]
    ensures |ItemsOf(rules[..|rules| - 1])| == |rules| - 1
  {
  }

  lemma {:induction false} NormalItself(rule: RawRule, newId: string, networks: Networks)
    requires Normal(rule, networks)
    ensures NormalizeRule(rule, newId, networks) == Success(rule)
  {
    hide NormalizeRule;
  }

  /** One more item that is kept. */
  lemma {:induction false} ReadersGrow(items: Items, item: RawRule, kept: Rules, rule: RawRule, ids: Ids,
                                       networks: Networks)
    requires NormalizeRule(item, ids(|items|), networks) == Success(rule)
    requires !HasKey(kept, KeyOf(rule)) && !HasId(kept, rule.id)
    ensures NormalizeRules(items, ids, networks) == Success(kept) ==>
      NormalizeRules(items + [Some(item)], ids, networks) == Success(kept + [rule])
    ensures LoadRules(items, ids, networks) == Success(kept) ==>
      LoadRules(items + [Some(item)], ids, networks) == Success(kept + [rule])
  {
    hide NormalizeRule, HasKey, HasId;
    assert (items + [Some(item)])[..|items|] == items;
  }

  lemma {:induction false} ListedPrefix(rules: Rules, networks: Networks)
    requires Listed(rules, networks) && rules != []
    ensures var last := |rules| - 1;
      && Listed(rules[..last], networks) && Normal(rules[last], networks)
      && !HasKey(rules[..last], KeyOf(rules[last])) && !HasId(rules[..last], rules[last].id)
  {
    hide Normal, KeyOf;
  }

  /** A list in normal form comes back unchanged from both readers, whatever identifiers are offered. */
  lemma {:induction false} ListedIsFixed(rules: Rules, ids: Ids, networks: Networks)
    requires Listed(rules, networks)
    ensures NormalizeRules(ItemsOf(rules), ids, networks) == Success(rules)
    ensures LoadRules(ItemsOf(rules), ids, networks) == Success(rules)
  {
    if rules != [] {
      hide *;
      var last := |rules| - 1;
      var init, rule := rules[..last], rules[last];
      ListedPrefix(rules, networks);
      ItemsLast(rules);
      NormalItself(rule, ids(last), networks);
      ListedIsFixed(init, ids, networks);
      ReadersGrow(ItemsOf(init), rule, init, rule, ids, networks);
      assert rules == init + [rule];
    }
  }

  /** Where kept rules come from and where items went: the kept items are taken in order, each is
      the first item with its key, and no item's key is lost. */
  predicate Traced(items: Items, rules: Rules, ids: Ids, networks: Networks, from: seq<nat>, to: seq<nat>) {
    && |from| == |rules| && |to| == |items|
    && (forall j, k :: 0 <= j < k < |from| ==> from[j] < from[k])
    && Sources(items, rules, ids, networks, from)
    && Targets(items, rules, ids, networks, from, to)
  }

  predicate Sources(items: Items, rules: Rules, ids: Ids, networks: Networks, from: seq<nat>) {
    |from| == |rules| && forall j :: 0 <= j < |from| ==> IsSource(items, rules[j], ids, networks, from[j])
  }

  predicate Targets(items: Items, rules: Rules, ids: Ids, networks: Networks, from: seq<nat>, to: seq<nat>) {
    && |from| == |rules| && |to| == |items|
    && forall i :: 0 <= i < |to| ==>
         to[i] < |rules| && from[to[i]] <= i && SameKey(items[i], ids(i), networks, rules[to[i]])
  }

  /** The rule is the normal form of the item at this position. */
  predicate IsSource(items: Items, rule: RawRule, ids: Ids, networks: Networks, i: nat) {
    i < |items| && NormalizeItem(items[i], ids(i), networks) == Success(rule)
  }

  /** The item's normal form has the rule's key. */
  predicate SameKey(item: Option<RawRule>, newId: string, networks: Networks, rule: RawRule) {
    NormalizeItem(item, newId, networks).Success? && KeyOf(NormalizeItem(item, newId, networks).value) == KeyOf(rule)
  }

  lemma {:induction false} SourcesStay(items: Items, rules: Rules, ids: Ids, networks: Networks, from: seq<nat>,
                                       item: Option<RawRule>)
    requires Sources(items, rules, ids, networks, from)
    ensures Sources(items + [item], rules, ids, networks, from)
    ensures forall j :: 0 <= j < |from| ==> from[j] < |items|
  {
    hide NormalizeItem;
  }

  lemma {:induction false} TargetsMore(items: Items, rules: Rules, ids: Ids, networks: Networks,
                                       from: seq<nat>, to: seq<nat>, item: Option<RawRule>, j: nat)
    requires Targets(items, rules, ids, networks, from, to) && j < |rules| && from[j] <= |items|
    requires SameKey(item, ids(|items|), networks, rules[j])
    ensures Targets(items + [item], rules, ids, networks, from, to + [j])
  {
    hide SameKey;
  }

  lemma {:induction false} TargetsStay(items: Items, rules: Rules, ids: Ids, networks: Networks,
                                       from: seq<nat>, to: seq<nat>, rule: RawRule, i: nat)
    requires Targets(items, rules, ids, networks, from, to)
    ensures Targets(items, rules + [rule], ids, networks, from + [i], to)
  {
    hide SameKey;
  }

  lemma {:induction false} TracedRepeat(items: Items, rules: Rules, ids: Ids, networks: Networks,
                                        from: seq<nat>, to: seq<nat>, item: Option<RawRule>, j: nat)
    requires Traced(items, rules, ids, networks, from, to) && j < |rules|
    requires SameKey(item, ids(|items|), networks, rules[j])
    ensures Traced(items + [item], rules, ids, networks, from, to + [j])
  {
    hide Sources, Targets, SameKey;
    SourcesStay(items, rules, ids, networks, from, item);
    TargetsMore(items, rules, ids, networks, from, to, item, j);
  }

  lemma {:induction false} TracedKept(items: Items, rules: Rules, ids: Ids, networks: Networks,
                                      from: seq<nat>, to: seq<nat>, item: Option<RawRule>, rule: RawRule)
    requires Traced(items, rules, ids, networks, from, to)
    requires NormalizeItem(item, ids(|items|), networks) == Success(rule)
    ensures Traced(items + [item], rules + [rule], ids, networks, from + [|items|], to + [|rules|])
  {
    KeyShared(item, ids(|items|), networks, rule, rule);
    SourcesStay(items, rules, ids, networks, from, item);
    assert Sources(items + [item], rules + [rule], ids, networks, from + [|items|]) by {
      hide NormalizeItem;
    }
    hide Sources, Targets, SameKey, NormalizeItem;
    TargetsStay(items, rules, ids, networks, from, to, rule, |items|);
    TargetsMore(items, rules + [rule], ids, networks, from + [|items|], to, item, |rules|);
  }

  lemma {:induction false} TracedEmpty(ids: Ids, networks: Networks)
    ensures NormalizeRules([], ids, networks) == Success([]) && Traced([], [], ids, networks, [], [])
  {
    hide NormalizeItem, KeyOf;
  }

  lemma {:induction false} KeyPosition(rules: Rules, key: Key) returns (j: nat)
    requires HasKey(rules, key)
    ensures j < |rules| && KeyOf(rules[j]) == key
  {
    j :| 0 <= j < |rules| && KeyOf(rules[j]) == key;
  }

  lemma {:induction false} KeyShared(item: Option<RawRule>, newId: string, networks: Networks, rule: RawRule,
                                     kept: RawRule)
    requires NormalizeItem(item, newId, networks) == Success(rule) && KeyOf(kept) == KeyOf(rule)
    ensures SameKey(item, newId, networks, kept)
  {
    hide NormalizeItem;
  }

  lemma {:induction false} NormalizedProvenance(items: Items, ids: Ids, networks: Networks)
      returns (from: seq<nat>, to: seq<nat>)
    requires NormalizeRules(items, ids, networks).Success?
    ensures Traced(items, NormalizeRules(items, ids, networks).value, ids, networks, from, to)
  {
    hide *;
    from, to := [], [];
    if items == [] {
      TracedEmpty(ids, networks);
    } else {
      var init := items[..|items| - 1];
      var kept, rule := NormalizedLast(items, ids, networks);
      from, to := NormalizedProvenance(init, ids, networks);
      assert items == init + [items[|items| - 1]];
      if HasKey(kept, KeyOf(rule)) {
        var j := KeyPosition(kept, KeyOf(rule));
        KeyShared(items[|items| - 1], ids(|init|), networks, rule, kept[j]);
        TracedRepeat(init, kept, ids, networks, from, to, items[|items| - 1], j);
        to := to + [j];
      } else {
        TracedKept(init, kept, ids, networks, from, to, items[|items| - 1], rule);
        from, to := from + [|init|], to + [|kept|];
      }
    }
  }

  predicate AllNormalize(items: Items, ids: Ids, networks: Networks) {
    forall i :: 0 <= i < |items| ==> NormalizeItem(items[i], ids(i), networks).Success?
  }

  /** The normal forms of all items. */
  function Forms(items: Items, ids: Ids, networks: Networks): Rules
    requires AllNormalize(items, ids, networks)
  {
    seq(|items|, i requires 0 <= i < |items| => NormalizeItem(items[i], ids(i), networks).value)
  }

  /** No earlier rule has the same key. */
  predicate FirstOfKey(forms: Rules, i: nat)
    requires i < |forms|
  {
    forall h :: 0 <= h < i ==> KeyOf(forms[h]) != KeyOf(forms[i])
  }

  predicate FirstWithId(forms: Rules, id: string) {
    exists h :: 0 <= h < |forms| && FirstOfKey(forms, h) && forms[h].id == id
  }

  /** No two rules that are first of their keys share an identifier. */
  predicate IdsDiffer(forms: Rules) {
    forall h, i :: 0 <= h < i < |forms| && FirstOfKey(forms, h) && FirstOfKey(forms, i) ==> forms[h].id != forms[i].id
  }

  /** The kept rules have exactly these keys, and the identifiers of the first rule of each. */
  ghost predicate Covers(forms: Rules, kept: Rules) {
    && (forall key :: HasKey(kept, key) <==> HasKey(forms, key))
    && (forall id :: HasId(kept, id) <==> FirstWithId(forms, id))
  }

  lemma {:induction false} FormsLast(items: Items, ids: Ids, networks: Networks)
    requires items != [] && AllNormalize(items, ids, networks)
    ensures var last := |items| - 1;
      AllNormalize(items[..last], ids, networks)
      && Forms(items, ids, networks)
         == Forms(items[..last], ids, networks) + [NormalizeItem(items[last], ids(last), networks).value]
  {
    hide NormalizeItem;
  }

  lemma {:induction false} FirstMore(forms: Rules, rule: RawRule)
    ensures forall h :: 0 <= h < |forms| ==> (FirstOfKey(forms + [rule], h) <==> FirstOfKey(forms, h))
    ensures FirstOfKey(forms + [rule], |forms|) <==> !HasKey(forms, KeyOf(rule))
  {
    var longer := forms + [rule];
    assert forall h :: 0 <= h < |forms| ==> longer[h] == forms[h];
  }

  lemma {:induction false} FirstIdMore(forms: Rules, rule: RawRule, id: string)
    ensures FirstWithId(forms + [rule], id)
      <==> FirstWithId(forms, id) || (!HasKey(forms, KeyOf(rule)) && rule.id == id)
  {
    var longer, n := forms + [rule], |forms|;
    FirstMore(forms, rule);
    hide FirstOfKey, HasKey, KeyOf;
    assert longer[n] == rule && forall h :: 0 <= h < n ==> longer[h] == forms[h];
    if FirstWithId(forms, id) {
      var h :| 0 <= h < n && FirstOfKey(forms, h) && forms[h].id == id;
      assert FirstOfKey(longer, h) && longer[h].id == id;
    }
    if !HasKey(forms, KeyOf(rule)) && rule.id == id { assert FirstOfKey(longer, n) && longer[n].id == id; }
  }

  lemma {:induction false} CoversMore(forms: Rules, kept: Rules, rule: RawRule)
    requires Covers(forms, kept)
    ensures Covers(forms + [rule], if HasKey(kept, KeyOf(rule)) then kept else kept + [rule])
  {
    OneMore(forms, rule);
    OneMore(kept, rule);
    forall id { FirstIdMore(forms, rule, id); }
    hide HasKey, HasId, FirstWithId, KeyOf;
  }

  lemma {:induction false} IdsDifferMore(forms: Rules, rule: RawRule)
    ensures IdsDiffer(forms + [rule]) <==>
      IdsDiffer(forms) && (!HasKey(forms, KeyOf(rule)) ==> !FirstWithId(forms, rule.id))
  {
    var longer, n := forms + [rule], |forms|;
    FirstMore(forms, rule);
    hide FirstOfKey, HasKey, KeyOf;
    assert longer[n] == rule && forall h :: 0 <= h < n ==> longer[h] == forms[h];
    if FirstWithId(forms, rule.id) {
      var h :| 0 <= h < n && FirstOfKey(forms, h) && forms[h].id == rule.id;
      assert FirstOfKey(longer, h) && longer[h].id == rule.id;
    }
    if IdsDiffer(longer) {
      forall h, i | 0 <= h < i < n && FirstOfKey(forms, h) && FirstOfKey(forms, i) ensures forms[h].id != forms[i].id {
        assert FirstOfKey(longer, h) && FirstOfKey(longer, i) && longer[h] == forms[h] && longer[i] == forms[i];
      }
    }
  }

  /** normalize_rules accepts a list exactly when every item has a normal form and no two items that are
      first of their keys share an identifier; it keeps every key. */
  lemma {:induction false} ListAccepted(items: Items, ids: Ids, networks: Networks)
    ensures NormalizeRules(items, ids, networks).Success?
      <==> AllNormalize(items, ids, networks) && IdsDiffer(Forms(items, ids, networks))
    ensures NormalizeRules(items, ids, networks).Success? ==>
      Covers(Forms(items, ids, networks), NormalizeRules(items, ids, networks).value)
  {
    hide NormalizeItem, HasKey, HasId, KeyOf, FirstWithId, IdsDiffer;
    if items == [] {
      NothingCovered();
      assert AllNormalize(items, ids, networks) && Forms(items, ids, networks) == [];
    } else {
      var last := |items| - 1;
      var init := items[..last];
      ListAccepted(init, ids, networks);
      assert forall h :: 0 <= h < last ==> init[h] == items[h];
      if AllNormalize(items, ids, networks) {
        FormsLast(items, ids, networks);
        var forms, rule := Forms(init, ids, networks), NormalizeItem(items[last], ids(last), networks).value;
        IdsDifferMore(forms, rule);
        if NormalizeRules(init, ids, networks).Success? {
          CoversMore(forms, NormalizeRules(init, ids, networks).value, rule);
        }
        hide Forms;
      }
    }
  }

  /** load_rules accepts a stored list exactly when every object in it has a normal form; it passes over what
      is not an object, and keeps every key. */
  lemma {:induction false} StoredAccepted(items: Items, ids: Ids, networks: Networks)
    ensures LoadRules(items, ids, networks).Success?
      <==> forall i :: 0 <= i < |items| && items[i].Some? ==> NormalizeItem(items[i], ids(i), networks).Success?
    ensures LoadRules(items, ids, networks).Success? ==>
      forall key :: HasKey(LoadRules(items, ids, networks).value, key)
        <==> exists i :: 0 <= i < |items| && items[i].Some? && HasForm(items[i], ids(i), networks, key)
  {
    hide NormalizeItem, HasKey, HasId, KeyOf;
    if items == [] {
      NoKeys();
    } else {
      var last := |items| - 1;
      var init := items[..last];
      StoredAccepted(init, ids, networks);
      assert forall i :: 0 <= i < last ==> init[i] == items[i];
      if LoadRules(items, ids, networks).Success? {
        var kept := LoadRules(init, ids, networks).value;
        if items[last].Some? { OneMore(kept, NormalizeItem(items[last], ids(last), networks).value); }
        forall key
          ensures HasKey(LoadRules(items, ids, networks).value, key)
            <==> HasKey(kept, key) || (items[last].Some? && HasForm(items[last], ids(last), networks, key))
        {
        }
      }
    }
  }

  /** The item's normal form has this key. */
  predicate HasForm(item: Option<RawRule>, newId: string, networks: Networks, key: Key) {
    NormalizeItem(item, newId, networks).Success? && KeyOf(NormalizeItem(item, newId, networks).value) == key
  }

  lemma {:induction false} NoKeys()
    ensures forall key :: !HasKey([], key)
  {
  }

  lemma {:induction false} NothingCovered()
    ensures Covers([], []) && IdsDiffer([])
  {
  }

  lemma {:induction false} FailureSpreads(items: Items, i: nat, ids: Ids, networks: Networks)
    requires i <= |items| && NormalizeRules(items[..i], ids, networks).Failure?
    ensures NormalizeRules(items, ids, networks) == NormalizeRules(items[..i], ids, networks)
    decreases |items|
  {
    if i == |items| {
      assert items[..i] == items;
    } else {
      assert items[..|items| - 1][..i] == items[..i];
      FailureSpreads(items[..|items| - 1], i, ids, networks);
    }
  }

  /** The loop of normalize_rules, with its two sets of what was seen. */
  method CollectRules(items: Items, ids: Ids, networks: Networks) returns (r: Result<Rules, RuleError>)
    ensures r == NormalizeRules(items, ids, networks)
  {
    var normalized: Rules := [];
    var seen: set<Key> := {};
    var seenIds: set<string> := {};
    for i := 0 to |items|
      invariant NormalizeRules(items[..i], ids, networks) == Success(normalized)
      invariant forall key :: key in seen <==> HasKey(normalized, key)
      invariant forall id :: id in seenIds <==> HasId(normalized, id)
    {
      hide NormalizeItem;
      assert items[..i + 1][..i] == items[..i];
      var rule := NormalizeItem(items[i], ids(i), networks);
      if rule.Failure? {
        FailureSpreads(items, i + 1, ids, networks);
        return Failure(rule.error);
      }
      if KeyOf(rule.value) in seen { continue; }
      if rule.value.id in seenIds {
        FailureSpreads(items, i + 1, ids, networks);
        return Failure(DuplicateId);
      }
      ghost var before := normalized;
      normalized := normalized + [rule.value];
      OneMore(before, rule.value);
      seen := seen + {KeyOf(rule.value)};
      seenIds := seenIds + {rule.value.id};
    }
    assert items[..|items|] == items;
    r := Success(normalized);
  }

  lemma {:induction false} OneMore(rules: Rules, rule: RawRule)
    ensures forall key :: HasKey(rules + [rule], key) <==> HasKey(rules, key) || key == KeyOf(rule)
    ensures forall id :: HasId(rules + [rule], id) <==> HasId(rules, id) || id == rule.id
  {
    var after := rules + [rule];
    assert after[|rules|] == rule;
    forall key ensures HasKey(after, key) <==> HasKey(rules, key) || key == KeyOf(rule) {
      if HasKey(rules, key) {
        var j :| 0 <= j < |rules| && KeyOf(rules[j]) == key;
        assert after[j] == rules[j];
      }
    }
    forall id ensures HasId(after, id) <==> HasId(rules, id) || id == rule.id {
      if HasId(rules, id) {
        var j :| 0 <= j < |rules| && rules[j].id == id;
        assert after[j] == rules[j];
      }
    }
  }

  // ---- Reconciling with the installed topology ---------------------------------------------------

  function Unavailable(outbound: string): string {
    "outbound " + outbound + " is unavailable in the installed topology"
  }

  function ReconcileRule(rule: RawRule, catalog: set<string>): RawRule {
    if rule.outbound in catalog then rule.(conflict := "")
    else rule.(enabled := false, conflict := Unavailable(rule.outbound))
  }

  /** reconcile_rules_with_catalog */
  function Reconcile(rules: Rules, catalog: set<string>, migrate: bool): Result<Rules, RuleError> {
    if rules == [] then Success([])
    else
      var last := |rules| - 1;
      var kept :- Reconcile(rules[..last], catalog, migrate);
      if rules[last].outbound !in catalog && !migrate then Failure(UnavailableOutbound)
      else Success(kept + [ReconcileRule(rules[last], catalog)])
  }

  /** Reconciling keeps every rule, its key and its identifier; it fails exactly when a rule that
      may not be migrated names an outbound the topology lacks. */
  lemma {:induction false} ReconcileKeeps(rules: Rules, catalog: set<string>, migrate: bool)
    ensures Reconcile(rules, catalog, migrate).Success?
      <==> migrate || forall i :: 0 <= i < |rules| ==> rules[i].outbound in catalog
    ensures Reconcile(rules, catalog, migrate).Success? ==>
      var kept := Reconcile(rules, catalog, migrate).value;
      && |kept| == |rules|
      && forall i :: 0 <= i < |rules| ==>
           && KeyOf(kept[i]) == KeyOf(rules[i]) && kept[i].id == rules[i].id
           && kept[i] == ReconcileRule(rules[i], catalog)
           && (kept[i].enabled <==> rules[i].enabled && rules[i].outbound in catalog)
           && (kept[i].conflict == "" <==> rules[i].outbound in catalog)
  {
    if rules != [] {
      var last := |rules| - 1;
      ReconcileKeeps(rules[..last], catalog, migrate);
      assert forall i :: 0 <= i < last ==> rules[..last][i] == rules[i];
    }
  }

  lemma {:induction false} UnavailableTrimmed(outbound: string)
    ensures Trimmed(Unavailable(outbound)) && Unavailable(outbound) != ""
  {
    var text := Unavailable(outbound);
    assert text[0] == 'o' && text[|text| - 1] == 'y';
  }

  lemma {:induction false} ReconciledSettled(rule: RawRule, catalog: set<string>)
    requires Settled(rule)
    ensures var after := ReconcileRule(rule, catalog);
      Settled(after) && after.kind == rule.kind && after.value == rule.value
        && after.includeSubdomains == rule.includeSubdomains
  {
    UnavailableTrimmed(rule.outbound);
    assert Trimmed("");
    hide Trimmed, Unavailable;
  }

  lemma {:induction false} NormalSettles(rule: RawRule, networks: Networks)
    requires Stable(networks) && Normal(rule, networks)
    ensures Settled(rule)
    ensures rule.kind == "cidr" ==> !rule.includeSubdomains && networks(rule.value) == Some(rule.value)
    ensures rule.kind != "cidr" ==> rule.kind == "domain" && IsDomain(rule.value)
  {
    assert NewId("0");
    assert NormalizeRule(rule, "0", networks) == Success(rule);
    hide *;
    AcceptedSettles(rule, "0", networks);
  }

  lemma {:induction false} ReconciledNormal(rule: RawRule, catalog: set<string>, networks: Networks)
    requires Stable(networks) && Normal(rule, networks)
    ensures Normal(ReconcileRule(rule, catalog), networks)
  {
    hide *;
    NormalSettles(rule, networks);
    ReconciledSettled(rule, catalog);
    if rule.kind == "cidr" {
      SettledNetworkIsNormal(ReconcileRule(rule, catalog), networks);
    } else {
      SettledDomainIsNormal(ReconcileRule(rule, catalog), networks);
    }
  }

  lemma {:induction false} ReconciledListed(rules: Rules, catalog: set<string>, migrate: bool, networks: Networks)
    requires Stable(networks) && Listed(rules, networks) && Reconcile(rules, catalog, migrate).Success?
    ensures Listed(Reconcile(rules, catalog, migrate).value, networks)
  {
    ReconcileKeeps(rules, catalog, migrate);
    var kept := Reconcile(rules, catalog, migrate).value;
    hide Normal, Reconcile, ReconcileRule, Stable;
    forall i | 0 <= i < |kept| ensures Normal(kept[i], networks) {
      ReconciledNormal(rules[i], catalog, networks);
    }
  }

  // ---- The three files ------------------------------------------------------------------------------

  /** The base configuration: its text and the outbounds that have a resolver. */
  datatype Base = Base(text: string, catalog: set<string>)

  datatype RulesFile = Listing(items: Items) | Unreadable

  datatype Manifest = Manifest(generation: Rules, base: Base, rules: RulesFile, config: string, conflicts: nat)

  datatype Files = Files(rules: Option<RulesFile>, config: Option<string>, manifest: Option<Manifest>)

  datatype CommitError = Invalid(error: RuleError) | NoBase | UnreadableRules | Conflict | CheckFailed

  /** What surrounds a commit: the network parser, the base configuration and the validator that
      renders a configuration or refuses it. */
  datatype Setting = Setting(networks: Networks, base: Option<Base>, render: (Base, Rules) -> Option<string>,
                             migrate: bool)

  function Conflicts(rules: Rules): nat {
    if rules == [] then 0 else Conflicts(rules[..|rules| - 1]) + if rules[|rules| - 1].conflict != "" then 1 else 0
  }

  function Validated<T>(r: Result<T, RuleError>): Result<T, CommitError> {
    match r
    case Success(value) => Success(value)
    case Failure(error) => Failure(Invalid(error))
  }

  function StoredItems(file: Option<RulesFile>): Result<Items, CommitError> {
    match file
    case None => Success([])
    case Some(Unreadable) => Failure(UnreadableRules)
    case Some(Listing(items)) => Success(items)
  }

  /** rules_generation of the stored list. */
  function StoredGeneration(file: Option<RulesFile>, loadIds: Ids, networks: Networks): Result<Rules, CommitError> {
    var items :- StoredItems(file);
    var current :- Validated(LoadRules(items, loadIds, networks));
    Validated(NormalizeRules(ItemsOf(current), loadIds, networks))
  }

  /** The rules a submission asks for, before the stored list is looked at. */
  function Requested(setting: Setting, items: Items, ids: Ids): Result<Rules, CommitError> {
    var rules :- Validated(NormalizeRules(items, ids, setting.networks));
    if setting.base.None? then Failure(NoBase)
    else Validated(Reconcile(rules, setting.base.value.catalog, setting.migrate))
  }

  /** Everything a commit checks before it writes. */
  function Plan(setting: Setting, stored: Option<RulesFile>, items: Items, ids: Ids, loadIds: Ids,
                expected: Option<Rules>): Result<(Rules, string), CommitError> {
    var rules :- Requested(setting, items, ids);
    var generation :- StoredGeneration(stored, loadIds, setting.networks);
    if expected.Some? && expected.value != generation then Failure(Conflict)
    else if setting.base.None? then Failure(NoBase)
    else
      match setting.render(setting.base.value, rules)
      case None => Failure(CheckFailed)
      case Some(config) => Success((rules, config))
  }

  function Written(base: Base, rules: Rules, config: string): Files {
    var file := Listing(ItemsOf(rules));
    Files(Some(file), Some(config), Some(Manifest(rules, base, file, config, Conflicts(rules))))
  }

  /** The three files of a committed list: the rules as they are, the configuration rendered from the base
      and these rules, and a manifest of both that counts the rules with a conflict. */
  predicate Installed(files: Files, setting: Setting, rules: Rules) {
    && setting.base.Some? && files.rules.Some? && files.config.Some? && files.manifest.Some?
    && files.rules.value.Listing? && |files.rules.value.items| == |rules|
    && (forall i :: 0 <= i < |rules| ==> files.rules.value.items[i] == Some(rules[i]))
    && files.config == setting.render(setting.base.value, rules)
    && var manifest := files.manifest.value;
    && manifest.generation == rules && manifest.base == setting.base.value
    && Some(manifest.rules) == files.rules && Some(manifest.config) == files.config
    && manifest.conflicts == |set i | 0 <= i < |rules| && rules[i].conflict != ""|
  }

  lemma {:induction false} ConflictCount(rules: Rules)
    ensures Conflicts(rules) == |set i | 0 <= i < |rules| && rules[i].conflict != ""|
  {
    if rules != [] {
      var last := |rules| - 1;
      var init := rules[..last];
      ConflictCount(init);
      var before := set i | 0 <= i < |init| && init[i].conflict != "";
      var all := set i | 0 <= i < |rules| && rules[i].conflict != "";
      assert all == if rules[last].conflict != "" then before + {last} else before;
    }
  }

  lemma {:induction false} WrittenInstalls(setting: Setting, rules: Rules, config: string)
    requires setting.base.Some? && setting.render(setting.base.value, rules) == Some(config)
    ensures Installed(Written(setting.base.value, rules, config), setting, rules)
  {
    ConflictCount(rules);
  }

  lemma {:induction false} RequestedListed(setting: Setting, items: Items, ids: Ids)
    requires Stable(setting.networks) && Supplies(ids) && Requested(setting, items, ids).Success?
    ensures Listed(Requested(setting, items, ids).value, setting.networks)
  {
    var rules := NormalizeRules(items, ids, setting.networks).value;
    NormalizedIsListed(items, ids, setting.networks);
    ReconciledListed(rules, setting.base.value.catalog, setting.migrate, setting.networks);
  }

  /** What a commit wrote is read back as the committed list, and that list is its generation. */
  lemma {:induction false} WrittenReadsBack(setting: Setting, rules: Rules, loadIds: Ids)
    requires Listed(rules, setting.networks)
    ensures StoredGeneration(Some(Listing(ItemsOf(rules))), loadIds, setting.networks) == Success(rules)
    ensures LoadRules(ItemsOf(rules), loadIds, setting.networks) == Success(rules)
  {
    ListedIsFixed(rules, loadIds, setting.networks);
  }

  // ---- The commit -----------------------------------------------------------------------------------

  datatype Fault = Go | BeforeEffect | AfterEffect

  datatype Outcome =
    | Committed(rules: Rules)
    | Refused(error: CommitError)
    | RolledBack(restarted: bool)
    | Unrestored

  function FaultCount(faults: seq<Fault>): nat {
    if faults == [] then 0 else (if faults[0] == Go then 0 else 1) + FaultCount(faults[1..])
  }

  /** Every file holds its old or its new content. */
  predicate Between(files: Files, before: Files, after: Files) {
    && files.rules in {before.rules, after.rules}
    && files.config in {before.config, after.config}
    && files.manifest in {before.manifest, after.manifest}
  }

  class RuleStore {
    var files: Files
    var faults: seq<Fault>

    constructor (start: Files, schedule: seq<Fault>)
      ensures files == start && faults == schedule
    {
      files, faults := start, schedule;
    }

    /** One atomic replacement; a fault raises before or after it took effect. */
    method Replace(next: Files) returns (ok: bool)
      modifies this
      ensures if ok then files == next && FaultCount(faults) == FaultCount(old(faults))
              else (files == old(files) || files == next) && FaultCount(faults) + 1 == FaultCount(old(faults))
    {
      if faults == [] {
        files := next;
        return true;
      }
      var fault := faults[0];
      faults := faults[1..];
      if fault != BeforeEffect { files := next; }
      ok := fault == Go;
    }

    /** The three replacements and the restart, in order. */
    method WriteAll(base: Base, rules: Rules, config: string, restart: bool) returns (ok: bool)
      modifies this
      ensures ok ==> files == Written(base, rules, config) && FaultCount(faults) == FaultCount(old(faults))
      ensures !ok ==>
        Between(files, old(files), Written(base, rules, config)) && FaultCount(faults) + 1 == FaultCount(old(faults))
    {
      var file := Listing(ItemsOf(rules));
      ok := Replace(files.(rules := Some(file)));
      if !ok { return; }
      ok := Replace(files.(config := Some(config)));
      if !ok { return; }
      ok := Replace(files.(manifest := Some(Manifest(rules, base, file, config, Conflicts(rules)))));
      if !ok || !restart { return; }
      ok := Replace(files);
    }

    /** The restoring writes; the first that fails leaves the later files alone. */
    method Restore(before: Files, restart: bool, ghost after: Files) returns (outcome: Outcome)
      requires Between(files, before, after)
      modifies this
      ensures outcome.RolledBack? || outcome.Unrestored?
      ensures outcome.RolledBack? ==> files == before
      ensures outcome.Unrestored? ==> Between(files, before, after) && FaultCount(old(faults)) > 0
      ensures outcome == RolledBack(false) ==> FaultCount(old(faults)) > 0
    {
      var ok := Replace(files.(rules := before.rules));
      if !ok { return Unrestored; }
      ok := Replace(files.(config := before.config));
      if !ok { return Unrestored; }
      ok := Replace(files.(manifest := before.manifest));
      if !ok { return Unrestored; }
      if restart && before.config.Some? { ok := Replace(files); }
      outcome := RolledBack(ok);
    }

    /** commit_rules. A refused or rolled back commit leaves all three files as they were; a
        single fault is always rolled back; a successful commit wrote the planned files. */
    method Commit(setting: Setting, items: Items, ids: Ids, loadIds: Ids, expected: Option<Rules>, restart: bool)
      returns (outcome: Outcome)
      requires Stable(setting.networks) && Supplies(ids)
      modifies this
      ensures outcome.Refused? <==> Plan(setting, old(files).rules, items, ids, loadIds, expected).Failure?
      ensures outcome.Refused? ==> outcome.error == Plan(setting, old(files).rules, items, ids, loadIds, expected).error
      ensures outcome.Refused? || outcome.RolledBack? ==> files == old(files)
      ensures outcome.Committed? ==>
        var (rules, config) := Plan(setting, old(files).rules, items, ids, loadIds, expected).value;
        && outcome.rules == rules && setting.base.Some? && files == Written(setting.base.value, rules, config)
      ensures outcome.Committed? ==> Installed(files, setting, outcome.rules)
      ensures outcome.Unrestored? ==>
        var (rules, config) := Plan(setting, old(files).rules, items, ids, loadIds, expected).value;
        setting.base.Some? && Between(files, old(files), Written(setting.base.value, rules, config))
      ensures outcome.RolledBack? ==> FaultCount(old(faults)) >= 1
      ensures outcome.Unrestored? || outcome == RolledBack(false) ==> FaultCount(old(faults)) >= 2
    {
      hide Listed, Supplies, Stable, LoadRules, Reconcile;
      var normalized := CollectRules(items, ids, setting.networks);
      if normalized.Failure? { return Refused(Invalid(normalized.error)); }
      if setting.base.None? { return Refused(NoBase); }
      var base := setting.base.value;
      var reconciled := Reconcile(normalized.value, base.catalog, setting.migrate);
      if reconciled.Failure? { return Refused(Invalid(reconciled.error)); }
      var rules := reconciled.value;
      var current := StoredGeneration(files.rules, loadIds, setting.networks);
      if current.Failure? { return Refused(current.error); }
      if expected.Some? && expected.value != current.value { return Refused(Conflict); }
      var before := files;
      var staged := setting.render(base, rules);
      if staged.None? { return Refused(CheckFailed); }
      var ok := WriteAll(base, rules, staged.value, restart);
      WrittenInstalls(setting, rules, staged.value);
      if ok { return Committed(rules); }
      hide Installed;
      outcome := Restore(before, restart, Written(base, rules, staged.value));
    }
  }

  /** What a successful commit means: the new list is in normal form and is what any later reader
      loads, the manifest records exactly the three files on disk, every enabled rule names an
      installed outbound, and a guarded commit replaced the very list its editor had seen. */
  lemma {:induction false} CommittedMeans(setting: Setting, before: Files, after: Files, items: Items, ids: Ids,
                                          loadIds: Ids, laterIds: Ids, expected: Option<Rules>)
    requires Stable(setting.networks) && Supplies(ids) && setting.base.Some?
    requires Plan(setting, before.rules, items, ids, loadIds, expected).Success?
    requires var (rules, config) := Plan(setting, before.rules, items, ids, loadIds, expected).value;
      after == Written(setting.base.value, rules, config)
    ensures var rules := Plan(setting, before.rules, items, ids, loadIds, expected).value.0;
      && Listed(rules, setting.networks)
      && StoredGeneration(after.rules, laterIds, setting.networks) == Success(rules)
      && (forall i :: 0 <= i < |rules| && rules[i].enabled ==> rules[i].outbound in setting.base.value.catalog)
      && Installed(after, setting, rules)
    ensures expected.Some? ==> StoredGeneration(before.rules, loadIds, setting.networks) == Success(expected.value)
  {
    var rules := Plan(setting, before.rules, items, ids, loadIds, expected).value.0;
    RequestedListed(setting, items, ids);
    WrittenReadsBack(setting, rules, laterIds);
    WrittenInstalls(setting, rules, after.config.value);
    hide Installed;
    ReconcileKeeps(NormalizeRules(items, ids, setting.networks).value, setting.base.value.catalog, setting.migrate);
  }

  /** The configuration of what is asked for passes its check. */
  predicate Renders(setting: Setting, items: Items, ids: Ids) {
    match Requested(setting, items, ids)
    case Failure(_) => false
    case Success(rules) => setting.base.Some? && setting.render(setting.base.value, rules).Some?
  }

  /** When a commit over a list in normal form goes ahead: every submitted item has a normal form, no
      identifier is taken twice, every outbound is installed or may be migrated, the editor saw the stored
      list or did not say, and the configuration passes its check. */
  lemma {:induction false} CommitAccepted(setting: Setting, current: Rules, items: Items, ids: Ids, loadIds: Ids,
                                          expected: Option<Rules>)
    requires Listed(current, setting.networks)
    ensures Plan(setting, Some(Listing(ItemsOf(current))), items, ids, loadIds, expected).Success? <==>
      && AllNormalize(items, ids, setting.networks)
      && var forms := Forms(items, ids, setting.networks);
      IdsDiffer(forms) && setting.base.Some?
      && (setting.migrate || forall i :: 0 <= i < |forms| ==> forms[i].outbound in setting.base.value.catalog)
      && (expected.Some? ==> expected.value == current)
      && Renders(setting, items, ids)
  {
    hide Listed, NormalizeRules, LoadRules, StoredGeneration, Forms, Reconcile, IdsDiffer, AllNormalize, Covers;
    WrittenReadsBack(setting, current, loadIds);
    ListAccepted(items, ids, setting.networks);
    if NormalizeRules(items, ids, setting.networks).Success? && setting.base.Some? {
      var rules := NormalizeRules(items, ids, setting.networks).value;
      ReconcileKeeps(rules, setting.base.value.catalog, setting.migrate);
      OutboundsKept(Forms(items, ids, setting.networks), rules, setting.base.value.catalog);
    }
  }

  /** Rules with the same keys name the same outbounds. */
  lemma {:induction false} OutboundsKept(forms: Rules, kept: Rules, catalog: set<string>)
    requires Covers(forms, kept)
    ensures (forall i :: 0 <= i < |kept| ==> kept[i].outbound in catalog)
      <==> forall i :: 0 <= i < |forms| ==> forms[i].outbound in catalog
  {
    forall i | 0 <= i < |forms| ensures exists j :: 0 <= j < |kept| && kept[j].outbound == forms[i].outbound {
      assert HasKey(kept, KeyOf(forms[i]));
    }
    forall j | 0 <= j < |kept| ensures exists i :: 0 <= i < |forms| && kept[j].outbound == forms[i].outbound {
      assert HasKey(forms, KeyOf(kept[j]));
    }
  }

  // ---- Editors at work ---------------------------------------------------------------------------------

  type Edit = Rules -> Items

  /** An editor reads the list, or submits its edit of the list it read. A submission that is not
      lucky meets a failed check or a fault and is rolled back. */
  datatype Event =
    | Look(editor: nat)
    | Submit(editor: nat, edit: Edit, ids: Ids, guarded: bool, lucky: bool)

  /** The stored list and the list every editor last read. */
  datatype Desk = Desk(stored: Rules, seen: map<nat, Rules>)

  /** Whether the commit of a submission succeeds. */
  predicate Succeeds(setting: Setting, desk: Desk, event: Event) {
    && event.Submit? && event.editor in desk.seen && event.lucky
    && Plan(setting, Some(Listing(ItemsOf(desk.stored))), event.edit(desk.seen[event.editor]), event.ids, event.ids,
            if event.guarded then Some(desk.seen[event.editor]) else None).Success?
  }

  function Next(setting: Setting, desk: Desk, event: Event): Desk {
    match event
    case Look(editor) => desk.(seen := desk.seen[editor := desk.stored])
    case Submit(editor, edit, ids, _, _) =>
      if Succeeds(setting, desk, event) then
        match Requested(setting, edit(desk.seen[editor]), ids)
        case Success(rules) => desk.(stored := rules)
        case Failure(_) => desk
      else desk
  }

  function DeskAfter(setting: Setting, start: Desk, events: seq<Event>): Desk {
    if events == [] then start
    else Next(setting, DeskAfter(setting, start, events[..|events| - 1]), events[|events| - 1])
  }

  /** The submissions that succeeded, in order. */
  function Succeeded(setting: Setting, start: Desk, events: seq<Event>): seq<Event> {
    if events == [] then []
    else
      var last := events[|events| - 1];
      var desk := DeskAfter(setting, start, events[..|events| - 1]);
      Succeeded(setting, start, events[..|events| - 1]) + if Succeeds(setting, desk, last) then [last] else []
  }

  /** Edits applied one after another, each to the list the previous one left. */
  function InTurn(setting: Setting, start: Rules, edits: seq<Event>): Rules {
    if edits == [] then start
    else
      var before := InTurn(setting, start, edits[..|edits| - 1]);
      var last := edits[|edits| - 1];
      if last.Look? then before
      else
        match Requested(setting, last.edit(before), last.ids)
        case Success(rules) => rules
        case Failure(_) => before
  }

  ghost predicate Guarded(events: seq<Event>) {
    forall i :: 0 <= i < |events| && events[i].Submit? ==> events[i].guarded && Supplies(events[i].ids)
  }

  lemma {:induction false} NextListed(setting: Setting, desk: Desk, event: Event)
    requires Stable(setting.networks) && Listed(desk.stored, setting.networks)
    requires event.Submit? ==> Supplies(event.ids)
    ensures Listed(Next(setting, desk, event).stored, setting.networks)
  {
    if Succeeds(setting, desk, event) {
      RequestedListed(setting, event.edit(desk.seen[event.editor]), event.ids);
    }
  }

  /** A guarded submission that succeeds edited the list that is stored at that moment. */
  lemma {:induction false} GuardHolds(setting: Setting, desk: Desk, event: Event)
    requires Listed(desk.stored, setting.networks)
    requires event.Submit? && event.guarded && Succeeds(setting, desk, event)
    ensures desk.seen[event.editor] == desk.stored
  {
    WrittenReadsBack(setting, desk.stored, event.ids);
    hide StoredGeneration, Requested, Listed;
  }

  lemma {:induction false} InTurnGrows(setting: Setting, start: Rules, edits: seq<Event>, last: Event)
    requires last.Submit?
    ensures var before := InTurn(setting, start, edits);
      InTurn(setting, start, edits + [last]) == match Requested(setting, last.edit(before), last.ids)
        case Success(rules) => rules
        case Failure(_) => before
  {
    assert (edits + [last])[..|edits|] == edits;
  }

  /** No successful edit is lost: under every interleaving of guarded editors, the stored list is
      what the successful edits give when each is applied to the result of the one before. */
  lemma {:induction false} NoLostEdit(setting: Setting, start: Desk, events: seq<Event>)
    requires Stable(setting.networks) && Listed(start.stored, setting.networks) && Guarded(events)
    ensures DeskAfter(setting, start, events).stored == InTurn(setting, start.stored, Succeeded(setting, start, events))
    ensures Listed(DeskAfter(setting, start, events).stored, setting.networks)
  {
    if events != [] {
      var prefix := events[..|events| - 1];
      var last := events[|events| - 1];
      assert Guarded(prefix);
      NoLostEdit(setting, start, prefix);
      var desk := DeskAfter(setting, start, prefix);
      NextListed(setting, desk, last);
      if Succeeds(setting, desk, last) {
        GuardHolds(setting, desk, last);
        InTurnGrows(setting, start.stored, Succeeded(setting, start, prefix), last);
      } else {
        assert Succeeded(setting, start, events) == Succeeded(setting, start, prefix);
      }
      hide Listed, Plan, Requested, Stable;
    }
  }

  /** apply_rules resubmits the list it loaded before the lock, without a guard. Whatever was
      stored meanwhile is overwritten, so the result is the one of applying to the stored list
      exactly when both lists reconcile to the same one. */
  lemma {:induction false} UnguardedApplyOverwrites(setting: Setting, desk: Desk, event: Event)
    requires Listed(desk.stored, setting.networks) && Succeeds(setting, desk, event)
    requires !event.guarded && event.edit == ItemsOf
    requires Listed(desk.seen[event.editor], setting.networks)
    ensures var catalog := setting.base.value.catalog;
      && Success(Next(setting, desk, event).stored) == Reconcile(desk.seen[event.editor], catalog, setting.migrate)
      && (Next(setting, desk, event).stored == InTurn(setting, desk.stored, [event])
          <==> (Reconcile(desk.stored, catalog, setting.migrate)
                == Reconcile(desk.seen[event.editor], catalog, setting.migrate)
                || (Reconcile(desk.stored, catalog, setting.migrate).Failure?
                    && Reconcile(desk.seen[event.editor], catalog, setting.migrate) == Success(desk.stored))))
  {
    hide Listed, NormalizeRules, LoadRules, Reconcile;
    ListedIsFixed(desk.stored, event.ids, setting.networks);
    ListedIsFixed(desk.seen[event.editor], event.ids, setting.networks);
    assert InTurn(setting, desk.stored, []) == desk.stored;
    assert [event][..0] == [];
  }
}
