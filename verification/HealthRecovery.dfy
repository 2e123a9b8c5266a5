/** The health and recovery cycle (server_lifecycle.py). One cycle compares what it observes with
    the stored record, may recover, records every action before the next one, and stores its
    own record. Observations, command results and write faults are inputs. */
module HealthRecovery {
  import opened Wrappers

  const MAX_GAP: int := 300 * 1000000
  const COOLDOWN_SECONDS: int := 900

  // ---- What a cycle observes -------------------------------------------------------------------

  datatype Service = Service(unit: string, required: bool, present: bool, active: bool)

  /** What planned_recovery_actions reads, services in their fixed order. */
  datatype Host = Host(services: seq<Service>, artifactsClean: bool, interserverClient: bool, policyManaged: bool,
                       policyOk: bool, qdiscMismatch: bool, profileMismatch: bool, publicFront: bool,
                       bypassActive: bool, router: bool, routerPathOk: bool, independentPathOk: bool)

  datatype Evidence = Evidence(actions: seq<string>, requirements: seq<string>, mismatches: seq<string>,
                               missing: seq<string>)

  datatype Reasons = Reasons(serverPath: bool, hostIntegrity: bool)

  datatype Facts = Facts(observedAt: Option<int>, reasons: Reasons, host: Host, requirements: seq<string>,
                         mismatches: seq<string>, missing: seq<string>, soft: bool)

  datatype Condition = Healthy | Degraded | Suspect | Failed | Recovering

  /** The stored record; lastActions holds the epoch of each action's last recorded success. */
  datatype Health = Health(observedAt: Option<int>, condition: Condition, failures: nat, reasons: Reasons,
                           evidence: Evidence, soft: bool, lastAction: string, lastActions: map<string, int>)

  function PlannedRestarts(services: seq<Service>): seq<string> {
    if services == [] then []
    else
      var last := services[|services| - 1];
      PlannedRestarts(services[..|services| - 1])
      + if NeedsRestart(last) then ["restart:" + last.unit] else []
  }

  /** planned_recovery_actions */
  function PlannedActions(host: Host): seq<string> {
    var restarts := PlannedRestarts(host.services);
    if restarts != [] then restarts
    else if host.artifactsClean && host.interserverClient && host.policyManaged && !host.policyOk
    then ["apply:wireguard-policy"]
    else if host.artifactsClean && host.qdiscMismatch then ["apply:qdisc"]
    else if host.artifactsClean && (host.profileMismatch || host.qdiscMismatch) then ["reload:sysctl"]
    else if host.artifactsClean && host.publicFront && !host.bypassActive then ["reload:vpn-stack-nftables.service"]
    else if host.router && host.independentPathOk && !host.routerPathOk then ["restart:sing-box.service"]
    else []
  }

  predicate Distinct(items: seq<string>) { forall i, j :: 0 <= i < j < |items| ==> items[i] != items[j] }

  predicate NeedsRestart(service: Service) { service.required && service.present && !service.active }

  /** No two services that need a restart share a unit. */
  predicate DistinctUnits(services: seq<Service>) {
    forall i, j :: 0 <= i < j < |services| && NeedsRestart(services[i]) && NeedsRestart(services[j]) ==>
      services[i].unit != services[j].unit
  }

  /** Which service every planned restart is for, in order. */
  lemma {:induction false} RestartsTrace(services: seq<Service>) returns (from: seq<nat>)
    ensures |from| == |PlannedRestarts(services)|
    ensures forall k :: 0 <= k < |from| ==>
      from[k] < |services| && NeedsRestart(services[from[k]])
        && PlannedRestarts(services)[k] == "restart:" + services[from[k]].unit
    ensures forall k, m :: 0 <= k < m < |from| ==> from[k] < from[m]
    ensures from == RestartIndices(services)
  {
    hide NeedsRestart;
    from := [];
    if services != [] {
      from := RestartsTrace(services[..|services| - 1]);
      if NeedsRestart(services[|services| - 1]) { from := from + [|services| - 1]; }
    }
  }

  /** The positions of the services that need a restart. */
  function RestartIndices(services: seq<Service>): seq<nat> {
    if services == [] then []
    else
      var n := |services| - 1;
      RestartIndices(services[..n]) + if NeedsRestart(services[n]) then [n] else []
  }

  lemma {:induction false} RestartMembers(services: seq<Service>)
    ensures forall i :: i in RestartIndices(services) <==> 0 <= i < |services| && NeedsRestart(services[i])
  {
    hide NeedsRestart;
    if services != [] {
      var n := |services| - 1;
      var init := services[..n];
      RestartMembers(init);
      assert forall i :: 0 <= i < n ==> init[i] == services[i];
      assert RestartIndices(services) == RestartIndices(init) + if NeedsRestart(services[n]) then [n] else [];
    }
  }

  /** Where the restart of a service is planned: after those of the services before it. */
  lemma {:induction false} RestartPlace(services: seq<Service>, i: nat)
    requires i < |services| && NeedsRestart(services[i])
    ensures var k := |PlannedRestarts(services[..i])|;
      k < |PlannedRestarts(services)| && PlannedRestarts(services)[k] == "restart:" + services[i].unit
    decreases |services|
  {
    hide NeedsRestart;
    var init := services[..|services| - 1];
    if i < |init| {
      assert init[..i] == services[..i];
      RestartPlace(init, i);
    }
  }

  lemma {:induction false} PrefixedDiffer(prefix: string, a: string, b: string)
    ensures prefix + a == prefix + b <==> a == b
  {
    assert a == (prefix + a)[|prefix|..] && b == (prefix + b)[|prefix|..];
  }

  /** A plan repeats an action exactly when two services that need a restart share a unit. */
  lemma {:induction false} PlannedDistinct(host: Host)
    ensures Distinct(PlannedActions(host)) <==> DistinctUnits(host.services)
  {
    RestartsDistinct(host.services);
    hide PlannedRestarts, DistinctUnits;
    if PlannedRestarts(host.services) == [] { NoRestarts(host.services); }
  }

  lemma {:induction false} NoRestarts(services: seq<Service>)
    requires PlannedRestarts(services) == []
    ensures DistinctUnits(services)
  {
    RestartsDistinct(services);
  }

  lemma {:induction false} RestartsDistinct(services: seq<Service>)
    ensures Distinct(PlannedRestarts(services)) <==> DistinctUnits(services)
  {
    hide PlannedRestarts, NeedsRestart;
    var restarts := PlannedRestarts(services);
    var from := RestartsTrace(services);
    hide RestartIndices;
    if DistinctUnits(services) {
      forall k, m | 0 <= k < m < |restarts| ensures restarts[k] != restarts[m] {
        PrefixedDiffer("restart:", services[from[k]].unit, services[from[m]].unit);
      }
    } else {
      var i, j :| 0 <= i < j < |services| && NeedsRestart(services[i]) && NeedsRestart(services[j])
        && services[i].unit == services[j].unit;
      RestartPlace(services, i);
      RestartPlace(services, j);
      RestartPlace(services[..j], i);
      assert services[..j][..i] == services[..i];
      var k, m := |PlannedRestarts(services[..i])|, |PlannedRestarts(services[..j])|;
      assert restarts[k] == restarts[m];
    }
  }

  /** What is planned, read off the host. As long as a required service that is present is not active,
      exactly these services are restarted, in their order. Otherwise the first problem in the order of
      the source gets its one action, and the first four are touched on clean artifacts only. */
  lemma {:induction false} PlanExactly(host: Host) returns (from: seq<nat>)
    ensures forall i :: i in from <==>
      0 <= i < |host.services| && host.services[i].required && host.services[i].present && !host.services[i].active
    ensures forall k, m :: 0 <= k < m < |from| ==> from[k] < from[m]
    ensures var planned := PlannedActions(host);
      if from != [] then
        |planned| == |from|
        && forall k :: 0 <= k < |from| ==>
             from[k] < |host.services| && planned[k] == "restart:" + host.services[from[k]].unit
      else if host.artifactsClean && host.interserverClient && host.policyManaged && !host.policyOk then
        planned == ["apply:wireguard-policy"]
      else if host.artifactsClean && host.qdiscMismatch then planned == ["apply:qdisc"]
      else if host.artifactsClean && host.profileMismatch then planned == ["reload:sysctl"]
      else if host.artifactsClean && host.publicFront && !host.bypassActive then
        planned == ["reload:vpn-stack-nftables.service"]
      else planned == if host.router && host.independentPathOk && !host.routerPathOk
                      then ["restart:sing-box.service"] else []
  {
    from := RestartsTrace(host.services);
    RestartMembers(host.services);
    hide PlannedRestarts, RestartIndices;
    assert from == [] <==> PlannedRestarts(host.services) == [];
  }

  // ---- Result strings ------------------------------------------------------------------------------

  function Find(text: string, mark: char): (i: nat)
    ensures i <= |text| && mark !in text[..i] && (i < |text| ==> text[i] == mark)
  {
    if text == "" || text[0] == mark then 0 else 1 + Find(text[1..], mark)
  }

  /** The index of the last mark, or -1. */
  function FindLast(text: string, mark: char): (i: int)
    ensures -1 <= i < |text| && (i >= 0 ==> text[i] == mark)
    ensures forall k :: i < k < |text| ==> text[k] != mark
  {
    if text == "" then -1
    else if text[|text| - 1] == mark then |text| - 1
    else FindLast(text[..|text| - 1], mark)
  }

  function Split(text: string, mark: char): seq<string>
    decreases |text|
  {
    var i := Find(text, mark);
    if i == |text| then [text] else [text[..i]] + Split(text[i + 1..], mark)
  }

  predicate Succeeded(status: string) { status == "ok" || status == "changed" }

  datatype Status = Done | Changed | Unsuccessful | InvalidConfig

  function StatusText(status: Status): string {
    match status
    case Done => "ok"
    case Changed => "changed"
    case Unsuccessful => "failed"
    case InvalidConfig => "invalid-config"
  }

  function ResultText(action: string, status: Status): string { action + ":" + StatusText(status) }

  /** The action a single result names as successful, if any. */
  function SuccessOf(result: string): Option<string> {
    var colon := FindLast(result, ':');
    if colon > 0 && Succeeded(result[colon + 1..]) then Some(result[..colon]) else None
  }

  function Successes(results: seq<string>): set<string> {
    if results == [] then {}
    else
      Successes(results[..|results| - 1])
      + match SuccessOf(results[|results| - 1])
        case Some(action) => {action}
        case None => {}
  }

  /** successful_recovery_actions: the actions it names. */
  function SuccessfulActions(results: string): set<string> { Successes(Split(results, ';')) }

  lemma {:induction false} SplitParts(text: string, mark: char)
    ensures forall k :: 0 <= k < |Split(text, mark)| ==> mark !in Split(text, mark)[k]
    ensures mark !in text ==> Split(text, mark) == [text]
    decreases |text|
  {
    var i := Find(text, mark);
    if i < |text| {
      assert text[i] in text;
      SplitParts(text[i + 1..], mark);
    } else {
      assert text[..i] == text;
    }
  }

  lemma {:induction false} SuccessesWithin(results: seq<string>, mark: char)
    requires forall k :: 0 <= k < |results| ==> mark !in results[k]
    ensures forall action :: action in Successes(results) ==> mark !in action
  {
    if results != [] {
      SuccessesWithin(results[..|results| - 1], mark);
      var last := results[|results| - 1];
      var head := last[..Max(FindLast(last, ':'), 0)];
      assert forall k :: 0 <= k < |head| ==> head[k] == last[k];
    }
  }

  lemma {:induction false} ColonOf(action: string, status: string)
    requires ':' !in status
    ensures FindLast(action + ":" + status, ':') == |action|
  {
    var text := action + ":" + status;
    var i := FindLast(text, ':');
    assert text[|action|] == ':';
    assert forall k :: |action| < k < |text| ==> text[k] == status[k - |action| - 1];
  }

  lemma {:induction false} OneResult(result: string)
    ensures Successes([result]) == match SuccessOf(result) case Some(action) => {action} case None => {}
  {
    hide SuccessOf;
    assert [result][..0] == [];
  }

  lemma {:induction false} ResultRead(action: string, status: string)
    requires action != "" && ':' !in status
    ensures SuccessOf(action + ":" + status) == if Succeeded(status) then Some(action) else None
  {
    var text := action + ":" + status;
    ColonOf(action, status);
    hide FindLast, Succeeded;
    assert text[..|action|] == action && text[|action| + 1..] == status;
  }

  lemma {:induction false} PlainReceipt(action: string, status: Status)
    requires action != "" && ';' !in action
    ensures SuccessfulActions(ResultText(action, status)) == if Succeeded(StatusText(status)) then {action} else {}
  {
    var text := ResultText(action, status);
    assert forall k :: 0 <= k < |text| ==> text[k] != ';';
    ResultRead(action, StatusText(status));
    hide Split, FindLast, Find, Succeeded, SuccessOf, Successes;
    SplitParts(text, ';');
    OneResult(text);
  }

  /** A result is read back as the success of its own action exactly when the status says so and
      the action holds no semicolon; then it names nothing else. */
  lemma {:induction false} ReceiptReadBack(action: string, status: Status)
    requires action != ""
    ensures action in SuccessfulActions(ResultText(action, status)) <==> Succeeded(StatusText(status)) && ';' !in action
    ensures ';' !in action ==>
      SuccessfulActions(ResultText(action, status)) == if Succeeded(StatusText(status)) then {action} else {}
  {
    var text := ResultText(action, status);
    if ';' in action {
      hide Split, Find, FindLast, ResultText, StatusText, Succeeded, Successes;
      SplitParts(text, ';');
      SuccessesWithin(Split(text, ';'), ';');
    } else {
      hide SuccessfulActions, ResultText, StatusText, Succeeded;
      PlainReceipt(action, status);
    }
  }

  // ---- One cycle --------------------------------------------------------------------------------------

  datatype Fault = Go | BeforeEffect | AfterEffect

  /** How one action went: its status, when it completed, and whether its receipt was stored. */
  datatype Try = Try(status: Status, epoch: int, fault: Fault)

  datatype PostFacts = PostFacts(generatedAt: Option<int>, verified: bool, soft: bool)

  /** One cycle's inputs; postcheck is None when collecting it raises. */
  datatype Cycle = Cycle(maintenance: bool, facts: Facts, now: int, tries: nat -> Try,
                         postcheck: Option<PostFacts>, fault: Fault)

  datatype Receipt = Receipt(action: string, epoch: int)

  /** The stored record, and what an observer of the disk and of the host has seen: the record of
      every cycle that stored one, every recorded success, and every action ever started. */
  datatype System = System(stored: Option<Health>, records: seq<Health>, receipts: seq<Receipt>, started: seq<string>)

  predicate WithinGap(earlier: Option<int>, later: Option<int>) {
    earlier.Some? && later.Some? && 0 < later.value - earlier.value <= MAX_GAP
  }

  function EvidenceOf(facts: Facts): Evidence {
    Evidence(PlannedActions(facts.host), facts.requirements, facts.mismatches, facts.missing)
  }

  predicate HardFailure(reasons: Reasons) { reasons.serverPath || reasons.hostIntegrity }

  /** The stored record shows this very failure, recently. */
  predicate SameFailure(previous: Option<Health>, facts: Facts) {
    && previous.Some? && HardFailure(facts.reasons)
    && facts.reasons == previous.value.reasons && EvidenceOf(facts) == previous.value.evidence
    && WithinGap(previous.value.observedAt, facts.observedAt)
  }

  function FailureCount(previous: Option<Health>, facts: Facts): nat {
    if !HardFailure(facts.reasons) then 0
    else if SameFailure(previous, facts) then previous.value.failures + 1
    else 1
  }

  function LastActions(previous: Option<Health>): map<string, int> {
    match previous
    case None => map[]
    case Some(record) => record.lastActions
  }

  /** The record a cycle starts with. */
  function Opening(previous: Option<Health>, facts: Facts): Health {
    var failures := FailureCount(previous, facts);
    var condition :=
      if HardFailure(facts.reasons) then (if failures == 1 then Suspect else Failed)
      else if facts.soft then Degraded else Healthy;
    Health(facts.observedAt, condition, failures, facts.reasons, EvidenceOf(facts), facts.soft, "none",
           LastActions(previous))
  }

  function EpochOf(lastActions: map<string, int>, action: string): int {
    if action in lastActions then lastActions[action] else 0
  }

  /** The planned actions whose cooldown is over. */
  function Eligible(lastActions: map<string, int>, planned: seq<string>, now: int): seq<string> {
    if planned == [] then []
    else
      var last := planned[|planned| - 1];
      Eligible(lastActions, planned[..|planned| - 1], now)
      + if now - EpochOf(lastActions, last) >= COOLDOWN_SECONDS then [last] else []
  }

  /** Whether a cycle recovers. */
  predicate Recovers(previous: Option<Health>, cycle: Cycle) {
    && !cycle.maintenance
    && cycle.facts.reasons == Reasons(true, false)
    && FailureCount(previous, cycle.facts) >= 2
    && EligibleIn(previous, cycle) != []
  }

  function EligibleIn(previous: Option<Health>, cycle: Cycle): seq<string> {
    Eligible(LastActions(previous), PlannedActions(cycle.facts.host), cycle.now)
  }

  function Stamped(lastActions: map<string, int>, actions: set<string>, epoch: int): map<string, int> {
    map action | action in lastActions.Keys + actions :: if action in actions then epoch else lastActions[action]
  }

  /** _record_recovery_action: the record after one result. */
  function WithResult(record: Health, result: string, epoch: int): Health {
    var noted := record.(lastAction := if record.lastAction == "none" then result
                         else record.lastAction + ";" + result);
    var successes := SuccessfulActions(result);
    if successes == {} then noted
    else noted.(condition := Recovering, lastActions := Stamped(record.lastActions, successes, epoch))
  }

  /** Where a cycle stands while it recovers; wrote says whether it stored a record yet. */
  datatype Progress = Progress(stored: Option<Health>, wrote: bool, record: Health, receipts: seq<Receipt>,
                               started: seq<string>, alive: bool)

  function Attempted(before: Progress, action: string, try: Try): Progress {
    var record := WithResult(before.record, ResultText(action, try.status), try.epoch);
    var receipt := if Succeeded(StatusText(try.status)) then [Receipt(action, try.epoch)] else [];
    if try.fault == BeforeEffect
    then before.(record := record, started := before.started + [action], alive := false)
    else before.(stored := Some(record), wrote := true, record := record, receipts := before.receipts + receipt,
                 started := before.started + [action], alive := try.fault == Go)
  }

  /** The first k eligible actions; a receipt that cannot be stored ends the cycle. */
  function Attempts(begin: Progress, eligible: seq<string>, tries: nat -> Try, k: nat): Progress
    requires k <= |eligible|
  {
    if k == 0 then begin
    else
      var before := Attempts(begin, eligible, tries, k - 1);
      if !before.alive then before else Attempted(before, eligible[k - 1], tries(k - 1))
  }

  /** _post_recovery_check */
  function PostChecked(record: Health, postcheck: Option<PostFacts>): Health {
    match postcheck
    case None => record.(soft := true)
    case Some(facts) =>
      var soft := record.soft || facts.soft;
      if WithinGap(record.observedAt, facts.generatedAt) && facts.verified
      then record.(soft := soft, condition := if soft then Degraded else Healthy, failures := 0)
      else record.(soft := soft)
  }

  function Stored(progress: Progress, record: Health, fault: Fault): Progress {
    if fault == BeforeEffect then progress else progress.(stored := Some(record), wrote := true)
  }

  function Begin(system: System, facts: Facts): Progress {
    Progress(system.stored, false, Opening(system.stored, facts), system.receipts, system.started, true)
  }

  /** A whole cycle up to its last write. */
  function Cycled(system: System, cycle: Cycle): Progress {
    var begin := Begin(system, cycle.facts);
    if !Recovers(system.stored, cycle) then Stored(begin, begin.record, cycle.fault)
    else
      var eligible := EligibleIn(system.stored, cycle);
      var after := Attempts(begin, eligible, cycle.tries, |eligible|);
      if !after.alive then after
      else
        var record := if SuccessfulActions(after.record.lastAction) != {}
          then PostChecked(after.record, cycle.postcheck) else after.record;
        Stored(after, record, cycle.fault)
  }

  function After(system: System, cycle: Cycle): System {
    if cycle.maintenance then system
    else
      var end := Cycled(system, cycle);
      var written := if end.wrote && end.stored.Some? then [end.stored.value] else [];
      System(end.stored, system.records + written, end.receipts, end.started)
  }

  lemma {:induction false} DeadStaysDead(begin: Progress, eligible: seq<string>, tries: nat -> Try, k: nat, n: nat)
    requires k <= n <= |eligible| && !Attempts(begin, eligible, tries, k).alive
    ensures Attempts(begin, eligible, tries, n) == Attempts(begin, eligible, tries, k)
    decreases n
  {
    if k < n { DeadStaysDead(begin, eligible, tries, k, n - 1); }
  }

  lemma {:induction false} AttemptsNext(begin: Progress, eligible: seq<string>, tries: nat -> Try, k: nat)
    requires k < |eligible| && Attempts(begin, eligible, tries, k).alive
    ensures Attempts(begin, eligible, tries, k + 1)
            == Attempted(Attempts(begin, eligible, tries, k), eligible[k], tries(k))
  {
    hide Attempted;
  }

  class HealthMonitor {
    /** The health state file. */
    var stored: Option<Health>
    ghost var records: seq<Health>
    ghost var receipts: seq<Receipt>
    ghost var started: seq<string>

    constructor (file: Option<Health>)
      ensures View() == System(file, [], [], [])
    {
      stored, records, receipts, started := file, [], [], [];
    }

    ghost function View(): System
      reads this
    {
      System(stored, records, receipts, started)
    }

    /** One health cycle: None when a write fault ended it. */
    method Run(cycle: Cycle) returns (published: Option<Health>)
      modifies this
      ensures View() == After(old(View()), cycle)
      ensures published.Some? && !cycle.maintenance ==> stored == published
    {
      if cycle.maintenance {
        return stored;
      }
      var record := Opening(stored, cycle.facts);
      var eligible := Eligible(record.lastActions, PlannedActions(cycle.facts.host), cycle.now);
      ghost var origin := View();
      ghost var begin := Begin(origin, cycle.facts);
      ghost var progress := begin;
      if record.reasons == Reasons(true, false) && record.failures >= 2 && eligible != [] {
        var alive, written := Recover(record, eligible, cycle.tries, begin);
        progress := Attempts(begin, eligible, cycle.tries, |eligible|);
        record := written;
        if !alive {
          records := records + if progress.wrote && stored.Some? then [stored.value] else [];
          return None;
        }
        if SuccessfulActions(record.lastAction) != {} { record := PostChecked(record, cycle.postcheck); }
      }
      ghost var end := Stored(progress, record, cycle.fault);
      if cycle.fault != BeforeEffect { stored := Some(record); }
      records := records + if end.wrote && stored.Some? then [stored.value] else [];
      published := if cycle.fault == Go then Some(record) else None;
    }

    /** One action and the write of its receipt. */
    method RecordAction(before: Health, action: string, try: Try, ghost at: Progress)
      returns (record: Health, alive: bool, ghost next: Progress)
      requires at == Progress(stored, at.wrote, before, receipts, started, true)
      modifies this`stored, this`receipts, this`started
      ensures next == Attempted(at, action, try) == Progress(stored, next.wrote, record, receipts, started, alive)
    {
      hide WithResult, ResultText, StatusText, Succeeded;
      next := Attempted(at, action, try);
      started := started + [action];
      record := WithResult(before, ResultText(action, try.status), try.epoch);
      if try.fault != BeforeEffect {
        stored := Some(record);
        receipts := receipts + if Succeeded(StatusText(try.status)) then [Receipt(action, try.epoch)] else [];
      }
      alive := try.fault == Go;
    }

    /** recover: runs the actions one by one and stores the record after each. */
    method Recover(opening: Health, eligible: seq<string>, tries: nat -> Try, ghost begin: Progress)
        returns (alive: bool, record: Health)
      requires begin == Progress(stored, false, opening, receipts, started, true)
      modifies this`stored, this`receipts, this`started
      ensures Attempts(begin, eligible, tries, |eligible|)
        == Progress(stored, Attempts(begin, eligible, tries, |eligible|).wrote, record, receipts, started, alive)
    {
      record, alive := opening, true;
      ghost var at := begin;
      assert Attempts(begin, eligible, tries, 0) == begin;
      hide Attempts, Attempted;
      for i := 0 to |eligible|
        invariant alive
        invariant at == Attempts(begin, eligible, tries, i)
        invariant at == Progress(stored, at.wrote, record, receipts, started, true)
      {
        AttemptsNext(begin, eligible, tries, i);
        record, alive, at := RecordAction(record, eligible[i], tries(i), at);
        if !alive {
          DeadStaysDead(begin, eligible, tries, i + 1, |eligible|);
          return;
        }
      }
    }
  }

  // ---- Whole runs ------------------------------------------------------------------------------------------

  function RunOf(start: System, cycles: seq<Cycle>): System {
    if cycles == [] then start
    else After(RunOf(start, cycles[..|cycles| - 1]), cycles[|cycles| - 1])
  }

  function Blank(): System { System(None, [], [], []) }

  /** Two records of one observation with the same count. */
  predicate SameObservation(a: Health, b: Health) {
    a.observedAt == b.observedAt && a.failures == b.failures && a.reasons == b.reasons && a.evidence == b.evidence
  }

  lemma {:induction false} AttemptFrame(before: Progress, action: string, try: Try)
    ensures var after := Attempted(before, action, try);
      && SameObservation(after.record, before.record) && |after.started| == |before.started| + 1
      && (if try.fault == BeforeEffect then after.wrote == before.wrote && after.stored == before.stored
          else after.wrote && after.stored == Some(after.record))
  {
    hide SuccessfulActions, Stamped;
  }

  lemma {:induction false} SameAgain(a: Health, b: Health, c: Health)
    ensures SameObservation(a, a)
    ensures SameObservation(a, b) && SameObservation(b, c) ==> SameObservation(a, c)
  {
  }

  /** What every attempt leaves alone. */
  lemma {:induction false} AttemptsFrame(begin: Progress, eligible: seq<string>, tries: nat -> Try, k: nat)
    requires k <= |eligible| && !begin.wrote
    ensures var after := Attempts(begin, eligible, tries, k);
      && SameObservation(after.record, begin.record)
      && (begin.alive && k > 0 ==> |after.started| > |begin.started|)
      && (if after.wrote then after.stored.Some? && SameObservation(after.stored.value, begin.record)
          else after.stored == begin.stored)
    decreases k
  {
    hide Attempted, SameObservation;
    if k > 0 {
      AttemptsFrame(begin, eligible, tries, k - 1);
      AttemptFrame(Attempts(begin, eligible, tries, k - 1), eligible[k - 1], tries(k - 1));
      SameAgain(Attempts(begin, eligible, tries, k).record, Attempts(begin, eligible, tries, k - 1).record,
                begin.record);
    } else {
      SameAgain(begin.record, begin.record, begin.record);
    }
  }

  lemma {:induction false} AllAttempted(begin: Progress, eligible: seq<string>, tries: nat -> Try, k: nat)
    requires begin.alive && k <= |eligible| && forall i :: 0 <= i < k ==> tries(i).fault == Go
    ensures Attempts(begin, eligible, tries, k).alive
    ensures Attempts(begin, eligible, tries, k).started == begin.started + eligible[..k]
    decreases k
  {
    hide WithResult;
    if k > 0 {
      AllAttempted(begin, eligible, tries, k - 1);
      assert eligible[..k] == eligible[..k - 1] + [eligible[k - 1]];
    }
  }

  /** The first receipt that cannot be stored stops every later action of its cycle. */
  lemma {:induction false} FailedReceiptStops(begin: Progress, eligible: seq<string>, tries: nat -> Try, i: nat)
    requires begin.alive && i < |eligible| && tries(i).fault != Go
    requires forall j :: 0 <= j < i ==> tries(j).fault == Go
    ensures var end := Attempts(begin, eligible, tries, |eligible|);
      !end.alive && end.started == begin.started + eligible[..i + 1]
  {
    hide WithResult;
    AllAttempted(begin, eligible, tries, i);
    assert eligible[..i + 1] == eligible[..i] + [eligible[i]];
    DeadStaysDead(begin, eligible, tries, i + 1, |eligible|);
  }

  // ---- Confirmed failures -------------------------------------------------------------------------------

  /** Two successive records show the same failure. */
  predicate Confirms(earlier: Health, later: Health) {
    && earlier.reasons == later.reasons && earlier.evidence == later.evidence
    && WithinGap(earlier.observedAt, later.observedAt)
    && earlier.failures == later.failures - 1
  }

  /** The stored record is the last one, and a count above one continues the record before it. */
  ghost predicate Counted(system: System) {
    && (system.stored.Some? <==> system.records != [])
    && (system.records != [] ==> system.stored == Some(system.records[|system.records| - 1]))
    && forall i :: 0 <= i < |system.records| && system.records[i].failures >= 2 ==>
         i > 0 && Confirms(system.records[i - 1], system.records[i])
  }

  /** What a cycle stores is its own observation with its own count, or a count of zero. */
  lemma {:induction false} CycleRecord(system: System, cycle: Cycle)
    requires !cycle.maintenance
    ensures var end := Cycled(system, cycle);
      && (!end.wrote ==> end.stored == system.stored)
      && (end.wrote ==>
            && end.stored.Some? && end.stored.value.observedAt == cycle.facts.observedAt
            && end.stored.value.reasons == cycle.facts.reasons && end.stored.value.evidence == EvidenceOf(cycle.facts)
            && end.stored.value.failures in {0, FailureCount(system.stored, cycle.facts)})
  {
    hide SuccessfulActions, Attempts, EligibleIn, EvidenceOf, FailureCount, HardFailure, WithinGap;
    var begin := Begin(system, cycle.facts);
    var eligible := EligibleIn(system.stored, cycle);
    if Recovers(system.stored, cycle) { AttemptsFrame(begin, eligible, cycle.tries, |eligible|); }
  }

  /** A recovering cycle resets the count only when some action succeeded and a fresh check found
      the server path and the host verified. */
  lemma {:induction false} ResetNeedsPostCheck(system: System, cycle: Cycle)
    requires Recovers(system.stored, cycle)
    ensures var end := Cycled(system, cycle);
      end.wrote && end.stored.Some? && end.stored.value.failures == 0 ==>
        && cycle.postcheck.Some? && cycle.postcheck.value.verified
        && WithinGap(cycle.facts.observedAt, cycle.postcheck.value.generatedAt)
  {
    hide SuccessfulActions, Attempts, EligibleIn, EvidenceOf, FailureCount, HardFailure, WithinGap;
    var eligible := EligibleIn(system.stored, cycle);
    AttemptsFrame(Begin(system, cycle.facts), eligible, cycle.tries, |eligible|);
  }

  lemma {:induction false} CountedStep(system: System, cycle: Cycle)
    requires Counted(system)
    ensures Counted(After(system, cycle))
  {
    if !cycle.maintenance {
      CycleRecord(system, cycle);
      hide Cycled, EvidenceOf;
    }
  }

  lemma {:induction false} RunCounted(cycles: seq<Cycle>)
    ensures Counted(RunOf(Blank(), cycles))
  {
    if cycles != [] {
      RunCounted(cycles[..|cycles| - 1]);
      CountedStep(RunOf(Blank(), cycles[..|cycles| - 1]), cycles[|cycles| - 1]);
    }
  }

  predicate Continued(records: seq<Health>, i: int) { 0 < i < |records| && Confirms(records[i - 1], records[i]) }

  /** The last n of these records show one failure, each at most 300 s after the one before. */
  ghost predicate Streak(records: seq<Health>, n: nat) {
    && n <= |records|
    && forall i :: |records| - n < i < |records| ==> Continued(records, i)
  }

  lemma {:induction false} CountIsStreak(system: System, n: nat)
    requires Counted(system) && system.stored.Some? && n <= system.stored.value.failures
    ensures Streak(system.records, n)
    ensures n > 0 ==> system.records[|system.records| - n].failures == system.stored.value.failures - n + 1
    decreases n
  {
    if n > 1 {
      CountIsStreak(system, n - 1);
      var i := |system.records| - n + 1;
      assert system.records[i].failures >= 2;
      assert Continued(system.records, i);
    }
  }

  /** In every run an action is started only after the server path was recorded as failed, alone
      and with the same evidence, by an unbroken streak of records at most 300 s apart, as long as
      the stored count says, and the present cycle is at most 300 s after the last of them. */
  lemma {:induction false} RecoveryNeedsConfirmation(cycles: seq<Cycle>, cycle: Cycle)
    requires After(RunOf(Blank(), cycles), cycle).started != RunOf(Blank(), cycles).started
    ensures var system := RunOf(Blank(), cycles);
      && system.stored.Some? && system.stored.value.failures >= 1
      && Streak(system.records, system.stored.value.failures)
      && system.records[|system.records| - 1] == system.stored.value
      && system.stored.value.reasons == Reasons(true, false) == cycle.facts.reasons
      && system.stored.value.evidence == EvidenceOf(cycle.facts)
      && WithinGap(system.stored.value.observedAt, cycle.facts.observedAt)
  {
    var system := RunOf(Blank(), cycles);
    RunCounted(cycles);
    assert Recovers(system.stored, cycle);
    CountIsStreak(system, system.stored.value.failures);
  }

  // ---- When recovery happens, and what it leaves ---------------------------------------------------------

  /** The stored record shows the same failure, for the same evidence and at most 300 s ago. */
  predicate Repeated(system: System, facts: Facts) {
    && (facts.reasons.serverPath || facts.reasons.hostIntegrity) && system.stored.Some?
    && var last := system.stored.value;
    && last.reasons == facts.reasons
    && last.evidence == Evidence(PlannedActions(facts.host), facts.requirements, facts.mismatches, facts.missing)
    && last.observedAt.Some? && facts.observedAt.Some?
    && 0 < facts.observedAt.value - last.observedAt.value <= 300 * 1000000
  }

  /** A failure of the server path alone that the stored record counts as well is confirmed. */
  predicate Confirmed(system: System, cycle: Cycle) {
    && cycle.facts.reasons.serverPath && !cycle.facts.reasons.hostIntegrity
    && Repeated(system, cycle.facts) && system.stored.value.failures >= 1
  }

  /** The action is planned, and its last recorded success is at least 900 s ago. */
  predicate Due(system: System, cycle: Cycle, action: string) {
    var epoch := if system.stored.Some? && action in system.stored.value.lastActions
                 then system.stored.value.lastActions[action] else 0;
    action in PlannedActions(cycle.facts.host) && cycle.now - epoch >= 900
  }

  /** A cycle starts actions exactly when the failure is confirmed and some action is due; it starts due
      actions only, and all of them when every receipt can be stored. */
  lemma {:induction false} StartsExactly(system: System, cycle: Cycle)
    ensures After(system, cycle).started != system.started <==>
      !cycle.maintenance && Confirmed(system, cycle) && exists action :: Due(system, cycle, action)
    ensures system.started <= After(system, cycle).started
    ensures forall action :: action in After(system, cycle).started[|system.started|..] ==> Due(system, cycle, action)
    ensures !cycle.maintenance && Confirmed(system, cycle) && (forall i :: cycle.tries(i).fault == Go) ==>
      forall action :: Due(system, cycle, action) ==> action in After(system, cycle).started[|system.started|..]
  {
    var eligible := EligibleIn(system.stored, cycle);
    DueIsEligible(system, cycle);
    ConfirmedRecovers(system, cycle);
    hide EligibleIn, Confirmed, Due, FailureCount, PostChecked, SuccessfulActions, Recovers;
    if eligible != [] { assert eligible[0] in eligible; }
    if !cycle.maintenance && Recovers(system.stored, cycle) {
      var begin := Begin(system, cycle.facts);
      StartedPrefix(begin, eligible, cycle.tries, |eligible|);
      if forall i :: cycle.tries(i).fault == Go { AllAttempted(begin, eligible, cycle.tries, |eligible|); }
      hide Attempts;
    }
  }

  /** What was started is a first part of the eligible actions, and not empty. */
  lemma {:induction false} StartedPrefix(begin: Progress, eligible: seq<string>, tries: nat -> Try, k: nat)
    requires begin.alive && k <= |eligible|
    ensures var after := Attempts(begin, eligible, tries, k);
      && begin.started <= after.started && after.started[|begin.started|..] <= eligible[..k]
      && (k > 0 ==> |after.started| > |begin.started|)
      && (after.alive ==> after.started == begin.started + eligible[..k])
    decreases k
  {
    hide WithResult;
    if k > 0 {
      StartedPrefix(begin, eligible, tries, k - 1);
      assert eligible[..k] == eligible[..k - 1] + [eligible[k - 1]];
    }
  }

  lemma {:induction false} ConfirmedRecovers(system: System, cycle: Cycle)
    ensures Recovers(system.stored, cycle)
      <==> !cycle.maintenance && Confirmed(system, cycle) && EligibleIn(system.stored, cycle) != []
  {
    hide EligibleIn, PlannedActions;
  }

  lemma {:induction false} DueIsEligible(system: System, cycle: Cycle)
    ensures forall action :: action in EligibleIn(system.stored, cycle) <==> Due(system, cycle, action)
  {
    forall action ensures action in EligibleIn(system.stored, cycle) <==> Due(system, cycle, action) {
      EligibleMembers(LastActions(system.stored), PlannedActions(cycle.facts.host), cycle.now, action);
    }
  }

  /** What a cycle that starts no action stores: its observation, with a count that goes on exactly with a
      repeated failure, and the epochs of earlier successes. */
  lemma {:induction false} RecordExactly(system: System, cycle: Cycle)
    requires !cycle.maintenance && cycle.fault != BeforeEffect && After(system, cycle).started == system.started
    ensures After(system, cycle).stored.Some?
    ensures var record := After(system, cycle).stored.value; var facts := cycle.facts;
      var failed := facts.reasons.serverPath || facts.reasons.hostIntegrity;
      && record.observedAt == facts.observedAt && record.reasons == facts.reasons
      && record.failures == (if !failed then 0
                             else if Repeated(system, facts) then system.stored.value.failures + 1 else 1)
      && record.condition == (if failed then (if record.failures == 1 then Suspect else Failed)
                              else if facts.soft then Degraded else Healthy)
      && record.lastActions == (if system.stored.Some? then system.stored.value.lastActions else map[])
      && After(system, cycle).receipts == system.receipts && After(system, cycle).records == system.records + [record]
  {
    hide PlannedActions, Eligible, SuccessfulActions;
    if Recovers(system.stored, cycle) {
      var eligible := EligibleIn(system.stored, cycle);
      StartedPrefix(Begin(system, cycle.facts), eligible, cycle.tries, |eligible|);
    }
    hide Attempts, EligibleIn;
  }

  lemma {:induction false} FindConcat(a: string, b: string, mark: char)
    ensures Find(a + [mark] + b, mark) == Find(a, mark)
  {
    if a != "" && a[0] != mark {
      FindConcat(a[1..], b, mark);
      assert (a + [mark] + b)[1..] == a[1..] + [mark] + b;
    }
  }

  lemma {:induction false} SplitFirst(text: string, mark: char)
    ensures var i := Find(text, mark);
      Split(text, mark) == if i == |text| then [text] else [text[..i]] + Split(text[i + 1..], mark)
  {
  }

  lemma {:induction false} SplitConcat(a: string, b: string, mark: char)
    ensures Split(a + [mark] + b, mark) == Split(a, mark) + Split(b, mark)
    decreases |a|
  {
    hide Split, Find;
    var text, i := a + [mark] + b, Find(a, mark);
    FindConcat(a, b, mark);
    SplitFirst(text, mark);
    SplitFirst(a, mark);
    if i == |a| {
      assert text[..i] == a && text[i + 1..] == b;
    } else {
      SplitConcat(a[i + 1..], b, mark);
      assert text[..i] == a[..i] && text[i + 1..] == a[i + 1..] + [mark] + b;
    }
  }

  lemma {:induction false} SuccessesConcat(a: seq<string>, b: seq<string>)
    ensures Successes(a + b) == Successes(a) + Successes(b)
  {
    if b == [] {
      assert a + b == a;
    } else {
      SuccessesConcat(a, b[..|b| - 1]);
      assert (a + b)[..|a + b| - 1] == a + b[..|b| - 1];
    }
  }

  /** The successes of two joined results are those of both. */
  lemma {:induction false} JoinedSuccesses(first: string, second: string)
    ensures SuccessfulActions(first + ";" + second) == SuccessfulActions(first) + SuccessfulActions(second)
  {
    SplitConcat(first, second, ';');
    SuccessesConcat(Split(first, ';'), Split(second, ';'));
  }

  predicate Works(status: Status) { status == Done || status == Changed }

  predicate AnyWorks(tries: nat -> Try, k: nat) { exists i :: 0 <= i < k && Works(tries(i).status) }

  lemma {:induction false} OneMoreTry(tries: nat -> Try, k: nat)
    ensures AnyWorks(tries, k + 1) <==> AnyWorks(tries, k) || Works(tries(k).status)
    ensures !AnyWorks(tries, 0)
  {
  }

  /** Adding a result to a record that has none, or some. */
  lemma {:induction false} ResultAdded(record: Health, action: string, status: Status, epoch: int)
    requires action != "" && ';' !in action
    requires record.lastAction == "none" || ':' in record.lastAction
    ensures var after := WithResult(record, ResultText(action, status), epoch);
      && ':' in after.lastAction && after.soft == record.soft
      && (SuccessfulActions(after.lastAction) != {} <==>
            Works(status) || (record.lastAction != "none" && SuccessfulActions(record.lastAction) != {}))
      && after.condition == if Works(status) then Recovering else record.condition
  {
    hide SuccessfulActions, ResultText, StatusText, Succeeded, Works, Stamped;
    var result := ResultText(action, status);
    HasColon(action, status);
    ReceiptReadBack(action, status);
    WorksSucceeds(status);
    assert ':' !in "none";
    JoinedSuccesses(record.lastAction, result);
    assert ':' in record.lastAction + ";" + result;
  }

  lemma {:induction false} HasColon(action: string, status: Status)
    ensures ':' in ResultText(action, status)
  {
    assert ResultText(action, status)[|action|] == ':';
  }

  /** The joined results of a cycle name a success exactly when some action worked. */
  lemma {:induction false} ResultsNameSuccess(begin: Progress, eligible: seq<string>, tries: nat -> Try, k: nat)
    requires begin.alive && 0 < k <= |eligible| && begin.record.lastAction == "none" && Plain(eligible)
    requires forall i :: tries(i).fault == Go
    ensures var record := Attempts(begin, eligible, tries, k).record;
      && ':' in record.lastAction && Attempts(begin, eligible, tries, k).alive
      && (SuccessfulActions(record.lastAction) != {} <==> AnyWorks(tries, k))
      && record.condition == (if AnyWorks(tries, k) then Recovering else begin.record.condition)
      && record.soft == begin.record.soft
    decreases k
  {
    hide WithResult, ResultText, SuccessfulActions, Works, AnyWorks;
    var before := Attempts(begin, eligible, tries, k - 1);
    OneMoreTry(tries, k - 1);
    if k > 1 { ResultsNameSuccess(begin, eligible, tries, k - 1); }
    assert ':' !in "none";
    ResultAdded(before.record, eligible[k - 1], tries(k - 1).status, tries(k - 1).epoch);
  }

  lemma {:induction false} WorksSucceeds(status: Status)
    ensures Succeeded(StatusText(status)) <==> Works(status)
  {
  }

  /** What a recovering cycle without write faults ends with: the count is reset exactly when some action
      worked and a fresh check found the server path and the host verified. */
  lemma {:induction false} ResetExactly(system: System, cycle: Cycle)
    requires Recovers(system.stored, cycle) && (forall i :: cycle.tries(i).fault == Go) && cycle.fault != BeforeEffect
    requires Plain(EligibleIn(system.stored, cycle))
    ensures After(system, cycle).stored.Some?
    ensures var record := After(system, cycle).stored.value; var n := |EligibleIn(system.stored, cycle)|;
      var worked := AnyWorks(cycle.tries, n);
      var verified := cycle.postcheck.Some? && cycle.postcheck.value.verified
                      && WithinGap(cycle.facts.observedAt, cycle.postcheck.value.generatedAt);
      && (record.failures == 0 <==> worked && verified)
      && record.condition == (if !worked then Failed else if !verified then Recovering
                              else if record.soft then Degraded else Healthy)
      && record.soft == (cycle.facts.soft || (worked && (cycle.postcheck.None? || cycle.postcheck.value.soft)))
  {
    var begin := Begin(system, cycle.facts);
    var eligible := EligibleIn(system.stored, cycle);
    AttemptsFrame(begin, eligible, cycle.tries, |eligible|);
    ResultsNameSuccess(begin, eligible, cycle.tries, |eligible|);
    hide Attempts, SuccessfulActions, EligibleIn, EvidenceOf, WithinGap, AnyWorks, Plain;
  }

  /** The success of every action that worked is dated to its completion, and every other epoch stays. */
  ghost predicate Dated(before: map<string, int>, after: map<string, int>, eligible: seq<string>, tries: nat -> Try,
                        k: nat)
    requires k <= |eligible|
  {
    && (forall i :: 0 <= i < k && Works(tries(i).status) ==>
        eligible[i] in after && after[eligible[i]] == tries(i).epoch)
    && (forall action :: (forall i :: 0 <= i < k && Works(tries(i).status) ==> eligible[i] != action) ==>
          (action in after <==> action in before) && (action in after ==> after[action] == before[action]))
  }

  lemma {:induction false} EpochsAfter(begin: Progress, eligible: seq<string>, tries: nat -> Try, k: nat)
    requires begin.alive && k <= |eligible| && Plain(eligible) && Distinct(eligible)
    requires forall i :: tries(i).fault == Go
    ensures Attempts(begin, eligible, tries, k).alive
    ensures Dated(begin.record.lastActions, Attempts(begin, eligible, tries, k).record.lastActions, eligible, tries, k)
    decreases k
  {
    hide WithResult, Works;
    if k > 0 {
      var before := Attempts(begin, eligible, tries, k - 1);
      EpochsAfter(begin, eligible, tries, k - 1);
      ResultDated(before.record, eligible[k - 1], tries(k - 1).status, tries(k - 1).epoch);
      DatedMore(begin.record.lastActions, before.record.lastActions, eligible, tries, k - 1);
      hide Dated, Plain, Distinct;
    } else {
      NothingDated(begin.record.lastActions, eligible, tries);
    }
  }

  lemma {:induction false} NothingDated(epochs: map<string, int>, eligible: seq<string>, tries: nat -> Try)
    ensures Dated(epochs, epochs, eligible, tries, 0)
  {
  }

  lemma {:induction false} DatedMore(before: map<string, int>, after: map<string, int>, eligible: seq<string>,
                                     tries: nat -> Try, k: nat)
    requires k < |eligible| && Distinct(eligible) && Dated(before, after, eligible, tries, k)
    ensures Dated(before, if Works(tries(k).status) then after[eligible[k] := tries(k).epoch] else after,
                  eligible, tries, k + 1)
  {
    hide Works;
  }

  lemma {:induction false} ResultDated(record: Health, action: string, status: Status, epoch: int)
    requires action != "" && ';' !in action
    ensures WithResult(record, ResultText(action, status), epoch).lastActions
      == if Works(status) then record.lastActions[action := epoch] else record.lastActions
  {
    ReceiptReadBack(action, status);
    WorksSucceeds(status);
    hide SuccessfulActions, ResultText, StatusText, Succeeded, Works;
  }

  lemma {:induction false} ActionsStored(system: System, cycle: Cycle)
    requires Recovers(system.stored, cycle) && cycle.fault != BeforeEffect
    ensures var eligible := EligibleIn(system.stored, cycle); var begin := Begin(system, cycle.facts);
      var end := Attempts(begin, eligible, cycle.tries, |eligible|);
      system.stored.Some? && begin.alive && begin.record.lastActions == system.stored.value.lastActions
      && (end.alive ==> After(system, cycle).stored.Some?
                        && After(system, cycle).stored.value.lastActions == end.record.lastActions)
  {
    hide Attempts, SuccessfulActions, EligibleIn, EvidenceOf, WithinGap;
  }

  /** What a recovering cycle without write faults stores about its actions. */
  lemma {:induction false} EpochsExactly(system: System, cycle: Cycle)
    requires Recovers(system.stored, cycle) && (forall i :: cycle.tries(i).fault == Go) && cycle.fault != BeforeEffect
    requires Plain(EligibleIn(system.stored, cycle)) && Distinct(EligibleIn(system.stored, cycle))
    ensures system.stored.Some? && After(system, cycle).stored.Some?
    ensures Dated(system.stored.value.lastActions, After(system, cycle).stored.value.lastActions,
                  EligibleIn(system.stored, cycle), cycle.tries, |EligibleIn(system.stored, cycle)|)
  {
    var eligible := EligibleIn(system.stored, cycle);
    hide Recovers, Attempts, After, EligibleIn, Plain, Distinct, Dated, Begin;
    ActionsStored(system, cycle);
    EpochsAfter(Begin(system, cycle.facts), eligible, cycle.tries, |eligible|);
  }

  // ---- The cooldown ------------------------------------------------------------------------------------------

  /** Recorded successes of one action are at least 900 s apart. */
  predicate Spaced(receipts: seq<Receipt>) {
    forall i, j :: 0 <= i < j < |receipts| && receipts[i].action == receipts[j].action ==>
      receipts[j].epoch - receipts[i].epoch >= COOLDOWN_SECONDS
  }

  /** The stored epochs cover every recorded success. */
  predicate Covered(receipts: seq<Receipt>, lastActions: map<string, int>) {
    forall i :: 0 <= i < |receipts| ==>
      receipts[i].action in lastActions && receipts[i].epoch <= lastActions[receipts[i].action]
  }

  ghost predicate CooledDown(system: System) {
    Spaced(system.receipts) && Covered(system.receipts, LastActions(system.stored))
  }

  /** The services that need a restart have units of their own, unit names hold no semicolon, and
      the clock does not run backwards while the cycle recovers. */
  ghost predicate Regular(cycle: Cycle) {
    && DistinctUnits(cycle.facts.host.services)
    && (forall i :: 0 <= i < |cycle.facts.host.services| ==> ';' !in cycle.facts.host.services[i].unit)
    && forall i :: cycle.tries(i).epoch >= cycle.now
  }

  predicate Plain(actions: seq<string>) { forall i :: 0 <= i < |actions| ==> actions[i] != "" && ';' !in actions[i] }

  lemma {:induction false} PlainRestarts(services: seq<Service>)
    requires forall i :: 0 <= i < |services| ==> ';' !in services[i].unit
    ensures Plain(PlannedRestarts(services))
  {
    hide NeedsRestart;
    if services != [] { PlainRestarts(services[..|services| - 1]); }
  }

  lemma {:induction false} PlannedPlain(host: Host)
    requires forall i :: 0 <= i < |host.services| ==> ';' !in host.services[i].unit
    ensures Plain(PlannedActions(host))
  {
    hide PlannedRestarts;
    PlainRestarts(host.services);
  }

  lemma {:induction false} EligibleKeeps(lastActions: map<string, int>, planned: seq<string>, now: int)
      returns (from: seq<nat>)
    ensures |from| == |Eligible(lastActions, planned, now)|
    ensures forall k :: 0 <= k < |from| ==>
      && from[k] < |planned| && Eligible(lastActions, planned, now)[k] == planned[from[k]]
      && now - EpochOf(lastActions, planned[from[k]]) >= COOLDOWN_SECONDS
    ensures forall k, m :: 0 <= k < m < |from| ==> from[k] < from[m]
  {
    from := [];
    if planned != [] {
      from := EligibleKeeps(lastActions, planned[..|planned| - 1], now);
      if now - EpochOf(lastActions, planned[|planned| - 1]) >= COOLDOWN_SECONDS { from := from + [|planned| - 1]; }
    }
  }

  /** What holds between two actions of a cycle; rest are the actions still to come. */
  ghost predicate Cool(progress: Progress, rest: seq<string>, now: int) {
    && Spaced(progress.receipts)
    && Covered(progress.receipts, LastActions(progress.stored))
    && Covered(progress.receipts, progress.record.lastActions)
    && forall i :: 0 <= i < |rest| ==> now - EpochOf(progress.record.lastActions, rest[i]) >= COOLDOWN_SECONDS
  }

  lemma {:induction false} SpacedMore(receipts: seq<Receipt>, lastActions: map<string, int>, receipt: Receipt)
    requires Spaced(receipts) && Covered(receipts, lastActions)
    requires receipt.epoch - EpochOf(lastActions, receipt.action) >= COOLDOWN_SECONDS
    ensures Spaced(receipts + [receipt])
    ensures Covered(receipts + [receipt], Stamped(lastActions, {receipt.action}, receipt.epoch))
  {
  }

  lemma {:induction false} AttemptKeepsCool(before: Progress, action: string, rest: seq<string>, try: Try, now: int)
    requires before.alive && Cool(before, [action] + rest, now) && try.epoch >= now
    requires Plain([action]) && action !in rest
    ensures var after := Attempted(before, action, try);
      && Spaced(after.receipts) && Covered(after.receipts, LastActions(after.stored))
      && (after.alive ==> Cool(after, rest, now))
  {
    assert Plain([action]) ==> [action][0] != "" && ';' !in [action][0];
    ReceiptReadBack(action, try.status);
    assert ([action] + rest)[0] == action;
    assert forall i :: 0 <= i < |rest| ==> ([action] + rest)[i + 1] == rest[i];
    SpacedMore(before.receipts, before.record.lastActions, Receipt(action, try.epoch));
    hide SuccessfulActions, ResultText, StatusText, Spaced, Covered;
    assert before.receipts + [] == before.receipts;
  }

  lemma {:induction false} AttemptsKeepCool(begin: Progress, eligible: seq<string>, tries: nat -> Try, k: nat, now: int)
    requires begin.alive && Cool(begin, eligible, now) && k <= |eligible|
    requires Distinct(eligible) && Plain(eligible) && forall i :: tries(i).epoch >= now
    ensures var after := Attempts(begin, eligible, tries, k);
      && Spaced(after.receipts) && Covered(after.receipts, LastActions(after.stored))
      && (after.alive ==> Cool(after, eligible[k..], now))
    decreases k
  {
    hide Attempted, Spaced, Covered;
    if k == 0 {
      assert eligible[0..] == eligible;
    } else {
      AttemptsKeepCool(begin, eligible, tries, k - 1, now);
      var before := Attempts(begin, eligible, tries, k - 1);
      if before.alive {
        assert eligible[k - 1..] == [eligible[k - 1]] + eligible[k..];
        assert forall i :: 0 <= i < |eligible[k..]| ==> eligible[k..][i] == eligible[k + i];
        hide Cool;
        AttemptKeepsCool(before, eligible[k - 1], eligible[k..], tries(k - 1), now);
      }
    }
  }

  lemma {:induction false} EligibleCool(system: System, cycle: Cycle)
    requires CooledDown(system) && Regular(cycle)
    ensures var eligible := EligibleIn(system.stored, cycle);
      Distinct(eligible) && Plain(eligible) && Cool(Begin(system, cycle.facts), eligible, cycle.now)
  {
    var planned := PlannedActions(cycle.facts.host);
    PlannedDistinct(cycle.facts.host);
    PlannedPlain(cycle.facts.host);
    hide PlannedActions, Eligible, Spaced, Covered;
    var from := EligibleKeeps(LastActions(system.stored), planned, cycle.now);
  }

  lemma {:induction false} CooldownStep(system: System, cycle: Cycle)
    requires CooledDown(system) && Regular(cycle)
    ensures CooledDown(After(system, cycle))
  {
    if !cycle.maintenance && Recovers(system.stored, cycle) {
      EligibleCool(system, cycle);
      var begin := Begin(system, cycle.facts);
      var eligible := EligibleIn(system.stored, cycle);
      hide Attempts, Spaced, Covered, SuccessfulActions, PlannedActions, Eligible, EligibleIn, Recovers;
      AttemptsKeepCool(begin, eligible, cycle.tries, |eligible|, cycle.now);
    }
  }

  /** In every run of regular cycles, two recorded successes of one action are at least 900 s apart. */
  lemma {:induction false} RecordedSuccessesSpaced(cycles: seq<Cycle>)
    requires forall i :: 0 <= i < |cycles| ==> Regular(cycles[i])
    ensures CooledDown(RunOf(Blank(), cycles))
  {
    hide Regular, CooledDown;
    if cycles != [] {
      RecordedSuccessesSpaced(cycles[..|cycles| - 1]);
      CooldownStep(RunOf(Blank(), cycles[..|cycles| - 1]), cycles[|cycles| - 1]);
    } else {
      BlankCooled();
    }
  }

  lemma {:induction false} BlankCooled()
    ensures CooledDown(Blank())
  {
  }

  /** When every action of a cycle runs and succeeds, each is recorded, in order. */
  lemma {:induction false} SuccessesRecorded(begin: Progress, eligible: seq<string>, tries: nat -> Try, k: nat)
    requires begin.alive && k <= |eligible|
    requires forall i :: 0 <= i < k ==> tries(i).fault == Go && tries(i).status == Done
    ensures Attempts(begin, eligible, tries, k).alive
    ensures Attempts(begin, eligible, tries, k).receipts
      == begin.receipts + seq(k, i requires 0 <= i < k => Receipt(eligible[i], tries(i).epoch))
    decreases k
  {
    hide WithResult;
    if k > 0 { SuccessesRecorded(begin, eligible, tries, k - 1); }
  }

  lemma {:induction false} CloseTogether(earlier: seq<Receipt>, more: seq<Receipt>, i: nat, j: nat)
    requires i < j < |more| && more[i].action == more[j].action
    requires more[j].epoch - more[i].epoch < COOLDOWN_SECONDS
    ensures !Spaced(earlier + more)
  {
    var all, n := earlier + more, |earlier|;
    assert all[n + i] == more[i] && all[n + j] == more[j];
  }

  /** Services that share a unit defeat the cooldown: when an action is eligible twice in one cycle
      and both of its runs succeed within 900 s, the recorded successes are no longer spaced. */
  lemma {:induction false} SharedUnitDefeatsCooldown(begin: Progress, eligible: seq<string>, tries: nat -> Try,
                                                     k: nat, i: nat, j: nat)
    requires begin.alive && i < j < k <= |eligible| && eligible[i] == eligible[j]
    requires forall m :: 0 <= m < k ==> tries(m).fault == Go && tries(m).status == Done
    requires tries(j).epoch - tries(i).epoch < COOLDOWN_SECONDS
    ensures !Spaced(Attempts(begin, eligible, tries, k).receipts)
  {
    SuccessesRecorded(begin, eligible, tries, k);
    hide Attempts, Spaced;
    var more := seq(k, m requires 0 <= m < k => Receipt(eligible[m], tries(m).epoch));
    CloseTogether(begin.receipts, more, i, j);
  }

  lemma {:induction false} EligibleMembers(lastActions: map<string, int>, planned: seq<string>, now: int,
                                           action: string)
    ensures action in Eligible(lastActions, planned, now)
      <==> action in planned && now - EpochOf(lastActions, action) >= COOLDOWN_SECONDS
  {
    if planned != [] {
      var shorter := planned[..|planned| - 1];
      EligibleMembers(lastActions, shorter, now, action);
      assert planned == shorter + [planned[|planned| - 1]];
    }
  }

  lemma {:induction false} DistinctMore(items: seq<string>, last: string)
    ensures Distinct(items + [last]) <==> Distinct(items) && last !in items
  {
    var more := items + [last];
    assert forall i :: 0 <= i < |items| ==> items[i] == more[i];
    assert more[|items|] == last;
    if last in items {
      var i :| 0 <= i < |items| && items[i] == last;
      assert more[i] == more[|items|];
    }
  }

  /** The eligible actions of a cycle repeat exactly when the plan repeats an action that has cooled
      down. */
  lemma {:induction false} EligibleRepeats(lastActions: map<string, int>, planned: seq<string>, now: int)
    ensures Distinct(Eligible(lastActions, planned, now)) <==>
      forall i, j :: 0 <= i < j < |planned| && planned[i] == planned[j] ==>
        now - EpochOf(lastActions, planned[i]) < COOLDOWN_SECONDS
  {
    if planned != [] {
      var n := |planned| - 1;
      var shorter := planned[..n];
      EligibleRepeats(lastActions, shorter, now);
      EligibleMembers(lastActions, shorter, now, planned[n]);
      DistinctMore(Eligible(lastActions, shorter, now), planned[n]);
      var cooled := now - EpochOf(lastActions, planned[n]) >= COOLDOWN_SECONDS;
      assert forall i :: 0 <= i < n ==> shorter[i] == planned[i];
      assert planned[n] in shorter <==> exists i :: 0 <= i < n && planned[i] == planned[n];
      if !cooled { assert Eligible(lastActions, planned, now) == Eligible(lastActions, shorter, now); }
    }
  }
}
