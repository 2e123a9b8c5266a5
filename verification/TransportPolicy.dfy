/** The failover policy of interserver_transport.py: one evaluation maps the
    previous state and a pair of probes to the next state.

    Times are integers in microseconds, the resolution of the source's datetimes.
    A Stamp keeps the text the source stores and the instant it parses to, if any. */
module TransportPolicy {
  import opened Wrappers
  import Octets

  const SECOND: int := 1_000_000
  const FAILURE_CONFIRMATIONS: int := 2
  const ALTERNATE_HEALTH_CONFIRMATIONS: int := 2
  const QUALITY_INTERVAL: int := 15 * SECOND
  const EVIDENCE_MAX_GAP: int := 10 * SECOND
  const RECOVERY_CONFIRMATIONS: int := 3
  const RECOVERY_MIN_SECONDS: int := 300
  const PREFERRED_MAX_GAP: int := 90 * SECOND
  const RETRY_BASE_SECONDS: int := 60
  const RETRY_MAX_SECONDS: int := 300
  const STABLE_RESET: int := 1800 * SECOND

  datatype Path = Wg | Hy2 | Unknown(tag: string)

  const PREFERRED: Path := Wg

  predicate Candidate(path: Path) { path.Wg? || path.Hy2? }

  function AlternateOf(path: Path): Path { if path.Wg? then Hy2 else Wg }

  datatype Stamp = Stamp(text: string, at: Option<int>)

  /** A key that is missing from a dictionary. */
  const NEVER: Stamp := Stamp("", None)

  /** A probe as the collector hands it over; None marks an absent key. The reasons are the
      categories the source derives from the error texts; the policy only compares them. */
  datatype RawProbe =
    | Missing
    | Raw(checked: Option<bool>, ok: bool, reason: string, cycleId: string,
          healthConfirmed: bool, qualityChecked: Option<bool>, qualitySampled: bool,
          qualityOk: Option<bool>, qualityReason: string)

  datatype Probe = Probe(checked: bool, ok: bool, reason: string, cycleId: string, healthConfirmed: bool,
                         qualityChecked: Option<bool>, qualitySampled: bool, qualityOk: Option<bool>,
                         qualityReason: string)

  datatype Probes = Probes(wg: Probe, hy2: Probe) {
    function Of(path: Path): Probe { if path.Wg? then wg else hy2 }
  }

  datatype Evidence = Evidence(path: Path, reason: string, confirmations: int, cycleIds: seq<string>,
                               observedAt: Stamp, sampledAt: Stamp, startedAt: Stamp, continuousSeconds: int)

  datatype Retry = Retry(path: Path, attempts: int, failedAt: Stamp, retryAt: Stamp,
                         recoveredAt: Stamp, reason: string)

  datatype Status = Failed | Suspect | Inconclusive | Degraded | Recovering | Healthy | Maintenance

  datatype State = State(updatedAt: Stamp, status: Status, selected: Path, recommended: Path, wouldSwitch: bool,
                         hardFailure: bool, failure: Option<Evidence>, alternateHealth: Option<Evidence>,
                         qualityFailure: Option<Evidence>, preferredRecovery: Option<Evidence>,
                         preferredProbeAt: Stamp, preferredRetry: Option<Retry>)

  /** The empty dictionary: no earlier state, or one of another schema. */
  const BLANK: State :=
    State(NEVER, Inconclusive, Unknown(""), Unknown(""), false, false, None, None, None, None, NEVER, None)

  datatype Relation = Reset | Same | Next

  // ---- Probe normalization ---------------------------------------------------

  function Normalize(raw: RawProbe): Probe {
    match raw
    case Missing => Probe(false, false, "", "", false, None, false, None, "")
    case Raw(checked, ok, reason, id, healthy, qc, qs, qo, qualityReason) =>
      var c := checked.None? || checked.value;
      Probe(c, c && ok, reason, id, healthy, qc, qs, qo, qualityReason)
  }

  function SelectedQuality(probe: Probe): Status {
    if probe.qualityChecked == Some(false) then Inconclusive
    else if probe.qualityChecked == Some(true) && probe.qualityOk == Some(false) then Degraded
    else Healthy
  }

  // ---- Evidence ------------------------------------------------------------

  function CycleRelation(previous: Stamp, current: Stamp, maxGap: int): Relation {
    if previous.at.None? || current.at.None? then Reset
    else
      var gap := current.at.value - previous.at.value;
      if gap == 0 then Same else if 0 < gap <= maxGap then Next else Reset
  }

  /** Whether the stored evidence and the new observation belong to one chain. */
  predicate Continues(prior: Option<Evidence>, path: Path, reason: string, relation: Relation, at: Stamp, maxGap: int) {
    && prior.Some?
    && prior.value.path == path && prior.value.reason == reason
    && relation != Reset
    && CycleRelation(prior.value.observedAt, at, maxGap) != Reset
  }

  function CycleIdOf(cycleId: string, at: Stamp): string { if cycleId == "" then at.text else cycleId }

  function LastThree(ids: seq<string>): seq<string> { if |ids| > 3 then ids[|ids| - 3..] else ids }

  function NextEvidence(prior: Option<Evidence>, path: Path, reason: string, relation: Relation,
                        at: Stamp, cycleId: string, maxGap: int): Evidence
  {
    var continuous := Continues(prior, path, reason, relation, at, maxGap);
    var id := CycleIdOf(cycleId, at);
    var ids := if continuous then prior.value.cycleIds else [];
    var count := if continuous then Max(1, prior.value.confirmations) else 1;
    var replayed := id in ids;
    var counted := continuous && relation == Next && !replayed
                   && CycleRelation(prior.value.observedAt, at, maxGap) == Next;
    Evidence(path, reason, if counted then count + 1 else count,
             LastThree(if replayed then ids else ids + [id]),
             if replayed then prior.value.observedAt else at, NEVER, NEVER, 0)
  }

  /** The evidence for leaving a degraded path, and whether it is confirmed. */
  function QualitySwitchEvidence(selected: Path, selectedProbe: Probe, alternateProbe: Probe,
                                 previous: Option<Evidence>, at: Stamp): (Option<Evidence>, bool)
  {
    var reason := selectedProbe.qualityReason;
    var prior := if previous.Some? && previous.value.path == selected && previous.value.reason == reason
                 then previous else None;
    var sampledAt := if prior.Some? then prior.value.sampledAt else NEVER;
    var relation := CycleRelation(sampledAt, at, 3 * QUALITY_INTERVAL);
    var healthy := alternateProbe.ok && alternateProbe.healthConfirmed
                   && alternateProbe.qualityChecked == Some(true) && alternateProbe.qualityOk == Some(true);
    if alternateProbe.checked && !healthy then (None, false)
    else if !selectedProbe.qualitySampled then (if relation != Reset then prior else None, false)
    else if !healthy then (None, false)
    else if sampledAt.at.Some? && at.at.Some? && 0 <= at.at.value - sampledAt.at.value < QUALITY_INTERVAL then
      (prior, false)
    else
      var next := NextEvidence(prior, selected, reason, relation, at, selectedProbe.cycleId, 3 * QUALITY_INTERVAL);
      var evidence := next.(sampledAt := at);
      (Some(evidence), evidence.confirmations >= Max(FAILURE_CONFIRMATIONS, ALTERNATE_HEALTH_CONFIRMATIONS))
  }

  // ---- The retry clock of the preferred path --------------------------------

  predicate RetryActive(retry: Option<Retry>, at: Stamp) {
    && retry.Some? && retry.value.path == PREFERRED
    && retry.value.retryAt.at.Some? && at.at.Some?
    && at.at.value < retry.value.retryAt.at.value
  }

  function RetryDelay(attempts: int): int {
    Min(RETRY_MAX_SECONDS, RETRY_BASE_SECONDS * Octets.Pow2(if attempts >= 1 then Min(attempts - 1, 8) else 0))
  }

  function NextAttempts(prior: Option<Retry>, observed: int): int {
    if prior.Some? && prior.value.path == PREFERRED
       && (prior.value.recoveredAt.at.None? || observed - prior.value.recoveredAt.at.value < STABLE_RESET)
    then Max(0, prior.value.attempts) + 1 else 1
  }

  /** wallClock stands in for the current time when observed_at does not parse. */
  function NextRetry(prior: Option<Retry>, reason: string, at: Stamp, wallClock: int): Retry {
    var observed := if at.at.Some? then at.at.value else wallClock;
    var attempts := NextAttempts(prior, observed);
    Retry(PREFERRED, attempts, at, Stamp("iso", Some(observed + RetryDelay(attempts) * SECOND)), NEVER, reason)
  }

  function RecoveryDetails(retry: Option<Retry>, at: Stamp, markRecovered: bool): Option<Retry> {
    if retry.None? || retry.value.path != PREFERRED then None
    else
      var marked := if markRecovered && retry.value.recoveredAt.at.None? && at.at.Some?
                    then retry.value.(recoveredAt := at) else retry.value;
      if marked.recoveredAt.at.Some? && at.at.Some? && at.at.value - marked.recoveredAt.at.value >= STABLE_RESET
      then None else Some(marked)
  }

  // ---- Evaluation ------------------------------------------------------------

  function PolicyState(selected: Path, at: Stamp, status: Status, recommended: Path, hardFailure: bool): State {
    State(at, status, selected, recommended, recommended != selected, hardFailure,
          None, None, None, None, NEVER, None)
  }

  /** The part of the previous state that still speaks about the selected path. */
  function PriorOf(previous: State, selected: Path, at: Stamp): State {
    if previous.selected == selected && !(previous.status.Failed? && previous.wouldSwitch) then previous
    else BLANK.(preferredRetry := RecoveryDetails(previous.preferredRetry, at, false))
  }

  function EvaluateFailure(selected: Path, probes: Probes, prior: State, at: Stamp, wallClock: int): State
    requires Candidate(selected)
  {
    var alternate := AlternateOf(selected);
    var reason := probes.Of(selected).reason;
    var relation := CycleRelation(prior.updatedAt, at, EVIDENCE_MAX_GAP);
    var failure := NextEvidence(prior.failure, selected, reason, relation, at,
                                probes.Of(selected).cycleId, EVIDENCE_MAX_GAP);
    var confirmed := failure.confirmations >= FAILURE_CONFIRMATIONS;
    var kept := RecoveryDetails(prior.preferredRetry, at, false);
    if probes.Of(alternate).ok then
      var health := NextEvidence(prior.alternateHealth, alternate, "healthy", relation, at,
                                 probes.Of(alternate).cycleId, EVIDENCE_MAX_GAP);
      if confirmed && health.confirmations >= ALTERNATE_HEALTH_CONFIRMATIONS then
        PolicyState(selected, at, Recovering, alternate, confirmed)
          .(failure := Some(failure), alternateHealth := Some(health),
            preferredRetry := if selected == PREFERRED
                              then Some(NextRetry(prior.preferredRetry, reason, at, wallClock)) else kept)
      else
        PolicyState(selected, at, Suspect, selected, confirmed)
          .(failure := Some(failure), alternateHealth := Some(health), preferredRetry := kept)
    else
      PolicyState(selected, at, if confirmed then Failed else Suspect, selected, confirmed)
        .(failure := Some(failure), preferredRetry := kept)
  }

  /** preferred_probe_at as the inconclusive and degraded branches maintain it. */
  function ProbeClock(selected: Path, probes: Probes, prior: State, at: Stamp): Stamp {
    if selected == PREFERRED then NEVER
    else if probes.Of(PREFERRED).checked then at else prior.preferredProbeAt
  }

  function EvaluateInconclusive(selected: Path, probes: Probes, prior: State, at: Stamp): State {
    PolicyState(selected, at, Inconclusive, selected, false)
      .(preferredRetry := RecoveryDetails(prior.preferredRetry, at, false),
        preferredProbeAt := ProbeClock(selected, probes, prior, at))
  }

  /** Why a probe of the preferred path counts against it, if it does. */
  function PreferredFailure(probe: Probe): Option<string> {
    if !probe.ok then Some(probe.reason)
    else if probe.qualityChecked == Some(true) && probe.qualityOk == Some(false) then Some(probe.qualityReason)
    else None
  }

  /** The retry entry a degraded cycle leaves behind before any switch is decided. */
  function DegradedRetry(selected: Path, probes: Probes, prior: State, at: Stamp, wallClock: int): Option<Retry> {
    if selected != PREFERRED && probes.Of(PREFERRED).checked && PreferredFailure(probes.Of(PREFERRED)).Some?
    then Some(NextRetry(prior.preferredRetry, PreferredFailure(probes.Of(PREFERRED)).value, at, wallClock))
    else RecoveryDetails(prior.preferredRetry, at, false)
  }

  function EvaluateDegraded(selected: Path, probes: Probes, prior: State, at: Stamp, wallClock: int): State
    requires Candidate(selected)
  {
    var alternate := AlternateOf(selected);
    var (evidence, confirmed) :=
      QualitySwitchEvidence(selected, probes.Of(selected), probes.Of(alternate), prior.qualityFailure, at);
    var retry := DegradedRetry(selected, probes, prior, at, wallClock);
    var base := PolicyState(selected, at, Degraded, selected, false)
                  .(qualityFailure := evidence, preferredRetry := retry,
                    preferredProbeAt := ProbeClock(selected, probes, prior, at));
    if confirmed && evidence.Some? && !(selected != PREFERRED && RetryActive(retry, at)) then
      base.(status := Recovering, recommended := alternate, wouldSwitch := true,
            preferredRetry :=
              if selected == PREFERRED then Some(NextRetry(prior.preferredRetry, evidence.value.reason, at, wallClock))
              else
                var marked := RecoveryDetails(prior.preferredRetry, at, true);
                if marked.Some? then marked else retry)
    else base
  }

  function EvaluatePreferredHealthy(prior: State, at: Stamp): State {
    PolicyState(PREFERRED, at, Healthy, PREFERRED, false)
      .(preferredRetry := RecoveryDetails(prior.preferredRetry, at, true))
  }

  function SecondsBetween(started: Stamp, at: Stamp): int {
    if started.at.Some? && at.at.Some? && at.at.value >= started.at.value
    then (at.at.value - started.at.value) / SECOND else 0
  }

  function NextRecovery(prior: State, probe: Probe, at: Stamp): Evidence {
    var relation := CycleRelation(prior.preferredProbeAt, at, PREFERRED_MAX_GAP);
    var next := NextEvidence(prior.preferredRecovery, PREFERRED, "healthy", relation, at, probe.cycleId,
                             PREFERRED_MAX_GAP);
    var continuous := Continues(prior.preferredRecovery, PREFERRED, "healthy", relation, at, PREFERRED_MAX_GAP);
    var started := if continuous && prior.preferredRecovery.value.startedAt.text != ""
                   then prior.preferredRecovery.value.startedAt else at;
    next.(startedAt := started, continuousSeconds := SecondsBetween(started, at))
  }

  function EvaluateFallbackHealthy(probes: Probes, prior: State, at: Stamp, wallClock: int): State {
    var probe := probes.Of(PREFERRED);
    var kept := RecoveryDetails(prior.preferredRetry, at, false);
    if !probe.checked then
      PolicyState(Hy2, at, Healthy, Hy2, false)
        .(preferredRetry := kept, preferredRecovery := prior.preferredRecovery,
          preferredProbeAt := prior.preferredProbeAt)
    else if PreferredFailure(probe).Some? then
      PolicyState(Hy2, at, Healthy, Hy2, false)
        .(preferredProbeAt := at,
          preferredRetry := Some(NextRetry(prior.preferredRetry, PreferredFailure(probe).value, at, wallClock)))
    else
      var recovery := NextRecovery(prior, probe, at);
      var confirmed := recovery.confirmations >= RECOVERY_CONFIRMATIONS
                       && recovery.continuousSeconds >= RECOVERY_MIN_SECONDS;
      PolicyState(Hy2, at, Recovering, if confirmed then PREFERRED else Hy2, false)
        .(preferredProbeAt := at, preferredRecovery := Some(recovery),
          preferredRetry := if confirmed && kept.Some? then Some(kept.value.(recoveredAt := at)) else kept)
  }

  function Evaluate(selected: Path, probes: Probes, previous: State, at: Stamp, wallClock: int): State {
    if !Candidate(selected) then PolicyState(selected, at, Failed, selected, false)
    else
      var prior := PriorOf(previous, selected, at);
      var probe := probes.Of(selected);
      if !probe.checked then PolicyState(selected, at, Inconclusive, selected, false)
      else if !probe.ok then EvaluateFailure(selected, probes, prior, at, wallClock)
      else match SelectedQuality(probe)
        case Inconclusive => EvaluateInconclusive(selected, probes, prior, at)
        case Degraded => EvaluateDegraded(selected, probes, prior, at, wallClock)
        case _ =>
          if selected == PREFERRED then EvaluatePreferredHealthy(prior, at)
          else EvaluateFallbackHealthy(probes, prior, at, wallClock)
  }
}
