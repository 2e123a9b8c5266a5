/** Whole runs of the failover policy: every stored state is fed back as `previous`.

    A run is an arbitrary sequence of cycles. Between the evaluation and the write the
    reconcile loop may withhold a decision (Kept with other values), drop all evidence after
    an activation attempt (Reopened), lose the evaluation to an exception that escapes the
    activation (Lost), or write a failed or maintenance observation without evaluating at all
    (Unobserved). */
module PolicyRuns {
  import opened Wrappers
  import Octets
  import opened TransportPolicy

  datatype Aftermath =
    | Kept(status: Status, recommended: Path, wouldSwitch: bool)
    | Reopened(selected: Path, status: Status, recommended: Path)
    | Lost(at: Stamp)

  datatype Cycle =
    | Observed(selected: Path, wg: RawProbe, hy2: RawProbe, at: Stamp, wallClock: int, after: Aftermath)
    | Unobserved(selected: Path, at: Stamp, status: Status)

  /** A failed or maintenance observation keeps the retry clock of the state before it. */
  function Observation(previous: State, selected: Path, at: Stamp, status: Status): State {
    PolicyState(selected, at, status, selected, false).(preferredRetry := previous.preferredRetry)
  }

  function Stored(previous: State, evaluated: State, after: Aftermath): State {
    match after
    case Lost(at) => Observation(previous, Unknown(""), at, Failed)
    case Kept(status, recommended, wouldSwitch) =>
      evaluated.(status := status, recommended := recommended, wouldSwitch := wouldSwitch)
    case Reopened(selected, status, recommended) =>
      evaluated.(selected := selected, status := status, recommended := recommended, wouldSwitch := false,
                 failure := None, alternateHealth := None, qualityFailure := None, preferredRecovery := None)
  }

  /** The state file before cycle k. */
  function StateAt(run: seq<Cycle>, k: nat): State
    requires k <= |run|
    decreases k, 0
  {
    if k == 0 then BLANK
    else match run[k - 1]
      case Observed(_, _, _, _, _, after) => Stored(StateAt(run, k - 1), Evaluated(run, k - 1), after)
      case Unobserved(selected, at, status) => Observation(StateAt(run, k - 1), selected, at, status)
  }

  /** What the policy answers in cycle k. */
  function Evaluated(run: seq<Cycle>, k: nat): State
    requires k < |run| && run[k].Observed?
    decreases k, 1
  {
    Evaluate(run[k].selected, ProbesAt(run, k), StateAt(run, k), run[k].at, run[k].wallClock)
  }

  function ProbesAt(run: seq<Cycle>, k: nat): Probes
    requires k < |run| && run[k].Observed?
  {
    Probes(Normalize(run[k].wg), Normalize(run[k].hy2))
  }

  // ---- Samples: what a piece of evidence stands for ---------------------------

  datatype Sample = Sample(at: Stamp, id: string)

  function SampleAt(run: seq<Cycle>, k: nat, path: Path): Sample
    requires k < |run| && run[k].Observed?
  {
    Sample(run[k].at, CycleIdOf(ProbesAt(run, k).Of(path).cycleId, run[k].at))
  }

  predicate Linked(earlier: Stamp, later: Stamp, maxGap: int) {
    earlier.at.Some? && later.at.Some? && 0 <= later.at.value - earlier.at.value <= maxGap
  }

  predicate Before(earlier: Stamp, later: Stamp) {
    earlier.at.Some? && later.at.Some? && earlier.at.value < later.at.value
  }

  /** Successive samples are at most maxGap apart and never go back in time. */
  ghost predicate Chained(trail: seq<Sample>, maxGap: int) {
    forall i :: 0 < i < |trail| ==> Linked(trail[i - 1].at, trail[i].at, maxGap)
  }

  ghost predicate NoRepeats(ids: seq<string>) {
    forall i, j :: 0 <= i < j < |ids| ==> ids[i] != ids[j]
  }

  ghost predicate Named(trail: seq<Sample>, id: string) {
    exists a :: 0 <= a < |trail| && trail[a].id == id
  }

  ghost predicate TwoCycles(trail: seq<Sample>) {
    exists a, b :: 0 <= a < b < |trail| && trail[a].id != trail[b].id && Before(trail[a].at, trail[b].at)
  }

  ghost predicate ThreeCycleIds(trail: seq<Sample>) {
    exists a, b, c :: 0 <= a < |trail| && 0 <= b < |trail| && 0 <= c < |trail|
      && trail[a].id != trail[b].id && trail[b].id != trail[c].id && trail[a].id != trail[c].id
  }

  /** The evidence never claims more confirmations than its samples support. */
  ghost predicate Backed(e: Evidence, trail: seq<Sample>) {
    && trail != []
    && 1 <= e.confirmations && 1 <= |e.cycleIds| <= 3
    && Min(e.confirmations, 3) <= |e.cycleIds|
    && NoRepeats(e.cycleIds)
    && (forall id :: id in e.cycleIds ==> Named(trail, id))
    && (e.confirmations >= 2 ==> TwoCycles(trail))
  }

  lemma {:induction false} ChainMonotone(trail: seq<Sample>, maxGap: int, a: nat, b: nat)
    requires Chained(trail, maxGap) && a < b < |trail|
    ensures trail[a].at.at.Some? && trail[b].at.at.Some? && trail[a].at.at.value <= trail[b].at.at.value
    decreases b
  {
    assert Linked(trail[b - 1].at, trail[b].at, maxGap);
    if a < b - 1 { ChainMonotone(trail, maxGap, a, b - 1); }
  }

  /** Fresh evidence rests on the one sample it was made from. */
  lemma {:induction false} FreshBacked(prior: Option<Evidence>, path: Path, reason: string, relation: Relation,
                    at: Stamp, cycleId: string, maxGap: int)
    requires !Continues(prior, path, reason, relation, at, maxGap)
    ensures var trail := [Sample(at, CycleIdOf(cycleId, at))];
      Backed(NextEvidence(prior, path, reason, relation, at, cycleId, maxGap), trail)
      && Chained(trail, maxGap)
  {
    var trail := [Sample(at, CycleIdOf(cycleId, at))];
    assert trail[0].id == CycleIdOf(cycleId, at);
    assert Named(trail, CycleIdOf(cycleId, at));
  }

  lemma {:induction false} ChainExtends(trail: seq<Sample>, sample: Sample, maxGap: int)
    requires trail != [] && Chained(trail, maxGap) && Linked(trail[|trail| - 1].at, sample.at, maxGap)
    ensures Chained(trail + [sample], maxGap)
  {
    var longer := trail + [sample];
    forall i | 0 < i < |longer| ensures Linked(longer[i - 1].at, longer[i].at, maxGap) {
      if i < |trail| { assert Linked(trail[i - 1].at, trail[i].at, maxGap); }
    }
  }

  lemma {:induction false} NamedExtends(trail: seq<Sample>, sample: Sample, id: string)
    requires Named(trail, id) || id == sample.id
    ensures Named(trail + [sample], id)
  {
    var longer := trail + [sample];
    if Named(trail, id) {
      var a :| 0 <= a < |trail| && trail[a].id == id;
      assert longer[a].id == id;
    } else {
      assert longer[|trail|].id == id;
    }
  }

  lemma {:induction false} TwoCyclesExtend(trail: seq<Sample>, sample: Sample)
    requires TwoCycles(trail)
    ensures TwoCycles(trail + [sample])
  {
    var longer := trail + [sample];
    var a, b :| 0 <= a < b < |trail| && trail[a].id != trail[b].id && Before(trail[a].at, trail[b].at);
    assert longer[a].id != longer[b].id && Before(longer[a].at, longer[b].at);
  }

  /** A later sample with an identifier other than a named one makes two cycles. */
  lemma {:induction false} SecondCycle(trail: seq<Sample>, sample: Sample, id: string, maxGap: int)
    requires Named(trail, id) && id != sample.id && Chained(trail, maxGap)
    requires Before(trail[|trail| - 1].at, sample.at)
    ensures TwoCycles(trail + [sample])
  {
    var longer := trail + [sample];
    var n := |trail|;
    var a :| 0 <= a < n && trail[a].id == id;
    if a < n - 1 { ChainMonotone(trail, maxGap, a, n - 1); }
    assert longer[a].id != longer[n].id && Before(longer[a].at, longer[n].at);
  }

  /** One more sample in a chain: one more confirmation exactly for an unseen cycle at a later time
      than the state and the evidence, and none otherwise, in particular not for a replay. */
  lemma {:induction false} ExtendBacked(prior: Evidence, trail: seq<Sample>, path: Path, reason: string,
                                        relation: Relation, at: Stamp, cycleId: string, maxGap: int)
    requires Backed(prior, trail) && Chained(trail, maxGap) && 0 <= maxGap
    requires relation == CycleRelation(trail[|trail| - 1].at, at, maxGap)
    requires Continues(Some(prior), path, reason, relation, at, maxGap)
    ensures var longer := trail + [Sample(at, CycleIdOf(cycleId, at))];
      Backed(NextEvidence(Some(prior), path, reason, relation, at, cycleId, maxGap), longer)
      && Chained(longer, maxGap)
    ensures NextEvidence(Some(prior), path, reason, relation, at, cycleId, maxGap).confirmations == prior.confirmations
      + if CycleIdOf(cycleId, at) !in prior.cycleIds && relation == Next && Before(prior.observedAt, at) then 1 else 0
  {
    var sample := Sample(at, CycleIdOf(cycleId, at));
    var e := NextEvidence(Some(prior), path, reason, relation, at, cycleId, maxGap);
    hide Chained, Named, TwoCycles;
    ChainExtends(trail, sample, maxGap);
    forall id | id in e.cycleIds ensures Named(trail + [sample], id) {
      NamedExtends(trail, sample, id);
    }
    if prior.confirmations >= 2 {
      TwoCyclesExtend(trail, sample);
    } else if e.confirmations >= 2 {
      SecondCycle(trail, sample, prior.cycleIds[0], maxGap);
    }
  }

  // ---- Hard-failure failover -----------------------------------------------------

  predicate FailsAt(run: seq<Cycle>, k: nat, path: Path, reason: string)
    requires k < |run|
  {
    && run[k].Observed? && run[k].selected == path && Candidate(path)
    && var probe := ProbesAt(run, k).Of(path);
    probe.checked && !probe.ok && probe.reason == reason
  }

  predicate AlternateOkAt(run: seq<Cycle>, k: nat, path: Path)
    requires k < |run|
  {
    run[k].Observed? && run[k].selected == path && ProbesAt(run, k).Of(AlternateOf(path)).ok
  }

  /** Cycles i to k without a reset: the selected path fails for one reason throughout and
      every cycle is at most ten seconds after the previous one. */
  ghost predicate FailureStretch(run: seq<Cycle>, i: nat, k: nat, path: Path, reason: string) {
    && i <= k < |run|
    && (forall j :: i <= j <= k ==> FailsAt(run, j, path, reason))
    && Chained(Trail(run, i, k, path), EVIDENCE_MAX_GAP)
  }

  ghost predicate AlternateStretch(run: seq<Cycle>, i: nat, k: nat, path: Path) {
    && i <= k < |run|
    && (forall j :: i <= j <= k ==> AlternateOkAt(run, j, path))
    && Chained(Trail(run, i, k, AlternateOf(path)), EVIDENCE_MAX_GAP)
  }

  /** The samples of one path in cycles i to k. */
  function Trail(run: seq<Cycle>, i: nat, k: nat, path: Path): seq<Sample>
    requires i <= k < |run|
  {
    (if i < k then Trail(run, i, k - 1, path) else [])
    + (if run[k].Observed? then [SampleAt(run, k, path)] else [])
  }

  /** What one evaluation does to the failure evidence. */
  lemma {:induction false} FailureStep(selected: Path, probes: Probes, previous: State, at: Stamp, wallClock: int)
    requires Evaluate(selected, probes, previous, at, wallClock).failure.Some?
    ensures Candidate(selected) && probes.Of(selected).checked && !probes.Of(selected).ok
    ensures var prior := PriorOf(previous, selected, at);
      Evaluate(selected, probes, previous, at, wallClock).failure.value
      == NextEvidence(prior.failure, selected, probes.Of(selected).reason,
                      CycleRelation(prior.updatedAt, at, EVIDENCE_MAX_GAP), at,
                      probes.Of(selected).cycleId, EVIDENCE_MAX_GAP)
  {
  }

  /** What one evaluation does to the evidence about the other path. */
  lemma {:induction false} AlternateStep(selected: Path, probes: Probes, previous: State, at: Stamp, wallClock: int)
    requires Evaluate(selected, probes, previous, at, wallClock).alternateHealth.Some?
    ensures Candidate(selected) && probes.Of(AlternateOf(selected)).ok
    ensures var prior := PriorOf(previous, selected, at);
      Evaluate(selected, probes, previous, at, wallClock).alternateHealth.value
      == NextEvidence(prior.alternateHealth, AlternateOf(selected), "healthy",
                      CycleRelation(prior.updatedAt, at, EVIDENCE_MAX_GAP), at,
                      probes.Of(AlternateOf(selected)).cycleId, EVIDENCE_MAX_GAP)
  {
    hide NextEvidence, NextRetry, RecoveryDetails, QualitySwitchEvidence, NextRecovery, PriorOf;
  }

  lemma {:induction false} EvaluationKeepsSelected(selected: Path, probes: Probes, previous: State, at: Stamp,
                                                   wallClock: int)
    ensures var e := Evaluate(selected, probes, previous, at, wallClock);
      && e.selected == selected && e.updatedAt == at && e.wouldSwitch == (e.recommended != selected)
      && (e.wouldSwitch ==> Candidate(selected) && e.recommended == AlternateOf(selected))
  {
    hide NextEvidence, NextRetry, RecoveryDetails, QualitySwitchEvidence, NextRecovery;
  }

  /** Evidence in the state file was put there by the evaluation of the previous cycle. */
  lemma {:induction false} EvidenceOrigin(run: seq<Cycle>, k: nat)
    requires k <= |run|
    requires StateAt(run, k).failure.Some? || StateAt(run, k).alternateHealth.Some?
             || StateAt(run, k).preferredRecovery.Some? || StateAt(run, k).qualityFailure.Some?
    ensures k > 0 && run[k - 1].Observed? && run[k - 1].after.Kept?
    ensures var e := Evaluated(run, k - 1);
      StateAt(run, k) == e.(status := StateAt(run, k).status, recommended := StateAt(run, k).recommended,
                            wouldSwitch := StateAt(run, k).wouldSwitch)
    ensures Evaluated(run, k - 1).selected == run[k - 1].selected && Evaluated(run, k - 1).updatedAt == run[k - 1].at
  {
    hide Evaluate;
    assert k > 0;
    assert run[k - 1].Observed?;
    EvaluationKeepsSelected(run[k - 1].selected, ProbesAt(run, k - 1), StateAt(run, k - 1), run[k - 1].at,
                            run[k - 1].wallClock);
  }

  lemma {:induction false} FailureTrail(run: seq<Cycle>, k: nat) returns (i: nat)
    requires k < |run| && run[k].Observed? && Evaluated(run, k).failure.Some?
    ensures var e := Evaluated(run, k).failure.value;
      FailureStretch(run, i, k, run[k].selected, e.reason) && e.path == run[k].selected
      && Backed(e, Trail(run, i, k, run[k].selected))
  {
    hide Evaluate, Backed;
    var path := run[k].selected;
    FailureStep(path, ProbesAt(run, k), StateAt(run, k), run[k].at, run[k].wallClock);
    var prior := PriorOf(StateAt(run, k), path, run[k].at);
    var reason := ProbesAt(run, k).Of(path).reason;
    var relation := CycleRelation(prior.updatedAt, run[k].at, EVIDENCE_MAX_GAP);
    var id := ProbesAt(run, k).Of(path).cycleId;
    if Continues(prior.failure, path, reason, relation, run[k].at, EVIDENCE_MAX_GAP) {
      EvidenceOrigin(run, k);
      i := FailureTrail(run, k - 1);
      var trail := Trail(run, i, k - 1, path);
      assert trail[|trail| - 1] == SampleAt(run, k - 1, path);
      ExtendBacked(prior.failure.value, trail, path, reason, relation, run[k].at, id, EVIDENCE_MAX_GAP);
      assert Trail(run, i, k, path) == trail + [SampleAt(run, k, path)];
    } else {
      i := k;
      FreshBacked(prior.failure, path, reason, relation, run[k].at, id, EVIDENCE_MAX_GAP);
      assert Trail(run, i, k, path) == [SampleAt(run, k, path)];
    }
  }

  lemma {:induction false} AlternateTrail(run: seq<Cycle>, k: nat) returns (i: nat)
    requires k < |run| && run[k].Observed? && Evaluated(run, k).alternateHealth.Some?
    ensures AlternateStretch(run, i, k, run[k].selected)
    ensures Backed(Evaluated(run, k).alternateHealth.value, Trail(run, i, k, AlternateOf(run[k].selected)))
  {
    hide Evaluate, Backed;
    var path := run[k].selected;
    var other := AlternateOf(path);
    AlternateStep(path, ProbesAt(run, k), StateAt(run, k), run[k].at, run[k].wallClock);
    var prior := PriorOf(StateAt(run, k), path, run[k].at);
    var relation := CycleRelation(prior.updatedAt, run[k].at, EVIDENCE_MAX_GAP);
    var id := ProbesAt(run, k).Of(other).cycleId;
    if Continues(prior.alternateHealth, other, "healthy", relation, run[k].at, EVIDENCE_MAX_GAP) {
      EvidenceOrigin(run, k);
      i := AlternateTrail(run, k - 1);
      var trail := Trail(run, i, k - 1, other);
      assert trail[|trail| - 1] == SampleAt(run, k - 1, other);
      ExtendBacked(prior.alternateHealth.value, trail, other, "healthy", relation, run[k].at, id, EVIDENCE_MAX_GAP);
      assert Trail(run, i, k, other) == trail + [SampleAt(run, k, other)];
    } else {
      i := k;
      FreshBacked(prior.alternateHealth, other, "healthy", relation, run[k].at, id, EVIDENCE_MAX_GAP);
      assert Trail(run, i, k, other) == [SampleAt(run, k, other)];
    }
  }

  /** A hard-failure recommendation is always backed by two distinct cycles at strictly
      increasing times in which the selected path failed for one same reason, and by two in
      which the other path was healthy, with no gap above ten seconds in either chain. */
  lemma {:induction false} FailoverNeedsEvidence(run: seq<Cycle>, k: nat)
    requires k < |run| && run[k].Observed?
    requires Evaluated(run, k).wouldSwitch && Evaluated(run, k).hardFailure
    ensures Evaluated(run, k).recommended == AlternateOf(run[k].selected)
    ensures exists i, reason :: FailureStretch(run, i, k, run[k].selected, reason)
                                && TwoCycles(Trail(run, i, k, run[k].selected))
    ensures exists i :: AlternateStretch(run, i, k, run[k].selected)
                        && TwoCycles(Trail(run, i, k, AlternateOf(run[k].selected)))
  {
    var i := FailureTrail(run, k);
    var j := AlternateTrail(run, k);
  }

  /** Cycle identifiers name one observation each, as the reconcile loop builds them. */
  ghost predicate FreshIds(run: seq<Cycle>, path: Path) {
    forall j, k :: 0 <= j < k < |run| && run[j].Observed? && run[k].Observed? ==>
      SampleAt(run, j, path).id != SampleAt(run, k, path).id
  }

  lemma {:induction false} TrailElement(run: seq<Cycle>, i: nat, k: nat, path: Path, a: nat) returns (j: nat)
    requires i <= k < |run| && a < |Trail(run, i, k, path)|
    ensures i <= j <= k && run[j].Observed? && Trail(run, i, k, path)[a] == SampleAt(run, j, path)
  {
    if i < k && a < |Trail(run, i, k - 1, path)| {
      j := TrailElement(run, i, k - 1, path, a);
    } else {
      j := k;
    }
  }

  /** With fresh identifiers nothing in a chain is mistaken for a replay. */
  lemma {:induction false} NotReplayed(run: seq<Cycle>, i: nat, k: nat, path: Path, e: Evidence)
    requires i <= k && k + 1 < |run| && run[k + 1].Observed? && FreshIds(run, path)
    requires Backed(e, Trail(run, i, k, path))
    ensures SampleAt(run, k + 1, path).id !in e.cycleIds
  {
    var trail := Trail(run, i, k, path);
    forall id | id in e.cycleIds ensures id != SampleAt(run, k + 1, path).id {
      assert Named(trail, id);
      var a :| 0 <= a < |trail| && trail[a].id == id;
      var j := TrailElement(run, i, k, path, a);
    }
  }

  lemma {:induction false} FreshFailure(run: seq<Cycle>, k: nat)
    requires k < |run| && run[k].Observed? && FreshIds(run, run[k].selected)
    requires Evaluated(run, k).failure.Some?
    ensures StateAt(run, k).failure.Some? && StateAt(run, k).selected == run[k].selected ==>
      SampleAt(run, k, run[k].selected).id !in StateAt(run, k).failure.value.cycleIds
    ensures Evaluated(run, k).failure.value.observedAt == run[k].at
  {
    hide Evaluate, Backed;
    var path := run[k].selected;
    FailureStep(path, ProbesAt(run, k), StateAt(run, k), run[k].at, run[k].wallClock);
    if StateAt(run, k).failure.Some? && StateAt(run, k).selected == path {
      EvidenceOrigin(run, k);
      var i := FailureTrail(run, k - 1);
      NotReplayed(run, i, k - 1, path, StateAt(run, k).failure.value);
    }
  }

  lemma {:induction false} FreshAlternate(run: seq<Cycle>, k: nat)
    requires k < |run| && run[k].Observed? && FreshIds(run, AlternateOf(run[k].selected))
    requires Evaluated(run, k).alternateHealth.Some?
    ensures StateAt(run, k).alternateHealth.Some? && StateAt(run, k).selected == run[k].selected ==>
      SampleAt(run, k, AlternateOf(run[k].selected)).id !in StateAt(run, k).alternateHealth.value.cycleIds
    ensures Evaluated(run, k).alternateHealth.value.observedAt == run[k].at
  {
    hide Evaluate, Backed;
    var path := run[k].selected;
    AlternateStep(path, ProbesAt(run, k), StateAt(run, k), run[k].at, run[k].wallClock);
    if StateAt(run, k).alternateHealth.Some? && StateAt(run, k).selected == path {
      EvidenceOrigin(run, k);
      var i := AlternateTrail(run, k - 1);
      NotReplayed(run, i, k - 1, AlternateOf(path), StateAt(run, k).alternateHealth.value);
    }
  }

  /** A new cycle that follows the evidence within the gap is its second confirmation at least. */
  lemma {:induction false} NextConfirms(prior: Evidence, at: Stamp, cycleId: string, maxGap: int)
    requires CycleRelation(prior.observedAt, at, maxGap) == Next && CycleIdOf(cycleId, at) !in prior.cycleIds
    ensures NextEvidence(Some(prior), prior.path, prior.reason, Next, at, cycleId, maxGap).confirmations >= 2
  {
  }

  /** The converse of FailoverNeedsEvidence: two successive cycles at most ten seconds apart that
      find the selected path failing for one reason and the other path healthy are enough. */
  lemma {:induction false} PromptFailover(run: seq<Cycle>, k: nat, path: Path, reason: string)
    requires 0 < k < |run| && FreshIds(run, path) && FreshIds(run, AlternateOf(path))
    requires FailsAt(run, k - 1, path, reason) && FailsAt(run, k, path, reason)
    requires AlternateOkAt(run, k - 1, path) && AlternateOkAt(run, k, path)
    requires Before(run[k - 1].at, run[k].at) && Linked(run[k - 1].at, run[k].at, EVIDENCE_MAX_GAP)
    requires run[k - 1].after.Kept? && !(run[k - 1].after.status.Failed? && run[k - 1].after.wouldSwitch)
    ensures Evaluated(run, k).hardFailure && Evaluated(run, k).wouldSwitch
    ensures Evaluated(run, k).recommended == AlternateOf(path)
  {
    FailingCycle(path, ProbesAt(run, k - 1), StateAt(run, k - 1), run[k - 1].at, run[k - 1].wallClock);
    FreshFailure(run, k - 1);
    FreshAlternate(run, k - 1);
    FailingCycle(path, ProbesAt(run, k), StateAt(run, k), run[k].at, run[k].wallClock);
    FreshFailure(run, k);
    FreshAlternate(run, k);
    hide Evaluate, FreshIds, NextEvidence;
    var prior, probes := StateAt(run, k), ProbesAt(run, k);
    assert prior.updatedAt == run[k - 1].at && prior.selected == path;
    NextConfirms(prior.failure.value, run[k].at, probes.Of(path).cycleId, EVIDENCE_MAX_GAP);
    NextConfirms(prior.alternateHealth.value, run[k].at, probes.Of(AlternateOf(path)).cycleId, EVIDENCE_MAX_GAP);
  }

  /** A failing cycle renews the failure evidence, whatever the other path does; its failure is hard from the
      second confirmation on. With a working alternative it renews the evidence for that as well. */
  lemma {:induction false} FailingCycle(path: Path, probes: Probes, previous: State, at: Stamp, wallClock: int)
    requires Candidate(path) && probes.Of(path).checked && !probes.Of(path).ok
    ensures var e := Evaluate(path, probes, previous, at, wallClock); var prior := PriorOf(previous, path, at);
      var relation := CycleRelation(prior.updatedAt, at, EVIDENCE_MAX_GAP);
      var works := probes.Of(AlternateOf(path)).ok;
      && e.updatedAt == at && e.selected == path
      && e.failure == Some(NextEvidence(prior.failure, path, probes.Of(path).reason, relation, at,
                                        probes.Of(path).cycleId, EVIDENCE_MAX_GAP))
      && (works ==> e.alternateHealth == Some(NextEvidence(prior.alternateHealth, AlternateOf(path), "healthy",
                                                           relation,
                                                           at, probes.Of(AlternateOf(path)).cycleId, EVIDENCE_MAX_GAP)))
      && e.hardFailure == (e.failure.value.confirmations >= 2)
      && e.wouldSwitch == (works && e.hardFailure && e.alternateHealth.value.confirmations >= 2)
      && e.recommended == (if e.wouldSwitch then AlternateOf(path) else path)
      && e.status == (if e.wouldSwitch then Recovering else if e.hardFailure && !works then Failed else Suspect)
  {
  }

  /** Two successive cycles that find the selected path failing for one reason are a hard failure, whether or
      not there is an alternative. */
  lemma {:induction false} PromptHardFailure(run: seq<Cycle>, k: nat, path: Path, reason: string)
    requires 0 < k < |run| && FreshIds(run, path)
    requires FailsAt(run, k - 1, path, reason) && FailsAt(run, k, path, reason)
    requires Before(run[k - 1].at, run[k].at) && Linked(run[k - 1].at, run[k].at, EVIDENCE_MAX_GAP)
    requires run[k - 1].after.Kept? && !(run[k - 1].after.status.Failed? && run[k - 1].after.wouldSwitch)
    ensures Evaluated(run, k).hardFailure
  {
    FailingCycle(path, ProbesAt(run, k - 1), StateAt(run, k - 1), run[k - 1].at, run[k - 1].wallClock);
    FreshFailure(run, k - 1);
    FailingCycle(path, ProbesAt(run, k), StateAt(run, k), run[k].at, run[k].wallClock);
    FreshFailure(run, k);
    hide Evaluate, FreshIds, NextEvidence;
    var prior, probes := StateAt(run, k), ProbesAt(run, k);
    assert prior.updatedAt == run[k - 1].at && prior.selected == path;
    NextConfirms(prior.failure.value, run[k].at, probes.Of(path).cycleId, EVIDENCE_MAX_GAP);
  }

  /** Of a state about another path, or about a failed path that was to be left, nothing counts but the
      retry clock. */
  lemma {:induction false} OtherStatesForgotten(selected: Path, probes: Probes, previous: State, at: Stamp,
                                                wallClock: int)
    requires Candidate(selected)
    requires previous.selected != selected || (previous.status == Failed && previous.wouldSwitch)
    ensures Evaluate(selected, probes, previous, at, wallClock)
      == Evaluate(selected, probes, BLANK.(preferredRetry := previous.preferredRetry), at, wallClock)
  {
    assert PriorOf(previous, selected, at) == PriorOf(BLANK.(preferredRetry := previous.preferredRetry), selected, at);
    hide PriorOf, NextEvidence, NextRetry, NextRecovery, QualitySwitchEvidence, RecoveryDetails, EvaluateFailure,
      EvaluateDegraded, EvaluateFallbackHealthy, EvaluateInconclusive, EvaluatePreferredHealthy;
  }

  // ---- Voluntary failback -----------------------------------------------------------

  /** The quality was measured and found wanting. */
  predicate PoorQuality(probe: Probe) { probe.qualityChecked == Some(true) && probe.qualityOk == Some(false) }

  /** Nothing is known against the quality, and a measurement did not fail to happen. */
  predicate GoodQuality(probe: Probe) { probe.qualityChecked != Some(false) && !PoorQuality(probe) }

  predicate PreferredGood(probe: Probe) { probe.ok && !PoorQuality(probe) }

  predicate FallbackHealthyAt(run: seq<Cycle>, k: nat)
    requires k < |run|
  {
    && run[k].Observed? && run[k].selected == Hy2
    && var probe := ProbesAt(run, k).hy2;
    probe.checked && probe.ok && GoodQuality(probe)
  }

  predicate PreferredProbedAt(run: seq<Cycle>, k: nat)
    requires k < |run|
  {
    run[k].Observed? && ProbesAt(run, k).wg.checked
  }

  /** The preferred probes made in cycles s to k. */
  function PreferredSamples(run: seq<Cycle>, s: nat, k: nat): seq<Sample>
    requires s <= k < |run|
  {
    (if s < k then PreferredSamples(run, s, k - 1) else [])
    + (if PreferredProbedAt(run, k) then [SampleAt(run, k, PREFERRED)] else [])
  }

  /** Cycles s to k: the fallback is selected and healthy throughout, no activation or failed
      observation intervenes, and every probe of the preferred path succeeds. */
  ghost predicate RecoveryStretch(run: seq<Cycle>, s: nat, k: nat) {
    && s <= k < |run|
    && PreferredProbedAt(run, s)
    && (forall j :: s <= j <= k ==> FallbackHealthyAt(run, j))
    && (forall j :: s <= j < k ==> run[j].Observed? && run[j].after.Kept?)
    && (forall j :: s <= j <= k && PreferredProbedAt(run, j) ==> PreferredGood(ProbesAt(run, j).wg))
  }

  /** Observation times are never empty strings: observed_at falls back to the clock. */
  predicate Timestamped(run: seq<Cycle>) {
    forall k :: 0 <= k < |run| && run[k].Observed? ==> run[k].at.text != ""
  }

  /** Where the recovery evidence of an evaluation comes from. */
  lemma {:induction false} RecoveryStep(selected: Path, probes: Probes, previous: State, at: Stamp, wallClock: int)
    requires Evaluate(selected, probes, previous, at, wallClock).preferredRecovery.Some?
    ensures selected == Hy2 && probes.hy2.checked && probes.hy2.ok && GoodQuality(probes.hy2)
    ensures var e := Evaluate(selected, probes, previous, at, wallClock); var prior := PriorOf(previous, Hy2, at);
      if probes.wg.checked then
        PreferredGood(probes.wg) && e.preferredProbeAt == at
        && e.preferredRecovery == Some(NextRecovery(prior, probes.wg, at))
      else e.preferredProbeAt == prior.preferredProbeAt && e.preferredRecovery == prior.preferredRecovery
  {
    hide NextEvidence, NextRecovery, RecoveryDetails, NextRetry;
  }

  /** A healthy cycle prolongs the stretch before it, with one more sample if it was probed. */
  lemma {:induction false} StretchGrows(run: seq<Cycle>, s: nat, k: nat)
    requires 0 < k < |run| && RecoveryStretch(run, s, k - 1) && FallbackHealthyAt(run, k)
    requires run[k - 1].Observed? && run[k - 1].after.Kept?
    requires PreferredProbedAt(run, k) ==> PreferredGood(ProbesAt(run, k).wg)
    ensures RecoveryStretch(run, s, k)
    ensures PreferredSamples(run, s, k)
      == if PreferredProbedAt(run, k) then PreferredSamples(run, s, k - 1) + [SampleAt(run, k, PREFERRED)]
         else PreferredSamples(run, s, k - 1)
  {
  }

  lemma {:induction false} StretchStarts(run: seq<Cycle>, k: nat)
    requires k < |run| && FallbackHealthyAt(run, k) && PreferredProbedAt(run, k)
    requires PreferredGood(ProbesAt(run, k).wg)
    ensures RecoveryStretch(run, k, k) && PreferredSamples(run, k, k) == [SampleAt(run, k, PREFERRED)]
  {
  }

  /** The recovery evidence of a cycle describes one uninterrupted stretch. */
  lemma {:induction false} RecoveryTrail(run: seq<Cycle>, k: nat) returns (s: nat)
    requires k < |run| && run[k].Observed? && Timestamped(run) && Evaluated(run, k).preferredRecovery.Some?
    ensures s <= k && RecoveryStretch(run, s, k)
    ensures var trail := PreferredSamples(run, s, k); var e := Evaluated(run, k);
      && Backed(e.preferredRecovery.value, trail) && Chained(trail, PREFERRED_MAX_GAP)
      && e.preferredRecovery.value.startedAt == run[s].at
      && e.preferredProbeAt == trail[|trail| - 1].at
    ensures PreferredProbedAt(run, k) ==>
      Evaluated(run, k).preferredRecovery.value.continuousSeconds == SecondsBetween(run[s].at, run[k].at)
  {
    hide Evaluate, Backed, Chained, NextEvidence, RecoveryStretch, PreferredSamples;
    var at := run[k].at;
    var probes := ProbesAt(run, k);
    RecoveryStep(run[k].selected, probes, StateAt(run, k), at, run[k].wallClock);
    var prior := PriorOf(StateAt(run, k), Hy2, at);
    var relation := CycleRelation(prior.preferredProbeAt, at, PREFERRED_MAX_GAP);
    if !probes.wg.checked {
      EvidenceOrigin(run, k);
      s := RecoveryTrail(run, k - 1);
      StretchGrows(run, s, k);
    } else if Continues(prior.preferredRecovery, PREFERRED, "healthy", relation, at, PREFERRED_MAX_GAP) {
      EvidenceOrigin(run, k);
      s := RecoveryTrail(run, k - 1);
      var trail := PreferredSamples(run, s, k - 1);
      StretchGrows(run, s, k);
      RecoveryBacked(prior, prior.preferredRecovery.value, probes.wg, at, trail);
    } else {
      s := k;
      StretchStarts(run, k);
      RecoveryRestarted(prior, probes.wg, at);
    }
  }

  lemma {:induction false} RecoveryBacked(prior: State, e: Evidence, probe: Probe, at: Stamp, trail: seq<Sample>)
    requires prior.preferredRecovery == Some(e) && Backed(e, trail) && Chained(trail, PREFERRED_MAX_GAP)
    requires prior.preferredProbeAt == trail[|trail| - 1].at
    requires Continues(Some(e), PREFERRED, "healthy", CycleRelation(prior.preferredProbeAt, at, PREFERRED_MAX_GAP),
                       at, PREFERRED_MAX_GAP)
    ensures var longer := trail + [Sample(at, CycleIdOf(probe.cycleId, at))];
      Backed(NextRecovery(prior, probe, at), longer) && Chained(longer, PREFERRED_MAX_GAP)
  {
    var relation := CycleRelation(prior.preferredProbeAt, at, PREFERRED_MAX_GAP);
    ExtendBacked(e, trail, PREFERRED, "healthy", relation, at, probe.cycleId, PREFERRED_MAX_GAP);
    SameBacking(NextEvidence(Some(e), PREFERRED, "healthy", relation, at, probe.cycleId, PREFERRED_MAX_GAP),
                NextRecovery(prior, probe, at), trail + [Sample(at, CycleIdOf(probe.cycleId, at))]);
  }

  lemma {:induction false} RecoveryRestarted(prior: State, probe: Probe, at: Stamp)
    requires !Continues(prior.preferredRecovery, PREFERRED, "healthy",
                        CycleRelation(prior.preferredProbeAt, at, PREFERRED_MAX_GAP), at, PREFERRED_MAX_GAP)
    ensures var trail := [Sample(at, CycleIdOf(probe.cycleId, at))];
      Backed(NextRecovery(prior, probe, at), trail) && Chained(trail, PREFERRED_MAX_GAP)
  {
    var relation := CycleRelation(prior.preferredProbeAt, at, PREFERRED_MAX_GAP);
    FreshBacked(prior.preferredRecovery, PREFERRED, "healthy", relation, at, probe.cycleId, PREFERRED_MAX_GAP);
    SameBacking(NextEvidence(prior.preferredRecovery, PREFERRED, "healthy", relation, at, probe.cycleId,
                             PREFERRED_MAX_GAP),
                NextRecovery(prior, probe, at), [Sample(at, CycleIdOf(probe.cycleId, at))]);
  }

  lemma {:induction false} SameBacking(e: Evidence, f: Evidence, trail: seq<Sample>)
    requires Backed(e, trail) && f.confirmations == e.confirmations && f.cycleIds == e.cycleIds
    ensures Backed(f, trail)
  {
  }

  /** Three confirmations need three different cycles. */
  lemma {:induction false} ThreeConfirmations(e: Evidence, trail: seq<Sample>)
    requires Backed(e, trail) && e.confirmations >= 3
    ensures ThreeCycleIds(trail)
  {
    var ids := e.cycleIds;
    assert Named(trail, ids[0]) && Named(trail, ids[1]) && Named(trail, ids[2]);
    var a :| 0 <= a < |trail| && trail[a].id == ids[0];
    var b :| 0 <= b < |trail| && trail[b].id == ids[1];
    var c :| 0 <= c < |trail| && trail[c].id == ids[2];
    assert trail[a].id != trail[b].id && trail[b].id != trail[c].id && trail[a].id != trail[c].id;
  }

  /** A healthy fallback is left for the preferred path only after an unbroken stretch of at
      least 300 s in which it was selected and healthy, every preferred probe succeeded and was
      at most 90 s after the one before, and at least three different cycles were seen. The
      stored started_at is the time of the first probe of that stretch. */
  lemma {:induction false} VoluntaryFailback(run: seq<Cycle>, k: nat)
    requires k < |run| && Timestamped(run) && FallbackHealthyAt(run, k)
    requires Evaluated(run, k).recommended == PREFERRED
    ensures Evaluated(run, k).preferredRecovery.Some? && run[k].at.at.Some?
    ensures exists s: nat :: (
      && RecoveryStretch(run, s, k)
      && Chained(PreferredSamples(run, s, k), PREFERRED_MAX_GAP) && ThreeCycleIds(PreferredSamples(run, s, k))
      && Evaluated(run, k).preferredRecovery.value.startedAt == run[s].at && run[s].at.at.Some?
      && run[k].at.at.value - run[s].at.at.value >= RECOVERY_MIN_SECONDS * SECOND)
  {
    assert PreferredProbedAt(run, k);
    var s := RecoveryTrail(run, k);
    ThreeConfirmations(Evaluated(run, k).preferredRecovery.value, PreferredSamples(run, s, k));
  }

  // ---- When failback does happen ----------------------------------------------------------

  /** The number of different times in a chain of samples. */
  function Instants(trail: seq<Sample>): nat {
    var n := |trail|;
    if n <= 1 then n else Instants(trail[..n - 1]) + if Before(trail[n - 2].at, trail[n - 1].at) then 1 else 0
  }

  /** Recovery evidence that speaks for these samples and for a start no later than begin. */
  predicate SpeaksFor(e: State, trail: seq<Sample>, begin: Stamp) {
    && trail != [] && begin.at.Some? && e.preferredRecovery.Some?
    && var r := e.preferredRecovery.value; var last := trail[|trail| - 1].at;
    && r.path == PREFERRED && r.reason == "healthy" && r.confirmations >= Instants(trail) >= 1
    && r.observedAt == last && e.preferredProbeAt == last && last.at.Some?
    && r.startedAt.text != "" && r.startedAt.at.Some? && r.startedAt.at.value <= begin.at.value <= last.at.value
  }

  lemma {:induction false} SampleElement(run: seq<Cycle>, s: nat, k: nat, a: nat) returns (j: nat)
    requires s <= k < |run| && a < |PreferredSamples(run, s, k)|
    ensures s <= j <= k && run[j].Observed? && PreferredSamples(run, s, k)[a] == SampleAt(run, j, PREFERRED)
  {
    if s < k && a < |PreferredSamples(run, s, k - 1)| {
      j := SampleElement(run, s, k - 1, a);
    } else {
      j := k;
    }
  }

  /** With fresh identifiers a cycle is never a replay of the stored recovery evidence. */
  lemma {:induction false} FreshRecovery(run: seq<Cycle>, k: nat)
    requires k < |run| && run[k].Observed? && FreshIds(run, PREFERRED) && Timestamped(run)
    requires StateAt(run, k).preferredRecovery.Some?
    ensures SampleAt(run, k, PREFERRED).id !in StateAt(run, k).preferredRecovery.value.cycleIds
  {
    hide Evaluate, RecoveryStretch, Chained;
    EvidenceOrigin(run, k);
    var s := RecoveryTrail(run, k - 1);
    var trail, e := PreferredSamples(run, s, k - 1), StateAt(run, k).preferredRecovery.value;
    forall id | id in e.cycleIds ensures id != SampleAt(run, k, PREFERRED).id {
      assert Named(trail, id);
      var a :| 0 <= a < |trail| && trail[a].id == id;
      var j := SampleElement(run, s, k - 1, a);
    }
  }

  lemma {:induction false} InstantsGrow(trail: seq<Sample>, sample: Sample)
    requires trail != []
    ensures Instants(trail + [sample])
      == Instants(trail) + if Before(trail[|trail| - 1].at, sample.at) then 1 else 0
  {
    assert (trail + [sample])[..|trail|] == trail;
  }

  /** What a cycle on a healthy fallback with a healthy preferred probe answers. */
  lemma {:induction false} HealthyCycle(probes: Probes, previous: State, at: Stamp, wallClock: int)
    requires probes.hy2.checked && probes.hy2.ok && GoodQuality(probes.hy2)
    requires probes.wg.checked ==> PreferredGood(probes.wg)
    ensures var e := Evaluate(Hy2, probes, previous, at, wallClock); var prior := PriorOf(previous, Hy2, at);
      && e.selected == Hy2
      && (if probes.wg.checked then
            && e.preferredProbeAt == at && e.preferredRecovery == Some(NextRecovery(prior, probes.wg, at))
            && (e.recommended == PREFERRED <==> e.preferredRecovery.value.confirmations >= 3
                                                && e.preferredRecovery.value.continuousSeconds >= 300)
          else e.preferredProbeAt == prior.preferredProbeAt && e.preferredRecovery == prior.preferredRecovery)
  {
    hide NextEvidence, NextRecovery, RecoveryDetails, NextRetry, PriorOf;
  }

  /** A new sample within the gap continues the evidence. */
  lemma {:induction false} RecoveryContinues(prior: State, probe: Probe, at: Stamp, trail: seq<Sample>, begin: Stamp)
    requires SpeaksFor(prior, trail, begin) && Linked(trail[|trail| - 1].at, at, PREFERRED_MAX_GAP)
    requires CycleIdOf(probe.cycleId, at) !in prior.preferredRecovery.value.cycleIds
    ensures var e := NextRecovery(prior, probe, at);
      && e.path == PREFERRED && e.reason == "healthy" && e.observedAt == at
      && e.confirmations >= Instants(trail + [Sample(at, CycleIdOf(probe.cycleId, at))]) >= 1
      && e.startedAt == prior.preferredRecovery.value.startedAt
      && e.continuousSeconds == (at.at.value - e.startedAt.at.value) / SECOND
  {
    InstantsGrow(trail, Sample(at, CycleIdOf(probe.cycleId, at)));
    hide Instants, LastThree;
  }

  lemma {:induction false} SpeaksOn(probes: Probes, previous: State, at: Stamp, wallClock: int, trail: seq<Sample>,
                                    begin: Stamp)
    requires probes.hy2.checked && probes.hy2.ok && GoodQuality(probes.hy2)
    requires probes.wg.checked ==> PreferredGood(probes.wg)
    requires SpeaksFor(previous, trail, begin) && previous.selected == Hy2
    requires !(previous.status.Failed? && previous.wouldSwitch)
    requires probes.wg.checked ==>
      Linked(trail[|trail| - 1].at, at, PREFERRED_MAX_GAP)
      && CycleIdOf(probes.wg.cycleId, at) !in previous.preferredRecovery.value.cycleIds
    ensures var e := Evaluate(Hy2, probes, previous, at, wallClock);
      if probes.wg.checked then
        && SpeaksFor(e, trail + [Sample(at, CycleIdOf(probes.wg.cycleId, at))], begin)
        && e.preferredRecovery.value.continuousSeconds
           == (at.at.value - e.preferredRecovery.value.startedAt.at.value) / SECOND
      else SpeaksFor(e, trail, begin)
  {
    HealthyCycle(probes, previous, at, wallClock);
    assert PriorOf(previous, Hy2, at) == previous;
    if probes.wg.checked { RecoveryContinues(previous, probes.wg, at, trail, begin); }
    hide Evaluate, NextRecovery, Instants;
  }

  /** Nothing in between made the policy drop its evidence: the stored statuses of cycles s to k - 1
      are not those of a failed path about to be left. */
  predicate Remembered(run: seq<Cycle>, s: nat, k: nat)
    requires s <= k <= |run|
  {
    forall j :: s <= j < k && run[j].Observed? && run[j].after.Kept? ==>
      !(run[j].after.status.Failed? && run[j].after.wouldSwitch)
  }

  lemma {:induction false} StretchOpens(run: seq<Cycle>, s: nat)
    requires s < |run| && Timestamped(run) && FreshIds(run, PREFERRED) && run[s].Observed? && run[s].at.at.Some?
    requires FallbackHealthyAt(run, s) && PreferredProbedAt(run, s) && PreferredGood(ProbesAt(run, s).wg)
    ensures SpeaksFor(Evaluated(run, s), [SampleAt(run, s, PREFERRED)], run[s].at)
  {
    HealthyCycle(ProbesAt(run, s), StateAt(run, s), run[s].at, run[s].wallClock);
    hide Evaluate;
    var i := RecoveryTrail(run, s);
    var trail := PreferredSamples(run, i, s);
    StartsAt(run, i, s);
    hide RecoveryStretch, PreferredSamples;
    if |trail| > 1 { ChainMonotone(trail, PREFERRED_MAX_GAP, 0, |trail| - 1); }
    if StateAt(run, s).preferredRecovery.Some? { FreshRecovery(run, s); }
    hide Chained;
  }

  /** The samples of a stretch begin with its first cycle and end with a probed last one. */
  lemma {:induction false} StartsAt(run: seq<Cycle>, s: nat, k: nat)
    requires s <= k < |run| && PreferredProbedAt(run, s)
    ensures var trail := PreferredSamples(run, s, k);
      trail != [] && trail[0] == SampleAt(run, s, PREFERRED)
      && (PreferredProbedAt(run, k) ==> trail[|trail| - 1] == SampleAt(run, k, PREFERRED))
  {
    hide SampleAt, ProbesAt;
    if s < k {
      StartsAt(run, s, k - 1);
      var trail := PreferredSamples(run, s, k - 1);
      assert PreferredSamples(run, s, k) == trail + if PreferredProbedAt(run, k) then [SampleAt(run, k, PREFERRED)]
                                                    else [];
    }
  }

  lemma {:induction false} ChainedInit(trail: seq<Sample>, sample: Sample, maxGap: int)
    requires trail != [] && Chained(trail + [sample], maxGap)
    ensures Chained(trail, maxGap) && Linked(trail[|trail| - 1].at, sample.at, maxGap)
  {
    var longer := trail + [sample];
    assert Linked(longer[|trail| - 1].at, longer[|trail|].at, maxGap);
    forall i | 0 < i < |trail| ensures Linked(trail[i - 1].at, trail[i].at, maxGap) {
      assert Linked(longer[i - 1].at, longer[i].at, maxGap);
    }
  }

  /** Along a remembered stretch the evidence speaks for all of its samples. */
  lemma {:induction false} StretchSpeaks(run: seq<Cycle>, s: nat, k: nat)
    requires s <= k < |run| && RecoveryStretch(run, s, k) && Remembered(run, s, k)
    requires Timestamped(run) && FreshIds(run, PREFERRED)
    requires FallbackHealthyAt(run, k) && run[s].at.at.Some? && Chained(PreferredSamples(run, s, k), PREFERRED_MAX_GAP)
    ensures SpeaksFor(Evaluated(run, k), PreferredSamples(run, s, k), run[s].at)
    ensures PreferredProbedAt(run, k) && s < k ==>
      var r := Evaluated(run, k).preferredRecovery.value;
      r.continuousSeconds == (run[k].at.at.value - r.startedAt.at.value) / SECOND
  {
    hide Evaluate, Evaluated, SpeaksFor, FreshIds, Instants, RecoveryStretch, Remembered, Chained, PreferredSamples;
    StretchFirst(run, s, k);
    if s == k {
      StretchOpens(run, s);
    } else {
      StretchShrinks(run, s, k);
      SamplesShrink(run, s, k);
      StretchSpeaks(run, s, k - 1);
      StretchGoesOn(run, k, PreferredSamples(run, s, k - 1), run[s].at);
    }
  }

  lemma {:induction false} StretchFirst(run: seq<Cycle>, s: nat, k: nat)
    requires s <= k < |run| && RecoveryStretch(run, s, k)
    ensures FallbackHealthyAt(run, s) && PreferredProbedAt(run, s) && PreferredGood(ProbesAt(run, s).wg)
    ensures PreferredSamples(run, s, s) == [SampleAt(run, s, PREFERRED)]
  {
    hide PreferredGood;
    assert FallbackHealthyAt(run, s);
  }

  lemma {:induction false} StretchShrinks(run: seq<Cycle>, s: nat, k: nat)
    requires s < k < |run| && RecoveryStretch(run, s, k) && Remembered(run, s, k)
    ensures RecoveryStretch(run, s, k - 1) && Remembered(run, s, k - 1)
    ensures FallbackHealthyAt(run, k - 1) && run[k - 1].after.Kept?
    ensures !(run[k - 1].after.status.Failed? && run[k - 1].after.wouldSwitch)
    ensures PreferredProbedAt(run, k) ==> PreferredGood(ProbesAt(run, k).wg)
  {
    hide PreferredGood, ProbesAt;
  }

  lemma {:induction false} SamplesNext(run: seq<Cycle>, s: nat, k: nat)
    requires s < k < |run| && run[k].Observed?
    ensures var trail := PreferredSamples(run, s, k - 1);
      PreferredSamples(run, s, k) == if PreferredProbedAt(run, k) then trail + [SampleAt(run, k, PREFERRED)] else trail
  {
    hide PreferredProbedAt;
    assert PreferredSamples(run, s, k - 1) + [] == PreferredSamples(run, s, k - 1);
  }

  lemma {:induction false} SamplesShrink(run: seq<Cycle>, s: nat, k: nat)
    requires s < k < |run| && PreferredProbedAt(run, s) && run[k].Observed?
    requires Chained(PreferredSamples(run, s, k), PREFERRED_MAX_GAP)
    ensures var trail := PreferredSamples(run, s, k - 1); var sample := SampleAt(run, k, PREFERRED);
      trail != [] && Chained(trail, PREFERRED_MAX_GAP)
      && PreferredSamples(run, s, k) == (if PreferredProbedAt(run, k) then trail + [sample] else trail)
      && (PreferredProbedAt(run, k) ==> Linked(trail[|trail| - 1].at, sample.at, PREFERRED_MAX_GAP))
  {
    hide Chained, PreferredSamples, PreferredProbedAt, SampleAt, Linked;
    StartsAt(run, s, k - 1);
    SamplesNext(run, s, k);
    if PreferredProbedAt(run, k) {
      ChainedInit(PreferredSamples(run, s, k - 1), SampleAt(run, k, PREFERRED), PREFERRED_MAX_GAP);
    }
  }

  lemma {:induction false} StoredSpeaks(run: seq<Cycle>, k: nat, trail: seq<Sample>, begin: Stamp)
    requires 0 < k < |run| && run[k - 1].Observed? && run[k - 1].selected == Hy2 && run[k - 1].after.Kept?
    requires !(run[k - 1].after.status.Failed? && run[k - 1].after.wouldSwitch)
    requires SpeaksFor(Evaluated(run, k - 1), trail, begin)
    ensures SpeaksFor(StateAt(run, k), trail, begin) && StateAt(run, k).preferredRecovery.Some?
    ensures trail != [] && StateAt(run, k).selected == Hy2
    ensures !(StateAt(run, k).status.Failed? && StateAt(run, k).wouldSwitch)
  {
    hide Evaluate, Instants;
    EvaluationKeepsSelected(Hy2, ProbesAt(run, k - 1), StateAt(run, k - 1), run[k - 1].at, run[k - 1].wallClock);
    assert StateAt(run, k) == Stored(StateAt(run, k - 1), Evaluated(run, k - 1), run[k - 1].after);
  }

  lemma {:induction false} StretchGoesOn(run: seq<Cycle>, k: nat, trail: seq<Sample>, begin: Stamp)
    requires 0 < k < |run| && FallbackHealthyAt(run, k) && FallbackHealthyAt(run, k - 1) && run[k - 1].after.Kept?
    requires !(run[k - 1].after.status.Failed? && run[k - 1].after.wouldSwitch)
    requires PreferredProbedAt(run, k) ==> PreferredGood(ProbesAt(run, k).wg)
    requires Timestamped(run) && FreshIds(run, PREFERRED)
    requires SpeaksFor(Evaluated(run, k - 1), trail, begin)
    requires PreferredProbedAt(run, k) ==> Linked(trail[|trail| - 1].at, run[k].at, PREFERRED_MAX_GAP)
    ensures SpeaksFor(Evaluated(run, k),
                      if PreferredProbedAt(run, k) then trail + [SampleAt(run, k, PREFERRED)] else trail, begin)
    ensures PreferredProbedAt(run, k) ==>
      var r := Evaluated(run, k).preferredRecovery.value;
      r.continuousSeconds == (run[k].at.at.value - r.startedAt.at.value) / SECOND
  {
    hide FreshIds;
    StoredSpeaks(run, k, trail, begin);
    hide Evaluate, SpeaksFor, PreferredGood, GoodQuality;
    assert Evaluated(run, k) == Evaluate(Hy2, ProbesAt(run, k), StateAt(run, k), run[k].at, run[k].wallClock);
    FreshRecovery(run, k);
    hide Evaluated, StateAt;
    SpeaksOn(ProbesAt(run, k), StateAt(run, k), run[k].at, run[k].wallClock, trail, begin);
  }

  /** The converse of VoluntaryFailback: with fresh identifiers a remembered stretch of 300 s whose
      preferred samples are at most 90 s apart, at three different times or more, is enough, whatever
      retry clock is stored. */
  lemma {:induction false} FailbackHappens(run: seq<Cycle>, s: nat, k: nat)
    requires RecoveryStretch(run, s, k) && Remembered(run, s, k) && Timestamped(run) && FreshIds(run, PREFERRED)
    requires PreferredProbedAt(run, k) && Chained(PreferredSamples(run, s, k), PREFERRED_MAX_GAP)
    requires Instants(PreferredSamples(run, s, k)) >= RECOVERY_CONFIRMATIONS
    requires run[s].at.at.Some? && run[k].at.at.Some?
             && run[k].at.at.value - run[s].at.at.value >= RECOVERY_MIN_SECONDS * SECOND
    ensures Evaluated(run, k).recommended == PREFERRED
  {
    StretchSpeaks(run, s, k);
    assert FallbackHealthyAt(run, k);
    HealthyCycle(ProbesAt(run, k), StateAt(run, k), run[k].at, run[k].wallClock);
    hide Evaluate, PreferredSamples, Instants;
    var r := Evaluated(run, k).preferredRecovery.value;
    assert r.continuousSeconds >= 300;
  }

  // ---- Leaving a degraded path ------------------------------------------------------------

  /** The selected path answers, but its quality is degraded for this reason. */
  predicate DegradedAt(run: seq<Cycle>, k: nat, path: Path, reason: string)
    requires k < |run|
  {
    && run[k].Observed? && run[k].selected == path && Candidate(path)
    && var probe := ProbesAt(run, k).Of(path);
    probe.checked && probe.ok && PoorQuality(probe) && probe.qualityReason == reason
  }

  /** The other path has confirmed health and good quality. */
  predicate SoundAlternate(probe: Probe) {
    probe.ok && probe.healthConfirmed && probe.qualityChecked == Some(true) && probe.qualityOk == Some(true)
  }

  /** A fresh quality sample of the degraded path while the other path is sound. */
  predicate SampledAt(run: seq<Cycle>, k: nat, path: Path)
    requires k < |run|
  {
    && run[k].Observed? && ProbesAt(run, k).Of(path).qualitySampled
    && SoundAlternate(ProbesAt(run, k).Of(AlternateOf(path)))
  }

  /** Cycles i to k find the selected path degraded for one reason, without an activation or a
      failed observation in between; the first of them is sampled. */
  ghost predicate DegradedStretch(run: seq<Cycle>, i: nat, k: nat, path: Path, reason: string) {
    && i <= k < |run|
    && (forall j :: i <= j <= k ==> DegradedAt(run, j, path, reason))
    && (forall j :: i <= j < k ==> run[j].Observed? && run[j].after.Kept?)
    && SampledAt(run, i, path)
  }

  lemma {:induction false} OnlyDegraded(selected: Path, probes: Probes, previous: State, at: Stamp, wallClock: int)
    requires Evaluate(selected, probes, previous, at, wallClock).qualityFailure.Some?
    ensures Candidate(selected) && probes.Of(selected).checked && probes.Of(selected).ok
    ensures PoorQuality(probes.Of(selected))
    ensures Evaluate(selected, probes, previous, at, wallClock)
      == EvaluateDegraded(selected, probes, PriorOf(previous, selected, at), at, wallClock)
  {
    hide NextEvidence, NextRetry, RecoveryDetails, EvaluateDegraded, NextRecovery, PriorOf;
  }

  /** The quality evidence of an evaluation is a new sample, or what was stored before; a switch needs
      a new sample that continues stored evidence sampled 15 to 45 s ago. */
  lemma {:induction false} QualityStep(selected: Path, probe: Probe, other: Probe, previous: Option<Evidence>,
                                       at: Stamp)
    ensures var (evidence, confirmed) := QualitySwitchEvidence(selected, probe, other, previous, at);
      && (evidence.Some? ==>
            && evidence.value.path == selected && evidence.value.reason == probe.qualityReason
            && ((evidence == previous && !confirmed)
                || (probe.qualitySampled && SoundAlternate(other) && evidence.value.sampledAt == at)))
      && (confirmed ==>
            && evidence.Some? && evidence.value.sampledAt == at && probe.qualitySampled && SoundAlternate(other)
            && previous.Some? && previous.value.path == selected && previous.value.reason == probe.qualityReason
            && previous.value.sampledAt.at.Some? && at.at.Some?
            && QUALITY_INTERVAL <= at.at.value - previous.value.sampledAt.at.value <= 3 * QUALITY_INTERVAL)
  {
    hide LastThree;
  }

  /** The stored quality evidence that a new sample may continue. */
  function Matching(previous: Option<Evidence>, selected: Path, reason: string): Option<Evidence> {
    if previous.Some? && previous.value.path == selected && previous.value.reason == reason then previous else None
  }

  /** A sample taken while the other path is sound is counted unless the last one is less than 15 s
      old; without a sample the evidence stays for 45 s. */
  lemma {:induction false} QualityCounts(selected: Path, probe: Probe, other: Probe, previous: Option<Evidence>,
                                         at: Stamp)
    requires at.at.Some?
    ensures var (evidence, confirmed) := QualitySwitchEvidence(selected, probe, other, previous, at);
      var prior := Matching(previous, selected, probe.qualityReason);
      var age := if prior.Some? && prior.value.sampledAt.at.Some? then at.at.value - prior.value.sampledAt.at.value
                 else -1;
      && (probe.qualitySampled && SoundAlternate(other) ==>
            if 0 <= age < QUALITY_INTERVAL then evidence == prior && !confirmed
            else
              var next := NextEvidence(prior, selected, probe.qualityReason,
                                       CycleRelation(if prior.Some? then prior.value.sampledAt else NEVER, at,
                                                     3 * QUALITY_INTERVAL),
                                       at, probe.cycleId, 3 * QUALITY_INTERVAL);
              evidence == Some(next.(sampledAt := at)) && confirmed == (next.confirmations >= 2))
      && (!probe.qualitySampled && (!other.checked || SoundAlternate(other)) && 0 <= age <= 3 * QUALITY_INTERVAL ==>
            evidence == prior)
  {
    hide NextEvidence;
  }

  /** What a degraded evaluation does with its evidence. */
  lemma {:induction false} DegradedStep(selected: Path, probes: Probes, previous: State, at: Stamp, wallClock: int)
    requires Candidate(selected) && probes.Of(selected).checked && probes.Of(selected).ok
    requires PoorQuality(probes.Of(selected))
    ensures var e := Evaluate(selected, probes, previous, at, wallClock); var prior := PriorOf(previous, selected, at);
      var (evidence, confirmed) := QualitySwitchEvidence(selected, probes.Of(selected),
                                                         probes.Of(AlternateOf(selected)),
                                                         prior.qualityFailure, at);
      && e.qualityFailure == evidence && !e.hardFailure
      && (e.wouldSwitch <==> confirmed && evidence.Some?
                             && !(selected != PREFERRED
                                  && RetryActive(DegradedRetry(selected, probes, prior, at, wallClock), at)))
  {
    hide NextEvidence, NextRetry, RecoveryDetails, QualitySwitchEvidence, RetryActive, DegradedRetry;
  }

  /** Stored quality evidence describes one unbroken degraded stretch that begins with the cycle it
      was last sampled in. */
  lemma {:induction false} DegradedTrail(run: seq<Cycle>, k: nat) returns (i: nat)
    requires k < |run| && run[k].Observed? && Evaluated(run, k).qualityFailure.Some?
    ensures var q := Evaluated(run, k).qualityFailure.value;
      DegradedStretch(run, i, k, run[k].selected, q.reason) && q.path == run[k].selected && q.sampledAt == run[i].at
  {
    hide Evaluate;
    var path, probes := run[k].selected, ProbesAt(run, k);
    OnlyDegraded(path, probes, StateAt(run, k), run[k].at, run[k].wallClock);
    DegradedStep(path, probes, StateAt(run, k), run[k].at, run[k].wallClock);
    var prior := PriorOf(StateAt(run, k), path, run[k].at).qualityFailure;
    QualityStep(path, probes.Of(path), probes.Of(AlternateOf(path)), prior, run[k].at);
    hide QualitySwitchEvidence;
    if prior == Evaluated(run, k).qualityFailure && !(SampledAt(run, k, path) && prior.value.sampledAt == run[k].at) {
      EvidenceOrigin(run, k);
      i := DegradedTrail(run, k - 1);
    } else {
      i := k;
    }
  }

  /** A degraded stretch from one sample to another, 15 to 45 s later. */
  ghost predicate TwoSamples(run: seq<Cycle>, i: nat, k: nat, path: Path, reason: string) {
    && i < k && DegradedStretch(run, i, k, path, reason) && SampledAt(run, k, path)
    && run[i].at.at.Some? && run[k].at.at.Some?
    && QUALITY_INTERVAL <= run[k].at.at.value - run[i].at.at.value <= 3 * QUALITY_INTERVAL
  }

  /** A path that answers is left for its quality only after two samples, 15 to 45 s apart, that
      found it degraded for the same reason throughout and the other path sound; the fallback is not
      left before the retry clock allows it. */
  lemma {:induction false} DegradedNeedsSamples(run: seq<Cycle>, k: nat)
    requires k < |run| && run[k].Observed? && Evaluated(run, k).wouldSwitch && !Evaluated(run, k).hardFailure
    requires !FallbackHealthyAt(run, k)
    ensures exists i: nat, reason :: TwoSamples(run, i, k, run[k].selected, reason)
    ensures run[k].selected == Hy2 && RetryActive(StateAt(run, k).preferredRetry, run[k].at) ==>
      !RecoveryDetails(StateAt(run, k).preferredRetry, run[k].at, false).Some?
  {
    hide Evaluate;
    var path, probes := run[k].selected, ProbesAt(run, k);
    OnlyTwoOthers(path, probes, StateAt(run, k), run[k].at, run[k].wallClock);
    DegradedStep(path, probes, StateAt(run, k), run[k].at, run[k].wallClock);
    var prior := PriorOf(StateAt(run, k), path, run[k].at).qualityFailure;
    QualityStep(path, probes.Of(path), probes.Of(AlternateOf(path)), prior, run[k].at);
    hide QualitySwitchEvidence, RetryActive, DegradedRetry;
    EvidenceOrigin(run, k);
    var i := DegradedTrail(run, k - 1);
    assert TwoSamples(run, i, k, path, prior.value.reason);
    if path == Hy2 { SoundAlternateRetry(probes, StateAt(run, k), run[k].at, run[k].wallClock); }
  }

  /** Every switch is for a hard failure, from a degraded path, or from a healthy fallback. */
  lemma {:induction false} OnlyTwoOthers(selected: Path, probes: Probes, previous: State, at: Stamp, wallClock: int)
    requires Evaluate(selected, probes, previous, at, wallClock).wouldSwitch
    requires !Evaluate(selected, probes, previous, at, wallClock).hardFailure
    ensures Candidate(selected) && probes.Of(selected).checked && probes.Of(selected).ok
    ensures PoorQuality(probes.Of(selected))
            || (selected == Hy2 && GoodQuality(probes.Of(selected)))
  {
    hide NextEvidence, NextRetry, RecoveryDetails, EvaluateDegraded, NextRecovery, PriorOf;
  }

  /** With a sound preferred path only the stored clock can hold the fallback. */
  lemma {:induction false} SoundAlternateRetry(probes: Probes, previous: State, at: Stamp, wallClock: int)
    requires SoundAlternate(probes.wg)
    ensures RetryActive(DegradedRetry(Hy2, probes, PriorOf(previous, Hy2, at), at, wallClock), at)
      <==> RetryActive(previous.preferredRetry, at) && RecoveryDetails(previous.preferredRetry, at, false).Some?
  {
  }

  ghost predicate IdsFrom(run: seq<Cycle>, k: nat, path: Path, ids: seq<string>)
    requires k < |run|
  {
    forall id :: id in ids ==> exists j: nat :: j <= k && run[j].Observed? && SampleAt(run, j, path).id == id
  }

  /** The quality evidence counts cycles of the run, and with fresh identifiers never replays one. */
  lemma {:induction false} QualityIds(run: seq<Cycle>, k: nat)
    requires k < |run| && run[k].Observed? && Evaluated(run, k).qualityFailure.Some?
    requires FreshIds(run, run[k].selected)
    ensures var q := Evaluated(run, k).qualityFailure.value;
      q.confirmations >= 1 && q.observedAt == q.sampledAt && IdsFrom(run, k, run[k].selected, q.cycleIds)
  {
    hide Evaluate;
    var path, probes, at := run[k].selected, ProbesAt(run, k), run[k].at;
    OnlyDegraded(path, probes, StateAt(run, k), at, run[k].wallClock);
    DegradedStep(path, probes, StateAt(run, k), at, run[k].wallClock);
    var stored := PriorOf(StateAt(run, k), path, at).qualityFailure;
    QualityOrigin(path, probes.Of(path), probes.Of(AlternateOf(path)), stored, at);
    hide QualitySwitchEvidence;
    var prior := Matching(stored, path, probes.Of(path).qualityReason);
    if prior.Some? {
      EvidenceOrigin(run, k);
      QualityIds(run, k - 1);
      IdsStay(run, k, path, prior.value.cycleIds);
    }
    NextIds(run, k, path, prior, probes.Of(path).qualityReason);
    hide IdsFrom, Evaluated, StateAt, FreshIds;
  }

  lemma {:induction false} QualityOrigin(selected: Path, probe: Probe, other: Probe, previous: Option<Evidence>,
                                         at: Stamp)
    ensures var (evidence, _) := QualitySwitchEvidence(selected, probe, other, previous, at);
      var prior := Matching(previous, selected, probe.qualityReason);
      var relation := CycleRelation(if prior.Some? then prior.value.sampledAt else NEVER, at, 3 * QUALITY_INTERVAL);
      evidence.None? || evidence == prior
      || evidence == Some(NextEvidence(prior, selected, probe.qualityReason, relation, at, probe.cycleId,
                                       3 * QUALITY_INTERVAL).(sampledAt := at))
  {
    hide NextEvidence;
  }

  lemma {:induction false} IdsStay(run: seq<Cycle>, k: nat, path: Path, ids: seq<string>)
    requires 0 < k < |run| && IdsFrom(run, k - 1, path, ids)
    ensures IdsFrom(run, k, path, ids)
    ensures FreshIds(run, path) && run[k].Observed? ==> SampleAt(run, k, path).id !in ids
  {
    hide SampleAt;
  }

  lemma {:induction false} NextIds(run: seq<Cycle>, k: nat, path: Path, prior: Option<Evidence>, reason: string)
    requires k < |run| && run[k].Observed?
    requires prior.Some? ==>
             IdsFrom(run, k, path, prior.value.cycleIds) && SampleAt(run, k, path).id !in prior.value.cycleIds
    ensures forall relation, gap ::
      var e := NextEvidence(prior, path, reason, relation, run[k].at, ProbesAt(run, k).Of(path).cycleId, gap);
      IdsFrom(run, k, path, e.cycleIds) && e.observedAt == run[k].at && e.confirmations >= 1
  {
    forall relation, gap
      ensures var e := NextEvidence(prior, path, reason, relation, run[k].at, ProbesAt(run, k).Of(path).cycleId, gap);
        IdsFrom(run, k, path, e.cycleIds) && e.observedAt == run[k].at && e.confirmations >= 1
    {
      var e := NextEvidence(prior, path, reason, relation, run[k].at, ProbesAt(run, k).Of(path).cycleId, gap);
      forall id | id in e.cycleIds
        ensures exists j: nat :: j <= k && run[j].Observed? && SampleAt(run, j, path).id == id
      {
        assert id == SampleAt(run, k, path).id || (prior.Some? && id in prior.value.cycleIds);
      }
    }
  }

  /** The evidence of a sample at most 15 s before begin. */
  predicate Remembers(e: State, path: Path, reason: string, begin: int) {
    && e.selected == path && e.qualityFailure.Some?
    && var q := e.qualityFailure.value;
    && q.path == path && q.reason == reason && q.confirmations >= 1 && q.observedAt == q.sampledAt
    && q.sampledAt.at.Some? && begin - QUALITY_INTERVAL < q.sampledAt.at.value <= begin
  }

  /** Nothing is sampled in this cycle, and the other path is sound or not probed. */
  predicate NoSampleAt(run: seq<Cycle>, k: nat, path: Path)
    requires k < |run| && run[k].Observed?
  {
    && !ProbesAt(run, k).Of(path).qualitySampled
    && var other := ProbesAt(run, k).Of(AlternateOf(path));
    !other.checked || SoundAlternate(other)
  }

  predicate Within(run: seq<Cycle>, i: nat, k: nat, most: int)
    requires i < |run| && k < |run|
  {
    run[i].at.at.Some? && run[k].at.at.Some? && 0 <= run[k].at.at.value - run[i].at.at.value <= most
  }

  /** From one sample at cycle i to the next at cycle k, 15 to 30 s later: the path is degraded for
      one reason throughout, and nothing makes the policy drop its evidence. */
  ghost predicate SampledTwice(run: seq<Cycle>, i: nat, k: nat, path: Path, reason: string) {
    && i < k && DegradedStretch(run, i, k, path, reason) && Remembered(run, i, k) && SampledAt(run, k, path)
    && (forall j :: i < j < k ==> run[j].Observed? && NoSampleAt(run, j, path))
    && (forall j :: i <= j <= k ==> Within(run, i, j, 2 * QUALITY_INTERVAL))
    && Within(run, i, k, 2 * QUALITY_INTERVAL) && run[k].at.at.value - run[i].at.at.value >= QUALITY_INTERVAL
  }

  lemma {:induction false} SampleRemembered(run: seq<Cycle>, i: nat, path: Path, reason: string)
    requires i < |run| && DegradedAt(run, i, path, reason) && SampledAt(run, i, path) && FreshIds(run, path)
    requires run[i].at.at.Some?
    ensures Remembers(Evaluated(run, i), path, reason, run[i].at.at.value)
  {
    hide Evaluate;
    var probes, at := ProbesAt(run, i), run[i].at;
    EvaluationKeepsSelected(path, probes, StateAt(run, i), at, run[i].wallClock);
    DegradedStep(path, probes, StateAt(run, i), at, run[i].wallClock);
    var stored := PriorOf(StateAt(run, i), path, at).qualityFailure;
    QualityCounts(path, probes.Of(path), probes.Of(AlternateOf(path)), stored, at);
    QualityOrigin(path, probes.Of(path), probes.Of(AlternateOf(path)), stored, at);
    hide QualitySwitchEvidence, FreshIds, IdsFrom, SoundAlternate;
    QualityIds(run, i);
  }

  /** What the evaluation of cycle k - 1 keeps is what cycle k starts from. */
  lemma {:induction false} EvidenceStays(run: seq<Cycle>, k: nat, path: Path, reason: string, begin: int)
    requires 0 < k < |run| && run[k - 1].Observed? && run[k - 1].after.Kept?
    requires !(run[k - 1].after.status.Failed? && run[k - 1].after.wouldSwitch)
    requires Remembers(Evaluated(run, k - 1), path, reason, begin)
    ensures PriorOf(StateAt(run, k), path, run[k].at) == StateAt(run, k)
    ensures StateAt(run, k).qualityFailure == Evaluated(run, k - 1).qualityFailure
    ensures Remembers(StateAt(run, k), path, reason, begin)
  {
    hide Evaluate;
    assert StateAt(run, k) == Stored(StateAt(run, k - 1), Evaluated(run, k - 1), run[k - 1].after);
  }

  lemma {:induction false} QuietCycle(run: seq<Cycle>, k: nat, path: Path, reason: string, begin: int)
    requires 0 < k < |run| && run[k - 1].Observed? && run[k - 1].after.Kept?
    requires !(run[k - 1].after.status.Failed? && run[k - 1].after.wouldSwitch)
    requires Remembers(Evaluated(run, k - 1), path, reason, begin)
    requires DegradedAt(run, k, path, reason) && NoSampleAt(run, k, path)
    requires run[k].at.at.Some? && begin <= run[k].at.at.value <= begin + 2 * QUALITY_INTERVAL
    ensures Remembers(Evaluated(run, k), path, reason, begin)
  {
    hide Evaluate;
    EvidenceStays(run, k, path, reason, begin);
    var probes, at := ProbesAt(run, k), run[k].at;
    EvaluationKeepsSelected(path, probes, StateAt(run, k), at, run[k].wallClock);
    DegradedStep(path, probes, StateAt(run, k), at, run[k].wallClock);
    QualityCounts(path, probes.Of(path), probes.Of(AlternateOf(path)), StateAt(run, k).qualityFailure, at);
    hide QualitySwitchEvidence, SoundAlternate, PriorOf;
  }

  lemma {:induction false} SampleKept(run: seq<Cycle>, i: nat, k: nat, path: Path, reason: string, j: nat)
    requires SampledTwice(run, i, k, path, reason) && FreshIds(run, path) && i <= j < k
    ensures run[i].Observed? && run[j].Observed? && run[i].at.at.Some?
    ensures Remembers(Evaluated(run, j), path, reason, run[i].at.at.value)
  {
    hide Evaluated, Remembers, FreshIds, NoSampleAt, SampledAt;
    assert DegradedAt(run, i, path, reason) && DegradedAt(run, j, path, reason)
      && Within(run, i, j, 2 * QUALITY_INTERVAL);
    if i == j {
      SampleRemembered(run, i, path, reason);
    } else {
      SampleKept(run, i, k, path, reason, j - 1);
      assert DegradedAt(run, j - 1, path, reason) && run[j - 1].after.Kept?;
      QuietCycle(run, j, path, reason, run[i].at.at.value);
    }
  }

  /** The second sample confirms the evidence of the first. */
  lemma {:induction false} SecondSample(run: seq<Cycle>, k: nat, path: Path, reason: string, begin: int)
    requires 0 < k < |run| && run[k - 1].Observed? && run[k - 1].after.Kept? && run[k - 1].selected == path
    requires !(run[k - 1].after.status.Failed? && run[k - 1].after.wouldSwitch)
    requires Remembers(Evaluated(run, k - 1), path, reason, begin) && FreshIds(run, path)
    requires DegradedAt(run, k, path, reason) && SampledAt(run, k, path)
    requires run[k].at.at.Some? && begin + QUALITY_INTERVAL <= run[k].at.at.value <= begin + 2 * QUALITY_INTERVAL
    requires path == Hy2 ==> !RetryActive(StateAt(run, k).preferredRetry, run[k].at)
    ensures Evaluated(run, k).recommended == AlternateOf(path)
  {
    hide Evaluate;
    EvidenceStays(run, k, path, reason, begin);
    QualityIds(run, k - 1);
    var probes, at, q := ProbesAt(run, k), run[k].at, StateAt(run, k).qualityFailure.value;
    IdsStay(run, k, path, q.cycleIds);
    hide FreshIds, IdsFrom;
    EvaluationKeepsSelected(path, probes, StateAt(run, k), at, run[k].wallClock);
    DegradedStep(path, probes, StateAt(run, k), at, run[k].wallClock);
    QualityCounts(path, probes.Of(path), probes.Of(AlternateOf(path)), StateAt(run, k).qualityFailure, at);
    NextConfirms(q, at, probes.Of(path).cycleId, 3 * QUALITY_INTERVAL);
    if path == Hy2 { SoundAlternateRetry(probes, StateAt(run, k), at, run[k].wallClock); }
    hide QualitySwitchEvidence, SoundAlternate, PriorOf, NextEvidence, RetryActive, DegradedRetry, RecoveryDetails;
  }

  /** The converse of DegradedNeedsSamples: with fresh identifiers two samples 15 to 30 s apart are
      enough to leave a degraded path, except the fallback while the retry clock runs. */
  lemma {:induction false} DegradedHappens(run: seq<Cycle>, i: nat, k: nat, path: Path, reason: string)
    requires SampledTwice(run, i, k, path, reason) && FreshIds(run, path) && run[k].Observed?
    requires path == Hy2 ==> !RetryActive(StateAt(run, k).preferredRetry, run[k].at)
    ensures Evaluated(run, k).recommended == AlternateOf(path)
  {
    hide Evaluated, StateAt, Remembers, FreshIds, NoSampleAt, SampledAt, RetryActive;
    assert DegradedAt(run, k, path, reason) && DegradedAt(run, k - 1, path, reason);
    assert Within(run, i, k, 2 * QUALITY_INTERVAL) && run[k - 1].after.Kept?;
    SampleKept(run, i, k, path, reason, k - 1);
    SecondSample(run, k, path, reason, run[i].at.at.value);
  }

  // ---- Anti-flap ----------------------------------------------------------------------

  /** From cycle i to cycle k the clock never runs backwards and the selected path is valid and
      probed whenever the policy is consulted. */
  ghost predicate Watched(run: seq<Cycle>, i: nat, k: nat)
    requires i <= k < |run|
  {
    && (forall j :: i <= j <= k ==> run[j].at.at.Some?)
    && (forall j, m :: i <= j <= m <= k ==> run[j].at.at.value <= run[m].at.at.value)
    && (forall j :: i <= j <= k && run[j].Observed? ==>
          Candidate(run[j].selected) && ProbesAt(run, j).Of(run[j].selected).checked)
  }

  predicate Leaves(run: seq<Cycle>, k: nat)
    requires k < |run|
  {
    run[k].Observed? && run[k].selected == PREFERRED && Evaluated(run, k).recommended == Hy2
  }

  /** The policy recommends the preferred path although the fallback has no hard failure. */
  predicate ComesBack(run: seq<Cycle>, k: nat)
    requires k < |run|
  {
    && run[k].Observed? && run[k].selected == Hy2
    && Evaluated(run, k).recommended == PREFERRED && !Evaluated(run, k).hardFailure
  }

  /** The retry clock started at time t or later still runs until t + 60 s at least. */
  predicate RetryHolds(retry: Option<Retry>, t: int) {
    && retry.Some? && retry.value.path == PREFERRED
    && retry.value.retryAt.at.Some? && retry.value.retryAt.at.value >= t + RETRY_BASE_SECONDS * SECOND
    && (retry.value.recoveredAt.at.Some? ==> retry.value.recoveredAt.at.value >= t)
  }

  /** Every retry delay lies between one and five minutes and doubles from one minute on;
      the exponent cap of eight never changes it. */
  lemma {:induction false} RetryDelayBounds(attempts: int)
    requires attempts >= 1
    ensures RETRY_BASE_SECONDS <= RetryDelay(attempts) <= RETRY_MAX_SECONDS
    ensures RetryDelay(attempts) == Min(RETRY_MAX_SECONDS, RETRY_BASE_SECONDS * Octets.Pow2(attempts - 1))
  {
    Octets.Pow2Monotone(0, Min(attempts - 1, 8));
    if attempts - 1 > 8 { Octets.Pow2Monotone(8, attempts - 1); }
  }

  lemma {:induction false} NextRetryHolds(prior: Option<Retry>, reason: string, at: Stamp, wallClock: int, t: int)
    requires at.at.Some? && t <= at.at.value
    ensures RetryHolds(Some(NextRetry(prior, reason, at, wallClock)), t)
  {
    RetryDelayBounds(NextAttempts(prior, at.at.value));
  }

  /** No evaluation of a probed path loses the clock within half an hour. */
  lemma {:induction false} RetryStep(selected: Path, probes: Probes, previous: State, at: Stamp, wallClock: int, t: int)
    requires Candidate(selected) && probes.Of(selected).checked
    requires at.at.Some? && t <= at.at.value < t + STABLE_RESET
    requires RetryHolds(previous.preferredRetry, t)
    ensures RetryHolds(Evaluate(selected, probes, previous, at, wallClock).preferredRetry, t)
  {
    hide NextEvidence, NextRetry, QualitySwitchEvidence, NextRecovery, SelectedQuality;
    var prior := PriorOf(previous, selected, at);
    forall reason ensures RetryHolds(Some(NextRetry(prior.preferredRetry, reason, at, wallClock)), t) {
      NextRetryHolds(prior.preferredRetry, reason, at, wallClock, t);
    }
  }

  /** Leaving the preferred path always starts the clock. */
  lemma {:induction false} LeavingStartsClock(probes: Probes, previous: State, at: Stamp, wallClock: int)
    requires at.at.Some? && Evaluate(PREFERRED, probes, previous, at, wallClock).recommended == Hy2
    ensures RetryHolds(Evaluate(PREFERRED, probes, previous, at, wallClock).preferredRetry, at.at.value)
  {
    hide NextEvidence, NextRetry;
    var prior := PriorOf(previous, PREFERRED, at);
    forall reason ensures RetryHolds(Some(NextRetry(prior.preferredRetry, reason, at, wallClock)), at.at.value) {
      NextRetryHolds(prior.preferredRetry, reason, at, wallClock, at.at.value);
    }
  }

  lemma {:induction false} RetryHeld(run: seq<Cycle>, i: nat, k: nat)
    requires i < k <= |run| && Watched(run, i, k - 1)
    requires Leaves(run, i) && !run[i].after.Lost?
    requires run[k - 1].at.at.value < run[i].at.at.value + STABLE_RESET
    ensures RetryHolds(StateAt(run, k).preferredRetry, run[i].at.at.value)
  {
    hide Evaluate, RetryHolds;
    if k == i + 1 {
      LeavingStartsClock(ProbesAt(run, i), StateAt(run, i), run[i].at, run[i].wallClock);
    } else {
      RetryHeld(run, i, k - 1);
      if run[k - 1].Observed? {
        RetryStep(run[k - 1].selected, ProbesAt(run, k - 1), StateAt(run, k - 1), run[k - 1].at,
                  run[k - 1].wallClock, run[i].at.at.value);
      }
    }
  }

  /** The two ways back to the preferred path that need no hard failure of the fallback. */
  lemma {:induction false} WaysBack(probes: Probes, previous: State, at: Stamp, wallClock: int)
    requires Evaluate(Hy2, probes, previous, at, wallClock).recommended == PREFERRED
    requires !Evaluate(Hy2, probes, previous, at, wallClock).hardFailure
    ensures probes.hy2.checked && probes.hy2.ok
    ensures GoodQuality(probes.hy2)
            || !RetryActive(DegradedRetry(Hy2, probes, PriorOf(previous, Hy2, at), at, wallClock), at)
  {
    hide NextEvidence, NextRetry, RecoveryDetails;
  }

  lemma {:induction false} DegradedKeepsClock(probes: Probes, previous: State, at: Stamp, wallClock: int, t: int)
    requires at.at.Some? && t <= at.at.value < t + RETRY_BASE_SECONDS * SECOND
    requires RetryHolds(previous.preferredRetry, t)
    ensures RetryActive(DegradedRetry(Hy2, probes, PriorOf(previous, Hy2, at), at, wallClock), at)
  {
    var prior := PriorOf(previous, Hy2, at);
    var failure := PreferredFailure(probes.wg);
    if failure.Some? { NextRetryHolds(prior.preferredRetry, failure.value, at, wallClock, at.at.value); }
  }

  /** The failback stretch of cycle k starts after every cycle in which the preferred path was
      selected. */
  lemma {:induction false} FailbackWaits(run: seq<Cycle>, i: nat, k: nat)
    requires i < k < |run| && Watched(run, i, k) && Timestamped(run)
    requires run[i].Observed? && run[i].selected == PREFERRED
    requires FallbackHealthyAt(run, k) && Evaluated(run, k).recommended == PREFERRED
    ensures run[k].at.at.value - run[i].at.at.value >= RECOVERY_MIN_SECONDS * SECOND
  {
    hide Evaluate, PreferredSamples, Chained, ThreeCycleIds;
    VoluntaryFailback(run, k);
    var s: nat :| RecoveryStretch(run, s, k) && run[s].at.at.Some?
      && run[k].at.at.value - run[s].at.at.value >= RECOVERY_MIN_SECONDS * SECOND;
    assert s <= i ==> FallbackHealthyAt(run, i);
  }

  /** Once the policy recommends leaving the preferred path and that evaluation is not lost, it does
      not recommend coming back within a minute unless the fallback has confirmed hard-failure
      evidence. */
  lemma {:induction false} AntiFlap(run: seq<Cycle>, i: nat, k: nat)
    requires i < k < |run|
    ensures Watched(run, i, k) && Timestamped(run) && Leaves(run, i) && !run[i].after.Lost? && ComesBack(run, k) ==>
      run[k].at.at.value - run[i].at.at.value >= RETRY_BASE_SECONDS * SECOND
  {
    hide Evaluate, RetryHolds, DegradedRetry, RetryActive;
    if Watched(run, i, k) && Timestamped(run) && Leaves(run, i) && !run[i].after.Lost? && ComesBack(run, k) {
      var t := run[i].at.at.value;
      if run[k].at.at.value < t + RETRY_BASE_SECONDS * SECOND {
        RetryHeld(run, i, k);
        WaysBack(ProbesAt(run, k), StateAt(run, k), run[k].at, run[k].wallClock);
        if FallbackHealthyAt(run, k) {
          FailbackWaits(run, i, k);
        } else {
          DegradedKeepsClock(ProbesAt(run, k), StateAt(run, k), run[k].at, run[k].wallClock, t);
        }
      }
    }
  }

  /** The retry entry that an unexpired one leaves the next departure to count on. */
  predicate Counts(retry: Option<Retry>, at: Stamp) {
    && retry.Some? && retry.value.path == PREFERRED
    && (retry.value.recoveredAt.at.None? || at.at.None?
        || at.at.value - retry.value.recoveredAt.at.value < STABLE_RESET)
  }

  /** A retry entry that was renewed at this time: it waits min(300, 60 * 2^(n-1)) s, n being one more
      than for the entry before, unless the path has been stable for half an hour since. */
  predicate Renewed(retry: Option<Retry>, previous: Option<Retry>, at: Stamp) {
    var n := if Counts(previous, at) then Max(0, previous.value.attempts) + 1 else 1;
    && retry.Some? && at.at.Some?
    && retry.value.path == PREFERRED && retry.value.attempts == n && retry.value.failedAt == at
    && retry.value.recoveredAt == NEVER
    && retry.value.retryAt.at == Some(at.at.value + Min(300, 60 * Octets.Pow2(n - 1)) * SECOND)
  }

  /** Each departure from the preferred path, and each failed or degraded preferred probe on a fallback
      that answers and was probed for quality, renews the retry clock. */
  lemma {:induction false} ClockRenewed(selected: Path, probes: Probes, previous: State, at: Stamp, wallClock: int)
    requires at.at.Some? && Candidate(selected)
    requires selected == PREFERRED ==> Evaluate(PREFERRED, probes, previous, at, wallClock).recommended == Hy2
    requires selected == Hy2 ==>
      && probes.hy2.checked && probes.hy2.ok && probes.hy2.qualityChecked != Some(false)
      && probes.wg.checked && !PreferredGood(probes.wg)
    ensures Renewed(Evaluate(selected, probes, previous, at, wallClock).preferredRetry, previous.preferredRetry, at)
  {
    var prior := PriorOf(previous, selected, at).preferredRetry;
    QualityStep(selected, probes.Of(selected), probes.Of(AlternateOf(selected)),
                PriorOf(previous, selected, at).qualityFailure, at);
    hide NextEvidence, QualitySwitchEvidence, NextRecovery, NextRetry, Renewed, PriorOf;
    forall reason ensures Renewed(Some(NextRetry(prior, reason, at, wallClock)), previous.preferredRetry, at) {
      RenewedFrom(selected, previous, reason, at, wallClock);
    }
  }

  lemma {:induction false} RenewedFrom(selected: Path, previous: State, reason: string, at: Stamp, wallClock: int)
    requires at.at.Some?
    ensures Renewed(Some(NextRetry(PriorOf(previous, selected, at).preferredRetry, reason, at, wallClock)),
                    previous.preferredRetry, at)
  {
    hide RetryDelay;
    var n := if Counts(previous.preferredRetry, at) then Max(0, previous.preferredRetry.value.attempts) + 1 else 1;
    RetryDelayBounds(n);
  }

  /** Asking for the preferred path while the fallback answers keeps an unexpired retry clock with its
      count, and dates the recovery. */
  lemma {:induction false} ReturnDates(probes: Probes, previous: State, at: Stamp, wallClock: int)
    requires at.at.Some? && Evaluate(Hy2, probes, previous, at, wallClock).recommended == PREFERRED
    requires !Evaluate(Hy2, probes, previous, at, wallClock).hardFailure && Counts(previous.preferredRetry, at)
    ensures var stored := previous.preferredRetry.value;
      Evaluate(Hy2, probes, previous, at, wallClock).preferredRetry
      == Some(stored.(recoveredAt :=
                if GoodQuality(probes.hy2) || stored.recoveredAt.at.None? then at else stored.recoveredAt))
  {
    var quality := PriorOf(previous, Hy2, at).qualityFailure;
    QualityStep(Hy2, probes.hy2, probes.wg, quality, at);
    hide NextEvidence, QualitySwitchEvidence, NextRecovery, NextRetry;
  }

  /** The preferred path is selected and healthy. */
  predicate PreferredHealthyAt(run: seq<Cycle>, k: nat)
    requires k < |run|
  {
    && run[k].Observed? && run[k].selected == PREFERRED
    && var probe := ProbesAt(run, k).wg;
    probe.checked && probe.ok && GoodQuality(probe)
  }

  /** Cycles i to k find the preferred path selected and healthy, and the clock does not run backwards. */
  ghost predicate StableStretch(run: seq<Cycle>, i: nat, k: nat) {
    && i <= k < |run|
    && (forall j :: i <= j <= k ==> PreferredHealthyAt(run, j) && !run[j].after.Lost? && run[j].at.at.Some?)
    && (forall j, m :: i <= j <= m <= k && run[j].at.at.Some? && run[m].at.at.Some? ==>
          run[j].at.at.value <= run[m].at.at.value)
  }

  lemma {:induction false} HealthyStep(probes: Probes, previous: State, at: Stamp, wallClock: int)
    requires probes.wg.checked && probes.wg.ok && GoodQuality(probes.wg) && at.at.Some?
    ensures var e := Evaluate(PREFERRED, probes, previous, at, wallClock); var p := previous.preferredRetry;
      && !e.wouldSwitch
      && (p.None? || p.value.path != PREFERRED ==> e.preferredRetry.None?)
      && (p.Some? && p.value.path == PREFERRED ==>
            var recovered := if p.value.recoveredAt.at.None? then at else p.value.recoveredAt;
            e.preferredRetry == if at.at.value - recovered.at.value >= STABLE_RESET then None
                                else Some(p.value.(recoveredAt := recovered)))
  {
    hide NextEvidence, QualitySwitchEvidence, NextRecovery, NextRetry;
  }

  /** A retry clock that ran when the preferred path became healthy is dated to that cycle, kept with its
      count for half an hour of stable operation, and then forgotten. */
  lemma {:induction false} StabilityResets(run: seq<Cycle>, i: nat, k: nat, retry: Retry)
    requires StableStretch(run, i, k) && run[k].Observed? && run[i].at.at.Some? && run[k].at.at.Some?
    requires StateAt(run, i).preferredRetry == Some(retry) && retry.path == PREFERRED && retry.recoveredAt == NEVER
    ensures Evaluated(run, k).preferredRetry
      == if run[k].at.at.value - run[i].at.at.value >= STABLE_RESET then None
         else Some(retry.(recoveredAt := run[i].at))
  {
    hide Evaluate;
    assert PreferredHealthyAt(run, k);
    HealthyStep(ProbesAt(run, k), StateAt(run, k), run[k].at, run[k].wallClock);
    if i < k {
      assert PreferredHealthyAt(run, k - 1) && !run[k - 1].after.Lost? && run[k - 1].at.at.Some?;
      StabilityResets(run, i, k - 1, retry);
      assert StateAt(run, k).preferredRetry == Evaluated(run, k - 1).preferredRetry;
    }
  }

  /** A cycle without an observation of the selected path forgets the clock, so the anti-flap
      bound does need every consulted cycle to be probed. */
  lemma {:induction false} UnprobedCycleForgetsClock(selected: Path, probes: Probes, previous: State, at: Stamp,
                                                     wallClock: int)
    ensures Evaluate(selected, probes, previous, at, wallClock).preferredRetry.None?
            || (Candidate(selected) && probes.Of(selected).checked)
  {
  }

  /** The first degraded sample: the policy stays and keeps it as evidence. */
  lemma {:induction false} FirstSampleStays(probes: Probes, previous: State, at: Stamp, wallClock: int)
    requires probes.hy2.checked && probes.hy2.ok && PoorQuality(probes.hy2) && probes.hy2.qualitySampled
    requires probes.wg.checked && probes.wg.ok && probes.wg.healthConfirmed && probes.hy2.cycleId != ""
    requires probes.wg.qualityChecked == Some(true) && probes.wg.qualityOk == Some(true)
    requires previous.preferredRetry.None? && previous.qualityFailure.None? && at.at.Some?
    ensures var after := Evaluate(Hy2, probes, previous, at, wallClock);
      && after.selected == Hy2 && after.status == Degraded && !after.wouldSwitch && after.preferredRetry.None?
      && after.qualityFailure
         == Some(Evidence(Hy2, probes.hy2.qualityReason, 1, [probes.hy2.cycleId], at, at, NEVER, 0))
  {
    hide EvaluateFailure, EvaluateFallbackHealthy, EvaluatePreferredHealthy;
    var next := NextEvidence(None, Hy2, probes.hy2.qualityReason, Reset, at, probes.hy2.cycleId, 3 * QUALITY_INTERVAL);
    assert LastThree([] + [probes.hy2.cycleId]) == [probes.hy2.cycleId];
    hide NextEvidence, LastThree;
    assert QualitySwitchEvidence(Hy2, probes.hy2, probes.wg, None, at) == (Some(next.(sampledAt := at)), false);
    hide QualitySwitchEvidence;
  }

  /** The second degraded sample of an idle retry clock: the policy asks for the preferred path. */
  lemma {:induction false} SecondSampleMoves(probes: Probes, previous: State, e: Evidence, at: Stamp, wallClock: int)
    requires probes.hy2.checked && probes.hy2.ok && PoorQuality(probes.hy2) && probes.hy2.qualitySampled
    requires probes.wg.checked && probes.wg.ok && probes.wg.healthConfirmed
    requires probes.wg.qualityChecked == Some(true) && probes.wg.qualityOk == Some(true)
    requires previous.selected == Hy2 && !previous.status.Failed? && previous.preferredRetry.None?
    requires previous.qualityFailure == Some(e) && e.path == Hy2 && e.reason == probes.hy2.qualityReason
    requires e.confirmations == 1 && CycleIdOf(probes.hy2.cycleId, at) !in e.cycleIds
    requires e.observedAt.at.Some? && e.sampledAt == e.observedAt && at.at.Some?
    requires QUALITY_INTERVAL <= at.at.value - e.observedAt.at.value <= 3 * QUALITY_INTERVAL
    ensures var after := Evaluate(Hy2, probes, previous, at, wallClock);
      after.recommended == PREFERRED && !after.hardFailure
  {
    hide EvaluateFailure, EvaluateFallbackHealthy, EvaluatePreferredHealthy, LastThree;
    var next := NextEvidence(Some(e), Hy2, e.reason, Next, at, probes.hy2.cycleId, 3 * QUALITY_INTERVAL);
    assert next.confirmations == 2;
    hide NextEvidence;
    assert QualitySwitchEvidence(Hy2, probes.hy2, probes.wg, Some(e), at) == (Some(next.(sampledAt := at)), true);
    hide QualitySwitchEvidence;
  }

  // A run that comes back after 24 s because one cycle in between was not probed.
  function Second(n: int): Stamp { Stamp("t", Some(n * SECOND)) }

  const DOWN: RawProbe := Raw(Some(true), false, "timeout", "", false, None, false, None, "")
  const UP: RawProbe := Raw(Some(true), true, "", "", true, Some(true), true, Some(true), "")
  const LOSSY: RawProbe := Raw(Some(true), true, "", "", true, Some(true), true, Some(false), "packet_loss")

  function Tagged(probe: RawProbe, id: string): RawProbe
    requires probe.Raw?
  {
    probe.(cycleId := id)
  }

  const AS_IS: Aftermath := Kept(Degraded, Wg, false)

  const FLAPPING: seq<Cycle> := [
    Observed(Wg, Tagged(DOWN, "a"), Tagged(UP, "a"), Second(0), 0, AS_IS),
    Observed(Wg, Tagged(DOWN, "b"), Tagged(UP, "b"), Second(2), 0, Reopened(Hy2, Degraded, Hy2)),
    Observed(Hy2, Missing, Missing, Second(4), 0, AS_IS),
    Observed(Hy2, Tagged(UP, "d"), Tagged(LOSSY, "d"), Second(10), 0, AS_IS),
    Observed(Hy2, Tagged(UP, "e"), Tagged(LOSSY, "e"), Second(26), 0, AS_IS)]

  lemma {:induction false} FlappingFirst()
    ensures var e := StateAt(FLAPPING, 1);
      && e.selected == Wg && e.status == Degraded && e.updatedAt == Second(0)
      && e.failure == Some(Evidence(Wg, "timeout", 1, ["a"], Second(0), NEVER, NEVER, 0))
      && e.alternateHealth == Some(Evidence(Hy2, "healthy", 1, ["a"], Second(0), NEVER, NEVER, 0))
  {
    assert StateAt(FLAPPING, 0) == BLANK;
    assert LastThree([] + ["a"]) == ["a"];
    FailingCycle(Wg, ProbesAt(FLAPPING, 0), BLANK, Second(0), 0);
  }

  lemma {:induction false} FlappingLeaves()
    ensures Evaluated(FLAPPING, 1).recommended == Hy2
  {
    FlappingFirst();
    hide StateAt, Evaluate;
    FailingCycle(Wg, ProbesAt(FLAPPING, 1), StateAt(FLAPPING, 1), Second(2), 0);
  }

  lemma {:induction false} FlappingForgets()
    ensures var e := StateAt(FLAPPING, 3);
      e.selected == Hy2 && e.status == Degraded && e.preferredRetry.None? && e.qualityFailure.None?
  {
    hide NextEvidence, PriorOf;
    assert StateAt(FLAPPING, 3) == Stored(StateAt(FLAPPING, 2), Evaluated(FLAPPING, 2), AS_IS);
    assert Evaluated(FLAPPING, 2) == Evaluate(Hy2, ProbesAt(FLAPPING, 2), StateAt(FLAPPING, 2), Second(4), 0);
  }

  lemma {:induction false} FlappingSuspects()
    ensures var e := StateAt(FLAPPING, 4);
      && e.selected == Hy2 && e.status == Degraded && e.preferredRetry.None?
      && e.qualityFailure == Some(Evidence(Hy2, "packet_loss", 1, ["d"], Second(10), Second(10), NEVER, 0))
  {
    FlappingForgets();
    assert StateAt(FLAPPING, 4) == Stored(StateAt(FLAPPING, 3), Evaluated(FLAPPING, 3), AS_IS);
    assert Evaluated(FLAPPING, 3) == Evaluate(Hy2, ProbesAt(FLAPPING, 3), StateAt(FLAPPING, 3), Second(10), 0);
    hide StateAt, Evaluated, Evaluate;
    FirstSampleStays(ProbesAt(FLAPPING, 3), StateAt(FLAPPING, 3), Second(10), 0);
  }

  /** Probing every cycle is needed: this run leaves at 2 s and comes back at 26 s. */
  lemma {:induction false} FlapsWhenUnprobed()
    ensures FLAPPING[1].selected == PREFERRED && Evaluated(FLAPPING, 1).recommended == Hy2
    ensures FLAPPING[4].selected == Hy2 && Evaluated(FLAPPING, 4).recommended == PREFERRED
            && !Evaluated(FLAPPING, 4).hardFailure
    ensures FLAPPING[4].at.at.value - FLAPPING[1].at.at.value < RETRY_BASE_SECONDS * SECOND
  {
    FlappingLeaves();
    FlappingSuspects();
    hide StateAt, Evaluate;
    var e := Evidence(Hy2, "packet_loss", 1, ["d"], Second(10), Second(10), NEVER, 0);
    SecondSampleMoves(ProbesAt(FLAPPING, 4), StateAt(FLAPPING, 4), e, Second(26), 0);
  }
}
