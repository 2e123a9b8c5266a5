/** The reconcile loop of server_transport.py: one turn reads the state file, consults the
    policy, possibly activates the other path, and writes the state file again.

    Observation times come from the local clock, so they always parse; they are integers in
    microseconds here. */
module Reconcile {
  import opened Wrappers
  import Octets
  import opened TransportPolicy
  import opened Activation
  import PolicyRuns

  const SWITCH_RETRY_BASE_SECONDS: int := 30
  const SWITCH_RETRY_MAX_SECONDS: int := 300

  datatype SwitchFailure = SwitchFailure(target: Path, attempts: int, failedAt: int, retryAt: int)

  datatype OverlayNote = OverlayNote(path: Path, ok: bool)

  datatype FileState = FileState(policy: State, overlay: Option<OverlayNote>,
                                 switchBackoff: Option<SwitchFailure>, lastSwitchFailure: Option<SwitchFailure>)

  const NO_FILE: FileState := FileState(BLANK, None, None, None)

  /** Every probe gets the identifier of the cycle; an empty dictionary thereby counts as checked. */
  function Tag(raw: RawProbe, id: string): RawProbe {
    if raw.Raw? then raw.(cycleId := id) else Raw(None, false, "", id, false, None, false, None, "")
  }

  datatype Sight = Sight(selected: Path, wg: RawProbe, hy2: RawProbe, at: int, text: string, cycleId: string) {
    function When(): Stamp { Stamp(text, Some(at)) }
    function Of(path: Path): RawProbe { if path.Wg? then wg else hy2 }
    function Seen(): Probes { Probes(Normalize(Tag(wg, cycleId)), Normalize(Tag(hy2, cycleId))) }
    predicate SaysOk(path: Path) { Of(path).Raw? && Of(path).ok }
    predicate SaysDead(path: Path) { Of(path).Raw? && Of(path).checked == Some(true) && !Of(path).ok }
  }

  /** How an activation ended; a refusal may come without a report. An exception that escapes the
      activation loses the turn: the watcher then writes a failed observation at a time of its own. */
  datatype Outcome = Switched(report: Report) | Refused(evidence: Option<Report>) | Lost(at: int, text: string)

  /** One turn of the loop: a look with the activation it led to, or a turn that could not look. */
  datatype Turn =
    | Look(sight: Sight, outcome: Option<Outcome>)
    | Lapse(selected: Path, at: int, text: string, maintenance: bool)
  {
    function Time(): int { if Look? then sight.at else at }
  }

  // ---- Switch backoff -----------------------------------------------------------------

  function BackoffActive(file: FileState, target: Path, now: int): Option<SwitchFailure> {
    if file.switchBackoff.Some? && file.switchBackoff.value.target == target && now < file.switchBackoff.value.retryAt
    then file.switchBackoff else None
  }

  /** Ages are clamped at zero, so a clock that steps back keeps the history. */
  predicate Recent(failure: Option<SwitchFailure>, target: Path, now: int) {
    failure.Some? && failure.value.target == target && Max(0, now - failure.value.failedAt) < STABLE_RESET
  }

  function FailureHistory(file: FileState, target: Path, now: int): Option<SwitchFailure> {
    if !Candidate(target) then None
    else if Recent(file.switchBackoff, target, now) then file.switchBackoff
    else if Recent(file.lastSwitchFailure, target, now) then file.lastSwitchFailure
    else None
  }

  function SwitchDelay(attempts: int): int {
    var exponent := if attempts >= 1 then Min(attempts - 1, 8) else 0;
    Min(SWITCH_RETRY_MAX_SECONDS, SWITCH_RETRY_BASE_SECONDS * Octets.Pow2(exponent))
  }

  function NextSwitchFailure(file: FileState, target: Path, now: int): SwitchFailure {
    var prior := FailureHistory(file, target, now);
    var attempts := if prior.Some? then Max(0, prior.value.attempts) + 1 else 1;
    SwitchFailure(target, attempts, now, now + SwitchDelay(attempts) * SECOND)
  }

  // ---- One turn -------------------------------------------------------------------------

  /** The payload before any activation. */
  function Decide(file: FileState, sight: Sight): FileState {
    var evaluated := Evaluate(sight.selected, sight.Seen(), file.policy, sight.When(), sight.at);
    var alternate := AlternateOf(sight.selected);
    var backoff := BackoffActive(file, alternate, sight.at);
    var confirmedDead := evaluated.hardFailure && sight.SaysDead(sight.selected);
    var policy := if backoff.Some? && evaluated.wouldSwitch && !confirmedDead
                  then evaluated.(status := if sight.SaysOk(sight.selected) then Degraded else Failed,
                                  recommended := sight.selected, wouldSwitch := false)
                  else evaluated;
    FileState(policy, Some(OverlayNote(sight.selected, sight.SaysOk(sight.selected))), backoff,
              FailureHistory(file, alternate, sight.at))
  }

  predicate Activates(file: FileState, sight: Sight) { Decide(file, sight).policy.wouldSwitch }

  function WithoutEvidence(policy: State): State {
    policy.(failure := None, alternateHealth := None, qualityFailure := None, preferredRecovery := None)
  }

  /** The overlay observation an activation leaves behind. */
  function OverlayAfter(report: Report): OverlayNote {
    var note := if report.rollbackProof.Some? then report.rollbackProof else report.activationProof;
    if note.Some? && note.value.probe.path == report.selectorAfter
    then OverlayNote(note.value.probe.path, note.value.probe.ok)
    else OverlayNote(report.selectorAfter, false)
  }

  /** A failed or maintenance observation; it keeps what earlier activations left behind. */
  function Lapsed(file: FileState, selected: Path, at: int, text: string, maintenance: bool): FileState {
    file.(policy := PolicyRuns.Observation(file.policy, selected, Stamp(text, Some(at)),
                                           if maintenance then Maintenance else Failed),
          overlay := None)
  }

  /** The payload after the activation of the recommended path. */
  function Finish(file: FileState, sight: Sight, outcome: Outcome): FileState {
    var decided := Decide(file, sight);
    var failure := Some(NextSwitchFailure(file, decided.policy.recommended, sight.at));
    match outcome
    case Switched(report) =>
      FileState(WithoutEvidence(decided.policy).(status := if decided.policy.hardFailure then Degraded else Healthy,
                                                 wouldSwitch := false, selected := report.selectorAfter),
                Some(OverlayAfter(report)), None, None)
    case Refused(Some(report)) =>
      FileState(WithoutEvidence(decided.policy).(status := if report.rollbackVerified then Degraded else Failed,
                                                 recommended := sight.selected, wouldSwitch := false,
                                                 selected := report.selectorAfter),
                Some(OverlayAfter(report)), failure, failure)
    case Refused(None) =>
      FileState(WithoutEvidence(decided.policy).(status := Failed, recommended := sight.selected, wouldSwitch := false,
                                                 selected := NO_PATH),
                Some(OverlayNote(NO_PATH, false)), failure, failure)
    case Lost(at, text) => Lapsed(file, NO_PATH, at, text, false)
  }

  function NextFile(file: FileState, turn: Turn): FileState {
    match turn
    case Look(sight, outcome) =>
      if Activates(file, sight) && outcome.Some? then Finish(file, sight, outcome.value) else Decide(file, sight)
    case Lapse(selected, at, text, maintenance) => Lapsed(file, selected, at, text, maintenance)
  }

  /** A turn of the real loop: it looks at a valid selector and activates exactly when decided. */
  predicate Performed(file: FileState, turn: Turn) {
    turn.Look? ==> Candidate(turn.sight.selected) && turn.sight.text != ""
                   && (turn.outcome.Some? <==> Activates(file, turn.sight))
  }

  /** The process that owns the state file. */
  class Watcher {
    var file: FileState

    constructor ()
      ensures file == NO_FILE
    {
      file := NO_FILE;
    }

    /** One turn with a usable selector. The activation, when there is one, asks for the
        alternative path and keeps its transaction guarantees. When an exchange escapes it, the
        watcher catches the exception at lostAt and writes a failed observation. */
    method Reconcile(sight: Sight, lostAt: int, lostText: string)
        returns (outcome: Option<Outcome>, ghost log: seq<Event>, ghost moved: nat)
      requires Candidate(sight.selected) && sight.text != ""
      modifies this
      ensures Performed(old(file), Look(sight, outcome))
      ensures file == NextFile(old(file), Look(sight, outcome))
      ensures outcome.Some? ==> match outcome.value
        case Switched(report) => Committed(log, report, AlternateOf(sight.selected)) && NoEscape(log)
        case Refused(Some(report)) => Compensated(log, report, AlternateOf(sight.selected)) && NoEscape(log)
        case Refused(None) => log == [SelectorSeen(NO_PATH)]
        case Lost(at, text) => at == lostAt && text == lostText && Abandoned(log, moved, AlternateOf(sight.selected))
      ensures outcome.Some? ==> match outcome.value
        case Switched(_) => file.overlay == Some(OverlayNote(AlternateOf(sight.selected), true))
        case Refused(Some(report)) =>
          report.rollbackVerified ==> file.overlay == Some(OverlayNote(report.selectorBefore, true))
        case _ => file.overlay.None? || !file.overlay.value.ok
    {
      OverlaysMean(AlternateOf(sight.selected));
      hide Committed, Compensated, Abandoned, NoEscape, Evaluate;
      log, moved := [], 0;
      var before := file;
      var decided := Decide(before, sight);
      if !decided.policy.wouldSwitch {
        file := decided;
        return None, log, 0;
      }
      TargetIsAlternate(before, sight);
      var transaction := new Transaction();
      var result;
      result, moved := transaction.Select(decided.policy.recommended);
      log := transaction.log;
      match result {
        case Success(report) => outcome := Some(Switched(report));
        case Failure(SwitchFailed(report)) => outcome := Some(Refused(Some(report)));
        case Failure(ExchangeEscaped) => outcome := Some(Lost(lostAt, lostText));
        case Failure(_) => outcome := Some(Refused(None));
      }
      if outcome.value.Lost? {
        Miss(NO_PATH, lostAt, lostText, false);
      } else {
        file := Finish(before, sight, outcome.value);
      }
    }

    /** A turn that writes a failed or maintenance observation. */
    method Miss(selected: Path, at: int, text: string, maintenance: bool)
      modifies this
      ensures file == NextFile(old(file), Lapse(selected, at, text, maintenance))
    {
      var status := if maintenance then Maintenance else Failed;
      var policy := PolicyState(selected, Stamp(text, Some(at)), status, selected, false);
      file := FileState(policy.(preferredRetry := file.policy.preferredRetry), None,
                        file.switchBackoff, file.lastSwitchFailure);
    }
  }

  lemma {:induction false} TargetIsAlternate(file: FileState, sight: Sight)
    requires Candidate(sight.selected) && Activates(file, sight)
    ensures Decide(file, sight).policy.recommended == AlternateOf(sight.selected)
  {
    hide Evaluate;
    PolicyRuns.EvaluationKeepsSelected(sight.selected, sight.Seen(), file.policy, sight.When(), sight.at);
  }

  /** What the reports of an activation leave as overlay observation. */
  lemma {:induction false} OverlaysMean(target: Path)
    ensures forall log, report :: Committed(log, report, target) ==> OverlayAfter(report) == OverlayNote(target, true)
    ensures forall log, report :: Compensated(log, report, target) && report.rollbackVerified ==>
      OverlayAfter(report) == OverlayNote(report.selectorBefore, true)
  {
    hide ProvedAndHeld, LastSeen, LastPut, Disturbed, RollbackDisturbed;
  }

  /** What a finished activation stores about the path: a success is healthy, or degraded after a hard
      failure; a refusal is degraded if the old path was verified again and failed otherwise; the evidence
      starts anew, and nothing is left to switch to. */
  lemma {:induction false} FinishSays(file: FileState, sight: Sight, outcome: Outcome)
    requires Activates(file, sight) && Candidate(sight.selected)
    ensures var policy := NextFile(file, Look(sight, Some(outcome))).policy;
      var hard := Decide(file, sight).policy.hardFailure;
      && !policy.wouldSwitch
      && policy.failure.None? && policy.alternateHealth.None? && policy.qualityFailure.None?
      && policy.preferredRecovery.None?
      && match outcome
         case Switched(report) =>
           policy.selected == report.selectorAfter && policy.recommended == AlternateOf(sight.selected)
           && policy.status == if hard then Degraded else Healthy
         case Refused(Some(report)) =>
           policy.selected == report.selectorAfter && policy.recommended == sight.selected
           && policy.status == if report.rollbackVerified then Degraded else Failed
         case Refused(None) => policy.selected == NO_PATH && policy.recommended == sight.selected
           && policy.status == Failed
         case Lost(_, _) => policy.selected == NO_PATH && policy.status == Failed
  {
    TargetIsAlternate(file, sight);
    hide Evaluate;
  }

  // ---- Runs -------------------------------------------------------------------------------

  function FileAt(run: seq<Turn>, k: nat): FileState
    requires k <= |run|
  {
    if k == 0 then NO_FILE else NextFile(FileAt(run, k - 1), run[k - 1])
  }

  /** A whole life of the watcher from an empty state file. */
  ghost predicate Life(run: seq<Turn>) {
    forall k :: 0 <= k < |run| ==> Performed(FileAt(run, k), run[k])
  }

  /** A positive overlay probe in a written state always belongs to the path that state names
      as selected. */
  lemma {:induction false} OverlayNamesSelected(run: seq<Turn>, k: nat)
    requires k <= |run|
    requires FileAt(run, k).overlay.Some? && FileAt(run, k).overlay.value.ok
    ensures FileAt(run, k).overlay.value.path == FileAt(run, k).policy.selected
  {
    hide Evaluate;
    var turn := run[k - 1];
    if turn.Look? {
      PolicyRuns.EvaluationKeepsSelected(turn.sight.selected, turn.sight.Seen(), FileAt(run, k - 1).policy,
                              turn.sight.When(), turn.sight.at);
    }
  }

  // ---- The backoff clock over runs -----------------------------------------------------------

  /** Each window is exactly min(300, 30 * 2^(n-1)) seconds long. */
  lemma {:induction false} WindowLength(n: nat)
    requires n >= 1
    ensures SwitchDelay(n) == Min(300, 30 * Octets.Pow2(n - 1))
    ensures 30 <= SwitchDelay(n) <= 300
  {
    Octets.Pow2Monotone(0, Min(n - 1, 8));
    if n - 1 > 8 { Octets.Pow2Monotone(8, n - 1); }
  }

  /** A refused activation opens the next window at once; a lost one opens none and leaves the
      stored failures and the retry clock of the preferred path as they were. */
  lemma {:induction false} LostOpensNoWindow(file: FileState, sight: Sight, outcome: Outcome)
    requires Candidate(sight.selected) && Activates(file, sight) && !outcome.Switched?
    ensures var after := NextFile(file, Look(sight, Some(outcome)));
      var failure := Some(NextSwitchFailure(file, AlternateOf(sight.selected), sight.at));
      if outcome.Refused? then after.switchBackoff == failure == after.lastSwitchFailure
      else && after.switchBackoff == file.switchBackoff && after.lastSwitchFailure == file.lastSwitchFailure
           && after.policy.preferredRetry == file.policy.preferredRetry
  {
    TargetIsAlternate(file, sight);
    hide Evaluate, NextSwitchFailure;
  }

  /** A series of refused activations of one path: how many, and when the last one happened. */
  datatype Streak = Streak(target: Path, count: nat, last: int) {
    /** What the last refusal of the series records. */
    function Record(): SwitchFailure { SwitchFailure(target, count, last, End()) }

    function End(): int { last + SwitchDelay(count) * SECOND }
  }

  /** The series after one more turn. A refusal within half an hour prolongs the series of its path; a
      look that finds the other path to be the alternative, or a success, ends it. */
  function Prolonged(before: Option<Streak>, turn: Turn): Option<Streak> {
    match turn
    case Lapse(_, _, _, _) => before
    case Look(sight, outcome) =>
      var target := AlternateOf(sight.selected);
      var same := if before.Some? && before.value.target == target then before else None;
      match outcome
      case None => same
      case Some(Lost(_, _)) => before
      case Some(Switched(_)) => None
      case Some(Refused(_)) =>
        if same.Some? && sight.at - same.value.last < STABLE_RESET
        then Some(Streak(target, same.value.count + 1, sight.at)) else Some(Streak(target, 1, sight.at))
  }

  /** The series before turn k, read off the turns alone. */
  function Series(run: seq<Turn>, k: nat): Option<Streak>
    requires k <= |run|
  {
    if k == 0 then None else Prolonged(Series(run, k - 1), run[k - 1])
  }

  /** A life whose clock never runs backwards. */
  ghost predicate Onward(run: seq<Turn>) {
    Life(run) && forall j, k :: 0 <= j <= k < |run| ==> run[j].Time() <= run[k].Time()
  }

  /** The stored failures are exactly the last one of the series, kept as long as they matter. */
  ghost predicate Tracks(file: FileState, series: Option<Streak>, now: int) {
    && (file.switchBackoff.Some? ==> series.Some? && file.switchBackoff.value == series.value.Record())
    && (file.lastSwitchFailure.Some? ==> series.Some? && file.lastSwitchFailure.value == series.value.Record())
    && (series.Some? ==>
          && series.value.count >= 1 && series.value.last <= now && Candidate(series.value.target)
          && (now < series.value.End() ==> file.switchBackoff.Some?)
          && (now - series.value.last < STABLE_RESET ==> file.switchBackoff.Some? || file.lastSwitchFailure.Some?))
  }

  lemma {:induction false} TracksStep(file: FileState, turn: Turn, series: Option<Streak>, now: int)
    requires Tracks(file, series, now) && now <= turn.Time() && Performed(file, turn)
    ensures Tracks(NextFile(file, turn), Prolonged(series, turn), turn.Time())
  {
    hide Evaluate, Decide;
    if turn.Look? && turn.outcome.None? {
      TracksLook(file, turn.sight, series, now);
    } else if turn.Look? && turn.outcome.value.Refused? {
      TracksRefusal(file, turn.sight, series, now, turn.outcome.value);
    }
    hide SwitchDelay;
  }

  lemma {:induction false} TracksLook(file: FileState, sight: Sight, series: Option<Streak>, now: int)
    requires Tracks(file, series, now) && now <= sight.at
    ensures Tracks(Decide(file, sight), Prolonged(series, Look(sight, None)), sight.at)
  {
    hide Evaluate, SwitchDelay;
    if series.Some? {
      WindowLength(series.value.count);
      assert series.value.End() - series.value.last <= 300 * SECOND;
    }
  }

  /** A refusal records itself as the last one of the prolonged series. */
  lemma {:induction false} TracksRefusal(file: FileState, sight: Sight, series: Option<Streak>, now: int,
                                         outcome: Outcome)
    requires Tracks(file, series, now) && now <= sight.at && Candidate(sight.selected)
    requires Activates(file, sight) && outcome.Refused?
    ensures Tracks(Finish(file, sight, outcome), Prolonged(series, Look(sight, Some(outcome))), sight.at)
  {
    hide Evaluate, SwitchDelay;
    TargetIsAlternate(file, sight);
    hide Decide;
    if series.Some? { WindowLength(series.value.count); }
    var after := Prolonged(series, Look(sight, Some(outcome))).value;
    assert NextSwitchFailure(file, AlternateOf(sight.selected), sight.at) == after.Record();
    hide NextSwitchFailure;
  }

  function LastTime(run: seq<Turn>, k: nat): int
    requires k <= |run|
  {
    if k > 0 then run[k - 1].Time() else if run != [] then run[0].Time() else 0
  }

  lemma {:induction false} TracksAlways(run: seq<Turn>, k: nat)
    requires k <= |run| && Onward(run)
    ensures Tracks(FileAt(run, k), Series(run, k), LastTime(run, k))
  {
    hide Evaluate, NextFile, Decide, Prolonged;
    if k > 0 {
      TracksAlways(run, k - 1);
      assert LastTime(run, k - 1) <= run[k - 1].Time();
      assert Performed(FileAt(run, k - 1), run[k - 1]);
      hide Tracks;
      TracksStep(FileAt(run, k - 1), run[k - 1], Series(run, k - 1), LastTime(run, k - 1));
    }
  }

  /** Neither ordinary turns nor failed and maintenance observations lose the record of the last
      refused activation: its window stays active until its end, its count for half an hour. */
  lemma {:induction false} FailureRemembered(run: seq<Turn>, k: nat)
    requires k < |run| && Onward(run) && Series(run, k).Some?
    ensures var streak := Series(run, k).value; var now := run[k].Time();
      && (now < streak.End() ==> BackoffActive(FileAt(run, k), streak.target, now) == Some(streak.Record()))
      && (now - streak.last < STABLE_RESET ==>
          FailureHistory(FileAt(run, k), streak.target, now) == Some(streak.Record()))
  {
    hide Evaluate, FileAt, Series;
    TracksAlways(run, k);
    assert k > 0 by { SeriesBegins(run); }
    WindowLength(Series(run, k).value.count);
    assert LastTime(run, k) <= run[k].Time();
  }

  lemma {:induction false} SeriesBegins(run: seq<Turn>)
    ensures Series(run, 0).None?
  {
  }

  /** Turn k finds the alternative path in the window opened by its last refusal. */
  predicate InWindow(run: seq<Turn>, k: nat)
    requires k < |run| && run[k].Look?
  {
    && Series(run, k).Some? && Series(run, k).value.target == AlternateOf(run[k].sight.selected)
    && run[k].Time() < Series(run, k).value.End()
  }

  /** Backoff is active exactly in the window. */
  lemma {:induction false} WindowIsBackoff(run: seq<Turn>, k: nat)
    requires k < |run| && run[k].Look? && Onward(run)
    ensures BackoffActive(FileAt(run, k), AlternateOf(run[k].sight.selected), run[k].Time()).Some? <==> InWindow(run, k)
  {
    hide Evaluate, FileAt, Series;
    TracksAlways(run, k);
  }

  lemma {:induction false} DecisionSplits(file: FileState, sight: Sight)
    ensures var e := Evaluate(sight.selected, sight.Seen(), file.policy, sight.When(), sight.at);
      Activates(file, sight) <==>
        && e.wouldSwitch
        && (BackoffActive(file, AlternateOf(sight.selected), sight.at).Some? ==>
              e.hardFailure && sight.SaysDead(sight.selected))
  {
    hide Evaluate;
  }

  // ---- The loop runs the policy -------------------------------------------------------------------

  /** A turn as the policy runs see it. */
  function Project(file: FileState, turn: Turn): PolicyRuns.Cycle {
    match turn
    case Look(sight, outcome) =>
      var policy := NextFile(file, turn).policy;
      PolicyRuns.Observed(sight.selected, Tag(sight.wg, sight.cycleId), Tag(sight.hy2, sight.cycleId),
                          sight.When(), sight.at,
                          if Activates(file, sight) && outcome.Some? && outcome.value.Lost?
                          then PolicyRuns.Lost(Stamp(outcome.value.text, Some(outcome.value.at)))
                          else if Activates(file, sight) && outcome.Some?
                          then PolicyRuns.Reopened(policy.selected, policy.status, policy.recommended)
                          else PolicyRuns.Kept(policy.status, policy.recommended, policy.wouldSwitch))
    case Lapse(selected, at, text, maintenance) =>
      PolicyRuns.Unobserved(selected, Stamp(text, Some(at)), if maintenance then Maintenance else Failed)
  }

  function Projected(run: seq<Turn>): (cycles: seq<PolicyRuns.Cycle>)
    ensures |cycles| == |run|
  {
    seq(|run|, k requires 0 <= k < |run| => Project(FileAt(run, k), run[k]))
  }

  /** The evaluation a cycle stands for, from a given state. */
  function Consult(cycle: PolicyRuns.Cycle, previous: State): State
    requires cycle.Observed?
  {
    Evaluate(cycle.selected, Probes(Normalize(cycle.wg), Normalize(cycle.hy2)), previous, cycle.at, cycle.wallClock)
  }

  lemma {:induction false} PolicyStep(file: FileState, sight: Sight, outcome: Option<Outcome>)
    ensures var cycle := Project(file, Look(sight, outcome));
      && cycle.Observed? && cycle.selected == sight.selected && cycle.at == sight.When()
      && NextFile(file, Look(sight, outcome)).policy
         == PolicyRuns.Stored(file.policy, Consult(cycle, file.policy), cycle.after)
      && Decide(file, sight).policy.hardFailure == Consult(cycle, file.policy).hardFailure
      && (Activates(file, sight) ==> Decide(file, sight).policy == Consult(cycle, file.policy))
  {
    hide Evaluate;
    PolicyRuns.EvaluationKeepsSelected(sight.selected, sight.Seen(), file.policy, sight.When(), sight.at);
  }

  lemma {:induction false} LapseStep(file: FileState, turn: Turn)
    requires turn.Lapse?
    ensures var cycle := Project(file, turn);
      && cycle.Unobserved?
      && NextFile(file, turn).policy == PolicyRuns.Observation(file.policy, cycle.selected, cycle.at, cycle.status)
  {
  }

  /** The policy part of the state file evolves as a run of the policy, so the guarantees about
      failover, failback and flapping hold for every life of the watcher. */
  lemma {:induction false} LoopRunsPolicy(run: seq<Turn>, k: nat)
    requires k <= |run|
    ensures FileAt(run, k).policy == PolicyRuns.StateAt(Projected(run), k)
  {
    hide Evaluate, Decide, Finish, NextFile, Project;
    if k > 0 {
      hide PolicyRuns.StateAt, PolicyRuns.Evaluated;
      LoopRunsPolicy(run, k - 1);
      assert Projected(run)[k - 1] == Project(FileAt(run, k - 1), run[k - 1]);
      ProjectStep(run[k - 1], FileAt(run, k - 1), Projected(run), k - 1);
    }
  }

  lemma {:induction false} ProjectStep(turn: Turn, file: FileState, cycles: seq<PolicyRuns.Cycle>, k: nat)
    requires k < |cycles| && cycles[k] == Project(file, turn) && PolicyRuns.StateAt(cycles, k) == file.policy
    ensures PolicyRuns.StateAt(cycles, k + 1) == NextFile(file, turn).policy
  {
    hide Evaluate, Decide, Finish, NextFile, Project;
    if turn.Look? {
      PolicyStep(file, turn.sight, turn.outcome);
      assert PolicyRuns.Evaluated(cycles, k) == Consult(cycles[k], file.policy);
    } else {
      LapseStep(file, turn);
    }
  }

  /** Every activation the loop starts is a recommendation of that policy run. */
  lemma {:induction false} LoopFollowsPolicy(run: seq<Turn>, k: nat)
    requires k < |run| && run[k].Look? && Activates(FileAt(run, k), run[k].sight)
    ensures Projected(run)[k].Observed? && Projected(run)[k].selected == run[k].sight.selected
    ensures Projected(run)[k].at == run[k].sight.When()
    ensures Decide(FileAt(run, k), run[k].sight).policy == PolicyRuns.Evaluated(Projected(run), k)
  {
    hide Evaluate, Decide, NextFile;
    LoopRunsPolicy(run, k);
    PolicyStep(FileAt(run, k), run[k].sight, run[k].outcome);
    assert Projected(run)[k] == Project(FileAt(run, k), run[k]);
  }

  /** When the loop activates: exactly when the policy run asks for a switch and the alternative path is
      not in the window of its last refusal, or the selected path is known to be dead: hard-failure
      evidence and a failed overlay probe. */
  lemma {:induction false} ActivatesExactly(run: seq<Turn>, k: nat)
    requires k < |run| && run[k].Look? && Onward(run)
    ensures Projected(run)[k].Observed?
    ensures var e := PolicyRuns.Evaluated(Projected(run), k);
      Activates(FileAt(run, k), run[k].sight) <==>
        e.wouldSwitch && (InWindow(run, k) ==> e.hardFailure && run[k].sight.SaysDead(run[k].sight.selected))
  {
    hide Evaluate, Decide, NextFile, InWindow, Onward, BackoffActive;
    LoopRunsPolicy(run, k);
    DecisionSplits(FileAt(run, k), run[k].sight);
    WindowIsBackoff(run, k);
    assert Projected(run)[k] == Project(FileAt(run, k), run[k]);
    hide FileAt;
  }

  lemma {:induction false} ProjectedTimestamped(run: seq<Turn>)
    requires Life(run)
    ensures PolicyRuns.Timestamped(Projected(run))
  {
    hide Evaluate, Decide, NextFile;
    forall j | 0 <= j < |run| && Projected(run)[j].Observed? ensures Projected(run)[j].at.text != "" {
      assert Performed(FileAt(run, j), run[j]);
    }
  }

  /** Turn k of a life activates the preferred path although the fallback is healthy. */
  ghost predicate FailsBack(run: seq<Turn>, k: nat)
    requires k < |run| && run[k].Look?
  {
    && Life(run) && run[k].sight.selected == Hy2 && Activates(FileAt(run, k), run[k].sight)
    && PolicyRuns.FallbackHealthyAt(Projected(run), k)
  }

  /** The loop activates the preferred path from a healthy fallback only after five minutes of
      uninterrupted recovery evidence. */
  lemma {:induction false} LoopFailsBackLate(run: seq<Turn>, k: nat)
    requires k < |run| && run[k].Look?
    ensures FailsBack(run, k) ==>
      exists s: nat :: PolicyRuns.RecoveryStretch(Projected(run), s, k)
                       && run[k].Time() - run[s].Time() >= RECOVERY_MIN_SECONDS * SECOND
  {
    hide Evaluate, Decide, NextFile, PolicyRuns.PreferredSamples, PolicyRuns.Chained, PolicyRuns.ThreeCycleIds;
    if FailsBack(run, k) {
      LoopFollowsPolicy(run, k);
      TargetIsAlternate(FileAt(run, k), run[k].sight);
      ProjectedTimestamped(run);
      PolicyRuns.VoluntaryFailback(Projected(run), k);
      var s: nat :| PolicyRuns.RecoveryStretch(Projected(run), s, k) && Projected(run)[s].at.at.Some?
        && Projected(run)[k].at.at.value - Projected(run)[s].at.at.value >= RECOVERY_MIN_SECONDS * SECOND;
      assert PolicyRuns.FallbackHealthyAt(Projected(run), s);
      assert Projected(run)[s] == Project(FileAt(run, s), run[s]);
    }
  }

  /** A hard-failure activation of the loop rests on the evidence a hard-failure recommendation of
      the policy rests on. */
  lemma {:induction false} LoopFailoverNeedsEvidence(run: seq<Turn>, k: nat)
    requires k < |run| && run[k].Look?
    ensures Activates(FileAt(run, k), run[k].sight) && Decide(FileAt(run, k), run[k].sight).policy.hardFailure ==>
      var cycles := Projected(run); var path := run[k].sight.selected;
      && (exists i, reason :: PolicyRuns.FailureStretch(cycles, i, k, path, reason)
                              && PolicyRuns.TwoCycles(PolicyRuns.Trail(cycles, i, k, path)))
      && (exists i :: PolicyRuns.AlternateStretch(cycles, i, k, path)
                      && PolicyRuns.TwoCycles(PolicyRuns.Trail(cycles, i, k, AlternateOf(path))))
  {
    hide Evaluate, Decide, NextFile, PolicyRuns.FailureStretch, PolicyRuns.AlternateStretch, PolicyRuns.Trail,
         PolicyRuns.TwoCycles;
    if Activates(FileAt(run, k), run[k].sight) && Decide(FileAt(run, k), run[k].sight).policy.hardFailure {
      LoopFollowsPolicy(run, k);
      PolicyRuns.FailoverNeedsEvidence(Projected(run), k);
    }
  }

  // ---- When the loop does switch -----------------------------------------------------------------

  /** Every look of the loop has an identifier of its own. */
  predicate FreshCycles(run: seq<Turn>) {
    && (forall k :: 0 <= k < |run| && run[k].Look? ==> run[k].sight.cycleId != "")
    && (forall j, k :: 0 <= j < k < |run| && run[j].Look? && run[k].Look? ==>
          run[j].sight.cycleId != run[k].sight.cycleId)
  }

  lemma {:induction false} ProjectedFresh(run: seq<Turn>, path: Path)
    requires FreshCycles(run)
    ensures PolicyRuns.FreshIds(Projected(run), path)
  {
    hide Evaluate, Decide, NextFile, FileAt;
    var cycles := Projected(run);
    forall k | 0 <= k < |run| && cycles[k].Observed?
      ensures run[k].Look? && PolicyRuns.SampleAt(cycles, k, path).id == run[k].sight.cycleId
    {
      assert cycles[k] == Project(FileAt(run, k), run[k]);
    }
  }

  /** What the loop keeps never makes the policy drop its evidence. */
  lemma {:induction false} ProjectedRemembered(run: seq<Turn>, s: nat, k: nat)
    requires s <= k <= |run| && Life(run)
    ensures PolicyRuns.Remembered(Projected(run), s, k)
  {
    hide Evaluate, FileAt;
    var cycles := Projected(run);
    forall j | s <= j < k && cycles[j].Observed? && cycles[j].after.Kept? ensures !cycles[j].after.wouldSwitch {
      assert Performed(FileAt(run, j), run[j]);
      assert cycles[j] == Project(FileAt(run, j), run[j]);
    }
  }

  /** Turn k finds that the fallback has been healthy, and every preferred probe good, since turn s. */
  ghost predicate Recovered(run: seq<Turn>, s: nat, k: nat)
    requires s <= k < |run|
  {
    var cycles := Projected(run);
    && PolicyRuns.RecoveryStretch(cycles, s, k) && PolicyRuns.PreferredProbedAt(cycles, k)
    && PolicyRuns.Chained(PolicyRuns.PreferredSamples(cycles, s, k), PREFERRED_MAX_GAP)
    && PolicyRuns.Instants(PolicyRuns.PreferredSamples(cycles, s, k)) >= RECOVERY_CONFIRMATIONS
    && run[k].Time() - run[s].Time() >= RECOVERY_MIN_SECONDS * SECOND
  }

  lemma {:induction false} ProjectedLook(run: seq<Turn>, k: nat)
    requires k < |run| && Projected(run)[k].Observed?
    ensures run[k].Look? && Projected(run)[k].selected == run[k].sight.selected
    ensures Projected(run)[k].at.at == Some(run[k].Time())
  {
    hide Evaluate, Decide, NextFile, FileAt;
  }

  /** The loop does fail back: five minutes of recovery with good preferred probes at three times or
      more, at most 90 s apart, and it activates the preferred path, unless that path refused an
      activation and its window is open. */
  lemma {:induction false} LoopFailsBack(run: seq<Turn>, s: nat, k: nat)
    requires s <= k < |run| && Onward(run) && FreshCycles(run) && Recovered(run, s, k)
    ensures run[k].Look? && (!InWindow(run, k) ==>
      Activates(FileAt(run, k), run[k].sight) && Decide(FileAt(run, k), run[k].sight).policy.recommended == PREFERRED)
  {
    hide Evaluate, Decide, NextFile, InWindow, FileAt, PolicyRuns.PreferredSamples, PolicyRuns.Chained,
      PolicyRuns.Instants, PolicyRuns.FreshIds, PolicyRuns.Remembered, FreshCycles;
    var cycles := Projected(run);
    assert PolicyRuns.FallbackHealthyAt(cycles, s) && PolicyRuns.FallbackHealthyAt(cycles, k);
    hide PolicyRuns.RecoveryStretch;
    ProjectedLook(run, s);
    ProjectedLook(run, k);
    ProjectedFresh(run, PREFERRED);
    ProjectedTimestamped(run);
    ProjectedRemembered(run, s, k);
    PolicyRuns.FailbackHappens(cycles, s, k);
    if !InWindow(run, k) { RecommendationActivates(run, k, PREFERRED); }
  }

  /** A recommendation of the other path is activated outside the window. */
  lemma {:induction false} RecommendationActivates(run: seq<Turn>, k: nat, path: Path)
    requires k < |run| && run[k].Look? && Onward(run) && !InWindow(run, k) && path != run[k].sight.selected
    requires Projected(run)[k].Observed? && PolicyRuns.Evaluated(Projected(run), k).recommended == path
    ensures Activates(FileAt(run, k), run[k].sight)
    ensures Decide(FileAt(run, k), run[k].sight).policy.recommended == path
  {
    hide Evaluate, Decide, NextFile, InWindow, FileAt, Onward;
    ProjectedLook(run, k);
    var cycles := Projected(run);
    PolicyRuns.EvaluationKeepsSelected(cycles[k].selected, PolicyRuns.ProbesAt(cycles, k),
                                       PolicyRuns.StateAt(cycles, k),
                                       cycles[k].at, cycles[k].wallClock);
    ActivatesExactly(run, k);
    LoopFollowsPolicy(run, k);
  }

  /** The loop does fail over: two successive looks at most ten seconds apart that find the selected path
      failing for one reason and the other path working activate the other path, outside a window
      or inside it with a dead overlay. */
  lemma {:induction false} LoopFailsOver(run: seq<Turn>, k: nat, path: Path, reason: string)
    requires 0 < k < |run| && Onward(run) && FreshCycles(run)
    requires var cycles := Projected(run);
      && PolicyRuns.FailsAt(cycles, k - 1, path, reason) && PolicyRuns.FailsAt(cycles, k, path, reason)
      && PolicyRuns.AlternateOkAt(cycles, k - 1, path) && PolicyRuns.AlternateOkAt(cycles, k, path)
      && cycles[k - 1].after.Kept?
    requires 0 < run[k].Time() - run[k - 1].Time() <= EVIDENCE_MAX_GAP
    ensures run[k].Look? && (!InWindow(run, k) || run[k].sight.SaysDead(path) ==>
      Activates(FileAt(run, k), run[k].sight))
  {
    hide Evaluate, Decide, NextFile, InWindow, FileAt, PolicyRuns.FreshIds, FreshCycles;
    var cycles := Projected(run);
    ProjectedLook(run, k - 1);
    ProjectedLook(run, k);
    ProjectedFresh(run, path);
    ProjectedFresh(run, AlternateOf(path));
    ProjectedRemembered(run, k - 1, k);
    PolicyRuns.PromptFailover(cycles, k, path, reason);
    ActivatesExactly(run, k);
  }

  /** The loop does leave a degraded path: two quality samples 15 to 30 s apart activate the other path
      outside a window; the fallback is also held by the retry clock. */
  lemma {:induction false} LoopLeavesDegraded(run: seq<Turn>, i: nat, k: nat, path: Path, reason: string)
    requires k < |run| && Onward(run) && FreshCycles(run)
    requires PolicyRuns.SampledTwice(Projected(run), i, k, path, reason)
    ensures run[k].Look?
    ensures !InWindow(run, k) && (path == Wg || !RetryActive(FileAt(run, k).policy.preferredRetry, run[k].sight.When()))
      ==> Activates(FileAt(run, k), run[k].sight)
  {
    hide Evaluate, Decide, NextFile, InWindow, FileAt, PolicyRuns.FreshIds, FreshCycles, RetryActive;
    var cycles := Projected(run);
    assert PolicyRuns.DegradedAt(cycles, k, path, reason);
    hide PolicyRuns.SampledTwice;
    ProjectedLook(run, k);
    ProjectedFresh(run, path);
    LoopRunsPolicy(run, k);
    assert cycles[k].at == run[k].sight.When();
    if !InWindow(run, k) && (path == Wg || !RetryActive(FileAt(run, k).policy.preferredRetry, run[k].sight.When())) {
      PolicyRuns.DegradedHappens(cycles, i, k, path, reason);
      RecommendationActivates(run, k, AlternateOf(path));
    }
  }

  // ---- Flapping of the loop -------------------------------------------------------------------------

  /** From turn i to turn k the clock never runs backwards, and the selected path is probed in every
      turn that looks, which the probe collector always does. */
  ghost predicate AlwaysProbed(run: seq<Turn>, i: nat, k: nat)
    requires i <= k < |run|
  {
    && (forall j, m :: i <= j <= m <= k ==> run[j].Time() <= run[m].Time())
    && (forall j :: i <= j <= k && run[j].Look? ==>
          run[j].sight.Of(run[j].sight.selected).Raw? && run[j].sight.Of(run[j].sight.selected).checked == Some(true))
  }

  lemma {:induction false} ProjectedWatched(run: seq<Turn>, i: nat, k: nat)
    requires i <= k < |run| && Life(run) && AlwaysProbed(run, i, k)
    ensures PolicyRuns.Watched(Projected(run), i, k)
  {
    hide Evaluate, Decide, NextFile, FileAt;
    var cycles := Projected(run);
    forall j | i <= j <= k
      ensures cycles[j].at.at == Some(run[j].Time())
      ensures cycles[j].Observed? ==>
              Candidate(cycles[j].selected) && PolicyRuns.ProbesAt(cycles, j).Of(cycles[j].selected).checked
    {
      assert Performed(FileAt(run, j), run[j]);
    }
  }

  /** Turn k activates the other path from this one, and the turn is not lost. */
  predicate Moves(run: seq<Turn>, k: nat, path: Path)
    requires k < |run|
  {
    && run[k].Look? && run[k].sight.selected == path && Activates(FileAt(run, k), run[k].sight)
    && run[k].outcome.Some? && !run[k].outcome.value.Lost?
  }

  /** Turn k activates the preferred path from a fallback that has not failed hard. */
  predicate ComesBack(run: seq<Turn>, k: nat)
    requires k < |run|
  {
    && run[k].Look? && run[k].sight.selected == Hy2 && Activates(FileAt(run, k), run[k].sight)
    && !Decide(FileAt(run, k), run[k].sight).policy.hardFailure
  }

  /** The anti-flap minute of the running loop: after an activation away from the preferred path that
      is not lost, no activation goes back within a minute unless the fallback has failed hard. */
  lemma {:induction false} LoopAntiFlap(run: seq<Turn>, i: nat, k: nat)
    requires i < k < |run|
    ensures Life(run) && AlwaysProbed(run, i, k) && Moves(run, i, Wg) && ComesBack(run, k) ==>
      run[k].Time() - run[i].Time() >= RETRY_BASE_SECONDS * SECOND
  {
    hide Evaluate, Decide, NextFile;
    if Life(run) && AlwaysProbed(run, i, k) && Moves(run, i, Wg) && ComesBack(run, k) {
      LoopFollowsPolicy(run, i);
      LoopFollowsPolicy(run, k);
      TargetIsAlternate(FileAt(run, i), run[i].sight);
      TargetIsAlternate(FileAt(run, k), run[k].sight);
      ProjectedTimestamped(run);
      ProjectedWatched(run, i, k);
      assert Projected(run)[i] == Project(FileAt(run, i), run[i]);
      PolicyRuns.AntiFlap(Projected(run), i, k);
    }
  }

  // A life that probes in every turn and is back on the preferred path's activation 18 s after leaving
  // it: the activation at 2 s is applied but its exchange escapes, so the retry clock is never stored.
  const SUSPECTING: Sight := Sight(Wg, PolicyRuns.DOWN, PolicyRuns.UP, 0, "t", "a")
  const LEAVING: Sight := Sight(Wg, PolicyRuns.DOWN, PolicyRuns.UP, 2 * SECOND, "t", "b")
  const DEGRADING: Sight := Sight(Hy2, PolicyRuns.UP, PolicyRuns.LOSSY, 4 * SECOND, "t", "c")
  const RETURNING: Sight := Sight(Hy2, PolicyRuns.UP, PolicyRuns.LOSSY, 20 * SECOND, "t", "d")

  const ESCAPING: seq<Turn> := [
    Look(SUSPECTING, None), Look(LEAVING, Some(Lost(3 * SECOND, "t"))), Look(DEGRADING, None),
    Look(RETURNING, Some(Refused(None)))]

  predicate Unhindered(file: FileState) { file.switchBackoff.None? && file.lastSwitchFailure.None? }

  /** Without recorded failures the loop stores what the policy answers. */
  lemma {:induction false} UnhinderedDecide(file: FileState, sight: Sight)
    requires Unhindered(file)
    ensures var decided := Decide(file, sight);
      && decided.policy == Evaluate(sight.selected, sight.Seen(), file.policy, sight.When(), sight.at)
      && decided.switchBackoff.None? && decided.lastSwitchFailure.None?
  {
    hide Evaluate;
  }

  lemma {:induction false} EscapingFiles()
    ensures FileAt(ESCAPING, 0) == NO_FILE
    ensures FileAt(ESCAPING, 1) == NextFile(NO_FILE, Look(SUSPECTING, None))
    ensures FileAt(ESCAPING, 2) == NextFile(FileAt(ESCAPING, 1), Look(LEAVING, Some(Lost(3 * SECOND, "t"))))
    ensures FileAt(ESCAPING, 3) == NextFile(FileAt(ESCAPING, 2), Look(DEGRADING, None))
  {
    hide NextFile;
  }

  lemma {:induction false} EscapingSuspects()
    ensures !Activates(NO_FILE, SUSPECTING)
    ensures var file := FileAt(ESCAPING, 1); var at := SUSPECTING.When();
      && Unhindered(file) && file.policy.preferredRetry.None?
      && file.policy.selected == Wg && file.policy.status == Suspect && file.policy.updatedAt == at
      && file.policy.failure == Some(Evidence(Wg, "timeout", 1, ["a"], at, NEVER, NEVER, 0))
      && file.policy.alternateHealth == Some(Evidence(Hy2, "healthy", 1, ["a"], at, NEVER, NEVER, 0))
  {
    EscapingFiles();
    UnhinderedDecide(NO_FILE, SUSPECTING);
    assert LastThree([] + ["a"]) == ["a"];
    hide Decide, FileAt;
    PolicyRuns.FailingCycle(Wg, SUSPECTING.Seen(), BLANK, SUSPECTING.When(), SUSPECTING.at);
  }

  lemma {:induction false} EscapingLeaves()
    ensures Activates(FileAt(ESCAPING, 1), LEAVING)
    ensures var file := FileAt(ESCAPING, 2);
      && Unhindered(file) && file.policy == PolicyState(NO_PATH, Stamp("t", Some(3 * SECOND)), Failed, NO_PATH, false)
  {
    hide Decide, FileAt, Evaluate;
    EscapingFiles();
    EscapingSuspects();
    var file := FileAt(ESCAPING, 1);
    UnhinderedDecide(file, LEAVING);
    PolicyRuns.FailingCycle(Wg, LEAVING.Seen(), file.policy, LEAVING.When(), LEAVING.at);
  }

  lemma {:induction false} EscapingDegrades()
    ensures !Activates(FileAt(ESCAPING, 2), DEGRADING)
    ensures var file := FileAt(ESCAPING, 3); var at := DEGRADING.When();
      && Unhindered(file) && file.policy.selected == Hy2 && file.policy.status == Degraded
      && file.policy.preferredRetry.None?
      && file.policy.qualityFailure == Some(Evidence(Hy2, "packet_loss", 1, ["c"], at, at, NEVER, 0))
  {
    EscapingFiles();
    EscapingLeaves();
    var file := FileAt(ESCAPING, 2);
    UnhinderedDecide(file, DEGRADING);
    hide Decide, FileAt, Evaluate;
    PolicyRuns.FirstSampleStays(DEGRADING.Seen(), file.policy, DEGRADING.When(), DEGRADING.at);
  }

  lemma {:induction false} EscapingReturns()
    ensures Activates(FileAt(ESCAPING, 3), RETURNING)
    ensures !Decide(FileAt(ESCAPING, 3), RETURNING).policy.hardFailure
  {
    hide Decide, FileAt, Evaluate, PolicyRuns.PoorQuality, Normalize, Tag, NextFile;
    EscapingDegrades();
    ReturningSeen();
    var file := FileAt(ESCAPING, 3);
    UnhinderedDecide(file, RETURNING);
    var e := file.policy.qualityFailure.value;
    PolicyRuns.SecondSampleMoves(RETURNING.Seen(), file.policy, e, RETURNING.When(), RETURNING.at);
    PolicyRuns.EvaluationKeepsSelected(Hy2, RETURNING.Seen(), file.policy, RETURNING.When(), RETURNING.at);
  }

  lemma {:induction false} ReturningSeen()
    ensures var wg, hy2 := RETURNING.Seen().wg, RETURNING.Seen().hy2;
      && wg.checked && wg.ok && wg.healthConfirmed && wg.qualityChecked == Some(true) && wg.qualityOk == Some(true)
      && hy2.checked && hy2.ok && PolicyRuns.PoorQuality(hy2) && hy2.qualitySampled
      && hy2.cycleId == "d" && hy2.qualityReason == "packet_loss"
  {
  }

  /** The exception for lost turns in LoopAntiFlap is needed: in this life the loop leaves the
      preferred path at 2 s and activates it again at 20 s. */
  lemma {:induction false} LoopFlapsAfterEscape()
    ensures Life(ESCAPING) && AlwaysProbed(ESCAPING, 0, 3)
    ensures ESCAPING[1].sight.selected == Wg && Activates(FileAt(ESCAPING, 1), ESCAPING[1].sight)
    ensures ComesBack(ESCAPING, 3) && ESCAPING[3].Time() - ESCAPING[1].Time() == 18 * SECOND
  {
    EscapingFiles();
    EscapingSuspects();
    EscapingLeaves();
    EscapingDegrades();
    EscapingReturns();
    hide Decide, FileAt, NextFile, Evaluate, Activates;
    forall k | 0 <= k < 4 ensures Performed(FileAt(ESCAPING, k), ESCAPING[k]) {
      assert k == 0 || k == 1 || k == 2 || k == 3;
    }
  }
}
