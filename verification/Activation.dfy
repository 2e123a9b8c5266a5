/** The activation transaction of server_transport.py: move the remote selector, prove the
    overlay, and put the selector back when anything fails.

    The controller and the overlay are adversaries: every answer is arbitrary. A PUT may fail
    after it has been applied, the selector may move by itself, and a proof may pass or fail. A
    reply that is cut short raises an HTTP protocol exception, which no handler of the transaction
    catches: it escapes. The log records what was actually exchanged; all guarantees are stated
    about the log. */
module Activation {
  import opened Wrappers
  import opened TransportPolicy

  const PROOF_ATTEMPTS: nat := 5

  datatype Phase = ActivationPhase | RollbackPhase

  datatype Event =
    | SelectorSeen(path: Path)
    | SelectorPut(path: Path, acknowledged: bool)
    | RelayReset(done: bool)
    | OverlayProved(phase: Phase, path: Path, passed: bool)
    | Escaped

  /** How a step ends: an ordinary failure is handled, an escape is not. */
  datatype Ending = Passed | Fails | Escapes

  /** The events of a step with this ending. */
  function Ended(ending: Ending, done: Event, undone: Event): seq<Event> {
    [if ending.Passed? then done else undone] + if ending.Escapes? then [Escaped] else []
  }

  /** One overlay DNS probe round. */
  datatype Round = Round(ok: bool, healthConfirmed: bool, inTime: bool) {
    predicate Convinces() { ok && healthConfirmed && inTime }
  }

  datatype ProbeNote = ProbeNote(checked: bool, ok: bool, phase: Phase, path: Path)

  datatype ProofNote = ProofNote(ok: bool, phase: Phase, path: Path, selectorAfter: Path, probe: ProbeNote)

  datatype Report = Report(selectorBefore: Path, selectorRequested: Path, selectorAfter: Path, changed: bool,
                           ok: bool, rollbackVerified: bool, activationProof: Option<ProofNote>,
                           rollbackProof: Option<ProofNote>)

  datatype SwitchError =
    | UnknownCandidate
    | SelectorNotRecoverable
    | SwitchFailed(report: Report)
    | ExchangeEscaped

  const NO_PATH: Path := Unknown("")

  // ---- What a log of exchanges shows -----------------------------------------------

  /** The selector according to the most recent look at it. */
  function LastSeen(log: seq<Event>): Path {
    if log == [] then NO_PATH
    else if log[|log| - 1].SelectorSeen? then log[|log| - 1].path
    else LastSeen(log[..|log| - 1])
  }

  /** The last path a PUT asked for, if any. */
  function LastPut(log: seq<Event>): Option<Path> {
    if log == [] then None
    else if log[|log| - 1].SelectorPut? then Some(log[|log| - 1].path)
    else LastPut(log[..|log| - 1])
  }

  /** A proof on this path passed, was followed by a look that confirmed the path, and nothing
      since then moved the selector or saw it elsewhere. */
  ghost predicate ProvedAndHeld(log: seq<Event>, phase: Phase, path: Path) {
    exists i :: 0 <= i < |log| - 1 && log[i] == OverlayProved(phase, path, true)
                && forall j :: i < j < |log| ==> log[j] == SelectorSeen(path)
  }

  /** Something in the exchange went against the switch to this path. */
  ghost predicate Disturbed(log: seq<Event>, path: Path) {
    exists i :: 0 <= i < |log| && (
      match log[i]
      case SelectorSeen(seen) => seen != path
      case SelectorPut(_, acknowledged) => !acknowledged
      case RelayReset(done) => !done
      case OverlayProved(_, _, passed) => !passed
      case Escaped => true)
  }

  /** Every exchange came back to the transaction. */
  predicate NoEscape(log: seq<Event>) { forall i :: 0 <= i < |log| ==> log[i] != Escaped }

  /** The last exchange escaped, and it was the first to do so. */
  predicate EscapedLast(log: seq<Event>) { log != [] && log[|log| - 1] == Escaped && NoEscape(log[..|log| - 1]) }

  lemma {:induction false} LastOfAppended(log: seq<Event>, e: Event)
    ensures LastSeen(log + [e]) == (if e.SelectorSeen? then e.path else LastSeen(log))
    ensures LastPut(log + [e]) == (if e.SelectorPut? then Some(e.path) else LastPut(log))
  {
    assert (log + [e])[..|log|] == log;
  }

  lemma {:induction false} NothingYet()
    ensures LastSeen([]) == NO_PATH && LastPut([]) == None
  {
  }

  lemma {:induction false} ProofFailed(log: seq<Event>, phase: Phase, path: Path, passed: bool, after: Path)
    requires log != [] && !(passed && after == path)
    ensures Disturbed((log + [OverlayProved(phase, path, passed), SelectorSeen(after)])[1..], path)
  {
    var rest := (log + [OverlayProved(phase, path, passed), SelectorSeen(after)])[1..];
    assert rest[|log| - 1] == OverlayProved(phase, path, passed);
    assert rest[|log|] == SelectorSeen(after);
  }

  lemma {:induction false} SeenElsewhere(log: seq<Event>, path: Path)
    requires log != [] && log[|log| - 1].SelectorSeen? && log[|log| - 1].path != path
    ensures Disturbed(log, path)
  {
  }

  lemma {:induction false} DisturbedLater(log: seq<Event>, more: seq<Event>, path: Path)
    requires Disturbed(log, path)
    ensures Disturbed(log + more, path)
  {
    var i :| 0 <= i < |log| && (
      match log[i]
      case SelectorSeen(seen) => seen != path
      case SelectorPut(_, acknowledged) => !acknowledged
      case RelayReset(done) => !done
      case OverlayProved(_, _, passed) => !passed
      case Escaped => true);
    assert (log + more)[i] == log[i];
  }

  /** Rounds of the convergence proof: it passes exactly when its last round succeeds in time. */
  method ProveOverlay() returns (passed: bool, rounds: seq<Round>)
    ensures |rounds| <= PROOF_ATTEMPTS
    ensures passed <==> rounds != [] && rounds[|rounds| - 1].Convinces()
    ensures forall i :: 0 <= i < |rounds| - 1 ==> !rounds[i].Convinces()
  {
    passed, rounds := false, [];
    var attempt := 1;
    while attempt <= PROOF_ATTEMPTS
      invariant 1 <= attempt <= PROOF_ATTEMPTS + 1 && |rounds| == attempt - 1 && !passed
      invariant forall i :: 0 <= i < |rounds| ==> !rounds[i].Convinces()
    {
      var expired: bool := *;
      if expired { return; }
      var round: Round := *;
      rounds := rounds + [round];
      if round.Convinces() {
        passed := true;
        return;
      }
      attempt := attempt + 1;
    }
  }

  /** The probe in a note never claims a path other than the one seen after it. */
  predicate NoteInOrder(note: ProofNote) { note.probe.path == note.selectorAfter }

  lemma {:induction false} HeldAfterProof(log: seq<Event>, phase: Phase, path: Path)
    ensures ProvedAndHeld(log + [OverlayProved(phase, path, true), SelectorSeen(path)], phase, path)
  {
    var longer := log + [OverlayProved(phase, path, true), SelectorSeen(path)];
    assert longer[|log|] == OverlayProved(phase, path, true);
  }

  lemma {:induction false} StillHeld(log: seq<Event>, phase: Phase, path: Path)
    requires ProvedAndHeld(log, phase, path)
    ensures ProvedAndHeld(log + [SelectorSeen(path)], phase, path)
  {
    var i :| 0 <= i < |log| - 1 && log[i] == OverlayProved(phase, path, true)
             && forall j :: i < j < |log| ==> log[j] == SelectorSeen(path);
    var longer := log + [SelectorSeen(path)];
    assert longer[i] == OverlayProved(phase, path, true);
  }

  /** Something went against the PUT that asked for the old path, or happened after it. */
  ghost predicate RollbackDisturbed(log: seq<Event>, path: Path) {
    exists cut :: 0 <= cut < |log| && log[cut].SelectorPut? && log[cut].path == path && Disturbed(log[cut..], path)
  }

  /** What a returned report guarantees about the exchanges behind it. */
  ghost predicate Committed(log: seq<Event>, report: Report, tag: Path) {
    && log != [] && report.ok && report.selectorRequested == tag
    && log[0] == SelectorSeen(report.selectorBefore) && Candidate(report.selectorBefore)
    && LastSeen(log) == tag && report.selectorAfter == tag
    && ProvedAndHeld(log, ActivationPhase, tag)
    && report.changed == (report.selectorBefore != tag)
    && (report.selectorBefore == tag ==> LastPut(log) == None)
    && report.rollbackProof.None?
    && report.activationProof.Some? && Positive(report.activationProof.value, tag)
  }

  /** A proof that passed on this path and found it selected afterwards. */
  predicate Positive(note: ProofNote, path: Path) {
    note.ok && note.path == path && note.selectorAfter == path && note.probe.ok && note.probe.path == path
  }

  /** What the report of a failed switch guarantees. */
  ghost predicate Compensated(log: seq<Event>, report: Report, tag: Path) {
    && log != [] && !report.ok && !report.changed && report.selectorRequested == tag
    && log[0] == SelectorSeen(report.selectorBefore) && Candidate(report.selectorBefore)
    && report.selectorAfter == LastSeen(log)
    && Disturbed(log[1..], tag)
    && LastPut(log) == (if report.selectorBefore == tag then None else Some(report.selectorBefore))
    && (report.selectorBefore != tag && !report.rollbackVerified ==> RollbackDisturbed(log, report.selectorBefore))
    && (report.rollbackVerified ==>
          report.selectorBefore != tag && LastSeen(log) == report.selectorBefore
          && ProvedAndHeld(log, RollbackPhase, report.selectorBefore)
          && report.rollbackProof.Some? && Positive(report.rollbackProof.value, report.selectorBefore))
    && (report.activationProof.Some? ==> NoteInOrder(report.activationProof.value))
    && (report.rollbackProof.Some? ==> NoteInOrder(report.rollbackProof.value))
  }

  /** The note of a proof: its probe names the path seen after the proof, and reports the last round
      only if that is the path that was proved. */
  predicate NoteOf(note: ProofNote, phase: Phase, path: Path, ok: bool, after: Path, rounds: seq<Round>) {
    && note.ok == ok && note.phase == phase && note.path == path && note.selectorAfter == after
    && note.probe.path == after && (ok ==> note.probe == ProbeNote(true, true, phase, path))
    && note.probe.phase == phase && (note.probe.checked <==> after == path && rounds != [])
    && (note.probe.ok <==> after == path && rounds != [] && rounds[|rounds| - 1].ok)
  }

  /** What an escaping exchange leaves; the first moved events belong to the forward part. When that
      part escaped, its PUT was made and the old path was not asked for again; when a later
      exchange did, the forward part had failed and the old path was asked for. */
  ghost predicate Abandoned(log: seq<Event>, moved: nat, tag: Path) {
    && moved <= |log| && EscapedLast(log)
    && (log == [Escaped]
        || (&& moved > 0 && log[0].SelectorSeen? && Candidate(log[0].path)
            && LastPut(log) == (if log[0].path == tag then None else if moved == |log| then Some(tag)
                                else Some(log[0].path))
            && (moved < |log| ==> NoEscape(log[..moved]) && Disturbed(log[1..moved], tag))))
  }

  /** A failed switch asks for the old path exactly when its forward part met no escaping exchange. */
  lemma {:induction false} OldPathAsked(log: seq<Event>, moved: nat, report: Report, tag: Path)
    requires log != [] && log[0].SelectorSeen? && log[0].path != tag && 0 < moved <= |log|
    requires Abandoned(log, moved, tag) || (Compensated(log, report, tag) && NoEscape(log))
    ensures LastPut(log) == Some(log[0].path) <==> NoEscape(log[..moved])
  {
    if EscapedLast(log) && moved == |log| {
      assert log[..moved] == log;
    }
  }

  lemma {:induction false} EscapeAppended(log: seq<Event>, more: seq<Event>)
    requires NoEscape(log)
    ensures NoEscape(more) ==> NoEscape(log + more)
    ensures EscapedLast(more) ==> EscapedLast(log + more)
  {
    if EscapedLast(more) { assert (log + more)[..|log + more| - 1] == log + more[..|more| - 1]; }
  }

  /** How the events of a part end when its last exchange goes wrong. */
  lemma {:induction false} PartEnds(done: seq<Event>, last: Event, path: Path)
    requires NoEscape(done) && last != Escaped
    ensures NoEscape(done + [last]) && EscapedLast(done + [last] + [Escaped]) && EscapedLast(done + [last, Escaped])
    ensures Disturbed([last], path) ==> Disturbed(done + [last], path)
    ensures last in {SelectorPut(path, false), RelayReset(false)} || (last.SelectorSeen? && last.path != path) ==>
              Disturbed([last], path)
  {
    assert (done + [last])[|done|] == last;
    assert (done + [last] + [Escaped])[..|done| + 1] == done + [last];
    assert done + [last, Escaped] == done + [last] + [Escaped];
    assert [last][0] == last;
  }

  lemma {:induction false} NothingEscapes()
    ensures NoEscape([])
  {
  }

  lemma {:induction false} LookEnds(log: seq<Event>, last: Event)
    requires NoEscape(log)
    ensures last == Escaped ==> EscapedLast(log + [last])
    ensures last != Escaped ==> NoEscape(log + [last])
  {
    assert (log + [last])[..|log|] == log;
  }

  /** An exchange after a failed forward part escapes. */
  lemma {:induction false} LaterEscape(failed: seq<Event>, more: seq<Event>, tag: Path)
    requires failed != [] && NoEscape(failed) && EscapedLast(more) && Disturbed(failed[1..], tag)
    ensures EscapedLast(failed + more) && |failed| < |failed + more|
    ensures (failed + more)[..|failed|] == failed && (failed + more)[1..|failed|] == failed[1..]
  {
    EscapeAppended(failed, more);
  }

  /** How the last look judges a restoration. */
  lemma {:induction false} RollbackSeen(failed: seq<Event>, restored: seq<Event>, oldTag: Path, seen: Path,
                                        restoring: Ending)
    requires failed != [] && restored != [] && restored[0].SelectorPut? && restored[0].path == oldTag
    requires restoring.Passed? ==> ProvedAndHeld(failed + restored, RollbackPhase, oldTag)
    requires restoring.Fails? ==> Disturbed(restored, oldTag)
    requires !restoring.Escapes?
    ensures var log := failed + restored + [SelectorSeen(seen)];
      if restoring.Passed? && seen == oldTag then ProvedAndHeld(log, RollbackPhase, oldTag)
      else RollbackDisturbed(log, oldTag)
  {
    hide ProvedAndHeld, Disturbed;
    var log := failed + restored + [SelectorSeen(seen)];
    assert log[|failed|..] == restored + [SelectorSeen(seen)] && log[|failed|] == restored[0];
    if restoring.Passed? && seen == oldTag {
      StillHeld(failed + restored, RollbackPhase, oldTag);
    } else if restoring.Passed? {
      SeenElsewhere(restored + [SelectorSeen(seen)], oldTag);
    } else {
      DisturbedLater(restored, [SelectorSeen(seen)], oldTag);
    }
  }

  /** One run of select_transport: the report it fills in and the exchanges it makes. */
  class Transaction {
    var log: seq<Event>
    var report: Report

    constructor ()
      ensures log == []
    {
      log := [];
      report := Report(NO_PATH, NO_PATH, NO_PATH, false, false, false, None, None);
    }

    /** The report always carries what was last seen. */
    ghost predicate Valid()
      reads this
    {
      report.selectorAfter == LastSeen(log)
    }

    /** One look at the selector; it may escape. */
    method ObserveSelector() returns (seen: Path, escaped: bool)
      modifies this
      ensures Candidate(seen) || seen == NO_PATH
      ensures log == old(log) + [if escaped then Escaped else SelectorSeen(seen)]
      ensures LastPut(log) == LastPut(old(log))
      ensures escaped ==> report == old(report) && LastSeen(log) == LastSeen(old(log))
      ensures !escaped ==> Valid() && report == old(report).(selectorAfter := seen) && LastSeen(log) == seen
    {
      escaped := *;
      var answer: Path := *;
      seen := if Candidate(answer) then answer else NO_PATH;
      LastOfAppended(log, if escaped then Escaped else SelectorSeen(seen));
      log := log + [if escaped then Escaped else SelectorSeen(seen)];
      if !escaped { report := report.(selectorAfter := seen); }
    }

    /** One exchange that changes something: it works, fails, or escapes after an unknown effect. */
    method Exchange(done: Event, undone: Event) returns (ending: Ending)
      requires !done.SelectorSeen? && !undone.SelectorSeen? && undone.SelectorPut? == done.SelectorPut?
      requires done.SelectorPut? ==> done.path == undone.path
      modifies this`log
      ensures log == old(log) + Ended(ending, done, undone)
      ensures LastSeen(log) == LastSeen(old(log))
      ensures LastPut(log) == if done.SelectorPut? then Some(done.path) else LastPut(old(log))
    {
      ending := *;
      ghost var before := log;
      var event := if ending.Passed? then done else undone;
      LastOfAppended(log, event);
      log := log + [event];
      if ending.Escapes? {
        LastOfAppended(log, Escaped);
        log := log + [Escaped];
      }
      assert log == before + Ended(ending, done, undone);
    }

    method SetSelector(value: Path) returns (ending: Ending)
      requires Valid()
      modifies this
      ensures Valid() && report == old(report).(selectorAfter := report.selectorAfter)
      ensures LastPut(log) == Some(value) && old(log) < log
      ensures log[|old(log)|].SelectorPut? && log[|old(log)|].path == value
      ensures ending.Passed? ==> log == old(log) + [SelectorPut(value, true), SelectorSeen(value), RelayReset(true)]
      ensures ending.Fails? ==> Disturbed(log[|old(log)|..], value) && NoEscape(log[|old(log)|..])
      ensures ending.Escapes? ==> EscapedLast(log[|old(log)|..])
    {
      hide LastSeen, LastPut, Disturbed, EscapedLast, NoEscape;
      ghost var before := log;
      var asked := SelectorPut(value, false);
      ending := Exchange(SelectorPut(value, true), asked);
      if !ending.Passed? {
        assert log[|before|..] == [] + if ending.Fails? then [asked] else [asked, Escaped];
        PartEnds([], asked, value);
        return;
      }
      ghost var put := SelectorPut(value, true);
      var seen, escaped := ObserveSelector();
      if escaped {
        assert log[|before|..] == [] + [put] + [Escaped];
        PartEnds([], put, value);
        return Escapes;
      }
      if seen != value {
        assert log[|before|..] == [put] + [SelectorSeen(seen)];
        PartEnds([put], SelectorSeen(seen), value);
        return Fails;
      }
      ending := Exchange(RelayReset(true), RelayReset(false));
      if !ending.Passed? {
        assert log[|before|..] == [put, SelectorSeen(value)] + if ending.Fails? then [RelayReset(false)]
          else [RelayReset(false), Escaped];
        PartEnds([put, SelectorSeen(value)], RelayReset(false), value);
      }
    }

    /** The proof note for a phase; the probe it carries always names the path seen afterwards. */
    method Prove(phase: Phase, path: Path)
        returns (ending: Ending, ghost passed: bool, ghost after: Path, ghost rounds: seq<Round>)
      requires Valid()
      modifies this
      ensures Valid() && LastPut(log) == LastPut(old(log)) && |rounds| <= PROOF_ATTEMPTS
      ensures passed <==> rounds != [] && rounds[|rounds| - 1].Convinces()
      ensures log == old(log) + [OverlayProved(phase, path, passed), if ending.Escapes? then Escaped
                                 else SelectorSeen(after)]
      ensures ending.Escapes? ==> report == old(report)
      ensures !ending.Escapes? ==> LastSeen(log) == after && (ending.Passed? <==> passed && after == path)
      ensures !ending.Escapes? && phase.ActivationPhase? ==>
        report == old(report).(activationProof := report.activationProof, selectorAfter := after)
        && report.activationProof.Some? && NoteOf(report.activationProof.value, phase, path, ending.Passed?, after,
                                                  rounds)
      ensures !ending.Escapes? && phase.RollbackPhase? ==>
        report == old(report).(rollbackProof := report.rollbackProof, selectorAfter := after)
        && report.rollbackProof.Some? && NoteOf(report.rollbackProof.value, phase, path, ending.Passed?, after, rounds)
    {
      hide LastSeen, LastPut;
      ghost var before := log;
      var proved, tried := false, [];
      var identityKnown: bool := *;
      if identityKnown { proved, tried := ProveOverlay(); }
      LastOfAppended(log, OverlayProved(phase, path, proved));
      log := log + [OverlayProved(phase, path, proved)];
      var seen, escaped := ObserveSelector();
      assert log == before + [OverlayProved(phase, path, proved), if escaped then Escaped else SelectorSeen(seen)];
      if escaped { return Escapes, proved, seen, tried; }
      var probe := if seen != path then ProbeNote(false, false, phase, seen)
                   else if tried == [] then ProbeNote(false, false, phase, path)
                   else ProbeNote(true, tried[|tried| - 1].ok, phase, path);
      var note := ProofNote(proved && seen == path, phase, path, seen, probe);
      if phase.ActivationPhase? {
        report := report.(activationProof := Some(note));
      } else {
        report := report.(rollbackProof := Some(note));
      }
      return if proved && seen == path then Passed else Fails, proved, seen, tried;
    }

    /** The guarded part: move the selector when needed, then prove the path. */
    method Attempt(oldTag: Path, tag: Path) returns (ending: Ending)
      requires Valid() && log == [SelectorSeen(oldTag)] && LastPut(log) == None
      requires report.activationProof.None? && report.rollbackProof.None?
      modifies this
      ensures Valid() && log != [] && log[0] == SelectorSeen(oldTag)
      ensures report == old(report).(selectorAfter := report.selectorAfter, activationProof := report.activationProof)
      ensures report.activationProof.Some? ==> NoteInOrder(report.activationProof.value)
      ensures ending.Passed? ==>
        ProvedAndHeld(log, ActivationPhase, tag) && LastSeen(log) == tag && NoEscape(log)
        && report.activationProof.Some? && Positive(report.activationProof.value, tag)
      ensures ending.Fails? ==> Disturbed(log[1..], tag) && NoEscape(log)
      ensures ending.Escapes? ==> EscapedLast(log)
      ensures LastPut(log) == if oldTag == tag then None else Some(tag)
    {
      hide LastSeen, LastPut, Disturbed, ProvedAndHeld;
      ghost var start := log;
      if oldTag != tag {
        ending := SetSelector(tag);
        assert log == start + log[|start|..];
        if !ending.Passed? {
          EscapeAppended(start, log[|start|..]);
          assert log[1..] == log[|start|..];
          return;
        }
      }
      ghost var prepared := log;
      ghost var passed, after, rounds;
      ending, passed, after, rounds := Prove(ActivationPhase, tag);
      if ending.Passed? {
        HeldAfterProof(prepared, ActivationPhase, tag);
      } else if ending.Fails? {
        ProofFailed(prepared, ActivationPhase, tag, passed, after);
      }
      assert log == prepared + log[|prepared|..];
      EscapeAppended(prepared, log[|prepared|..]);
    }

    /** The compensation: ask for the old path again and prove it. */
    method Restore(oldTag: Path) returns (ending: Ending)
      requires Valid() && report.rollbackProof.None?
      modifies this
      ensures Valid() && old(log) < log && LastPut(log) == Some(oldTag)
      ensures report == old(report).(selectorAfter := report.selectorAfter, rollbackProof := report.rollbackProof)
      ensures report.rollbackProof.Some? ==> NoteInOrder(report.rollbackProof.value)
      ensures log[|old(log)|].SelectorPut? && log[|old(log)|].path == oldTag
      ensures ending.Passed? ==>
        ProvedAndHeld(log, RollbackPhase, oldTag) && NoEscape(log[|old(log)|..])
        && report.rollbackProof.Some? && Positive(report.rollbackProof.value, oldTag)
      ensures ending.Fails? ==> Disturbed(log[|old(log)|..], oldTag) && NoEscape(log[|old(log)|..])
      ensures ending.Escapes? ==> EscapedLast(log[|old(log)|..])
    {
      ghost var before := log;
      hide LastSeen, LastPut, Disturbed, ProvedAndHeld;
      ending := SetSelector(oldTag);
      if ending.Passed? {
        ghost var prepared := log;
        ghost var passed, after, rounds;
        ending, passed, after, rounds := Prove(RollbackPhase, oldTag);
        if ending.Fails? {
          ProofFailed([SelectorSeen(oldTag)] + prepared[|before|..], RollbackPhase, oldTag, passed, after);
          assert ([SelectorSeen(oldTag)] + prepared[|before|..]
                  + [OverlayProved(RollbackPhase, oldTag, passed), SelectorSeen(after)])[1..] == log[|before|..];
        }
        if ending.Passed? { HeldAfterProof(prepared, RollbackPhase, oldTag); }
        assert log[|before|..] == prepared[|before|..] + log[|prepared|..];
        EscapeAppended(prepared[|before|..], log[|prepared|..]);
      }
    }

    /** What happens after the forward part has failed: restore the old path if it was left, then
        look once more. */
    method Compensate(oldTag: Path, tag: Path) returns (escaped: bool)
      requires Valid() && log != [] && log[0] == SelectorSeen(oldTag) && Candidate(oldTag)
      requires Disturbed(log[1..], tag) && NoEscape(log) && LastPut(log) == (if oldTag == tag then None else Some(tag))
      requires report == Report(oldTag, tag, report.selectorAfter, false, false, false, report.activationProof, None)
      requires report.activationProof.Some? ==> NoteInOrder(report.activationProof.value)
      modifies this
      ensures |log| >= |old(log)|
      ensures if escaped then Abandoned(log, |old(log)|, tag) else Compensated(log, report, tag) && NoEscape(log)
    {
      hide LastSeen, LastPut, Disturbed, ProvedAndHeld, NoEscape, EscapedLast;
      ghost var failed := log;
      var restoring := Fails;
      if oldTag != tag {
        restoring := Restore(oldTag);
        if restoring.Escapes? {
          LaterEscape(failed, log[|failed|..], tag);
          assert log == failed + log[|failed|..];
          return true;
        }
      }
      ghost var restored := log[|failed|..];
      assert log == failed + restored && (oldTag == tag ==> restored == []);
      if oldTag == tag { NothingEscapes(); }
      EscapeAppended(failed, restored);
      var seen;
      seen, escaped := ObserveSelector();
      ghost var last := if escaped then Escaped else SelectorSeen(seen);
      assert log == failed + (restored + [last]) && log == failed + restored + [last];
      LookEnds(failed + restored, last);
      LookEnds(restored, last);
      if escaped {
        LaterEscape(failed, restored + [last], tag);
        return;
      }
      report := report.(rollbackVerified := restoring.Passed? && seen == oldTag);
      assert log[1..] == failed[1..] + (restored + [last]);
      DisturbedLater(failed[1..], restored + [last], tag);
      if oldTag != tag { RollbackSeen(failed, restored, oldTag, seen, restoring); }
    }

    /** A success means the last look found the requested path and a proof on it had just passed;
        a claimed rollback means the same of the old path. A switch that nothing disturbed
        succeeds. A failed switch asked for the old path again exactly when its forward part did
        not end in an escaping exchange. */
    method Select(tag: Path) returns (r: Result<Report, SwitchError>, ghost moved: nat)
      requires log == []
      modifies this
      ensures r.Success? ==> Committed(log, r.value, tag) && NoEscape(log)
      ensures r.Failure? ==> match r.error
        case UnknownCandidate => !Candidate(tag) && log == []
        case SelectorNotRecoverable => Candidate(tag) && log == [SelectorSeen(NO_PATH)]
        case SwitchFailed(failed) =>
          Candidate(tag) && Compensated(log, failed, tag) && NoEscape(log) && 0 < moved <= |log|
        case ExchangeEscaped => Candidate(tag) && Abandoned(log, moved, tag)
    {
      hide LastSeen, LastPut, Disturbed, ProvedAndHeld;
      NothingYet();
      moved := 0;
      if !Candidate(tag) { return Failure(UnknownCandidate), 0; }
      var oldTag, escaped := ObserveSelector();
      if escaped { return Failure(ExchangeEscaped), 0; }
      if !Candidate(oldTag) { return Failure(SelectorNotRecoverable), 0; }
      report := Report(oldTag, tag, oldTag, false, false, false, None, None);
      var done := Attempt(oldTag, tag);
      moved := |log|;
      if done.Passed? {
        report := report.(ok := true, changed := oldTag != tag);
        return Success(report), moved;
      }
      if done.Escapes? { return Failure(ExchangeEscaped), moved; }
      hide Compensated, Abandoned, NoEscape;
      escaped := Compensate(oldTag, tag);
      return Failure(if escaped then ExchangeEscaped else SwitchFailed(report)), moved;
    }
  }
}
