/** Chunked journal history (server_agent.py, summarize_problem_windows): segments are read
    backwards from now, bounded in bytes and events, and every window reports whether it is
    complete. Times are microseconds; what each query returns is an input. */
module ProblemWindows {
  import opened Wrappers
  import opened JournalEvidence

  const MINUTE: int := 60 * 1000000
  const CHUNK_MINUTES: int := 60
  const MAX_BYTES: nat := 16 * 1024 * 1024
  const MAX_EVENTS: nat := 50000
  const RETENTION_MINUTES: int := 14 * 24 * 60

  /** length is the size of the line in UTF-8. */
  datatype Record = Record(stamp: int, line: string, length: nat)

  /** A query's records and its error; inTime says whether history budget was left before it. */
  datatype Answer = Answer(records: seq<Record>, failed: bool, inTime: bool)

  datatype Segment = Segment(start: int, until: int, failed: bool)

  // ---- Selecting records ---------------------------------------------------------------------

  /** A boundary record belongs to the newer segment; the newest segment is closed. */
  predicate InRange(stamp: int, start: int, until: int, newest: bool) {
    start <= stamp && (if newest then stamp <= until else stamp < until)
  }

  function Selected(records: seq<Record>, start: int, until: int, newest: bool): seq<Record> {
    if records == [] then []
    else
      var last := records[|records| - 1];
      Selected(records[..|records| - 1], start, until, newest)
        + if InRange(last.stamp, start, until, newest) then [last] else []
  }

  function Bytes(records: seq<Record>): nat {
    if records == [] then 0 else Bytes(records[..|records| - 1]) + records[|records| - 1].length
  }

  lemma {:induction false} SelectedCount(records: seq<Record>, start: int, until: int, newest: bool)
    ensures forall r ::
      multiset(Selected(records, start, until, newest))[r]
        == if InRange(r.stamp, start, until, newest) then multiset(records)[r] else 0
  {
    if records != [] {
      SelectedCount(records[..|records| - 1], start, until, newest);
      assert records == records[..|records| - 1] + [records[|records| - 1]];
    }
  }

  predicate Bounded(raw: seq<Record>) { |raw| <= MAX_EVENTS && Bytes(raw) <= MAX_BYTES }

  lemma {:induction false} SelectedPrefix(records: seq<Record>, i: nat, start: int, until: int, newest: bool)
    requires i <= |records|
    ensures Selected(records[..i], start, until, newest) <= Selected(records, start, until, newest)
    decreases |records|
  {
    if i == |records| {
      assert records[..i] == records;
    } else {
      SelectedPrefix(records[..|records| - 1], i, start, until, newest);
      assert records[..|records| - 1][..i] == records[..i];
    }
  }

  /** One more record of a segment. */
  lemma {:induction false} SelectedNext(records: seq<Record>, i: nat, start: int, until: int, newest: bool)
    requires i < |records|
    ensures Selected(records[..i + 1], start, until, newest)
      == Selected(records[..i], start, until, newest)
         + if InRange(records[i].stamp, start, until, newest) then [records[i]] else []
    ensures Selected(records[..i + 1], start, until, newest) <= Selected(records, start, until, newest)
  {
    assert records[..i + 1][..i] == records[..i];
    SelectedPrefix(records, i + 1, start, until, newest);
  }

  lemma {:induction false} NothingSelected(records: seq<Record>, start: int, until: int, newest: bool)
    ensures Selected(records[..0], start, until, newest) == []
  {
  }

  lemma {:induction false} BytesMore(records: seq<Record>, more: Record)
    ensures Bytes(records + [more]) == Bytes(records) + more.length
  {
    assert (records + [more])[..|records|] == records;
  }

  /** include: appends the records of one segment, in order, until one does not fit. */
  method Include(raw: seq<Record>, size: nat, records: seq<Record>, start: int, until: int, newest: bool)
    returns (extended: seq<Record>, added: nat, full: bool, ghost part: seq<Record>)
    requires size == Bytes(raw) && Bounded(raw)
    ensures extended == raw + part && Bytes(extended) == size + added && Bounded(extended)
    ensures if full then part < Selected(records, start, until, newest)
            else part == Selected(records, start, until, newest)
    ensures full ==> var next := Selected(records, start, until, newest)[|part|];
      |extended| >= MAX_EVENTS || Bytes(extended) + next.length > MAX_BYTES
  {
    extended, added, part := raw, 0, [];
    NothingSelected(records, start, until, newest);
    hide Selected, Bytes, InRange;
    for i := 0 to |records|
      invariant part == Selected(records[..i], start, until, newest)
      invariant extended == raw + part && Bytes(extended) == size + added && Bounded(extended)
    {
      SelectedNext(records, i, start, until, newest);
      if !InRange(records[i].stamp, start, until, newest) { continue; }
      if |extended| >= MAX_EVENTS || size + added + records[i].length > MAX_BYTES {
        return extended, added, true, part;
      }
      BytesMore(extended, records[i]);
      part := part + [records[i]];
      extended := extended + [records[i]];
      added := added + records[i].length;
    }
    assert records[..|records|] == records;
    full := false;
  }

  // ---- The segments --------------------------------------------------------------------------------------

  /** Segments run backwards from now to start without gap or overlap. */
  predicate Tiles(segments: seq<Segment>, start: int, now: int) {
    && segments != [] && segments[0].until == now && segments[|segments| - 1].start == start
    && (forall i :: 0 <= i < |segments| ==> segments[i].start < segments[i].until)
    && forall i :: 0 <= i < |segments| - 1 ==> segments[i + 1].until == segments[i].start
  }

  /** A stamp belongs to a segment. */
  predicate Owns(segments: seq<Segment>, i: nat, stamp: int)
    requires i < |segments|
  {
    InRange(stamp, segments[i].start, segments[i].until, i == 0)
  }

  lemma {:induction false} TilesOrdered(segments: seq<Segment>, start: int, now: int, i: nat, j: nat)
    requires Tiles(segments, start, now) && i < j < |segments|
    ensures segments[j].until <= segments[i].start
    decreases j
  {
    if i < j - 1 { TilesOrdered(segments, start, now, i, j - 1); }
    assert segments[j - 1 + 1].until == segments[j - 1].start;
  }

  lemma {:induction false} OwnerFrom(segments: seq<Segment>, start: int, now: int, stamp: int, n: nat) returns (i: nat)
    requires Tiles(segments, start, now) && n < |segments| && segments[n].start <= stamp <= now
    ensures i <= n && Owns(segments, i, stamp)
    decreases n
  {
    i := n;
    if n > 0 && stamp >= segments[n].until {
      assert segments[n - 1 + 1].until == segments[n - 1].start;
      i := OwnerFrom(segments, start, now, stamp, n - 1);
    }
  }

  /** Every stamp between the start and now belongs to exactly one segment. */
  lemma {:induction false} OneOwner(segments: seq<Segment>, start: int, now: int, stamp: int)
    requires Tiles(segments, start, now)
    ensures start <= stamp <= now <==> exists i :: 0 <= i < |segments| && Owns(segments, i, stamp)
    ensures forall i, j :: 0 <= i < j < |segments| ==> !(Owns(segments, i, stamp) && Owns(segments, j, stamp))
  {
    forall i, j | 0 <= i < j < |segments| ensures !(Owns(segments, i, stamp) && Owns(segments, j, stamp)) {
      TilesOrdered(segments, start, now, i, j);
    }
    if start <= stamp <= now {
      var i := OwnerFrom(segments, start, now, stamp, |segments| - 1);
    }
    forall i | 0 <= i < |segments| && Owns(segments, i, stamp) ensures start <= stamp <= now {
      if i > 0 { TilesOrdered(segments, start, now, 0, i); }
      if i < |segments| - 1 { TilesOrdered(segments, start, now, i, |segments| - 1); }
    }
  }

  function Flatten(parts: seq<seq<Record>>): seq<Record> {
    if parts == [] then [] else Flatten(parts[..|parts| - 1]) + parts[|parts| - 1]
  }

  /** What was retained of every segment: a first part of its own records; the segment failed exactly if
      its query did or not all of them fitted. */
  ghost predicate Retained(raw: seq<Record>, segments: seq<Segment>, answers: seq<Answer>, parts: seq<seq<Record>>) {
    && |parts| == |answers| == |segments| && raw == Flatten(parts)
    && forall i :: 0 <= i < |parts| ==>
         var own := Selected(answers[i].records, segments[i].start, segments[i].until, i == 0);
         parts[i] <= own && (segments[i].failed <==> answers[i].failed || parts[i] != own)
  }

  datatype History = History(raw: seq<Record>, size: nat, segments: seq<Segment>, querySince: int,
                             recentFailed: bool, incomplete: bool)

  function CeilMinutes(span: int): int { -((-span) / MINUTE) }

  lemma {:induction false} CeilPositive(span: int)
    requires span > 0
    ensures CeilMinutes(span) >= 1 && (CeilMinutes(span) - 1) * MINUTE < span <= CeilMinutes(span) * MINUTE
  {
  }

  /** How far back the history is wanted. */
  function QueryMinutes(full: bool, now: int, release: int): int {
    var age := Max(0, CeilMinutes(now - release));
    if !full then 5 else if age <= RETENTION_MINUTES then Max(1440, age) else 1440
  }

  function RecentMinutes(full: bool): int { if full then 30 else 5 }

  function Target(full: bool, now: int, release: int, retainedSince: Option<int>): int {
    var wanted := now - QueryMinutes(full, now, release) * MINUTE;
    if retainedSince.Some? then Max(wanted, retainedSince.value) else wanted
  }

  /** What holds at every point of the collection; a failed chunk is the last one. */
  ghost predicate Collecting(history: History, full: bool, now: int, answers: seq<Answer>, parts: seq<seq<Record>>) {
    && Tiles(history.segments, history.querySince, now)
    && Retained(history.raw, history.segments, answers, parts)
    && Bounded(history.raw) && history.size == Bytes(history.raw)
    && history.segments[0].start == now - RecentMinutes(full) * MINUTE
    && history.recentFailed == history.segments[0].failed
    && (forall i :: 0 < i < |history.segments| ==>
          MINUTE <= history.segments[i].until - history.segments[i].start <= CHUNK_MINUTES * MINUTE)
    && (forall i :: 0 < i < |history.segments| && history.segments[i].failed ==>
        i == |history.segments| - 1 && history.incomplete)
  }

  ghost predicate Collected(history: History, full: bool, now: int, target: int, answers: seq<Answer>,
                            parts: seq<seq<Record>>) {
    && Collecting(history, full, now, answers, parts)
    && (!full ==> |history.segments| == 1 && !history.incomplete)
    && (full && !history.incomplete ==> history.querySince <= target)
    && Hourly(history.segments, target)
  }

  /** Every segment behind the newest is an hour long, or reaches the target in whole minutes. */
  predicate Hourly(segments: seq<Segment>, target: int) {
    forall i :: 0 < i < |segments| ==>
      && segments[i].until > target
      && segments[i].until - segments[i].start == Min(60, CeilMinutes(segments[i].until - target)) * MINUTE
  }

  /** How far back a full collection reaches at most: to the retained begin, but otherwise a day at least,
      and to the release if that is within the last 14 days. */
  lemma {:induction false} TargetMeans(now: int, release: int, retainedSince: Option<int>)
    ensures var target := Target(true, now, release, retainedSince); var day := now - 1440 * MINUTE;
      var recent := now - release <= 14 * 1440 * MINUTE;
      && (retainedSince.Some? ==> target >= retainedSince.value)
      && (retainedSince.None? || target != retainedSince.value ==>
            && target <= day && (recent ==> target <= release)
            && (target == day || (recent && release - MINUTE < target < day)))
  {
  }

  /** The recent segment. */
  method ReadRecent(full: bool, now: int, recent: Answer) returns (history: History, ghost part: seq<Record>)
    ensures Collecting(history, full, now, [recent], [part]) && !history.incomplete && |history.segments| == 1
  {
    var recentSince := now - RecentMinutes(full) * MINUTE;
    var raw, size, noRoom, own := Include([], 0, recent.records, recentSince, now, true);
    part := own;
    var failed := recent.failed || noRoom;
    history := History(raw, size, [Segment(recentSince, now, failed)], recentSince, failed, false);
    hide Selected, Bytes;
    assert [part][..0] == [] && Flatten([part][..0]) == [];
  }

  lemma {:induction false} MoreCollected(history: History, full: bool, now: int, answers: seq<Answer>,
                                         parts: seq<seq<Record>>, segment: Segment, answer: Answer, part: seq<Record>,
                                         raw: seq<Record>, size: nat)
    requires Collecting(history, full, now, answers, parts) && !history.incomplete
    requires segment.until == history.querySince && MINUTE <= segment.until - segment.start <= CHUNK_MINUTES * MINUTE
    requires part <= Selected(answer.records, segment.start, segment.until, false)
    requires segment.failed <==> answer.failed || part != Selected(answer.records, segment.start, segment.until, false)
    requires raw == history.raw + part && Bounded(raw) && size == Bytes(raw)
    ensures Collecting(History(raw, size, history.segments + [segment], segment.start, history.recentFailed,
                               segment.failed),
                       full, now, answers + [answer], parts + [part])
  {
    hide Bytes, Bounded, Selected, RecentMinutes;
    var segments := history.segments;
    assert segments != [] by { assert Tiles(segments, history.querySince, now); }
    hide Retained, Tiles;
    MoreRetained(history.raw, segments, answers, parts, segment, answer, part);
    MoreTiles(segments, history.querySince, now, segment);
  }

  /** One chunk of up to an hour before what was read so far. */
  method ReadChunk(history: History, target: int, answer: Answer, full: bool, now: int,
                   ghost answers: seq<Answer>, ghost parts: seq<seq<Record>>)
    returns (longer: History, ghost part: seq<Record>)
    requires Collecting(history, full, now, answers, parts) && !history.incomplete && history.querySince > target
    ensures Collecting(longer, full, now, answers + [answer], parts + [part])
    ensures |longer.segments| == |history.segments| + 1
    ensures longer.querySince <= history.querySince - MINUTE
    ensures longer.segments[..|history.segments|] == history.segments
    ensures var last := longer.segments[|history.segments|];
      && last.until == history.querySince && (longer.incomplete <==> last.failed)
      && last.until - last.start == Min(60, CeilMinutes(last.until - target)) * MINUTE
  {
    CeilPositive(history.querySince - target);
    var minutes := Min(CHUNK_MINUTES, CeilMinutes(history.querySince - target));
    hide CeilMinutes;
    var start := history.querySince - minutes * MINUTE;
    var raw, added, noRoom, own := Include(history.raw, history.size, answer.records, start, history.querySince, false);
    part := own;
    var failed := answer.failed || noRoom;
    var segment := Segment(start, history.querySince, failed);
    longer := History(raw, history.size + added, history.segments + [segment], start, history.recentFailed, failed);
    assert history.size == Bytes(history.raw) && |history.segments| > 0;
    hide Bytes, Bounded, Selected, RecentMinutes;
    MoreCollected(history, full, now, answers, parts, segment, answer, part, raw, history.size + added);
  }

  /** The recent segment, then hourly chunks backwards while history, time and memory last. */
  method Collect(full: bool, now: int, release: int, retainedSince: Option<int>, recent: Answer, queries: nat -> Answer)
    returns (history: History, ghost answers: seq<Answer>, ghost parts: seq<seq<Record>>)
    ensures Collected(history, full, now, Target(full, now, release, retainedSince), answers, parts)
    ensures Tiles(history.segments, history.querySince, now) && Bounded(history.raw)
            && history.size == Bytes(history.raw)
    ensures full && !history.incomplete ==> history.querySince <= Target(full, now, release, retainedSince)
    ensures |answers| > 0 && answers[0] == recent && forall k :: 0 < k < |answers| ==> answers[k] == queries(k - 1)
    ensures history.incomplete ==>
      || (|history.segments| > 1 && history.segments[|history.segments| - 1].failed)
      || !queries(|history.segments| - 1).inTime || history.size >= MAX_BYTES || |history.raw| >= MAX_EVENTS
  {
    ghost var part;
    history, part := ReadRecent(full, now, recent);
    answers, parts := [recent], [part];
    var target := Target(full, now, release, retainedSince);
    hide Collecting, Target;
    while full && history.querySince > target && !history.incomplete
      invariant Collecting(history, full, now, answers, parts)
      invariant |answers| == |history.segments| > 0
      invariant !full ==> |history.segments| == 1 && !history.incomplete
      invariant answers[0] == recent && forall k :: 0 < k < |answers| ==> answers[k] == queries(k - 1)
      invariant Hourly(history.segments, target)
      invariant history.incomplete ==>
        || (|history.segments| > 1 && history.segments[|history.segments| - 1].failed)
        || !queries(|history.segments| - 1).inTime || history.size >= MAX_BYTES || |history.raw| >= MAX_EVENTS
      decreases !history.incomplete, history.querySince - target
    {
      var answer := queries(|history.segments| - 1);
      if !answer.inTime || history.size >= MAX_BYTES || |history.raw| >= MAX_EVENTS {
        GivenUp(history, full, now, answers, parts);
        history := history.(incomplete := true);
      } else {
        ghost var before := history;
        history, part := ReadChunk(history, target, answer, full, now, answers, parts);
        HourlyMore(before.segments, history.segments, target);
        answers, parts := answers + [answer], parts + [part];
      }
    }
  }

  lemma {:induction false} HourlyMore(segments: seq<Segment>, longer: seq<Segment>, target: int)
    requires Hourly(segments, target) && |longer| == |segments| + 1 && longer[..|segments|] == segments
    requires var last := longer[|segments|];
      last.until > target && last.until - last.start == Min(60, CeilMinutes(last.until - target)) * MINUTE
    ensures Hourly(longer, target)
  {
    hide CeilMinutes;
    forall i | 0 < i < |longer|
      ensures longer[i].until > target
      ensures longer[i].until - longer[i].start == Min(60, CeilMinutes(longer[i].until - target)) * MINUTE
    {
      if i < |segments| { assert longer[i] == segments[i]; }
    }
  }

  lemma {:induction false} GivenUp(history: History, full: bool, now: int, answers: seq<Answer>,
                                   parts: seq<seq<Record>>)
    requires Collecting(history, full, now, answers, parts)
    ensures Collecting(history.(incomplete := true), full, now, answers, parts)
  {
    hide Tiles, Retained, Bounded;
  }

  lemma {:induction false} MoreTiles(segments: seq<Segment>, start: int, now: int, segment: Segment)
    requires Tiles(segments, start, now) && segment.until == start && segment.start < segment.until
    ensures Tiles(segments + [segment], segment.start, now)
  {
  }

  lemma {:induction false} MoreRetained(raw: seq<Record>, segments: seq<Segment>, answers: seq<Answer>,
                                        parts: seq<seq<Record>>, segment: Segment, answer: Answer, part: seq<Record>)
    requires Retained(raw, segments, answers, parts) && segments != []
    requires part <= Selected(answer.records, segment.start, segment.until, false)
    requires segment.failed <==> answer.failed || part != Selected(answer.records, segment.start, segment.until, false)
    ensures Retained(raw + part, segments + [segment], answers + [answer], parts + [part])
  {
    hide Selected;
    assert (parts + [part])[..|parts|] == parts;
  }

  // ---- What is retained of a record -----------------------------------------------------------------------

  lemma {:induction false} FlattenNone(parts: seq<seq<Record>>, r: Record)
    requires forall k :: 0 <= k < |parts| ==> multiset(parts[k])[r] == 0
    ensures multiset(Flatten(parts))[r] == 0
  {
    if parts != [] { FlattenNone(parts[..|parts| - 1], r); }
  }

  lemma {:induction false} FlattenOnly(parts: seq<seq<Record>>, r: Record, i: nat)
    requires i < |parts| && forall k :: 0 <= k < |parts| && k != i ==> multiset(parts[k])[r] == 0
    ensures multiset(Flatten(parts))[r] == multiset(parts[i])[r]
    decreases |parts|
  {
    var last := |parts| - 1;
    if i == last {
      FlattenNone(parts[..last], r);
    } else {
      FlattenOnly(parts[..last], r, i);
    }
  }

  lemma {:induction false} PrefixCount(part: seq<Record>, whole: seq<Record>, r: Record)
    requires part <= whole
    ensures multiset(part)[r] <= multiset(whole)[r]
  {
    assert whole == part + whole[|part|..];
  }

  /** What a segment that does not own a record's stamp keeps of it: nothing. */
  lemma {:induction false} ForeignPart(history: History, answers: seq<Answer>, parts: seq<seq<Record>>, r: Record,
                                       k: nat)
    requires Retained(history.raw, history.segments, answers, parts) && k < |parts|
    ensures multiset(parts[k])[r] <= if Owns(history.segments, k, r.stamp) then multiset(answers[k].records)[r] else 0
    ensures Owns(history.segments, k, r.stamp) && !history.segments[k].failed ==>
              multiset(parts[k])[r] == multiset(answers[k].records)[r]
  {
    var segment := history.segments[k];
    SelectedCount(answers[k].records, segment.start, segment.until, k == 0);
    PrefixCount(parts[k], Selected(answers[k].records, segment.start, segment.until, k == 0), r);
    hide Selected;
  }

  /** No record is retained from two queries: what is kept of it is what the one segment that owns
      its stamp kept of its own answer, and nothing when no segment owns it. */
  lemma {:induction false} RetainedOnce(history: History, full: bool, now: int, answers: seq<Answer>,
                                        parts: seq<seq<Record>>, r: Record)
    requires Collecting(history, full, now, answers, parts)
    ensures !(history.querySince <= r.stamp <= now) ==> multiset(history.raw)[r] == 0
    ensures forall i :: 0 <= i < |answers| && Owns(history.segments, i, r.stamp) ==>
      && multiset(history.raw)[r] <= multiset(answers[i].records)[r]
      && (!history.segments[i].failed ==> multiset(history.raw)[r] == multiset(answers[i].records)[r])
  {
    OneOwner(history.segments, history.querySince, now, r.stamp);
    forall k | 0 <= k < |parts| ensures !Owns(history.segments, k, r.stamp) ==> multiset(parts[k])[r] == 0 {
      ForeignPart(history, answers, parts, r, k);
    }
    hide Owns, Tiles, Bounded;
    if !(history.querySince <= r.stamp <= now) { FlattenNone(parts, r); }
    forall i | 0 <= i < |answers| && Owns(history.segments, i, r.stamp)
      ensures multiset(history.raw)[r] <= multiset(answers[i].records)[r]
      ensures !history.segments[i].failed ==> multiset(history.raw)[r] == multiset(answers[i].records)[r]
    {
      FlattenOnly(parts, r, i);
      ForeignPart(history, answers, parts, r, i);
    }
  }

  // ---- Windows ------------------------------------------------------------------------------------------------

  /** The coverage error of the window from since to now. */
  function CoverageError(history: History, full: bool, recent: Coverage, older: Coverage, since: int,
                         now: int): WindowError {
    var coverage := if since >= now - RecentMinutes(full) * MINUTE then recent else older;
    var error := WindowErrorOf(coverage, since, now, history.querySince, now);
    if since < history.querySince && history.incomplete then HistoryIncomplete
    else if error == NoError
            && exists i :: 0 <= i < |history.segments| && history.segments[i].until > since
                            && history.segments[i].failed
      then CollectorFailed
    else error
  }

  lemma {:induction false} NoErrorMeans(history: History, full: bool, recent: Coverage, older: Coverage, since: int,
                                        now: int)
    requires CoverageError(history, full, recent, older, since, now) == NoError
    ensures history.querySince <= since <= now
    ensures forall i :: 0 <= i < |history.segments| && history.segments[i].until > since ==> !history.segments[i].failed
  {
  }

  /** Retention and loss evidence cover the whole window, and nothing was discarded in it. */
  predicate Covers(coverage: Coverage, since: int, now: int) {
    && !coverage.failed
    && coverage.since.Some? && 0 <= coverage.since.value < MAX_EPOCH && coverage.since.value <= since
    && coverage.lossSince.Some? && 0 <= coverage.lossSince.value < MAX_EPOCH && coverage.lossSince.value <= since
    && coverage.lossUntil.Some? && 0 <= coverage.lossUntil.value < MAX_EPOCH && now <= coverage.lossUntil.value
    && coverage.discarded.Some?
    && forall i :: 0 <= i < |coverage.discarded.value| ==>
         0 <= coverage.discarded.value[i] < MAX_EPOCH
         && !(since <= coverage.discarded.value[i] <= now)
  }

  /** Exactly when a window is reported complete: it lies in the collected time, no failed segment ends after
      its begin, and the coverage of its age is complete. */
  lemma {:induction false} CompleteExactly(history: History, full: bool, recent: Coverage, older: Coverage, since: int,
                                           now: int)
    ensures CoverageError(history, full, recent, older, since, now) == NoError <==>
      && 0 <= history.querySince <= since <= now < MAX_EPOCH
      && (forall i :: 0 <= i < |history.segments| && history.segments[i].until > since ==> !history.segments[i].failed)
      && Covers(if since >= now - RecentMinutes(full) * MINUTE then recent else older, since, now)
  {
  }

  /** The answer holds the journal's records of the segment's closed interval, each as often. */
  ghost predicate Faithful(answer: Answer, segment: Segment, journal: multiset<Record>) {
    forall r: Record :: segment.start <= r.stamp <= segment.until ==> multiset(answer.records)[r] == journal[r]
  }

  /** A window without coverage error is complete. When every query that did not fail returned the
      journal's records of its interval, each once, every journal record of the window is retained
      exactly as often as the journal has it. A window of length zero is left out: the newest
      segment's failure is not looked at there. */
  lemma {:induction false} CompleteWindowIsExact(history: History, full: bool, now: int, target: int,
                                                 answers: seq<Answer>, parts: seq<seq<Record>>, recent: Coverage,
                                                 older: Coverage, since: int, journal: multiset<Record>)
    requires Collected(history, full, now, target, answers, parts)
    requires CoverageError(history, full, recent, older, since, now) == NoError && since < now
    requires |answers| == |history.segments|
    requires forall i :: 0 <= i < |answers| && !answers[i].failed ==> Faithful(answers[i], history.segments[i], journal)
    ensures forall r: Record :: since <= r.stamp <= now ==> multiset(history.raw)[r] == journal[r]
  {
    NoErrorMeans(history, full, recent, older, since, now);
    forall r: Record | since <= r.stamp <= now ensures multiset(history.raw)[r] == journal[r] {
      OneOwner(history.segments, history.querySince, now, r.stamp);
      RetainedOnce(history, full, now, answers, parts, r);
      var i :| 0 <= i < |history.segments| && Owns(history.segments, i, r.stamp);
      assert history.segments[i].until > since;
      assert !history.segments[i].failed && !answers[i].failed;
    }
  }

  /** A window of length zero can be reported complete although the newest query failed. */
  lemma {:induction false} ZeroWindowOverlooksFailure(now: int) returns (history: History, coverage: Coverage)
    requires ValidEpoch(now - 5 * MINUTE) && ValidEpoch(now)
    ensures Collected(history, false, now, now, [Answer([], true, true)], [[]])
    ensures history.segments[0].failed
    ensures CoverageError(history, false, coverage, coverage, now, now) == NoError
  {
    history := History([], 0, [Segment(now - 5 * MINUTE, now, true)], now - 5 * MINUTE, true, false);
    coverage := Coverage(false, Some(now - 5 * MINUTE), Some(now - 5 * MINUTE), Some(now), Some([]));
    var empty: seq<Record> := [];
    assert [empty][..0] == [] && Flatten([empty][..0]) == [];
  }

  // ---- Context lines ---------------------------------------------------------------------------------------------

  /** Context enriches classification: it is added while it fits and is never an event itself. */
  method AddContext(history: History, context: seq<Record>, since: int, now: int) returns (lines: seq<Record>)
    requires history.size == Bytes(history.raw) && Bounded(history.raw)
    ensures Bounded(history.raw + lines)
    ensures lines <= Selected(context, since, now, true)
    ensures lines == Selected(context, since, now, true)
      || var next := Selected(context, since, now, true)[|lines|];
         |history.raw| + |lines| >= MAX_EVENTS || Bytes(history.raw + lines) + next.length > MAX_BYTES
  {
    var extended, _, _, part := Include(history.raw, history.size, context, since, now, true);
    lines := extended[|history.raw|..];
    assert lines == part;
  }
}
