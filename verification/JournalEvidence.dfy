/** Evidence about the retained system journal (journal_evidence.py): the walk over the chain of
    journal files, and the validation of a window against what was collected and lost. */
module JournalEvidence {
  import opened Wrappers

  const MAX_FILES: nat := 128

  datatype FileState = Online | Offline | Archived

  /** One file's header as printed by the journal; times in microseconds. */
  datatype Header = Header(current: bool, state: FileState, count: int, sequence: string,
                           head: int, tail: int, since: int, until: int)

  datatype File = File(current: bool, sequence: string, head: nat, tail: nat, since: nat, until: nat)

  datatype RangeError = InventoryBound | Incomplete | NoUniqueCurrent | NotTheEnd

  datatype Range = Range(since: nat, sequence: string, files: nat)

  predicate HexDigit(c: char) { '0' <= c <= '9' || 'a' <= c <= 'f' }

  predicate SequenceId(text: string) { |text| == 32 && forall i :: 0 <= i < |text| ==> HexDigit(text[i]) }

  // ---- Validation ----------------------------------------------------------------------------

  /** What every header must satisfy, whether or not its file holds entries. */
  predicate Plausible(header: Header) {
    && (if header.current then header.state.Online? || header.state.Offline? else header.state.Archived?)
    && SequenceId(header.sequence) && header.count >= 0
  }

  /** Entries are numbered head to tail without a hole, at positive ordered times. */
  predicate Dense(header: Header) {
    header.head > 0 && header.count == header.tail - header.head + 1 && 0 < header.since <= header.until
  }

  /** The file a header stands for, if it holds entries. */
  function FileOf(header: Option<Header>): Result<Option<File>, RangeError> {
    if header.None? || !Plausible(header.value) then Failure(Incomplete)
    else
      var h := header.value;
      if h.count == 0 then (if h.current then Failure(Incomplete) else Success(None))
      else if !Dense(h) then Failure(Incomplete)
      else Success(Some(File(h.current, h.sequence, h.head, h.tail, h.since, h.until)))
  }

  /** Which headers are used: the current file is online or offline and holds entries, every other one is
      archived; the sequence is 32 hexadecimal digits; entries are numbered without a hole at positive
      ordered times; an archived file without entries is passed over. */
  lemma {:induction false} HeaderUsed(h: Header)
    ensures var plausible := (if h.current then h.state == Online || h.state == Offline else h.state == Archived)
                             && |h.sequence| == 32 && (forall i :: 0 <= i < 32 ==>
                                  '0' <= h.sequence[i] <= '9' || 'a' <= h.sequence[i] <= 'f');
      FileOf(Some(h)) ==
        if plausible && h.count == 0 && !h.current then Success(None)
        else if plausible && h.head > 0 && h.tail >= h.head && h.count == h.tail - h.head + 1
                && 0 < h.since <= h.until
        then Success(Some(File(h.current, h.sequence, h.head, h.tail, h.since, h.until)))
        else Failure(Incomplete)
  {
  }

  predicate ValidFile(file: File) { 0 < file.head <= file.tail && 0 < file.since <= file.until }

  /** The non-empty files, in header order; fails when any header is unusable. */
  function FilesOf(headers: seq<Option<Header>>): Result<seq<File>, RangeError> {
    if headers == [] then Success([])
    else
      var last := |headers| - 1;
      var files :- FilesOf(headers[..last]);
      var file :- FileOf(headers[last]);
      Success(match file case None => files case Some(f) => files + [f])
  }

  lemma {:induction false} FilesValid(headers: seq<Option<Header>>)
    ensures FilesOf(headers).Success? ==> forall i :: 0 <= i < |FilesOf(headers).value| ==>
              ValidFile(FilesOf(headers).value[i])
    ensures FilesOf(headers).Failure? ==> FilesOf(headers).error == Incomplete
    ensures FilesOf(headers).Success? <==> forall i :: 0 <= i < |headers| ==> FileOf(headers[i]).Success?
  {
    hide SequenceId;
    if headers != [] {
      FilesValid(headers[..|headers| - 1]);
      assert forall i :: 0 <= i < |headers| - 1 ==> headers[..|headers| - 1][i] == headers[i];
    }
  }

  // ---- The walk --------------------------------------------------------------------------------

  predicate Precedes(file: File, next: File) { file.sequence == next.sequence && file.tail + 1 == next.head }

  /** The files whose numbers end right before another file's. */
  function Predecessors(files: seq<File>, next: File): seq<File> {
    if files == [] then []
    else
      Predecessors(files[..|files| - 1], next)
      + if Precedes(files[|files| - 1], next) then [files[|files| - 1]] else []
  }

  /** The only predecessor, when there is exactly one and time does not run backwards. */
  function Step(files: seq<File>, first: File): Option<File> {
    var previous := Predecessors(files, first);
    if |previous| != 1 || previous[0].until > first.since then None else Some(previous[0])
  }

  ghost predicate AllValid(files: seq<File>) { forall i :: 0 <= i < |files| ==> ValidFile(files[i]) }

  lemma {:induction false} PredecessorsWithin(files: seq<File>, next: File)
    ensures forall p :: p in Predecessors(files, next) ==> p in files && Precedes(p, next)
    ensures forall f :: f in files && Precedes(f, next) ==> f in Predecessors(files, next)
  {
    if files != [] {
      PredecessorsWithin(files[..|files| - 1], next);
      assert files == files[..|files| - 1] + [files[|files| - 1]];
    }
  }

  /** A chain of files: numbers continue without a gap and times never run backwards. */
  ghost predicate Chain(files: seq<File>, chain: seq<File>) {
    && chain != []
    && (forall i :: 0 <= i < |chain| ==> chain[i] in files)
    && forall i :: 0 <= i < |chain| - 1 ==> Precedes(chain[i], chain[i + 1]) && chain[i].until <= chain[i + 1].since
  }

  lemma {:induction false} StepExtends(files: seq<File>, chain: seq<File>)
    requires AllValid(files) && Chain(files, chain) && Step(files, chain[0]).Some?
    ensures Chain(files, [Step(files, chain[0]).value] + chain)
    ensures 0 < Step(files, chain[0]).value.head < chain[0].head
  {
    PredecessorsWithin(files, chain[0]);
    var previous := Predecessors(files, chain[0])[0];
    assert previous in Predecessors(files, chain[0]);
    var extended := [previous] + chain;
    forall i | 0 <= i < |extended| - 1
      ensures Precedes(extended[i], extended[i + 1]) && extended[i].until <= extended[i + 1].since
    {
      if i > 0 { assert extended[i] == chain[i - 1] && extended[i + 1] == chain[i]; }
    }
    forall i | 0 <= i < |extended| ensures extended[i] in files {
      if i > 0 { assert extended[i] == chain[i - 1]; }
    }
  }

  function Currents(files: seq<File>): seq<File> {
    if files == [] then []
    else Currents(files[..|files| - 1]) + if files[|files| - 1].current then [files[|files| - 1]] else []
  }

  /** No other file of the sequence reaches into or beyond this one. */
  predicate EndsSequence(files: seq<File>, active: File) {
    forall i :: 0 <= i < |files| && files[i].sequence == active.sequence && !files[i].current ==>
        files[i].tail < active.head
  }

  /** A finished walk: every file is the step from the next one, and the first has no step. */
  ghost predicate Walk(files: seq<File>, chain: seq<File>) {
    && chain != [] && Step(files, chain[0]).None?
    && forall i :: 0 <= i < |chain| - 1 ==> Step(files, chain[i + 1]) == Some(chain[i])
  }

  /** What an inventory determines: its error, or the start of the chain that ends in the current
      file and that no unique predecessor extends. */
  ghost predicate Retains(headers: seq<Option<Header>>, withinSize: bool, range: Result<Range, RangeError>,
                          chain: seq<File>) {
    if headers == [] || |headers| > MAX_FILES || !withinSize then range == Failure(InventoryBound)
    else
      match FilesOf(headers)
      case Failure(error) => range == Failure(error)
      case Success(files) =>
        if |Currents(files)| != 1 then range == Failure(NoUniqueCurrent)
        else if !EndsSequence(files, Currents(files)[0]) then range == Failure(NotTheEnd)
        else
          && AllValid(files) && Chain(files, chain) && Walk(files, chain)
          && chain[|chain| - 1] == Currents(files)[0]
          && range == Success(Range(chain[0].since, chain[0].sequence, |files|))
  }

  /** journal_retained_range */
  method RetainedRange(headers: seq<Option<Header>>, withinSize: bool)
    returns (range: Result<Range, RangeError>, ghost chain: seq<File>)
    ensures Retains(headers, withinSize, range, chain)
    ensures exists walked :: Retains(headers, withinSize, range, walked)
  {
    chain := [];
    if headers == [] || |headers| > MAX_FILES || !withinSize { return Failure(InventoryBound), []; }
    var files: seq<File> := [];
    for i := 0 to |headers|
      invariant FilesOf(headers[..i]) == Success(files)
    {
      assert headers[..i + 1][..i] == headers[..i];
      var file := FileOf(headers[i]);
      if file.Failure? {
        FilesValid(headers);
        return Failure(Incomplete), [];
      }
      if file.value.Some? { files := files + [file.value.value]; }
    }
    assert headers[..|headers|] == headers;
    FilesValid(headers);
    var active := Currents(files);
    if |active| != 1 { return Failure(NoUniqueCurrent), []; }
    var first := active[0];
    if !EndsSequence(files, first) { return Failure(NotTheEnd), []; }
    CurrentsWithin(files);
    assert first in Currents(files);
    chain := [first];
    hide EndsSequence, FilesOf, Predecessors;
    while true
      invariant Chain(files, chain) && chain[0] == first && chain[|chain| - 1] == active[0]
      invariant forall i :: 0 <= i < |chain| - 1 ==> Step(files, chain[i + 1]) == Some(chain[i])
      invariant first in files && 0 < first.head
      decreases first.head
    {
      var previous := Step(files, first);
      hide Step;
      if previous.None? { break; }
      StepExtends(files, chain);
      chain := [previous.value] + chain;
      first := previous.value;
      assert chain[0] in files;
    }
    range := Success(Range(first.since, first.sequence, |files|));
  }

  lemma {:induction false} CurrentsWithin(files: seq<File>)
    ensures forall f :: f in Currents(files) ==> f in files && f.current
  {
    if files != [] { CurrentsWithin(files[..|files| - 1]); }
  }

  // ---- What a chain covers -----------------------------------------------------------------------------

  lemma {:induction false} ChainOrdered(files: seq<File>, chain: seq<File>, i: nat, j: nat)
    requires AllValid(files) && Chain(files, chain) && i < j < |chain|
    ensures chain[i].tail < chain[j].head && chain[i].until <= chain[j].since
    decreases j
  {
    assert ValidFile(chain[j - 1]) by { assert chain[j - 1] in files; }
    if i < j - 1 { ChainOrdered(files, chain, i, j - 1); }
  }

  lemma {:induction false} ChainReaches(files: seq<File>, chain: seq<File>, number: nat) returns (k: nat)
    requires AllValid(files) && Chain(files, chain)
    requires chain[0].head <= number <= chain[|chain| - 1].tail
    ensures k < |chain| && chain[k].head <= number <= chain[k].tail
    decreases |chain|
  {
    if number <= chain[0].tail { return 0; }
    var rest := chain[1..];
    assert forall i :: 0 <= i < |rest| ==> rest[i] == chain[i + 1];
    assert Precedes(chain[0], chain[1]);
    k := ChainReaches(files, rest, number);
    k := k + 1;
  }

  /** Every sequence number from the chain's start to its end lies in exactly one of its files,
      and higher numbers lie in files of later times, none before the chain's start. */
  lemma {:induction false} ChainCovers(files: seq<File>, chain: seq<File>, number: nat)
    requires AllValid(files) && Chain(files, chain)
    requires chain[0].head <= number <= chain[|chain| - 1].tail
    ensures exists k :: 0 <= k < |chain| && chain[k].head <= number <= chain[k].tail && chain[0].since <= chain[k].since
    ensures forall i, j :: 0 <= i < j < |chain| ==>
              !(chain[i].head <= number <= chain[i].tail && chain[j].head <= number <= chain[j].tail)
    ensures forall i, j :: 0 <= i < j < |chain| ==> chain[i].tail < chain[j].head && chain[i].until <= chain[j].since
  {
    forall i, j | 0 <= i < j < |chain|
      ensures chain[i].tail < chain[j].head && chain[i].until <= chain[j].since
    {
      ChainOrdered(files, chain, i, j);
    }
    var k := ChainReaches(files, chain, number);
    assert chain[0] in files && ValidFile(chain[0]);
  }

  // ---- Independence of the header order ------------------------------------------------------------------

  lemma {:induction false} PredecessorCount(files: seq<File>, next: File)
    ensures forall f :: multiset(Predecessors(files, next))[f] == if Precedes(f, next) then multiset(files)[f] else 0
  {
    if files != [] {
      PredecessorCount(files[..|files| - 1], next);
      assert files == files[..|files| - 1] + [files[|files| - 1]];
    }
  }

  /** One step of the walk depends only on which files there are, not on their order. */
  lemma {:induction false} StepIgnoresOrder(files: seq<File>, others: seq<File>, first: File)
    requires multiset(files) == multiset(others)
    ensures Step(files, first) == Step(others, first)
  {
    hide Predecessors;
    var p, q := Predecessors(files, first), Predecessors(others, first);
    PredecessorCount(files, first);
    PredecessorCount(others, first);
    assert multiset(p) == multiset(q);
    assert |p| == |multiset(p)| == |multiset(q)| == |q|;
    if |p| == 1 { assert p == [p[0]] && q == [q[0]]; }
  }

  /** Two finished walks from the same current file over the same files agree from their ends on,
      so the returned start does not depend on the order in which headers are listed. */
  lemma {:induction false} WalkUnique(files: seq<File>, others: seq<File>, chain: seq<File>, other: seq<File>)
    requires AllValid(files) && multiset(files) == multiset(others)
    requires Walk(files, chain) && Walk(others, other)
    requires chain[|chain| - 1] == other[|other| - 1]
    ensures chain == other
    decreases |chain| + |other|
  {
    var n, m := |chain| - 1, |other| - 1;
    StepIgnoresOrder(files, others, chain[n]);
    assert n > 0 ==> Step(files, chain[n - 1 + 1]) == Some(chain[n - 1]);
    assert m > 0 ==> Step(others, other[m - 1 + 1]) == Some(other[m - 1]);
    hide Step;
    if n > 0 {
      assert forall i :: 0 <= i < n ==> chain[..n][i] == chain[i];
      assert forall i :: 0 <= i < m ==> other[..m][i] == other[i];
      WalkUnique(files, others, chain[..n], other[..m]);
      assert chain == chain[..n] + [chain[n]] && other == other[..m] + [other[m]];
    }
  }

  /** The headers without the one at a position. */
  function Without<T>(items: seq<T>, i: nat): seq<T>
    requires i < |items|
  {
    items[..i] + items[i + 1..]
  }

  function Part(file: Option<File>): seq<File> {
    match file
    case None => []
    case Some(f) => [f]
  }

  lemma {:induction false} FilesLast(headers: seq<Option<Header>>)
    requires headers != []
    ensures var last := |headers| - 1;
      && (FilesOf(headers).Success? <==> FilesOf(headers[..last]).Success? && FileOf(headers[last]).Success?)
      && (FilesOf(headers).Success? ==>
            FilesOf(headers).value == FilesOf(headers[..last]).value + Part(FileOf(headers[last]).value))
  {
    hide FileOf;
  }

  lemma {:induction false} FilesWithout(headers: seq<Option<Header>>, i: nat)
    requires i < |headers|
    ensures FilesOf(headers).Success? <==> FilesOf(Without(headers, i)).Success? && FileOf(headers[i]).Success?
    ensures FilesOf(headers).Success? ==>
      multiset(FilesOf(headers).value) == multiset(FilesOf(Without(headers, i)).value)
        + multiset(Part(FileOf(headers[i]).value))
    decreases |headers|
  {
    var last := |headers| - 1;
    hide FileOf, FilesOf, Part;
    FilesLast(headers);
    if i == last {
      assert Without(headers, i) == headers[..last];
    } else {
      FilesWithout(headers[..last], i);
      var rest := Without(headers, i);
      FilesLast(rest);
      assert rest[..last - 1] == Without(headers[..last], i);
      assert rest[last - 1] == headers[last];
      hide Without;
    }
  }

  lemma {:induction false} WithoutCount<T>(items: seq<T>, i: nat)
    requires i < |items|
    ensures multiset(items) == multiset(Without(items, i)) + multiset{items[i]}
  {
    assert items == items[..i] + [items[i]] + items[i + 1..];
  }

  lemma {:induction false} FilesIgnoreOrder(headers: seq<Option<Header>>, others: seq<Option<Header>>)
    requires multiset(headers) == multiset(others)
    ensures FilesOf(headers).Success? <==> FilesOf(others).Success?
    ensures FilesOf(headers).Success? ==> multiset(FilesOf(headers).value) == multiset(FilesOf(others).value)
    decreases |headers|
  {
    if headers == [] {
      assert |multiset(others)| == 0;
    } else {
      var last := |headers| - 1;
      assert headers[last] in multiset(others);
      var j :| 0 <= j < |others| && others[j] == headers[last];
      WithoutCount(headers, last);
      WithoutCount(others, j);
      FilesWithout(headers, last);
      FilesWithout(others, j);
      hide FileOf, FilesOf;
      assert multiset(Without(headers, last)) == multiset(headers) - multiset{headers[last]};
      assert multiset(Without(others, j)) == multiset(others) - multiset{headers[last]};
      FilesIgnoreOrder(Without(headers, last), Without(others, j));
    }
  }

  lemma {:induction false} CurrentCount(files: seq<File>)
    ensures forall f :: multiset(Currents(files))[f] == if f.current then multiset(files)[f] else 0
  {
    if files != [] {
      CurrentCount(files[..|files| - 1]);
      assert files == files[..|files| - 1] + [files[|files| - 1]];
    }
  }

  lemma {:induction false} SameCurrents(files: seq<File>, others: seq<File>)
    requires multiset(files) == multiset(others)
    ensures |Currents(files)| == |Currents(others)| && |files| == |others|
    ensures |Currents(files)| == 1 ==> Currents(files) == Currents(others)
  {
    var p, q := Currents(files), Currents(others);
    CurrentCount(files);
    CurrentCount(others);
    hide Currents;
    assert multiset(p) == multiset(q) by {
      forall f ensures multiset(p)[f] == multiset(q)[f] {}
    }
    assert |p| == |multiset(p)| == |multiset(q)| == |q|;
    assert |files| == |multiset(files)| == |multiset(others)| == |others|;
    if |p| == 1 { assert p == [p[0]] && q == [q[0]]; }
  }

  lemma {:induction false} SameEnd(files: seq<File>, others: seq<File>, active: File)
    requires multiset(files) == multiset(others) && EndsSequence(files, active)
    ensures EndsSequence(others, active)
  {
    forall i | 0 <= i < |others| && others[i].sequence == active.sequence && !others[i].current
      ensures others[i].tail < active.head
    {
      assert others[i] in multiset(files);
      var j :| 0 <= j < |files| && files[j] == others[i];
    }
  }

  /** The retained range does not depend on the order in which the headers are listed. */
  lemma {:induction false} RangeIgnoresOrder(headers: seq<Option<Header>>, others: seq<Option<Header>>,
                                             withinSize: bool, range: Result<Range, RangeError>, chain: seq<File>,
                                             other: Result<Range, RangeError>, otherChain: seq<File>)
    requires multiset(headers) == multiset(others)
    requires Retains(headers, withinSize, range, chain) && Retains(others, withinSize, other, otherChain)
    ensures range == other
  {
    assert |headers| == |multiset(headers)| == |multiset(others)| == |others|;
    FilesIgnoreOrder(headers, others);
    FilesValid(headers);
    FilesValid(others);
    hide FilesOf, Walk, Chain, AllValid, EndsSequence, Currents;
    if FilesOf(headers).Success? {
      var files, same := FilesOf(headers).value, FilesOf(others).value;
      SameCurrents(files, same);
      if |Currents(files)| == 1 {
        if EndsSequence(files, Currents(files)[0]) {
          SameEnd(files, same, Currents(files)[0]);
          if range.Success? { WalkUnique(files, same, chain, otherChain); }
        } else if EndsSequence(same, Currents(files)[0]) {
          SameEnd(same, files, Currents(files)[0]);
        }
      }
    }
  }

  // ---- What the chosen start means --------------------------------------------------------------

  /** This file alone ends right before the next one in the same sequence. */
  predicate OnlyBefore(files: seq<File>, next: File, i: nat)
    requires i < |files|
  {
    && files[i].sequence == next.sequence && files[i].tail + 1 == next.head
    && forall j :: 0 <= j < |files| && j != i ==>
         !(files[j].sequence == next.sequence && files[j].tail + 1 == next.head)
  }

  lemma {:induction false} BeforeMore(files: seq<File>, next: File, last: File)
    ensures forall i :: 0 <= i < |files| ==>
      (OnlyBefore(files + [last], next, i) <==> OnlyBefore(files, next, i) && !Precedes(last, next))
    ensures OnlyBefore(files + [last], next, |files|) <==>
      Precedes(last, next)
      && forall j :: 0 <= j < |files| ==> !(files[j].sequence == next.sequence && files[j].tail + 1 == next.head)
  {
    var longer := files + [last];
    assert longer[|files|] == last && forall j :: 0 <= j < |files| ==> longer[j] == files[j];
  }

  lemma {:induction false} PredecessorIs(files: seq<File>, next: File)
    ensures Predecessors(files, next) == []
      <==> forall j :: 0 <= j < |files| ==> !(files[j].sequence == next.sequence && files[j].tail + 1 == next.head)
    ensures |Predecessors(files, next)| == 1 <==> exists i :: 0 <= i < |files| && OnlyBefore(files, next, i)
    ensures forall i :: 0 <= i < |files| && OnlyBefore(files, next, i) ==> Predecessors(files, next) == [files[i]]
  {
    if files != [] {
      var n := |files| - 1;
      var init := files[..n];
      PredecessorIs(init, next);
      BeforeMore(init, next, files[n]);
      assert files == init + [files[n]];
      hide OnlyBefore;
    }
  }

  /** The walk goes back exactly to the one file that ends right before, unless time runs backwards. */
  lemma {:induction false} StepExactly(files: seq<File>, first: File)
    ensures Step(files, first).Some?
      <==> exists i :: 0 <= i < |files| && OnlyBefore(files, first, i) && files[i].until <= first.since
    ensures forall i :: 0 <= i < |files| && OnlyBefore(files, first, i) && files[i].until <= first.since ==>
      Step(files, first) == Some(files[i])
  {
    PredecessorIs(files, first);
  }

  predicate OnlyCurrent(files: seq<File>, i: nat)
    requires i < |files|
  {
    files[i].current && forall j :: 0 <= j < |files| && j != i ==> !files[j].current
  }

  lemma {:induction false} CurrentMore(files: seq<File>, last: File)
    ensures forall i :: 0 <= i < |files| ==>
      (OnlyCurrent(files + [last], i) <==> OnlyCurrent(files, i) && !last.current)
    ensures OnlyCurrent(files + [last], |files|) <==> last.current && forall j :: 0 <= j < |files| ==> !files[j].current
  {
    var longer := files + [last];
    assert longer[|files|] == last && forall j :: 0 <= j < |files| ==> longer[j] == files[j];
  }

  lemma {:induction false} CurrentIs(files: seq<File>)
    ensures Currents(files) == [] <==> forall j :: 0 <= j < |files| ==> !files[j].current
    ensures |Currents(files)| == 1 <==> exists i :: 0 <= i < |files| && OnlyCurrent(files, i)
    ensures forall i :: 0 <= i < |files| && OnlyCurrent(files, i) ==> Currents(files) == [files[i]]
  {
    if files != [] {
      var n := |files| - 1;
      var init := files[..n];
      CurrentIs(init);
      CurrentMore(init, files[n]);
      assert files == init + [files[n]];
      hide OnlyCurrent;
    }
  }

  /** The retained chain ends in the only current file, and no file continues it at its start: none, or
      more than one, ends right before it, or the one that does was written after it. */
  lemma {:induction false} ChainIsMaximal(headers: seq<Option<Header>>, withinSize: bool,
                                          range: Result<Range, RangeError>, chain: seq<File>)
    requires Retains(headers, withinSize, range, chain) && range.Success?
    ensures FilesOf(headers).Success? && chain != []
    ensures var files := FilesOf(headers).value;
      && (exists i :: 0 <= i < |files| && OnlyCurrent(files, i) && chain[|chain| - 1] == files[i])
      && (forall i :: 0 <= i < |files| && OnlyBefore(files, chain[0], i) ==> files[i].until > chain[0].since)
      && range.value == Range(chain[0].since, chain[0].sequence, |files|)
  {
    var files := FilesOf(headers).value;
    CurrentIs(files);
    StepExactly(files, chain[0]);
    hide Currents, Step, Chain, EndsSequence, FilesOf;
  }

  // ---- Windows --------------------------------------------------------------------------------------------

  const MAX_EPOCH: int := 253402300800 * 1000000

  predicate ValidEpoch(epoch: int) { 0 <= epoch < MAX_EPOCH }

  /** What was collected about retention and loss; None stands for a missing or unusable value. */
  datatype Coverage = Coverage(failed: bool, since: Option<int>, lossSince: Option<int>, lossUntil: Option<int>,
                               discarded: Option<seq<int>>)

  datatype WindowError =
    | NoError
    | CollectorFailed
    | InvalidInterval
    | StartBeforeQuery
    | EndAfterQuery
    | CoverageFailed
    | StartBeforeRetention
    | OutsideLossEvidence
    | LossEvidenceIncomplete
    | Discarded
    | HistoryIncomplete

  predicate Usable(epoch: Option<int>) { epoch.Some? && ValidEpoch(epoch.value) }

  /** journal_window_error, without a collector error */
  function WindowErrorOf(coverage: Coverage, since: int, until: int, querySince: int, queryUntil: int): WindowError {
    if !ValidEpoch(since) || !ValidEpoch(until) || !ValidEpoch(querySince) || !ValidEpoch(queryUntil)
       || since > until || querySince > queryUntil then InvalidInterval
    else if since < querySince then StartBeforeQuery
    else if until > queryUntil then EndAfterQuery
    else if coverage.failed then CoverageFailed
    else if !Usable(coverage.since) || since < coverage.since.value then StartBeforeRetention
    else if !Usable(coverage.lossSince) || !Usable(coverage.lossUntil)
            || coverage.lossSince.value > since || coverage.lossUntil.value < until then OutsideLossEvidence
    else if coverage.discarded.None?
            || exists i :: 0 <= i < |coverage.discarded.value| && !ValidEpoch(coverage.discarded.value[i])
      then LossEvidenceIncomplete
    else if exists i :: 0 <= i < |coverage.discarded.value| && since <= coverage.discarded.value[i] <= until
    then Discarded
    else NoError
  }
}
