/** The DNS response check of the overlay probe (interserver_transport.py), against the message
    grammar of section 4.1 of RFC 1035. */
module DnsProbe {
  import opened Wrappers
  import opened Octets

  datatype DnsError =
    | TruncatedResponse | Unrelated | TruncationFlag | ResponseCode(code: nat) | NoUsableAnswer
    | TruncatedName | TruncatedPointer | InvalidName
    | TruncatedQuestion | TruncatedAnswer | TruncatedData | NoAddress

  datatype Verdict = Answered | Rejected(error: DnsError)

  // ---- The grammar ---------------------------------------------------------------------------------

  type Label = b: Bytes | 1 <= |b| <= 63 witness [0]

  /** A name ends in the root label or in a compression pointer, whose target is not followed. */
  datatype NameEnd = Root | Pointer(high: byte, low: byte)

  datatype Name = Name(labels: seq<Label>, end: NameEnd)

  predicate ValidName(name: Name) { name.end.Pointer? ==> Value(name.end.high) >= 192 }

  function EncodeEnd(end: NameEnd): Bytes {
    match end
    case Root => [0]
    case Pointer(high, low) => [high, low]
  }

  function EncodeName(name: Name): Bytes
    decreases |name.labels|
  {
    if name.labels == [] then EncodeEnd(name.end)
    else [AsByte(|name.labels[0]|)] + name.labels[0] + EncodeName(Name(name.labels[1..], name.end))
  }

  datatype Record = Record(name: Name, kind: nat, family: nat, ttl: Bytes, data: Bytes)

  predicate ValidRecord(record: Record) {
    && ValidName(record.name) && record.kind < 0x1_0000 && record.family < 0x1_0000
    && |record.ttl| == 4 && |record.data| < 0x1_0000
  }

  function EncodeFields(record: Record): Bytes {
    BigEndian(record.kind, 2) + BigEndian(record.family, 2) + record.ttl + BigEndian(|record.data|, 2)
  }

  function EncodeRecord(record: Record): Bytes { EncodeName(record.name) + EncodeFields(record) + record.data }

  function EncodeRecords(records: seq<Record>): Bytes {
    if records == [] then [] else EncodeRecord(records[0]) + EncodeRecords(records[1..])
  }

  /** An IPv4 address of the Internet class. */
  predicate IsAddress(record: Record) { record.kind == 1 && record.family == 1 && |record.data| == 4 }

  // ---- The parser -------------------------------------------------------------------------------------

  /** _skip_dns_name: where the name at an offset ends. */
  function SkippedName(payload: Bytes, offset: nat): Result<nat, DnsError>
    decreases |payload| - offset
  {
    if offset >= |payload| then Failure(TruncatedName)
    else
      var size := Value(payload[offset]);
      if size == 0 then Success(offset + 1)
      else if size >= 192 then if offset + 1 >= |payload| then Failure(TruncatedPointer) else Success(offset + 2)
      else if size >= 64 || offset + 1 + size > |payload| then Failure(InvalidName)
      else SkippedName(payload, offset + 1 + size)
  }

  method SkipName(payload: Bytes, start: nat) returns (end: Result<nat, DnsError>)
    ensures end == SkippedName(payload, start)
  {
    var offset := start;
    while true
      invariant SkippedName(payload, start) == SkippedName(payload, offset)
      decreases |payload| - offset
    {
      if offset >= |payload| { return Failure(TruncatedName); }
      var size := Value(payload[offset]);
      offset := offset + 1;
      if size == 0 { return Success(offset); }
      if size >= 192 {
        if offset >= |payload| { return Failure(TruncatedPointer); }
        return Success(offset + 1);
      }
      if size >= 64 || offset + size > |payload| { return Failure(InvalidName); }
      offset := offset + size;
    }
  }

  function Word(payload: Bytes, at: nat): nat
    requires at + 2 <= |payload|
  {
    ReadBigEndian(payload[at..at + 2])
  }

  /** The answer loop from one offset, with so many answers announced. */
  function Answers(payload: Bytes, offset: nat, count: nat): Verdict
    decreases count
  {
    if count == 0 then Rejected(NoAddress)
    else
      match SkippedName(payload, offset)
      case Failure(error) => Rejected(error)
      case Success(fields) =>
        if fields + 10 > |payload| then Rejected(TruncatedAnswer)
        else
          var size := Word(payload, fields + 8);
          if fields + 10 + size > |payload| then Rejected(TruncatedData)
          else if Word(payload, fields) == 1 && Word(payload, fields + 2) == 1 && size == 4 then Answered
          else Answers(payload, fields + 10 + size, count - 1)
  }

  /** What the header must say. */
  function HeaderProblem(payload: Bytes, queryId: nat): Option<DnsError>
    requires |payload| >= 12
  {
    var flags := Word(payload, 2);
    if Word(payload, 0) != queryId || flags < 0x8000 then Some(Unrelated)
    else if (flags / 0x200) % 2 == 1 then Some(TruncationFlag)
    else if flags % 16 != 0 then Some(ResponseCode(flags % 16))
    else if Word(payload, 4) != 1 || Word(payload, 6) < 1 then Some(NoUsableAnswer)
    else None
  }

  function Checked(payload: Bytes, queryId: nat): Verdict {
    if |payload| < 12 then Rejected(TruncatedResponse)
    else if HeaderProblem(payload, queryId).Some? then Rejected(HeaderProblem(payload, queryId).value)
    else
      match SkippedName(payload, 12)
      case Failure(error) => Rejected(error)
      case Success(question) =>
        if question + 4 > |payload| then Rejected(TruncatedQuestion)
        else Answers(payload, question + 4, Word(payload, 6))
  }

  /** The answer loop of _dns_probe_response. */
  method CheckAnswers(payload: Bytes, start: nat, answers: nat) returns (verdict: Verdict)
    ensures verdict == Answers(payload, start, answers)
  {
    hide SkippedName, Word;
    var offset: nat := start;
    for i := 0 to answers
      invariant Answers(payload, start, answers) == Answers(payload, offset, answers - i)
    {
      var fields := SkipName(payload, offset);
      if fields.Failure? { return Rejected(fields.error); }
      if fields.value + 10 > |payload| { return Rejected(TruncatedAnswer); }
      var size := Word(payload, fields.value + 8);
      if fields.value + 10 + size > |payload| { return Rejected(TruncatedData); }
      if Word(payload, fields.value) == 1 && Word(payload, fields.value + 2) == 1 && size == 4 { return Answered; }
      offset := fields.value + 10 + size;
    }
    verdict := Rejected(NoAddress);
  }

  /** _dns_probe_response */
  method CheckResponse(payload: Bytes, queryId: nat) returns (verdict: Verdict)
    ensures verdict == Checked(payload, queryId)
  {
    hide SkippedName, HeaderProblem, Word, Answers;
    if |payload| < 12 { return Rejected(TruncatedResponse); }
    var problem := HeaderProblem(payload, queryId);
    if problem.Some? { return Rejected(problem.value); }
    var question := SkipName(payload, 12);
    if question.Failure? { return Rejected(question.error); }
    if question.value + 4 > |payload| { return Rejected(TruncatedQuestion); }
    verdict := CheckAnswers(payload, question.value + 4, Word(payload, 6));
  }

  // ---- Names against the grammar -------------------------------------------------------------------------

  lemma {:induction false} EncodedLabel(name: Name)
    requires name.labels != []
    ensures EncodeName(name) == [AsByte(|name.labels[0]|)]
            + (name.labels[0] + EncodeName(Name(name.labels[1..], name.end)))
  {
  }

  /** The parser skips every encoded name. */
  lemma {:induction false} NameIsSkipped(payload: Bytes, offset: nat, name: Name)
    requires ValidName(name) && StandsAt(payload, offset, EncodeName(name))
    ensures SkippedName(payload, offset) == Success(offset + |EncodeName(name)|)
    decreases |name.labels|
  {
    if name.labels == [] {
      assert payload[offset] == payload[offset..offset + |EncodeEnd(name.end)|][0];
    } else {
      var head := name.labels[0];
      var rest := Name(name.labels[1..], name.end);
      EncodedLabel(name);
      StandsSplit(payload, offset, [AsByte(|head|)], head + EncodeName(rest));
      StandsSplit(payload, offset + 1, head, EncodeName(rest));
      StandsByte(payload, offset, AsByte(|head|));
      AsByteValue(|head|);
      hide EncodeName, StandsAt, AsByte, Value;
      StandsWithin(payload, offset + 1, head);
      NameIsSkipped(payload, offset + 1 + |head|, rest);
    }
  }

  /** What the parser skips is an encoded name. */
  lemma {:induction false} SkippedIsName(payload: Bytes, offset: nat) returns (name: Name)
    requires SkippedName(payload, offset).Success?
    ensures ValidName(name) && StandsAt(payload, offset, EncodeName(name))
    ensures SkippedName(payload, offset) == Success(offset + |EncodeName(name)|)
    decreases |payload| - offset
  {
    var size := Value(payload[offset]);
    if size == 0 {
      name := Name([], Root);
      StandsByte(payload, offset, 0);
    } else if size >= 192 {
      name := Name([], Pointer(payload[offset], payload[offset + 1]));
      assert payload[offset..offset + 2] == [payload[offset], payload[offset + 1]];
    } else {
      var rest := SkippedIsName(payload, offset + 1 + size);
      var head: Label := payload[offset + 1..offset + 1 + size];
      name := Name([head] + rest.labels, rest.end);
      assert name.labels[1..] == rest.labels;
      EncodedLabel(name);
      ByteOfValue(payload[offset]);
      StandsByte(payload, offset, AsByte(size));
      hide EncodeName, Value, AsByte;
      StandsSplit(payload, offset + 1, head, EncodeName(rest));
      StandsSplit(payload, offset, [AsByte(size)], head + EncodeName(rest));
      hide StandsAt;
    }
  }

  // ---- Records against the grammar -------------------------------------------------------------------------

  /** What the parser reads in the fields of an encoded record. */
  lemma {:induction false} FieldsRead(payload: Bytes, at: nat, record: Record)
    requires ValidRecord(record) && StandsAt(payload, at, EncodeFields(record))
    ensures at + 10 <= |payload|
    ensures Word(payload, at) == record.kind && Word(payload, at + 2) == record.family
            && Word(payload, at + 8) == |record.data|
  {
    hide BigEndian, ReadBigEndian, Pow2, ValidName, StandsAt;
    WordPowers();
    BigEndianReads(record.kind, 2);
    BigEndianReads(record.family, 2);
    BigEndianReads(|record.data|, 2);
    var fields := EncodeFields(record);
    var kind, family, size := BigEndian(record.kind, 2), BigEndian(record.family, 2), BigEndian(|record.data|, 2);
    assert fields[0..2] == kind && fields[2..4] == family && fields[8..10] == size;
    StandsWithin(payload, at, fields);
    Inside(payload, at, fields, 0, 2);
    Inside(payload, at, fields, 2, 4);
    Inside(payload, at, fields, 8, 10);
  }

  lemma {:induction false} Pieces(payload: Bytes, at: nat)
    requires at + 10 <= |payload|
    ensures StandsAt(payload, at, payload[at..at + 2] + payload[at + 2..at + 4] + payload[at + 4..at + 8]
                     + payload[at + 8..at + 10])
  {
    assert payload[at..at + 10]
      == payload[at..at + 2] + payload[at + 2..at + 4] + payload[at + 4..at + 8] + payload[at + 8..at + 10];
  }

  lemma {:induction false} ReadWord(payload: Bytes, at: nat)
    requires at + 2 <= |payload|
    ensures BigEndian(Word(payload, at), 2) == payload[at..at + 2] && Word(payload, at) < 0x1_0000
  {
    hide BigEndian, ReadBigEndian, Pow2;
    WordPowers();
    BigEndianWrites(payload[at..at + 2]);
  }

  /** The record whose fields and data stand behind a name. */
  lemma {:induction false} ReadFields(payload: Bytes, at: nat, name: Name) returns (record: Record)
    requires ValidName(name) && at + 10 <= |payload| && at + 10 + Word(payload, at + 8) <= |payload|
    ensures ValidRecord(record) && record.name == name
    ensures StandsAt(payload, at, EncodeFields(record)) && StandsAt(payload, at + 10, record.data)
    ensures Word(payload, at) == record.kind && Word(payload, at + 2) == record.family
            && Word(payload, at + 8) == |record.data|
  {
    hide BigEndian, Word, ValidName;
    ReadWord(payload, at);
    ReadWord(payload, at + 2);
    ReadWord(payload, at + 8);
    record := Record(name, Word(payload, at), Word(payload, at + 2), payload[at + 4..at + 8],
                     payload[at + 10..at + 10 + Word(payload, at + 8)]);
    Pieces(payload, at);
  }

  lemma {:induction false} RecordStands(payload: Bytes, offset: nat, record: Record)
    ensures StandsAt(payload, offset, EncodeRecord(record)) <==>
      && StandsAt(payload, offset, EncodeName(record.name))
      && StandsAt(payload, offset + |EncodeName(record.name)|, EncodeFields(record))
      && StandsAt(payload, offset + |EncodeName(record.name)| + |EncodeFields(record)|, record.data)
  {
    hide StandsAt, EncodeName, EncodeFields;
    StandsSplit(payload, offset, EncodeName(record.name) + EncodeFields(record), record.data);
    StandsSplit(payload, offset, EncodeName(record.name), EncodeFields(record));
  }

  /** Records that end in the first address among them. */
  ghost predicate FirstAddress(records: seq<Record>) {
    && records != [] && (forall i :: 0 <= i < |records| ==> ValidRecord(records[i]))
    && IsAddress(records[|records| - 1])
    && forall i :: 0 <= i < |records| - 1 ==> !IsAddress(records[i])
  }

  lemma {:induction false} FieldsWidth(record: Record)
    requires ValidRecord(record)
    ensures |EncodeFields(record)| == 10
  {
  }

  /** One turn of the answer loop on an encoded record. */
  lemma {:induction false} AnswerRead(payload: Bytes, offset: nat, count: nat, record: Record)
    requires count > 0 && ValidRecord(record) && StandsAt(payload, offset, EncodeRecord(record))
    ensures Answers(payload, offset, count)
      == if IsAddress(record) then Answered else Answers(payload, offset + |EncodeRecord(record)|, count - 1)
  {
    hide SkippedName, Word, StandsAt, EncodeName, EncodeFields, ValidName;
    RecordStands(payload, offset, record);
    NameIsSkipped(payload, offset, record.name);
    FieldsWidth(record);
    var fields := offset + |EncodeName(record.name)|;
    FieldsRead(payload, fields, record);
    StandsWithin(payload, fields + 10, record.data);
  }

  /** An address among the announced answers is found. */
  lemma {:induction false} AddressIsFound(payload: Bytes, offset: nat, count: nat, records: seq<Record>)
    requires FirstAddress(records) && |records| <= count && StandsAt(payload, offset, EncodeRecords(records))
    ensures Answers(payload, offset, count) == Answered
    decreases |records|
  {
    hide StandsAt, EncodeRecord, ValidRecord, IsAddress, Answers;
    StandsSplit(payload, offset, EncodeRecord(records[0]), EncodeRecords(records[1..]));
    AnswerRead(payload, offset, count, records[0]);
    if !IsAddress(records[0]) {
      AddressIsFound(payload, offset + |EncodeRecord(records[0])|, count - 1, records[1..]);
    }
  }

  lemma {:induction false} AnsweredStep(payload: Bytes, offset: nat, count: nat) returns (record: Record)
    requires Answers(payload, offset, count) == Answered
    ensures count > 0 && ValidRecord(record) && StandsAt(payload, offset, EncodeRecord(record))
    ensures IsAddress(record) || Answers(payload, offset + |EncodeRecord(record)|, count - 1) == Answered
  {
    hide SkippedName, EncodeName, EncodeFields, StandsAt, Word, ValidName;
    var name := SkippedIsName(payload, offset);
    var fields := offset + |EncodeName(name)|;
    record := ReadFields(payload, fields, name);
    FieldsWidth(record);
    RecordStands(payload, offset, record);
  }

  /** What the answer loop accepts is a run of encoded records ending in the first address. */
  lemma {:induction false} FoundIsAddress(payload: Bytes, offset: nat, count: nat) returns (records: seq<Record>)
    requires Answers(payload, offset, count) == Answered
    ensures FirstAddress(records) && |records| <= count && StandsAt(payload, offset, EncodeRecords(records))
    decreases count
  {
    hide StandsAt, EncodeRecord, ValidRecord, IsAddress, Answers;
    var record := AnsweredStep(payload, offset, count);
    if IsAddress(record) {
      records := [record];
      assert records[1..] == [] && EncodeRecords(records) == EncodeRecord(record) + [];
      assert EncodeRecord(record) + [] == EncodeRecord(record);
    } else {
      var rest := FoundIsAddress(payload, offset + |EncodeRecord(record)|, count - 1);
      records := [record] + rest;
      assert records[1..] == rest;
      StandsSplit(payload, offset, EncodeRecord(record), EncodeRecords(rest));
    }
  }

  // ---- Whole responses ---------------------------------------------------------------------------------------

  /** A response: its question and its answers up to the first address. */
  datatype Message = Message(question: Name, questionTail: Bytes, records: seq<Record>)

  /** The payload is a response to this query, without an error or truncation flag, with one
      question and, among the announced answers, an address at the end of these records. */
  ghost predicate Describes(message: Message, payload: Bytes, queryId: nat) {
    && |payload| >= 12 && HeaderProblem(payload, queryId).None?
    && ValidName(message.question) && |message.questionTail| == 4
    && FirstAddress(message.records) && |message.records| <= Word(payload, 6)
    && StandsAt(payload, 12, EncodeName(message.question))
    && StandsAt(payload, 12 + |EncodeName(message.question)|, message.questionTail)
    && StandsAt(payload, 16 + |EncodeName(message.question)|, EncodeRecords(message.records))
  }

  lemma {:induction false} DescribedIsAccepted(message: Message, payload: Bytes, queryId: nat)
    requires Describes(message, payload, queryId)
    ensures Checked(payload, queryId) == Answered
  {
    hide SkippedName, EncodeName, HeaderProblem, EncodeRecords, Answers, FirstAddress, Word, ValidName;
    NameIsSkipped(payload, 12, message.question);
    AddressIsFound(payload, 16 + |EncodeName(message.question)|, Word(payload, 6), message.records);
  }

  lemma {:induction false} AcceptedIsDescribed(payload: Bytes, queryId: nat) returns (message: Message)
    requires Checked(payload, queryId) == Answered
    ensures Describes(message, payload, queryId)
  {
    hide SkippedName, EncodeName, HeaderProblem, EncodeRecords, Answers, FirstAddress, Word, ValidName;
    var question := SkippedIsName(payload, 12);
    var end := 12 + |EncodeName(question)|;
    var records := FoundIsAddress(payload, end + 4, Word(payload, 6));
    message := Message(question, payload[end..end + 4], records);
  }

  /** The check accepts exactly the payloads the grammar describes as an answer with an address. */
  lemma {:induction false} AcceptsGrammar(payload: Bytes, queryId: nat)
    ensures Checked(payload, queryId) == Answered <==> exists message :: Describes(message, payload, queryId)
  {
    hide *;
    if Checked(payload, queryId) == Answered {
      var message := AcceptedIsDescribed(payload, queryId);
    }
    if message :| Describes(message, payload, queryId) {
      DescribedIsAccepted(message, payload, queryId);
    }
  }
}
