/** The bounded resPQ parser of the application probe (application_probe.py), against the frame
    it is meant to read: canonical byte strings, zero padding and an exact fingerprint vector. */
module ResPq {
  import opened Wrappers
  import opened Octets

  const RES_PQ: nat := 0x05162463
  const VECTOR: nat := 0x1cb5c415
  const MAX_FRAME: nat := 4096

  datatype ParseError =
    | TransportError | FrameLength | AuthKey | MessageId | MessageLength | Constructor | Nonce
    | NoncanonicalLength | LengthPrefix | PqBounds | PqValue | PqPadding | Fingerprints

  datatype Answer = Answer(serverNonce: Bytes, pq: Bytes, fingerprints: seq<nat>)

  // ---- The frame ---------------------------------------------------------------------------------

  datatype Reply = Reply(messageId: nat, answer: Answer)

  /** The length prefix of a byte string: one byte, or 254 and three bytes. */
  function Prefix(size: nat): Bytes {
    if size < 254 then [AsByte(size)] else [254] + ToBytes(size, 3)
  }

  function PaddedEnd(end: nat): nat { (end + 3) / 4 * 4 }

  function Zeros(n: nat): Bytes { seq(n, _ => 0) }

  function EncodeFingerprints(values: seq<nat>): Bytes {
    if values == [] then [] else ToBytes(values[0], 8) + EncodeFingerprints(values[1..])
  }

  function PqEnd(pq: Bytes): nat { 56 + |Prefix(|pq|)| + |pq| }

  function FrameSize(reply: Reply): nat {
    PaddedEnd(PqEnd(reply.answer.pq)) + 8 + 8 * |reply.answer.fingerprints|
  }

  /** The fingerprint vector. */
  function EncodeVector(values: seq<nat>): Bytes {
    ToBytes(VECTOR, 4) + (ToBytes(|values|, 4) + EncodeFingerprints(values))
  }

  /** The pq string, padded to a multiple of four, and the vector. */
  function EncodeTail(answer: Answer): Bytes {
    Prefix(|answer.pq|) + (answer.pq + (Zeros(PaddedEnd(PqEnd(answer.pq)) - PqEnd(answer.pq))
                                        + EncodeVector(answer.fingerprints)))
  }

  /** The message: constructor, both nonces and the rest. */
  function EncodeMessage(answer: Answer, nonce: Bytes): Bytes {
    ToBytes(RES_PQ, 4) + (nonce + (answer.serverNonce + EncodeTail(answer)))
  }

  function Encode(reply: Reply, nonce: Bytes): Bytes {
    ToBytes(0, 8) + (ToBytes(reply.messageId, 8)
                     + (ToBytes(Max(0, FrameSize(reply) - 20), 4) + EncodeMessage(reply.answer, nonce)))
  }

  /** What a server may answer: a response identifier, an odd number above one, some fingerprints. */
  ghost predicate ValidReply(reply: Reply, nonce: Bytes) {
    && reply.messageId < 0x1_0000_0000_0000_0000 && reply.messageId % 4 == 1
    && |nonce| == 16 && |reply.answer.serverNonce| == 16
    && reply.answer.pq != [] && ReadBigEndian(reply.answer.pq) > 1
       && Value(reply.answer.pq[|reply.answer.pq| - 1]) % 2 == 1
    && reply.answer.fingerprints != []
    && (forall i :: 0 <= i < |reply.answer.fingerprints| ==> reply.answer.fingerprints[i] < 0x1_0000_0000_0000_0000)
    && FrameSize(reply) <= MAX_FRAME
  }

  // ---- The parser -----------------------------------------------------------------------------------

  function Number(frame: Bytes, at: nat, width: nat): nat
    requires at + width <= |frame|
  {
    LittleEndian(frame[at..at + width])
  }

  function Signed(n: nat): int { if n < 0x8000_0000 then n else n - 0x1_0000_0000 }

  function DecodeFingerprints(bytes: Bytes): seq<nat> {
    if |bytes| < 8 then [] else [LittleEndian(bytes[..8])] + DecodeFingerprints(bytes[8..])
  }

  function EnvelopeProblem(frame: Bytes, nonce: Bytes): Option<ParseError>
    requires |frame| >= 76
  {
    if Number(frame, 0, 8) != 0 then Some(AuthKey)
    else if Number(frame, 8, 8) % 4 != 1 then Some(MessageId)
    else if Number(frame, 16, 4) != |frame| - 20 then Some(MessageLength)
    else if Number(frame, 20, 4) != RES_PQ then Some(Constructor)
    else if frame[24..40] != nonce then Some(Nonce)
    else None
  }

  /** The size of the pq string and where it starts. */
  function PqLength(frame: Bytes): Result<(nat, nat), ParseError>
    requires |frame| >= 76
  {
    var size := Value(frame[56]);
    if size == 254 then
      if Number(frame, 57, 3) < 254 then Failure(NoncanonicalLength) else Success((Number(frame, 57, 3), 60))
    else if size == 255 then Failure(LengthPrefix)
    else Success((size, 57))
  }

  predicate AllZero(bytes: Bytes) { forall i :: 0 <= i < |bytes| ==> bytes[i] == 0 }

  function ParseTail(frame: Bytes, size: nat, start: nat): Result<Answer, ParseError>
    requires |frame| >= 76
  {
    var end := start + size;
    var padded := PaddedEnd(end);
    if size == 0 || padded + 8 > |frame| then Failure(PqBounds)
    else
      var pq := frame[start..end];
      if ReadBigEndian(pq) <= 1 || Value(pq[|pq| - 1]) % 2 == 0 then Failure(PqValue)
      else if !AllZero(frame[end..padded]) then Failure(PqPadding)
      else
        var count := Signed(Number(frame, padded + 4, 4));
        if Number(frame, padded, 4) != VECTOR || count <= 0 || count * 8 != |frame| - padded - 8
        then Failure(Fingerprints)
        else Success(Answer(frame[40..56], pq, DecodeFingerprints(frame[padded + 8..])))
  }

  /** _parse_res_pq */
  function Parse(frame: Bytes, nonce: Bytes): Result<Answer, ParseError> {
    if |frame| == 4 then Failure(TransportError)
    else if |frame| < 76 || |frame| > MAX_FRAME || |frame| % 4 != 0 then Failure(FrameLength)
    else if EnvelopeProblem(frame, nonce).Some? then Failure(EnvelopeProblem(frame, nonce).value)
    else
      var length :- PqLength(frame);
      ParseTail(frame, length.0, length.1)
  }

  // ---- Fields ---------------------------------------------------------------------------------------------

  lemma {:induction false} NumberStands(frame: Bytes, at: nat, width: nat, n: nat)
    requires n < Pow2(8 * width)
    ensures StandsAt(frame, at, ToBytes(n, width)) <==> at + width <= |frame| && Number(frame, at, width) == n
  {
    hide Pow2;
    EncodingExact(n, width);
    if at + width <= |frame| { LittleEndianWrites(frame[at..at + width]); }
    hide ToBytes, LittleEndian;
  }

  lemma {:induction false} BytesStand(frame: Bytes, at: nat, bytes: Bytes)
    ensures StandsAt(frame, at, bytes) <==> at + |bytes| <= |frame| && frame[at..at + |bytes|] == bytes
  {
  }

  lemma {:induction false} PaddedBounds(end: nat)
    ensures end <= PaddedEnd(end) <= end + 3 && PaddedEnd(end) % 4 == 0
  {
  }

  lemma {:induction false} ZerosAreZero(bytes: Bytes)
    ensures AllZero(bytes) <==> bytes == Zeros(|bytes|)
  {
  }

  lemma {:induction false} PrefixWidth(size: nat)
    ensures |Prefix(size)| == if size < 254 then 1 else 4
  {
    if size >= 254 { ToBytesWidth(size, 3); }
  }

  lemma {:induction false} ToBytesWidth(n: nat, width: nat)
    ensures |ToBytes(n, width)| == width
  {
    if width > 0 { ToBytesWidth(n / 256, width - 1); }
  }

  lemma {:induction false} ShortPrefixStands(frame: Bytes, size: nat)
    requires |frame| >= 76 && size < 254
    ensures StandsAt(frame, 56, Prefix(size)) <==> PqLength(frame) == Success((size, 57))
  {
    StandsByte(frame, 56, AsByte(size));
    AsByteValue(size);
    ByteOfValue(frame[56]);
    hide AsByte, Value, Number, StandsAt;
  }

  lemma {:induction false} ByteValue(b: byte)
    ensures Value(b) == b as nat
  {
  }

  lemma {:induction false} LongPrefixStands(frame: Bytes, size: nat)
    requires |frame| >= 76 && 254 <= size <= MAX_FRAME
    ensures StandsAt(frame, 56, Prefix(size)) <==> PqLength(frame) == Success((size, 60))
  {
    hide Pow2, ToBytes, Number, StandsAt, AsByte, Value;
    assert Value(254) == 254 by { ByteValue(254); }
    WordPowers();
    SmallPowers();
    Pow2Add(16, 8);
    NumberStands(frame, 57, 3, size);
    StandsSplit(frame, 56, [254], ToBytes(size, 3));
    StandsByte(frame, 56, 254);
    ByteValue(frame[56]);
  }

  /** The parser reads a size exactly where its prefix stands. */
  lemma {:induction false} PrefixStands(frame: Bytes, size: nat)
    requires |frame| >= 76 && size <= MAX_FRAME
    ensures StandsAt(frame, 56, Prefix(size)) <==> PqLength(frame) == Success((size, 56 + |Prefix(size)|))
  {
    hide PqLength, StandsAt, Prefix;
    PrefixWidth(size);
    if size < 254 {
      ShortPrefixStands(frame, size);
    } else {
      LongPrefixStands(frame, size);
    }
  }

  lemma {:induction false} FingerprintsRead(values: seq<nat>)
    requires forall i :: 0 <= i < |values| ==> values[i] < 0x1_0000_0000_0000_0000
    ensures |EncodeFingerprints(values)| == 8 * |values|
    ensures DecodeFingerprints(EncodeFingerprints(values)) == values
  {
    if values != [] {
      FingerprintsRead(values[1..]);
      WordPowers();
      hide Pow2;
      EncodingExact(values[0], 8);
      hide ToBytes, LittleEndian;
      var bytes := EncodeFingerprints(values);
      assert bytes[..8] == ToBytes(values[0], 8) && bytes[8..] == EncodeFingerprints(values[1..]);
      assert [values[0]] + values[1..] == values;
    }
  }

  lemma {:induction false} FingerprintsWritten(bytes: Bytes)
    requires |bytes| % 8 == 0
    ensures EncodeFingerprints(DecodeFingerprints(bytes)) == bytes
    ensures |DecodeFingerprints(bytes)| == |bytes| / 8
    ensures forall i :: 0 <= i < |DecodeFingerprints(bytes)| ==> DecodeFingerprints(bytes)[i] < 0x1_0000_0000_0000_0000
    decreases |bytes|
  {
    if |bytes| >= 8 {
      FingerprintsWritten(bytes[8..]);
      LittleEndianWrites(bytes[..8]);
      LittleEndianBound(bytes[..8]);
      WordPowers();
      hide Pow2, ToBytes, LittleEndian;
      var values := DecodeFingerprints(bytes);
      assert values[1..] == DecodeFingerprints(bytes[8..]);
      assert bytes == bytes[..8] + bytes[8..];
    }
  }

  // ---- Parsing against encoding -------------------------------------------------------------------------

  lemma {:induction false} VectorStands(frame: Bytes, at: nat, values: seq<nat>)
    ensures StandsAt(frame, at, EncodeVector(values)) <==>
      && StandsAt(frame, at, ToBytes(VECTOR, 4))
      && StandsAt(frame, at + 4, ToBytes(|values|, 4))
      && StandsAt(frame, at + 8, EncodeFingerprints(values))
  {
    hide StandsAt, ToBytes, EncodeFingerprints;
    ToBytesWidth(VECTOR, 4);
    ToBytesWidth(|values|, 4);
    StandsThree(frame, at, ToBytes(VECTOR, 4), ToBytes(|values|, 4), EncodeFingerprints(values));
  }

  /** Every part of an encoded tail stands in its place. */
  lemma {:induction false} TailStands(frame: Bytes, answer: Answer)
    ensures var end, padded := PqEnd(answer.pq), PaddedEnd(PqEnd(answer.pq));
      StandsAt(frame, 56, EncodeTail(answer)) <==>
        && StandsAt(frame, 56, Prefix(|answer.pq|))
        && StandsAt(frame, end - |answer.pq|, answer.pq)
        && StandsAt(frame, end, Zeros(padded - end))
        && StandsAt(frame, padded, EncodeVector(answer.fingerprints))
  {
    hide StandsAt, EncodeVector, Prefix, PaddedEnd;
    var end, padded := PqEnd(answer.pq), PaddedEnd(PqEnd(answer.pq));
    PaddedBounds(end);
    var padding, vector := Zeros(padded - end), EncodeVector(answer.fingerprints);
    StandsThree(frame, 56, Prefix(|answer.pq|), answer.pq, padding + vector);
    StandsSplit(frame, end, padding, vector);
  }

  lemma {:induction false} MessageStands(frame: Bytes, answer: Answer, nonce: Bytes)
    requires |nonce| == 16 && |answer.serverNonce| == 16
    ensures StandsAt(frame, 20, EncodeMessage(answer, nonce)) <==>
      && StandsAt(frame, 20, ToBytes(RES_PQ, 4))
      && StandsAt(frame, 24, nonce)
      && StandsAt(frame, 40, answer.serverNonce)
      && StandsAt(frame, 56, EncodeTail(answer))
  {
    hide StandsAt, ToBytes, EncodeTail;
    ToBytesWidth(RES_PQ, 4);
    StandsThree(frame, 20, ToBytes(RES_PQ, 4), nonce, answer.serverNonce + EncodeTail(answer));
    StandsSplit(frame, 40, answer.serverNonce, EncodeTail(answer));
  }

  /** Every part of an encoded reply stands in its place. */
  lemma {:induction false} ReplyStands(frame: Bytes, reply: Reply, nonce: Bytes)
    ensures StandsAt(frame, 0, Encode(reply, nonce)) <==>
      && StandsAt(frame, 0, ToBytes(0, 8))
      && StandsAt(frame, 8, ToBytes(reply.messageId, 8))
      && StandsAt(frame, 16, ToBytes(Max(0, FrameSize(reply) - 20), 4))
      && StandsAt(frame, 20, EncodeMessage(reply.answer, nonce))
  {
    hide StandsAt, ToBytes, EncodeMessage, FrameSize;
    var size := ToBytes(Max(0, FrameSize(reply) - 20), 4);
    ToBytesWidth(0, 8);
    ToBytesWidth(reply.messageId, 8);
    ToBytesWidth(Max(0, FrameSize(reply) - 20), 4);
    StandsThree(frame, 0, ToBytes(0, 8), ToBytes(reply.messageId, 8), size + EncodeMessage(reply.answer, nonce));
    StandsSplit(frame, 16, size, EncodeMessage(reply.answer, nonce));
  }

  lemma {:induction false} VectorSize(values: seq<nat>)
    requires forall i :: 0 <= i < |values| ==> values[i] < 0x1_0000_0000_0000_0000
    ensures |EncodeVector(values)| == 8 + 8 * |values|
  {
    hide ToBytes, EncodeFingerprints;
    FingerprintsRead(values);
    ToBytesWidth(VECTOR, 4);
    ToBytesWidth(|values|, 4);
  }

  lemma {:induction false} MessageSize(answer: Answer, nonce: Bytes)
    requires |nonce| == 16 && |answer.serverNonce| == 16
    requires forall i :: 0 <= i < |answer.fingerprints| ==> answer.fingerprints[i] < 0x1_0000_0000_0000_0000
    ensures |EncodeMessage(answer, nonce)| + 20 == PaddedEnd(PqEnd(answer.pq)) + 8 + 8 * |answer.fingerprints|
  {
    hide ToBytes, EncodeVector, Prefix, PaddedEnd;
    ToBytesWidth(RES_PQ, 4);
    VectorSize(answer.fingerprints);
    PaddedBounds(PqEnd(answer.pq));
    var tail := EncodeTail(answer);
    assert |tail| == PaddedEnd(PqEnd(answer.pq)) - 56 + 8 + 8 * |answer.fingerprints|;
    hide EncodeTail, PqEnd;
    assert |EncodeMessage(answer, nonce)| == 4 + 16 + 16 + |tail|;
  }

  lemma {:induction false} EncodedSize(reply: Reply, nonce: Bytes)
    requires ValidReply(reply, nonce)
    ensures |Encode(reply, nonce)| == FrameSize(reply) >= 76 && FrameSize(reply) % 4 == 0
  {
    hide ToBytes, EncodeMessage, PaddedEnd, Prefix, ReadBigEndian, Value;
    MessageSize(reply.answer, nonce);
    ToBytesWidth(0, 8);
    ToBytesWidth(reply.messageId, 8);
    ToBytesWidth(Max(0, FrameSize(reply) - 20), 4);
    PaddedBounds(PqEnd(reply.answer.pq));
    PrefixWidth(|reply.answer.pq|);
  }

  /** The envelope is accepted exactly when its fields stand in their places. */
  lemma {:induction false} EnvelopeStands(frame: Bytes, nonce: Bytes)
    requires |frame| >= 76 && |frame| <= MAX_FRAME
    ensures EnvelopeProblem(frame, nonce).None? <==>
      && StandsAt(frame, 0, ToBytes(0, 8))
      && Number(frame, 8, 8) % 4 == 1
      && StandsAt(frame, 16, ToBytes(|frame| - 20, 4))
      && StandsAt(frame, 20, ToBytes(RES_PQ, 4))
      && |nonce| == 16 && StandsAt(frame, 24, nonce)
  {
    WordPowers();
    hide Pow2, ToBytes, Number;
    NumberStands(frame, 0, 8, 0);
    NumberStands(frame, 16, 4, |frame| - 20);
    NumberStands(frame, 20, 4, RES_PQ);
    BytesStand(frame, 24, nonce);
    hide StandsAt;
  }

  /** What an answer's tail looks like to the parser. */
  ghost predicate TailFields(frame: Bytes, answer: Answer) {
    var end, padded := PqEnd(answer.pq), PaddedEnd(PqEnd(answer.pq));
    && |frame| >= 76 && |answer.pq| < end <= padded && padded + 8 <= |frame|
    && PqLength(frame) == Success((|answer.pq|, end - |answer.pq|))
    && frame[end - |answer.pq|..end] == answer.pq
    && AllZero(frame[end..padded])
    && Number(frame, padded, 4) == VECTOR && Number(frame, padded + 4, 4) == |answer.fingerprints|
    && DecodeFingerprints(frame[padded + 8..]) == answer.fingerprints
    && |frame| == padded + 8 + 8 * |answer.fingerprints|
  }

  ghost predicate SmallFingerprints(values: seq<nat>) {
    forall i :: 0 <= i < |values| ==> values[i] < 0x1_0000_0000_0000_0000
  }

  lemma {:induction false} VectorReads(frame: Bytes, at: nat, values: seq<nat>)
    requires at + 8 <= |frame| && |frame| <= MAX_FRAME && (|frame| - at) % 8 == 0
    ensures StandsAt(frame, at, EncodeVector(values)) && |frame| == at + 8 + 8 * |values| && SmallFingerprints(values)
      <==> (Number(frame, at, 4) == VECTOR && Number(frame, at + 4, 4) == |values|
            && DecodeFingerprints(frame[at + 8..]) == values
            && |frame| == at + 8 + 8 * |values|)
  {
    VectorStands(frame, at, values);
    WordPowers();
    hide Pow2, EncodeVector, EncodeFingerprints, DecodeFingerprints, Number, ToBytes;
    NumberStands(frame, at, 4, VECTOR);
    if |values| <= MAX_FRAME { NumberStands(frame, at + 4, 4, |values|); }
    var rest := frame[at + 8..];
    FingerprintsWritten(rest);
    if |frame| == at + 8 + 8 * |values| {
      assert frame[at + 8..at + 8 + |rest|] == rest;
      BytesStand(frame, at + 8, rest);
      if SmallFingerprints(values) {
        FingerprintsRead(values);
        BytesStand(frame, at + 8, EncodeFingerprints(values));
      }
    }
    hide StandsAt;
  }

  lemma {:induction false} EndAfterPq(pq: Bytes)
    ensures |pq| < PqEnd(pq) <= PaddedEnd(PqEnd(pq))
  {
    PaddedBounds(PqEnd(pq));
    hide PaddedEnd, Prefix;
  }

  lemma {:induction false} PqStands(frame: Bytes, pq: Bytes)
    requires 76 <= |frame| <= MAX_FRAME && |pq| <= MAX_FRAME && PaddedEnd(PqEnd(pq)) + 8 <= |frame|
    ensures var end, padded := PqEnd(pq), PaddedEnd(PqEnd(pq));
      StandsAt(frame, 56, Prefix(|pq|)) && StandsAt(frame, end - |pq|, pq) && StandsAt(frame, end, Zeros(padded - end))
      <==> (|pq| < end <= padded && PqLength(frame) == Success((|pq|, end - |pq|)) && frame[end - |pq|..end] == pq
            && AllZero(frame[end..padded]))
  {
    var end, padded := PqEnd(pq), PaddedEnd(PqEnd(pq));
    EndAfterPq(pq);
    PrefixStands(frame, |pq|);
    hide Prefix, PaddedEnd, PqLength;
    BytesStand(frame, end - |pq|, pq);
    BytesStand(frame, end, Zeros(padded - end));
    ZerosAreZero(frame[end..padded]);
    hide StandsAt, AllZero, Zeros;
  }

  /** A canonical tail stands in the frame exactly when the parser sees its fields. */
  lemma {:induction false} TailReads(frame: Bytes, answer: Answer)
    requires 76 <= |frame| <= MAX_FRAME && |answer.pq| <= MAX_FRAME
    requires |frame| == PaddedEnd(PqEnd(answer.pq)) + 8 + 8 * |answer.fingerprints|
    ensures StandsAt(frame, 56, EncodeTail(answer)) && SmallFingerprints(answer.fingerprints)
            <==> TailFields(frame, answer)
  {
    hide StandsAt, EncodeTail, EncodeVector, PqLength, Prefix, PaddedEnd, DecodeFingerprints, Number,
         SmallFingerprints, AllZero, Zeros;
    TailStands(frame, answer);
    PqStands(frame, answer.pq);
    VectorReads(frame, PaddedEnd(PqEnd(answer.pq)), answer.fingerprints);
  }

  /** The pq and the vector size are acceptable. */
  ghost predicate ValidAnswer(answer: Answer) {
    && |answer.serverNonce| == 16
    && answer.pq != [] && ReadBigEndian(answer.pq) > 1 && Value(answer.pq[|answer.pq| - 1]) % 2 == 1
    && answer.fingerprints != [] && SmallFingerprints(answer.fingerprints)
  }

  lemma {:induction false} TailParses(frame: Bytes, answer: Answer)
    requires |frame| <= MAX_FRAME && ValidAnswer(answer) && TailFields(frame, answer)
             && frame[40..56] == answer.serverNonce
    ensures ParseTail(frame, |answer.pq|, PqEnd(answer.pq) - |answer.pq|) == Success(answer)
  {
    hide PqLength, Prefix, PaddedEnd, DecodeFingerprints, Number, SmallFingerprints, AllZero, ReadBigEndian, Value;
  }

  lemma {:induction false} ParsedTail(frame: Bytes, size: nat, start: nat) returns (answer: Answer)
    requires 76 <= |frame| <= MAX_FRAME && |frame| % 4 == 0
    requires PqLength(frame) == Success((size, start)) && ParseTail(frame, size, start).Success?
    ensures ParseTail(frame, size, start) == Success(answer) && answer.serverNonce == frame[40..56]
    ensures ValidAnswer(answer) && TailFields(frame, answer) && |answer.pq| == size
  {
    answer := ParseTail(frame, size, start).value;
    var padded := PaddedEnd(start + size);
    PaddedBounds(start + size);
    assert PqEnd(answer.pq) == start + size by { PrefixOf(frame, size, start); }
    hide PqLength, Prefix, PaddedEnd, AllZero, ReadBigEndian, Value, Number, DecodeFingerprints, SmallFingerprints,
         Signed;
    FingerprintsParsed(frame, padded);
  }

  lemma {:induction false} FingerprintsParsed(frame: Bytes, padded: nat)
    requires padded + 8 <= |frame|
    requires Signed(Number(frame, padded + 4, 4)) > 0
    requires Signed(Number(frame, padded + 4, 4)) * 8 == |frame| - padded - 8
    ensures var values := DecodeFingerprints(frame[padded + 8..]);
      && values != [] && SmallFingerprints(values) && Number(frame, padded + 4, 4) == |values|
      && |frame| == padded + 8 + 8 * |values|
  {
    FingerprintsWritten(frame[padded + 8..]);
    SignedBound(frame, padded + 4);
    hide Number, DecodeFingerprints;
  }

  /** The parser only reads sizes written in the shortest way. */
  lemma {:induction false} PrefixOf(frame: Bytes, size: nat, start: nat)
    requires |frame| >= 76 && PqLength(frame) == Success((size, start))
    ensures start == 56 + |Prefix(size)|
  {
    PrefixWidth(size);
    hide Number;
  }

  lemma {:induction false} SignedBound(frame: Bytes, at: nat)
    requires at + 4 <= |frame|
    ensures Signed(Number(frame, at, 4)) > 0 ==> Signed(Number(frame, at, 4)) == Number(frame, at, 4)
  {
    LittleEndianBound(frame[at..at + 4]);
    WordPowers();
    hide Pow2, LittleEndian;
  }

  // ---- The round trip -------------------------------------------------------------------------------------

  lemma {:induction false} EncodedStands(reply: Reply, nonce: Bytes)
    requires ValidReply(reply, nonce)
    ensures var frame := Encode(reply, nonce);
      && 76 <= |frame| == FrameSize(reply) <= MAX_FRAME && |frame| % 4 == 0
      && StandsAt(frame, 0, ToBytes(0, 8)) && StandsAt(frame, 8, ToBytes(reply.messageId, 8))
      && StandsAt(frame, 16, ToBytes(|frame| - 20, 4)) && StandsAt(frame, 20, ToBytes(RES_PQ, 4))
      && StandsAt(frame, 24, nonce) && StandsAt(frame, 40, reply.answer.serverNonce)
      && StandsAt(frame, 56, EncodeTail(reply.answer))
  {
    var frame := Encode(reply, nonce);
    EncodedSize(reply, nonce);
    assert StandsAt(frame, 0, frame) by { assert frame[0..|frame|] == frame; }
    hide Encode, EncodeMessage, EncodeTail, StandsAt, ToBytes, ReadBigEndian, Value, FrameSize;
    ReplyStands(frame, reply, nonce);
    MessageStands(frame, reply.answer, nonce);
  }

  lemma {:induction false} ValidParts(reply: Reply, nonce: Bytes)
    requires ValidReply(reply, nonce)
    ensures ValidAnswer(reply.answer) && |nonce| == 16 && reply.messageId < 0x1_0000_0000_0000_0000
            && reply.messageId % 4 == 1
    ensures |reply.answer.pq| <= MAX_FRAME
  {
    EndAfterPq(reply.answer.pq);
    hide ReadBigEndian, Value, Prefix, PqEnd, PaddedEnd;
  }

  lemma {:induction false} ValidAnswerParts(answer: Answer)
    requires ValidAnswer(answer)
    ensures SmallFingerprints(answer.fingerprints) && |answer.serverNonce| == 16
  {
    hide ReadBigEndian, Value;
  }

  lemma {:induction false} WholeStands(frame: Bytes, encoding: Bytes)
    requires StandsAt(frame, 0, encoding) && |encoding| == |frame|
    ensures frame == encoding
  {
    assert frame[0..|frame|] == frame;
  }

  /** What both directions go through: the fields of the frame as the parser reads them. */
  ghost predicate Parts(frame: Bytes, reply: Reply, nonce: Bytes) {
    && 76 <= |frame| <= MAX_FRAME && |frame| % 4 == 0 && |nonce| == 16
    && EnvelopeProblem(frame, nonce).None? && Number(frame, 8, 8) == reply.messageId
    && frame[40..56] == reply.answer.serverNonce
    && ValidAnswer(reply.answer) && TailFields(frame, reply.answer)
  }

  lemma {:induction false} PqLengthRead(frame: Bytes, answer: Answer)
    requires TailFields(frame, answer)
    ensures |frame| >= 76 && |answer.pq| < PqEnd(answer.pq)
    ensures PqLength(frame) == Success((|answer.pq|, PqEnd(answer.pq) - |answer.pq|))
    ensures |frame| == PaddedEnd(PqEnd(answer.pq)) + 8 + 8 * |answer.fingerprints| && |answer.pq| <= |frame|
  {
    hide PqLength, Prefix, PqEnd, PaddedEnd, DecodeFingerprints, Number, AllZero;
  }

  lemma {:induction false} PartsParse(frame: Bytes, reply: Reply, nonce: Bytes)
    requires Parts(frame, reply, nonce)
    ensures Parse(frame, nonce) == Success(reply.answer)
  {
    hide EnvelopeProblem, PqLength, ParseTail, TailFields, ValidAnswer, Number, PqEnd;
    PqLengthRead(frame, reply.answer);
    TailParses(frame, reply.answer);
  }

  lemma {:induction false} ParseParts(frame: Bytes, nonce: Bytes) returns (reply: Reply)
    requires Parse(frame, nonce).Success?
    ensures Parts(frame, reply, nonce) && Parse(frame, nonce) == Success(reply.answer)
  {
    hide EnvelopeProblem, PqLength, ParseTail, TailFields, ValidAnswer, Number, StandsAt, ToBytes;
    var length := PqLength(frame).value;
    var answer := ParsedTail(frame, length.0, length.1);
    EnvelopeStands(frame, nonce);
    reply := Reply(Number(frame, 8, 8), answer);
  }

  lemma {:induction false} EncodeParts(reply: Reply, nonce: Bytes)
    requires ValidReply(reply, nonce)
    ensures Parts(Encode(reply, nonce), reply, nonce)
  {
    var frame := Encode(reply, nonce);
    hide Encode, EncodeTail, StandsAt, Pow2, ToBytes, Number, PqEnd, PaddedEnd, ValidReply, ValidAnswer,
         EnvelopeProblem, TailFields, SmallFingerprints;
    EncodedStands(reply, nonce);
    ValidParts(reply, nonce);
    ValidAnswerParts(reply.answer);
    WordPowers();
    NumberStands(frame, 8, 8, reply.messageId);
    EnvelopeStands(frame, nonce);
    BytesStand(frame, 40, reply.answer.serverNonce);
    TailReads(frame, reply.answer);
  }

  lemma {:induction false} PartsValid(frame: Bytes, reply: Reply, nonce: Bytes)
    requires Parts(frame, reply, nonce)
    ensures ValidReply(reply, nonce) && FrameSize(reply) == |frame|
  {
    PqLengthRead(frame, reply.answer);
    WordPowers();
    LittleEndianBound(frame[8..16]);
    EnvelopeId(frame, nonce);
    hide EnvelopeProblem, Pow2, LittleEndian, TailFields, ReadBigEndian, Value, PqEnd, PaddedEnd;
  }

  lemma {:induction false} EnvelopeId(frame: Bytes, nonce: Bytes)
    requires |frame| >= 76 && EnvelopeProblem(frame, nonce).None?
    ensures Number(frame, 8, 8) % 4 == 1
  {
    hide Number;
  }

  lemma {:induction false} PartsEncode(frame: Bytes, reply: Reply, nonce: Bytes)
    requires Parts(frame, reply, nonce)
    ensures ValidReply(reply, nonce) && frame == Encode(reply, nonce)
  {
    hide Encode, EncodeTail, EncodeMessage, StandsAt, Pow2, ToBytes, Number, PqEnd, PaddedEnd, ValidReply,
         ValidAnswer, EnvelopeProblem,
         TailFields, SmallFingerprints, FrameSize;
    PartsValid(frame, reply, nonce);
    PqLengthRead(frame, reply.answer);
    ValidAnswerParts(reply.answer);
    ValidParts(reply, nonce);
    WordPowers();
    NumberStands(frame, 8, 8, reply.messageId);
    EnvelopeStands(frame, nonce);
    BytesStand(frame, 40, reply.answer.serverNonce);
    TailReads(frame, reply.answer);
    MessageStands(frame, reply.answer, nonce);
    ReplyStands(frame, reply, nonce);
    EncodedSize(reply, nonce);
    WholeStands(frame, Encode(reply, nonce));
  }

  /** The parser accepts exactly the encodings of valid replies, and reads them back. */
  lemma {:induction false} ParsesGrammar(frame: Bytes, nonce: Bytes, answer: Answer)
    ensures Parse(frame, nonce) == Success(answer)
      <==> exists id: nat :: ValidReply(Reply(id, answer), nonce) && frame == Encode(Reply(id, answer), nonce)
  {
    hide *;
    if Parse(frame, nonce) == Success(answer) {
      var reply := ParseParts(frame, nonce);
      PartsEncode(frame, reply, nonce);
      assert reply == Reply(reply.messageId, answer);
    }
    if id: nat :| ValidReply(Reply(id, answer), nonce) && frame == Encode(Reply(id, answer), nonce) {
      EncodeParts(Reply(id, answer), nonce);
      PartsParse(frame, Reply(id, answer), nonce);
    }
  }
}
