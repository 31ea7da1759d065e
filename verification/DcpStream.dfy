/** The chunked stream of src/stream/dcp_stream.rs over the byte ring, with the 7-byte chunk header of
    src/binary/stream.rs. Each operation is one atomic step here; RingSteps says what can go wrong when
    it is not. */
module Chunks {
  import opened Bits
  import opened Errors

  const FIRST: byte := 1
  const CONTINUE: byte := 2
  const LAST: byte := 4
  const ERROR: byte := 8
  const ALL_CHUNK_FLAGS: byte := 15
  const FIRST_AND_LAST: byte := 5
  const HEADER_SIZE := 7

  /** The header fields: a u32, a u8 and a u16. */
  datatype Chunk = Chunk(sequence: nat, flags: byte, len: nat)

  predicate ValidChunkFlags(flags: byte) {
    if flags == 0 || AndNot(flags, ALL_CHUNK_FLAGS) != 0 then false
    else if And(flags, ERROR) != 0 then flags == ERROR
    else flags == FIRST || flags == CONTINUE || flags == LAST || flags == Or(FIRST, LAST)
  }

  function AsBytes(c: Chunk): (bs: seq<byte>)
    ensures |bs| == HEADER_SIZE
  {
    Le(c.sequence, 4) + [c.flags] + Le(c.len, 2)
  }

  function FromBytes(bs: seq<byte>): Result<Chunk, DcpError> {
    if |bs| < HEADER_SIZE then Err(InsufficientData)
    else if !ValidChunkFlags(bs[4]) then Err(ValidationFailed)
    else Ok(Chunk(FromLe(bs[..4]), bs[4], FromLe(bs[5..7])))
  }

  /** A header is read back exactly when its flags are a combination the parser admits. */
  lemma HeaderRoundTrip(c: Chunk)
    requires c.sequence < U32 && c.len < U16
    ensures FromBytes(AsBytes(c)) == if ValidChunkFlags(c.flags) then Ok(c) else Err(ValidationFailed)
  {
    Pow256Values();
    LeRoundTrip(c.sequence, 4);
    LeRoundTrip(c.len, 2);
    assert AsBytes(c)[..4] == Le(c.sequence, 4) && AsBytes(c)[5..7] == Le(c.len, 2);
  }

  /** Of the 256 flag bytes the parser admits five. */
  lemma AdmittedFlags(flags: byte)
    ensures ValidChunkFlags(flags) <==> flags in {1, 2, 4, 5, 8}
  {
    AndNotMask(flags, 4);
    AndPow2(flags, 3);
    assert Pow2(3) == 8 && Pow2(4) == 16 && Or(FIRST, LAST) == 5;
  }

  /** The number of the frame at index `i`: a u32 that wraps around. */
  function Numbered(i: nat): (sequence: nat)
    ensures sequence < U32
  {
    i % 0x1_0000_0000
  }

  lemma NextNumber(i: nat)
    ensures Numbered(i + 1) == (Numbered(i) + 1) % 0x1_0000_0000
  {
  }

  /** What a writer hands over: a payload and whether it ends the stream. */
  datatype Frame = Frame(payload: seq<byte>, last: bool)

  function FlagsFor(sequence: nat, last: bool): byte {
    if sequence == 0 && last then FIRST_AND_LAST
    else if sequence == 0 then FIRST
    else if last then LAST
    else CONTINUE
  }

  /** The flags of a chunk: FIRST for number 0, LAST if it ends the stream, CONTINUE if neither, and never ERROR. */
  predicate FlagsTell(flags: byte, sequence: nat, last: bool) {
    && (And(flags, FIRST) != 0 <==> sequence == 0)
    && (And(flags, LAST) != 0 <==> last)
    && (And(flags, CONTINUE) != 0 <==> sequence != 0 && !last)
    && And(flags, ERROR) == 0
  }

  lemma FlagsForTell(sequence: nat, last: bool)
    ensures FlagsTell(FlagsFor(sequence, last), sequence, last)
  {
    assert And(1, 1) == 1 && And(1, 2) == 0 && And(1, 4) == 0 && And(1, 8) == 0;
    assert And(2, 1) == 0 && And(2, 2) == 2 && And(2, 4) == 0 && And(2, 8) == 0;
    assert And(4, 1) == 0 && And(4, 2) == 0 && And(4, 4) == 4 && And(4, 8) == 0;
    assert And(5, 1) == 1 && And(5, 2) == 0 && And(5, 4) == 4 && And(5, 8) == 0;
  }

  lemma FlagsAreAdmitted(sequence: nat, last: bool)
    ensures ValidChunkFlags(FlagsFor(sequence, last))
    ensures FIRST_AND_LAST == Or(FIRST, LAST)
  {
    AdmittedFlags(FlagsFor(sequence, last));
  }

  function ChunkOf(f: Frame, sequence: nat): Chunk {
    Chunk(sequence, FlagsFor(sequence, f.last), |f.payload|)
  }

  function Encode(f: Frame, sequence: nat): (bs: seq<byte>)
    ensures |bs| == HEADER_SIZE + |f.payload|
  {
    AsBytes(ChunkOf(f, sequence)) + f.payload
  }

  /** The encoding of the frames from index `from` on. */
  function EncodeFrom(frames: seq<Frame>, from: nat): (bs: seq<byte>)
    requires from <= |frames|
    ensures from < |frames| ==> |bs| >= HEADER_SIZE + |frames[from].payload|
    decreases |frames| - from
  {
    if from == |frames| then [] else Encode(frames[from], Numbered(from)) + EncodeFrom(frames, from + 1)
  }

  lemma {:induction false} EncodeAppends(frames: seq<Frame>, f: Frame, from: nat)
    requires from <= |frames|
    ensures EncodeFrom(frames + [f], from) == EncodeFrom(frames, from) + Encode(f, Numbered(|frames|))
    decreases |frames| - from
  {
    hide Encode, EncodeFrom, Numbered;
    EncodeFromCons(frames + [f], from);
    if from < |frames| {
      EncodeFromCons(frames, from);
      EncodeAppends(frames, f, from + 1);
      assert (frames + [f])[from] == frames[from];
      ConcatAssoc(Encode(frames[from], Numbered(from)), EncodeFrom(frames, from + 1), Encode(f, Numbered(|frames|)));
    } else {
      assert (frames + [f])[from] == f;
      NothingEncodes(frames);
      NothingEncodes(frames + [f]);
    }
  }

  lemma EncodeFromCons(frames: seq<Frame>, from: nat)
    requires from < |frames|
    ensures EncodeFrom(frames, from) == Encode(frames[from], Numbered(from)) + EncodeFrom(frames, from + 1)
  {
    hide Encode, Numbered;
  }

  lemma {:induction false} NothingEncodes(frames: seq<Frame>)
    ensures EncodeFrom(frames, |frames|) == []
  {
  }

  function Payloads(frames: seq<Frame>): seq<byte> {
    if frames == [] then [] else Payloads(frames[..|frames| - 1]) + frames[|frames| - 1].payload
  }

  lemma {:induction false} PayloadsSnoc(frames: seq<Frame>, f: Frame)
    ensures Payloads(frames + [f]) == Payloads(frames) + f.payload
  {
    assert (frames + [f])[..|frames|] == frames;
  }

  datatype Read = Nothing | Chunked(chunk: Chunk, payload: seq<byte>)

  /** What `read_chunk` answers for any unread bytes, well-formed or not. */
  function ReadOutcome(unread: seq<byte>, expected: nat): (r: Result<Read, DcpError>)
    ensures r.Ok? && r.value.Chunked? ==> |unread| >= HEADER_SIZE + |r.value.payload|
  {
    if |unread| < HEADER_SIZE then Ok(Nothing)
    else match FromBytes(unread[..HEADER_SIZE])
      case Err(e) => Err(e)
      case Ok(chunk) =>
        if |unread| < HEADER_SIZE + chunk.len then Ok(Nothing)
        else if chunk.sequence != expected then Err(ChecksumMismatch)
        else Ok(Chunked(chunk, unread[HEADER_SIZE..HEADER_SIZE + chunk.len]))
  }

  /** What any bytes decide: a header with other flags is refused at once, a chunk that is not whole is waited for, and
      a whole one is taken exactly if its number is the expected one. */
  lemma ReadIsDecided(unread: seq<byte>, expected: nat)
    ensures |unread| < 7 ==> ReadOutcome(unread, expected) == Ok(Nothing)
    ensures |unread| >= 7 ==>
      var r, number, len := ReadOutcome(unread, expected), FromLe(unread[..4]), FromLe(unread[5..7]);
      var admitted, whole := unread[4] in {1, 2, 4, 5, 8}, |unread| - 7 >= len;
      && (r == Err(ValidationFailed) <==> !admitted)
      && (r == Ok(Nothing) <==> admitted && !whole)
      && (r == Err(ChecksumMismatch) <==> admitted && whole && number != expected)
      && (r.Ok? && r.value.Chunked? <==> admitted && whole && number == expected)
      && (r.Ok? && r.value.Chunked? ==>
            r.value.chunk == Chunk(number, unread[4], len) && r.value.payload == unread[7..7 + len])
  {
    if |unread| >= 7 { AdmittedFlags(unread[4]); }
    hide FromLe, ValidChunkFlags;
    if |unread| >= 7 { assert unread[..7][..4] == unread[..4] && unread[..7][5..7] == unread[5..7]; }
  }

  /** The bytes left unread by an answer `r` to a read of `unread`. */
  function RestAfter(unread: seq<byte>, r: Result<Read, DcpError>): seq<byte>
    requires r.Ok? && r.value.Chunked? ==> |unread| >= HEADER_SIZE + |r.value.payload|
  {
    if r.Ok? && r.value.Chunked? then unread[HEADER_SIZE + |r.value.payload|..] else unread
  }

  /** On the encoding of the unread frames, the next frame comes back whole and the rest stays. */
  lemma ReadsNextFrame(frames: seq<Frame>, from: nat)
    requires from < |frames| && |frames[from].payload| < U16
    ensures var bs, n := EncodeFrom(frames, from), Numbered(from);
      && ReadOutcome(bs, n) == Ok(Chunked(ChunkOf(frames[from], n), frames[from].payload))
      && bs[HEADER_SIZE + |frames[from].payload|..] == EncodeFrom(frames, from + 1)
  {
    var f, bs, n := frames[from], EncodeFrom(frames, from), Numbered(from);
    FlagsAreAdmitted(n, f.last);
    HeaderRoundTrip(ChunkOf(f, n));
    assert bs[..HEADER_SIZE] == AsBytes(ChunkOf(f, n));
    assert bs[HEADER_SIZE..HEADER_SIZE + |f.payload|] == f.payload;
  }
}

/** The stream as its users see it: frames accepted, frames read. */
module StreamModel {
  import opened Bits
  import opened Errors
  import opened Chunks

  datatype Model = Model(sent: seq<Frame>, received: nat, capacity: nat)

  ghost predicate Valid(m: Model) {
    && m.received <= |m.sent|
    && (forall i :: 0 <= i < |m.sent| ==> |m.sent[i].payload| < U16)
    && (forall i :: 0 <= i < |m.sent| - 1 ==> !m.sent[i].last)
    && |EncodeFrom(m.sent, m.received)| <= m.capacity
  }

  function Complete(m: Model): bool {
    m.sent != [] && m.sent[|m.sent| - 1].last
  }

  function Unread(m: Model): seq<byte>
    requires m.received <= |m.sent|
  {
    EncodeFrom(m.sent, m.received)
  }

  function WriteOutcome(m: Model, data: seq<byte>, last: bool): Result<Chunk, DcpError>
    requires m.received <= |m.sent|
  {
    if Complete(m) then Err(ValidationFailed)
    else if |data| >= U16 then Err(OutOfBounds)
    else if m.capacity - |Unread(m)| < HEADER_SIZE + |data| then Err(Backpressure)
    else Ok(ChunkOf(Frame(data, last), Numbered(|m.sent|)))
  }

  function AfterWrite(m: Model, data: seq<byte>, last: bool): Model
    requires m.received <= |m.sent|
  {
    if WriteOutcome(m, data, last).Ok? then m.(sent := m.sent + [Frame(data, last)]) else m
  }

  function ReadAnswer(m: Model): Read
    requires m.received <= |m.sent|
  {
    if m.received == |m.sent| then Nothing
    else Chunked(ChunkOf(m.sent[m.received], Numbered(m.received)), m.sent[m.received].payload)
  }

  function AfterRead(m: Model): Model
    requires m.received <= |m.sent|
  {
    if m.received == |m.sent| then m else m.(received := m.received + 1)
  }

  lemma WriteKeepsValid(m: Model, data: seq<byte>, last: bool)
    requires Valid(m)
    ensures Valid(AfterWrite(m, data, last))
    ensures WriteOutcome(m, data, last).Ok? ==>
      Unread(AfterWrite(m, data, last)) == Unread(m) + Encode(Frame(data, last), Numbered(|m.sent|))
  {
    EncodeAppends(m.sent, Frame(data, last), m.received);
  }

  lemma ReadKeepsValid(m: Model)
    requires Valid(m)
    ensures Valid(AfterRead(m))
    ensures ReadOutcome(Unread(m), Numbered(m.received)) == Ok(ReadAnswer(m))
    ensures ReadAnswer(m).Chunked? ==>
      Unread(m)[HEADER_SIZE + |ReadAnswer(m).payload|..] == Unread(AfterRead(m))
  {
    if m.received < |m.sent| { ReadsNextFrame(m.sent, m.received); }
  }

  /** The fields of a stream object stand for the model `m`. */
  ghost predicate Represents(unread: seq<byte>, sendSeq: nat, complete: bool, hashed: seq<byte>, m: Model) {
    && Valid(m)
    && sendSeq == Numbered(|m.sent|)
    && unread == Unread(m)
    && complete == Complete(m)
    && hashed == Payloads(m.sent)
  }

  lemma RepresentsAfterWrite(unread: seq<byte>, sendSeq: nat, hashed: seq<byte>, m: Model, f: Frame)
    requires Represents(unread, sendSeq, false, hashed, m)
    requires |f.payload| < U16 && HEADER_SIZE + |f.payload| <= m.capacity - |unread|
    ensures Represents(unread + Encode(f, sendSeq), (sendSeq + 1) % 0x1_0000_0000, f.last, hashed + f.payload,
                       m.(sent := m.sent + [f]))
  {
    hide EncodeFrom, Encode, Numbered, Payloads;
    WriteKeepsValid(m, f.payload, f.last);
    NextNumber(|m.sent|);
    PayloadsSnoc(m.sent, f);
  }

  lemma RepresentsAfterRead(unread: seq<byte>, sendSeq: nat, complete: bool, hashed: seq<byte>, m: Model)
    requires Represents(unread, sendSeq, complete, hashed, m)
    ensures ReadOutcome(unread, Numbered(m.received)) == Ok(ReadAnswer(m))
    ensures Represents(RestAfter(unread, Ok(ReadAnswer(m))), sendSeq, complete, hashed, AfterRead(m))
  {
    ReadKeepsValid(m);
  }

  datatype Op = Write(data: seq<byte>, last: bool) | ReadOp

  /** A run of calls, with the frames accepted and the chunks returned on the way. */
  datatype Trace = Trace(state: Model, accepted: seq<Frame>, returned: seq<Read>, failedReads: nat)

  function Step(t: Trace, op: Op): Trace
    requires t.state.received <= |t.state.sent|
  {
    match op
    case Write(data, last) =>
      t.(state := AfterWrite(t.state, data, last),
         accepted := if WriteOutcome(t.state, data, last).Ok? then t.accepted + [Frame(data, last)] else t.accepted)
    case ReadOp =>
      match ReadOutcome(Unread(t.state), Numbered(t.state.received))
      case Err(_) => t.(failedReads := t.failedReads + 1)
      case Ok(Nothing) => t
      case Ok(answer) => t.(state := AfterRead(t.state), returned := t.returned + [answer])
  }

  ghost predicate Inv(t: Trace) {
    && Valid(t.state)
    && t.accepted == t.state.sent && t.failedReads == 0
    && |t.returned| == t.state.received
    && forall i :: 0 <= i < |t.returned| ==>
         t.returned[i] == Chunked(ChunkOf(t.accepted[i], Numbered(i)), t.accepted[i].payload)
  }

  lemma StepKeepsInv(t: Trace, op: Op)
    requires Inv(t)
    ensures Inv(Step(t, op)) && |Step(t, op).accepted| <= |t.accepted| + 1
    ensures Complete(t.state) ==> Step(t, op).accepted == t.accepted && Complete(Step(t, op).state)
  {
    hide EncodeFrom, Encode, Numbered, ReadOutcome;
    match op
    case Write(data, last) => WriteKeepsValid(t.state, data, last);
    case ReadOp => ReadKeepsValid(t.state);
  }

  ghost function Run(t: Trace, ops: seq<Op>): Trace
    requires Inv(t)
    decreases |ops|
  {
    if ops == [] then t else
      StepKeepsInv(t, ops[0]);
      Run(Step(t, ops[0]), ops[1..])
  }

  lemma {:induction false} RunKeepsInv(t: Trace, ops: seq<Op>)
    requires Inv(t)
    ensures Inv(Run(t, ops))
    decreases |ops|
  {
    hide Step;
    if ops != [] {
      StepKeepsInv(t, ops[0]);
      RunKeepsInv(Step(t, ops[0]), ops[1..]);
    }
  }

  function Fresh(capacity: nat): (t: Trace)
    ensures Inv(t)
  {
    Trace(Model([], 0, capacity), [], [], 0)
  }

  /** Over every run: no read fails, the chunks returned carry exactly the accepted payloads in order, numbered
      0, 1, 2, ... modulo 2^32, with flags that tell the first and the last of them, and an accepted last frame is the
      last one accepted. */
  lemma {:induction false} StreamIsExact(capacity: nat, ops: seq<Op>)
    ensures var t := Run(Fresh(capacity), ops);
      && t.failedReads == 0
      && |t.returned| <= |t.accepted|
      && (forall i :: 0 <= i < |t.returned| ==>
            && t.returned[i].Chunked?
            && t.returned[i].payload == t.accepted[i].payload
            && t.returned[i].chunk.sequence == Numbered(i)
            && t.returned[i].chunk.len == |t.accepted[i].payload|
            && FlagsTell(t.returned[i].chunk.flags, Numbered(i), t.accepted[i].last))
      && (forall i :: 0 <= i < |t.accepted| - 1 ==> !t.accepted[i].last)
  {
    RunKeepsInv(Fresh(capacity), ops);
    var t := Run(Fresh(capacity), ops);
    forall i | 0 <= i < |t.returned| ensures FlagsTell(t.returned[i].chunk.flags, Numbered(i), t.accepted[i].last) {
      FlagsForTell(Numbered(i), t.accepted[i].last);
    }
  }

  /** The bytes that the frames from index `from` on take up in the ring. */
  function Occupied(frames: seq<Frame>, from: nat): nat
    requires from <= |frames|
    decreases |frames| - from
  {
    if from == |frames| then 0 else HEADER_SIZE + |frames[from].payload| + Occupied(frames, from + 1)
  }

  lemma {:induction false} EncodedLength(frames: seq<Frame>, from: nat)
    requires from <= |frames|
    ensures |EncodeFrom(frames, from)| == Occupied(frames, from)
    decreases |frames| - from
  {
    if from < |frames| { EncodedLength(frames, from + 1); }
  }

  /** What a write answers, in every state a run can reach: it is accepted exactly when no last frame was, its length
      fits 16 bits and header and payload fit beside the frames not yet returned; the chunk answered then has the
      number of the frame, its length, and flags that tell its place. */
  lemma WriteIsAnswered(t: Trace, data: seq<byte>, last: bool)
    requires Inv(t)
    ensures var r := WriteOutcome(t.state, data, last);
      var ended := exists i :: 0 <= i < |t.accepted| && t.accepted[i].last;
      var fits := Occupied(t.accepted, |t.returned|) + HEADER_SIZE + |data| <= t.state.capacity;
      && (r.Ok? <==> !ended && |data| < 0x1_0000 && fits)
      && (r == Err(ValidationFailed) <==> ended)
      && (r == Err(OutOfBounds) <==> !ended && |data| >= 0x1_0000)
      && (r.Ok? ==> r.value.sequence == Numbered(|t.accepted|) && r.value.len == |data|
                    && FlagsTell(r.value.flags, r.value.sequence, last))
  {
    var m := t.state;
    EncodedLength(m.sent, m.received);
    FlagsForTell(Numbered(|m.sent|), last);
    hide FlagsFor, EncodeFrom, Occupied, FlagsTell;
    if m.sent != [] { assert t.accepted[|m.sent| - 1] == m.sent[|m.sent| - 1]; }
  }

  /** Nothing is accepted after the last frame, whatever follows. */
  lemma {:induction false} CompleteIsFinal(t: Trace, ops: seq<Op>)
    requires Inv(t) && Complete(t.state)
    ensures Run(t, ops).accepted == t.accepted
    decreases |ops|
  {
    hide Step, Complete;
    if ops != [] {
      StepKeepsInv(t, ops[0]);
      CompleteIsFinal(Step(t, ops[0]), ops[1..]);
    }
  }

  /** While accepted payloads are unread, a read returns one. */
  lemma ReadReturnsOne(t: Trace)
    requires Inv(t) && |t.returned| < |t.accepted|
    ensures var t' := Step(t, ReadOp); t'.accepted == t.accepted && |t'.returned| == |t.returned| + 1
  {
    ReadKeepsValid(t.state);
  }

  /** Reading to the end after any run returns every accepted payload. */
  lemma {:induction false} DrainReturnsAll(t: Trace, left: nat)
    requires Inv(t) && left == |t.accepted| - |t.returned|
    ensures var r := Run(t, seq(left, _ => ReadOp));
      r.accepted == t.accepted && |r.returned| == |t.accepted|
    decreases left
  {
    hide Step;
    var ops := seq(left, _ => ReadOp);
    if left > 0 {
      StepKeepsInv(t, ReadOp);
      ReadReturnsOne(t);
      assert ops[1..] == seq(left - 1, _ => ReadOp);
      DrainReturnsAll(Step(t, ReadOp), left - 1);
    }
  }
}

module DcpStreams {
  import opened Bits
  import opened Errors
  import opened Chunks
  import opened RingBuffer
  import M = StreamModel

  class DcpStream {
    const buffer: StreamRingBuffer
    const streamId: nat
    var nextSeq: nat
    var sendSeq: nat
    var complete: bool
    /** The input absorbed by the running checksum. */
    var hashed: seq<byte>
    /** Every frame accepted since the last reset, and how many of them have been read. */
    ghost var sent: seq<Frame>
    ghost var received: nat

    ghost function View(): M.Model
      reads this
    {
      M.Model(sent, received, buffer.capacity)
    }

    /** The ring holds whole encoded chunks: those accepted and not yet read. */
    ghost predicate Valid()
      reads this, buffer, buffer.buffer
    {
      && buffer.Valid() && M.Represents(buffer.contents, sendSeq, complete, hashed, View())
      && nextSeq == Numbered(received)
    }

    constructor (streamId: nat, requested: nat)
      ensures Valid() <==> requested <= 0x8000_0000
      ensures sent == [] && received == nextSeq == 0
      ensures fresh(buffer) && fresh(buffer.buffer) && buffer.capacity >= requested
      ensures this.streamId == streamId
    {
      buffer := new StreamRingBuffer(requested);
      this.streamId := streamId;
      nextSeq, sendSeq, complete, hashed, sent, received := 0, 0, false, [], [], 0;
    }

    method WriteChunk(data: seq<byte>, isLast: bool) returns (r: Result<Chunk, DcpError>)
      requires Valid()
      requires buffer.writePos + HEADER_SIZE + |data| < U64
      modifies this`sendSeq, this`complete, this`hashed, this`sent
      modifies buffer`writePos, buffer`available, buffer`contents, buffer.buffer
      ensures Valid()
      ensures r == M.WriteOutcome(old(View()), data, isLast)
      ensures View() == M.AfterWrite(old(View()), data, isLast)
      ensures r.Err? ==> buffer.contents == old(buffer.contents) && hashed == old(hashed)
    {
      if complete { return Err(ValidationFailed); }
      if |data| > 0xFFFF { return Err(OutOfBounds); }
      var totalLen := HEADER_SIZE + |data|;
      var space := buffer.AvailableSpace();
      if space < totalLen { return Err(Backpressure); }

      var chunk := Append(data, isLast);
      return Ok(chunk);
    }

    method Append(data: seq<byte>, isLast: bool) returns (chunk: Chunk)
      requires Valid() && !complete
      requires |data| < U16 && HEADER_SIZE + |data| <= buffer.capacity - |buffer.contents|
      requires buffer.writePos + HEADER_SIZE + |data| < U64
      modifies this`sendSeq, this`complete, this`hashed, this`sent
      modifies buffer`writePos, buffer`available, buffer`contents, buffer.buffer
      ensures Valid() && sent == old(sent) + [Frame(data, isLast)]
      ensures chunk == ChunkOf(Frame(data, isLast), old(sendSeq))
    {
      hide EncodeFrom, Encode, Payloads;
      var sequence := sendSeq;
      sendSeq := (sendSeq + 1) % 0x1_0000_0000;
      chunk := Chunk(sequence, FlagsFor(sequence, isLast), |data| % 0x1_0000);
      ghost var f := Frame(data, isLast);
      M.RepresentsAfterWrite(buffer.contents, sequence, hashed, View(), f);
      PushChunk(chunk, data, isLast);
      hashed := hashed + data;
      sent := sent + [f];
      complete := complete || isLast;
    }

    /** Both pushes succeed: nothing else runs between the space test and them. */
    method PushChunk(chunk: Chunk, data: seq<byte>, ghost last: bool)
      requires buffer.Valid() && chunk == ChunkOf(Frame(data, last), chunk.sequence)
      requires HEADER_SIZE + |data| <= buffer.capacity - |buffer.contents|
      requires buffer.writePos + HEADER_SIZE + |data| < U64
      modifies buffer`writePos, buffer`available, buffer`contents, buffer.buffer
      ensures buffer.Valid()
      ensures buffer.contents == old(buffer.contents) + Encode(Frame(data, last), chunk.sequence)
    {
      ghost var was, header := buffer.contents, AsBytes(chunk);
      assert Encode(Frame(data, last), chunk.sequence) == header + data;
      PushBytes(AsBytes(chunk));
      if |data| != 0 { PushBytes(data); }
      assert was + header + data == was + (header + data);
    }

    method PushBytes(bytes: seq<byte>)
      requires buffer.Valid()
      requires |bytes| <= buffer.capacity - |buffer.contents| && buffer.writePos + |bytes| < U64
      modifies buffer`writePos, buffer`available, buffer`contents, buffer.buffer
      ensures buffer.Valid()
      ensures buffer.contents == old(buffer.contents) + bytes && buffer.writePos == old(buffer.writePos) + |bytes|
    {
      var pushed := buffer.Push(bytes);
      assert pushed.Ok?;
    }

    method PeekBytes(n: nat) returns (got: seq<byte>)
      requires buffer.Valid()
      ensures got == buffer.contents[..Min(n, |buffer.contents|)]
    {
      var out := new byte[n](_ => 0);
      var peeked := buffer.Peek(out);
      return out[..peeked];
    }

    method PopBytes(n: nat) returns (got: seq<byte>)
      requires buffer.Valid() && n <= |buffer.contents|
      modifies buffer`readPos, buffer`available, buffer`contents
      ensures buffer.Valid()
      ensures got == old(buffer.contents)[..n] && buffer.contents == old(buffer.contents)[n..]
    {
      var out := new byte[n](_ => 0);
      var popped := buffer.Pop(out);
      return out[..popped];
    }

    /** Answers for any unread bytes: the ring is also reachable from outside, so they may be malformed.
        On a valid stream it never errs and hands over the next accepted frame. */
    method ReadChunk() returns (r: Result<Read, DcpError>)
      requires buffer.Valid()
      modifies this`nextSeq, this`received, buffer`readPos, buffer`available, buffer`contents
      ensures buffer.Valid()
      ensures r == ReadOutcome(old(buffer.contents), old(nextSeq))
      ensures buffer.contents == RestAfter(old(buffer.contents), r)
      ensures nextSeq == if r.Ok? && r.value.Chunked? then (old(nextSeq) + 1) % 0x1_0000_0000 else old(nextSeq)
      ensures old(Valid()) ==> Valid() && r == Ok(M.ReadAnswer(old(View()))) && View() == M.AfterRead(old(View()))
    {
      hide EncodeFrom, Encode, Payloads, ReadOutcome, Numbered;
      NextNumber(received);
      if Valid() { M.RepresentsAfterRead(buffer.contents, sendSeq, complete, hashed, View()); }
      r := ReadUnread();
      if r.Ok? && r.value.Chunked? { received := received + 1; }
    }

    method ReadUnread() returns (r: Result<Read, DcpError>)
      requires buffer.Valid()
      modifies this`nextSeq, buffer`readPos, buffer`available, buffer`contents
      ensures buffer.Valid()
      ensures r == ReadOutcome(old(buffer.contents), old(nextSeq))
      ensures buffer.contents == RestAfter(old(buffer.contents), r)
      ensures nextSeq == if r.Ok? && r.value.Chunked? then (old(nextSeq) + 1) % 0x1_0000_0000 else old(nextSeq)
    {
      var headerBuf := PeekBytes(HEADER_SIZE);
      if |headerBuf| < HEADER_SIZE { return Ok(Nothing); }
      var header := FromBytes(headerBuf);
      if header.Err? { return Err(header.error); }
      var chunk := header.value;
      var totalLen := HEADER_SIZE + chunk.len;
      var n := buffer.Len();
      if n < totalLen { return Ok(Nothing); }
      var expected := nextSeq;
      if chunk.sequence != expected { return Err(ChecksumMismatch); }
      ghost var unread := buffer.contents;
      var fullBuf := PopBytes(totalLen);
      var payload := fullBuf[HEADER_SIZE..];
      assert payload == unread[HEADER_SIZE..totalLen];
      nextSeq := (expected + 1) % 0x1_0000_0000;
      return Ok(Chunked(chunk, payload));
    }

    method Reset()
      requires buffer.Valid()
      modifies this`nextSeq, this`sendSeq, this`complete, this`hashed, this`sent, this`received
      modifies buffer`readPos, buffer`available, buffer`contents
      ensures Valid() && sent == [] && received == nextSeq == 0 && !complete && hashed == []
      ensures buffer.contents == []
    {
      buffer.Clear();
      nextSeq, sendSeq, complete, hashed, sent, received := 0, 0, false, [], [], 0;
    }
  }
}
