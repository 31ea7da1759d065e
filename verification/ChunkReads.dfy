/** A chunk read as the ring sees it (src/stream/dcp_stream.rs:127-166): a look at the header, a comparison with the
    length and a pop, interleaved with every step of the producer. */
module ChunkReads {
  import opened Bits
  import opened Errors
  import opened RingLayout
  import opened RingSteps
  import opened Chunks
  import opened ChunkWrites

  // ---- where the chunks lie among the bytes pushed ----

  function Pos(frames: seq<Frame>, k: nat): nat
    requires k <= |frames|
  {
    if k == 0 then 0 else Pos(frames, k - 1) + HEADER_SIZE + |frames[k - 1].payload|
  }

  function Bytes(frames: seq<Frame>): seq<byte> {
    EncodeFrom(frames, 0)
  }

  lemma {:induction false} SuffixAtPos(frames: seq<Frame>, k: nat)
    requires k <= |frames|
    ensures Pos(frames, k) <= |Bytes(frames)| && Bytes(frames)[Pos(frames, k)..] == EncodeFrom(frames, k)
    decreases k
  {
    hide EncodeFrom, Encode;
    var bs := Bytes(frames);
    if k > 0 {
      SuffixAtPos(frames, k - 1);
      EncodeFromCons(frames, k - 1);
      BehindFront(bs, Pos(frames, k - 1), Encode(frames[k - 1], Numbered(k - 1)), EncodeFrom(frames, k));
    } else {
      assert bs[0..] == bs;
    }
  }

  lemma BehindFront(bs: seq<byte>, at: nat, front: seq<byte>, rest: seq<byte>)
    requires at <= |bs| && bs[at..] == front + rest
    ensures at + |front| <= |bs| && bs[at + |front|..] == rest && bs[at..at + |front|] == front
  {
    Splits(front, rest);
    assert bs[at..][|front|..] == bs[at + |front|..] && bs[at..][..|front|] == bs[at..at + |front|];
  }

  /** Header and payload of chunk `k`. */
  lemma ChunkAtPos(frames: seq<Frame>, k: nat)
    requires k < |frames|
    ensures var p, bs, f := Pos(frames, k), Bytes(frames), frames[k];
      && Pos(frames, k + 1) == p + HEADER_SIZE + |f.payload| <= |bs|
      && bs[p..Pos(frames, k + 1)] == Encode(f, Numbered(k))
      && bs[p..p + HEADER_SIZE] == AsBytes(ChunkOf(f, Numbered(k)))
  {
    hide EncodeFrom;
    var p, bs, f := Pos(frames, k), Bytes(frames), frames[k];
    SuffixAtPos(frames, k);
    EncodeFromCons(frames, k);
    BehindFront(bs, p, Encode(f, Numbered(k)), EncodeFrom(frames, k + 1));
    assert Encode(f, Numbered(k))[..HEADER_SIZE] == AsBytes(ChunkOf(f, Numbered(k)));
    SliceFront(bs, p, Pos(frames, k + 1), HEADER_SIZE);
  }

  lemma SliceFront(bs: seq<byte>, from: nat, to: nat, n: nat)
    requires from + n <= to <= |bs|
    ensures bs[from..from + n] == bs[from..to][..n]
  {
  }

  lemma {:induction false} PosGrows(frames: seq<Frame>, a: nat, b: nat)
    requires a < b <= |frames|
    ensures Pos(frames, a) + HEADER_SIZE + |frames[a].payload| <= Pos(frames, b)
    decreases b
  {
    if a < b - 1 { PosGrows(frames, a, b - 1); }
  }

  /** Behind whole chunks, or behind whole chunks and one header. */
  ghost predicate Boundary(frames: seq<Frame>, n: nat) {
    exists k: nat :: k <= |frames| && IsCut(frames, n, k)
  }

  predicate IsCut(frames: seq<Frame>, n: nat, k: nat)
    requires k <= |frames|
  {
    n == Pos(frames, k) || (k < |frames| && n == Pos(frames, k) + HEADER_SIZE)
  }

  lemma {:induction false} BoundaryPast(frames: seq<Frame>, from: nat, n: nat)
    requires from <= |frames| && Boundary(frames, n) && Pos(frames, from) < n
    ensures from < |frames| && Pos(frames, from) + HEADER_SIZE <= n
  {
    hide Pos;
    var k: nat :| k <= |frames| && IsCut(frames, n, k);
    if k < from { PosGrows(frames, k, from); }
    if from < k { PosGrows(frames, from, k); }
  }

  /** The bytes published are those of the frames, up to a boundary. */
  ghost predicate Sent(frames: seq<Frame>, s: State) {
    s.pushed <= Bytes(frames) && Boundary(frames, |s.pushed|)
  }

  // ---- one read, taken apart ----

  datatype Phase =
    | Peeking                                    // the header is being looked at
    | Checking(chunk: Chunk)                     // header parsed, length not yet compared
    | Popping(chunk: Chunk)                      // the whole chunk is being popped
    | Returning(chunk: Chunk, bytes: seq<byte>)  // read position stored, credit not yet returned
    | Finished(answer: Result<Read, DcpError>)

  datatype Reading = Reading(ring: State, phase: Phase)

  /** `Check` compares the length and the sequence number; only the consumer moves the read position, so the load of
      the write position decides. */
  datatype Move = Ring(step: Step) | Check

  predicate CanMove(r: Reading, m: Move) {
    match m
    case Check => r.phase.Checking? && r.ring.consumer.CIdle?
    case Ring(step) => Enabled(r.ring, step) && (step.CLoadWrite? ==> Wants(r.phase, step.want, step.peek))
  }

  /** The two accesses to the ring that a read makes. */
  predicate Wants(phase: Phase, want: nat, peek: bool) {
    || (phase.Peeking? && want == HEADER_SIZE && peek)
    || (phase.Popping? && want == HEADER_SIZE + phase.chunk.len && !peek)
  }

  /** A buffer of `n` zeros into which `bytes` have been copied. */
  function Filled(bytes: seq<byte>, n: nat): (r: seq<byte>)
    ensures |r| == n
  {
    if |bytes| >= n then bytes[..n] else bytes + seq(n - |bytes|, _ => 0)
  }

  function Handed(chunk: Chunk, bytes: seq<byte>): Phase {
    Finished(Ok(Chunked(chunk, Filled(bytes, HEADER_SIZE + chunk.len)[HEADER_SIZE..])))
  }

  function Parsed(got: seq<byte>): Phase {
    if |got| < HEADER_SIZE then Finished(Ok(Nothing))
    else match FromBytes(got)
      case Err(e) => Finished(Err(e))
      case Ok(chunk) => Checking(chunk)
  }

  function Compared(r: Reading, expected: nat): Phase
    requires r.phase.Checking?
  {
    var chunk := r.phase.chunk;
    if r.ring.write - r.ring.read < HEADER_SIZE + chunk.len then Finished(Ok(Nothing))
    else if chunk.sequence != expected then Finished(Err(ChecksumMismatch))
    else Popping(chunk)
  }

  function PhaseAfter(r: Reading, step: Step): Phase
    requires Enabled(r.ring, step)
  {
    match step
    case CLoadRead =>
      if !Do(r.ring, step).consumer.CIdle? then r.phase
      else if r.phase.Popping? then Handed(r.phase.chunk, [])
      else Finished(Ok(Nothing))
    case CPeekDone => Parsed(Received(r.ring.consumer))
    case CAdvance => if r.phase.Popping? then Returning(r.phase.chunk, Received(r.ring.consumer)) else r.phase
    case CRelease => if r.phase.Returning? then Handed(r.phase.chunk, r.phase.bytes) else r.phase
    case _ => r.phase
  }

  function Next(r: Reading, m: Move, expected: nat): Reading
    requires CanMove(r, m)
  {
    match m
    case Check => r.(phase := Compared(r, expected))
    case Ring(step) => Reading(Do(r.ring, step), PhaseAfter(r, step))
  }

  predicate ValidReading(r: Reading, moves: seq<Move>, expected: nat)
    decreases |moves|
  {
    moves == [] || (CanMove(r, moves[0]) && ValidReading(Next(r, moves[0], expected), moves[1..], expected))
  }

  function After(r: Reading, moves: seq<Move>, expected: nat): Reading
    requires ValidReading(r, moves, expected)
    decreases |moves|
  {
    if moves == [] then r else After(Next(r, moves[0], expected), moves[1..], expected)
  }

  /** The producer publishes the frames part by part. */
  ghost predicate SentThroughout(frames: seq<Frame>, r: Reading, moves: seq<Move>, expected: nat)
    requires ValidReading(r, moves, expected)
    decreases |moves|
  {
    Sent(frames, r.ring)
    && (moves == [] || SentThroughout(frames, Next(r, moves[0], expected), moves[1..], expected))
  }

  // ---- what every move keeps ----

  predicate IsChunk(frames: seq<Frame>, from: nat, chunk: Chunk) {
    from < |frames| && |frames[from].payload| < U16 && chunk == ChunkOf(frames[from], Numbered(from))
  }

  /** The answer a read may give: the next chunk, whole, or nothing if it was not there from the start. */
  predicate Answered(frames: seq<Frame>, from: nat, ready: bool, read: nat, answer: Result<Read, DcpError>) {
    || (!ready && answer == Ok(Nothing) && from <= |frames| && read == Pos(frames, from))
    || (from < |frames| && read == Pos(frames, from + 1)
        && answer == Ok(Chunked(ChunkOf(frames[from], Numbered(from)), frames[from].payload)))
  }

  ghost predicate PeekOk(frames: seq<Frame>, from: nat, ready: bool, c: Consumer)
    requires from <= |frames|
  {
    match c
    case CIdle => true
    case CSawWrite(want, seen, peek) =>
      want == HEADER_SIZE && peek && Boundary(frames, seen) && (ready ==> Pos(frames, from) < seen)
    case CSized(n, peek) => n == HEADER_SIZE && peek && from < |frames|
    case CCopying(_, n, _, peek) => n == HEADER_SIZE && peek && from < |frames|
    case CAdvanced(_) => false
  }

  predicate PopOk(frames: seq<Frame>, from: nat, c: Consumer)
    requires from < |frames|
  {
    var total := HEADER_SIZE + |frames[from].payload|;
    match c
    case CIdle => true
    case CSawWrite(want, seen, peek) => want == total && !peek && Pos(frames, from + 1) <= seen
    case CSized(n, peek) => n == total && !peek
    case CCopying(_, n, _, peek) => n == total && !peek
    case CAdvanced(_) => false
  }

  ghost predicate PhaseOk(frames: seq<Frame>, from: nat, ready: bool, ring: State, phase: Phase)
    requires from <= |frames|
  {
    match phase
    case Peeking => ring.read == Pos(frames, from) && PeekOk(frames, from, ready, ring.consumer)
    case Checking(chunk) =>
      ring.read == Pos(frames, from) && IsChunk(frames, from, chunk) && ring.consumer.CIdle?
    case Popping(chunk) =>
      && ring.read == Pos(frames, from) && IsChunk(frames, from, chunk)
      && Pos(frames, from + 1) <= ring.write && PopOk(frames, from, ring.consumer)
    case Returning(chunk, bytes) =>
      && IsChunk(frames, from, chunk) && ring.read == Pos(frames, from + 1) && ring.consumer.CAdvanced?
      && bytes == Encode(frames[from], Numbered(from))
    case Finished(answer) => ring.consumer.CIdle? && Answered(frames, from, ready, ring.read, answer)
  }

  ghost predicate ReadOk(frames: seq<Frame>, from: nat, ready: bool, r: Reading) {
    && Inv(r.ring) && Sent(frames, r.ring) && from <= |frames|
    && (forall f :: f in frames ==> |f.payload| < U16)
    && (ready ==> from < |frames| && Pos(frames, from + 1) <= r.ring.write)
    && PhaseOk(frames, from, ready, r.ring, r.phase)
  }

  predicate IsProducer(step: Step) {
    || step.PLoad? || step.PExchange? || step.PExchangeFails? || step.PRefuse?
    || step.PLocate? || step.PCopy? || step.PPublish?
  }

  /** The producer leaves the consumer's side alone and publishes behind what is there. */
  lemma ProducerStep(s: State, step: Step)
    requires Inv(s) && Enabled(s, step) && IsProducer(step)
    ensures var t := Do(s, step); t.consumer == s.consumer && t.read == s.read && s.write <= t.write
  {
    hide SlotOf, InvUnread, InvConsumer;
  }

  lemma UnreadIs(frames: seq<Frame>, s: State, from: nat, n: nat)
    requires Inv(s) && Sent(frames, s) && s.read + n <= s.write
    ensures s.read + n <= |Bytes(frames)| && s.pushed[s.read..s.read + n] == Bytes(frames)[s.read..s.read + n]
  {
    hide InvUnread, InvProducer, InvConsumer, Bytes, Boundary;
  }

  lemma {:induction false} PeekedHeader(frames: seq<Frame>, from: nat, s: State)
    requires Inv(s) && Sent(frames, s) && from < |frames| && |frames[from].payload| < U16
    requires s.read == Pos(frames, from) && Enabled(s, CPeekDone) && s.consumer.n == HEADER_SIZE
    ensures Parsed(Received(s.consumer)) == Checking(ChunkOf(frames[from], Numbered(from)))
  {
    hide SlotOf, InvUnread, InvProducer, Bytes, Pos, Boundary, FromBytes, AsBytes, Encode;
    var chunk := ChunkOf(frames[from], Numbered(from));
    ReceivedIsUnread(s);
    UnreadIs(frames, s, from, HEADER_SIZE);
    ChunkAtPos(frames, from);
    FlagsAreAdmitted(Numbered(from), frames[from].last);
    HeaderRoundTrip(chunk);
  }

  lemma PoppedChunk(frames: seq<Frame>, from: nat, s: State)
    requires Inv(s) && Sent(frames, s) && from < |frames|
    requires s.read == Pos(frames, from) && Enabled(s, CAdvance) && s.consumer.n == HEADER_SIZE + |frames[from].payload|
    ensures Received(s.consumer) == Encode(frames[from], Numbered(from))
    ensures Do(s, CAdvance).read == Pos(frames, from + 1)
  {
    hide SlotOf, InvUnread, InvProducer, Bytes, Pos, Boundary, Encode;
    ReceivedIsUnread(s);
    UnreadIs(frames, s, from, s.consumer.n);
    ChunkAtPos(frames, from);
  }

  lemma HandedPayload(f: Frame, sequence: nat)
    ensures Handed(ChunkOf(f, sequence), Encode(f, sequence)) == Finished(Ok(Chunked(ChunkOf(f, sequence), f.payload)))
  {
    var bs := Encode(f, sequence);
    assert bs[..|bs|] == bs && bs[HEADER_SIZE..] == f.payload;
  }

  lemma CheckKeeps(frames: seq<Frame>, from: nat, ready: bool, r: Reading)
    requires ReadOk(frames, from, ready, r) && CanMove(r, Check)
    ensures ReadOk(frames, from, ready, Next(r, Check, Numbered(from)))
  {
    hide Inv, Sent, Encode;
    var chunk := r.phase.chunk;
    assert Pos(frames, from + 1) == Pos(frames, from) + HEADER_SIZE + chunk.len;
  }

  lemma ProducerKeeps(frames: seq<Frame>, from: nat, ready: bool, r: Reading, step: Step)
    requires ReadOk(frames, from, ready, r) && CanMove(r, Ring(step)) && IsProducer(step)
    requires Sent(frames, Do(r.ring, step))
    ensures ReadOk(frames, from, ready, Next(r, Ring(step), Numbered(from)))
  {
    StepKeepsInv(r.ring, step);
    ProducerStep(r.ring, step);
    hide Inv, Sent, Encode, Pos, Do, PeekOk, PopOk, IsChunk, Answered;
  }

  /** The steps inside a look or a pop, before its end. */
  lemma AccessKeeps(frames: seq<Frame>, from: nat, ready: bool, r: Reading, step: Step)
    requires ReadOk(frames, from, ready, r) && CanMove(r, Ring(step))
    requires step.CLoadWrite? || step.CLoadRead? || step.CLocate? || step.CCopy?
    ensures ReadOk(frames, from, ready, Next(r, Ring(step), Numbered(from)))
  {
    StepKeepsInv(r.ring, step);
    hide SlotOf, InvUnread, InvProducer, Bytes, Encode, Boundary, Answered;
    var s := r.ring;
    assert Do(s, step).pushed == s.pushed && Do(s, step).read == s.read && Do(s, step).write == s.write;
    match step
    case CLoadWrite(_, _) => WriteIsLoaded(frames, from, ready, r, step);
    case CLoadRead => ReadIsLoaded(frames, from, ready, r);
    case CLocate =>
    case CCopy(_) =>
  }

  lemma WriteIsLoaded(frames: seq<Frame>, from: nat, ready: bool, r: Reading, step: Step)
    requires ReadOk(frames, from, ready, r) && CanMove(r, Ring(step)) && step.CLoadWrite?
    ensures PhaseOk(frames, from, ready, Do(r.ring, step), PhaseAfter(r, step))
  {
    hide SlotOf, InvUnread, InvProducer, Bytes, Encode, Boundary;
    if ready { PosGrows(frames, from, from + 1); }
  }

  lemma ReadIsLoaded(frames: seq<Frame>, from: nat, ready: bool, r: Reading)
    requires ReadOk(frames, from, ready, r) && CanMove(r, Ring(CLoadRead))
    ensures PhaseOk(frames, from, ready, Do(r.ring, CLoadRead), PhaseAfter(r, CLoadRead))
  {
    hide SlotOf, InvUnread, InvProducer, Bytes, Encode, Boundary;
    var seen := r.ring.consumer.seen;
    if r.phase.Peeking? {
      if Pos(frames, from) < seen { BoundaryPast(frames, from, seen); }
    } else {
      assert Pos(frames, from + 1) == Pos(frames, from) + HEADER_SIZE + |frames[from].payload|;
    }
  }

  lemma PeekDoneKeeps(frames: seq<Frame>, from: nat, ready: bool, r: Reading)
    requires ReadOk(frames, from, ready, r) && CanMove(r, Ring(CPeekDone))
    ensures ReadOk(frames, from, ready, Next(r, Ring(CPeekDone), Numbered(from)))
  {
    StepKeepsInv(r.ring, CPeekDone);
    hide Inv, Bytes, Encode, Boundary, Parsed, Pos;
    assert frames[from] in frames;
    PeekedHeader(frames, from, r.ring);
  }

  lemma AdvanceKeeps(frames: seq<Frame>, from: nat, ready: bool, r: Reading)
    requires ReadOk(frames, from, ready, r) && CanMove(r, Ring(CAdvance))
    ensures ReadOk(frames, from, ready, Next(r, Ring(CAdvance), Numbered(from)))
  {
    StepKeepsInv(r.ring, CAdvance);
    hide Inv, Bytes, Encode, Boundary, Pos;
    PoppedChunk(frames, from, r.ring);
  }

  lemma ReleaseKeeps(frames: seq<Frame>, from: nat, ready: bool, r: Reading)
    requires ReadOk(frames, from, ready, r) && CanMove(r, Ring(CRelease))
    ensures ReadOk(frames, from, ready, Next(r, Ring(CRelease), Numbered(from)))
  {
    StepKeepsInv(r.ring, CRelease);
    hide Inv, Bytes, Encode, Boundary, Pos, Handed;
    HandedPayload(frames[from], Numbered(from));
  }

  lemma MoveKeeps(frames: seq<Frame>, from: nat, ready: bool, r: Reading, m: Move)
    requires ReadOk(frames, from, ready, r) && CanMove(r, m) && Sent(frames, Next(r, m, Numbered(from)).ring)
    ensures ReadOk(frames, from, ready, Next(r, m, Numbered(from)))
  {
    hide ReadOk;
    match m
    case Check => CheckKeeps(frames, from, ready, r);
    case Ring(step) =>
      match step {
        case CPeekDone => PeekDoneKeeps(frames, from, ready, r);
        case CAdvance => AdvanceKeeps(frames, from, ready, r);
        case CRelease => ReleaseKeeps(frames, from, ready, r);
        case _ =>
          if IsProducer(step) {
            ProducerKeeps(frames, from, ready, r, step);
          } else {
            AccessKeeps(frames, from, ready, r, step);
          }
      }
  }

  lemma {:induction false} MovesKeep(frames: seq<Frame>, from: nat, ready: bool, r: Reading, moves: seq<Move>)
    requires ReadOk(frames, from, ready, r) && ValidReading(r, moves, Numbered(from))
    requires SentThroughout(frames, r, moves, Numbered(from))
    ensures ReadOk(frames, from, ready, After(r, moves, Numbered(from)))
    decreases |moves|
  {
    hide ReadOk, Next, CanMove, Sent;
    if moves != [] {
      var next := Next(r, moves[0], Numbered(from));
      assert SentThroughout(frames, next, moves[1..], Numbered(from)) && Sent(frames, next.ring);
      MoveKeeps(frames, from, ready, r, moves[0]);
      MovesKeep(frames, from, ready, next, moves[1..]);
    }
  }

  /** A read that finds the reader between chunks returns the next chunk whole or nothing, in whatever way the producer
      interleaves, as long as it publishes chunks part by part; a chunk that was there from the start is returned. */
  lemma ReadIsWhole(frames: seq<Frame>, from: nat, ready: bool, s: State, moves: seq<Move>)
    requires Inv(s) && s.consumer.CIdle? && from <= |frames| && s.read == Pos(frames, from)
    requires forall f :: f in frames ==> |f.payload| < U16
    requires ready ==> from < |frames| && Pos(frames, from + 1) <= s.write
    requires ValidReading(Reading(s, Peeking), moves, Numbered(from))
    requires SentThroughout(frames, Reading(s, Peeking), moves, Numbered(from))
    ensures var r := After(Reading(s, Peeking), moves, Numbered(from));
      r.phase.Finished? ==> Answered(frames, from, ready, r.ring.read, r.phase.answer)
  {
    MovesKeep(frames, from, ready, Reading(s, Peeking), moves);
  }

  // ---- a read during a write ----

  /** The steps of the ring among the moves. */
  function StepsOf(moves: seq<Move>): seq<Step> {
    if moves == [] then []
    else if moves[0].Ring? then [moves[0].step] + StepsOf(moves[1..])
    else StepsOf(moves[1..])
  }

  /** How far a write of header and payload behind `base` has come; `rest` is still to be loaded. */
  predicate Stage(s: State, base: seq<byte>, header: seq<byte>, payload: seq<byte>, rest: seq<seq<byte>>) {
    var parts := Parts(header, payload);
    || (rest == parts && s.producer.PIdle? && s.pushed == base)
    || (rest == parts[1..] && !s.producer.PIdle? && s.producer.data == header && s.pushed == base)
    || (rest == parts[1..] && s.producer.PIdle? && s.pushed == base + header)
    || (payload != [] && rest == [] && !s.producer.PIdle? && s.producer.data == payload && s.pushed == base + header)
    || (payload != [] && rest == [] && s.producer.PIdle? && s.pushed == base + header + payload)
  }

  lemma StageStep(s: State, step: Step, base: seq<byte>, header: seq<byte>, payload: seq<byte>, rest: seq<seq<byte>>)
    requires Stage(s, base, header, payload, rest) && Enabled(s, step) && !step.PRefuse?
    requires step.PLoad? ==> rest != [] && rest[0] == step.data
    ensures Stage(Do(s, step), base, header, payload, ChunkWrites.RestAfter(step, rest))
  {
  }

  lemma {:induction false} PosOfPrefix(frames: seq<Frame>, f: Frame, k: nat)
    requires k <= |frames|
    ensures Pos(frames + [f], k) == Pos(frames, k)
    decreases k
  {
    if k > 0 {
      PosOfPrefix(frames, f, k - 1);
      assert (frames + [f])[k - 1] == frames[k - 1];
    }
  }

  lemma {:induction false} PosOfAll(frames: seq<Frame>)
    ensures Pos(frames, |frames|) == |Bytes(frames)|
  {
    SuffixAtPos(frames, |frames|);
    NothingEncodes(frames);
  }

  lemma StageIsSent(s: State, frames: seq<Frame>, f: Frame, rest: seq<seq<byte>>)
    requires Stage(s, Bytes(frames), AsBytes(ChunkOf(f, Numbered(|frames|))), f.payload, rest)
    ensures Sent(frames + [f], s)
  {
    hide Bytes, Pos, Numbered;
    var n, all := |frames|, frames + [f];
    var base, header := Bytes(frames), AsBytes(ChunkOf(f, Numbered(n)));
    assert Bytes(all) == base + (header + f.payload) by { BytesAppend(frames, f); }
    assert base + (header + f.payload) == (base + header) + f.payload;
    PosOfAll(frames);
    PosOfPrefix(frames, f, n);
    PosOfAll(all);
    assert IsCut(all, |base|, n) && IsCut(all, |base + header|, n);
    assert IsCut(all, |Bytes(all)|, n + 1);
  }

  lemma BytesAppend(frames: seq<Frame>, f: Frame)
    ensures Bytes(frames + [f]) == Bytes(frames) + (AsBytes(ChunkOf(f, Numbered(|frames|))) + f.payload)
  {
    EncodeAppends(frames, f, 0);
  }

  lemma {:induction false} WriterSends(r: Reading, moves: seq<Move>, expected: nat, frames: seq<Frame>, f: Frame,
                                       rest: seq<seq<byte>>)
    requires ValidReading(r, moves, expected) && Follows(StepsOf(moves), rest) && Budget(r.ring, rest)
    requires Stage(r.ring, Bytes(frames), AsBytes(ChunkOf(f, Numbered(|frames|))), f.payload, rest)
    ensures SentThroughout(frames + [f], r, moves, expected)
    decreases |moves|
  {
    hide Stage, Bytes, AsBytes, Sent, Budget;
    StageIsSent(r.ring, frames, f, rest);
    if moves != [] {
      var next, tail := Next(r, moves[0], expected), moves[1..];
      if moves[0].Ring? {
        var step := moves[0].step;
        assert StepsOf(moves) == [step] + StepsOf(tail);
        StepKeepsBudget(r.ring, step, rest);
        StageStep(r.ring, step, Bytes(frames), AsBytes(ChunkOf(f, Numbered(|frames|))), f.payload, rest);
        WriterSends(next, tail, expected, frames, f, ChunkWrites.RestAfter(step, rest));
      } else {
        WriterSends(next, tail, expected, frames, f, rest);
      }
    }
  }

  /** A read during a write that the credit covers, in every interleaving: an accepted chunk that was unread is returned
      whole; if there was none, the read returns nothing or the chunk being written, whole. */
  lemma {:induction false} ReadDuringWrite(frames: seq<Frame>, f: Frame, from: nat, s: State, moves: seq<Move>)
    requires Inv(s) && s.producer.PIdle? && s.consumer.CIdle?
    requires s.pushed == Bytes(frames) && from <= |frames| && s.read == Pos(frames, from)
    requires (forall g :: g in frames ==> |g.payload| < U16) && |f.payload| < U16
    requires CreditFor(s, HEADER_SIZE + |f.payload|)
    requires ValidReading(Reading(s, Peeking), moves, Numbered(from))
    requires Follows(StepsOf(moves), Parts(AsBytes(ChunkOf(f, Numbered(|frames|))), f.payload))
    ensures var r := After(Reading(s, Peeking), moves, Numbered(from));
      r.phase.Finished? ==> Answered(frames + [f], from, from < |frames|, r.ring.read, r.phase.answer)
  {
    hide Bytes, Pos, AsBytes, Encode, After, ValidReading, Follows, SentThroughout, Inv, Stage, Budget, Answered;
    var all, header := frames + [f], AsBytes(ChunkOf(f, Numbered(|frames|)));
    TotalOfParts(header, f.payload);
    WriteStarts(s, Bytes(frames), header, f.payload);
    WriterSends(Reading(s, Peeking), moves, Numbered(from), frames, f, Parts(header, f.payload));
    PosOfPrefix(frames, f, from);
    if from < |frames| { ChunkIsThere(frames, f, from); }
    assert s.write == |s.pushed| by { WriteCounts(s); }
    ReadIsWhole(all, from, from < |frames|, s, moves);
  }

  lemma WriteCounts(s: State)
    requires Inv(s)
    ensures s.write == |s.pushed|
  {
  }

  lemma WriteStarts(s: State, base: seq<byte>, header: seq<byte>, payload: seq<byte>)
    requires s.producer.PIdle? && s.pushed == base && CreditFor(s, Total(Parts(header, payload)))
    ensures Budget(s, Parts(header, payload)) && Stage(s, base, header, payload, Parts(header, payload))
  {
  }

  lemma ChunkIsThere(frames: seq<Frame>, f: Frame, from: nat)
    requires from < |frames|
    ensures Pos(frames + [f], from + 1) <= |Bytes(frames)|
  {
    hide Bytes, Pos;
    PosOfPrefix(frames, f, from + 1);
    PosOfAll(frames);
    if from + 1 < |frames| { PosGrows(frames, from + 1, |frames|); }
  }

  /** Behind a torn write a header stands without its payload: a read returns nothing until as many bytes follow as the
      header announces, and then these bytes in place of the payload; the next read starts behind them. */
  lemma TornChunkIsFilledUp(f: Frame, sequence: nat, following: seq<byte>)
    requires sequence < U32 && |f.payload| < U16
    ensures var n, r := |f.payload|, ReadOutcome(AsBytes(ChunkOf(f, sequence)) + following, sequence);
      && r == (if |following| < n then Ok(Nothing) else Ok(Chunked(ChunkOf(f, sequence), following[..n])))
      && (|following| >= n ==> Chunks.RestAfter(AsBytes(ChunkOf(f, sequence)) + following, r) == following[n..])
  {
    hide AsBytes, Chunks.FromBytes;
    var header := AsBytes(ChunkOf(f, sequence));
    FlagsAreAdmitted(sequence, f.last);
    HeaderRoundTrip(ChunkOf(f, sequence));
    Splits(header, following);
    var n, bs := |f.payload|, header + following;
    if |following| >= n {
      assert bs[HEADER_SIZE..][..n] == bs[HEADER_SIZE..HEADER_SIZE + n];
      assert bs[HEADER_SIZE..][n..] == bs[HEADER_SIZE + n..];
    }
  }
}
