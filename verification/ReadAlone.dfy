/** A reader that is not interrupted reads what any unread bytes decide: the steps of ChunkReads compose to the read of
    src/stream/dcp_stream.rs:127-166, whatever the ring holds. */
module ReadAlone {
  import opened Bits
  import opened Errors
  import opened RingSteps
  import opened Chunks
  import opened ChunkReads

  predicate OfReader(moves: seq<Move>) {
    forall m :: m in moves ==> m.Check? || !IsProducer(m.step)
  }

  /** Moves of the reader alone lead from `r` to `r'`. */
  ghost predicate Leads(r: Reading, r': Reading, expected: nat) {
    exists moves: seq<Move> :: OfReader(moves) && ValidReading(r, moves, expected) && After(r, moves, expected) == r'
  }

  lemma {:induction false} MovesConcat(r: Reading, a: seq<Move>, b: seq<Move>, expected: nat)
    requires ValidReading(r, a, expected) && ValidReading(After(r, a, expected), b, expected)
    ensures ValidReading(r, a + b, expected)
    ensures After(r, a + b, expected) == After(After(r, a, expected), b, expected)
    decreases |a|
  {
    hide CanMove, Next;
    if a == [] {
      assert a + b == b;
    } else {
      MovesConcat(Next(r, a[0], expected), a[1..], b, expected);
      assert (a + b)[0] == a[0] && (a + b)[1..] == a[1..] + b;
    }
  }

  lemma {:induction false} LeadsOn(r: Reading, r1: Reading, r2: Reading, expected: nat)
    requires Leads(r, r1, expected) && Leads(r1, r2, expected)
    ensures Leads(r, r2, expected)
  {
    var a: seq<Move> :| OfReader(a) && ValidReading(r, a, expected) && After(r, a, expected) == r1;
    var b: seq<Move> :| OfReader(b) && ValidReading(r1, b, expected) && After(r1, b, expected) == r2;
    hide ValidReading, After;
    MovesConcat(r, a, b, expected);
    assert OfReader(a + b);
  }

  lemma {:induction false} LeadsNowhere(r: Reading, expected: nat)
    ensures Leads(r, r, expected)
  {
    var none: seq<Move> := [];
    assert OfReader(none) && ValidReading(r, none, expected) && After(r, none, expected) == r;
  }

  lemma {:induction false} LeadsOne(r: Reading, m: Move, expected: nat)
    requires CanMove(r, m) && OfReader([m])
    ensures Leads(r, Next(r, m, expected), expected)
  {
    hide CanMove, Next, OfReader;
    var moves := [m];
    assert moves[1..] == [];
    assert ValidReading(r, moves, expected) && After(r, moves, expected) == Next(r, m, expected);
  }

  /** A step that ends no access leaves the phase. */
  lemma StepAlone(r: Reading, step: Step, expected: nat)
    requires Enabled(r.ring, step) && (step.CLoadWrite? ==> Wants(r.phase, step.want, step.peek))
    requires step.CLoadWrite? || step.CLocate? || step.CCopy? || (step.CLoadRead? && !Do(r.ring, step).consumer.CIdle?)
    ensures Leads(r, r.(ring := Do(r.ring, step)), expected)
  {
    hide Do, Enabled, Wants;
    LeadsOne(r, Ring(step), expected);
  }

  /** An access to the ring up to its last byte. */
  lemma {:induction false} AccessAlone(r: Reading, want: nat, peek: bool, n: nat, expected: nat) returns (t: State)
    requires Inv(r.ring) && r.ring.consumer.CIdle? && Wants(r.phase, want, peek)
    requires n == Min(want, r.ring.write - r.ring.read) && n > 0
    ensures Leads(r, r.(ring := t), expected) && Inv(t)
    ensures t == r.ring.(consumer := t.consumer)
    ensures t.consumer.CCopying? && t.consumer.at == r.ring.read && t.consumer.n == n && t.consumer.peek == peek
    ensures forall j :: 0 <= j < n ==> j in t.consumer.got
  {
    hide Leads, Inv, Wants;
    var s1 := Do(r.ring, CLoadWrite(want, peek));
    StepKeepsInv(r.ring, CLoadWrite(want, peek));
    StepAlone(r, CLoadWrite(want, peek), expected);
    var s2 := Do(s1, CLoadRead);
    StepKeepsInv(s1, CLoadRead);
    StepAlone(r.(ring := s1), CLoadRead, expected);
    LeadsOn(r, r.(ring := s1), r.(ring := s2), expected);
    var s3 := Do(s2, CLocate);
    StepKeepsInv(s2, CLocate);
    StepAlone(r.(ring := s2), CLocate, expected);
    LeadsOn(r, r.(ring := s2), r.(ring := s3), expected);
    t := FetchAlone(r.(ring := s3), n, expected);
    LeadsOn(r, r.(ring := s3), r.(ring := t), expected);
  }

  lemma {:induction false} FetchAlone(r: Reading, n: nat, expected: nat) returns (t: State)
    requires Inv(r.ring) && r.ring.consumer.CCopying? && r.ring.consumer.got == map[] && n <= r.ring.consumer.n
    ensures Leads(r, r.(ring := t), expected) && Inv(t)
    ensures t == r.ring.(consumer := t.consumer) && t.consumer.CCopying?
    ensures t.consumer == r.ring.consumer.(got := t.consumer.got)
    ensures forall j :: j in t.consumer.got <==> 0 <= j < n
    decreases n
  {
    hide Leads, Inv;
    if n == 0 {
      LeadsNowhere(r, expected);
      t := r.ring;
    } else {
      var u := FetchAlone(r, n - 1, expected);
      RingIsThere(u);
      t := Do(u, CCopy(n - 1));
      StepKeepsInv(u, CCopy(n - 1));
      StepAlone(r.(ring := u), CCopy(n - 1), expected);
      LeadsOn(r, r.(ring := u), r.(ring := t), expected);
    }
  }

  lemma RingIsThere(s: State)
    requires Inv(s)
    ensures |s.buf| > 0 && s.write == |s.pushed| && s.read <= s.write && s.popped == s.pushed[..s.read]
  {
  }

  /** The look at the header. */
  lemma {:induction false} PeekAlone(r: Reading, expected: nat)
    requires Inv(r.ring) && r.ring.consumer.CIdle? && r.phase.Peeking?
    ensures r.ring.write == |r.ring.pushed| && r.ring.read <= r.ring.write
    ensures var unread := r.ring.pushed[r.ring.read..];
      Leads(r, r.(phase := Parsed(if |unread| < HEADER_SIZE then unread else unread[..HEADER_SIZE])), expected)
  {
    hide Leads, Inv, Parsed;
    RingIsThere(r.ring);
    var s := r.ring;
    var unread := s.pushed[s.read..];
    var n := Min(HEADER_SIZE, |unread|);
    if n == 0 {
      NothingThere(r, expected);
    } else {
      var t := AccessAlone(r, HEADER_SIZE, true, n, expected);
      ReceivedIsUnread(t);
      assert t.pushed[t.read..t.read + n] == unread[..n];
      LeadsOne(r.(ring := t), Ring(CPeekDone), expected);
      LeadsOn(r, r.(ring := t), r.(phase := Parsed(unread[..n])), expected);
      if |unread| < HEADER_SIZE { assert unread[..n] == unread; }
    }
  }

  lemma {:induction false} NothingThere(r: Reading, expected: nat)
    requires Inv(r.ring) && r.ring.consumer.CIdle? && r.phase.Peeking? && r.ring.write == r.ring.read
    ensures Leads(r, r.(phase := Parsed([])), expected)
  {
    hide Leads, Inv;
    var s1 := Do(r.ring, CLoadWrite(HEADER_SIZE, true));
    StepAlone(r, CLoadWrite(HEADER_SIZE, true), expected);
    LeadsOne(r.(ring := s1), Ring(CLoadRead), expected);
    LeadsOn(r, r.(ring := s1), r.(phase := Parsed([])), expected);
  }

  /** The ring behind a read of `n` bytes. */
  function Taken(s: State, n: nat): State
    requires s.read + n <= |s.pushed|
  {
    s.(read := s.read + n, popped := s.pushed[..s.read + n], credit := s.credit + n)
  }

  /** The pop of a chunk that is there. */
  lemma {:induction false} TakeAlone(r: Reading, expected: nat)
    requires Inv(r.ring) && r.ring.consumer.CIdle? && r.phase.Popping?
    requires r.ring.read + HEADER_SIZE + r.phase.chunk.len <= |r.ring.pushed|
    ensures var n, s := HEADER_SIZE + r.phase.chunk.len, r.ring;
      Leads(r, Reading(Taken(s, n), Handed(r.phase.chunk, s.pushed[s.read..s.read + n])), expected)
  {
    hide Leads, Inv, Handed;
    RingIsThere(r.ring);
    var n, s, chunk := HEADER_SIZE + r.phase.chunk.len, r.ring, r.phase.chunk;
    var t := AccessAlone(r, n, false, n, expected);
    ReceivedIsUnread(t);
    RingIsThere(t);
    var u := Do(t, CAdvance);
    LeadsOne(r.(ring := t), Ring(CAdvance), expected);
    var bytes := s.pushed[s.read..s.read + n];
    assert s.pushed[..s.read] + bytes == s.pushed[..s.read + n];
    LeadsOn(r, r.(ring := t), Reading(u, Returning(chunk, bytes)), expected);
    LeadsOne(Reading(u, Returning(chunk, bytes)), Ring(CRelease), expected);
    LeadsOn(r, Reading(u, Returning(chunk, bytes)), Reading(Taken(s, n), Handed(chunk, bytes)), expected);
  }

  /** What follows on a header that was looked at: the chunk is taken, refused, or waited for. */
  lemma {:induction false} CompareAlone(r: Reading, expected: nat)
    requires Inv(r.ring) && r.ring.consumer.CIdle? && r.phase.Checking?
    requires r.ring.read + HEADER_SIZE <= |r.ring.pushed|
    ensures var s, chunk, unread := r.ring, r.phase.chunk, r.ring.pushed[r.ring.read..];
      if |unread| < HEADER_SIZE + chunk.len then Leads(r, Reading(s, Finished(Ok(Nothing))), expected)
      else if chunk.sequence != expected then Leads(r, Reading(s, Finished(Err(ChecksumMismatch))), expected)
      else Leads(r, Reading(Taken(s, HEADER_SIZE + chunk.len),
                            Finished(Ok(Chunked(chunk, unread[HEADER_SIZE..HEADER_SIZE + chunk.len])))), expected)
  {
    RingIsThere(r.ring);
    hide Leads, Inv;
    var s, chunk, unread := r.ring, r.phase.chunk, r.ring.pushed[r.ring.read..];
    LeadsOne(r, Check, expected);
    if |unread| >= HEADER_SIZE + chunk.len && chunk.sequence == expected {
      var n, popping := HEADER_SIZE + chunk.len, r.(phase := Popping(chunk));
      TakeAlone(popping, expected);
      assert s.pushed[s.read..s.read + n] == unread[..n];
      assert unread[..n][HEADER_SIZE..] == unread[HEADER_SIZE..n];
      assert unread[..n][..n] == unread[..n];
      LeadsOn(r, popping, Reading(Taken(s, n), Handed(chunk, unread[..n])), expected);
    }
  }

  /** An uninterrupted read of any unread bytes, well formed or not, gives the answer of the sequential read; it takes
      exactly the bytes of the chunk it answers and returns their credit, and changes nothing otherwise. */
  lemma {:induction false} ReadsAlone(r: Reading, expected: nat)
    requires Inv(r.ring) && r.ring.consumer.CIdle? && r.phase.Peeking?
    ensures r.ring.read <= |r.ring.pushed|
    ensures var s, a := r.ring, ReadOutcome(r.ring.pushed[r.ring.read..], expected);
      Leads(r, Reading(if a.Ok? && a.value.Chunked? then Taken(s, HEADER_SIZE + |a.value.payload|) else s, Finished(a)),
            expected)
  {
    RingIsThere(r.ring);
    PeekAlone(r, expected);
    var s := r.ring;
    var unread := s.pushed[s.read..];
    hide Leads, Inv, Taken, Chunks.FromBytes;
    if |unread| >= HEADER_SIZE && Chunks.FromBytes(unread[..HEADER_SIZE]).Ok? {
      var chunk := Chunks.FromBytes(unread[..HEADER_SIZE]).value;
      var checking := r.(phase := Checking(chunk));
      CompareAlone(checking, expected);
      var a := ReadOutcome(unread, expected);
      hide ReadOutcome;
      var s' := if a.Ok? && a.value.Chunked? then Taken(s, HEADER_SIZE + |a.value.payload|) else s;
      LeadsOn(r, checking, Reading(s', Finished(a)), expected);
    }
  }
}
