/** What a run of calls says about the answer to the next one, without a look at the statuses and buffers of
    src/multiplex/connection.rs: only the calls themselves, what they delivered and the queued frames are consulted. */
module MuxHistory {
  import opened Bits
  import opened Errors
  import opened MuxFrames
  import opened MuxSpec
  import opened MuxRuns

  /** What can happen to a stream after it was opened, besides the exchange of data: calls of the application, frames of
      the peer, and data that exceeds the receive limit. */
  datatype Happening = ClosedHere | ResetHere | PeerFin | PeerRst | Overflow

  type Log = seq<Happening>

  predicate WasReset(log: Log) {
    ResetHere in log || PeerRst in log || Overflow in log
  }

  /** A run: its trace, for every stream in the table what happened to it since it was opened, how many identifiers
      have been tried, and whether the connection was closed. */
  datatype History = History(t: Trace, logs: map<nat, Log>, tries: nat, ended: bool, maxQueue: nat, maxRecv: nat)

  /** A frame of a stream that is well formed. */
  predicate Arrives(op: Op, s: nat) {
    && op.ProcessFrame? && op.header.streamId == s
    && op.header.length == |op.payload| && ValidShape(op.header, |op.payload|)
  }

  /** The bytes accepted for a stream and not yet handed to the application. */
  ghost function Unread(t: Trace, s: nat): int
    requires s in t.accepted && s in t.returned
  {
    TotalLen(t.accepted[s]) - TotalLen(t.returned[s])
  }

  ghost predicate Exceeds(h: History, s: nat, payload: Payload) {
    s in h.t.accepted && s in h.t.returned && Unread(h.t, s) + |payload| > h.maxRecv
  }

  /** What a call does to the stream `s`, which is in the table. */
  ghost function Happens(h: History, op: Op, s: nat): Log
    requires s in h.logs
  {
    if op.CloseStream? && op.id == s then [ClosedHere]
    else if op.ResetStream? && op.id == s then [ResetHere]
    else if Arrives(op, s) && op.header.flags in {RST, RST + ACK} then [PeerRst]
    else if Arrives(op, s) && op.header.flags in {FIN, FIN + ACK} then [PeerFin]
    else if Arrives(op, s) && op.payload != [] && !WasReset(h.logs[s]) && PeerFin !in h.logs[s]
            && Exceeds(h, s, op.payload)
    then [Overflow]
    else []
  }

  /** An identifier is tried by every open call on an open connection that is not full. */
  predicate Tries(h: History, op: Op) {
    op.OpenStream? && !h.ended && |h.logs| < MAX_STREAMS
  }

  ghost function Next(h: History, op: Op): History {
    var t := TraceStep(h.t, op);
    h.(t := t,
       logs := map s | s in t.conn.streams :: if s in h.logs then h.logs[s] + Happens(h, op, s) else [],
       tries := if Tries(h, op) then h.tries + 1 else h.tries,
       ended := h.ended || op.Close?)
  }

  ghost function After(h: History, ops: seq<Op>): History
    decreases |ops|
  {
    if ops == [] then h else After(Next(h, ops[0]), ops[1..])
  }

  function Begin(maxQueue: nat, maxRecv: nat): History {
    History(Start(maxQueue, maxRecv), map[], 0, false, maxQueue, maxRecv)
  }

  // ---- the answer to the next call ----

  /** Identifiers are tried in a cycle that leaves out the control stream. */
  function Nth(n: nat): nat { n % 65535 + 1 }

  function Candidate(h: History): nat { Nth(h.tries) }

  function Queueing(h: History, ok: Answer): Answer {
    if |h.t.conn.queue| >= h.maxQueue then Failed(SendBufferFull) else ok
  }

  function Opening(h: History, id: nat, ok: Answer): Answer {
    if |h.logs| >= MAX_STREAMS then Failed(TooManyStreams)
    else if id in h.logs then Failed(StreamAlreadyExists(id))
    else Queueing(h, ok)
  }

  ghost function Arriving(h: History, s: nat, flags: byte, payload: Payload): Answer {
    if s == CONTROL_STREAM then Done
    else if flags == SYN then Opening(h, s, Done)
    else if s !in h.logs then Queueing(h, Done)
    else if payload == [] then Done
    else if WasReset(h.logs[s]) || PeerFin in h.logs[s] then Failed(StreamClosed(s))
    else if Exceeds(h, s, payload) then Failed(ReceiveBufferFull)
    else Done
  }

  ghost function Foretold(h: History, op: Op): Answer {
    match op
    case OpenStream => if h.ended then Failed(ConnectionClosed) else Opening(h, Candidate(h), Opened(Candidate(h)))
    case AcceptStream(s) =>
      if h.ended then Failed(ConnectionClosed)
      else if s == CONTROL_STREAM then Failed(InvalidStreamId)
      else Opening(h, s, Done)
    case Send(s, _) =>
      if h.ended then Failed(ConnectionClosed)
      else if s !in h.logs then Failed(StreamNotFound(s))
      else if WasReset(h.logs[s]) || ClosedHere in h.logs[s] then Failed(StreamClosed(s))
      else Queueing(h, Done)
    case Recv(s) =>
      if h.ended then Failed(ConnectionClosed)
      else if s !in h.logs || s !in h.t.accepted || s !in h.t.returned then Failed(StreamNotFound(s))
      else if WasReset(h.logs[s]) then Failed(StreamError(s))
      else
        var n := |h.t.returned[s]|;
        Received(if n < |h.t.accepted[s]| then Some(h.t.accepted[s][n]) else None)
    case CloseStream(s) => if s !in h.logs then Failed(StreamNotFound(s)) else Queueing(h, Done)
    case ResetStream(s) => if s !in h.logs then Failed(StreamNotFound(s)) else Queueing(h, Done)
    case ProcessFrame(header, payload) =>
      if h.ended then Failed(ConnectionClosed)
      else if !Arrives(op, header.streamId) then Failed(ProtocolError)
      else Arriving(h, header.streamId, header.flags, payload)
    case TakeFrame => Taken(if h.t.conn.queue == [] then None else Some(h.t.conn.queue[0]))
    case _ => Done
  }

  /** The frames a call with answer `a` puts behind the queued ones. */
  function Announced(h: History, op: Op, a: Answer): seq<Frame> {
    if a.Failed? then []
    else match op
      case OpenStream => if a.Opened? && a.id < 0x1_0000 then [Syn(a.id)] else []
      case AcceptStream(s) => [AckFrame(s)]
      case Send(s, data) => [DataFrame(s, data)]
      case CloseStream(s) => [FinFrame(s)]
      case ResetStream(s) => [RstFrame(s)]
      case ProcessFrame(header, _) =>
        if header.flags == SYN then [AckFrame(header.streamId)]
        else if header.streamId != CONTROL_STREAM && header.streamId !in h.logs then [RstFrame(header.streamId)]
        else []
      case _ => []
  }

  // ---- what the connection and its history agree on ----

  ghost predicate EntryTold(x: Stream, log: Log) {
    && (x.status.Reset? <==> WasReset(log))
    && (WasReset(log) ==> x.sent == [])
    && (!WasReset(log) ==> (x.status.CanSend() <==> ClosedHere !in log)
                           && (x.status.CanReceive() <==> PeerFin !in log))
  }

  ghost predicate Told(h: History) {
    && Inv(h.t)
    && h.maxQueue == h.t.conn.maxQueue && h.maxRecv == h.t.conn.maxRecv
    && h.logs.Keys == h.t.conn.streams.Keys
    && h.ended == h.t.conn.closed
    && NextCandidate(h.t.conn) == Candidate(h)
    && forall s :: s in h.logs ==> EntryTold(h.t.conn.streams[s], h.logs[s])
  }

  lemma FlagsOfShape(header: Header, payloadLen: nat)
    requires ValidShape(header, payloadLen)
    ensures Has(header.flags, SYN) <==> header.flags == SYN
    ensures Has(header.flags, RST) <==> header.flags in {RST, RST + ACK}
    ensures Has(header.flags, FIN) <==> header.flags in {FIN, FIN + ACK}
    ensures payloadLen != 0 ==> header.flags == NONE
  {
    ShapeMeaning(header, payloadLen);
    FlagBits(header.flags);
  }

  lemma {:induction false} TotalLenConcat(a: seq<Payload>, b: seq<Payload>)
    ensures TotalLen(a + b) == TotalLen(a) + TotalLen(b)
  {
    if a == [] {
      assert a + b == b;
    } else {
      TotalLenConcat(a[1..], b);
      assert (a + b)[1..] == a[1..] + b;
    }
  }

  lemma UnreadIsBuffered(h: History, s: nat)
    requires Told(h) && s in h.logs
    ensures s in h.t.accepted && s in h.t.returned && Unread(h.t, s) == h.t.conn.streams[s].buffered
  {
    hide WireOk, TotalLen, EntryTold;
    assert BufferOk(h.t.conn, h.t.conn.streams[s]);
    TotalLenConcat(h.t.returned[s], h.t.conn.streams[s].received);
  }

  lemma Agreement(h: History)
    requires Told(h)
    ensures h.maxQueue == h.t.conn.maxQueue && h.maxRecv == h.t.conn.maxRecv
    ensures h.logs.Keys == h.t.conn.streams.Keys
    ensures forall s :: s in h.logs <==> s in h.t.conn.streams
    ensures h.ended == h.t.conn.closed
    ensures h.t.conn.streamCount == |h.logs|
    ensures NextCandidate(h.t.conn) == Candidate(h)
  {
    CountIsKnown(h);
    hide WireOk, BufferOk, Delivered, EntryTold;
  }

  /** What is known of the entry of a stream in the table. */
  lemma EntryAgrees(h: History, s: nat)
    requires Told(h) && s in h.logs
    ensures s in h.t.conn.streams && s != CONTROL_STREAM && !h.ended
    ensures var x := h.t.conn.streams[s];
      && (x.status.Reset? <==> WasReset(h.logs[s]))
      && (x.status.CanReceive() <==> !WasReset(h.logs[s]) && PeerFin !in h.logs[s])
      && (x.status.CanSend() <==> !WasReset(h.logs[s]) && ClosedHere !in h.logs[s])
    ensures s in h.t.accepted && s in h.t.returned
    ensures h.t.accepted[s] == h.t.returned[s] + h.t.conn.streams[s].received
    ensures forall payload: Payload {:trigger Exceeds(h, s, payload)} ::
      Exceeds(h, s, payload) <==> h.t.conn.streams[s].buffered + |payload| > h.maxRecv
  {
    ReceivesUnlessFinished(h.t.conn.streams[s], h.logs[s]);
    UnreadIsBuffered(h, s);
    StreamsAreData(h, s);
    hide Accounted, WireOk, WasReset, TotalLen;
  }

  lemma CountIsKnown(h: History)
    requires Told(h)
    ensures h.t.conn.streamCount == |h.logs|
  {
    hide WireOk, BufferOk, Delivered, EntryTold;
    assert |h.logs| == |h.logs.Keys| && |h.t.conn.streams| == |h.t.conn.streams.Keys|;
  }

  // ---- a step keeps the agreement ----

  lemma NextIsStep(h: History, op: Op)
    ensures var h' := Next(h, op);
      && h'.t == TraceStep(h.t, op) && h'.maxQueue == h.maxQueue && h'.maxRecv == h.maxRecv
      && (h'.ended <==> h.ended || op == Close)
      && h'.tries == (if Tries(h, op) then h.tries + 1 else h.tries)
      && h'.logs.Keys == h'.t.conn.streams.Keys
  {
    hide TraceStep, Happens, Tries;
  }

  lemma UntouchedIsTold(x: Stream, y: Stream, log: Log)
    requires EntryTold(x, log) && y.status == x.status
    requires y.sent == x.sent || (x.status.CanSend() && !x.status.Reset?)
    ensures EntryTold(y, log + [])
  {
    assert log + [] == log;
  }

  lemma ResetIsTold(y: Stream, log: Log, e: Happening)
    requires y.status.Reset? && y.sent == [] && e in {ResetHere, PeerRst, Overflow}
    ensures EntryTold(y, log + [e])
  {
  }

  lemma CloseIsTold(x: Stream, y: Stream, log: Log, e: Happening)
    requires EntryTold(x, log) && y.sent == x.sent
    requires (e == ClosedHere && y.status == x.status.CloseLocal())
             || (e == PeerFin && y.status == x.status.CloseRemote())
    ensures EntryTold(y, log + [e])
  {
    assert forall g :: g in log + [e] <==> g in log || g == e;
  }

  lemma OthersAreKept(c: Conn, header: Header, payload: Payload, s: nat)
    requires s in c.streams && s in DoProcess(c, header, payload).0.streams
    requires !Arrives(ProcessFrame(header, payload), s)
    ensures DoProcess(c, header, payload).0.streams[s] == c.streams[s]
  {
    hide ValidShape, Has;
  }

  lemma OwnFrame(c: Conn, header: Header, payload: Payload)
    requires header.streamId in c.streams && !c.closed && header.streamId != CONTROL_STREAM
    requires Arrives(ProcessFrame(header, payload), header.streamId)
    requires header.streamId in DoProcess(c, header, payload).0.streams
    ensures var x, y := c.streams[header.streamId], DoProcess(c, header, payload).0.streams[header.streamId];
      if header.flags in {RST, RST + ACK} then y == x.(status := Reset, sent := [])
      else if header.flags in {FIN, FIN + ACK} then y == x.(status := x.status.CloseRemote()) && !y.status.IsClosed()
      else if payload == [] || !x.status.CanReceive() then y == x
      else if x.buffered + |payload| > c.maxRecv then y == x.(status := Reset, sent := [])
      else y.status == x.status && y.sent == x.sent
  {
    FlagsOfShape(header, |payload|);
    hide ValidShape, Has;
  }

  lemma HappensOnArrival(h: History, header: Header, payload: Payload)
    requires header.streamId in h.logs && Arrives(ProcessFrame(header, payload), header.streamId)
    ensures var s, flags := header.streamId, header.flags;
      Happens(h, ProcessFrame(header, payload), s) ==
        if flags in {RST, RST + ACK} then [PeerRst] else if flags in {FIN, FIN + ACK} then [PeerFin]
        else if payload != [] && !WasReset(h.logs[s]) && PeerFin !in h.logs[s] && Exceeds(h, s, payload)
        then [Overflow] else []
  {
    hide Arrives, WasReset, Exceeds;
  }

  lemma HappensOnCall(h: History, op: Op, s: nat)
    requires s in h.logs && !Arrives(op, s)
    ensures Happens(h, op, s) ==
      if op.CloseStream? && op.id == s then [ClosedHere] else if op.ResetStream? && op.id == s then [ResetHere] else []
  {
    hide Arrives, WasReset, Exceeds;
  }

  lemma ArrivalKeepsEntry(h: History, header: Header, payload: Payload)
    requires Told(h) && header.streamId in h.logs && Arrives(ProcessFrame(header, payload), header.streamId)
    requires header.streamId in DoProcess(h.t.conn, header, payload).0.streams
    ensures EntryTold(DoProcess(h.t.conn, header, payload).0.streams[header.streamId],
                      h.logs[header.streamId] + Happens(h, ProcessFrame(header, payload), header.streamId))
  {
    var s := header.streamId;
    var x, y, log := h.t.conn.streams[s], DoProcess(h.t.conn, header, payload).0.streams[s], h.logs[s];
    assert EntryTold(x, log);
    EntryAgrees(h, s);
    Agreement(h);
    OwnFrame(h.t.conn, header, payload);
    HappensOnArrival(h, header, payload);
    hide Told, DoProcess, Happens, Exceeds, EntryTold, Arrives, WasReset;
    if header.flags in {FIN, FIN + ACK} {
      CloseIsTold(x, y, log, PeerFin);
    } else if header.flags in {RST, RST + ACK} {
      ResetIsTold(y, log, PeerRst);
    } else if payload != [] && x.status.CanReceive() && Exceeds(h, s, payload) {
      ResetIsTold(y, log, Overflow);
    } else {
      UntouchedIsTold(x, y, log);
    }
  }

  lemma ProcessKeepsEntry(h: History, header: Header, payload: Payload, s: nat)
    requires Told(h) && s in h.logs && s in DoProcess(h.t.conn, header, payload).0.streams
    ensures EntryTold(DoProcess(h.t.conn, header, payload).0.streams[s],
                      h.logs[s] + Happens(h, ProcessFrame(header, payload), s))
  {
    if Arrives(ProcessFrame(header, payload), s) {
      ArrivalKeepsEntry(h, header, payload);
      hide *;
    } else {
      var x, y := h.t.conn.streams[s], DoProcess(h.t.conn, header, payload).0.streams[s];
      OthersAreKept(h.t.conn, header, payload, s);
      assert EntryTold(x, h.logs[s]);
      HappensOnCall(h, ProcessFrame(header, payload), s);
      hide Told, DoProcess, Happens, EntryTold, Arrives;
      UntouchedIsTold(x, y, h.logs[s]);
    }
  }

  lemma ReceivesUnlessFinished(x: Stream, log: Log)
    requires EntryTold(x, log)
    ensures x.status.CanReceive() <==> !WasReset(log) && PeerFin !in log
    ensures x.status.CanSend() <==> !WasReset(log) && ClosedHere !in log
  {
  }

  lemma StreamsAreData(h: History, s: nat)
    requires Told(h) && s in h.logs
    ensures !h.t.conn.closed && s != CONTROL_STREAM
  {
    hide WireOk, BufferOk, Delivered, EntryTold;
  }

  /** What calls other than `ProcessFrame` do to the status of an entry. */
  lemma OwnCall(c: Conn, op: Op, s: nat)
    requires !op.ProcessFrame? && s in c.streams && s in Step(c, op).0.streams
    ensures var x, y := c.streams[s], Step(c, op).0.streams[s];
      if op.CloseStream? && op.id == s then y == x.(status := x.status.CloseLocal())
      else if op.ResetStream? && op.id == s then y == x.(status := Reset, sent := [])
      else if op.Send? && op.id == s && x.status.CanSend() then y.status == x.status
      else y.status == x.status && y.sent == x.sent
  {
    hide DoProcess, Without;
  }

  lemma StepOfFrame(c: Conn, header: Header, payload: Payload)
    ensures Step(c, ProcessFrame(header, payload)) == DoProcess(c, header, payload)
  {
    hide DoProcess;
  }

  lemma CallKeepsEntry(h: History, op: Op, s: nat)
    requires Told(h) && s in h.logs && s in Step(h.t.conn, op).0.streams && !op.ProcessFrame?
    ensures EntryTold(Step(h.t.conn, op).0.streams[s], h.logs[s] + Happens(h, op, s))
  {
    var x, y := h.t.conn.streams[s], Step(h.t.conn, op).0.streams[s];
    OwnCall(h.t.conn, op, s);
    assert EntryTold(x, h.logs[s]);
    ReceivesUnlessFinished(x, h.logs[s]);
    HappensOnCall(h, op, s);
    hide Told, Step, Happens, EntryTold, WasReset;
    if op.CloseStream? && op.id == s {
      CloseIsTold(x, y, h.logs[s], ClosedHere);
    } else if op.ResetStream? && op.id == s {
      ResetIsTold(y, h.logs[s], ResetHere);
    } else {
      UntouchedIsTold(x, y, h.logs[s]);
    }
  }

  lemma StepKeepsEntry(h: History, op: Op, s: nat)
    requires Told(h) && s in h.logs && s in Step(h.t.conn, op).0.streams
    ensures EntryTold(Step(h.t.conn, op).0.streams[s], h.logs[s] + Happens(h, op, s))
  {
    if op.ProcessFrame? {
      StepOfFrame(h.t.conn, op.header, op.payload);
      hide Step;
      ProcessKeepsEntry(h, op.header, op.payload, s);
      hide *;
    } else {
      hide *;
      CallKeepsEntry(h, op, s);
    }
  }

  lemma NewEntryIsTold(c: Conn, op: Op, s: nat)
    requires s !in c.streams && s in Step(c, op).0.streams
    ensures EntryTold(Step(c, op).0.streams[s], [])
  {
    hide Without;
  }

  lemma CandidateAdvances(c: Conn, c': Conn, n: nat)
    requires NextCandidate(c) == Nth(n)
    ensures c'.nextId == c.nextId ==> NextCandidate(c') == Nth(n)
    ensures c'.nextId == Incremented(NextCandidate(c)) ==> NextCandidate(c') == Nth(n + 1)
  {
  }

  lemma StepKeepsCounters(c: Conn, op: Op)
    ensures var c' := Step(c, op).0;
      && c'.maxQueue == c.maxQueue && c'.maxRecv == c.maxRecv
      && c'.closed == (c.closed || op.Close?)
      && c'.nextId == if op.OpenStream? && !c.closed && c.streamCount < MAX_STREAMS
                      then Incremented(NextCandidate(c)) else c.nextId
  {
    hide Without, ValidShape, Has;
  }

  lemma NextKeepsEntries(h: History, op: Op, s: nat)
    requires Told(h) && s in Next(h, op).logs
    ensures s in Next(h, op).t.conn.streams && EntryTold(Next(h, op).t.conn.streams[s], Next(h, op).logs[s])
  {
    hide Inv, Step, EntryTold, Happens;
    if s in h.logs { StepKeepsEntry(h, op, s); } else { NewEntryIsTold(h.t.conn, op, s); }
  }

  lemma TraceStepTakes(t: Trace, op: Op)
    ensures TraceStep(t, op).conn == Step(t.conn, op).0
  {
    hide Step, Extend;
  }

  lemma NextKeepsCounters(h: History, op: Op)
    requires Told(h)
    ensures var h' := Next(h, op);
      && h'.maxQueue == h'.t.conn.maxQueue && h'.maxRecv == h'.t.conn.maxRecv
      && h'.logs.Keys == h'.t.conn.streams.Keys
      && h'.ended == h'.t.conn.closed
      && NextCandidate(h'.t.conn) == Candidate(h')
  {
    Agreement(h);
    NextIsStep(h, op);
    StepKeepsCounters(h.t.conn, op);
    TraceStepTakes(h.t, op);
    CandidateAdvances(h.t.conn, Step(h.t.conn, op).0, h.tries);
    hide Told, Step, Next, TraceStep, Incremented, NextCandidate, Nth;
  }

  lemma NextKeepsTold(h: History, op: Op)
    requires Told(h)
    ensures Told(Next(h, op))
  {
    var h' := Next(h, op);
    StepKeepsInv(h.t, op);
    NextKeepsCounters(h, op);
    hide Inv, Step, EntryTold, Happens, Candidate, NextCandidate, Extend;
    assert h'.t == TraceStep(h.t, op);
    forall s | s in h'.logs ensures EntryTold(h'.t.conn.streams[s], h'.logs[s]) {
      NextKeepsEntries(h, op, s);
    }
  }

  lemma {:induction false} AfterIsTold(h: History, ops: seq<Op>)
    requires Told(h)
    ensures Told(After(h, ops))
    decreases |ops|
  {
    if ops != [] {
      NextKeepsTold(h, ops[0]);
      AfterIsTold(Next(h, ops[0]), ops[1..]);
    }
  }

  lemma BeginIsTold(maxQueue: nat, maxRecv: nat)
    ensures Told(Begin(maxQueue, maxRecv))
  {
  }

  // ---- the answers ----

  lemma RegisterAnswers(c: Conn, id: StreamId, opener: Frame, ok: Answer)
    requires !c.closed
    ensures Register(c, id, opener, ok).1 ==
      if id in c.streams then Failed(StreamAlreadyExists(id))
      else if |c.queue| >= c.maxQueue then Failed(SendBufferFull) else ok
  {
  }

  lemma OpenAnswers(c: Conn)
    ensures DoOpen(c).1 ==
      if c.closed then Failed(ConnectionClosed) else if c.streamCount >= MAX_STREAMS then Failed(TooManyStreams)
      else if NextCandidate(c) in c.streams then Failed(StreamAlreadyExists(NextCandidate(c)))
      else if |c.queue| >= c.maxQueue then Failed(SendBufferFull) else Opened(NextCandidate(c))
  {
    if !c.closed && c.streamCount < MAX_STREAMS {
      var id := NextCandidate(c);
      RegisterAnswers(c.(nextId := Incremented(id)), id, Syn(id), Opened(id));
    }
    hide Register, Incremented, NextCandidate;
  }

  lemma AcceptAnswers(c: Conn, s: StreamId)
    ensures DoAccept(c, s).1 ==
      if c.closed then Failed(ConnectionClosed) else if s == CONTROL_STREAM then Failed(InvalidStreamId)
      else if c.streamCount >= MAX_STREAMS then Failed(TooManyStreams)
      else if s in c.streams then Failed(StreamAlreadyExists(s))
      else if |c.queue| >= c.maxQueue then Failed(SendBufferFull) else Done
  {
    if !c.closed { RegisterAnswers(c, s, AckFrame(s), Done); }
    hide Register;
  }

  lemma DeliverAnswers(c: Conn, s: StreamId, payload: Payload)
    requires s in c.streams
    ensures DoDeliver(c, s, payload).1 ==
      if !c.streams[s].status.CanReceive() then Failed(StreamClosed(s))
      else if c.streams[s].buffered + |payload| > c.maxRecv then Failed(ReceiveBufferFull) else Done
  {
  }

  lemma SendAnswers(c: Conn, s: StreamId, data: Payload)
    ensures DoSend(c, s, data).1 ==
      if c.closed then Failed(ConnectionClosed) else if s !in c.streams then Failed(StreamNotFound(s))
      else if !c.streams[s].status.CanSend() then Failed(StreamClosed(s))
      else if |c.queue| >= c.maxQueue then Failed(SendBufferFull) else Done
  {
  }

  lemma RecvAnswers(c: Conn, s: StreamId)
    ensures DoRecv(c, s).1 ==
      if c.closed then Failed(ConnectionClosed) else if s !in c.streams then Failed(StreamNotFound(s))
      else if c.streams[s].status.Reset? then Failed(StreamError(s))
      else Received(if c.streams[s].received == [] then None else Some(c.streams[s].received[0]))
  {
    hide Taking;
  }

  lemma ForetoldRecv(h: History, s: StreamId)
    ensures h.ended ==> Foretold(h, Recv(s)) == Failed(ConnectionClosed)
    ensures !h.ended && s !in h.logs ==> Foretold(h, Recv(s)) == Failed(StreamNotFound(s))
    ensures !h.ended && s in h.logs && s in h.t.accepted && s in h.t.returned ==>
      var accepted, returned := h.t.accepted[s], h.t.returned[s];
      Foretold(h, Recv(s)) ==
        if WasReset(h.logs[s]) then Failed(StreamError(s))
        else Received(if |returned| < |accepted| then Some(accepted[|returned|]) else None)
  {
    hide WasReset, Exceeds, Arriving, Opening, Queueing;
  }

  lemma ForetoldSend(h: History, s: StreamId, data: Payload)
    ensures Foretold(h, Send(s, data)) ==
      if h.ended then Failed(ConnectionClosed)
      else if s !in h.logs then Failed(StreamNotFound(s))
      else if WasReset(h.logs[s]) || ClosedHere in h.logs[s] then Failed(StreamClosed(s))
      else Queueing(h, Done)
  {
    hide WasReset, Exceeds, Arriving, Opening, Queueing;
  }

  lemma OpenIsForetold(h: History)
    requires Told(h)
    ensures DoOpen(h.t.conn).1 == Foretold(h, OpenStream)
  {
    Agreement(h);
    OpenAnswers(h.t.conn);
    hide Told, NextCandidate, Candidate, WasReset, Exceeds, Arriving, DoOpen;
  }

  lemma AcceptIsForetold(h: History, s: StreamId)
    requires Told(h)
    ensures DoAccept(h.t.conn, s).1 == Foretold(h, AcceptStream(s))
  {
    Agreement(h);
    AcceptAnswers(h.t.conn, s);
    hide Told, NextCandidate, Candidate, WasReset, Exceeds, Arriving, DoAccept;
  }

  lemma ForetoldAccept(h: History, s: StreamId)
    requires !h.ended && s != CONTROL_STREAM
    ensures Foretold(h, AcceptStream(s)) == Opening(h, s, Done)
  {
    hide Opening, WasReset, Exceeds, Arriving;
  }

  lemma SendIsForetold(h: History, s: StreamId, data: Payload)
    requires Told(h)
    ensures DoSend(h.t.conn, s, data).1 == Foretold(h, Send(s, data))
  {
    Agreement(h);
    if s in h.logs { EntryAgrees(h, s); }
    SendAnswers(h.t.conn, s, data);
    ForetoldSend(h, s, data);
    hide Told, WasReset, Exceeds, DoSend, Foretold;
  }

  lemma RecvIsForetold(h: History, s: StreamId)
    requires Told(h)
    ensures DoRecv(h.t.conn, s).1 == Foretold(h, Recv(s))
  {
    Agreement(h);
    if s in h.logs { EntryAgrees(h, s); }
    RecvAnswers(h.t.conn, s);
    ForetoldRecv(h, s);
    hide Told, WasReset, Exceeds, DoRecv, Foretold;
  }

  lemma CloseIsForetold(h: History, s: StreamId)
    requires Told(h)
    ensures DoCloseStream(h.t.conn, s).1 == Foretold(h, CloseStream(s))
    ensures DoResetStream(h.t.conn, s).1 == Foretold(h, ResetStream(s))
  {
    Agreement(h);
    if s in h.logs { StreamsAreData(h, s); }
    CloseAnswers(h.t.conn, s);
    ForetoldClose(h, s);
    hide Told, DoCloseStream, DoResetStream, Foretold, Candidate, NextCandidate;
  }

  lemma ForetoldClose(h: History, s: StreamId)
    ensures Foretold(h, CloseStream(s)) == Foretold(h, ResetStream(s))
    ensures Foretold(h, CloseStream(s)) == if s !in h.logs then Failed(StreamNotFound(s)) else Queueing(h, Done)
  {
    hide Exceeds, WasReset, Arriving, Opening, Queueing;
  }

  lemma CloseAnswers(c: Conn, s: StreamId)
    ensures DoCloseStream(c, s).1 == DoResetStream(c, s).1
    ensures DoCloseStream(c, s).1 == if s !in c.streams then Failed(StreamNotFound(s)) else
        match QueueError(c) case Some(e) => Failed(e) case None => Done
  {
  }

  lemma FrameAnswers(c: Conn, header: Header, payload: Payload)
    requires !c.closed && header.streamId != CONTROL_STREAM && Arrives(ProcessFrame(header, payload), header.streamId)
    ensures var s, a := header.streamId, DoProcess(c, header, payload).1;
      if header.flags == SYN then a == DoAccept(c, s).1
      else if s !in c.streams then a == Announce(c, RstFrame(s)).1
      else if payload == [] then a == Done
      else a == DoDeliver(c, s, payload).1
  {
    FlagsOfShape(header, |payload|);
    hide Has, ValidShape, DoAccept, Announce, DoDeliver, SetStatus, ResetEntry, Remove;
  }

  lemma DataIsForetold(h: History, s: nat, payload: Payload)
    requires Told(h) && s in h.logs
    ensures s in h.t.conn.streams && DoDeliver(h.t.conn, s, payload).1 ==
      if WasReset(h.logs[s]) || PeerFin in h.logs[s] then Failed(StreamClosed(s))
      else if Exceeds(h, s, payload) then Failed(ReceiveBufferFull) else Done
  {
    Agreement(h);
    EntryAgrees(h, s);
    DeliverAnswers(h.t.conn, s, payload);
    hide Told, WasReset, Exceeds, DoDeliver, NextCandidate, Candidate;
  }

  lemma RstIsForetold(h: History, s: StreamId)
    requires Told(h) && !h.ended
    ensures Announce(h.t.conn, RstFrame(s)).1 == Queueing(h, Done)
  {
    Agreement(h);
    hide Told, NextCandidate, Candidate;
  }

  lemma ArrivingIsForetold(h: History, header: Header, payload: Payload)
    requires Told(h) && !h.ended && header.streamId != CONTROL_STREAM
    requires Arrives(ProcessFrame(header, payload), header.streamId)
    ensures DoProcess(h.t.conn, header, payload).1 == Arriving(h, header.streamId, header.flags, payload)
  {
    var s := header.streamId;
    Agreement(h);
    FrameAnswers(h.t.conn, header, payload);
    hide Told, Arrives, WasReset, DoAccept, Exceeds, Opening, DoProcess, DoDeliver, Announce, Foretold, Queueing;
    if header.flags == SYN {
      AcceptIsForetold(h, s);
      ForetoldAccept(h, s);
    } else if s in h.logs {
      DataIsForetold(h, s, payload);
    } else {
      RstIsForetold(h, s);
    }
  }

  lemma ForetoldFrame(h: History, header: Header, payload: Payload)
    ensures Foretold(h, ProcessFrame(header, payload)) ==
      if h.ended then Failed(ConnectionClosed)
      else if !Arrives(ProcessFrame(header, payload), header.streamId) then Failed(ProtocolError)
      else Arriving(h, header.streamId, header.flags, payload)
  {
    hide Arriving, Arrives, WasReset, Opening, Queueing, Exceeds;
  }

  lemma FrameIsRefused(c: Conn, header: Header, payload: Payload)
    ensures c.closed ==> DoProcess(c, header, payload).1 == Failed(ConnectionClosed)
    ensures !c.closed && !Arrives(ProcessFrame(header, payload), header.streamId) ==>
      DoProcess(c, header, payload).1 == Failed(ProtocolError)
    ensures !c.closed && header.streamId == CONTROL_STREAM && Arrives(ProcessFrame(header, payload), CONTROL_STREAM) ==>
      DoProcess(c, header, payload).1 == Done
  {
    hide ValidShape, Has;
  }

  lemma ProcessIsForetold(h: History, header: Header, payload: Payload)
    requires Told(h)
    ensures DoProcess(h.t.conn, header, payload).1 == Foretold(h, ProcessFrame(header, payload))
  {
    Agreement(h);
    ForetoldFrame(h, header, payload);
    FrameIsRefused(h.t.conn, header, payload);
    hide DoProcess, Told, Arrives, Foretold;
    if !h.ended && header.streamId != CONTROL_STREAM && Arrives(ProcessFrame(header, payload), header.streamId) {
      ArrivingIsForetold(h, header, payload);
      hide Arriving;
    }
  }

  /** The next call is answered as the history says. */
  lemma AnswerIsForetold(h: History, op: Op)
    requires Told(h)
    ensures Step(h.t.conn, op).1 == Foretold(h, op)
  {
    match op
    case OpenStream => OpenIsForetold(h); hide Foretold, DoOpen;
    case AcceptStream(s) => AcceptIsForetold(h, s); hide Foretold, DoAccept;
    case Send(s, data) => SendIsForetold(h, s, data); hide Foretold, DoSend;
    case Recv(s) => RecvIsForetold(h, s); hide Foretold, DoRecv;
    case CloseStream(s) => CloseIsForetold(h, s); hide Foretold, DoCloseStream;
    case ResetStream(s) => CloseIsForetold(h, s); hide Foretold, DoResetStream;
    case ProcessFrame(header, payload) => ProcessIsForetold(h, header, payload); hide Foretold, DoProcess;
    case _ =>
  }

  /** The queue afterwards. */
  function QueueAfter(h: History, op: Op, a: Answer): seq<Frame> {
    var q := h.t.conn.queue;
    match op
    case TakeFrame => if q == [] then [] else q[1..]
    case Rollback(s) => Without(q, s)
    case Close => []
    case _ => q + Announced(h, op, a)
  }

  lemma ProcessAnnounces(h: History, header: Header, payload: Payload)
    requires Told(h)
    ensures var (c, a) := DoProcess(h.t.conn, header, payload);
      c.queue == h.t.conn.queue + Announced(h, ProcessFrame(header, payload), a)
  {
    Agreement(h);
    if ValidShape(header, |payload|) { FlagsOfShape(header, |payload|); }
    hide Told, ValidShape, Has;
    FrameQueues(h.t.conn, header, payload);
    hide DoProcess;
  }

  lemma FrameQueues(c: Conn, header: Header, payload: Payload)
    ensures var (c', a) := DoProcess(c, header, payload);
      c'.queue == c.queue + if a.Failed? then [] else if header.flags == SYN then [AckFrame(header.streamId)]
                            else if header.streamId != CONTROL_STREAM && header.streamId !in c.streams
                            then [RstFrame(header.streamId)] else []
  {
    if ValidShape(header, |payload|) { FlagsOfShape(header, |payload|); }
    if header.streamId == CONTROL_STREAM { ShapeMeaning(header, |payload|); }
    hide ValidShape, Has;
  }

  lemma CallQueues(h: History, op: Op)
    requires Told(h) && (op.OpenStream? || op.AcceptStream? || op.Send? || op.Recv?)
    ensures Step(h.t.conn, op).0.queue == QueueAfter(h, op, Step(h.t.conn, op).1)
  {
    hide Told, Incremented, NextCandidate, Taking;
  }

  lemma CloseQueues(h: History, op: Op)
    requires Told(h) && (op.CloseStream? || op.ResetStream?)
    ensures Step(h.t.conn, op).0.queue == QueueAfter(h, op, Step(h.t.conn, op).1)
  {
    hide Told;
  }

  /** Every call queues exactly the frames that go with its answer. */
  lemma FramesAreAnnounced(h: History, op: Op)
    requires Told(h)
    ensures Step(h.t.conn, op).0.queue == QueueAfter(h, op, Step(h.t.conn, op).1)
  {
    if op.ProcessFrame? {
      ProcessAnnounces(h, op.header, op.payload);
      hide DoProcess, Told, Announced;
    } else if op.CloseStream? || op.ResetStream? {
      CloseQueues(h, op);
      hide *;
    } else if op.OpenStream? || op.AcceptStream? || op.Send? || op.Recv? {
      CallQueues(h, op);
      hide *;
    } else {
      hide Told, Without, Announced;
    }
  }

  /** A stream enters the table, fresh, exactly when its opening call or frame is answered so. */
  lemma EntersExactly(h: History, op: Op, s: nat)
    requires Told(h) && s !in h.logs
    ensures s in Next(h, op).logs <==>
      || (op.OpenStream? && Foretold(h, op) == Opened(s))
      || (op.AcceptStream? && op.id == s && Foretold(h, op) == Done)
      || (Arrives(op, s) && s != CONTROL_STREAM && op.header.flags == SYN && Foretold(h, op) == Done)
    ensures s in Next(h, op).logs ==> Next(h, op).logs[s] == [] && Step(h.t.conn, op).0.streams[s] == NewStream
  {
    AnswerIsForetold(h, op);
    Agreement(h);
    hide Told, Foretold;
    EntersTable(h.t.conn, op, s);
    hide Step, ValidShape;
  }

  lemma EntersTable(c: Conn, op: Op, s: nat)
    requires s !in c.streams
    ensures var (c', a) := Step(c, op);
      && (s in c'.streams <==>
            || (op.OpenStream? && a == Opened(s))
            || (op.AcceptStream? && op.id == s && a == Done)
            || (Arrives(op, s) && s != CONTROL_STREAM && op.header.flags == SYN && a == Done))
      && (s in c'.streams ==> c'.streams[s] == NewStream)
  {
    if op.ProcessFrame? && ValidShape(op.header, |op.payload|) { FlagsOfShape(op.header, |op.payload|); }
    hide ValidShape, Has, Without;
  }

  // ---- runs ----

  lemma {:induction false} AfterIsRun(h: History, ops: seq<Op>)
    ensures After(h, ops).t == RunFrom(h.t, ops)
    ensures After(h, ops).ended <==> h.ended || Close in ops
    ensures After(h, ops).maxQueue == h.maxQueue && After(h, ops).maxRecv == h.maxRecv
    decreases |ops|
  {
    if ops != [] {
      NextIsStep(h, ops[0]);
      AfterIsRun(Next(h, ops[0]), ops[1..]);
      assert ops == [ops[0]] + ops[1..];
      assert Close in ops <==> ops[0] == Close || Close in ops[1..];
      hide Next, TraceStep;
    }
  }

  /** In every run the statuses, the answers and the frames are those the history says: an entry is Reset exactly if it
      was reset here, by the peer or by an overflow; otherwise it can send exactly if it was not closed here and can
      receive exactly if the peer sent no FIN; the connection is closed exactly if `Close` was called. */
  lemma {:induction false} RunsAreForetold(maxQueue: nat, maxRecv: nat, ops: seq<Op>, op: Op)
    ensures var h := After(Begin(maxQueue, maxRecv), ops);
      var c := RunFrom(Start(maxQueue, maxRecv), ops).conn;
      && h.t.conn == c
      && h.logs.Keys == c.streams.Keys
      && (forall s :: s in h.logs ==>
            && (c.streams[s].status.Reset? <==> WasReset(h.logs[s]))
            && (WasReset(h.logs[s]) ==> c.streams[s].sent == [])
            && (!WasReset(h.logs[s]) ==>
                  && (c.streams[s].status.CanSend() <==> ClosedHere !in h.logs[s])
                  && (c.streams[s].status.CanReceive() <==> PeerFin !in h.logs[s])))
      && (c.closed <==> Close in ops)
      && Step(c, op).1 == Foretold(h, op)
      && Step(c, op).0.queue == QueueAfter(h, op, Foretold(h, op))
  {
    var h := After(Begin(maxQueue, maxRecv), ops);
    BeginIsTold(maxQueue, maxRecv);
    AfterIsTold(Begin(maxQueue, maxRecv), ops);
    AfterIsRun(Begin(maxQueue, maxRecv), ops);
    AnswerIsForetold(h, op);
    FramesAreAnnounced(h, op);
    assert forall s :: s in h.logs ==> EntryTold(h.t.conn.streams[s], h.logs[s]);
    hide Step, Foretold, QueueAfter, After, RunFrom, Inv;
  }

  lemma EndedAnswers(h: History, s: StreamId, data: Payload)
    requires s in h.logs && s != CONTROL_STREAM && data != [] && |data| < U32 && !h.ended
    requires s in h.t.accepted && s in h.t.returned
    requires Arrives(ProcessFrame(Header(s, NONE, 0, |data|), data), s)
    ensures PeerRst in h.logs[s] ==> Foretold(h, Send(s, data)) == Failed(StreamClosed(s))
    ensures PeerRst in h.logs[s] ==> Foretold(h, Recv(s)) == Failed(StreamError(s))
    ensures PeerRst in h.logs[s] || PeerFin in h.logs[s] ==>
      Foretold(h, ProcessFrame(Header(s, NONE, 0, |data|), data)) == Failed(StreamClosed(s))
  {
    hide Arrives, Exceeds, Opening;
  }

  // ---- what the peer makes of the frames ----

  /** A peer that knows nothing but the frame finds it well formed, unless its length does not fit 32 bits. */
  predicate Admitted(f: Frame) {
    Arrives(ProcessFrame(f.header, f.payload), f.header.streamId) <==> |f.payload| < U32
  }

  lemma AnnouncedIsAdmitted(h: History, op: Op, a: Answer, f: Frame)
    requires f in Announced(h, op, a) && f.header.streamId != CONTROL_STREAM
    ensures Admitted(f)
  {
    ShapeMeaning(f.header, |f.payload|);
    hide ValidShape;
  }

  lemma NextWireIsAdmitted(h: History, op: Op)
    requires Told(h) && forall f :: f in Wire(h.t) ==> Admitted(f)
    ensures forall f :: f in Wire(Next(h, op).t) ==> Admitted(f)
  {
    var a, t' := Step(h.t.conn, op).1, Next(h, op).t;
    WireComesFrom(h, op);
    NextKeepsTold(h, op);
    assert forall f :: f in Wire(t') ==> f.header.streamId != CONTROL_STREAM;
    hide Told, Step, Next, Wire, Announced, Admitted;
    forall f | f in Wire(t') ensures Admitted(f) {
      if f !in Wire(h.t) { AnnouncedIsAdmitted(h, op, a, f); }
    }
  }

  /** Nothing comes onto the wire but what a call announces. */
  lemma WireComesFrom(h: History, op: Op)
    requires Told(h)
    ensures forall f :: f in Wire(Next(h, op).t) ==> f in Wire(h.t) || f in Announced(h, op, Step(h.t.conn, op).1)
  {
    FramesAreAnnounced(h, op);
    if op.Rollback? { WithoutIsSubsequence(h.t.conn.queue, op.id); }
    TakenOnlyByTaking(h.t.conn, op);
    NextIsStep(h, op);
    TraceStepTakes(h.t, op);
    assert Next(h, op).t.taken == h.t.taken + TakenBy(Step(h.t.conn, op).1);
    hide Told, Step, Next, TraceStep, TakenBy, Announced, Without;
  }

  lemma TakenOnlyByTaking(c: Conn, op: Op)
    ensures TakenBy(Step(c, op).1) == if op.TakeFrame? && c.queue != [] then [c.queue[0]] else []
  {
    hide Without, ValidShape, Has;
  }

  lemma {:induction false} WireStaysAdmitted(h: History, ops: seq<Op>)
    requires Told(h) && forall f :: f in Wire(h.t) ==> Admitted(f)
    ensures forall f :: f in Wire(After(h, ops).t) ==> Admitted(f)
    decreases |ops|
  {
    hide Told, Admitted, Wire;
    if ops != [] {
      NextKeepsTold(h, ops[0]);
      NextWireIsAdmitted(h, ops[0]);
      WireStaysAdmitted(Next(h, ops[0]), ops[1..]);
    }
  }

  /** In every run the peer finds every frame on the wire well formed, exactly unless its payload has a length of more
      than 32 bits. */
  lemma {:induction false} WireIsAdmitted(maxQueue: nat, maxRecv: nat, ops: seq<Op>)
    ensures forall f :: f in Wire(RunFrom(Start(maxQueue, maxRecv), ops)) ==>
      (f.header.length == |f.payload| && ValidShape(f.header, |f.payload|) <==> |f.payload| < U32)
  {
    var h := Begin(maxQueue, maxRecv);
    BeginIsTold(maxQueue, maxRecv);
    WireStaysAdmitted(h, ops);
    AfterIsRun(h, ops);
    assert forall f :: f in Wire(After(h, ops).t) ==> Admitted(f);
    hide After, RunFrom, Wire, ValidShape;
  }

  /** Once the peer has reset a stream, every send fails as closed and every receive with the error of the stream, for
      as long as the entry stays; after a FIN of the peer its data is refused. */
  lemma {:induction false} PeerEndsStream(maxQueue: nat, maxRecv: nat, ops: seq<Op>, s: StreamId, data: Payload)
    requires var h := After(Begin(maxQueue, maxRecv), ops); s in h.logs && data != [] && |data| < U32
    ensures var h := After(Begin(maxQueue, maxRecv), ops);
      var frame := Frame(Header(s, NONE, 0, |data|), data);
      && (PeerRst in h.logs[s] ==>
            && Step(h.t.conn, Send(s, data)).1 == Failed(StreamClosed(s))
            && Step(h.t.conn, Recv(s)).1 == Failed(StreamError(s)))
      && (PeerRst in h.logs[s] || PeerFin in h.logs[s] ==>
            Step(h.t.conn, ProcessFrame(frame.header, frame.payload)).1 == Failed(StreamClosed(s)))
  {
    var h := After(Begin(maxQueue, maxRecv), ops);
    BeginIsTold(maxQueue, maxRecv);
    AfterIsTold(Begin(maxQueue, maxRecv), ops);
    EntryAgrees(h, s);
    AnswerIsForetold(h, Send(s, data));
    AnswerIsForetold(h, Recv(s));
    AnswerIsForetold(h, ProcessFrame(Header(s, NONE, 0, |data|), data));
    ShapeMeaning(Header(s, NONE, 0, |data|), |data|);
    assert Arrives(ProcessFrame(Header(s, NONE, 0, |data|), data), s);
    EndedAnswers(h, s, data);
    hide Step, After, Told, ValidShape, Exceeds, WasReset, Opening, Foretold;
  }

  /** An open connection answers a receive on a stream that was not reset with nothing exactly when everything accepted
      has been returned. */
  lemma {:induction false} ReceivesAllAccepted(maxQueue: nat, maxRecv: nat, ops: seq<Op>, s: StreamId)
    requires var h := After(Begin(maxQueue, maxRecv), ops); s in h.logs && !WasReset(h.logs[s])
    ensures var h := After(Begin(maxQueue, maxRecv), ops);
      && s in h.t.accepted && s in h.t.returned
      && h.t.returned[s] <= h.t.accepted[s]
      && Step(h.t.conn, Recv(s)).1.Received?
      && (Step(h.t.conn, Recv(s)).1 == Received(None) <==> h.t.accepted[s] == h.t.returned[s])
  {
    var h := After(Begin(maxQueue, maxRecv), ops);
    BeginIsTold(maxQueue, maxRecv);
    AfterIsTold(Begin(maxQueue, maxRecv), ops);
    EntryAgrees(h, s);
    AnswerIsForetold(h, Recv(s));
    var accepted, returned := h.t.accepted[s], h.t.returned[s];
    ForetoldRecv(h, s);
    hide Step, After, Told, WasReset, Exceeds, Foretold;
  }
}
