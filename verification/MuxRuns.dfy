/** What every run of calls on a multiplexed connection keeps. The wire trace of a run is the frames taken
    plus the frames still queued. */
module MuxRuns {
  import opened Bits
  import opened Errors
  import opened MuxFrames
  import opened MuxSpec

  // ---- the wire trace ----

  predicate IsData(f: Frame) { f.header.flags == NONE }
  predicate IsOpener(f: Frame) { f.header.flags == SYN || f.header.flags == ACK }

  /** The last frame of stream `s` that is not data is an opener: the stream is open on the wire. */
  predicate Live(w: seq<Frame>, s: nat) {
    w != [] &&
    var f, before := w[|w| - 1], w[..|w| - 1];
    if f.header.streamId != s || IsData(f) then Live(before, s) else IsOpener(f)
  }

  /** Every data frame was put on the wire while its stream was open there. */
  predicate WellOrdered(w: seq<Frame>) {
    w != [] ==>
      && WellOrdered(w[..|w| - 1])
      && (IsData(w[|w| - 1]) ==> Live(w[..|w| - 1], w[|w| - 1].header.streamId))
  }

  /** Stream `s` has been opened on the wire at least once. */
  predicate EverOpened(w: seq<Frame>, s: nat) {
    exists i :: 0 <= i < |w| && w[i].header.streamId == s && IsOpener(w[i])
  }

  /** The payloads put on the wire for `s` since it was last opened. */
  function DataSince(w: seq<Frame>, s: nat): seq<Payload> {
    if w == [] then [] else
      var f, before := w[|w| - 1], w[..|w| - 1];
      if f.header.streamId != s then DataSince(before, s)
      else if IsOpener(f) then []
      else if IsData(f) then DataSince(before, s) + [f.payload]
      else DataSince(before, s)
  }

  /** Stream `s` is opened at `k` and only data of `s` follows up to `end`. */
  ghost predicate OpenFrom(w: seq<Frame>, s: nat, k: nat, end: nat) {
    && k < end <= |w|
    && w[k].header.streamId == s && IsOpener(w[k])
    && forall m :: k < m < end && w[m].header.streamId == s ==> IsData(w[m])
  }

  /** The declarative reading of `WellOrdered`: behind every data frame there is an opener of its stream with
      no FIN and no RST of that stream in between. */
  ghost predicate OpenedBefore(w: seq<Frame>, i: nat)
    requires i < |w|
  {
    exists k :: OpenFrom(w, w[i].header.streamId, k, i)
  }

  lemma OpenFromPrefix(w: seq<Frame>, s: nat, k: nat, end: nat, n: nat)
    requires end <= n <= |w|
    ensures OpenFrom(w[..n], s, k, end) <==> OpenFrom(w, s, k, end)
  {
    assert forall m :: 0 <= m < n ==> w[..n][m] == w[m];
  }

  lemma {:induction false} LiveMeans(w: seq<Frame>, s: nat)
    ensures Live(w, s) <==> exists k :: OpenFrom(w, s, k, |w|)
    decreases |w|
  {
    if w != [] {
      var last := |w| - 1;
      var f, before := w[last], w[..last];
      LiveMeans(before, s);
      if f.header.streamId != s || IsData(f) {
        if Live(before, s) {
          var k :| OpenFrom(before, s, k, last);
          OpenFromPrefix(w, s, k, last, last);
          assert OpenFrom(w, s, k, |w|);
        }
        if exists k :: OpenFrom(w, s, k, |w|) {
          var k :| OpenFrom(w, s, k, |w|);
          assert OpenFrom(w, s, k, last);
          OpenFromPrefix(w, s, k, last, last);
        }
      } else if IsOpener(f) {
        assert OpenFrom(w, s, last, |w|);
      }
    }
  }

  lemma {:induction false} WellOrderedMeans(w: seq<Frame>)
    ensures WellOrdered(w) <==> forall i :: 0 <= i < |w| && IsData(w[i]) ==> OpenedBefore(w, i)
    decreases |w|
  {
    if w != [] {
      var last := |w| - 1;
      var before := w[..last];
      hide OpenedBefore, OpenFrom, Live, IsData;
      WellOrderedMeans(before);
      forall i | 0 <= i < last ensures before[i] == w[i] && (OpenedBefore(w, i) <==> OpenedBefore(before, i)) {
        OpenedInPrefix(w, i, last);
      }
      OpenedMeansLive(w);
    }
  }

  lemma OpenedInPrefix(w: seq<Frame>, i: nat, n: nat)
    requires i < n <= |w|
    ensures OpenedBefore(w, i) <==> OpenedBefore(w[..n], i)
  {
    hide OpenFrom;
    forall k: nat ensures OpenFrom(w, w[i].header.streamId, k, i) <==> OpenFrom(w[..n], w[i].header.streamId, k, i) {
      OpenFromPrefix(w, w[i].header.streamId, k, i, n);
    }
  }

  lemma OpenedMeansLive(w: seq<Frame>)
    requires w != []
    ensures OpenedBefore(w, |w| - 1) <==> Live(w[..|w| - 1], w[|w| - 1].header.streamId)
  {
    hide OpenFrom, Live;
    var last := |w| - 1;
    var s := w[last].header.streamId;
    LiveMeans(w[..last], s);
    forall k: nat ensures OpenFrom(w, s, k, last) <==> OpenFrom(w[..last], s, k, last) {
      OpenFromPrefix(w, s, k, last, last);
    }
  }

  // ---- the run ----

  /** The connection, the frames taken from it, and per table entry the payloads accepted from the peer and
      those handed to the application since the entry was created. */
  datatype Trace = Trace(conn: Conn, taken: seq<Frame>,
                         accepted: map<nat, seq<Payload>>, returned: map<nat, seq<Payload>>)

  function Wire(t: Trace): seq<Frame> {
    t.taken + t.conn.queue
  }

  function Start(maxQueue: nat, maxRecv: nat): Trace {
    Trace(New(maxQueue, maxRecv), [], map[], map[])
  }

  function AcceptedBy(op: Op, a: Answer, s: nat): seq<Payload> {
    if op.ProcessFrame? && op.header.streamId == s && a == Done && op.payload != [] then [op.payload] else []
  }

  function ReturnedBy(op: Op, a: Answer, s: nat): seq<Payload> {
    if op.Recv? && op.id == s && a.Received? && a.payload.Some? then [a.payload.value] else []
  }

  function Extend(log: map<nat, seq<Payload>>, c: Conn, c': Conn, more: nat -> seq<Payload>): map<nat, seq<Payload>> {
    map s | s in c'.streams :: if s in c.streams && s in log then log[s] + more(s) else []
  }

  function TakenBy(a: Answer): seq<Frame> {
    if a.Taken? && a.frame.Some? then [a.frame.value] else []
  }

  function TraceStep(t: Trace, op: Op): Trace {
    var (c, a) := Step(t.conn, op);
    Trace(c, t.taken + TakenBy(a),
          Extend(t.accepted, t.conn, c, s => AcceptedBy(op, a, s)),
          Extend(t.returned, t.conn, c, s => ReturnedBy(op, a, s)))
  }

  function RunFrom(t: Trace, ops: seq<Op>): Trace
    decreases |ops|
  {
    if ops == [] then t else RunFrom(TraceStep(t, ops[0]), ops[1..])
  }

  // ---- the invariant ----

  function TotalLen(ps: seq<Payload>): nat {
    if ps == [] then 0 else |ps[0]| + TotalLen(ps[1..])
  }

  lemma {:induction false} TotalLenAppend(ps: seq<Payload>, p: Payload)
    ensures TotalLen(ps + [p]) == TotalLen(ps) + |p|
  {
    if ps == [] {
      assert ps + [p] == [p];
    } else {
      TotalLenAppend(ps[1..], p);
      assert (ps + [p])[1..] == ps[1..] + [p];
    }
  }

  /** Accounting: the counter is the table size, identifiers are data stream identifiers, the queue and the
      unread bytes are within their limits, and a closed connection is empty. */
  ghost predicate Accounted(c: Conn) {
    && c.streamCount == |c.streams|
    && (forall s :: s in c.streams ==> 1 <= s <= MAX_STREAMS && BufferOk(c, c.streams[s]))
    && |c.queue| <= c.maxQueue
    && (c.closed ==> c.streams == map[] && c.queue == [])
  }

  ghost predicate BufferOk(c: Conn, s: Stream) {
    s.buffered == TotalLen(s.received) <= c.maxRecv
  }

  /** The wire carries no frame of the control stream, is well ordered, and agrees with the table. */
  ghost predicate OnWire(streams: map<nat, Stream>, w: seq<Frame>) {
    && WellOrdered(w)
    && (forall f :: f in w ==> f.header.streamId != CONTROL_STREAM)
    && forall s :: s in streams ==> StreamOnWire(streams[s], w, s)
  }

  ghost predicate StreamOnWire(x: Stream, w: seq<Frame>, s: nat) {
    && EverOpened(w, s)
    && (x.status.CanSend() ==> Live(w, s))
    && (!x.status.Reset? ==> x.sent == DataSince(w, s))
  }

  ghost predicate Delivered(t: Trace) {
    && t.accepted.Keys == t.returned.Keys == t.conn.streams.Keys
    && forall s :: s in t.conn.streams ==> t.accepted[s] == t.returned[s] + t.conn.streams[s].received
  }

  ghost predicate Inv(t: Trace) {
    Accounted(t.conn) && WireOk(t.conn, t.taken) && Delivered(t)
  }

  // ---- how the wire changes ----

  lemma {:induction false} WireAppend(w: seq<Frame>, f: Frame, s: nat)
    ensures Live(w + [f], s) ==
      if f.header.streamId != s || IsData(f) then Live(w, s) else IsOpener(f)
    ensures DataSince(w + [f], s) ==
      if f.header.streamId != s then DataSince(w, s)
      else if IsOpener(f) then []
      else if IsData(f) then DataSince(w, s) + [f.payload] else DataSince(w, s)
    ensures WellOrdered(w + [f]) <==> WellOrdered(w) && (IsData(f) ==> Live(w, f.header.streamId))
    ensures EverOpened(w, s) || (f.header.streamId == s && IsOpener(f)) ==> EverOpened(w + [f], s)
  {
    assert (w + [f])[..|w|] == w;
    if i :| 0 <= i < |w| && w[i].header.streamId == s && IsOpener(w[i]) { assert (w + [f])[i] == w[i]; }
    if f.header.streamId == s && IsOpener(f) { assert (w + [f])[|w|] == f; }
  }

  lemma {:induction false} WellOrderedPrefix(w: seq<Frame>, n: nat)
    requires n <= |w| && WellOrdered(w)
    ensures WellOrdered(w[..n])
    decreases |w|
  {
    if n < |w| {
      WellOrderedPrefix(w[..|w| - 1], n);
      assert w[..|w| - 1][..n] == w[..n];
    } else {
      assert w[..n] == w;
    }
  }

  /** Removing the queued frames of one stream leaves every other stream's wire as it was. */
  lemma {:induction false} WithoutKeepsOthers(taken: seq<Frame>, q: seq<Frame>, id: nat, s: nat)
    requires s != id
    ensures Live(taken + Without(q, id), s) == Live(taken + q, s)
    ensures DataSince(taken + Without(q, id), s) == DataSince(taken + q, s)
    ensures EverOpened(taken + q, s) ==> EverOpened(taken + Without(q, id), s)
    decreases |q|
  {
    if q != [] {
      hide Live, DataSince, EverOpened;
      var f, before := q[|q| - 1], q[..|q| - 1];
      WithoutKeepsOthers(taken, before, id, s);
      SnocAssoc(taken, q);
      WireAppend(taken + before, f, s);
      if EverOpened(taken + q, s) { EverOpenedSnoc(taken + before, f, s); }
      WithoutSnoc(q, id);
      hide Without;
      if f.header.streamId != id {
        WireAppend(taken + Without(before, id), f, s);
        ConcatAssoc(taken, Without(before, id), [f]);
      }
    }
  }

  lemma {:induction false} WithoutSnoc(q: seq<Frame>, id: nat)
    requires q != []
    ensures var f, before := q[|q| - 1], Without(q[..|q| - 1], id);
      Without(q, id) == if f.header.streamId != id then before + [f] else before
  {
  }

  lemma EverOpenedSnoc(w: seq<Frame>, f: Frame, s: nat)
    requires EverOpened(w + [f], s)
    ensures EverOpened(w, s) || (f.header.streamId == s && IsOpener(f))
  {
    var i :| 0 <= i < |w + [f]| && (w + [f])[i].header.streamId == s && IsOpener((w + [f])[i]);
    if i < |w| { assert w[i] == (w + [f])[i]; }
  }

  lemma {:induction false} WithoutKeepsOrder(taken: seq<Frame>, q: seq<Frame>, id: nat)
    requires WellOrdered(taken + q)
    ensures WellOrdered(taken + Without(q, id))
    decreases |q|
  {
    if q != [] {
      var f, before := q[|q| - 1], q[..|q| - 1];
      assert taken + q == (taken + before) + [f];
      WireAppend(taken + before, f, f.header.streamId);
      WithoutKeepsOrder(taken, before, id);
      if f.header.streamId != id {
        WithoutKeepsOthers(taken, before, id, f.header.streamId);
        WireAppend(taken + Without(before, id), f, f.header.streamId);
        assert taken + Without(q, id) == (taken + Without(before, id)) + [f];
      } else {
        assert Without(q, id) == Without(before, id);
      }
    }
  }

  lemma {:induction false} WithoutIsSubsequence(q: seq<Frame>, id: nat)
    ensures |Without(q, id)| <= |q|
    ensures forall f :: f in Without(q, id) <==> f in q && f.header.streamId != id
    decreases |q|
  {
    if q != [] {
      WithoutIsSubsequence(q[..|q| - 1], id);
      assert q == q[..|q| - 1] + [q[|q| - 1]];
    }
  }

  /** With `WithoutIsSubsequence`: the frames of the other streams, in their order. */
  lemma {:induction false} WithoutIsFilter(a: seq<Frame>, b: seq<Frame>, id: nat)
    ensures Without(a + b, id) == Without(a, id) + Without(b, id)
    decreases |b|
  {
    if b == [] {
      assert a + b == a;
    } else {
      var f, before := b[|b| - 1], b[..|b| - 1];
      assert a + b == a + before + [f];
      WithoutIsFilter(a, before, id);
      WithoutSnoc(a + b, id);
      assert (a + b)[..|a + b| - 1] == a + before;
      WithoutSnoc(b, id);
      hide Without;
    }
  }

  // ---- one step ----

  /** The one stream a call may touch. */
  function Touched(c: Conn, op: Op): nat {
    match op
    case OpenStream => NextCandidate(c)
    case AcceptStream(id) => id
    case Send(id, _) => id
    case Recv(id) => id
    case CloseStream(id) => id
    case ResetStream(id) => id
    case ProcessFrame(h, _) => h.streamId
    case Rollback(id) => id
    case _ => CONTROL_STREAM
  }

  predicate IsLocal(op: Op) {
    !op.TakeFrame? && !op.Rollback? && !op.Close?
  }

  /** A call changes at most the entry `id` and queues at most one frame, of that stream; how the entry may
      change depends on the frame. */
  ghost predicate LocalStep(c: Conn, c': Conn, id: nat) {
    && (forall t :: t in c'.streams && t != id ==> t in c.streams && c'.streams[t] == c.streams[t])
    && (|c'.queue| == |c.queue| || |c'.queue| == |c.queue| + 1)
    && c'.queue[..|c.queue|] == c.queue
    && if |c'.queue| == |c.queue| then
         id in c'.streams ==> id in c.streams && EntryKept(c.streams[id], c'.streams[id])
       else
         var f := c'.queue[|c.queue|];
         && f.header.streamId == id != CONTROL_STREAM
         && if IsOpener(f) then id in c'.streams ==> c'.streams[id] == NewStream
            else if IsData(f) then
              && id in c.streams && c.streams[id].status.CanSend() && id in c'.streams
              && c'.streams[id] == c.streams[id].(sent := c.streams[id].sent + [f.payload])
            else
              id in c'.streams ==> id in c.streams && EntryKept(c.streams[id], c'.streams[id])
                                   && !c'.streams[id].status.CanSend()
  }

  predicate EntryKept(x: Stream, y: Stream) {
    && (y.status.CanSend() ==> x.status.CanSend())
    && (y.status.Reset? || (!x.status.Reset? && y.sent == x.sent))
  }

  lemma RegisterIsLocal(c: Conn, c0: Conn, id: StreamId, opener: Frame, ok: Answer)
    requires c == c0.(nextId := c.nextId) && id != CONTROL_STREAM && opener.header.streamId == id && IsOpener(opener)
    ensures LocalStep(c0, Register(c, id, opener, ok).0, id)
  {
  }

  lemma AnnounceIsLocal(c: Conn, c': Conn, f: Frame)
    requires c' == c.(streams := c'.streams) && LocalStep(c, c', f.header.streamId)
    requires f.header.streamId != CONTROL_STREAM && !IsData(f) && !IsOpener(f)
    requires f.header.streamId in c'.streams ==> !c'.streams[f.header.streamId].status.CanSend()
    ensures LocalStep(c, Announce(c', f).0, f.header.streamId)
  {
  }

  lemma ProcessIsLocal(c: Conn, h: Header, payload: Payload)
    ensures LocalStep(c, DoProcess(c, h, payload).0, h.streamId)
  {
    if h.streamId != CONTROL_STREAM && !c.closed {
      if Has(h.flags, SYN) {
        RegisterIsLocal(c, c, h.streamId, AckFrame(h.streamId), Done);
      } else if h.streamId !in c.streams {
        AnnounceIsLocal(c, c, RstFrame(h.streamId));
      }
    }
  }

  lemma OpIsLocal(c: Conn, op: Op)
    requires Accounted(c) && IsLocal(op)
    ensures LocalStep(c, Step(c, op).0, Touched(c, op))
  {
    hide LocalStep;
    match op
    case OpenStream => OpenIsLocal(c);
    case AcceptStream(id) => AcceptIsLocal(c, id);
    case CloseStream(id) => CloseIsLocal(c, id);
    case ResetStream(id) => ResetIsLocal(c, id);
    case ProcessFrame(h, payload) => ProcessIsLocal(c, h, payload);
    case Send(id, data) => SendIsLocal(c, id, data);
    case Recv(id) => RecvIsLocal(c, id);
  }

  lemma NothingIsLocal(c: Conn, id: nat)
    ensures LocalStep(c, c, id)
  {
  }

  lemma OpenIsLocal(c: Conn)
    ensures LocalStep(c, DoOpen(c).0, NextCandidate(c))
  {
    hide LocalStep, Register;
    var id := NextCandidate(c);
    NothingIsLocal(c, id);
    RegisterIsLocal(c.(nextId := Incremented(id)), c, id, Syn(id), Opened(id));
  }

  lemma AcceptIsLocal(c: Conn, id: StreamId)
    ensures LocalStep(c, DoAccept(c, id).0, id)
  {
    hide LocalStep, Register;
    NothingIsLocal(c, id);
    if id != CONTROL_STREAM { RegisterIsLocal(c, c, id, AckFrame(id), Done); }
  }

  lemma CloseIsLocal(c: Conn, id: StreamId)
    requires Accounted(c)
    ensures LocalStep(c, DoCloseStream(c, id).0, id)
  {
    NothingIsLocal(c, id);
    if id in c.streams { AnnounceIsLocal(c, SetStatus(c, id, c.streams[id].status.CloseLocal()), FinFrame(id)); }
  }

  lemma ResetIsLocal(c: Conn, id: StreamId)
    requires Accounted(c)
    ensures LocalStep(c, DoResetStream(c, id).0, id)
  {
    NothingIsLocal(c, id);
    if id in c.streams { AnnounceIsLocal(c, ResetEntry(c, id), RstFrame(id)); }
  }

  lemma SendIsLocal(c: Conn, id: StreamId, data: Payload)
    requires Accounted(c)
    ensures LocalStep(c, DoSend(c, id, data).0, id)
  {
  }

  lemma RecvIsLocal(c: Conn, id: StreamId)
    requires Accounted(c)
    ensures LocalStep(c, DoRecv(c, id).0, id)
  {
  }

  /** A local step keeps the wire invariant: `w` is the wire before it. */
  lemma LocalStepKeepsWire(c: Conn, c': Conn, id: nat, w: seq<Frame>)
    requires LocalStep(c, c', id) && OnWire(c.streams, w)
    ensures OnWire(c'.streams, w + c'.queue[|c.queue|..])
  {
    hide Live, DataSince, EverOpened, WellOrdered;
    if |c'.queue| == |c.queue| {
      assert w + c'.queue[|c.queue|..] == w;
      if id in c'.streams { assert StreamOnWire(c.streams[id], w, id); }
    } else {
      var f := c'.queue[|c.queue|];
      assert c'.queue[|c.queue|..] == [f];
      WireAppend(w, f, id);
      if id in c'.streams { OwnFrameKeepsWire(c, c', id, w, f); }
      forall s | s in c'.streams && s != id ensures StreamOnWire(c'.streams[s], w + [f], s) {
        assert StreamOnWire(c.streams[s], w, s);
        WireAppend(w, f, s);
      }
      hide StreamOnWire;
      assert forall g :: g in w + [f] ==> g in w || g == f;
      assert IsData(f) ==> StreamOnWire(c.streams[id], w, id);
      if IsData(f) { DataNeedsLive(c.streams[id], w, id); }
    }
  }

  lemma {:induction false} DataNeedsLive(x: Stream, w: seq<Frame>, s: nat)
    requires StreamOnWire(x, w, s) && x.status.CanSend()
    ensures Live(w, s)
  {
  }

  lemma OwnFrameKeepsWire(c: Conn, c': Conn, id: nat, w: seq<Frame>, f: Frame)
    requires LocalStep(c, c', id) && OnWire(c.streams, w) && id in c'.streams
    requires |c'.queue| == |c.queue| + 1 && f == c'.queue[|c.queue|]
    ensures StreamOnWire(c'.streams[id], w + [f], id)
  {
    hide Live, DataSince, EverOpened, WellOrdered;
    if id in c.streams { assert StreamOnWire(c.streams[id], w, id); }
    WireAppend(w, f, id);
  }

  lemma {:induction false} RollbackKeepsWire(streams: map<nat, Stream>, streams': map<nat, Stream>, id: nat,
                          taken: seq<Frame>, q: seq<Frame>)
    requires OnWire(streams, taken + q) && streams' == streams - {id}
    ensures OnWire(streams', taken + Without(q, id))
  {
    WithoutIsSubsequence(q, id);
    WithoutKeepsOrder(taken, q, id);
    forall s | s in streams' ensures StreamOnWire(streams'[s], taken + Without(q, id), s) {
      assert StreamOnWire(streams[s], taken + q, s);
      WithoutKeepsOthers(taken, q, id, s);
    }
  }

  ghost predicate WireOk(c: Conn, taken: seq<Frame>) {
    OnWire(c.streams, taken + c.queue)
  }

  lemma StepKeepsWire(c: Conn, op: Op, taken: seq<Frame>)
    requires Accounted(c) && WireOk(c, taken)
    ensures WireOk(Step(c, op).0, taken + TakenBy(Step(c, op).1))
  {
    if IsLocal(op) {
      LocalOpKeepsWire(c, op, taken);
    } else if op.TakeFrame? {
      TakeKeepsWire(c, taken);
    } else {
      assert taken + [] == taken;
      if op.Rollback? {
        RemoveKeepsAccounts(c, op.id);
        RollbackKeepsWire(c.streams, DoRollback(c, op.id).streams, op.id, taken, c.queue);
      } else {
        CloseKeepsWire(c, taken);
      }
    }
  }

  lemma CloseKeepsWire(c: Conn, taken: seq<Frame>)
    requires WireOk(c, taken)
    ensures WireOk(DoClose(c), taken)
  {
    WellOrderedPrefix(taken + c.queue, |taken|);
    assert (taken + c.queue)[..|taken|] == taken == taken + [];
  }

  lemma TakeKeepsWire(c: Conn, taken: seq<Frame>)
    requires WireOk(c, taken)
    ensures WireOk(DoTake(c).0, taken + TakenBy(DoTake(c).1))
  {
    var (c', a) := DoTake(c);
    assert taken + TakenBy(a) + c'.queue == taken + c.queue;
  }

  lemma LocalOpKeepsWire(c: Conn, op: Op, taken: seq<Frame>)
    requires Accounted(c) && IsLocal(op) && WireOk(c, taken)
    ensures WireOk(Step(c, op).0, taken + TakenBy(Step(c, op).1))
  {
    hide Step, OnWire, Touched;
    var c' := Step(c, op).0;
    OpIsLocal(c, op);
    QueueOnlyGrows(c, c', Touched(c, op));
    LocalStepKeepsWire(c, c', Touched(c, op), taken + c.queue);
    LocalTakesNothing(c, op);
    assert taken + [] == taken;
    assert taken + c'.queue == taken + c.queue + c'.queue[|c.queue|..];
  }

  lemma QueueOnlyGrows(c: Conn, c': Conn, id: nat)
    requires LocalStep(c, c', id)
    ensures |c.queue| <= |c'.queue| && c'.queue[..|c.queue|] == c.queue
  {
  }

  lemma LocalTakesNothing(c: Conn, op: Op)
    requires IsLocal(op)
    ensures TakenBy(Step(c, op).1) == []
  {
  }

  // ---- accounting ----

  lemma RemoveKeepsAccounts(c: Conn, id: nat)
    requires Accounted(c)
    ensures Accounted(Remove(c, id))
    ensures Remove(c, id).streams == c.streams - {id}
  {
    if id in c.streams {
      assert Remove(c, id).streams.Keys == c.streams.Keys - {id};
    }
  }

  lemma UpdateKeepsAccounts(c: Conn, id: nat, s: Stream)
    requires Accounted(c) && id in c.streams && BufferOk(c, s)
    ensures Accounted(c.(streams := c.streams[id := s]))
  {
    assert c.streams[id := s].Keys == c.streams.Keys;
  }

  lemma RegisterKeepsAccounts(c: Conn, id: StreamId, opener: Frame, ok: Answer)
    requires Accounted(c) && id != CONTROL_STREAM
    ensures Accounted(Register(c, id, opener, ok).0)
  {
    assert id !in c.streams ==> c.streams[id := NewStream].Keys == c.streams.Keys + {id};
  }

  lemma ProcessKeepsAccounts(c: Conn, h: Header, payload: Payload)
    requires Accounted(c)
    ensures Accounted(DoProcess(c, h, payload).0)
  {
    var id := h.streamId;
    if c.closed || id == CONTROL_STREAM {
    } else if id !in c.streams {
      RegisterKeepsAccounts(c, id, AckFrame(id), Done);
    } else {
      var s := c.streams[id];
      assert BufferOk(c, s);
      RemoveKeepsAccounts(c, id);
      UpdateKeepsAccounts(c, id, s.(status := Reset, sent := []));
      UpdateKeepsAccounts(c, id, s.(status := s.status.CloseRemote()));
      TotalLenAppend(s.received, payload);
      if s.buffered + |payload| <= c.maxRecv {
        UpdateKeepsAccounts(c, id, s.(received := s.received + [payload], buffered := s.buffered + |payload|));
      }
    }
  }

  lemma StepKeepsAccounts(c: Conn, op: Op)
    requires Accounted(c)
    ensures Accounted(Step(c, op).0)
  {
    hide Register, DoProcess, DoSend, DoRecv, DoCloseStream, DoResetStream, TotalLen;
    match op
    case OpenStream =>
      var id := NextCandidate(c);
      RegisterKeepsAccounts(c.(nextId := Incremented(id)), id, Syn(id), Opened(id));
    case AcceptStream(id) => if id != CONTROL_STREAM { RegisterKeepsAccounts(c, id, AckFrame(id), Done); }
    case ProcessFrame(h, payload) => ProcessKeepsAccounts(c, h, payload);
    case Rollback(id) =>
      RemoveKeepsAccounts(c, id);
      WithoutIsSubsequence(c.queue, id);
    case Close =>
    case TakeFrame =>
    case Send(id, data) => EntryOpKeepsAccounts(c, op, id);
    case Recv(id) => EntryOpKeepsAccounts(c, op, id);
    case CloseStream(id) => EntryOpKeepsAccounts(c, op, id);
    case ResetStream(id) => EntryOpKeepsAccounts(c, op, id);
  }

  lemma EntryOpKeepsAccounts(c: Conn, op: Op, id: StreamId)
    requires Accounted(c) && (op.Send? || op.Recv? || op.CloseStream? || op.ResetStream?) && op.id == id
    ensures Accounted(Step(c, op).0)
  {
    if id in c.streams {
      var s := c.streams[id];
      assert BufferOk(c, s);
      match op
      case Send(_, data) => UpdateKeepsAccounts(c, id, s.(sent := s.sent + [data]));
      case Recv(_) => if s.received != [] { UpdateKeepsAccounts(c, id, Taking(s)); }
      case CloseStream(_) => UpdateKeepsAccounts(c, id, s.(status := s.status.CloseLocal()));
      case ResetStream(_) => UpdateKeepsAccounts(c, id, s.(status := Reset, sent := []));
    }
  }

  /** Payloads move through the receive buffer in order: what was there, plus what the step accepted, is what
      the step returned plus what is there now; a new entry starts empty. */
  lemma StepDelivers(c: Conn, op: Op, s: nat)
    requires Accounted(c)
    ensures var (c', a) := Step(c, op);
      s in c'.streams ==>
        if s in c.streams
        then c.streams[s].received + AcceptedBy(op, a, s) == ReturnedBy(op, a, s) + c'.streams[s].received
        else c'.streams[s].received == []
  {
    hide DoProcess, Without, TotalLen, BufferOk;
    match op
    case ProcessFrame(h, payload) => ProcessDelivers(c, h, payload, s);
    case OpenStream =>
    case _ =>
  }

  lemma ProcessDelivers(c: Conn, h: Header, payload: Payload, s: nat)
    ensures var (c', a) := DoProcess(c, h, payload);
      s in c'.streams ==>
        if s in c.streams
        then c.streams[s].received + AcceptedBy(ProcessFrame(h, payload), a, s) == c'.streams[s].received
        else c'.streams[s].received == []
  {
    ShapeMeaning(h, |payload|);
    assert And(NONE, SYN) == 0 && And(NONE, RST) == 0 && And(NONE, FIN) == 0;
  }

  lemma ExtendedLogsAgree(t: Trace, c: Conn, more: nat -> seq<Payload>, less: nat -> seq<Payload>)
    requires Delivered(t)
    requires forall s :: s in c.streams ==>
      if s in t.conn.streams then t.conn.streams[s].received + more(s) == less(s) + c.streams[s].received
      else c.streams[s].received == []
    ensures forall s :: s in c.streams ==>
      Extend(t.accepted, t.conn, c, more)[s] == Extend(t.returned, t.conn, c, less)[s] + c.streams[s].received
  {
    forall s | s in c.streams
      ensures Extend(t.accepted, t.conn, c, more)[s] == Extend(t.returned, t.conn, c, less)[s] + c.streams[s].received
    {
      if s in t.conn.streams {
        SeqSplit(t.returned[s], t.conn.streams[s].received, more(s), less(s), c.streams[s].received);
      }
    }
  }

  lemma SeqSplit(r: seq<Payload>, was: seq<Payload>, more: seq<Payload>, less: seq<Payload>, now: seq<Payload>)
    requires was + more == less + now
    ensures r + was + more == r + less + now
  {
    assert r + was + more == r + (was + more);
    assert r + less + now == r + (less + now);
  }

  lemma StepKeepsDelivered(t: Trace, op: Op)
    requires Accounted(t.conn) && Delivered(t)
    ensures Delivered(TraceStep(t, op))
  {
    hide Step, AcceptedBy, ReturnedBy, TotalLen, BufferOk;
    var (c, a) := Step(t.conn, op);
    forall s | s in c.streams
      ensures if s in t.conn.streams
        then t.conn.streams[s].received + AcceptedBy(op, a, s) == ReturnedBy(op, a, s) + c.streams[s].received
        else c.streams[s].received == []
    {
      StepDelivers(t.conn, op, s);
    }
    ExtendedLogsAgree(t, c, s => AcceptedBy(op, a, s), s => ReturnedBy(op, a, s));
  }

  lemma StepKeepsInv(t: Trace, op: Op)
    requires Inv(t)
    ensures Inv(TraceStep(t, op))
  {
    StepKeepsAccounts(t.conn, op);
    StepKeepsWire(t.conn, op, t.taken);
    StepKeepsDelivered(t, op);
  }

  lemma {:induction false} RunKeepsInv(t: Trace, ops: seq<Op>)
    requires Inv(t)
    ensures Inv(RunFrom(t, ops))
    decreases |ops|
  {
    if ops != [] {
      StepKeepsInv(t, ops[0]);
      RunKeepsInv(TraceStep(t, ops[0]), ops[1..]);
    }
  }

  /** Safety of every run: on the wire every data frame follows an opener of its stream with no FIN or RST in
      between, and no frame belongs to the control stream. */
  lemma {:induction false} WireIsSafe(maxQueue: nat, maxRecv: nat, ops: seq<Op>)
    ensures var w := Wire(RunFrom(Start(maxQueue, maxRecv), ops));
      forall i :: 0 <= i < |w| ==> w[i].header.streamId != CONTROL_STREAM && (IsData(w[i]) ==> OpenedBefore(w, i))
  {
    RunKeepsInv(Start(maxQueue, maxRecv), ops);
    WellOrderedMeans(Wire(RunFrom(Start(maxQueue, maxRecv), ops)));
  }

  /** Accounting of every run: counter, identifiers, limits, and emptiness once closed. */
  lemma {:induction false} ConnectionIsAccounted(maxQueue: nat, maxRecv: nat, ops: seq<Op>)
    ensures var c := RunFrom(Start(maxQueue, maxRecv), ops).conn;
      && c.streamCount == |c.streams| <= MAX_STREAMS
      && (forall s :: s in c.streams ==>
            1 <= s <= MAX_STREAMS && c.streams[s].buffered == TotalLen(c.streams[s].received) <= c.maxRecv)
      && |c.queue| <= c.maxQueue
      && (c.closed ==> c.streams == map[] && c.queue == [])
  {
    RunKeepsInv(Start(maxQueue, maxRecv), ops);
    var c := RunFrom(Start(maxQueue, maxRecv), ops).conn;
    assert forall s :: s in c.streams ==> BufferOk(c, c.streams[s]);
    IdsAreFew(c.streams.Keys, MAX_STREAMS);
  }

  lemma {:induction false} IdsAreFew(ids: set<nat>, n: nat)
    requires forall i :: i in ids ==> 1 <= i <= n
    ensures |ids| <= n
    decreases n
  {
    if n == 0 {
      assert ids == {};
    } else {
      IdsAreFew(ids - {n}, n - 1);
    }
  }

  /** Content of every run: a stream that has not been reset holds in its send buffer exactly the payloads put
      on the wire since it was opened, and its application has received, in order, all accepted payloads but
      those still buffered. */
  lemma {:induction false} StreamsAreFaithful(maxQueue: nat, maxRecv: nat, ops: seq<Op>, s: nat)
    requires s in RunFrom(Start(maxQueue, maxRecv), ops).conn.streams
    ensures var t := RunFrom(Start(maxQueue, maxRecv), ops);
      && EverOpened(Wire(t), s)
      && (t.conn.streams[s].status.CanSend() ==> Live(Wire(t), s))
      && (!t.conn.streams[s].status.Reset? ==> t.conn.streams[s].sent == DataSince(Wire(t), s))
      && s in t.accepted && s in t.returned
      && t.accepted[s] == t.returned[s] + t.conn.streams[s].received
  {
    RunKeepsInv(Start(maxQueue, maxRecv), ops);
    var t := RunFrom(Start(maxQueue, maxRecv), ops);
    assert StreamOnWire(t.conn.streams[s], Wire(t), s);
  }

  /** The only ways out of the table: closing the connection, a rollback, or a FIN from the peer to an entry
      whose local side is already finished. Closing a stream locally never removes it, even when the peer
      finished first and the entry thereby becomes Closed. */
  lemma RemovalIsExact(c: Conn, op: Op, s: nat)
    requires s in c.streams && Accounted(c)
    ensures s !in Step(c, op).0.streams <==>
      || op.Close?
      || (op.Rollback? && op.id == s)
      || (op.ProcessFrame? && op.header.streamId == s
          && op.header.length == |op.payload| && ValidShape(op.header, |op.payload|)
          && Has(op.header.flags, FIN) && (c.streams[s].status.HalfClosedLocal? || c.streams[s].status.IsClosed()))
  {
    match op
    case ProcessFrame(h, payload) =>
      ShapeMeaning(h, |payload|);
      FlagBits(h.flags);
    case CloseStream(_) =>
    case _ =>
  }
}
