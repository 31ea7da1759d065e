/** The pipelined client of src/multiplex/pipeline.rs: requests in flight over the streams of one connection.
    `PipelineSpec` is one call as a function on values and what every run keeps; `Pipeline` is the object. */
module PipelineSpec {
  import opened Bits
  import opened Errors
  import opened MuxFrames
  import opened MuxSpec
  import MuxRuns

  datatype Outcome = Response(data: Payload) | Failure(error: MuxError)

  datatype Resolution = Resolution(request: nat, outcome: Outcome)

  datatype Client = Client(conn: Conn, pending: map<nat, StreamId>, inFlight: nat, nextRequest: nat, maxInFlight: nat)

  /** Several pending requests may name the same stream once identifiers are reused; the map is searched in no
      particular order, so a call carries the request that the search finds. */
  datatype Call =
    | SendRequest(data: Payload)
    | ProcessResponse(stream: StreamId, data: Payload, found: Option<nat>)
    | ProcessError(stream: StreamId, error: MuxError, found: Option<nat>)
    | CancelAll
    | OnConnection(op: Op)

  predicate FoundFor(c: Client, stream: StreamId, found: Option<nat>) {
    match found
    case Some(r) => r in c.pending && c.pending[r] == stream
    case None => forall r :: r in c.pending ==> c.pending[r] != stream
  }

  predicate Possible(c: Client, call: Call) {
    match call
    case ProcessResponse(s, _, found) => FoundFor(c, s, found)
    case ProcessError(s, _, found) => FoundFor(c, s, found)
    case _ => true
  }

  function RunOps(c: Conn, ops: seq<Op>): Conn
    decreases |ops|
  {
    if ops == [] then c else RunOps(Step(c, ops[0]).0, ops[1..])
  }

  /** The connection calls a client call makes. */
  function ConnOps(c: Client, call: Call): seq<Op> {
    match call
    case SendRequest(data) =>
      if c.inFlight >= c.maxInFlight then []
      else
        var (grown, a) := DoOpen(c.conn);
        if !a.Opened? || a.id >= U16 then [OpenStream]
        else if DoSend(grown, a.id, data).1 == Done then [OpenStream, Send(a.id, data)]
        else [OpenStream, Send(a.id, data), Rollback(a.id)]
    case ProcessResponse(s, _, found) => if found.Some? then [CloseStream(s)] else []
    case OnConnection(op) => [op]
    case _ => []
  }

  function SendRequestStep(c: Client, data: Payload): (Client, Answer) {
    if c.inFlight >= c.maxInFlight then (c, Failed(SendBufferFull))
    else
      var (grown, a) := DoOpen(c.conn);
      if !a.Opened? || a.id >= U16 then (c.(conn := grown), a)
      else
        var (sent, b) := DoSend(grown, a.id, data);
        if b == Done then
          (c.(conn := sent, pending := c.pending[c.nextRequest := a.id],
              inFlight := c.inFlight + 1, nextRequest := c.nextRequest + 1), Done)
        else
          (c.(conn := DoRollback(sent, a.id), nextRequest := c.nextRequest + 1), b)
  }

  function Settle(c: Client, request: nat): Client {
    c.(pending := c.pending - {request}, inFlight := Max(c.inFlight - 1, 0))
  }

  function ClientStep(c: Client, call: Call): (Client, Answer) {
    match call
    case SendRequest(data) => SendRequestStep(c, data)
    case ProcessResponse(s, _, found) =>
      if found.None? then (c, Done)
      else var (conn, a) := DoCloseStream(c.conn, s); (Settle(c, found.value).(conn := conn), a)
    case ProcessError(_, _, found) => if found.None? then (c, Done) else (Settle(c, found.value), Done)
    case CancelAll => (c.(pending := map[], inFlight := 0), Done)
    case OnConnection(op) => var (conn, a) := Step(c.conn, op); (c.(conn := conn), a)
  }

  /** The outcomes a call sends to waiting requesters. */
  ghost predicate Resolves(c: Client, call: Call, out: seq<Resolution>) {
    match call
    case ProcessResponse(_, data, found) => out == if found.Some? then [Resolution(found.value, Response(data))] else []
    case ProcessError(_, e, found) => out == if found.Some? then [Resolution(found.value, Failure(e))] else []
    case CancelAll =>
      && NoDuplicates(out)
      && (forall r :: r in c.pending <==> r in Requests(out))
      && forall x :: x in out ==> x.outcome == Failure(ConnectionClosed)
    case _ => out == []
  }

  function Requests(out: seq<Resolution>): set<nat> {
    if out == [] then {} else Requests(out[..|out| - 1]) + {out[|out| - 1].request}
  }

  /** No request is resolved twice. */
  predicate NoDuplicates(out: seq<Resolution>) {
    out == [] || (NoDuplicates(out[..|out| - 1]) && out[|out| - 1].request !in Requests(out[..|out| - 1]))
  }

  lemma {:induction false} RequestsMeans(out: seq<Resolution>)
    ensures forall r :: r in Requests(out) <==> exists i :: 0 <= i < |out| && out[i].request == r
    ensures NoDuplicates(out) <==> forall i, j :: 0 <= i < j < |out| ==> out[i].request != out[j].request
    decreases |out|
  {
    if out != [] {
      var before, last := out[..|out| - 1], |out| - 1;
      RequestsMeans(before);
      assert forall i :: 0 <= i < last ==> before[i] == out[i];
      forall i | 0 <= i < |out| ensures out[i].request in Requests(out) {
        if i < last { assert before[i] == out[i]; }
      }
      forall r | r in Requests(before) ensures exists i :: 0 <= i < |out| && out[i].request == r {
        var i :| 0 <= i < |before| && before[i].request == r;
        assert out[i].request == r;
      }
      assert out[last].request in Requests(out);
    }
  }

  /** Opening succeeds only with a data stream identifier that is then live with an empty send buffer. */
  lemma OpenedIsUsable(c: Conn)
    requires DoOpen(c).1.Opened?
    ensures var (c', a) := DoOpen(c);
      && a.id == NextCandidate(c) < U16 && a.id !in c.streams
      && c' == Enqueue(c.(nextId := Incremented(a.id), streams := c.streams[a.id := NewStream],
                          streamCount := c.streamCount + 1), Syn(a.id))
  {
  }

  /** A request that gets a stream fails exactly when its SYN took the last place in the queue. */
  lemma SendFailsWhenQueueIsFull(c: Conn, data: Payload)
    requires DoOpen(c).1.Opened?
    ensures var (c', a) := DoOpen(c);
      a.id < U16 && (DoSend(c', a.id, data).1 != Done <==> |c.queue| + 1 >= c.maxQueue)
    ensures var (c', a) := DoOpen(c);
      a.id < U16 && (DoSend(c', a.id, data).1 != Done ==> DoSend(c', a.id, data) == (c', Failed(SendBufferFull)))
  {
    OpenedIsUsable(c);
  }

  lemma {:induction false} WithoutAbsent(q: seq<Frame>, id: nat)
    ensures Without(q, id) == q <==> forall f :: f in q ==> f.header.streamId != id
    decreases |q|
  {
    if q != [] {
      var f, before := q[|q| - 1], q[..|q| - 1];
      WithoutAbsent(before, id);
      WithoutCases(q, id);
      WithoutIsShorter(before, id);
      hide Without;
      assert forall g :: g in q <==> g in before || g == f;
      if f.header.streamId != id && Without(before, id) + [f] == before + [f] {
        assert (Without(before, id) + [f])[..|before|] == Without(before, id);
      }
    }
  }

  lemma WithoutCases(q: seq<Frame>, id: nat)
    requires q != []
    ensures var f, before := q[|q| - 1], q[..|q| - 1];
      Without(q, id) == if f.header.streamId != id then Without(before, id) + [f] else Without(before, id)
    ensures q == q[..|q| - 1] + [q[|q| - 1]]
  {
  }

  lemma {:induction false} WithoutIsShorter(q: seq<Frame>, id: nat)
    ensures |Without(q, id)| <= |q|
    decreases |q|
  {
    if q != [] { WithoutIsShorter(q[..|q| - 1], id); }
  }

  /** A failed request leaves pending requests, in-flight count and stream table as they were, and the queue
      too exactly when no frame of the fresh identifier was already queued. */
  lemma FailedSendRestores(c: Client, data: Payload)
    requires MuxRuns.Accounted(c.conn)
    requires ClientStep(c, SendRequest(data)).1.Failed?
    ensures var c' := ClientStep(c, SendRequest(data)).0;
      && c'.pending == c.pending && c'.inFlight == c.inFlight
      && c'.conn.streams == c.conn.streams && c'.conn.streamCount == c.conn.streamCount
      && (c'.conn.queue == c.conn.queue <==>
            c.inFlight >= c.maxInFlight || !DoOpen(c.conn).1.Opened?
            || forall f :: f in c.conn.queue ==> f.header.streamId != NextCandidate(c.conn))
  {
    if c.inFlight < c.maxInFlight && DoOpen(c.conn).1.Opened? {
      OpenedIsUsable(c.conn);
      SendFailsWhenQueueIsFull(c.conn, data);
      RollbackAfterOpen(c.conn);
    }
  }

  lemma RollbackAfterOpen(c: Conn)
    requires DoOpen(c).1.Opened? && MuxRuns.Accounted(c)
    ensures var id := NextCandidate(c); var back := DoRollback(DoOpen(c).0, id);
      && back.streams == c.streams && back.streamCount == c.streamCount
      && back.queue == Without(c.queue, id)
      && (back.queue == c.queue <==> forall f :: f in c.queue ==> f.header.streamId != id)
  {
    hide DoOpen;
    var id := NextCandidate(c);
    OpenedIsUsable(c);
    MuxRuns.WithoutSnoc(c.queue + [Syn(id)], id);
    assert (c.queue + [Syn(id)])[..|c.queue|] == c.queue;
    hide Without;
    WithoutAbsent(c.queue, id);
    assert DoRollback(DoOpen(c).0, id).streams == c.streams;
  }

  /** A client call moves the connection by the listed connection calls; `ClientRuns` composes these over runs. */
  lemma ClientMovesConnectionByCalls(c: Client, call: Call)
    ensures ClientStep(c, call).0.conn == RunOps(c.conn, ConnOps(c, call))
  {
    match call
    case SendRequest(data) =>
      var (grown, a) := DoOpen(c.conn);
      if c.inFlight < c.maxInFlight && a.Opened? {
        OpenedIsUsable(c.conn);
        SendFailsWhenQueueIsFull(c.conn, data);
        var sent := DoSend(grown, a.id, data).0;
        var ops := [OpenStream, Send(a.id, data), Rollback(a.id)];
        assert ops[1..] == [Send(a.id, data), Rollback(a.id)] && ops[1..][1..] == [Rollback(a.id)];
        assert RunOps(sent, [Rollback(a.id)]) == RunOps(DoRollback(sent, a.id), []);
        var two := [OpenStream, Send(a.id, data)];
        assert two[1..] == [Send(a.id, data)];
        assert RunOps(grown, [Send(a.id, data)]) == RunOps(sent, []);
      } else if c.inFlight < c.maxInFlight {
        assert RunOps(c.conn, [OpenStream]) == RunOps(grown, []);
      }
    case ProcessResponse(s, _, found) =>
      if found.Some? { assert RunOps(c.conn, [CloseStream(s)]) == RunOps(DoCloseStream(c.conn, s).0, []); }
    case OnConnection(op) => assert RunOps(c.conn, [op]) == RunOps(Step(c.conn, op).0, []);
    case _ =>
  }

  // ---- runs ----

  /** The client, the requests successfully sent, and the outcomes delivered, in order. */
  datatype Trace = Trace(client: Client, issued: set<nat>, resolved: seq<Resolution>)

  function Start(conn: Conn, maxInFlight: nat): Trace {
    Trace(Client(conn, map[], 0, 1, maxInFlight), {}, [])
  }

  /** One call and the outcomes it delivers. */
  datatype Event = Event(call: Call, out: seq<Resolution>)

  ghost predicate CanHappen(t: Trace, e: Event) {
    Possible(t.client, e.call) && Resolves(t.client, e.call, e.out)
  }

  function After(t: Trace, e: Event): Trace {
    var (c, a) := ClientStep(t.client, e.call);
    Trace(c, if e.call.SendRequest? && a == Done then t.issued + {t.client.nextRequest} else t.issued,
          t.resolved + e.out)
  }

  ghost predicate ValidRun(t: Trace, run: seq<Event>)
    decreases |run|
  {
    run == [] || (CanHappen(t, run[0]) && ValidRun(After(t, run[0]), run[1..]))
  }

  function Run(t: Trace, run: seq<Event>): Trace
    decreases |run|
  {
    if run == [] then t else Run(After(t, run[0]), run[1..])
  }

  ghost predicate Inv(t: Trace) {
    var c := t.client;
    Conserved(c.pending.Keys, c.inFlight, c.maxInFlight, c.nextRequest, t.issued, t.resolved)
  }

  ghost predicate Conserved(pending: set<nat>, inFlight: nat, maxInFlight: nat, next: nat,
                            issued: set<nat>, resolved: seq<Resolution>)
  {
    && inFlight == |pending| <= maxInFlight
    && (forall r :: r in issued ==> r < next)
    && NoDuplicates(resolved)
    && pending + Requests(resolved) == issued
    && pending !! Requests(resolved)
  }

  lemma RequestsOfNone()
    ensures Requests([]) == {} && NoDuplicates([])
  {
  }

  lemma {:induction false} RequestsSnoc(out: seq<Resolution>, x: Resolution)
    ensures Requests(out + [x]) == Requests(out) + {x.request}
    ensures NoDuplicates(out + [x]) <==> NoDuplicates(out) && x.request !in Requests(out)
  {
    assert (out + [x])[..|out|] == out;
  }

  lemma SettleConserves(pending: set<nat>, inFlight: nat, maxInFlight: nat, next: nat,
                        issued: set<nat>, resolved: seq<Resolution>, x: Resolution)
    requires Conserved(pending, inFlight, maxInFlight, next, issued, resolved) && x.request in pending
    ensures inFlight > 0
    ensures Conserved(pending - {x.request}, inFlight - 1, maxInFlight, next, issued, resolved + [x])
  {
    RequestsSnoc(resolved, x);
    assert |pending - {x.request}| == |pending| - 1;
  }

  lemma {:induction false} CancelConserves(pending: set<nat>, inFlight: nat, maxInFlight: nat, next: nat,
                                           issued: set<nat>, resolved: seq<Resolution>, out: seq<Resolution>)
    requires Conserved(pending, inFlight, maxInFlight, next, issued, resolved)
    requires NoDuplicates(out) && Requests(out) <= pending
    ensures |out| <= inFlight
    ensures Conserved(pending - Requests(out), inFlight - |out|, maxInFlight, next, issued, resolved + out)
    decreases |out|
  {
    if out == [] {
      assert pending - {} == pending && resolved + [] == resolved;
    } else {
      var before, x := out[..|out| - 1], out[|out| - 1];
      CancelConserves(pending, inFlight, maxInFlight, next, issued, resolved, before);
      CancelOne(pending, inFlight - |before|, maxInFlight, next, issued, resolved, before, x);
      SnocAssoc(resolved, out);
    }
  }

  lemma {:induction false} CancelOne(pending: set<nat>, inFlight: nat, maxInFlight: nat, next: nat,
                  issued: set<nat>, resolved: seq<Resolution>, before: seq<Resolution>, x: Resolution)
    requires Conserved(pending - Requests(before), inFlight, maxInFlight, next, issued, resolved + before)
    requires x.request in pending && x.request !in Requests(before)
    ensures inFlight > 0
    ensures Conserved(pending - (Requests(before) + {x.request}), inFlight - 1, maxInFlight, next, issued,
                      resolved + before + [x])
  {
    hide Conserved, Requests, NoDuplicates;
    SettleConserves(pending - Requests(before), inFlight, maxInFlight, next, issued, resolved + before, x);
    assert pending - (Requests(before) + {x.request}) == pending - Requests(before) - {x.request};
  }

  lemma IssueConserves(pending: set<nat>, inFlight: nat, maxInFlight: nat, next: nat,
                       issued: set<nat>, resolved: seq<Resolution>)
    requires Conserved(pending, inFlight, maxInFlight, next, issued, resolved) && inFlight < maxInFlight
    ensures Conserved(pending + {next}, inFlight + 1, maxInFlight, next + 1, issued + {next}, resolved)
  {
    assert next !in issued;
  }

  lemma EventKeepsInv(t: Trace, e: Event)
    requires Inv(t) && CanHappen(t, e)
    ensures Inv(After(t, e))
  {
    var c := t.client;
    assert t.resolved + [] == t.resolved;
    match e.call
    case SendRequest(data) => SendKeepsInv(t, e);
    case ProcessResponse(_, _, found) => if found.Some? { SettleKeepsInv(t, e, found.value); }
    case ProcessError(_, _, found) => if found.Some? { SettleKeepsInv(t, e, found.value); }
    case CancelAll =>
      assert Requests(e.out) == c.pending.Keys;
      CancelConserves(c.pending.Keys, c.inFlight, c.maxInFlight, c.nextRequest, t.issued, t.resolved, e.out);
      assert c.pending.Keys - c.pending.Keys == {};
    case OnConnection(_) =>
  }

  lemma SettleKeepsInv(t: Trace, e: Event, request: nat)
    requires Inv(t) && request in t.client.pending && |e.out| == 1 && e.out[0].request == request
    requires e.call.ProcessResponse? || e.call.ProcessError?
    requires e.call.found == Some(request)
    ensures Inv(After(t, e))
  {
    hide Conserved, Requests, NoDuplicates, DoCloseStream;
    var c := t.client;
    SettleConserves(c.pending.Keys, c.inFlight, c.maxInFlight, c.nextRequest, t.issued, t.resolved, e.out[0]);
    assert e.out == [e.out[0]];
    assert (c.pending - {request}).Keys == c.pending.Keys - {request};
  }

  lemma SendKeepsInv(t: Trace, e: Event)
    requires Inv(t) && CanHappen(t, e) && e.call.SendRequest?
    ensures Inv(After(t, e))
  {
    hide SendRequestStep, Requests, NoDuplicates;
    var c := t.client;
    assert t.resolved + [] == t.resolved;
    SendShape(c, e.call.data);
    if SendRequestStep(c, e.call.data).1 == Done {
      IssueConserves(c.pending.Keys, c.inFlight, c.maxInFlight, c.nextRequest, t.issued, t.resolved);
    }
  }

  /** A request joins the pending ones exactly when its call succeeds. */
  lemma SendShape(c: Client, data: Payload)
    ensures var (c', a) := SendRequestStep(c, data);
      && c'.maxInFlight == c.maxInFlight
      && if a == Done then
           && c.inFlight < c.maxInFlight && c'.inFlight == c.inFlight + 1 && c'.nextRequest == c.nextRequest + 1
           && c'.pending.Keys == c.pending.Keys + {c.nextRequest}
         else c'.pending == c.pending && c'.inFlight == c.inFlight && c'.nextRequest >= c.nextRequest
  {
    if DoOpen(c.conn).1.Opened? { OpenedIsUsable(c.conn); }
  }

  lemma LimitIsFixed(t: Trace, e: Event)
    ensures After(t, e).client.maxInFlight == t.client.maxInFlight
  {
  }

  lemma {:induction false} RunKeepsInv(t: Trace, run: seq<Event>)
    requires Inv(t) && ValidRun(t, run)
    ensures Inv(Run(t, run)) && Run(t, run).client.maxInFlight == t.client.maxInFlight
    decreases |run|
  {
    if run != [] {
      EventKeepsInv(t, run[0]);
      LimitIsFixed(t, run[0]);
      RunKeepsInv(After(t, run[0]), run[1..]);
    }
  }

  /** Conservation over every run: the in-flight count is the number of pending requests, within its limit,
      and every request successfully sent is either pending or has been resolved, exactly once. */
  lemma {:induction false} RequestsAreConserved(conn: Conn, maxInFlight: nat, run: seq<Event>)
    requires ValidRun(Start(conn, maxInFlight), run)
    ensures var t := Run(Start(conn, maxInFlight), run);
      && t.client.inFlight == |t.client.pending| <= maxInFlight
      && (forall r :: r in t.issued <==> (r in t.client.pending || r in Requests(t.resolved)))
      && (forall r :: r in t.client.pending ==> r !in Requests(t.resolved))
      && (forall i, j :: 0 <= i < j < |t.resolved| ==> t.resolved[i].request != t.resolved[j].request)
  {
    RunKeepsInv(Start(conn, maxInFlight), run);
    var t := Run(Start(conn, maxInFlight), run);
    RequestsMeans(t.resolved);
    assert forall r :: r in t.client.pending ==> r in t.client.pending.Keys;
  }
}

module Pipeline {
  import opened Bits
  import opened Errors
  import opened MuxFrames
  import opened MuxSpec
  import opened MuxConnection
  import opened PipelineSpec

  class PipelinedClient {
    const connection: MultiplexedConnection
    var requestId: nat
    var pending: map<nat, StreamId>
    const maxInFlight: nat
    var inFlight: nat
    /** What has been sent on the response channels, in order. */
    var resolved: seq<Resolution>

    ghost predicate Valid()
      reads this, connection, connection.repr
    {
      connection.Valid() && inFlight == |pending| && forall r :: r in pending ==> r < requestId
    }

    ghost function View(): Client
      requires Valid()
      reads this, connection, connection.repr
    {
      Client(connection.View(), pending, inFlight, requestId, maxInFlight)
    }

    constructor (connection: MultiplexedConnection, maxInFlight: nat)
      requires connection.Valid()
      ensures Valid() && View() == Client(connection.View(), map[], 0, 1, maxInFlight) && resolved == []
      ensures this.connection == connection
    {
      this.connection, this.maxInFlight := connection, maxInFlight;
      requestId, pending, inFlight, resolved := 1, map[], 0, [];
    }

    method Send(data: Payload) returns (a: Answer)
      requires Valid() && requestId + 1 < U64
      modifies this`requestId, this`pending, this`inFlight, connection, connection.repr
      ensures Valid()
      ensures View() == SendRequestStep(old(View()), data).0
      ensures a == SendRequestStep(old(View()), data).1
    {
      hide DoOpen, DoSend, DoRollback;
      if inFlight >= maxInFlight { return Failed(SendBufferFull); }
      if DoOpen(connection.View()).1.Opened? {
        OpenedIsUsable(connection.View());
        SendFailsWhenQueueIsFull(connection.View(), data);
      }
      var grown := connection.OpenStream();
      if !grown.Opened? { return grown; }
      a := SendOn(grown.id, data);
    }

    method SendOn(streamId: StreamId, data: Payload) returns (a: Answer)
      requires Valid() && requestId + 1 < U64
      modifies this`requestId, this`pending, this`inFlight, connection, connection.repr
      ensures Valid() && requestId == old(requestId) + 1
      ensures a == DoSend(old(connection.View()), streamId, data).1
      ensures connection.View() == (var sent := DoSend(old(connection.View()), streamId, data).0;
                                    if a == Done then sent else DoRollback(sent, streamId))
      ensures pending == if a == Done then old(pending)[old(requestId) := streamId] else old(pending)
    {
      var request := requestId;
      requestId := requestId + 1;
      ghost var start := connection.View();
      Register(request, streamId);
      assert connection.Valid() && connection.View() == start;
      a := connection.Send(streamId, data);
      ghost var sent := connection.View();
      assert sent == DoSend(start, streamId, data).0 && a == DoSend(start, streamId, data).1;
      if a != Done {
        Unregister(request);
        assert connection.Valid() && connection.View() == sent;
        connection.RollbackStreamOpen(streamId);
      }
    }

    method Register(request: nat, streamId: StreamId)
      requires inFlight == |pending| && request !in pending
      modifies this`pending, this`inFlight
      ensures pending == old(pending)[request := streamId] && inFlight == |pending|
      ensures pending - {request} == old(pending)
    {
      ghost var before := pending;
      pending := pending[request := streamId];
      inFlight := inFlight + 1;
      assert pending.Keys == before.Keys + {request};
      assert pending - {request} == before;
    }

    method Unregister(request: nat)
      requires inFlight == |pending| && request in pending
      modifies this`pending, this`inFlight
      ensures pending == old(pending) - {request} && inFlight == |pending| == old(inFlight) - 1
    {
      ghost var before := pending;
      pending := pending - {request};
      inFlight := inFlight - 1;
      assert pending.Keys == before.Keys - {request};
    }

    /** Takes out some pending request of the stream, if there is one. */
    method TakePending(streamId: StreamId) returns (found: Option<nat>)
      requires Valid()
      modifies this`pending, this`inFlight
      ensures Valid()
      ensures FoundFor(old(View()), streamId, found)
      ensures View() == if found.Some? then Settle(old(View()), found.value) else old(View())
    {
      if request :| request in pending && pending[request] == streamId {
        Unregister(request);
        return Some(request);
      }
      return None;
    }

    method ProcessResponse(streamId: StreamId, data: Payload) returns (a: Answer, ghost found: Option<nat>)
      requires Valid()
      modifies this`pending, this`inFlight, this`resolved, connection, connection.repr
      ensures Valid()
      ensures FoundFor(old(View()), streamId, found)
      ensures View() == ClientStep(old(View()), PipelineSpec.ProcessResponse(streamId, data, found)).0
      ensures a == ClientStep(old(View()), PipelineSpec.ProcessResponse(streamId, data, found)).1
      ensures resolved == old(resolved) + if found.Some? then [Resolution(found.value, Response(data))] else []
    {
      hide DoCloseStream;
      var request := TakePending(streamId);
      found := request;
      if request.None? { return Done, found; }
      resolved := resolved + [Resolution(request.value, Response(data))];
      a := connection.CloseStream(streamId);
    }

    method ProcessError(streamId: StreamId, error: MuxError) returns (ghost found: Option<nat>)
      requires Valid()
      modifies this`pending, this`inFlight, this`resolved
      ensures Valid()
      ensures FoundFor(old(View()), streamId, found)
      ensures View() == ClientStep(old(View()), PipelineSpec.ProcessError(streamId, error, found)).0
      ensures resolved == old(resolved) + if found.Some? then [Resolution(found.value, Failure(error))] else []
    {
      hide Settle;
      var request := TakePending(streamId);
      found := request;
      if request.Some? { resolved := resolved + [Resolution(request.value, Failure(error))]; }
    }

    method CancelAll() returns (ghost out: seq<Resolution>)
      requires Valid()
      modifies this`pending, this`inFlight, this`resolved
      ensures Valid()
      ensures View() == ClientStep(old(View()), PipelineSpec.CancelAll).0
      ensures resolved == old(resolved) + out && Resolves(old(View()), PipelineSpec.CancelAll, out)
    {
      hide Requests, NoDuplicates;
      out := DrainPending();
      inFlight := 0;
    }

    method DrainPending() returns (ghost out: seq<Resolution>)
      modifies this`pending, this`resolved
      ensures pending == map[] && resolved == old(resolved) + out && NoDuplicates(out)
      ensures forall r :: r in old(pending) <==> r in Requests(out)
      ensures forall x :: x in out ==> x.outcome == Failure(ConnectionClosed)
    {
      out := [];
      hide Requests, NoDuplicates;
      RequestsOfNone();
      while pending != map[]
        invariant resolved == old(resolved) + out && NoDuplicates(out)
        invariant forall r :: r in old(pending) <==> (r in pending || r in Requests(out))
        invariant forall r :: r in Requests(out) ==> r !in pending
        invariant forall x :: x in out ==> x.outcome == Failure(ConnectionClosed)
        decreases |pending|
      {
        assert pending.Keys != {};
        var request :| request in pending;
        ghost var left := pending;
        RequestsSnoc(out, Resolution(request, Failure(ConnectionClosed)));
        resolved := resolved + [Resolution(request, Failure(ConnectionClosed))];
        pending := pending - {request};
        assert pending.Keys == left.Keys - {request};
        out := out + [Resolution(request, Failure(ConnectionClosed))];
      }
    }
  }
}
