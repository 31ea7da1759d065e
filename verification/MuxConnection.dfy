/** The connection object of src/multiplex/connection.rs: a table of stream objects and an outbound queue,
    changed in place. Every public call is one step; `View` is the value `MuxSpec` and `MuxRuns` speak of. */
module MuxConnection {
  import opened Bits
  import opened Errors
  import opened MuxFrames
  import opened MuxSpec

  class StreamState {
    const id: nat
    var status: Status
    var sendBuffer: seq<Payload>
    var recvBuffer: seq<Payload>
    var recvBufferedBytes: nat

    ghost function View(): Stream
      reads this
    {
      Stream(status, sendBuffer, recvBuffer, recvBufferedBytes)
    }

    constructor (id: nat)
      ensures View() == NewStream && this.id == id
    {
      this.id := id;
      status, sendBuffer, recvBuffer, recvBufferedBytes := Open, [], [], 0;
    }

    method QueueSend(data: Payload) returns (error: Option<MuxError>)
      modifies this`sendBuffer
      ensures error == if status.CanSend() then None else Some(StreamClosed(id))
      ensures sendBuffer == if status.CanSend() then old(sendBuffer) + [data] else old(sendBuffer)
    {
      if !status.CanSend() { return Some(StreamClosed(id)); }
      sendBuffer := sendBuffer + [data];
      return None;
    }

    method QueueRecv(data: Payload, maxRecvBufferBytes: nat) returns (error: Option<MuxError>)
      modifies this`recvBuffer, this`recvBufferedBytes
      ensures error == if !status.CanReceive() then Some(StreamClosed(id))
                       else if old(recvBufferedBytes) + |data| > maxRecvBufferBytes then Some(ReceiveBufferFull)
                       else None
      ensures recvBuffer == if error.None? then old(recvBuffer) + [data] else old(recvBuffer)
      ensures recvBufferedBytes == if error.None? then old(recvBufferedBytes) + |data| else old(recvBufferedBytes)
    {
      if !status.CanReceive() { return Some(StreamClosed(id)); }
      var nextBuffered := recvBufferedBytes + |data|;
      if nextBuffered > maxRecvBufferBytes { return Some(ReceiveBufferFull); }
      recvBufferedBytes := nextBuffered;
      recvBuffer := recvBuffer + [data];
      return None;
    }

    method TakeRecv() returns (data: Option<Payload>)
      modifies this`recvBuffer, this`recvBufferedBytes
      ensures old(recvBuffer) == [] ==> data == None && View() == old(View())
      ensures old(recvBuffer) != [] ==> data == Some(old(recvBuffer)[0]) && View() == Taking(old(View()))
    {
      if recvBuffer == [] { return None; }
      var front := recvBuffer[0];
      recvBuffer := recvBuffer[1..];
      recvBufferedBytes := Max(recvBufferedBytes - |front|, 0);
      return Some(front);
    }

    method CloseLocal()
      modifies this`status
      ensures status == old(status).CloseLocal()
    {
      status := match status
        case Open => HalfClosedLocal
        case HalfClosedRemote => Closed
        case other => other;
    }

    method CloseRemote()
      modifies this`status
      ensures status == old(status).CloseRemote()
    {
      status := match status
        case Open => HalfClosedRemote
        case HalfClosedLocal => Closed
        case other => other;
    }

    method ResetState()
      modifies this`status, this`sendBuffer
      ensures status == Reset && sendBuffer == []
    {
      status := Reset;
      sendBuffer := [];
    }
  }

  class MultiplexedConnection {
    var streams: map<nat, StreamState>
    var nextStreamId: StreamId
    var sendQueue: seq<Frame>
    const maxSendQueueLen: nat
    const maxRecvBufferBytes: nat
    var closed: bool
    var streamCount: nat
    /** The stream objects created so far. */
    ghost var repr: set<StreamState>

    /** Each entry is the object of its own identifier, so no two entries share an object. */
    ghost predicate Valid()
      reads this, repr
    {
      && Owned()
      && (forall s :: s in streams ==> streams[s].id == s)
      && streamCount == |streams|
    }

    ghost predicate Owned()
      reads this`streams, this`repr
    {
      forall s :: s in streams ==> streams[s] in repr
    }

    ghost function Table(): map<nat, Stream>
      requires Owned()
      reads this`streams, this`repr, repr
    {
      map s | s in streams :: streams[s].View()
    }

    ghost function View(): Conn
      requires Valid()
      reads this, repr
    {
      Conn(Table(), nextStreamId, sendQueue, closed, streamCount, maxSendQueueLen, maxRecvBufferBytes)
    }

    constructor (maxSendQueueLen: nat, maxRecvBufferBytes: nat)
      ensures Valid() && View() == New(maxSendQueueLen, maxRecvBufferBytes)
    {
      streams, nextStreamId, sendQueue := map[], 1, [];
      this.maxSendQueueLen, this.maxRecvBufferBytes := maxSendQueueLen, maxRecvBufferBytes;
      closed, streamCount, repr := false, 0, {};
    }

    method QueueFrame(f: Frame) returns (error: Option<MuxError>)
      modifies this`sendQueue
      requires Valid()
      ensures Valid() && Table() == old(Table()) && error == QueueError(old(View()))
      ensures sendQueue == if error.None? then old(sendQueue) + [f] else old(sendQueue)
    {
      if closed { return Some(ConnectionClosed); }
      if |sendQueue| >= maxSendQueueLen { return Some(SendBufferFull); }
      sendQueue := sendQueue + [f];
      return None;
    }

    method NextId() returns (id: StreamId)
      modifies this`nextStreamId
      ensures id == old(nextStreamId) && nextStreamId == Incremented(old(nextStreamId))
    {
      id := nextStreamId;
      nextStreamId := (nextStreamId + 1) % 0x1_0000;
    }

    /** The part common to opening and accepting: insert, count, announce, and undo if the queue is full. */
    method RegisterStream(id: StreamId, opener: Frame, ok: Answer) returns (a: Answer)
      requires Valid()
      modifies this`streams, this`streamCount, this`sendQueue, this`repr
      ensures Valid()
      ensures fresh(repr - old(repr))
      ensures View() == Register(old(View()), id, opener, ok).0
      ensures a == Register(old(View()), id, opener, ok).1
    {
      if id in streams { return Failed(StreamAlreadyExists(id)); }
      a := RegisterFresh(id, opener, ok);
    }

    method RegisterFresh(id: StreamId, opener: Frame, ok: Answer) returns (a: Answer)
      requires Valid() && id !in streams
      modifies this`streams, this`streamCount, this`sendQueue, this`repr
      ensures Valid()
      ensures fresh(repr - old(repr))
      ensures var error := QueueError(old(View()));
        if error.Some?
        then a == Failed(error.value) && Table() == old(Table()) && streamCount == old(streamCount)
             && sendQueue == old(sendQueue)
        else a == ok && Table() == old(Table())[id := NewStream] && streamCount == old(streamCount) + 1
             && sendQueue == old(sendQueue) + [opener]
    {
      InsertStream(id);
      a := AnnounceOrUndo(id, opener, ok);
      assert old(Table())[id := NewStream] - {id} == old(Table());
    }

    method AnnounceOrUndo(id: StreamId, opener: Frame, ok: Answer) returns (a: Answer)
      requires Valid() && id in streams
      modifies this`streams, this`streamCount, this`sendQueue
      ensures Valid()
      ensures var error := QueueError(old(View()));
        if error.Some?
        then a == Failed(error.value) && Table() == old(Table()) - {id} && streamCount == old(streamCount) - 1
             && sendQueue == old(sendQueue)
        else a == ok && Table() == old(Table()) && streamCount == old(streamCount)
             && sendQueue == old(sendQueue) + [opener]
    {
      var error := QueueFrame(opener);
      if error.Some? {
        DeleteEntry(id);
        return Failed(error.value);
      }
      return ok;
    }

    method InsertStream(id: StreamId)
      requires Valid() && id !in streams
      modifies this`streams, this`streamCount, this`repr
      ensures Valid() && id in streams
      ensures Table() == old(Table())[id := NewStream] && streamCount == old(streamCount) + 1
      ensures fresh(repr - old(repr))
    {
      var state := new StreamState(id);
      ghost var before := streams;
      streams := streams[id := state];
      repr := repr + {state};
      streamCount := streamCount + 1;
      assert streams.Keys == before.Keys + {id};
      assert Table() == old(Table())[id := NewStream];
    }

    method OpenStream() returns (a: Answer)
      requires Valid()
      modifies this`streams, this`streamCount, this`sendQueue, this`repr, this`nextStreamId
      ensures Valid()
      ensures fresh(repr - old(repr))
      ensures View() == DoOpen(old(View())).0
      ensures a == DoOpen(old(View())).1
    {
      if closed { return Failed(ConnectionClosed); }
      if streamCount >= MAX_STREAMS { return Failed(TooManyStreams); }
      hide Register;
      var id := NextId();
      if id == 0 { id := NextId(); } // the counter wrapped onto the control stream; the next value is 1
      assert Table() == old(Table()) && id == NextCandidate(old(View()));
      a := RegisterStream(id, Syn(id), Opened(id));
    }

    method AcceptStream(id: StreamId) returns (a: Answer)
      requires Valid()
      modifies this`streams, this`streamCount, this`sendQueue, this`repr
      ensures Valid()
      ensures fresh(repr - old(repr))
      ensures View() == DoAccept(old(View()), id).0
      ensures a == DoAccept(old(View()), id).1
    {
      if closed { return Failed(ConnectionClosed); }
      if id == CONTROL_STREAM { return Failed(InvalidStreamId); }
      if streamCount >= MAX_STREAMS { return Failed(TooManyStreams); }
      a := RegisterStream(id, AckFrame(id), Done);
    }

    method Send(id: StreamId, data: Payload) returns (a: Answer)
      requires Valid()
      modifies this`sendQueue, repr
      ensures Valid()
      ensures View() == DoSend(old(View()), id, data).0
      ensures a == DoSend(old(View()), id, data).1
    {
      if closed { return Failed(ConnectionClosed); }
      if id !in streams { return Failed(StreamNotFound(id)); }
      a := SendOn(id, data);
    }

    method SendOn(id: StreamId, data: Payload) returns (a: Answer)
      requires Valid() && id in streams && !closed
      modifies this`sendQueue, repr
      ensures Valid()
      ensures View() == DoSend(old(View()), id, data).0
      ensures a == DoSend(old(View()), id, data).1
    {
      var refused := BufferPayload(id, data);
      if refused.Some? { return Failed(refused.value); }
      a := QueueBuffered(id, data);
      assert a.Failed? ==> Table() == old(Table());
    }

    /** Queues the payload just buffered, or takes it back. */
    method QueueBuffered(id: StreamId, data: Payload) returns (a: Answer)
      requires Valid() && id in streams && Table()[id].sent != []
      modifies this`sendQueue, repr
      ensures Valid()
      ensures var error, s := QueueError(old(View())), old(Table())[id];
        if error.Some?
        then a == Failed(error.value) && sendQueue == old(sendQueue)
             && Table() == old(Table())[id := s.(sent := s.sent[..|s.sent| - 1])]
        else a == Done && sendQueue == old(sendQueue) + [DataFrame(id, data)] && Table() == old(Table())
    {
      var error := QueueFrame(Frame(Header(id, NONE, 0, |data| % 0x1_0000_0000), data));
      assert Table() == old(Table());
      if error.Some? {
        DropLastPayload(id);
        return Failed(error.value);
      }
      return Done;
    }

    method BufferPayload(id: StreamId, data: Payload) returns (refused: Option<MuxError>)
      requires Valid() && id in streams
      modifies repr
      ensures Valid()
      ensures var s := old(Table())[id];
        if s.status.CanSend()
        then refused == None && Table() == old(Table())[id := s.(sent := s.sent + [data])]
        else refused == Some(StreamClosed(id)) && Table() == old(Table())
    {
      var stream := streams[id];
      refused := stream.QueueSend(data);
      assert Table() == old(Table())[id := stream.View()];
    }

    method DropLastPayload(id: StreamId)
      requires Valid() && id in streams && Table()[id].sent != []
      modifies repr
      ensures Valid()
      ensures var s := old(Table())[id]; Table() == old(Table())[id := s.(sent := s.sent[..|s.sent| - 1])]
    {
      var stream := streams[id];
      stream.sendBuffer := stream.sendBuffer[..|stream.sendBuffer| - 1];
      assert Table() == old(Table())[id := stream.View()];
    }

    method Recv(id: StreamId) returns (a: Answer)
      requires Valid()
      modifies repr
      ensures Valid()
      ensures View() == DoRecv(old(View()), id).0
      ensures a == DoRecv(old(View()), id).1
    {
      if closed { return Failed(ConnectionClosed); }
      if id !in streams { return Failed(StreamNotFound(id)); }
      var stream := streams[id];
      if stream.status == Reset { return Failed(StreamError(id)); }
      var data := stream.TakeRecv();
      assert Table() == old(Table())[id := stream.View()];
      return Received(data);
    }

    method CloseStream(id: StreamId) returns (a: Answer)
      requires Valid()
      modifies this`sendQueue, repr
      ensures Valid()
      ensures View() == DoCloseStream(old(View()), id).0
      ensures a == DoCloseStream(old(View()), id).1
    {
      if id !in streams { return Failed(StreamNotFound(id)); }
      var stream := streams[id];
      stream.CloseLocal();
      assert Table() == old(Table())[id := stream.View()];
      var error := QueueFrame(FinFrame(id));
      if error.Some? { return Failed(error.value); }
      return Done;
    }

    method ResetStream(id: StreamId) returns (a: Answer)
      requires Valid()
      modifies this`sendQueue, repr
      ensures Valid()
      ensures View() == DoResetStream(old(View()), id).0
      ensures a == DoResetStream(old(View()), id).1
    {
      if id !in streams { return Failed(StreamNotFound(id)); }
      var stream := streams[id];
      stream.ResetState();
      assert Table() == old(Table())[id := stream.View()];
      var error := QueueFrame(RstFrame(id));
      if error.Some? { return Failed(error.value); }
      return Done;
    }

    method RemoveStream(id: nat)
      requires Valid()
      modifies this`streams, this`streamCount
      ensures Valid() && View() == Remove(old(View()), id)
      ensures streams == old(streams) - {id}
    {
      if id in streams { DeleteEntry(id); }
      assert Table() == Remove(old(View()), id).streams;
    }

    method DeleteEntry(id: nat)
      requires Valid() && id in streams
      modifies this`streams, this`streamCount
      ensures Valid() && streams == old(streams) - {id} && streamCount == old(streamCount) - 1
      ensures Table() == old(Table()) - {id}
    {
      ghost var before := streams;
      streams := map s | s in streams && s != id :: streams[s];
      assert streams.Keys == before.Keys - {id};
      streamCount := streamCount - 1;
      assert Table() == old(Table()) - {id};
    }

    method ProcessFrame(header: Header, payload: Payload) returns (a: Answer)
      requires Valid()
      modifies this`streams, this`streamCount, this`sendQueue, this`repr, repr
      ensures Valid()
      ensures fresh(repr - old(repr))
      ensures View() == DoProcess(old(View()), header, payload).0
      ensures a == DoProcess(old(View()), header, payload).1
    {
      if closed { return Failed(ConnectionClosed); }
      if header.length != |payload| { return Failed(ProtocolError); }
      if !ValidShape(header, |payload|) { return Failed(ProtocolError); }
      if header.streamId == CONTROL_STREAM { return Done; }
      if Has(header.flags, SYN) {
        a := AcceptStream(header.streamId);
        return;
      }
      if header.streamId !in streams {
        var error := QueueFrame(RstFrame(header.streamId));
        if error.Some? { return Failed(error.value); }
        return Done;
      }
      a := ProcessStreamFrame(header, payload);
    }

    method ProcessStreamFrame(header: Header, payload: Payload) returns (a: Answer)
      requires Valid() && header.streamId in streams && !closed
      requires header.length == |payload| && ValidShape(header, |payload|)
      requires header.streamId != CONTROL_STREAM && !Has(header.flags, SYN)
      modifies this`streams, this`streamCount, repr
      ensures Valid()
      ensures View() == DoProcess(old(View()), header, payload).0
      ensures a == DoProcess(old(View()), header, payload).1
    {
      var id := header.streamId;
      var state := streams[id];
      if Has(header.flags, RST) {
        state.ResetState();
        assert Table() == old(Table())[id := state.View()];
        return Done;
      }
      if Has(header.flags, FIN) {
        FinishRemote(id);
        return Done;
      }
      if payload != [] {
        a := Deliver(id, payload);
        return;
      }
      return Done;
    }

    method FinishRemote(id: nat)
      requires Valid() && id in streams
      modifies this`streams, this`streamCount, repr
      ensures Valid()
      ensures View() == var c, next := old(View()), old(streams[id].status).CloseRemote();
        if next.IsClosed() then Remove(c, id) else SetStatus(c, id, next)
    {
      var state := streams[id];
      state.CloseRemote();
      assert Table() == old(Table())[id := state.View()];
      if state.status.IsClosed() {
        RemoveStream(id);
        assert Table() == Remove(old(View()), id).streams;
      }
    }

    method Deliver(id: StreamId, payload: Payload) returns (a: Answer)
      requires Valid() && id in streams
      modifies repr
      ensures Valid()
      ensures View() == DoDeliver(old(View()), id, payload).0
      ensures a == DoDeliver(old(View()), id, payload).1
    {
      var state := streams[id];
      assert state.id == id;
      var error := state.QueueRecv(payload, maxRecvBufferBytes);
      if error.Some? && error.value == ReceiveBufferFull { state.ResetState(); }
      assert Table() == old(Table())[id := state.View()];
      return if error.Some? then Failed(error.value) else Done;
    }

    /** Removes a stream opened here and drops its queued frames, keeping the others in order. */
    method RollbackStreamOpen(id: StreamId)
      requires Valid()
      modifies this`streams, this`streamCount, this`sendQueue
      ensures Valid() && View() == DoRollback(old(View()), id)
    {
      hide Without, Remove;
      RemoveStream(id);
      assert sendQueue == old(sendQueue);
      sendQueue := Retained(id);
    }

    method Retained(id: nat) returns (kept: seq<Frame>)
      ensures kept == Without(sendQueue, id)
    {
      kept := [];
      for i := 0 to |sendQueue|
        invariant kept == Without(sendQueue[..i], id)
      {
        assert sendQueue[..i + 1][..i] == sendQueue[..i];
        if sendQueue[i].header.streamId != id { kept := kept + [sendQueue[i]]; }
      }
      assert sendQueue[..|sendQueue|] == sendQueue;
    }

    method TakeFrame() returns (a: Answer)
      requires Valid()
      modifies this`sendQueue
      ensures Valid()
      ensures View() == DoTake(old(View())).0
      ensures a == DoTake(old(View())).1
    {
      if sendQueue == [] { return Taken(None); }
      var frame := sendQueue[0];
      sendQueue := sendQueue[1..];
      return Taken(Some(frame));
    }

    /** Also resets every stream object, so a caller still holding one sees the error. */
    method Close()
      requires Valid()
      modifies this, repr
      ensures Valid() && View() == DoClose(old(View()))
      ensures forall s :: s in old(streams) ==> old(streams[s]).status == Reset && old(streams[s]).sendBuffer == []
    {
      closed := true;
      sendQueue := [];
      ResetAll();
      streams := map[];
      streamCount := 0;
      assert Table() == map[];
    }

    method ResetAll()
      requires Valid()
      modifies repr
      ensures forall s :: s in streams ==> streams[s].status == Reset && streams[s].sendBuffer == []
    {
      var remaining := streams.Keys;
      while remaining != {}
        invariant remaining <= streams.Keys
        invariant forall s :: s in streams && s !in remaining ==>
          streams[s].status == Reset && streams[s].sendBuffer == []
        decreases |remaining|
      {
        var s :| s in remaining;
        streams[s].ResetState();
        remaining := remaining - {s};
      }
    }
  }
}
