/** Frame headers of src/multiplex/header.rs and the multiplexed connection of src/multiplex/connection.rs
    as a function on values: one public call is one step. `MuxRuns` proves what every run keeps,
    `MuxConnection` (MuxConnection.dfy) is the object that takes these steps in place. */
module MuxFrames {
  import opened Bits
  import opened Errors

  const NONE: byte := 0
  const FIN: byte := 1
  const RST: byte := 2
  const ACK: byte := 4
  const SYN: byte := 8
  const KNOWN_MASK: byte := 15
  const CONTROL_STREAM: nat := 0
  const HEADER_SIZE := 8

  type StreamId = id: nat | id < 0x1_0000

  datatype Header = Header(streamId: StreamId, flags: byte, reserved: byte, length: nat)

  datatype Frame = Frame(header: Header, payload: seq<byte>)

  predicate Has(flags: byte, flag: byte) {
    And(flags, flag) != 0
  }

  predicate HasUnknownBits(flags: byte) {
    AndNot(flags, KNOWN_MASK) != 0
  }

  function EncodeHeader(h: Header): (bs: seq<byte>)
    ensures |bs| == HEADER_SIZE
  {
    Be(h.streamId, 2) + [h.flags] + [h.reserved] + Be(h.length, 4)
  }

  function DecodeHeader(bs: seq<byte>): Option<Header> {
    if |bs| < HEADER_SIZE then None
    else
      BeOfFromBe(bs[0..2]);
      Pow256Values();
      Some(Header(FromBe(bs[0..2]), bs[2], bs[3], FromBe(bs[4..8])))
  }

  /** Decoding inverts encoding, whatever follows, and a decoded header re-encodes to the bytes it came from. */
  lemma HeaderCodec(h: Header, rest: seq<byte>, bs: seq<byte>)
    requires h.length < U32
    ensures DecodeHeader(EncodeHeader(h) + rest) == Some(h)
    ensures DecodeHeader(bs).Some? ==> EncodeHeader(DecodeHeader(bs).value) == bs[..HEADER_SIZE]
  {
    Pow256Values();
    BeRoundTrip(h.streamId, 2);
    BeRoundTrip(h.length, 4);
    var e := EncodeHeader(h) + rest;
    assert e[0..2] == Be(h.streamId, 2) && e[4..8] == Be(h.length, 4);
    if |bs| >= HEADER_SIZE {
      BeOfFromBe(bs[0..2]);
      BeOfFromBe(bs[4..8]);
      assert bs[..8] == bs[0..2] + [bs[2]] + [bs[3]] + bs[4..8];
    }
  }

  /** `validate_frame_shape`. */
  predicate ValidShape(h: Header, payloadLen: nat) {
    if h.reserved != 0 then false
    else if HasUnknownBits(h.flags) then false
    else if h.streamId == CONTROL_STREAM then h.flags == NONE && payloadLen == 0
    else if Has(h.flags, SYN) && (h.flags != SYN || payloadLen != 0) then false
    else if Has(h.flags, FIN) && Has(h.flags, RST) then false
    else !(payloadLen != 0 && (Has(h.flags, FIN) || Has(h.flags, RST) || Has(h.flags, ACK)))
  }

  /** The admitted frames are data, a bare SYN, and FIN, RST or ACK alone or ACK with one of the other two;
      only data carries a payload. */
  lemma ShapeMeaning(h: Header, payloadLen: nat)
    ensures ValidShape(h, payloadLen) <==>
      && h.reserved == 0
      && (h.streamId == CONTROL_STREAM ==> h.flags == NONE && payloadLen == 0)
      && h.flags in {NONE, FIN, RST, ACK, SYN, 5, 6}
      && (payloadLen != 0 ==> h.flags == NONE)
  {
    FlagBits(h.flags);
  }

  lemma FlagBits(flags: byte)
    ensures HasUnknownBits(flags) <==> flags >= 16
    ensures Has(flags, FIN) <==> flags % 2 == 1
    ensures Has(flags, RST) <==> flags / 2 % 2 == 1
    ensures Has(flags, ACK) <==> flags / 4 % 2 == 1
    ensures Has(flags, SYN) <==> flags / 8 % 2 == 1
  {
    AndPow2(flags, 0);
    AndPow2(flags, 1);
    AndPow2(flags, 2);
    AndPow2(flags, 3);
    assert Bit(flags, 2) == Bit(flags / 2, 1) == Bit(flags / 4, 0);
    assert Bit(flags, 3) == Bit(flags / 2, 2) == Bit(flags / 4, 1) == Bit(flags / 8, 0);
    AndNotMask(flags, 4);
    assert Pow2(1) == 2 && Pow2(2) == 4 && Pow2(3) == 8 && Pow2(4) == 16;
  }
}

module MuxSpec {
  import opened Bits
  import opened Errors
  import opened MuxFrames

  const MAX_STREAMS: nat := 65535

  datatype MuxError =
    | StreamNotFound(id: nat)
    | StreamAlreadyExists(id: nat)
    | StreamClosed(id: nat)
    | TooManyStreams
    | InvalidStreamId
    | ConnectionClosed
    | SendBufferFull
    | ReceiveBufferFull
    | StreamError(id: nat)
    | ProtocolError

  datatype Status = Open | HalfClosedLocal | HalfClosedRemote | Closed | Reset {
    predicate CanSend() { Open? || HalfClosedRemote? }
    predicate CanReceive() { Open? || HalfClosedLocal? }
    predicate IsClosed() { Closed? || Reset? }

    function CloseLocal(): Status {
      if Open? then HalfClosedLocal else if HalfClosedRemote? then Closed else this
    }

    function CloseRemote(): Status {
      if Open? then HalfClosedRemote else if HalfClosedLocal? then Closed else this
    }
  }

  type Payload = seq<byte>

  /** `sent` and `received` are the send and receive buffers, `buffered` the unread byte count kept beside them. */
  datatype Stream = Stream(status: Status, sent: seq<Payload>, received: seq<Payload>, buffered: nat)

  const NewStream := Stream(Open, [], [], 0)

  datatype Conn = Conn(streams: map<nat, Stream>, nextId: StreamId, queue: seq<Frame>, closed: bool,
                       streamCount: nat, maxQueue: nat, maxRecv: nat)

  datatype Answer = Done | Opened(id: nat) | Received(payload: Option<Payload>) | Taken(frame: Option<Frame>)
                  | Failed(error: MuxError)

  datatype Op =
    | OpenStream
    | AcceptStream(id: StreamId)
    | Send(id: StreamId, data: Payload)
    | Recv(id: StreamId)
    | CloseStream(id: StreamId)
    | ResetStream(id: StreamId)
    | ProcessFrame(header: Header, payload: Payload)
    | TakeFrame
    | Rollback(id: StreamId)
    | Close

  function New(maxQueue: nat, maxRecv: nat): Conn {
    Conn(map[], 1, [], false, 0, maxQueue, maxRecv)
  }

  function Syn(id: StreamId): Frame { Frame(Header(id, SYN, 0, 0), []) }
  function AckFrame(id: StreamId): Frame { Frame(Header(id, ACK, 0, 0), []) }
  function FinFrame(id: StreamId): Frame { Frame(Header(id, FIN, 0, 0), []) }
  function RstFrame(id: StreamId): Frame { Frame(Header(id, RST, 0, 0), []) }
  function DataFrame(id: StreamId, data: Payload): Frame { Frame(Header(id, NONE, 0, |data| % 0x1_0000_0000), data) }

  /** The outcome of `queue_frame`: an error, or none. */
  function QueueError(c: Conn): Option<MuxError> {
    if c.closed then Some(ConnectionClosed)
    else if |c.queue| >= c.maxQueue then Some(SendBufferFull)
    else None
  }

  function Enqueue(c: Conn, f: Frame): Conn {
    c.(queue := c.queue + [f])
  }

  /** The identifier the next `open_stream` tries: the counter, skipping the control stream. */
  function NextCandidate(c: Conn): (id: StreamId)
    ensures id != CONTROL_STREAM
  {
    if c.nextId == 0 then 1 else c.nextId
  }

  function Incremented(id: StreamId): StreamId {
    (id + 1) % 0x1_0000
  }

  /** Registers `id` and queues its opening frame; a full queue undoes the registration. */
  function Register(c: Conn, id: StreamId, opener: Frame, ok: Answer): (Conn, Answer) {
    if id in c.streams then (c, Failed(StreamAlreadyExists(id)))
    else match QueueError(c)
      case Some(e) => (c, Failed(e))
      case None => (Enqueue(c.(streams := c.streams[id := NewStream], streamCount := c.streamCount + 1), opener), ok)
  }

  function DoOpen(c: Conn): (Conn, Answer) {
    if c.closed then (c, Failed(ConnectionClosed))
    else if c.streamCount >= MAX_STREAMS then (c, Failed(TooManyStreams))
    else
      var id := NextCandidate(c);
      Register(c.(nextId := Incremented(id)), id, Syn(id), Opened(id))
  }

  function DoAccept(c: Conn, id: StreamId): (Conn, Answer) {
    if c.closed then (c, Failed(ConnectionClosed))
    else if id == CONTROL_STREAM then (c, Failed(InvalidStreamId))
    else if c.streamCount >= MAX_STREAMS then (c, Failed(TooManyStreams))
    else Register(c, id, AckFrame(id), Done)
  }

  function DoSend(c: Conn, id: StreamId, data: Payload): (Conn, Answer) {
    if c.closed then (c, Failed(ConnectionClosed))
    else if id !in c.streams then (c, Failed(StreamNotFound(id)))
    else if !c.streams[id].status.CanSend() then (c, Failed(StreamClosed(id)))
    else match QueueError(c)
      case Some(e) => (c, Failed(e))
      case None =>
        var s := c.streams[id];
        (Enqueue(c.(streams := c.streams[id := s.(sent := s.sent + [data])]), DataFrame(id, data)), Done)
  }

  function DoRecv(c: Conn, id: StreamId): (Conn, Answer) {
    if c.closed then (c, Failed(ConnectionClosed))
    else if id !in c.streams then (c, Failed(StreamNotFound(id)))
    else
      var s := c.streams[id];
      if s.status.Reset? then (c, Failed(StreamError(id)))
      else if s.received == [] then (c, Received(None))
      else (c.(streams := c.streams[id := Taking(s)]), Received(Some(s.received[0])))
  }

  function Taking(s: Stream): Stream
    requires s.received != []
  {
    s.(received := s.received[1..], buffered := Max(s.buffered - |s.received[0]|, 0))
  }

  function SetStatus(c: Conn, id: nat, status: Status): Conn
    requires id in c.streams
  {
    c.(streams := c.streams[id := c.streams[id].(status := status)])
  }

  function ResetEntry(c: Conn, id: nat): Conn
    requires id in c.streams
  {
    c.(streams := c.streams[id := c.streams[id].(status := Reset, sent := [])])
  }

  /** A status change made first, then the frame announcing it; a full queue does not undo the change. */
  function Announce(c: Conn, f: Frame): (Conn, Answer) {
    match QueueError(c)
    case Some(e) => (c, Failed(e))
    case None => (Enqueue(c, f), Done)
  }

  function DoCloseStream(c: Conn, id: StreamId): (Conn, Answer) {
    if id !in c.streams then (c, Failed(StreamNotFound(id)))
    else Announce(SetStatus(c, id, c.streams[id].status.CloseLocal()), FinFrame(id))
  }

  function DoResetStream(c: Conn, id: StreamId): (Conn, Answer) {
    if id !in c.streams then (c, Failed(StreamNotFound(id)))
    else Announce(ResetEntry(c, id), RstFrame(id))
  }

  function Remove(c: Conn, id: nat): Conn {
    if id in c.streams
    then c.(streams := map s | s in c.streams && s != id :: c.streams[s], streamCount := Max(c.streamCount - 1, 0))
    else c
  }

  function DoProcess(c: Conn, h: Header, payload: Payload): (Conn, Answer) {
    if c.closed then (c, Failed(ConnectionClosed))
    else if h.length != |payload| then (c, Failed(ProtocolError))
    else if !ValidShape(h, |payload|) then (c, Failed(ProtocolError))
    else if h.streamId == CONTROL_STREAM then (c, Done)
    else if Has(h.flags, SYN) then DoAccept(c, h.streamId)
    else if h.streamId !in c.streams then Announce(c, RstFrame(h.streamId))
    else if Has(h.flags, RST) then (ResetEntry(c, h.streamId), Done)
    else if Has(h.flags, FIN) then
      var next := c.streams[h.streamId].status.CloseRemote();
      if next.IsClosed() then (Remove(c, h.streamId), Done) else (SetStatus(c, h.streamId, next), Done)
    else if payload == [] then (c, Done)
    else DoDeliver(c, h.streamId, payload)
  }

  function DoDeliver(c: Conn, id: StreamId, payload: Payload): (Conn, Answer)
    requires id in c.streams
  {
    var s := c.streams[id];
    if !s.status.CanReceive() then (c, Failed(StreamClosed(id)))
    else if s.buffered + |payload| > c.maxRecv then (ResetEntry(c, id), Failed(ReceiveBufferFull))
    else
      var s' := s.(received := s.received + [payload], buffered := s.buffered + |payload|);
      (c.(streams := c.streams[id := s']), Done)
  }

  function DoTake(c: Conn): (Conn, Answer) {
    if c.queue == [] then (c, Taken(None)) else (c.(queue := c.queue[1..]), Taken(Some(c.queue[0])))
  }

  /** The frames that do not belong to stream `id`. */
  function Without(q: seq<Frame>, id: nat): seq<Frame> {
    if q == [] then []
    else Without(q[..|q| - 1], id) + if q[|q| - 1].header.streamId != id then [q[|q| - 1]] else []
  }

  function DoRollback(c: Conn, id: StreamId): Conn {
    Remove(c, id).(queue := Without(c.queue, id))
  }

  function DoClose(c: Conn): Conn {
    c.(closed := true, queue := [], streams := map[], streamCount := 0)
  }

  function Step(c: Conn, op: Op): (Conn, Answer) {
    match op
    case OpenStream => DoOpen(c)
    case AcceptStream(id) => DoAccept(c, id)
    case Send(id, data) => DoSend(c, id, data)
    case Recv(id) => DoRecv(c, id)
    case CloseStream(id) => DoCloseStream(c, id)
    case ResetStream(id) => DoResetStream(c, id)
    case ProcessFrame(h, payload) => DoProcess(c, h, payload)
    case TakeFrame => DoTake(c)
    case Rollback(id) => (DoRollback(c, id), Done)
    case Close => (DoClose(c), Done)
  }
}
