/** The length-prefixed frame codec of src/transport/framing.rs: a version byte, a big-endian u32 length and
    the payload, decoded from a buffer that is fed piece by piece. */
module FramingSpec {
  import opened Bits
  import opened Errors

  const PROTOCOL_VERSION: byte := 1
  const HEADER_SIZE := 5

  datatype FrameError = MessageTooLarge(len: nat, max: nat) | InvalidVersion(version: byte)

  datatype Header = Header(version: byte, length: nat)

  function EncodeHeader(h: Header): (bs: seq<byte>)
    ensures |bs| == HEADER_SIZE
  {
    [h.version] + Be(h.length, 4)
  }

  function DecodeHeader(bs: seq<byte>): Header
    requires |bs| >= HEADER_SIZE
  {
    Header(bs[0], FromBe(bs[1..5]))
  }

  datatype Outcome = Incomplete | Message(payload: seq<byte>, rest: seq<byte>) | Fault(error: FrameError)

  /** One attempt to decode the front of `buf`. */
  function DecodeStep(buf: seq<byte>, max: nat): (o: Outcome)
    ensures o.Message? ==> |o.rest| < |buf|
  {
    if |buf| < HEADER_SIZE then Incomplete
    else
      var h := DecodeHeader(buf);
      if h.version != PROTOCOL_VERSION then Fault(InvalidVersion(h.version))
      else if h.length > max then Fault(MessageTooLarge(h.length, max))
      else if |buf| < HEADER_SIZE + h.length then Incomplete
      else Message(buf[HEADER_SIZE..HEADER_SIZE + h.length], buf[HEADER_SIZE + h.length..])
  }

  /** The length that five bytes of header announce. */
  function Announced(buf: seq<byte>): nat
    requires |buf| >= 5
  {
    Weighted(buf[1], buf[2], buf[3], buf[4])
  }

  function Weighted(a: nat, b: nat, c: nat, d: nat): nat {
    0x100_0000 * a + 0x1_0000 * b + 0x100 * c + d
  }

  /** What the bytes decide: as soon as five are there, another version or an announced length above the limit is
      refused; a frame is taken exactly when all of it is there, and it is the announced bytes behind the header. */
  lemma StepIsDecided(buf: seq<byte>, max: nat, payload: seq<byte>, rest: seq<byte>)
    ensures var o := DecodeStep(buf, max);
      && (o.Fault? <==> |buf| >= 5 && (buf[0] != 1 || Announced(buf) > max))
      && (o.Fault? ==> o.error == if buf[0] != 1 then InvalidVersion(buf[0])
                                  else MessageTooLarge(Announced(buf), max))
      && (o.Incomplete? <==> |buf| < 5 || (buf[0] == 1 && |buf| - 5 < Announced(buf) <= max))
      && (o == Message(payload, rest) <==>
            |buf| >= 5 && buf[0] == 1 && |payload| == Announced(buf) <= max && buf == buf[..5] + payload + rest)
  {
    if |buf| >= 5 { FromBeOfFour(buf[1..5]); }
    hide FromBe;
    if |buf| >= 5 && buf == buf[..5] + payload + rest {
      assert buf[5..5 + |payload|] == payload && buf[5 + |payload|..] == rest;
    }
  }

  lemma {:induction false} FromBeOfFour(bs: seq<byte>)
    requires |bs| == 4
    ensures FromBe(bs) == Weighted(bs[0], bs[1], bs[2], bs[3])
  {
    assert bs[..3][..2] == bs[..2] && bs[..2][..1] == bs[..1] && bs[..1][..0] == [];
    assert FromBe(bs[..1]) == bs[0];
    assert FromBe(bs[..2]) == Weighted(0, 0, bs[0], bs[1]);
    assert FromBe(bs[..3]) == Weighted(0, bs[0], bs[1], bs[2]);
  }

  /** Encoding casts the length to u32 before it is checked and written. */
  function Encode(msg: seq<byte>, max: nat): Result<seq<byte>, FrameError> {
    var len := |msg| % 0x1_0000_0000;
    if len > max then Err(MessageTooLarge(len, max))
    else Ok(EncodeHeader(Header(PROTOCOL_VERSION, len)) + msg)
  }

  /** An encoded message comes back whole, with whatever followed it, exactly when its length fits a u32. */
  lemma EncodedComesBack(msg: seq<byte>, rest: seq<byte>, max: nat)
    requires Encode(msg, max).Ok?
    ensures DecodeStep(Encode(msg, max).value + rest, max) == Message(msg, rest) <==> |msg| < U32
    ensures |msg| <= max && max < U32 ==> |msg| < U32
  {
    hide EncodeHeader, DecodeStep;
    var len := |msg| % 0x1_0000_0000;
    var header := EncodeHeader(Header(PROTOCOL_VERSION, len));
    ConcatAssoc(header, msg, rest);
    DecodesBehindHeader(len, msg + rest, max);
    assert (msg + rest)[..len] == msg[..len];
    if |msg| < U32 {
      assert msg[..len] == msg && (msg + rest)[len..] == rest;
    } else {
      assert |msg[..len]| < |msg|;
    }
  }

  lemma DecodesBehindHeader(len: nat, body: seq<byte>, max: nat)
    requires len < U32 && len <= max && len <= |body|
    ensures DecodeStep(EncodeHeader(Header(PROTOCOL_VERSION, len)) + body, max) == Message(body[..len], body[len..])
  {
    Pow256Values();
    BeRoundTrip(len, 4);
    hide Be, FromBe;
    var header := EncodeHeader(Header(PROTOCOL_VERSION, len));
    var buf := header + body;
    assert buf[0] == PROTOCOL_VERSION && buf[1..5] == Be(len, 4);
    assert buf[HEADER_SIZE..HEADER_SIZE + len] == body[..len] && buf[HEADER_SIZE + len..] == body[len..];
  }

  /** More input never changes what has been decoded. */
  lemma StepIsStable(buf: seq<byte>, more: seq<byte>, max: nat)
    ensures match DecodeStep(buf, max)
      case Incomplete => true
      case Message(p, rest) => DecodeStep(buf + more, max) == Message(p, rest + more)
      case Fault(e) => DecodeStep(buf + more, max) == Fault(e)
  {
    if |buf| >= HEADER_SIZE {
      assert (buf + more)[1..5] == buf[1..5];
      var n := HEADER_SIZE + DecodeHeader(buf).length;
      if |buf| >= n {
        assert (buf + more)[HEADER_SIZE..n] == buf[HEADER_SIZE..n];
        assert (buf + more)[n..] == buf[n..] + more;
      }
    }
  }

  /** The messages decoded, the first error if any, and the bytes left; an error clears the buffer. */
  datatype Drained = Drained(msgs: seq<seq<byte>>, error: Option<FrameError>, rest: seq<byte>)

  /** Decode until nothing more comes. */
  function Drain(buf: seq<byte>, max: nat): Drained
    decreases |buf|
  {
    match DecodeStep(buf, max)
    case Incomplete => Drained([], None, buf)
    case Fault(e) => Drained([], Some(e), [])
    case Message(p, rest) => Prefixed([p], Drain(rest, max))
  }

  function Prefixed(msgs: seq<seq<byte>>, d: Drained): Drained {
    Drained(msgs + d.msgs, d.error, d.rest)
  }

  lemma {:induction false} DrainResumes(buf: seq<byte>, more: seq<byte>, max: nat)
    ensures var d := Drain(buf, max);
      Drain(buf + more, max) == if d.error.Some? then d else Prefixed(d.msgs, Drain(d.rest + more, max))
    decreases |buf|
  {
    StepIsStable(buf, more, max);
    match DecodeStep(buf, max)
    case Message(p, rest) =>
      DrainResumes(rest, more, max);
      var d := Drain(rest, max);
      if d.error.None? {
        ConcatAssoc([p], d.msgs, Drain(d.rest + more, max).msgs);
      }
    case Incomplete =>
      assert [] + Drain(buf + more, max).msgs == Drain(buf + more, max).msgs;
    case Fault(_) =>
  }

  function Concat(chunks: seq<seq<byte>>): seq<byte> {
    if chunks == [] then [] else chunks[0] + Concat(chunks[1..])
  }

  /** Feed the chunks one after the other, draining after each, and stop at the first error. */
  function FeedAll(buf: seq<byte>, chunks: seq<seq<byte>>, max: nat): Drained
    decreases |chunks|
  {
    if chunks == [] then Drained([], None, buf)
    else
      var d := Drain(buf + chunks[0], max);
      if d.error.Some? then d else Prefixed(d.msgs, FeedAll(d.rest, chunks[1..], max))
  }

  /** A buffer left by draining is incomplete. */
  lemma {:induction false} DrainedIsIncomplete(buf: seq<byte>, max: nat)
    ensures Drain(buf, max).error.None? ==> DecodeStep(Drain(buf, max).rest, max).Incomplete?
    decreases |buf|
  {
    match DecodeStep(buf, max)
    case Message(_, rest) => DrainedIsIncomplete(rest, max);
    case _ =>
  }

  /** Chunking independence: however the bytes are split, the messages, the first error and the bytes left are
      those of feeding them at once. */
  lemma {:induction false} ChunkingDoesNotMatter(buf: seq<byte>, chunks: seq<seq<byte>>, max: nat)
    requires DecodeStep(buf, max).Incomplete?
    ensures FeedAll(buf, chunks, max) == Drain(buf + Concat(chunks), max)
    decreases |chunks|
  {
    if chunks == [] {
      assert buf + Concat(chunks) == buf;
    } else {
      var first, others := chunks[0], Concat(chunks[1..]);
      DrainResumes(buf + first, others, max);
      ConcatAssoc(buf, first, others);
      var d := Drain(buf + first, max);
      if d.error.None? {
        DrainedIsIncomplete(buf + first, max);
        ChunkingDoesNotMatter(d.rest, chunks[1..], max);
      }
    }
  }

  function EncodeAll(msgs: seq<seq<byte>>, max: nat): seq<byte>
    requires forall m :: m in msgs ==> |m| <= max < U32
  {
    if msgs == [] then [] else Encode(msgs[0], max).value + EncodeAll(msgs[1..], max)
  }

  lemma {:induction false} DrainEncoded(msgs: seq<seq<byte>>, max: nat)
    requires forall m :: m in msgs ==> |m| <= max < U32
    ensures Drain(EncodeAll(msgs, max), max) == Drained(msgs, None, [])
    decreases |msgs|
  {
    if msgs != [] {
      EncodedComesBack(msgs[0], EncodeAll(msgs[1..], max), max);
      DrainEncoded(msgs[1..], max);
      assert [msgs[0]] + msgs[1..] == msgs;
    }
  }

  /** Messages within the limit, sent in any pieces, arrive exactly and leave nothing behind. */
  lemma {:induction false} StreamRoundTrip(msgs: seq<seq<byte>>, chunks: seq<seq<byte>>, max: nat)
    requires forall m :: m in msgs ==> |m| <= max < U32
    requires Concat(chunks) == EncodeAll(msgs, max)
    ensures FeedAll([], chunks, max) == Drained(msgs, None, [])
  {
    ChunkingDoesNotMatter([], chunks, max);
    DrainEncoded(msgs, max);
    assert [] + Concat(chunks) == Concat(chunks);
  }
}

module Framing {
  import opened Bits
  import opened Errors
  import opened FramingSpec

  class FrameCodec {
    const maxSize: nat
    var readBuffer: seq<byte>

    constructor (maxSize: nat)
      ensures readBuffer == [] && this.maxSize == maxSize
    {
      this.maxSize, readBuffer := maxSize, [];
    }

    method Feed(data: seq<byte>)
      modifies this`readBuffer
      ensures readBuffer == old(readBuffer) + data
    {
      readBuffer := readBuffer + data;
    }

    method HasCompleteFrame() returns (b: bool)
      ensures b <==> !DecodeStep(readBuffer, maxSize).Incomplete?
    {
      if |readBuffer| < HEADER_SIZE { return false; }
      var header := DecodeHeader(readBuffer);
      if header.version != PROTOCOL_VERSION || header.length > maxSize { return true; }
      return |readBuffer| >= HEADER_SIZE + header.length;
    }

    /** Decodes from `src`, handing back what is left of it; `src` is untouched unless a frame is taken. */
    method DecodeFrom(src: seq<byte>) returns (r: Result<Option<seq<byte>>, FrameError>, rest: seq<byte>)
      ensures match DecodeStep(src, maxSize)
        case Incomplete => r == Ok(None) && rest == src
        case Message(p, left) => r == Ok(Some(p)) && rest == left
        case Fault(e) => r == Err(e) && rest == src
    {
      if |src| < HEADER_SIZE { return Ok(None), src; }
      var header := DecodeHeader(src);
      if header.version != PROTOCOL_VERSION { return Err(InvalidVersion(header.version)), src; }
      if header.length > maxSize { return Err(MessageTooLarge(header.length, maxSize)), src; }
      var frameSize := HEADER_SIZE + header.length;
      if |src| < frameSize { return Ok(None), src; }
      return Ok(Some(src[HEADER_SIZE..frameSize])), src[frameSize..];
    }

    method Decode() returns (r: Result<Option<seq<byte>>, FrameError>)
      modifies this`readBuffer
      ensures match DecodeStep(old(readBuffer), maxSize)
        case Incomplete => r == Ok(None) && readBuffer == old(readBuffer)
        case Message(p, left) => r == Ok(Some(p)) && readBuffer == left
        case Fault(e) => r == Err(e) && readBuffer == []
    {
      var probe := readBuffer;
      r, probe := DecodeFrom(probe);
      match r
      case Ok(Some(bytes)) =>
        var consumed := HEADER_SIZE + |bytes|;
        readBuffer := readBuffer[consumed..];
      case Ok(None) =>
      case Err(_) =>
        readBuffer := [];
    }

    /** The loop of a reader: decode until nothing comes or an error does. */
    method DecodeAvailable() returns (msgs: seq<seq<byte>>, error: Option<FrameError>)
      modifies this`readBuffer
      ensures Drained(msgs, error, readBuffer) == Drain(old(readBuffer), maxSize)
    {
      msgs, error := [], None;
      while true
        invariant error.None? && Prefixed(msgs, Drain(readBuffer, maxSize)) == Drain(old(readBuffer), maxSize)
        decreases |readBuffer|
      {
        ghost var before := readBuffer;
        var r := Decode();
        match r
        case Ok(Some(bytes)) =>
          ConcatAssoc(msgs, [bytes], Drain(readBuffer, maxSize).msgs);
          msgs := msgs + [bytes];
        case Ok(None) => return;
        case Err(e) => return msgs, Some(e);
      }
    }

    method EncodeMessage(msg: seq<byte>, dst: seq<byte>) returns (r: Result<(), FrameError>, dst': seq<byte>)
      ensures match Encode(msg, maxSize)
        case Ok(bytes) => r == Ok(()) && dst' == dst + bytes
        case Err(e) => r == Err(e) && dst' == dst
    {
      var len := |msg| % 0x1_0000_0000;
      if len > maxSize { return Err(MessageTooLarge(len, maxSize)), dst; }
      dst' := dst + EncodeHeader(Header(PROTOCOL_VERSION, len));
      dst' := dst' + msg;
      return Ok(()), dst';
    }
  }
}
