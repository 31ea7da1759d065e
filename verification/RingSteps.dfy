/** The ring buffer under concurrency: one producer and one consumer, each taken apart into its atomic
    steps (src/stream/ring_buffer.rs:32-53, 130-216), interleaved in every order. Atomics are
    sequentially consistent; a block copy moves its bytes one at a time in any order. */
module RingSteps {
  import opened Bits
  import opened RingLayout

  datatype Producer =
    | PIdle
    | PLoaded(data: seq<byte>, seen: nat)                     // credit read, exchange not yet tried
    | PReserved(data: seq<byte>)                              // exchange succeeded
    | PCopying(data: seq<byte>, at: nat, done: set<nat>)      // write position read, some bytes stored

  datatype Consumer =
    | CIdle
    | CSawWrite(want: nat, seen: nat, peek: bool)             // inside `len`, write position read
    | CSized(n: nat, peek: bool)                              // number of bytes to read is fixed
    | CCopying(at: nat, n: nat, got: map<nat, byte>, peek: bool)
    | CAdvanced(n: nat)                                       // read position stored, credit not yet returned

  /** `pushed` and `popped` record every byte published and every byte consumed. */
  datatype State = State(buf: seq<byte>, write: nat, read: nat, credit: nat,
                         producer: Producer, consumer: Consumer,
                         pushed: seq<byte>, popped: seq<byte>)

  datatype Step =
    | PLoad(data: seq<byte>) | PExchange | PExchangeFails | PRefuse | PLocate | PCopy(j: nat) | PPublish
    | CLoadWrite(want: nat, peek: bool) | CLoadRead | CLocate | CCopy(j: nat) | CAdvance | CRelease | CPeekDone

  /** The capacity is any positive number: the results about steps need no power of two (which only makes the mask of
      RingLayout.MaskIsSlot a slot), and credit is a number, as a u32 is for capacities below 2^32
      (RingLayout.OrderIsLeast). */
  function Init(cap: nat): State
    requires cap > 0
  {
    State(seq(cap, _ => 0), 0, 0, cap, PIdle, CIdle, [], [])
  }

  predicate Enabled(s: State, step: Step)
  {
    match step
    case PLoad(data) => s.producer.PIdle? && |data| <= |s.buf|
    case PExchange => s.producer.PLoaded? && |s.producer.data| <= s.producer.seen == s.credit
    case PExchangeFails => s.producer.PLoaded? && |s.producer.data| <= s.producer.seen
    case PRefuse => s.producer.PLoaded? && s.producer.seen < |s.producer.data|
    case PLocate => s.producer.PReserved?
    case PCopy(j) => s.producer.PCopying? && j < |s.producer.data| && j !in s.producer.done && |s.buf| > 0
    case PPublish => s.producer.PCopying? && forall j :: 0 <= j < |s.producer.data| ==> j in s.producer.done
    case CLoadWrite(want, peek) => s.consumer.CIdle?
    case CLoadRead => s.consumer.CSawWrite?
    case CLocate => s.consumer.CSized?
    case CCopy(j) => s.consumer.CCopying? && j < s.consumer.n && j !in s.consumer.got && |s.buf| > 0
    case CAdvance =>
      s.consumer.CCopying? && !s.consumer.peek && forall j :: 0 <= j < s.consumer.n ==> j in s.consumer.got
    case CPeekDone =>
      s.consumer.CCopying? && s.consumer.peek && forall j :: 0 <= j < s.consumer.n ==> j in s.consumer.got
    case CRelease => s.consumer.CAdvanced?
  }

  /** What the consumer's caller finds in its buffer once every byte has been copied. */
  function Received(c: Consumer): (r: seq<byte>)
    requires c.CCopying? && forall j :: 0 <= j < c.n ==> j in c.got
    ensures |r| == c.n
  {
    seq(c.n, (j: nat) requires j < c.n => c.got[j])
  }

  function Do(s: State, step: Step): State
    requires Enabled(s, step)
  {
    match step
    case PLoad(data) => s.(producer := PLoaded(data, s.credit))
    case PExchange => s.(credit := s.credit - |s.producer.data|, producer := PReserved(s.producer.data))
    case PExchangeFails => s.(producer := PLoaded(s.producer.data, s.credit))
    case PRefuse => s.(producer := PIdle)
    case PLocate => s.(producer := PCopying(s.producer.data, s.write, {}))
    case PCopy(j) =>
      s.(buf := s.buf[SlotOf(s.producer.at + j, |s.buf|) := s.producer.data[j]],
         producer := s.producer.(done := s.producer.done + {j}))
    case PPublish =>
      s.(write := s.producer.at + |s.producer.data|, producer := PIdle, pushed := s.pushed + s.producer.data)
    case CLoadWrite(want, peek) => s.(consumer := CSawWrite(want, s.write, peek))
    case CLoadRead =>
      var n := Min(s.consumer.want, s.consumer.seen - s.read);
      if n <= 0 then s.(consumer := CIdle) else s.(consumer := CSized(n, s.consumer.peek))
    case CLocate => s.(consumer := CCopying(s.read, s.consumer.n, map[], s.consumer.peek))
    case CCopy(j) =>
      s.(consumer := s.consumer.(got := s.consumer.got[j := s.buf[SlotOf(s.consumer.at + j, |s.buf|)]]))
    case CAdvance =>
      s.(read := s.consumer.at + s.consumer.n, popped := s.popped + Received(s.consumer),
         consumer := CAdvanced(s.consumer.n))
    case CPeekDone => s.(consumer := CIdle)
    case CRelease => s.(credit := s.credit + s.consumer.n, consumer := CIdle)
  }

  predicate ValidRun(s: State, run: seq<Step>)
    decreases |run|
  {
    run == [] || (Enabled(s, run[0]) && ValidRun(Do(s, run[0]), run[1..]))
  }

  function Run(s: State, run: seq<Step>): State
    requires ValidRun(s, run)
    decreases |run|
  {
    if run == [] then s else Run(Do(s, run[0]), run[1..])
  }

  /** Bytes reserved by the producer and not yet published. */
  function Reserved(p: Producer): nat {
    if p.PReserved? || p.PCopying? then |p.data| else 0
  }

  /** Bytes consumed whose credit has not been returned. */
  function Unreleased(c: Consumer): nat {
    if c.CAdvanced? then c.n else 0
  }

  ghost predicate Inv(s: State) {
    && InvCounts(s) && InvUnread(s) && InvProducer(s) && InvConsumer(s)
  }

  ghost predicate InvCounts(s: State) {
    && |s.buf| > 0
    && s.write == |s.pushed| && s.read == |s.popped|
    && s.read <= s.write && s.popped == s.pushed[..s.read]
    && s.credit + Reserved(s.producer) + (s.write - s.read) + Unreleased(s.consumer) == |s.buf|
  }

  /** Every unread position holds the byte that was pushed there. */
  ghost predicate InvUnread(s: State)
    requires InvCounts(s)
  {
    forall p {:trigger s.pushed[p]} :: s.read <= p < s.write ==> s.buf[SlotOf(p, |s.buf|)] == s.pushed[p]
  }

  ghost predicate InvProducer(s: State)
    requires InvCounts(s)
  {
    s.producer.PCopying? ==>
      && s.producer.at == s.write
      && forall j {:trigger j in s.producer.done} :: j in s.producer.done ==>
           0 <= j < |s.producer.data| && s.buf[SlotOf(s.write + j, |s.buf|)] == s.producer.data[j]
  }

  ghost predicate InvConsumer(s: State)
    requires InvCounts(s)
  {
    match s.consumer
    case CSawWrite(want, seen, _) => s.read <= seen <= s.write
    case CSized(n, _) => n <= s.write - s.read
    case CCopying(at, n, got, _) =>
      && at == s.read && n <= s.write - s.read
      && forall j {:trigger j in got} :: j in got ==> 0 <= j < n && got[j] == s.pushed[s.read + j]
    case _ => true
  }

  lemma InitEstablishes(cap: nat)
    requires cap > 0
    ensures Inv(Init(cap))
  {
  }

  /** A byte store of the producer never lands in an unread slot, nor in a slot it has already filled. */
  lemma {:induction false} StoreHitsFreeSlot(s: State, j: nat)
    requires Inv(s) && Enabled(s, PCopy(j))
    ensures forall p :: s.read <= p < s.write ==> SlotOf(p, |s.buf|) != SlotOf(s.producer.at + j, |s.buf|)
    ensures forall i :: i in s.producer.done ==> SlotOf(s.write + i, |s.buf|) != SlotOf(s.producer.at + j, |s.buf|)
  {
    hide SlotOf, InvUnread, InvConsumer;
    forall p | s.read <= p < s.write ensures SlotOf(p, |s.buf|) != SlotOf(s.producer.at + j, |s.buf|) {
      DistinctSlots(p, s.producer.at + j, |s.buf|);
    }
    forall i | i in s.producer.done ensures SlotOf(s.write + i, |s.buf|) != SlotOf(s.producer.at + j, |s.buf|) {
      DistinctSlots(s.write + Min(i, j), s.write + Max(i, j), |s.buf|);
    }
  }

  lemma StepKeepsInv(s: State, step: Step)
    requires Inv(s) && Enabled(s, step)
    ensures Inv(Do(s, step))
  {
    match step
    case PCopy(j) => StoreKeepsInv(s, j);
    case PPublish => PublishKeepsInv(s);
    case CCopy(j) => LoadKeepsInv(s, j);
    case CAdvance => AdvanceKeepsInv(s);
    case _ => ControlKeepsInv(s, step);
  }

  /** Steps that touch neither the bytes nor the positions. */
  lemma ControlKeepsInv(s: State, step: Step)
    requires Inv(s) && Enabled(s, step)
    requires !step.PCopy? && !step.PPublish? && !step.CCopy? && !step.CAdvance?
    ensures Inv(Do(s, step))
  {
    hide SlotOf;
    var t := Do(s, step);
    assert (t.buf, t.pushed, t.popped, t.read, t.write) == (s.buf, s.pushed, s.popped, s.read, s.write);
    assert t.producer == s.producer || t.consumer == s.consumer;
    assert InvCounts(t);
    if t.producer == s.producer {
      assert InvConsumer(t);
    } else {
      assert InvProducer(t);
    }
  }

  lemma StoreKeepsInv(s: State, j: nat)
    requires Inv(s) && Enabled(s, PCopy(j))
    ensures Inv(Do(s, PCopy(j)))
  {
    hide SlotOf;
    StoreHitsFreeSlot(s, j);
    var t := Do(s, PCopy(j));
    assert InvCounts(t) && InvUnread(t) && InvConsumer(t);
    assert InvProducer(t);
  }

  lemma LoadKeepsInv(s: State, j: nat)
    requires Inv(s) && Enabled(s, CCopy(j))
    ensures Inv(Do(s, CCopy(j)))
  {
    hide SlotOf;
    var t := Do(s, CCopy(j));
    assert InvCounts(t) && InvUnread(t) && InvProducer(t);
    assert t.consumer.got[j] == s.pushed[s.read + j];
    assert InvConsumer(t);
  }

  lemma PublishKeepsInv(s: State)
    requires Inv(s) && Enabled(s, PPublish)
    ensures Inv(Do(s, PPublish))
  {
    hide SlotOf, InvConsumer;
    var t := Do(s, PPublish);
    assert t.pushed[..s.write] == s.pushed;
    assert InvCounts(t);
    forall p | t.read <= p < t.write ensures t.buf[SlotOf(p, |t.buf|)] == t.pushed[p] {
      if p >= s.write { assert (p - s.write) in s.producer.done; }
    }
    assert InvUnread(t);
    hide InvUnread, InvProducer;
    PublishKeepsConsumer(s);
  }

  lemma PublishKeepsConsumer(s: State)
    requires Inv(s) && Enabled(s, PPublish) && InvCounts(Do(s, PPublish))
    ensures InvConsumer(Do(s, PPublish))
  {
    hide SlotOf, InvUnread;
    assert forall p :: 0 <= p < |s.pushed| ==> Do(s, PPublish).pushed[p] == s.pushed[p];
  }

  lemma AdvanceKeepsInv(s: State)
    requires Inv(s) && Enabled(s, CAdvance)
    ensures Inv(Do(s, CAdvance))
    ensures Received(s.consumer) == s.pushed[s.read..s.read + s.consumer.n]
  {
    hide SlotOf;
    ReceivedIsUnread(s);
    var t := Do(s, CAdvance);
    assert t.popped == t.pushed[..t.read];
  }

  /** A finished read holds the oldest unread bytes. */
  lemma ReceivedIsUnread(s: State)
    requires Inv(s) && s.consumer.CCopying? && forall j :: 0 <= j < s.consumer.n ==> j in s.consumer.got
    ensures Received(s.consumer) == s.pushed[s.read..s.read + s.consumer.n]
  {
    hide SlotOf, InvUnread, InvProducer;
    var r, q := Received(s.consumer), s.pushed[s.read..s.read + s.consumer.n];
    forall j | 0 <= j < s.consumer.n ensures r[j] == q[j] {
      assert j in s.consumer.got;
    }
  }

  /** Safety of every interleaving: the bytes popped are a prefix of the bytes pushed, and credit is
      conserved across free, reserved, unread and consumed-but-unreleased bytes. */
  lemma {:induction false} RunIsSafe(cap: nat, run: seq<Step>)
    requires cap > 0 && ValidRun(Init(cap), run)
    ensures var s := Run(Init(cap), run);
      && Inv(s) && |s.buf| == cap
      && s.popped <= s.pushed
      && s.credit + Reserved(s.producer) + (s.write - s.read) + Unreleased(s.consumer) == cap
  {
    InitEstablishes(cap);
    RunKeepsInv(Init(cap), run);
  }

  lemma {:induction false} RunKeepsInv(s: State, run: seq<Step>)
    requires Inv(s) && ValidRun(s, run)
    ensures Inv(Run(s, run)) && |Run(s, run).buf| == |s.buf|
    ensures s.pushed <= Run(s, run).pushed && s.popped <= Run(s, run).popped
    decreases |run|
  {
    if run != [] {
      StepKeepsInv(s, run[0]);
      RunKeepsInv(Do(s, run[0]), run[1..]);
    }
  }

  /** What the two threads observe of a step, in terms of the queue of unread bytes. */
  datatype Event = Silent | Enqueue(data: seq<byte>) | Dequeue(data: seq<byte>) | Look(data: seq<byte>)

  function EventOf(s: State, step: Step): Event
    requires Enabled(s, step)
  {
    match step
    case PPublish => Enqueue(s.producer.data)
    case CAdvance => Dequeue(Received(s.consumer))
    case CPeekDone => Look(Received(s.consumer))
    case _ => Silent
  }

  function Queue(s: State): seq<byte>
    requires s.read <= |s.pushed|
  {
    s.pushed[s.read..]
  }

  /** A first-in first-out queue of bytes. */
  ghost predicate FifoStep(q: seq<byte>, e: Event, q': seq<byte>) {
    match e
    case Silent => q' == q
    case Enqueue(data) => q' == q + data
    case Dequeue(data) => q == data + q'
    case Look(data) => data <= q && q' == q
  }

  /** Each atomic step is a step of the queue: the fine-grained ring refines a FIFO. */
  lemma StepRefinesFifo(s: State, step: Step)
    requires Inv(s) && Enabled(s, step)
    ensures Inv(Do(s, step))
    ensures FifoStep(Queue(s), EventOf(s, step), Queue(Do(s, step)))
  {
    hide SlotOf, InvUnread, InvProducer, InvConsumer, Received;
    StepKeepsInv(s, step);
    match step
    case CAdvance => AdvanceIsDequeue(s);
    case CPeekDone => PeekIsLook(s);
    case PPublish => PublishIsEnqueue(s);
    case _ => assert Queue(Do(s, step)) == Queue(s);
  }

  lemma AdvanceIsDequeue(s: State)
    requires Inv(s) && Enabled(s, CAdvance)
    ensures s.read + s.consumer.n <= |s.pushed| && Queue(s) == Received(s.consumer) + Queue(Do(s, CAdvance))
  {
    hide SlotOf, InvUnread, InvProducer, Received;
    ReceivedIsUnread(s);
    SliceInFront(s.pushed, s.read, s.consumer.n);
  }

  lemma SliceInFront(q: seq<byte>, from: nat, n: nat)
    requires from + n <= |q|
    ensures q[from..] == q[from..from + n] + q[from + n..]
  {
  }

  lemma PeekIsLook(s: State)
    requires Inv(s) && Enabled(s, CPeekDone)
    ensures Received(s.consumer) <= Queue(s)
  {
    hide SlotOf, InvUnread, InvProducer, Received;
    ReceivedIsUnread(s);
    SliceInFront(s.pushed, s.read, s.consumer.n);
  }

  lemma PublishIsEnqueue(s: State)
    requires Inv(s) && Enabled(s, PPublish)
    ensures Queue(Do(s, PPublish)) == Queue(s) + s.producer.data
  {
    hide SlotOf, InvUnread, InvProducer, InvConsumer;
    assert (s.pushed + s.producer.data)[s.read..] == s.pushed[s.read..] + s.producer.data;
  }

  function Events(s: State, run: seq<Step>): seq<Event>
    requires ValidRun(s, run)
    decreases |run|
  {
    if run == [] then [] else [EventOf(s, run[0])] + Events(Do(s, run[0]), run[1..])
  }

  ghost predicate FifoRun(q: seq<byte>, es: seq<Event>, q': seq<byte>)
    decreases |es|
  {
    if es == [] then q == q' else exists m :: FifoStep(q, es[0], m) && FifoRun(m, es[1..], q')
  }

  /** Every interleaving, seen through its events, is a run of the FIFO queue. */
  lemma {:induction false} RunRefinesFifo(s: State, run: seq<Step>)
    requires Inv(s) && ValidRun(s, run)
    ensures Inv(Run(s, run))
    ensures FifoRun(Queue(s), Events(s, run), Queue(Run(s, run)))
    decreases |run|
  {
    if run != [] {
      StepRefinesFifo(s, run[0]);
      var t := Do(s, run[0]);
      RunRefinesFifo(t, run[1..]);
      var es := Events(s, run);
      assert es[1..] == Events(t, run[1..]);
      assert FifoStep(Queue(s), es[0], Queue(t)) && FifoRun(Queue(t), es[1..], Queue(Run(s, run)));
    }
  }

  /** A push is refused only if the credit it read was too small; with both threads idle the credit is
      exactly the free space, so no credit is ever lost. */
  lemma {:induction false} IdleCreditIsFreeSpace(cap: nat, run: seq<Step>)
    requires cap > 0 && ValidRun(Init(cap), run)
    requires Run(Init(cap), run).producer.PIdle? && Run(Init(cap), run).consumer.CIdle?
    ensures var s := Run(Init(cap), run); s.read <= |s.pushed| && s.credit == cap - |Queue(s)|
  {
    RunIsSafe(cap, run);
  }

  /** The test `available_space >= total` that src/stream/dcp_stream.rs:84 makes before it pushes. */
  predicate SpaceFor(s: State, total: nat) {
    total <= |s.buf| - (s.write - s.read)
  }

  predicate CreditFor(s: State, total: nat) {
    total <= s.credit
  }

  /** The space test implies credit exactly outside the consumer's window between storing the read position
      and returning the credit. */
  lemma SpaceIsCreditedOutsideTheWindow(s: State)
    requires Inv(s) && s.producer.PIdle?
    ensures (forall total: nat :: SpaceFor(s, total) ==> CreditFor(s, total)) <==> Unreleased(s.consumer) == 0
  {
    var space := |s.buf| - (s.write - s.read);
    assert s.credit == space - Unreleased(s.consumer);
    assert SpaceFor(s, space);
  }

  // ---- one thread alone: the steps compose to the operations of RingBuffer.StreamRingBuffer ----

  function CopySteps(n: nat): seq<Step> {
    if n == 0 then [] else CopySteps(n - 1) + [PCopy(n - 1)]
  }

  lemma {:induction false} RunConcat(s: State, a: seq<Step>, b: seq<Step>)
    requires ValidRun(s, a) && ValidRun(Run(s, a), b)
    ensures ValidRun(s, a + b) && Run(s, a + b) == Run(Run(s, a), b)
    decreases |a|
  {
    if a == [] {
      assert a + b == b;
    } else {
      RunConcat(Do(s, a[0]), a[1..], b);
      assert (a + b)[0] == a[0] && (a + b)[1..] == a[1..] + b;
    }
  }

  function UpTo(n: nat): (r: set<nat>)
    ensures forall j :: j in r <==> 0 <= j < n
  {
    if n == 0 then {} else UpTo(n - 1) + {n - 1}
  }

  lemma {:induction false} CopiesAlone(s: State, n: nat)
    requires |s.buf| > 0 && s.producer.PCopying? && s.producer.done == {} && n <= |s.producer.data| <= |s.buf|
    ensures ValidRun(s, CopySteps(n))
    ensures Run(s, CopySteps(n))
         == s.(buf := Overwrite(s.buf, s.producer.at, s.producer.data[..n]), producer := s.producer.(done := UpTo(n)))
    decreases n
  {
    hide SlotOf;
    var at, cap := s.producer.at, |s.buf|;
    if n == 0 {
      assert Overwrite(s.buf, at, s.producer.data[..0]) == s.buf;
      assert UpTo(0) == {};
    } else {
      CopiesAlone(s, n - 1);
      var t := Run(s, CopySteps(n - 1));
      assert t.producer.done == UpTo(n - 1) && (n - 1) !in UpTo(n - 1);
      assert Enabled(t, PCopy(n - 1));
      RunOne(t, PCopy(n - 1));
      RunConcat(s, CopySteps(n - 1), [PCopy(n - 1)]);
      var u := Do(t, PCopy(n - 1));
      assert UpTo(n - 1) + {n - 1} == UpTo(n);
      SlotAdd(at, n - 1, cap);
      forall k | 0 <= k < cap ensures u.buf[k] == Overwrite(s.buf, at, s.producer.data[..n])[k] {
        AheadSlot(at, k, cap);
      }
      assert u.buf == Overwrite(s.buf, at, s.producer.data[..n]);
    }
  }

  function PushSteps(data: seq<byte>): seq<Step> {
    [PLoad(data), PExchange, PLocate] + CopySteps(|data|) + [PPublish]
  }

  /** A producer that is not interrupted performs exactly the sequential push: the same overwritten ring,
      position and credit as RingBuffer.StreamRingBuffer.Push. */
  lemma {:induction false} PushAlone(s: State, data: seq<byte>)
    requires Inv(s) && s.producer.PIdle? && |data| <= s.credit
    ensures var run := PushSteps(data);
      && ValidRun(s, run)
      && Run(s, run) == s.(buf := Overwrite(s.buf, s.write, data), write := s.write + |data|,
                           credit := s.credit - |data|, pushed := s.pushed + data)
  {
    var a := [PLoad(data), PExchange, PLocate];
    PushReserves(s, data);
    var s3 := Run(s, a);
    CopiesAlone(s3, |data|);
    assert data[..|data|] == data;
    RunConcat(s, a, CopySteps(|data|));
    var s4 := Run(s3, CopySteps(|data|));
    assert Enabled(s4, PPublish);
    RunSnoc(s, a + CopySteps(|data|), PPublish);
  }

  lemma {:induction false} RunOne(s: State, step: Step)
    requires Enabled(s, step)
    ensures ValidRun(s, [step]) && Run(s, [step]) == Do(s, step)
  {
    assert ValidRun(Do(s, step), []);
  }

  lemma {:induction false} PushReserves(s: State, data: seq<byte>)
    requires s.producer.PIdle? && |data| <= s.credit && |data| <= |s.buf|
    ensures var a := [PLoad(data), PExchange, PLocate];
      && ValidRun(s, a)
      && Run(s, a) == s.(credit := s.credit - |data|, producer := PCopying(data, s.write, {}))
  {
    RunOne(s, PLoad(data));
    RunSnoc(s, [PLoad(data)], PExchange);
    RunSnoc(s, [PLoad(data)] + [PExchange], PLocate);
    assert [PLoad(data)] + [PExchange] + [PLocate] == [PLoad(data), PExchange, PLocate];
  }

  /** Inside the window a two-part write that passed the space test can be torn: its header is published and
      its payload refused. */
  lemma {:induction false} WriteIsTornInsideTheWindow(s: State, header: seq<byte>, payload: seq<byte>)
    requires Inv(s) && s.producer.PIdle?
    requires SpaceFor(s, |header| + |payload|) && !CreditFor(s, |header| + |payload|) && CreditFor(s, |header|)
    ensures var run := PushSteps(header) + [PLoad(payload), PRefuse];
      && ValidRun(s, run)
      && Run(s, run).pushed == s.pushed + header
      && Run(s, run).producer.PIdle?
  {
    PushAlone(s, header);
    RunSnoc(s, PushSteps(header), PLoad(payload));
    RunSnoc(s, PushSteps(header) + [PLoad(payload)], PRefuse);
    assert PushSteps(header) + [PLoad(payload)] + [PRefuse] == PushSteps(header) + [PLoad(payload), PRefuse];
  }

  lemma {:induction false} RunSnoc(s: State, run: seq<Step>, step: Step)
    requires ValidRun(s, run) && Enabled(Run(s, run), step)
    ensures ValidRun(s, run + [step]) && Run(s, run + [step]) == Do(Run(s, run), step)
  {
    RunOne(Run(s, run), step);
    RunConcat(s, run, [step]);
  }

  function FetchSteps(n: nat): seq<Step> {
    if n == 0 then [] else FetchSteps(n - 1) + [CCopy(n - 1)]
  }

  function PopSteps(want: nat, n: nat): seq<Step> {
    [CLoadWrite(want, false), CLoadRead, CLocate] + FetchSteps(n) + [CAdvance]
  }

  lemma {:induction false} FetchesAlone(s: State, n: nat)
    requires Inv(s) && s.consumer.CCopying? && s.consumer.got == map[] && n <= s.consumer.n
    ensures ValidRun(s, FetchSteps(n))
    ensures var t := Run(s, FetchSteps(n));
      && t.consumer.CCopying? && t == s.(consumer := s.consumer.(got := t.consumer.got))
      && forall j :: j in t.consumer.got <==> 0 <= j < n
    decreases n
  {
    if n > 0 {
      FetchesAlone(s, n - 1);
      RunSnoc(s, FetchSteps(n - 1), CCopy(n - 1));
    }
  }

  /** After a failed exchange the producer goes by the credit of that moment: it can take it exactly if it suffices and
      refuses exactly if it does not. */
  lemma RetryLooksAgain(s: State)
    requires Enabled(s, PExchangeFails)
    ensures var t := Do(s, PExchangeFails);
      && t == s.(producer := t.producer)
      && (Enabled(t, PExchange) <==> |s.producer.data| <= s.credit)
      && (Enabled(t, PRefuse) <==> s.credit < |s.producer.data|)
  {
  }

  /** A consumer that finds nothing, or wants nothing, leaves everything as it was. */
  lemma {:induction false} PopOfNothing(s: State, want: nat, peek: bool)
    requires Inv(s) && s.consumer.CIdle? && Min(want, s.write - s.read) == 0
    ensures var run := [CLoadWrite(want, peek), CLoadRead]; ValidRun(s, run) && Run(s, run) == s
  {
    RunOne(s, CLoadWrite(want, peek));
    RunSnoc(s, [CLoadWrite(want, peek)], CLoadRead);
    assert [CLoadWrite(want, peek)] + [CLoadRead] == [CLoadWrite(want, peek), CLoadRead];
  }

  lemma {:induction false} PopStarts(s: State, want: nat)
    requires Inv(s) && s.consumer.CIdle? && Min(want, s.write - s.read) > 0
    ensures var a := [CLoadWrite(want, false), CLoadRead, CLocate];
      && ValidRun(s, a)
      && Run(s, a) == s.(consumer := CCopying(s.read, Min(want, s.write - s.read), map[], false))
  {
    RunOne(s, CLoadWrite(want, false));
    RunSnoc(s, [CLoadWrite(want, false)], CLoadRead);
    RunSnoc(s, [CLoadWrite(want, false)] + [CLoadRead], CLocate);
    assert [CLoadWrite(want, false)] + [CLoadRead] + [CLocate] == [CLoadWrite(want, false), CLoadRead, CLocate];
  }

  /** A consumer that is not interrupted performs the sequential pop up to the point where only the credit
      remains to be returned. */
  lemma {:induction false} PopAlone(s: State, want: nat)
    requires Inv(s) && s.consumer.CIdle? && Min(want, s.write - s.read) > 0
    ensures var n := Min(want, s.write - s.read);
      && ValidRun(s, PopSteps(want, n))
      && Run(s, PopSteps(want, n))
         == s.(read := s.read + n, popped := s.pushed[..s.read + n], consumer := CAdvanced(n))
  {
    var n := Min(want, s.write - s.read);
    var a := [CLoadWrite(want, false), CLoadRead, CLocate];
    PopStarts(s, want);
    RunKeepsInv(s, a);
    FetchesAlone(Run(s, a), n);
    RunConcat(s, a, FetchSteps(n));
    var t := Run(s, a + FetchSteps(n));
    RunKeepsInv(s, a + FetchSteps(n));
    AdvanceKeepsInv(t);
    RunSnoc(s, a + FetchSteps(n), CAdvance);
  }
}
