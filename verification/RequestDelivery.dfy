/** Who gets which answer: over runs of the pipelined client of src/multiplex/pipeline.rs, every outcome goes to a
    request that was sent on the stream it came for, and nothing that waits for a stream is passed over. */
module RequestDelivery {
  import opened Bits
  import opened Errors
  import opened MuxFrames
  import opened MuxSpec
  import opened PipelineSpec
  import MuxRuns

  /** A run, the stream each issued request was sent on, and the call behind each outcome. */
  datatype Ledger = Ledger(t: Trace, sentOn: map<nat, StreamId>, causes: seq<Call>)

  /** The call is one that gives this outcome to a request sent on stream `s`. */
  predicate Answers(call: Call, outcome: Outcome, s: StreamId) {
    match call
    case ProcessResponse(stream, data, _) => stream == s && outcome == Response(data)
    case ProcessError(stream, error, _) => stream == s && outcome == Failure(error)
    case CancelAll => outcome == Failure(ConnectionClosed)
    case _ => false
  }

  predicate Issues(t: Trace, e: Event) {
    e.call.SendRequest? && ClientStep(t.client, e.call).1 == Done
  }

  ghost function Entered(l: Ledger, e: Event): Ledger {
    var t := After(l.t, e);
    var a := Step(l.t.client.conn, OpenStream).1;
    Ledger(t,
           if Issues(l.t, e) && a.Opened? && a.id < U16
           then l.sentOn[l.t.client.nextRequest := a.id] else l.sentOn,
           l.causes + seq(|e.out|, _ => e.call))
  }

  ghost function EnteredAll(l: Ledger, run: seq<Event>): Ledger
    decreases |run|
  {
    if run == [] then l else EnteredAll(Entered(l, run[0]), run[1..])
  }

  function Empty(conn: Conn, maxInFlight: nat): Ledger {
    Ledger(Start(conn, maxInFlight), map[], [])
  }

  /** The request was sent on stream `s` and has no outcome yet. */
  predicate Waits(l: Ledger, r: nat, s: StreamId) {
    r in l.t.issued && r in l.sentOn && l.sentOn[r] == s && r !in Requests(l.t.resolved)
  }

  predicate AnsweredAt(l: Ledger, i: nat)
    requires i < |l.t.resolved| && i < |l.causes|
  {
    var x := l.t.resolved[i];
    x.request in l.sentOn && Answers(l.causes[i], x.outcome, l.sentOn[x.request])
  }

  /** The streams are those of the issued requests, the pending ones among them. */
  predicate Lists(sentOn: map<nat, StreamId>, issued: set<nat>, pending: map<nat, StreamId>) {
    sentOn.Keys == issued && forall r :: r in pending ==> r in sentOn && pending[r] == sentOn[r]
  }

  ghost predicate Kept(l: Ledger) {
    && Inv(l.t)
    && Lists(l.sentOn, l.t.issued, l.t.client.pending)
    && |l.causes| == |l.t.resolved|
    && (forall i :: 0 <= i < |l.causes| ==> AnsweredAt(l, i))
  }

  /** Exactly when a request is sent: there is room in flight, a stream can be opened and the queue has room for its SYN
      and its data, which are queued then. */
  lemma RequestSucceedsExactly(c: Client, data: Payload)
    ensures var (c', a) := ClientStep(c, SendRequest(data));
      var id := NextCandidate(c.conn);
      && (a == Done <==>
            && c.inFlight < c.maxInFlight && !c.conn.closed && c.conn.streamCount < MAX_STREAMS
            && id !in c.conn.streams && |c.conn.queue| + 2 <= c.conn.maxQueue)
      && (a == Done ==>
            && c'.conn.queue == c.conn.queue + [Syn(id), DataFrame(id, data)]
            && c'.pending == c.pending[c.nextRequest := id] && c'.nextRequest == c.nextRequest + 1
            && Step(c.conn, OpenStream).1 == Opened(id))
      && (a != Done ==>
            && c'.pending == c.pending
            && c'.nextRequest == c.nextRequest + if c.inFlight < c.maxInFlight && Step(c.conn, OpenStream).1.Opened?
                                                 then 1 else 0)
  {
    if DoOpen(c.conn).1.Opened? {
      OpenedIsUsable(c.conn);
      SendFailsWhenQueueIsFull(c.conn, data);
    }
  }

  /** A response closes the stream it came for, and only a response does. */
  lemma ResponseCloses(c: Client, call: Call)
    requires !call.SendRequest? && !call.OnConnection?
    ensures var (c', a) := ClientStep(c, call);
      if call.ProcessResponse? && call.found.Some?
      then (c'.conn, a) == Step(c.conn, CloseStream(call.stream))
      else c'.conn == c.conn && a == Done
  {
  }

  lemma {:induction false} RequestsOfOne(x: Resolution)
    ensures Requests([x]) == {x.request}
  {
    assert [x][..0] == [];
  }

  lemma RequestsAreThose(l: Ledger, i: nat)
    requires i < |l.t.resolved|
    ensures l.t.resolved[i].request in Requests(l.t.resolved)
  {
    RequestsMeans(l.t.resolved);
  }

  lemma PendingIsWaiting(l: Ledger, r: nat)
    requires Kept(l)
    ensures r in l.t.client.pending <==> r in l.t.issued && r !in Requests(l.t.resolved)
    ensures r in l.t.client.pending ==> Waits(l, r, l.t.client.pending[r])
    ensures forall s :: Waits(l, r, s) ==> r in l.t.client.pending && l.t.client.pending[r] == s
  {
    assert r in l.t.client.pending <==> r in l.t.client.pending.Keys;
    hide NoDuplicates, Requests;
  }

  lemma SendMoves(t: Trace, e: Event)
    requires CanHappen(t, e) && e.call.SendRequest?
    ensures var c, t' := t.client, After(t, e);
      && e.out == [] && t'.resolved == t.resolved
      && if Issues(t, e)
         then var id := NextCandidate(c.conn);
           && Step(c.conn, OpenStream).1 == Opened(id)
           && t'.issued == t.issued + {c.nextRequest} && t'.client.pending == c.pending[c.nextRequest := id]
         else t'.issued == t.issued && t'.client.pending == c.pending
  {
    RequestSucceedsExactly(t.client, e.call.data);
    hide ClientStep, Step, NextCandidate;
    assert t.resolved + [] == t.resolved;
  }

  lemma NextIsUnused(l: Ledger)
    requires Kept(l)
    ensures l.t.client.nextRequest !in l.t.issued
  {
    hide AnsweredAt, NoDuplicates, Requests;
  }

  lemma ListsOneMore(sentOn: map<nat, StreamId>, issued: set<nat>, pending: map<nat, StreamId>, r: nat, s: StreamId)
    requires Lists(sentOn, issued, pending) && r !in issued
    ensures Lists(sentOn[r := s], issued + {r}, pending[r := s])
    ensures forall q :: q in sentOn ==> q in sentOn[r := s] && sentOn[r := s][q] == sentOn[q]
  {
    assert sentOn[r := s].Keys == sentOn.Keys + {r};
  }

  lemma NothingIsCaused(l: Ledger, e: Event)
    requires e.out == []
    ensures Entered(l, e).causes == l.causes
  {
    hide Step, PipelineSpec.After, Issues;
    assert seq(|e.out|, _ => e.call) == [];
  }

  /** A request that succeeds is entered with its stream; the streams of the others stay. */
  lemma SendEnters(l: Ledger, e: Event)
    requires Kept(l) && CanHappen(l.t, e) && e.call.SendRequest?
    ensures var l' := Entered(l, e);
      && l'.causes == l.causes && l'.t.resolved == l.t.resolved
      && Lists(l'.sentOn, l'.t.issued, l'.t.client.pending)
      && (forall r :: r in l.sentOn ==> r in l'.sentOn && l'.sentOn[r] == l.sentOn[r])
  {
    SendMoves(l.t, e);
    NextIsUnused(l);
    NothingIsCaused(l, e);
    assert Lists(l.sentOn, l.t.issued, l.t.client.pending);
    hide Kept, CanHappen, PipelineSpec.After, Step, NextCandidate, Issues, Lists;
    if Issues(l.t, e) {
      ListsOneMore(l.sentOn, l.t.issued, l.t.client.pending, l.t.client.nextRequest, NextCandidate(l.t.client.conn));
    }
  }

  /** The other calls enter nothing and leave pending what they do not answer. */
  lemma OthersEnterNothing(l: Ledger, e: Event)
    requires Kept(l) && CanHappen(l.t, e) && !e.call.SendRequest?
    ensures var l' := Entered(l, e);
      && l'.sentOn == l.sentOn && l'.t.issued == l.t.issued
      && l'.t.resolved == l.t.resolved + e.out
      && |l'.causes| == |l.causes| + |e.out| && l'.causes[..|l.causes|] == l.causes
      && (forall i :: |l.causes| <= i < |l'.causes| ==> l'.causes[i] == e.call)
      && (forall r :: r in l'.t.client.pending ==>
            r in l.t.client.pending && l'.t.client.pending[r] == l.t.client.pending[r])
  {
    hide Inv, Step, DoCloseStream, AnsweredAt, NoDuplicates, Requests;
  }

  /** Each outcome of an event is an answer to a pending request of the right stream. */
  lemma OutcomesAnswer(c: Client, e: Event, i: nat)
    requires Possible(c, e.call) && Resolves(c, e.call, e.out) && i < |e.out|
    ensures e.out[i].request in c.pending && Answers(e.call, e.out[i].outcome, c.pending[e.out[i].request])
  {
    if e.call.CancelAll? { RequestsMeans(e.out); }
    assert e.out[i] in e.out;
  }

  lemma EarlierAnswerStays(l: Ledger, l': Ledger, i: nat)
    requires i < |l.t.resolved| && i < |l.causes| && AnsweredAt(l, i)
    requires i < |l'.t.resolved| && i < |l'.causes|
    requires l'.t.resolved[i] == l.t.resolved[i] && l'.causes[i] == l.causes[i]
    requires forall r :: r in l.sentOn ==> r in l'.sentOn && l'.sentOn[r] == l.sentOn[r]
    ensures AnsweredAt(l', i)
  {
  }

  lemma LatestAnswerFits(l: Ledger, e: Event, i: nat)
    requires Kept(l) && CanHappen(l.t, e) && !e.call.SendRequest?
    requires |l.causes| <= i < |Entered(l, e).causes|
    ensures |Entered(l, e).causes| == |Entered(l, e).t.resolved| && AnsweredAt(Entered(l, e), i)
  {
    var l', k := Entered(l, e), i - |l.causes|;
    OthersEnterNothing(l, e);
    OutcomesAnswer(l.t.client, e, k);
    assert e.out[k].request in l.sentOn;
    hide Inv, Entered, CanHappen, Answers;
    assert l'.t.resolved[i] == e.out[k];
  }

  lemma AnswersAreKept(l: Ledger, e: Event)
    requires Kept(l) && CanHappen(l.t, e)
    ensures var l' := Entered(l, e);
      |l'.causes| == |l'.t.resolved| && forall i :: 0 <= i < |l'.causes| ==> AnsweredAt(l', i)
  {
    var l' := Entered(l, e);
    if e.call.SendRequest? { SendEnters(l, e); } else { OthersEnterNothing(l, e); }
    hide Inv, Entered, CanHappen, AnsweredAt;
    forall i | 0 <= i < |l'.causes| ensures AnsweredAt(l', i) {
      if i < |l.causes| {
        EarlierAnswerStays(l, l', i);
      } else {
        LatestAnswerFits(l, e, i);
      }
    }
  }

  lemma StreamsAreKept(l: Ledger, e: Event)
    requires Kept(l) && CanHappen(l.t, e)
    ensures var l' := Entered(l, e);
      Lists(l'.sentOn, l'.t.issued, l'.t.client.pending)
  {
    if e.call.SendRequest? {
      SendEnters(l, e);
      hide *;
    } else {
      OthersEnterNothing(l, e);
      hide Inv, Entered, CanHappen, AnsweredAt;
    }
  }

  lemma EnteredIsKept(l: Ledger, e: Event)
    requires Kept(l) && CanHappen(l.t, e)
    ensures Kept(Entered(l, e))
  {
    EventKeepsInv(l.t, e);
    EnteredKeepsTrace(l, e);
    AnswersAreKept(l, e);
    StreamsAreKept(l, e);
    hide Inv, Entered, CanHappen, AnsweredAt, PipelineSpec.After;
  }

  lemma {:induction false} EnteredAllIsKept(l: Ledger, run: seq<Event>)
    requires Kept(l) && ValidRun(l.t, run)
    ensures Kept(EnteredAll(l, run)) && EnteredAll(l, run).t == Run(l.t, run)
    decreases |run|
  {
    hide Kept, CanHappen, PipelineSpec.After;
    if run != [] {
      EnteredIsKept(l, run[0]);
      EnteredKeepsTrace(l, run[0]);
      EnteredAllIsKept(Entered(l, run[0]), run[1..]);
    }
  }

  lemma EnteredKeepsTrace(l: Ledger, e: Event)
    ensures Entered(l, e).t == After(l.t, e)
  {
    hide PipelineSpec.After;
  }

  lemma WaitingIsPending(l: Ledger)
    requires Kept(l)
    ensures forall r, s :: Waits(l, r, s) <==> r in l.t.client.pending && l.t.client.pending[r] == s
  {
    forall r, s ensures Waits(l, r, s) <==> r in l.t.client.pending && l.t.client.pending[r] == s {
      PendingIsWaiting(l, r);
    }
  }

  /** A response or error answers some request that waits on its stream whenever there is one. */
  lemma SomeoneIsAnswered(l: Ledger, e: Event)
    requires Kept(l) && CanHappen(l.t, e) && (e.call.ProcessResponse? || e.call.ProcessError?)
    ensures if exists r :: Waits(l, r, e.call.stream)
      then |e.out| == 1 && Waits(l, e.out[0].request, e.call.stream)
           && Answers(e.call, e.out[0].outcome, e.call.stream)
      else e.out == []
  {
    WaitingIsPending(l);
    hide Kept, Waits;
  }

  /** A cancellation answers everyone who waits. */
  lemma EveryoneIsAnswered(l: Ledger, e: Event)
    requires Kept(l) && CanHappen(l.t, e) && e.call.CancelAll?
    ensures forall r :: r in Requests(e.out) <==> exists s :: Waits(l, r, s)
  {
    WaitingIsPending(l);
    hide Kept, Waits, Requests, NoDuplicates;
    forall r ensures r in Requests(e.out) <==> exists s :: Waits(l, r, s) {
      if r in l.t.client.pending { assert Waits(l, r, l.t.client.pending[r]); }
    }
  }

  /** In every run each outcome is an answer that came for the stream its request was sent on, and the next call answers
      whoever waits: a response or error some request waiting on its stream, whenever there is one, and a cancellation
      all of them. */
  lemma {:induction false} AnswersReachTheirRequests(conn: Conn, maxInFlight: nat, run: seq<Event>, e: Event)
    requires ValidRun(Start(conn, maxInFlight), run)
    requires CanHappen(Run(Start(conn, maxInFlight), run), e)
    ensures var l := EnteredAll(Empty(conn, maxInFlight), run);
      && l.t == Run(Start(conn, maxInFlight), run)
      && |l.causes| == |l.t.resolved|
      && (forall i :: 0 <= i < |l.causes| ==> AnsweredAt(l, i))
      && (e.call.ProcessResponse? || e.call.ProcessError? ==>
            if exists r :: Waits(l, r, e.call.stream)
            then |e.out| == 1 && Waits(l, e.out[0].request, e.call.stream)
                 && Answers(e.call, e.out[0].outcome, e.call.stream)
            else e.out == [])
      && (e.call.CancelAll? ==>
            forall r :: r in Requests(e.out) <==> exists s :: Waits(l, r, s))
  {
    var l0, l := Empty(conn, maxInFlight), EnteredAll(Empty(conn, maxInFlight), run);
    EnteredAllIsKept(l0, run);
    if e.call.ProcessResponse? || e.call.ProcessError? { SomeoneIsAnswered(l, e); }
    if e.call.CancelAll? { EveryoneIsAnswered(l, e); }
    hide EnteredAll, Run, ValidRun, CanHappen, Inv, Waits, AnsweredAt, Answers, Requests, Lists;
  }
}
