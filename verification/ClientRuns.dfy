/** The connection under a pipelined client: what src/multiplex/connection.rs keeps over every run of connection
    calls holds over every run of client calls (src/multiplex/pipeline.rs:74-203). */
module ClientRuns {
  import opened Bits
  import opened MuxFrames
  import opened MuxSpec
  import opened PipelineSpec
  import M = MuxRuns

  /** The connection calls of a run of client calls. */
  function OpsOf(t: Trace, run: seq<Event>): seq<Op>
    decreases |run|
  {
    if run == [] then [] else ConnOps(t.client, run[0].call) + OpsOf(After(t, run[0]), run[1..])
  }

  /** The frames the transport takes for sending in a run of client calls. */
  function FramesTaken(t: Trace, run: seq<Event>): seq<Frame>
    decreases |run|
  {
    if run == [] then [] else TakenIn(t.client, run[0].call) + FramesTaken(After(t, run[0]), run[1..])
  }

  function TakenIn(c: Client, call: Call): seq<Frame> {
    if call.OnConnection? then M.TakenBy(ClientStep(c, call).1) else []
  }

  lemma {:induction false} RunFromConcat(m: M.Trace, a: seq<Op>, b: seq<Op>)
    ensures M.RunFrom(m, a + b) == M.RunFrom(M.RunFrom(m, a), b)
    decreases |a|
  {
    hide M.TraceStep;
    if a == [] {
      assert a + b == b;
    } else {
      assert (a + b)[0] == a[0] && (a + b)[1..] == a[1..] + b;
      RunFromConcat(M.TraceStep(m, a[0]), a[1..], b);
    }
  }

  /** A run of connection calls ends in the connection the calls lead to, and takes frames only by taking them. */
  lemma {:induction false} RunFromIsRunOps(m: M.Trace, ops: seq<Op>)
    ensures M.RunFrom(m, ops).conn == RunOps(m.conn, ops)
    ensures (forall i :: 0 <= i < |ops| ==> !ops[i].TakeFrame?) ==> M.RunFrom(m, ops).taken == m.taken
    decreases |ops|
  {
    hide Step;
    if ops != [] {
      RunFromIsRunOps(M.TraceStep(m, ops[0]), ops[1..]);
      if !ops[0].TakeFrame? { OthersTakeNothing(m.conn, ops[0]); }
      assert m.taken + [] == m.taken;
    }
  }

  lemma OthersTakeNothing(c: Conn, op: Op)
    requires !op.TakeFrame?
    ensures M.TakenBy(Step(c, op).1) == []
  {
  }

  lemma {:induction false} CallIsConnectionRun(c: Client, m: M.Trace, call: Call)
    requires m.conn == c.conn
    ensures var after := M.RunFrom(m, ConnOps(c, call));
      after.conn == ClientStep(c, call).0.conn && after.taken == m.taken + TakenIn(c, call)
  {
    ClientMovesConnectionByCalls(c, call);
    var ops := ConnOps(c, call);
    RunFromIsRunOps(m, ops);
    if call.OnConnection? {
      assert ops == [call.op] && ops[1..] == [];
      assert M.RunFrom(m, ops) == M.RunFrom(M.TraceStep(m, call.op), []);
    } else {
      assert m.taken + [] == m.taken;
    }
  }

  lemma {:induction false} RunIsConnectionRun(t: Trace, m: M.Trace, run: seq<Event>)
    requires m.conn == t.client.conn
    ensures var after := M.RunFrom(m, OpsOf(t, run));
      after.conn == Run(t, run).client.conn && after.taken == m.taken + FramesTaken(t, run)
    decreases |run|
  {
    hide ConnOps, ClientStep, TakenIn, M.RunFrom;
    if run == [] {
      NothingRuns(m);
    } else {
      var ops, next := ConnOps(t.client, run[0].call), After(t, run[0]);
      CallIsConnectionRun(t.client, m, run[0].call);
      RunFromConcat(m, ops, OpsOf(next, run[1..]));
      RunIsConnectionRun(next, M.RunFrom(m, ops), run[1..]);
      ConcatAssoc(m.taken, TakenIn(t.client, run[0].call), FramesTaken(next, run[1..]));
    }
  }

  lemma {:induction false} NothingRuns(m: M.Trace)
    ensures M.RunFrom(m, []) == m && m.taken + [] == m.taken
  {
  }

  /** In every run of client calls, over the frames taken and the frames queued, no frame belongs to the control
      stream and every data frame follows an opener of its stream with no FIN or RST in between. */
  lemma {:induction false} ClientWireIsSafe(maxQueue: nat, maxRecv: nat, maxInFlight: nat, run: seq<Event>)
    ensures var t := Start(New(maxQueue, maxRecv), maxInFlight);
      var w := FramesTaken(t, run) + Run(t, run).client.conn.queue;
      forall i :: 0 <= i < |w| ==> w[i].header.streamId != CONTROL_STREAM && (M.IsData(w[i]) ==> M.OpenedBefore(w, i))
  {
    var t, m := Start(New(maxQueue, maxRecv), maxInFlight), M.Start(maxQueue, maxRecv);
    RunIsConnectionRun(t, m, run);
    var taken, after := FramesTaken(t, run), M.RunFrom(m, OpsOf(t, run));
    hide FramesTaken, OpsOf, Run, M.RunFrom, M.OpenedBefore, M.IsData;
    assert after.taken == [] + taken == taken;
    assert M.Wire(after) == taken + after.conn.queue;
    M.WireIsSafe(maxQueue, maxRecv, OpsOf(t, run));
  }

  /** In every run of client calls the connection under the client stays accounted. */
  lemma {:induction false} ClientConnectionIsAccounted(maxQueue: nat, maxRecv: nat, maxInFlight: nat, run: seq<Event>)
    ensures var c := Run(Start(New(maxQueue, maxRecv), maxInFlight), run).client.conn;
      && c.streamCount == |c.streams| <= MAX_STREAMS
      && (forall s :: s in c.streams ==>
            1 <= s <= MAX_STREAMS && c.streams[s].buffered == M.TotalLen(c.streams[s].received) <= c.maxRecv)
      && |c.queue| <= c.maxQueue
      && (c.closed ==> c.streams == map[] && c.queue == [])
  {
    var t, m := Start(New(maxQueue, maxRecv), maxInFlight), M.Start(maxQueue, maxRecv);
    RunIsConnectionRun(t, m, run);
    M.ConnectionIsAccounted(maxQueue, maxRecv, OpsOf(t, run));
  }
}
