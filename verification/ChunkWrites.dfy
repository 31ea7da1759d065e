/** A chunk write as the ring sees it (src/stream/dcp_stream.rs:72-123): after the space test one push for the
    header and, if there is a payload, one more, interleaved with every step of the consumer. */
module ChunkWrites {
  import opened Bits
  import opened RingLayout
  import opened RingSteps
  import opened Chunks

  /** The pushes of one write. An empty payload is not pushed. */
  function Parts(header: seq<byte>, payload: seq<byte>): seq<seq<byte>> {
    if payload == [] then [header] else [header, payload]
  }

  /** The pushes of the run are a front of `rest`, and none follows a refused one. */
  predicate Follows(run: seq<Step>, rest: seq<seq<byte>>)
    decreases |run|
  {
    run == [] ||
    match run[0]
    case PLoad(data) => rest != [] && rest[0] == data && Follows(run[1..], rest[1..])
    case PRefuse => Follows(run[1..], [])
    case _ => Follows(run[1..], rest)
  }

  function Total(rest: seq<seq<byte>>): nat {
    if rest == [] then 0 else |rest[0]| + Total(rest[1..])
  }

  lemma TotalOfParts(header: seq<byte>, payload: seq<byte>)
    ensures Total(Parts(header, payload)) == |header| + |payload|
    ensures Parts(header, payload)[0] == header
  {
    assert [header, payload][1..] == [payload] && [payload][1..] == [] && [header][1..] == [];
    assert Total([]) == 0 && Total([payload]) == |payload|;
  }

  // ---- an admitted write with credit is never refused ----

  /** The credit covers everything that is still to be reserved. */
  predicate Budget(s: State, rest: seq<seq<byte>>) {
    match s.producer
    case PLoaded(data, seen) => |data| + Total(rest) <= seen && |data| + Total(rest) <= s.credit
    case _ => Total(rest) <= s.credit
  }

  function RestAfter(step: Step, rest: seq<seq<byte>>): seq<seq<byte>> {
    match step
    case PLoad(_) => if rest == [] then [] else rest[1..]
    case PRefuse => []
    case _ => rest
  }

  lemma StepKeepsBudget(s: State, step: Step, rest: seq<seq<byte>>)
    requires Enabled(s, step) && Budget(s, rest) && (step.PLoad? ==> rest != [] && rest[0] == step.data)
    ensures !step.PRefuse? && Budget(Do(s, step), RestAfter(step, rest))
  {
  }

  /** The bytes the producer has taken in hand and not yet published. */
  function InHand(p: Producer): seq<byte> {
    if p.PIdle? then [] else p.data
  }

  /** The pushes begun in a run, one behind the other. */
  function Begun(run: seq<Step>): seq<byte>
    decreases |run|
  {
    if run == [] then [] else (if run[0].PLoad? then run[0].data else []) + Begun(run[1..])
  }

  lemma {:induction false} BudgetMeansNoRefusal(s: State, run: seq<Step>, rest: seq<seq<byte>>)
    requires ValidRun(s, run) && Follows(run, rest) && Budget(s, rest)
    ensures PRefuse !in run
    ensures var r := Run(s, run); r.pushed + InHand(r.producer) == s.pushed + InHand(s.producer) + Begun(run)
    decreases |run|
  {
    if run == [] {
      assert s.pushed + InHand(s.producer) + [] == s.pushed + InHand(s.producer);
    } else {
      var step, tail, t := run[0], run[1..], Do(s, run[0]);
      StepKeepsBudget(s, step, rest);
      BudgetMeansNoRefusal(t, tail, RestAfter(step, rest));
      assert run == [step] + tail;
      StepTakesInHand(s, step);
      ConcatAssoc(s.pushed + InHand(s.producer), if step.PLoad? then step.data else [], Begun(tail));
    }
  }

  lemma StepTakesInHand(s: State, step: Step)
    requires Enabled(s, step) && !step.PRefuse?
    ensures Do(s, step).pushed + InHand(Do(s, step).producer)
         == s.pushed + InHand(s.producer) + if step.PLoad? then step.data else []
  {
  }

  /** A write that passed the space test is never refused, in whatever way the consumer interleaves, exactly when
      the credit covers it, which the writer can read before its first push. */
  lemma {:induction false} NeverRefusedExactlyWithCredit(s: State, header: seq<byte>, payload: seq<byte>)
    requires Inv(s) && s.producer.PIdle? && SpaceFor(s, |header| + |payload|)
    ensures (forall run :: ValidRun(s, run) && Follows(run, Parts(header, payload)) ==> PRefuse !in run)
       <==> CreditFor(s, |header| + |payload|)
  {
    TotalOfParts(header, payload);
    if CreditFor(s, |header| + |payload|) {
      forall run | ValidRun(s, run) && Follows(run, Parts(header, payload)) ensures PRefuse !in run {
        BudgetMeansNoRefusal(s, run, Parts(header, payload));
      }
    } else {
      var run := RefusedRun(s, header, payload);
      assert ValidRun(s, run) && Follows(run, Parts(header, payload)) && PRefuse in run;
    }
  }

  /** With credit the bytes published or in hand are at every moment exactly those of the pushes begun; once the
      producer is idle again, those pushes are published whole. */
  lemma {:induction false} WholeWithCredit(s: State, header: seq<byte>, payload: seq<byte>, run: seq<Step>)
    requires Inv(s) && s.producer.PIdle? && CreditFor(s, |header| + |payload|)
    requires ValidRun(s, run) && Follows(run, Parts(header, payload))
    ensures Run(s, run).producer.PIdle? ==> Run(s, run).pushed == s.pushed + Begun(run)
    ensures Run(s, run).producer.PIdle? && LoadCount(run) == |Parts(header, payload)| ==>
      Run(s, run).pushed == s.pushed + (header + payload)
  {
    TotalOfParts(header, payload);
    BudgetMeansNoRefusal(s, run, Parts(header, payload));
    assert s.pushed + [] == s.pushed;
    var r := Run(s, run);
    if r.producer.PIdle? {
      assert r.pushed + [] == r.pushed;
      if LoadCount(run) == |Parts(header, payload)| {
        AllBegun(run, Parts(header, payload));
        JoinOfParts(header, payload);
      }
    }
  }

  function LoadCount(run: seq<Step>): nat
    decreases |run|
  {
    if run == [] then 0 else (if run[0].PLoad? then 1 else 0) + LoadCount(run[1..])
  }

  function Joined(rest: seq<seq<byte>>): seq<byte> {
    if rest == [] then [] else rest[0] + Joined(rest[1..])
  }

  lemma JoinOfParts(header: seq<byte>, payload: seq<byte>)
    ensures Joined(Parts(header, payload)) == header + payload
  {
    assert [header, payload][1..] == [payload] && [payload][1..] == [] && [header][1..] == [];
    assert Joined([]) == [] && Joined([payload]) == payload + [] == payload;
  }

  lemma {:induction false} AllBegun(run: seq<Step>, rest: seq<seq<byte>>)
    requires Follows(run, rest)
    ensures LoadCount(run) <= |rest|
    ensures LoadCount(run) == |rest| ==> Begun(run) == Joined(rest)
    decreases |run|
  {
    if run != [] { AllBegun(run[1..], RestAfter(run[0], rest)); }
  }

  // ---- exactly when a write can be torn ----

  /** Some push is refused and yet something has been published. */
  predicate Torn(s: State, run: seq<Step>)
    requires ValidRun(s, run)
  {
    PRefuse in run && Run(s, run).pushed != s.pushed
  }

  /** The header cannot yet be reserved, and whatever credit is returned will cover the whole write. */
  ghost predicate HeaderWaits(s: State, header: seq<byte>, total: nat) {
    && Inv(s) && SpaceFor(s, total)
    && (s.credit < |header| || total <= s.credit)
    && (s.producer.PIdle? || (s.producer.PLoaded? && s.producer.data == header && s.producer.seen < |header|))
  }

  lemma StepFromWaiting(s: State, step: Step, header: seq<byte>, total: nat)
    requires HeaderWaits(s, header, total) && Enabled(s, step) && |header| <= total
    requires step.PLoad? ==> step.data == header && s.credit < |header|
    requires !step.PRefuse?
    ensures HeaderWaits(Do(s, step), header, total) && Do(s, step).pushed == s.pushed
  {
    hide SlotOf, InvUnread, InvProducer, InvConsumer;
    StepKeepsInv(s, step);
  }

  /** Once a push has been refused and none follows, only the consumer goes on. */
  lemma {:induction false} NothingMoreIsPublished(s: State, run: seq<Step>)
    requires s.producer.PIdle? && ValidRun(s, run) && Follows(run, [])
    ensures Run(s, run).pushed == s.pushed
    decreases |run|
  {
    if run != [] { NothingMoreIsPublished(Do(s, run[0]), run[1..]); }
  }

  lemma {:induction false} WaitingHeaderIsNotTorn(s: State, run: seq<Step>, header: seq<byte>, payload: seq<byte>)
    requires HeaderWaits(s, header, |header| + |payload|) && ValidRun(s, run)
    requires Follows(run, if s.producer.PIdle? then Parts(header, payload) else Parts(header, payload)[1..])
    ensures !Torn(s, run)
    decreases |run|
  {
    TotalOfParts(header, payload);
    if run != [] {
      var parts, step, t := Parts(header, payload), run[0], Do(s, run[0]);
      if s.producer.PIdle? && s.credit >= |header| + |payload| {
        BudgetMeansNoRefusal(s, run, parts);
      } else if step.PRefuse? {
        NothingMoreIsPublished(t, run[1..]);
      } else {
        StepFromWaiting(s, step, header, |header| + |payload|);
        assert run == [step] + run[1..];
        WaitingHeaderIsNotTorn(t, run[1..], header, payload);
      }
    }
  }

  /** A write that passed the space test can be torn, its header published and its payload refused, exactly when
      the credit covers the header and not the whole. */
  lemma {:induction false} TornExactly(s: State, header: seq<byte>, payload: seq<byte>)
    requires Inv(s) && s.producer.PIdle? && SpaceFor(s, |header| + |payload|) && header != []
    ensures (exists run :: ValidRun(s, run) && Follows(run, Parts(header, payload)) && Torn(s, run))
       <==> |header| <= s.credit < |header| + |payload|
  {
    TotalOfParts(header, payload);
    if |header| <= s.credit < |header| + |payload| {
      var run := RefusedRun(s, header, payload);
      assert Torn(s, run);
    }
    forall run | ValidRun(s, run) && Follows(run, Parts(header, payload)) && Torn(s, run)
      ensures |header| <= s.credit < |header| + |payload|
    {
      if s.credit >= |header| + |payload| { BudgetMeansNoRefusal(s, run, Parts(header, payload)); }
      if s.credit < |header| { WaitingHeaderIsNotTorn(s, run, header, payload); }
    }
  }

  /** Without credit for the whole, the write is refused if the consumer does nothing in between: at the header, or
      behind it. */
  lemma RefusedRun(s: State, header: seq<byte>, payload: seq<byte>) returns (run: seq<Step>)
    requires Inv(s) && s.producer.PIdle? && SpaceFor(s, |header| + |payload|) && !CreditFor(s, |header| + |payload|)
    ensures ValidRun(s, run) && Follows(run, Parts(header, payload)) && PRefuse in run
    ensures Run(s, run).pushed == if CreditFor(s, |header|) then s.pushed + header else s.pushed
  {
    if CreditFor(s, |header|) {
      WriteIsTornInsideTheWindow(s, header, payload);
      run := PushSteps(header) + [PLoad(payload), PRefuse];
      TornRunFollows(header, payload);
    } else {
      run := [PLoad(header), PRefuse];
      RunOne(s, PLoad(header));
      RunSnoc(s, [PLoad(header)], PRefuse);
      assert [PLoad(header)] + [PRefuse] == run;
      assert run[1..][1..] == [] && Follows(run[1..], Parts(header, payload)[1..]);
    }
  }

  lemma TornRunFollows(header: seq<byte>, payload: seq<byte>)
    requires payload != []
    ensures Follows(PushSteps(header) + [PLoad(payload), PRefuse], Parts(header, payload))
  {
    var last: seq<Step> := [PLoad(payload), PRefuse];
    var parts, none: seq<seq<byte>> := [header, payload], [];
    var refusal: seq<Step> := [PRefuse];
    assert last[1..] == refusal && refusal[1..] == [] && parts[1..] == [payload] && parts[1..][1..] == none;
    assert Follows([], none) && Follows(refusal, none) && Follows(last, [payload]);
    FollowsBehind([PPublish], last, [payload]);
    CopiesOnly(|header|);
    FollowsBehind(CopySteps(|header|), [PPublish] + last, [payload]);
    FollowsBehind([PExchange, PLocate], CopySteps(|header|) + ([PPublish] + last), [payload]);
    var run := PushSteps(header) + last;
    assert run[0] == PLoad(header);
    assert run[1..] == [PExchange, PLocate] + (CopySteps(|header|) + ([PPublish] + last));
  }

  lemma {:induction false} CopiesOnly(n: nat)
    ensures forall i :: 0 <= i < |CopySteps(n)| ==> CopySteps(n)[i].PCopy?
  {
    if n > 0 { CopiesOnly(n - 1); }
  }

  lemma {:induction false} FollowsBehind(front: seq<Step>, run: seq<Step>, rest: seq<seq<byte>>)
    requires (forall i :: 0 <= i < |front| ==> !front[i].PLoad? && !front[i].PRefuse?) && Follows(run, rest)
    ensures Follows(front + run, rest)
    decreases |front|
  {
    if front == [] {
      assert front + run == run;
    } else {
      FollowsBehind(front[1..], run, rest);
      assert (front + run)[1..] == front[1..] + run;
    }
  }

  /** The case arises: in the empty ring of 16 bytes an empty chunk is written and read up to the return of its
      credit; then the next chunk, with a payload of 9 bytes, passes the space test and is torn. */
  lemma TornWriteIsReachable(payload: seq<byte>)
    requires |payload| == 9
    ensures var first, header := Encode(Frame([], false), 0), AsBytes(ChunkOf(Frame(payload, true), 1));
      var before := PushSteps(first) + PopSteps(7, 7);
      && ValidRun(Init(16), before)
      && var s := Run(Init(16), before);
         && Inv(s) && s.producer.PIdle? && SpaceFor(s, |header| + |payload|)
         && exists run :: ValidRun(s, run) && Follows(run, Parts(header, payload)) && Torn(s, run)
  {
    var first, header := Encode(Frame([], false), 0), AsBytes(ChunkOf(Frame(payload, true), 1));
    var before, s0 := PushSteps(first) + PopSteps(7, 7), Init(16);
    InitEstablishes(16);
    PushAlone(s0, first);
    RunKeepsInv(s0, PushSteps(first));
    var s1 := Run(s0, PushSteps(first));
    PopAlone(s1, 7);
    RunConcat(s0, PushSteps(first), PopSteps(7, 7));
    RunKeepsInv(s0, before);
    TornExactly(Run(s0, before), header, payload);
  }
}
