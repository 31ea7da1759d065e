/** The shutdown coordinator of src/shutdown/mod.rs. `ShutdownSteps` interleaves the atomic operations of any
    number of threads, sequentially consistent; `Shutdown` is the object one caller sees. Only guards change the
    in-flight counter here. */
module ShutdownSteps {

  /** Where a thread is: inside `request_start`, holding an active guard, inside `shutdown`, or nowhere. */
  datatype Pc =
    | Idle
    | Checked       // saw the flag clear, has not incremented
    | Incremented   // incremented, has not looked at the flag again
    | Refused       // saw the flag set on the second look, has not decremented
    | Active        // holds an active guard
    | Swapped       // inside `shutdown`, was the first to swap `initiated`

  datatype State = State(initiated: bool, flag: bool, inFlight: nat, threads: map<nat, Pc>)

  datatype Action = FirstLook | Increment | SecondLook | Undo | DropGuard | SwapInitiated | StoreFlag

  datatype Step = Step(thread: nat, action: Action)

  function Init(threads: set<nat>): State {
    State(false, false, 0, map t | t in threads :: Idle)
  }

  predicate Enabled(s: State, step: Step) {
    step.thread in s.threads &&
    match step.action
    case FirstLook => s.threads[step.thread].Idle?
    case Increment => s.threads[step.thread].Checked?
    case SecondLook => s.threads[step.thread].Incremented?
    case Undo => s.threads[step.thread].Refused?
    case DropGuard => s.threads[step.thread].Active?
    case SwapInitiated => s.threads[step.thread].Idle?
    case StoreFlag => s.threads[step.thread].Swapped?
  }

  /** `fetch_update` with `checked_sub`: at zero the counter stays. */
  function Decrement(n: nat): nat {
    if n == 0 then 0 else n - 1
  }

  function Do(s: State, step: Step): State
    requires Enabled(s, step)
  {
    var t := step.thread;
    match step.action
    case FirstLook => s.(threads := s.threads[t := if s.flag then Idle else Checked])
    case Increment => s.(inFlight := s.inFlight + 1, threads := s.threads[t := Incremented])
    case SecondLook => s.(threads := s.threads[t := if s.flag then Refused else Active])
    case Undo => s.(inFlight := Decrement(s.inFlight), threads := s.threads[t := Idle])
    case DropGuard => s.(inFlight := Decrement(s.inFlight), threads := s.threads[t := Idle])
    case SwapInitiated => s.(initiated := true, threads := s.threads[t := if s.initiated then Idle else Swapped])
    case StoreFlag => s.(flag := true, threads := s.threads[t := Idle])
  }

  predicate ValidRun(s: State, run: seq<Step>)
    decreases |run|
  {
    run == [] || (Enabled(s, run[0]) && ValidRun(Do(s, run[0]), run[1..]))
  }

  function Run(s: State, run: seq<Step>): State
    requires ValidRun(s, run)
    decreases |run|
  {
    if run == [] then s else Run(Do(s, run[0]), run[1..])
  }

  function At(s: State, pc: Pc): set<nat> {
    set t | t in s.threads && s.threads[t] == pc
  }

  /** The counter is the active guards plus the threads between increment and decrement. */
  predicate Counted(s: State) {
    s.inFlight == |At(s, Active)| + |At(s, Incremented)| + |At(s, Refused)|
  }

  /** The flag is set only by the one thread that swapped `initiated` first. */
  predicate FlagSound(s: State) {
    && (s.flag ==> s.initiated)
    && |At(s, Swapped)| <= 1
    && (At(s, Swapped) != {} ==> s.initiated && !s.flag)
    && (s.initiated ==> s.flag || At(s, Swapped) != {})
  }

  predicate Inv(s: State) {
    Counted(s) && FlagSound(s)
  }

  /** Moving one thread changes the population of the place it leaves and the place it enters. */
  lemma Move(s: State, t: nat, pc: Pc, p: Pc)
    requires t in s.threads
    ensures var s' := s.(threads := s.threads[t := pc]);
      && At(s', p) == (if p == pc then At(s, p) + {t} else At(s, p) - {t})
      && |At(s', p)| == |At(s, p)| - (if s.threads[t] == p then 1 else 0) + (if p == pc then 1 else 0)
  {
    var s' := s.(threads := s.threads[t := pc]);
    assert At(s', p) == (if p == pc then At(s, p) + {t} else At(s, p) - {t});
  }

  lemma StepKeepsInv(s: State, step: Step)
    requires Inv(s) && Enabled(s, step)
    ensures Inv(Do(s, step))
  {
    var s' := Do(s, step);
    var t, pc := step.thread, s'.threads[step.thread];
    var m := s.(threads := s.threads[t := pc]);
    Move(s, t, pc, Active);
    Move(s, t, pc, Incremented);
    Move(s, t, pc, Refused);
    Move(s, t, pc, Swapped);
    assert At(s', Active) == At(m, Active) && At(s', Incremented) == At(m, Incremented);
    assert At(s', Refused) == At(m, Refused) && At(s', Swapped) == At(m, Swapped);
    assert t in At(s, s.threads[t]);
  }

  lemma {:induction false} RunKeepsInv(s: State, run: seq<Step>)
    requires Inv(s) && ValidRun(s, run)
    ensures Inv(Run(s, run))
    ensures s.flag ==> Run(s, run).flag && At(Run(s, run), Active) <= At(s, Active)
    decreases |run|
  {
    if run != [] {
      StepKeepsInv(s, run[0]);
      if s.flag { ActiveOnlyShrinks(s, run[0]); }
      RunKeepsInv(Do(s, run[0]), run[1..]);
    }
  }

  /** Once the flag is set nobody is admitted any more. */
  lemma ActiveOnlyShrinks(s: State, step: Step)
    requires s.flag && Enabled(s, step)
    ensures Do(s, step).flag && At(Do(s, step), Active) <= At(s, Active)
  {
  }

  /** The counter in every interleaving. */
  lemma {:induction false} CounterIsExact(threads: set<nat>, run: seq<Step>)
    requires ValidRun(Init(threads), run)
    ensures var s := Run(Init(threads), run);
      s.inFlight == |At(s, Active)| + |At(s, Incremented)| + |At(s, Refused)|
  {
    assert At(Init(threads), Active) == At(Init(threads), Incremented) == At(Init(threads), Refused) == {};
    assert At(Init(threads), Swapped) == {};
    RunKeepsInv(Init(threads), run);
  }

  /** Soundness of draining: reading zero after the flag was set means that no active guard exists at that
      moment, nor at any later one. */
  lemma {:induction false} DrainIsFinal(threads: set<nat>, before: seq<Step>, after: seq<Step>)
    requires ValidRun(Init(threads), before)
    requires Run(Init(threads), before).flag && Run(Init(threads), before).inFlight == 0
    requires ValidRun(Run(Init(threads), before), after)
    ensures At(Run(Init(threads), before), Active) == {}
    ensures At(Run(Run(Init(threads), before), after), Active) == {}
  {
    CounterIsExact(threads, before);
    assert At(Init(threads), Active) == At(Init(threads), Incremented) == At(Init(threads), Refused) == {};
    assert At(Init(threads), Swapped) == {};
    RunKeepsInv(Init(threads), before);
    RunKeepsInv(Run(Init(threads), before), after);
  }

  /** Work left in threads that are inside a request. */
  function Potential(s: State): nat {
    3 * |At(s, Checked)| + 2 * |At(s, Incremented)| + |At(s, Refused)| + |At(s, Active)|
  }

  predicate InRequest(pc: Pc) {
    pc.Checked? || pc.Incremented? || pc.Refused? || pc.Active?
  }

  /** After the flag every step of a thread inside a request uses up potential, and no step adds any. */
  lemma PotentialFalls(s: State, step: Step)
    requires s.flag && Enabled(s, step)
    ensures Potential(Do(s, step)) <= Potential(s) - if InRequest(s.threads[step.thread]) then 1 else 0
  {
    var t, pc := step.thread, Do(s, step).threads[step.thread];
    Moved(s, step, Active);
    Moved(s, step, Incremented);
    Moved(s, step, Refused);
    Moved(s, step, Checked);
    hide At;
  }

  /** The population of a place after a step. */
  lemma Moved(s: State, step: Step, p: Pc)
    requires Enabled(s, step)
    ensures var s' := Do(s, step); var from, to := s.threads[step.thread], s'.threads[step.thread];
      |At(s', p)| == |At(s, p)| - (if from == p then 1 else 0) + (if p == to then 1 else 0)
  {
    var s' := Do(s, step);
    var t, pc := step.thread, s'.threads[step.thread];
    Move(s, t, pc, p);
    assert s'.threads == s.threads[t := pc];
    assert At(s', p) == At(s.(threads := s.threads[t := pc]), p);
  }

  function RequestSteps(s: State, run: seq<Step>): nat
    requires ValidRun(s, run)
    decreases |run|
  {
    if run == [] then 0
    else (if InRequest(s.threads[run[0].thread]) then 1 else 0) + RequestSteps(Do(s, run[0]), run[1..])
  }

  /** Draining is bounded: after the flag the threads inside requests take at most `Potential` further steps,
      and when they have taken that many the counter is zero. */
  lemma {:induction false} DrainIsBounded(s: State, run: seq<Step>)
    requires Inv(s) && s.flag && ValidRun(s, run)
    ensures RequestSteps(s, run) + Potential(Run(s, run)) <= Potential(s)
    ensures RequestSteps(s, run) == Potential(s) ==> Run(s, run).inFlight == 0
    decreases |run|
  {
    if run != [] {
      PotentialFalls(s, run[0]);
      StepKeepsInv(s, run[0]);
      DrainIsBounded(Do(s, run[0]), run[1..]);
    }
  }

  /** In every continuation the active guards are among those active now. */
  ghost predicate AdmitsNoMore(s: State) {
    forall run: seq<Step> :: ValidRun(s, run) ==> At(Run(s, run), Active) <= At(s, Active)
  }

  /** Nobody is admitted any more, in whatever way the threads interleave, exactly when the flag is set, which every
      caller can read. */
  lemma AdmissionEndsExactlyWithFlag(s: State, idle: nat)
    requires Inv(s) && idle in s.threads && s.threads[idle].Idle?
    ensures AdmitsNoMore(s) <==> s.flag
  {
    if s.flag {
      forall run: seq<Step> | ValidRun(s, run) ensures At(Run(s, run), Active) <= At(s, Active) {
        RunKeepsInv(s, run);
      }
    } else {
      var run := [Step(idle, FirstLook), Step(idle, Increment), Step(idle, SecondLook)];
      AdmittedWithoutFlag(s, idle);
      assert idle in At(Run(s, run), Active) && idle !in At(s, Active);
    }
  }

  lemma {:induction false} AdmittedWithoutFlag(s: State, t: nat)
    requires t in s.threads && s.threads[t].Idle? && !s.flag
    ensures var run := [Step(t, FirstLook), Step(t, Increment), Step(t, SecondLook)];
      ValidRun(s, run) && Run(s, run).threads == s.threads[t := Active]
  {
    var r0 := [Step(t, FirstLook), Step(t, Increment), Step(t, SecondLook)];
    var s1 := Do(s, r0[0]);
    var s2 := Do(s1, r0[1]);
    var s3 := Do(s2, r0[2]);
    var r1 := r0[1..];
    var r2 := r1[1..];
    assert r1[0] == r0[1] && r2[0] == r0[2] && r2[1..] == [];
    assert ValidRun(s3, []) && Run(s3, []) == s3;
    assert ValidRun(s2, r2) && Run(s2, r2) == s3;
    assert ValidRun(s1, r1) && Run(s1, r1) == s3;
    assert s3.threads == s.threads[t := Active];
  }

  /** When an initiated shutdown has set the flag: when its first caller is not between the swap and the store. A second
      caller that returns in between has not ended admission, which its own look at the flag tells it. */
  lemma {:induction false} InitiatedRefusesOnceStored(threads: set<nat>, run: seq<Step>)
    requires ValidRun(Init(threads), run) && Run(Init(threads), run).initiated
    ensures var s := Run(Init(threads), run); s.flag <==> At(s, Swapped) == {}
  {
    RunKeepsInv(Init(threads), run);
  }

  /** A second caller of `shutdown` can return before the first has stored the flag, so its return does not
      mean that new work is refused: here thread 2 returns and thread 3 is still admitted. */
  lemma SecondCallerMayReturnEarly()
    ensures var run := [Step(1, SwapInitiated), Step(2, SwapInitiated),
                        Step(3, FirstLook), Step(3, Increment), Step(3, SecondLook)];
      && ValidRun(Init({1, 2, 3}), run)
      && Run(Init({1, 2, 3}), run).threads[2].Idle?
      && Run(Init({1, 2, 3}), run).initiated
      && Run(Init({1, 2, 3}), run).threads[3].Active?
  {
    var s0 := Init({1, 2, 3});
    var r0 := [Step(1, SwapInitiated), Step(2, SwapInitiated),
               Step(3, FirstLook), Step(3, Increment), Step(3, SecondLook)];
    var s1 := Do(s0, r0[0]);
    var s2 := Do(s1, r0[1]);
    var s3 := Do(s2, r0[2]);
    var s4 := Do(s3, r0[3]);
    var s5 := Do(s4, r0[4]);
    var r1, r2, r3, r4 := r0[1..], r0[2..], r0[3..], r0[4..];
    assert r1[1..] == r2 && r2[1..] == r3 && r3[1..] == r4 && r4[1..] == [];
    assert ValidRun(s5, []) && Run(s5, []) == s5;
    assert ValidRun(s4, r4) && Run(s4, r4) == s5;
    assert ValidRun(s3, r3) && Run(s3, r3) == s5;
    assert ValidRun(s2, r2) && Run(s2, r2) == s5;
    assert ValidRun(s1, r1) && Run(s1, r1) == s5;
  }
}

module Shutdown {
  import opened ShutdownSteps

  datatype Guard = Guard(active: bool)

  class ShutdownCoordinator {
    var shutdownFlag: bool
    var inFlight: nat
    var initiated: bool
    /** The number of active guards handed out and not yet dropped. */
    ghost var guards: nat

    ghost predicate Valid()
      reads this
    {
      inFlight == guards && (shutdownFlag == initiated)
    }

    constructor ()
      ensures Valid() && !shutdownFlag && guards == 0
    {
      shutdownFlag, inFlight, initiated, guards := false, 0, false, 0;
    }

    method Shutdown()
      requires Valid()
      modifies this`shutdownFlag, this`initiated
      ensures Valid() && shutdownFlag
    {
      var was := initiated;
      initiated := true;
      if was { return; }
      shutdownFlag := true;
    }

    method DecrementInFlight()
      modifies this`inFlight
      ensures inFlight == Decrement(old(inFlight))
    {
      if inFlight > 0 { inFlight := inFlight - 1; }
    }

    /** `raised` says whether another thread runs `shutdown` between the two looks at the flag. */
    method RequestStart(raised: bool) returns (g: Guard)
      requires Valid()
      modifies this
      ensures Valid() && g.active == !shutdownFlag
      ensures shutdownFlag == (old(shutdownFlag) || raised)
      ensures guards == old(guards) + if g.active then 1 else 0
    {
      if shutdownFlag { return Guard(false); }
      inFlight := inFlight + 1;
      if raised {
        initiated := true;
        shutdownFlag := true;
      }
      if shutdownFlag {
        DecrementInFlight();
        return Guard(false);
      }
      guards := guards + 1;
      return Guard(true);
    }

    method DropGuard(g: Guard)
      requires Valid() && (g.active ==> guards > 0)
      modifies this`inFlight, this`guards
      ensures Valid() && guards == old(guards) - if g.active then 1 else 0
    {
      if g.active {
        DecrementInFlight();
        guards := guards - 1;
      }
    }
  }

  /** One look of the draining loop: the counter it loads and the clock it reads. */
  datatype Look = Look(count: nat, now: nat)

  /** `wait_drain` against the values its environment lets it see: true at the first zero count, false at the
      first look past the deadline before that. `decided` is false while it is still polling. */
  method WaitDrain(looks: seq<Look>, deadline: nat) returns (drained: bool, decided: bool)
    ensures decided && drained <==>
      exists i :: 0 <= i < |looks| && looks[i].count == 0
        && forall j :: 0 <= j < i ==> looks[j].count > 0 && looks[j].now <= deadline
    ensures decided && !drained <==>
      exists i :: 0 <= i < |looks| && looks[i].count > 0 && looks[i].now > deadline
        && forall j :: 0 <= j < i ==> looks[j].count > 0 && looks[j].now <= deadline
  {
    for i := 0 to |looks|
      invariant forall j :: 0 <= j < i ==> looks[j].count > 0 && looks[j].now <= deadline
    {
      if looks[i].count == 0 { return true, true; }
      if looks[i].now > deadline { return false, true; }
    }
    return false, false;
  }
}
