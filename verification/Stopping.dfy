/**
 When a CPU stops: only once the loader is done, only after a call of the scheduler that found every
 queue empty, and only if it ever had a process.
 */
module Stopping {
  import opened Queue
  import opened Sched
  import opened Cpus
  import opened CpuRuns
  import opened Turns
  import opened Waiting
  import opened Wrappers
  import Fairness
  import SchedRuns

  predicate Stopped(s: Sys, c: nat) {
    c < |s.cpus| && s.cpus[c].pc.Exited?
  }

  /** A CPU whose last call of the scheduler returned nothing, just before it looks whether the loader is done. */
  predicate Empty(s: Sys, c: nat) {
    c < |s.cpus| && s.cpus[c].pc.Recheck? && s.cpus[c].held == None
  }

  // ----- The loader is done -----

  /** Whoever has stopped saw the loader done, and it is done only when everything is loaded. */
  ghost predicate DoneOk(k: Config, s: Sys) {
    (s.done ==> s.loaded == |k.procs|) && forall c: nat :: Stopped(s, c) ==> s.done
  }

  /** Exactly the CPUs that find nothing while the loader is done stop, in their next step; nobody starts again. */
  lemma {:induction false} StepStops(k: Config, s: Sys, step: Step, c: nat)
    requires Enabled(k, s, step)
    ensures Stopped(Do(k, s, step), c) <==> Stopped(s, c) || (step == Go(c) && Empty(s, c) && s.done)
  {
    hide Get, Put, Add;
  }

  /** The loader's last step is what sets the flag, and nothing clears it. */
  lemma {:induction false} DoneIff(k: Config, s: Sys, step: Step)
    requires Enabled(k, s, step)
    ensures Do(k, s, step).done <==> s.done || step == LoaderDone
  {
    hide Get, Put, Add;
  }

  lemma DoneStep(k: Config, s: Sys, step: Step)
    requires Enabled(k, s, step) && DoneOk(k, s)
    ensures DoneOk(k, Do(k, s, step))
  {
    DoneKept(k, s, step);
    forall c: nat | Stopped(Do(k, s, step), c)
      ensures Do(k, s, step).done
    {
      StepStops(k, s, step, c);
    }
    hide Enabled, Do, Stopped;
  }

  lemma DoneKept(k: Config, s: Sys, step: Step)
    requires Enabled(k, s, step) && (s.done ==> s.loaded == |k.procs|)
    ensures s.done ==> Do(k, s, step).done
    ensures Do(k, s, step).done ==> Do(k, s, step).loaded == |k.procs|
  {
    hide Get, Put, Add;
  }

  lemma {:induction false} DoneRun(k: Config, s: Sys, steps: seq<Step>)
    requires CanRun(k, s, steps) && DoneOk(k, s)
    ensures DoneOk(k, RunAll(k, s, steps))
    decreases |steps|
  {
    hide Enabled, Do, DoneOk;
    if steps != [] {
      DoneStep(k, s, steps[0]);
      DoneRun(k, Do(k, s, steps[0]), steps[1..]);
    }
  }

  // ----- The last call -----

  predicate NothingWaits(s: State) {
    forall p :: 0 <= p < |s.queues| ==> s.queues[p] == []
  }

  /** This step is a call of get_proc by CPU c. */
  predicate Asks(k: Config, s: Sys, step: Step, c: nat)
    requires Enabled(k, s, step)
  {
    step == Go(c) && CallOf(k, s, step) == Some(SchedRuns.GetOp)
  }

  /** The scheduler as the last call of get_proc by CPU c found it. */
  function LastSeen(k: Config, s: Sys, steps: seq<Step>, c: nat, before: Option<State>): Option<State>
    requires CanRun(k, s, steps)
    decreases |steps|
  {
    if steps == [] then before
    else LastSeen(k, Do(k, s, steps[0]), steps[1..], c, if Asks(k, s, steps[0], c) then Some(s.sched) else before)
  }

  /** CPU c has been given a process in the run. */
  predicate Given(k: Config, s: Sys, steps: seq<Step>, c: nat)
    requires CanRun(k, s, steps)
    decreases |steps|
  {
    steps != [] &&
      ((Asks(k, s, steps[0], c) && StateOk(s.sched) && Get(s.sched).0.Some?) || Given(k, Do(k, s, steps[0]), steps[1..], c))
  }

  /** What the CPU's place says of its last call. */
  ghost predicate SeenOk(s: Sys, c: nat, seen: Option<State>) {
    Empty(s, c) || Stopped(s, c) ==> seen.Some? && NothingWaits(seen.value)
  }

  lemma EmptyAnswer(s: State)
    requires StateOk(s) && Get(s).0 == None
    ensures NothingWaits(s)
  {
    hide Get;
    Fairness.NothingIffAllEmpty(s);
  }

  /** A step leads to that place only by a call that returns nothing. */
  lemma EmptyStep(k: Config, s: Sys, step: Step, c: nat)
    requires Enabled(k, s, step) && StateOk(s.sched)
    ensures Empty(Do(k, s, step), c) && !Empty(s, c) ==> Asks(k, s, step, c) && Get(s.sched).0 == None
    ensures Asks(k, s, step, c) ==> !Empty(s, c) && !Stopped(s, c)
  {
    hide Get, Put, Add;
  }

  lemma SeenStep(k: Config, s: Sys, step: Step, c: nat, seen: Option<State>)
    requires Inv(k, s) && Enabled(k, s, step) && SeenOk(s, c, seen)
    ensures SeenOk(Do(k, s, step), c, if Asks(k, s, step, c) then Some(s.sched) else seen)
  {
    InvState(k, s);
    hide Inv, Get, NothingWaits, Do, Enabled, Empty, Stopped, Asks, StateOk;
    EmptyStep(k, s, step, c);
    StepStops(k, s, step, c);
    if Get(s.sched).0 == None {
      EmptyAnswer(s.sched);
    }
  }

  lemma {:induction false} SeenRun(k: Config, s: Sys, steps: seq<Step>, c: nat, seen: Option<State>)
    requires k.timeSlot >= 1 && ConfigOk(k) && Inv(k, s) && CanRun(k, s, steps) && SeenOk(s, c, seen)
    ensures SeenOk(RunAll(k, s, steps), c, LastSeen(k, s, steps, c, seen))
    decreases |steps|
  {
    hide ConfigOk, Inv, Enabled, Do, SeenOk, Asks;
    if steps != [] {
      StepKeeps(k, s, steps[0]);
      SeenStep(k, s, steps[0], c, seen);
      SeenRun(k, Do(k, s, steps[0]), steps[1..], c, if Asks(k, s, steps[0], c) then Some(s.sched) else seen);
    }
  }

  /** A CPU without a process that is at the head of its loop, or in its slot. */
  predicate Idle(s: Sys, c: nat) {
    c < |s.cpus| && s.cpus[c].held == None && (s.cpus[c].pc.Top? || s.cpus[c].pc.InSlot?)
  }

  /** The call at the head of the loop skips the look at the loader when it returns nothing. */
  lemma IdleStep(k: Config, s: Sys, step: Step, c: nat)
    requires Enabled(k, s, step) && Idle(s, c) && StateOk(s.sched)
    ensures Idle(Do(k, s, step), c) || (Asks(k, s, step, c) && Get(s.sched).0.Some?)
  {
    hide Get, Put, Add;
  }

  lemma {:induction false} IdleRun(k: Config, s: Sys, steps: seq<Step>, c: nat)
    requires k.timeSlot >= 1 && ConfigOk(k) && Inv(k, s) && CanRun(k, s, steps) && Idle(s, c)
    ensures Idle(RunAll(k, s, steps), c) || Given(k, s, steps, c)
    decreases |steps|
  {
    hide ConfigOk, Inv, Enabled, Do, Idle, Asks, Get;
    InvState(k, s);
    if steps != [] {
      StepKeeps(k, s, steps[0]);
      IdleStep(k, s, steps[0], c);
      if Idle(Do(k, s, steps[0]), c) {
        IdleRun(k, Do(k, s, steps[0]), steps[1..], c);
      }
    }
  }

  lemma StartDone(k: Config, numCpus: nat, c: nat)
    ensures DoneOk(k, Init(k, numCpus)) && SeenOk(Init(k, numCpus), c, None)
    ensures c < numCpus ==> Idle(Init(k, numCpus), c)
    ensures |Init(k, numCpus).cpus| == numCpus
  {
  }

  lemma {:induction false} SameCount(k: Config, s: Sys, steps: seq<Step>)
    requires CanRun(k, s, steps)
    ensures |RunAll(k, s, steps).cpus| == |s.cpus|
    decreases |steps|
  {
    hide Enabled, Do;
    if steps != [] {
      SameCpus(k, s, steps[0]);
      SameCount(k, Do(k, s, steps[0]), steps[1..]);
    }
  }

  lemma SameCpus(k: Config, s: Sys, step: Step)
    requires Enabled(k, s, step)
    ensures |Do(k, s, step).cpus| == |s.cpus|
  {
    hide Get, Put, Add;
  }

  /**
   In every reachable state: a CPU that has stopped was given a process before, its last call of
   get_proc found all 140 queues empty, and the loader is done, so that every process is loaded.
   */
  lemma {:induction false} StoppedMeans(k: Config, numCpus: nat, steps: seq<Step>, c: nat)
    requires k.timeSlot >= 1 && ConfigOk(k) && CanRun(k, Init(k, numCpus), steps)
    ensures var s := RunAll(k, Init(k, numCpus), steps); var seen := LastSeen(k, Init(k, numCpus), steps, c, None);
      Stopped(s, c) ==>
        && s.done && s.loaded == |k.procs|
        && seen.Some? && NothingWaits(seen.value)
        && Given(k, Init(k, numCpus), steps, c)
  {
    var b := Init(k, numCpus);
    StartDone(k, numCpus, c);
    hide ConfigOk, CanRun, RunAll, Init, Inv, LastSeen, Given, NothingWaits;
    InitInv(k, numCpus);
    DoneRun(k, b, steps);
    SeenRun(k, b, steps, c, None);
    SameCount(k, b, steps);
    if Stopped(RunAll(k, b, steps), c) {
      IdleRun(k, b, steps, c);
    }
  }

  /**
   The other way round, in every reachable state and for every step: a CPU stops in it if and only if
   it is that CPU's step after a call that left it without a process, and the loader is done then.
   */
  lemma {:induction false} StopsIff(k: Config, numCpus: nat, steps: seq<Step>, step: Step, c: nat)
    requires k.timeSlot >= 1 && ConfigOk(k) && CanRun(k, Init(k, numCpus), steps)
    ensures var s := RunAll(k, Init(k, numCpus), steps);
      Enabled(k, s, step) ==>
        (Stopped(Do(k, s, step), c) && !Stopped(s, c) <==> step == Go(c) && Empty(s, c) && s.done)
  {
    hide ConfigOk, CanRun, RunAll, Init, Do;
    var s := RunAll(k, Init(k, numCpus), steps);
    if Enabled(k, s, step) {
      StepStops(k, s, step, c);
    }
    hide Enabled;
  }

  // ----- Who never stops -----

  ghost predicate AllFinished(k: Config, s: Sys) {
    forall p :: p in k.procs ==> p in s.finished
  }

  lemma Unfinished(k: Config, s: Sys, p: nat, y: Pcb)
    requires ConfigOk(k) && Owned(k, s) && p < MAX_PRIO && y in s.sched.queues[p]
    ensures y in k.procs && y !in s.finished
  {
    hide Owned, ConfigOk;
    WaitingFacts(k, s, p, y);
  }

  lemma NothingLeft(k: Config, s: Sys)
    requires ConfigOk(k) && Inv(k, s) && AllFinished(k, s)
    ensures StateOk(s.sched) && Get(s.sched).0 == None
  {
    InvState(k, s);
    hide Inv, Owned, Get;
    forall p | 0 <= p < MAX_PRIO
      ensures s.sched.queues[p] == []
    {
      if s.sched.queues[p] != [] {
        Unfinished(k, s, p, s.sched.queues[p][0]);
      }
    }
    Fairness.NothingIffAllEmpty(s.sched);
  }

  lemma FinishedKept(k: Config, s: Sys, step: Step)
    requires Enabled(k, s, step) && AllFinished(k, s)
    ensures AllFinished(k, Do(k, s, step))
  {
    hide Enabled, Do;
    forall p | p in k.procs
      ensures p in Do(k, s, step).finished
    {
      FinishedStays(k, s, step, p);
    }
  }

  /**
   A CPU that is idle once every process has finished never stops, on any interleaving: it asks at the
   head of its loop for ever, and only the call after a finished or put-back process leads to the
   place where a CPU can stop.
   */
  lemma {:induction false} IdleForEver(k: Config, s: Sys, steps: seq<Step>, c: nat)
    requires k.timeSlot >= 1 && ConfigOk(k) && Inv(k, s) && CanRun(k, s, steps) && AllFinished(k, s) && Idle(s, c)
    ensures Idle(RunAll(k, s, steps), c) && !Stopped(RunAll(k, s, steps), c)
    decreases |steps|
  {
    hide ConfigOk, Inv, Enabled, Do, AllFinished, Get, Asks, Idle, Stopped;
    if steps == [] {
      IdleRuns(s, c);
    } else {
      StepKeeps(k, s, steps[0]);
      NothingLeft(k, s);
      IdleStep(k, s, steps[0], c);
      FinishedKept(k, s, steps[0]);
      IdleForEver(k, Do(k, s, steps[0]), steps[1..], c);
    }
  }

  lemma IdleRuns(s: Sys, c: nat)
    ensures Idle(s, c) ==> !Stopped(s, c)
  {
  }

  /** So with no process at all no CPU ever stops. */
  lemma {:induction false} NoProcessNoStop(k: Config, numCpus: nat, steps: seq<Step>, c: nat)
    requires k.timeSlot >= 1 && k.procs == [] && c < numCpus && CanRun(k, Init(k, numCpus), steps)
    ensures !Stopped(RunAll(k, Init(k, numCpus), steps), c)
  {
    StartDone(k, numCpus, c);
    InitInv(k, numCpus);
    hide CanRun, RunAll, Init, Inv, Idle, Stopped;
    IdleForEver(k, Init(k, numCpus), steps, c);
  }

  // ----- Who stops -----

  /** CPU c is at the head of its loop with a process it has completed, and everybody else has finished. */
  ghost predicate LastOne(k: Config, s: Sys, c: nat) {
    && c < |s.cpus| && s.cpus[c].pc.Top? && s.cpus[c].held.Some?
    && s.cpus[c].held.value in s.pcs && s.pcs[s.cpus[c].held.value] == s.cpus[c].held.value.codeSize
    && forall p :: p in k.procs ==> p == s.cpus[c].held.value || p in s.finished
  }

  /** The own steps that CPU c still takes after its last process. */
  ghost predicate Ending(k: Config, s: Sys, c: nat, left: nat) {
    && s.done && c < |s.cpus|
    && (if left == 0 then Stopped(s, c)
        else if left == 1 then Empty(s, c)
        else if left == 2 then s.cpus[c].pc.Refetch? && s.cpus[c].held == None && AllFinished(k, s)
        else left == 3 && LastOne(k, s, c))
  }

  lemma EndingOwn(k: Config, s: Sys, c: nat, left: nat)
    requires ConfigOk(k) && Inv(k, s) && Enabled(k, s, Go(c)) && Ending(k, s, c, left) && left > 0
    ensures Ending(k, Do(k, s, Go(c)), c, left - 1)
  {
    if left == 2 {
      NothingLeft(k, s);
    }
    hide Inv, Get, Put, Add;
  }

  lemma LastKept(k: Config, s: Sys, step: Step, c: nat)
    requires Enabled(k, s, step) && step != Go(c) && Inv(k, s) && ConfigOk(k) && LastOne(k, s, c)
    ensures LastOne(k, Do(k, s, step), c)
  {
    OthersStep(k, s, step, c);
    var x := s.cpus[c].held.value;
    forall p | p in k.procs && p != x
      ensures p in Do(k, s, step).finished
    {
      FinishedStays(k, s, step, p);
    }
    OtherCounter(k, s, step, c);
    hide Do, Enabled, Inv, ConfigOk;
  }

  /** Nobody else moves the counter of a process that CPU c holds. */
  lemma OtherCounter(k: Config, s: Sys, step: Step, c: nat)
    requires ConfigOk(k) && Inv(k, s) && Enabled(k, s, step) && step != Go(c) && c < |s.cpus| && s.cpus[c].held.Some?
    requires s.cpus[c].held.value in s.pcs
    ensures s.cpus[c].held.value in Do(k, s, step).pcs && Do(k, s, step).pcs[s.cpus[c].held.value] == s.pcs[s.cpus[c].held.value]
  {
    InvState(k, s);
    hide Inv, Owned, Get, Put, Add;
    if step.Go? {
      HoldersDiffer(k, s, c, step.c);
      OneCpu(k, s, step.c);
    }
  }

  lemma EndingOther(k: Config, s: Sys, step: Step, c: nat, left: nat)
    requires ConfigOk(k) && Inv(k, s) && Enabled(k, s, step) && Ending(k, s, c, left) && (step != Go(c) || left == 0)
    ensures Ending(k, Do(k, s, step), c, left)
  {
    DoneIff(k, s, step);
    SameCpus(k, s, step);
    StepStops(k, s, step, c);
    if step != Go(c) {
      OthersStep(k, s, step, c);
    }
    if left == 2 {
      FinishedKept(k, s, step);
    } else if left > 2 {
      LastKept(k, s, step, c);
    }
    hide Do, Enabled, Inv, ConfigOk, AllFinished, LastOne;
  }

  /** On every interleaving the CPU needs its own steps and nothing else. */
  lemma {:induction false} EndingRun(k: Config, s: Sys, steps: seq<Step>, c: nat, left: nat)
    requires k.timeSlot >= 1 && ConfigOk(k) && Inv(k, s) && CanRun(k, s, steps) && Ending(k, s, c, left)
    requires OwnSteps(steps, c) >= left
    ensures Stopped(RunAll(k, s, steps), c)
    decreases |steps|
  {
    hide ConfigOk, Inv, Enabled, Do, Empty, Stopped, AllFinished, LastOne;
    if steps != [] {
      StepKeeps(k, s, steps[0]);
      if steps[0] == Go(c) && left > 0 {
        EndingOwn(k, s, c, left);
        EndingRun(k, Do(k, s, steps[0]), steps[1..], c, left - 1);
      } else {
        EndingOther(k, s, steps[0], c, left);
        EndingRun(k, Do(k, s, steps[0]), steps[1..], c, left);
      }
    }
  }

  /**
   The CPU that has completed the last process stops, whatever the others do, after three steps of its
   own: it gives the process up, asks once more, and sees that the loader is done.
   */
  lemma {:induction false} LastOneStops(k: Config, s: Sys, steps: seq<Step>, c: nat)
    requires k.timeSlot >= 1 && ConfigOk(k) && Inv(k, s) && CanRun(k, s, steps)
    requires LastOne(k, s, c) && s.done && OwnSteps(steps, c) >= 3
    ensures Stopped(RunAll(k, s, steps), c)
  {
    hide ConfigOk, Inv, CanRun, RunAll, OwnSteps, Stopped, Empty;
    EndingRun(k, s, steps, c, 3);
  }

  // ----- Every pass through the loop ends -----

  /** The most own steps of a CPU until it is in next_slot or has stopped. */
  function StepsToSlot(cpu: Cpu): nat {
    match cpu.pc
    case Top => 5
    case Refetch(_) => 4
    case Recheck => 3
    case Running => 2
    case Fetched(_) => 1
    case _ => 0
  }

  predicate LeftSlot(cpu: Cpu) {
    cpu.pc.InSlot? || cpu.pc.Exited?
  }

  lemma OwnStep(k: Config, s: Sys, c: nat)
    requires k.timeSlot >= 1 && Inv(k, s) && Enabled(k, s, Go(c)) && !LeftSlot(s.cpus[c])
    ensures c < |Do(k, s, Go(c)).cpus|
    ensures LeftSlot(Do(k, s, Go(c)).cpus[c]) || StepsToSlot(Do(k, s, Go(c)).cpus[c]) < StepsToSlot(s.cpus[c])
  {
    assert SliceOk(k.timeSlot, s.cpus[c]);
    hide Inv, Get, Put, Add;
  }

  lemma OthersStep(k: Config, s: Sys, step: Step, c: nat)
    requires Enabled(k, s, step) && step != Go(c) && c < |s.cpus|
    ensures c < |Do(k, s, step).cpus| && Do(k, s, step).cpus[c] == s.cpus[c]
  {
    hide Get, Put, Add;
  }

  /** How many steps of CPU c a run has. */
  function OwnSteps(steps: seq<Step>, c: nat): nat {
    if steps == [] then 0 else (if steps[0] == Go(c) then 1 else 0) + OwnSteps(steps[1..], c)
  }

  /** CPU c calls next_slot or stops somewhere in the run. */
  predicate LeavesSlot(k: Config, s: Sys, steps: seq<Step>, c: nat)
    requires CanRun(k, s, steps)
    decreases |steps|
  {
    steps != [] &&
      ((steps[0] == Go(c) && c < |Do(k, s, steps[0]).cpus| && LeftSlot(Do(k, s, steps[0]).cpus[c]))
       || LeavesSlot(k, Do(k, s, steps[0]), steps[1..], c))
  }

  /**
   No CPU keeps the barrier waiting: whatever the others do in between, it needs at most five steps of
   its own until it calls next_slot or stops, and the step after next_slot takes it to the head of its loop.
   */
  lemma {:induction false} SlotEnds(k: Config, s: Sys, steps: seq<Step>, c: nat)
    requires k.timeSlot >= 1 && ConfigOk(k) && Inv(k, s) && CanRun(k, s, steps) && c < |s.cpus|
    requires !LeftSlot(s.cpus[c]) && OwnSteps(steps, c) >= StepsToSlot(s.cpus[c])
    ensures StepsToSlot(s.cpus[c]) <= 5 && LeavesSlot(k, s, steps, c)
    decreases |steps|
  {
    hide ConfigOk, Inv, Enabled, Do;
    if steps != [] {
      StepKeeps(k, s, steps[0]);
      if steps[0] == Go(c) {
        OwnStep(k, s, c);
      } else {
        OthersStep(k, s, steps[0], c);
      }
      if !(steps[0] == Go(c) && LeftSlot(Do(k, s, steps[0]).cpus[c])) {
        SlotEnds(k, Do(k, s, steps[0]), steps[1..], c);
      }
    }
  }
}
