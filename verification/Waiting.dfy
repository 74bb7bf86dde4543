/**
 How long a loaded process waits for a CPU.  Whatever the legacy priorities, the other processes'
 programs end; and a process that nothing unfinished goes before waits no longer than the scheduler's
 own bound.
 */
module Waiting {
  import opened Queue
  import opened Sched
  import opened Cpus
  import opened CpuRuns
  import opened Turns
  import opened Wrappers
  import SchedRuns
  import Starvation
  import Fairness

  // ----- Who is dispatched while x waits -----

  /** A waiting process is a loaded one and not finished. */
  lemma WaitingFacts(k: Config, s: Sys, p: nat, y: Pcb)
    requires ConfigOk(k) && Owned(k, s) && p < MAX_PRIO && y in s.sched.queues[p]
    ensures y in k.procs[..s.loaded] && y !in s.finished
  {
    hide QueueBag, HeldBag, OwnLevels;
    var here := k.procs[..s.loaded];
    InQueueBag(s.sched.queues, p);
    assert y in multiset(s.sched.queues[p]) && multiset(s.sched.queues[p])[y] <= QueueBag(s.sched.queues)[y];
    var all: multiset<Pcb> := multiset(here);
    OnceEach(here, y);
    assert y in all;
    assert all[y] >= QueueBag(s.sched.queues)[y] + multiset(s.finished)[y];
  }

  predicate IsWaiting(s: Sys, x: Pcb) {
    x.prio < |s.sched.queues| && x in s.sched.queues[x.prio]
  }

  /** While x waits a call returns a process; and unless it returns x, x goes on waiting. */
  lemma WaitStep(k: Config, s: Sys, step: Step, x: Pcb)
    requires ConfigOk(k) && Inv(k, s) && Enabled(k, s, step) && IsWaiting(s, x)
    ensures IsWaiting(Do(k, s, step), x) || (CallOf(k, s, step) == Some(SchedRuns.GetOp) && Get(s.sched).0 == Some(x))
    ensures CallOf(k, s, step) == Some(SchedRuns.GetOp) ==> Get(s.sched).0.Some? && Get(s.sched).0.value in k.procs
  {
    hide QueueBag, HeldBag, TraceOk, FetchOk, SliceOk;
    CallMeans(k, s, step);
    hide Do, CallOf, Get, Add, Put, Enabled;
    match CallOf(k, s, step)
    case None =>
    case Some(GetOp) =>
      Starvation.GetKeeps(s.sched, x.prio, x);
      SomebodyComes(s.sched, x);
      var y := Get(s.sched).0.value;
      Starvation.GetKeeps(s.sched, 0, y);
      WaitingFacts(k, s, y.prio, y);
    case Some(op) =>
      ArrivalWaits(s.sched, op, x);
  }

  lemma SomebodyComes(s: State, x: Pcb)
    requires StateOk(s) && x.prio < MAX_PRIO && x in s.queues[x.prio]
    ensures Get(s).0.Some?
  {
    hide Get;
    Fairness.NothingIffAllEmpty(s);
  }

  lemma ArrivalWaits(s: State, op: SchedRuns.Op, x: Pcb)
    requires StateOk(s) && !op.GetOp? && SchedRuns.OpOk(op) && x.prio < MAX_PRIO && x in s.queues[x.prio]
    ensures x in SchedRuns.Step(s, op).queues[x.prio]
  {
    hide Purged;
  }

  /** The processes of a run's dispatches, as long as x is not among them. */
  lemma {:induction false} WaitRun(k: Config, s: Sys, steps: seq<Step>, x: Pcb)
    requires k.timeSlot >= 1 && ConfigOk(k) && Inv(k, s) && CanRun(k, s, steps) && IsWaiting(s, x)
    ensures StateOk(s.sched) && SchedRuns.OpsOk(Calls(k, s, steps))
    ensures var got := SchedRuns.Dispatches(s.sched, Calls(k, s, steps));
      x !in got ==> |got| == SchedRuns.Gets(Calls(k, s, steps)) && forall y :: y in got ==> y in k.procs
    decreases |steps|
  {
    hide *;
    InvState(k, s);
    CallsOk(k, s, steps);
    if steps == [] {
      NoSteps(k, s);
    } else {
      RunFirst(k, s, steps);
      FirstCall(k, s, steps, x);
      StepKeeps(k, s, steps[0]);
      WaitStep(k, s, steps[0], x);
      var s' := Do(k, s, steps[0]);
      var rest := SchedRuns.Dispatches(s'.sched, Calls(k, s', steps[1..]));
      if IsWaiting(s', x) {
        WaitRun(k, s', steps[1..], x);
      }
      assert [] + rest == rest;
    }
  }

  // ----- Adding up -----

  /** The dispatches that these programs take together. */
  function TotalTurns(procs: seq<Pcb>, timeSlot: int): nat
    requires timeSlot >= 1
  {
    if procs == [] then 0 else TurnsOf(procs[0].codeSize, timeSlot) + TotalTurns(procs[1..], timeSlot)
  }

  /** How many entries of the log are one of these. */
  function Count(log: seq<Pcb>, procs: seq<Pcb>): nat {
    if procs == [] then 0 else multiset(log)[procs[0]] + Count(log, procs[1..])
  }

  lemma {:induction false} CountNext(x: Pcb, log: seq<Pcb>, procs: seq<Pcb>)
    ensures Count([x] + log, procs) >= Count(log, procs) + if x in procs then 1 else 0
  {
    if procs != [] {
      CountNext(x, log, procs[1..]);
      CountCons(x, log, procs[0]);
    }
  }

  lemma {:induction false} CountAll(log: seq<Pcb>, procs: seq<Pcb>)
    requires forall y :: y in log ==> y in procs
    ensures |log| <= Count(log, procs)
  {
    if log != [] {
      CountAll(log[1..], procs);
      CountNext(log[0], log[1..], procs);
      assert log == [log[0]] + log[1..];
    }
  }

  lemma {:induction false} CountBound(log: seq<Pcb>, procs: seq<Pcb>, timeSlot: int)
    requires timeSlot >= 1 && forall y :: y in procs ==> multiset(log)[y] <= TurnsOf(y.codeSize, timeSlot)
    ensures Count(log, procs) <= TotalTurns(procs, timeSlot)
  {
    hide TurnsOf;
    if procs != [] {
      assert procs[0] in procs;
      CountBound(log, procs[1..], timeSlot);
    }
  }

  lemma {:induction false} OthersIn(procs: seq<Pcb>, x: Pcb, y: Pcb)
    ensures y in procs && y != x ==> y in Purged(procs, x)
    ensures y in Purged(procs, x) ==> y in procs
  {
    if procs != [] { OthersIn(procs[1..], x, y); }
  }

  // ----- Nobody starves -----

  /** From any reachable state on, a process is dispatched at most as often as it has turns. */
  lemma LaterDispatches(k: Config, numCpus: nat, steps: seq<Step>, more: seq<Step>, p: Pcb)
    requires k.timeSlot >= 1 && ConfigOk(k) && CanRun(k, Init(k, numCpus), steps) && p in k.procs
    requires CanRun(k, RunAll(k, Init(k, numCpus), steps), more)
    ensures var s := RunAll(k, Init(k, numCpus), steps);
      && StateOk(s.sched) && SchedRuns.OpsOk(Calls(k, s, more))
      && Dispatched(k, s, more, p) <= TurnsOf(p.codeSize, k.timeSlot)
  {
    hide ConfigOk, CanRun, RunAll, Calls, PutBacks, Init, Inv, Account, StateOk, SchedRuns.OpsOk, SchedRuns.Dispatches, TurnsOf, Times;
    var b := Init(k, numCpus);
    var s := RunAll(k, b, steps);
    var t := RunAll(k, s, more);
    InitInv(k, numCpus);
    RunKeeps(k, b, steps);
    RunKeeps(k, s, more);
    RunRunning(k, s, more, p);
    RunningOnce(k, t, p);
    PutBacksMean(k, s, more, p);
    if p.codeSize == 0 {
      EmptyNeverBack(k, s, more, p);
      OneTurn(p.codeSize, k.timeSlot);
    } else {
      InitAccount(k, numCpus, p);
      RunAccount(k, b, steps, p, 0);
      var n := PutBacks(k, b, steps, p);
      RunAccount(k, s, more, p, n);
      AccountBound(k, t, p, n + PutBacks(k, s, more, p));
      SlicesFit(n + PutBacks(k, s, more, p), p.codeSize, k.timeSlot);
    }
  }

  lemma PutBacksMean(k: Config, s: Sys, steps: seq<Step>, p: Pcb)
    requires CanRun(k, s, steps)
    ensures PutBacks(k, s, steps, p) == multiset(Calls(k, s, steps))[SchedRuns.PutOp(p)]
  {
  }

  lemma OneTurn(codeSize: nat, timeSlot: int)
    requires timeSlot >= 1
    ensures TurnsOf(codeSize, timeSlot) >= 1
  {
  }

  /**
   Nobody starves: in every reachable state and on every interleaving from there, a waiting process is
   dispatched before the scheduler has been called more often than all the other programs have
   slices to begin, whatever the legacy priorities, the levels and the number of CPUs.
   */
  lemma {:induction false} NobodyStarves(k: Config, numCpus: nat, steps: seq<Step>, more: seq<Step>, x: Pcb)
    requires k.timeSlot >= 1 && ConfigOk(k) && CanRun(k, Init(k, numCpus), steps)
    requires CanRun(k, RunAll(k, Init(k, numCpus), steps), more) && IsWaiting(RunAll(k, Init(k, numCpus), steps), x)
    ensures var s := RunAll(k, Init(k, numCpus), steps);
      && StateOk(s.sched) && SchedRuns.OpsOk(Calls(k, s, more))
      && (SchedRuns.Gets(Calls(k, s, more)) > TotalTurns(Purged(k.procs, x), k.timeSlot)
          ==> x in SchedRuns.Dispatches(s.sched, Calls(k, s, more)))
  {
    hide ConfigOk, CanRun, RunAll, Calls, Init, Inv, StateOk, SchedRuns.OpsOk, SchedRuns.Dispatches, SchedRuns.Gets;
    hide TurnsOf, TotalTurns, Count, IsWaiting, Purged;
    var s := RunAll(k, Init(k, numCpus), steps);
    InitInv(k, numCpus);
    RunKeeps(k, Init(k, numCpus), steps);
    WaitRun(k, s, more, x);
    var got := SchedRuns.Dispatches(s.sched, Calls(k, s, more));
    var others := Purged(k.procs, x);
    if x !in got {
      forall y | y in got
        ensures y in others
      {
        OthersIn(k.procs, x, y);
      }
      forall y | y in others
        ensures multiset(got)[y] <= TurnsOf(y.codeSize, k.timeSlot)
      {
        OthersIn(k.procs, x, y);
        LaterDispatches(k, numCpus, steps, more, y);
      }
      CountAll(got, others);
      CountBound(got, others, k.timeSlot);
    }
  }

  // ----- Without an unfinished rival -----

  /** Whoever would go before x in its level has finished. */
  ghost predicate RivalsDone(k: Config, s: Sys, x: Pcb) {
    forall y :: y in k.procs && y.prio == x.prio && y.priority < x.priority ==> y in s.finished
  }

  lemma FinishedLoaded(k: Config, s: Sys, y: Pcb)
    requires Owned(k, s) && y in s.finished
    ensures y in k.procs[..s.loaded]
  {
    hide QueueBag, HeldBag, OwnLevels;
    assert y in multiset(s.finished);
    assert y in multiset(k.procs[..s.loaded]);
  }

  lemma NotYetLoaded(k: Config, s: Sys)
    requires ConfigOk(k) && s.loaded < |k.procs|
    ensures k.procs[s.loaded] !in k.procs[..s.loaded]
  {
    assert forall j :: 0 <= j < s.loaded ==> k.procs[..s.loaded][j] == k.procs[j];
  }

  /** No arrival is smaller than x. */
  lemma ArrivalNotSmaller(k: Config, s: Sys, step: Step, x: Pcb)
    requires ConfigOk(k) && Inv(k, s) && Enabled(k, s, step) && RivalsDone(k, s, x)
    ensures var call := CallOf(k, s, step);
      call.Some? && !call.value.GetOp? && call.value.p.prio == x.prio ==> x.priority <= call.value.p.priority
  {
    hide Inv, Owned;
    InvState(k, s);
    if step.Load? {
      NotYetLoaded(k, s);
      var y := k.procs[s.loaded];
      if y in s.finished {
        FinishedLoaded(k, s, y);
      }
    } else if step.Go? && s.cpus[step.c].held.Some? {
      HeldFacts(k, s, step.c);
    }
  }

  lemma FinishedStays(k: Config, s: Sys, step: Step, y: Pcb)
    requires Enabled(k, s, step) && y in s.finished
    ensures y in Do(k, s, step).finished
  {
    hide Get, Put, Add;
  }

  lemma RivalsStayDone(k: Config, s: Sys, step: Step, x: Pcb)
    requires Enabled(k, s, step) && RivalsDone(k, s, x)
    ensures RivalsDone(k, Do(k, s, step), x)
  {
    hide Do, Enabled;
    forall y | y in k.procs && y.prio == x.prio && y.priority < x.priority
      ensures y in Do(k, s, step).finished
    {
      FinishedStays(k, s, step, y);
    }
  }

  /** Every arrival of the run, from its first step on. */
  ghost predicate NoneSmaller(ops: seq<SchedRuns.Op>, x: Pcb) {
    forall i :: 0 <= i < |ops| && !ops[i].GetOp? && ops[i].p.prio == x.prio ==> x.priority <= ops[i].p.priority
  }

  lemma {:induction false} CallsNotSmaller(k: Config, s: Sys, steps: seq<Step>, x: Pcb)
    requires k.timeSlot >= 1 && ConfigOk(k) && Inv(k, s) && CanRun(k, s, steps) && RivalsDone(k, s, x)
    ensures NoneSmaller(Calls(k, s, steps), x)
    decreases |steps|
  {
    hide ConfigOk, Inv, Enabled, Do, CallOf, RivalsDone;
    if steps != [] {
      ArrivalNotSmaller(k, s, steps[0], x);
      StepKeeps(k, s, steps[0]);
      RivalsStayDone(k, s, steps[0], x);
      CallsNotSmaller(k, Do(k, s, steps[0]), steps[1..], x);
    }
  }

  lemma WaitingNotSmaller(k: Config, s: Sys, x: Pcb)
    requires ConfigOk(k) && Inv(k, s) && RivalsDone(k, s, x) && x.prio < MAX_PRIO
    ensures StateOk(s.sched)
    ensures forall i :: 0 <= i < |s.sched.queues[x.prio]| ==> x.priority <= s.sched.queues[x.prio][i].priority
  {
    InvState(k, s);
    forall i | 0 <= i < |s.sched.queues[x.prio]|
      ensures x.priority <= s.sched.queues[x.prio][i].priority
    {
      var y := s.sched.queues[x.prio][i];
      WaitingFacts(k, s, x.prio, y);
      hide Inv, Owned;
      InQueueLevel(k, s, x.prio, y);
    }
  }

  lemma InQueueLevel(k: Config, s: Sys, p: nat, y: Pcb)
    requires Owned(k, s) && p < MAX_PRIO && y in s.sched.queues[p]
    ensures y.prio == p
  {
    hide QueueBag, HeldBag;
  }

  /**
   Once everybody that goes before it in its level has finished, a waiting process is dispatched
   within one bound of its level, plus one for every equal one ahead of it, on every interleaving.
   */
  lemma {:induction false} PriorityBound(k: Config, numCpus: nat, steps: seq<Step>, more: seq<Step>, x: Pcb, i: nat)
    requires k.timeSlot >= 1 && ConfigOk(k) && CanRun(k, Init(k, numCpus), steps) && x.prio < MAX_PRIO
    requires var s := RunAll(k, Init(k, numCpus), steps);
      && CanRun(k, s, more) && RivalsDone(k, s, x) && StateOk(s.sched)
      && i < |s.sched.queues[x.prio]| && s.sched.queues[x.prio][i] == x
    ensures var s := RunAll(k, Init(k, numCpus), steps);
      && SchedRuns.OpsOk(Calls(k, s, more))
      && (SchedRuns.Gets(Calls(k, s, more)) >= Starvation.Enough(s.sched.queues[x.prio], x.prio, i)
          ==> x in SchedRuns.Dispatches(s.sched, Calls(k, s, more)))
  {
    hide ConfigOk, CanRun, RunAll, Calls, Init, Inv, SchedRuns.OpsOk, SchedRuns.Dispatches, SchedRuns.Gets, RivalsDone;
    hide Fairness.Bound, SchedRuns.Equals;
    var s := RunAll(k, Init(k, numCpus), steps);
    InitInv(k, numCpus);
    RunKeeps(k, Init(k, numCpus), steps);
    CallsOk(k, s, more);
    CallsNotSmaller(k, s, more, x);
    WaitingNotSmaller(k, s, x);
    assert SchedRuns.Least(s.sched, Calls(k, s, more), x.prio, x.priority);
    if SchedRuns.Gets(Calls(k, s, more)) >= Starvation.Enough(s.sched.queues[x.prio], x.prio, i) {
      SchedRuns.ProcessNeverStarves(s.sched, Calls(k, s, more), x.prio, i);
    }
  }
}
