/**
 How often a process is dispatched and how long another one waits.  Every put-back follows a whole
 time slice of a program that ends, so dispatches are counted out in advance and nobody starves.
 */
module Turns {
  import opened Queue
  import opened Sched
  import opened Cpus
  import opened CpuRuns
  import opened Wrappers
  import SchedRuns

  // ----- The scheduler calls of a run -----

  /** The scheduler call that a step makes, if it makes one. */
  function CallOf(k: Config, s: Sys, step: Step): Option<SchedRuns.Op>
    requires Enabled(k, s, step)
  {
    match step
    case Load => Some(SchedRuns.AddOp(k.procs[s.loaded]))
    case LoaderDone => None
    case Go(c) =>
      var cpu := s.cpus[c];
      if (cpu.pc.Top? && cpu.held.None?) || cpu.pc.Refetch? then Some(SchedRuns.GetOp)
      else if cpu.pc.Top? && s.pcs[cpu.held.value] != cpu.held.value.codeSize && cpu.timeLeft == 0
      then Some(SchedRuns.PutOp(cpu.held.value)) else None
  }

  /** All calls of a run, in order. */
  function Calls(k: Config, s: Sys, steps: seq<Step>): seq<SchedRuns.Op>
    requires CanRun(k, s, steps)
    decreases |steps|
  {
    if steps == [] then []
    else (if CallOf(k, s, steps[0]).Some? then [CallOf(k, s, steps[0]).value] else [])
         + Calls(k, Do(k, s, steps[0]), steps[1..])
  }

  /** A step does to the scheduler what its call does, and nothing without one. */
  lemma CallMeans(k: Config, s: Sys, step: Step)
    requires Enabled(k, s, step) && StateOk(s.sched)
    ensures match CallOf(k, s, step)
      case None => Do(k, s, step).sched == s.sched
      case Some(op) => SchedRuns.OpOk(op) && Do(k, s, step).sched == SchedRuns.Step(s.sched, op)
  {
    hide Get, Put, Add;
  }

  lemma InvState(k: Config, s: Sys)
    requires Inv(k, s)
    ensures StateOk(s.sched) && Owned(k, s)
  {
  }

  lemma {:induction false} CallsOk(k: Config, s: Sys, steps: seq<Step>)
    requires k.timeSlot >= 1 && ConfigOk(k) && Inv(k, s) && CanRun(k, s, steps)
    ensures StateOk(s.sched) && SchedRuns.OpsOk(Calls(k, s, steps))
    decreases |steps|
  {
    hide Inv, ConfigOk, Do, Enabled, CallOf, SchedRuns.OpOk, SchedRuns.Step, StateOk;
    InvState(k, s);
    if steps != [] {
      CallMeans(k, s, steps[0]);
      StepKeeps(k, s, steps[0]);
      CallsOk(k, Do(k, s, steps[0]), steps[1..]);
    }
  }

  // ----- Dispatches and put-backs -----

  lemma CountCons<T>(x: T, rest: seq<T>, y: T)
    ensures multiset([x] + rest)[y] == multiset(rest)[y] + if x == y then 1 else 0
  {
  }

  /** What a step adds to the calls and the dispatches of a run. */
  lemma FirstCall(k: Config, s: Sys, steps: seq<Step>, p: Pcb)
    requires k.timeSlot >= 1 && ConfigOk(k) && Inv(k, s) && CanRun(k, s, steps) && steps != []
    ensures StateOk(s.sched) && SchedRuns.OpsOk(Calls(k, s, steps))
    ensures var s' := Do(k, s, steps[0]); var call := CallOf(k, s, steps[0]);
      && CanRun(k, s', steps[1..]) && StateOk(s'.sched) && SchedRuns.OpsOk(Calls(k, s', steps[1..]))
      && multiset(Calls(k, s, steps))[SchedRuns.PutOp(p)]
         == multiset(Calls(k, s', steps[1..]))[SchedRuns.PutOp(p)] + (if call == Some(SchedRuns.PutOp(p)) then 1 else 0)
      && SchedRuns.Gets(Calls(k, s, steps))
         == SchedRuns.Gets(Calls(k, s', steps[1..])) + (if call == Some(SchedRuns.GetOp) then 1 else 0)
      && SchedRuns.Dispatches(s.sched, Calls(k, s, steps))
         == (if call == Some(SchedRuns.GetOp) && Get(s.sched).0.Some? then [Get(s.sched).0.value] else [])
            + SchedRuns.Dispatches(s'.sched, Calls(k, s', steps[1..]))
  {
    hide Inv, ConfigOk, Do, Enabled, CallOf, SchedRuns.OpOk, SchedRuns.Step, StateOk, Get;
    CallsOk(k, s, steps);
    StepKeeps(k, s, steps[0]);
    CallMeans(k, s, steps[0]);
    var s', call := Do(k, s, steps[0]), CallOf(k, s, steps[0]);
    var rest := Calls(k, s', steps[1..]);
    CallsOk(k, s', steps[1..]);
    if call.Some? {
      assert ([call.value] + rest)[1..] == rest;
      CountCons(call.value, rest, SchedRuns.PutOp(p));
    } else {
      assert [] + rest == rest;
      assert [] + SchedRuns.Dispatches(s'.sched, rest) == SchedRuns.Dispatches(s'.sched, rest);
    }
  }

  /** The running list of a step: a dispatch enters one process, a put-back takes one out. */
  lemma RunningStep(k: Config, s: Sys, step: Step, p: Pcb)
    requires ConfigOk(k) && Inv(k, s) && Enabled(k, s, step)
    ensures multiset(Do(k, s, step).sched.running)[p] + (if CallOf(k, s, step) == Some(SchedRuns.PutOp(p)) then 1 else 0)
         == multiset(s.sched.running)[p]
            + (if CallOf(k, s, step) == Some(SchedRuns.GetOp) && Get(s.sched).0 == Some(p) then 1 else 0)
  {
    hide QueueBag, HeldBag, OwnLevels, TraceOk, FetchOk, SliceOk;
    CallMeans(k, s, step);
    hide Do;
    forall l | 0 <= l < MAX_PRIO
      ensures |s.sched.queues[l]| + |s.sched.running| <= MAX_QUEUE_SIZE
    {
      Room(k, s, l);
    }
    match CallOf(k, s, step)
    case None =>
    case Some(AddOp(_)) =>
    case Some(GetOp) =>
      EnlistedOne(s.sched, p);
    case Some(PutOp(q)) =>
      HeldFacts(k, s, step.c);
      PurgedBag(s.sched.running, q);
  }

  lemma EnlistedOne(s: State, p: Pcb)
    requires StateOk(s) && forall l :: 0 <= l < MAX_PRIO ==> |s.queues[l]| + |s.running| <= MAX_QUEUE_SIZE
    ensures multiset(Get(s).1.running)[p] == multiset(s.running)[p] + if Get(s).0 == Some(p) then 1 else 0
  {
    hide Scan, Best, Without, Busy;
    var level := Search(s.cur, Busy(s.queues)).0;
    if level.Some? {
      SchedRuns.BusyMeans(s.queues, level.value);
    }
  }

  // ----- Whole slices -----

  /** n whole time slices. */
  function Times(n: nat, timeSlot: int): int {
    n * timeSlot
  }

  lemma TimesNext(n: nat, timeSlot: int)
    ensures Times(n + 1, timeSlot) == Times(n, timeSlot) + timeSlot && Times(0, timeSlot) == 0
  {
  }

  /** What a CPU has run of its process since it got it. */
  function Used(cpu: Cpu): nat {
    if cpu.pc.Recheck? && cpu.timeLeft == 0 then 0 else cpu.ran
  }

  /** A held process is n slices and this CPU's share into its program, and unfinished until the share has been run. */
  predicate HolderOk(timeSlot: int, at: nat, cpu: Cpu, p: Pcb, n: nat) {
    && at == Times(n, timeSlot) + Used(cpu)
    && if cpu.pc.InSlot? || cpu.pc.Top? then cpu.ran >= 1 else at < p.codeSize
  }

  predicate Holds(cpus: seq<Cpu>, c: nat, p: Pcb) {
    c < |cpus| && cpus[c].held == Some(p)
  }

  /** After n put-backs: a waiting process has run n slices, a finished one has ended in the slice after. */
  ghost predicate AccountOk(timeSlot: int, at: nat, finished: bool, cpus: seq<Cpu>, p: Pcb, n: nat) {
    && (finished ==> Times(n, timeSlot) < at <= Times(n, timeSlot) + timeSlot)
    && (forall c: nat :: Holds(cpus, c, p) ==> HolderOk(timeSlot, at, cpus[c], p, n))
    && (!finished && (forall c: nat :: !Holds(cpus, c, p)) ==> at == Times(n, timeSlot) && at < p.codeSize)
  }

  ghost predicate Account(k: Config, s: Sys, p: Pcb, n: nat) {
    p in s.pcs && AccountOk(k.timeSlot, s.pcs[p], p in s.finished, s.cpus, p, n)
  }

  /** What a step of the CPU that holds p does to p. */
  lemma HolderStep(k: Config, s: Sys, c: nat, p: Pcb, n: nat)
    requires k.timeSlot >= 1 && Enabled(k, s, Go(c)) && Holds(s.cpus, c, p) && SliceOk(k.timeSlot, s.cpus[c])
    requires HolderOk(k.timeSlot, s.pcs[p], s.cpus[c], p, n) && s.pcs[p] <= p.codeSize
    requires s.cpus[c].pc.Fetched? ==> s.cpus[c].pc.at == s.pcs[p] < p.codeSize
    ensures var s' := Do(k, s, Go(c)); var put := CallOf(k, s, Go(c)) == Some(SchedRuns.PutOp(p));
      && |s'.cpus| == |s.cpus| && p in s'.pcs
      && (s'.cpus[c].held == Some(p) || s'.cpus[c].held == None)
      && (put ==> s'.cpus[c].held == None && s'.finished == s.finished
                  && s'.pcs[p] == Times(n, k.timeSlot) + k.timeSlot && s'.pcs[p] < p.codeSize)
      && (!put && s'.cpus[c].held == None ==> s'.finished == s.finished + [p]
                                              && Times(n, k.timeSlot) < s'.pcs[p] <= Times(n, k.timeSlot) + k.timeSlot)
      && (s'.cpus[c].held == Some(p) ==> !put && s'.finished == s.finished
                                         && HolderOk(k.timeSlot, s'.pcs[p], s'.cpus[c], p, n))
  {
    hide Get, Put, Add, Times;
  }

  /** A step of a CPU that does not hold p: it may take p out of a queue, and otherwise it leaves p alone. */
  lemma OtherStep(k: Config, s: Sys, c: nat, p: Pcb)
    requires Enabled(k, s, Go(c)) && !Holds(s.cpus, c, p) && SliceOk(k.timeSlot, s.cpus[c]) && p in s.pcs
    ensures var s' := Do(k, s, Go(c));
      && |s'.cpus| == |s.cpus| && p in s'.pcs && s'.pcs[p] == s.pcs[p]
      && (p in s'.finished <==> p in s.finished)
      && CallOf(k, s, Go(c)) != Some(SchedRuns.PutOp(p))
      && (s'.cpus[c].held == Some(p) ==> s'.cpus[c].pc == Recheck && s'.cpus[c].timeLeft == 0)
  {
    hide Get, Put, Add;
  }

  /** Only CPU c changes. */
  ghost predicate OnlyAt(cpus: seq<Cpu>, cpus': seq<Cpu>, c: nat) {
    c < |cpus| == |cpus'| && forall d :: 0 <= d < |cpus| && d != c ==> cpus'[d] == cpus[d]
  }

  lemma OtherCpus(k: Config, s: Sys, c: nat)
    requires Enabled(k, s, Go(c))
    ensures OnlyAt(s.cpus, Do(k, s, Go(c)).cpus, c)
  {
    hide Get, Put, Add;
  }

  /** Nobody but CPU c holds p. */
  ghost predicate OnlyHolder(cpus: seq<Cpu>, c: nat, p: Pcb) {
    forall d: nat :: Holds(cpus, d, p) ==> d == c
  }

  lemma Alone(k: Config, s: Sys, c: nat, p: Pcb)
    requires ConfigOk(k) && Owned(k, s) && Holds(s.cpus, c, p)
    ensures p !in s.finished && OnlyHolder(s.cpus, c, p)
  {
    hide Owned, ConfigOk;
    HeldFacts(k, s, c);
    forall d: nat | Holds(s.cpus, d, p) && d != c
      ensures false
    {
      HoldersDiffer(k, s, c, d);
    }
  }

  lemma InvCpu(k: Config, s: Sys, c: nat, p: Pcb)
    requires Inv(k, s) && c < |s.cpus|
    ensures SliceOk(k.timeSlot, s.cpus[c])
    ensures p in s.pcs ==> s.pcs[p] <= p.codeSize
    ensures s.cpus[c].pc.Fetched? && Holds(s.cpus, c, p) ==> p in s.pcs && s.cpus[c].pc.at == s.pcs[p] < p.codeSize
  {
    hide Owned, SliceOk;
  }

  /** The holder moves on, gives p back, or is done with it. */
  lemma HolderKeeps(timeSlot: int, cpus: seq<Cpu>, cpus': seq<Cpu>, c: nat, at: nat, finished: bool, p: Pcb, n: nat)
    requires OnlyAt(cpus, cpus', c) && OnlyHolder(cpus, c, p)
    requires cpus'[c].held == Some(p) ==> HolderOk(timeSlot, at, cpus'[c], p, n) && !finished
    requires cpus'[c].held != Some(p) ==>
      if finished then Times(n, timeSlot) < at <= Times(n, timeSlot) + timeSlot else at == Times(n, timeSlot) && at < p.codeSize
    ensures AccountOk(timeSlot, at, finished, cpus', p, n)
  {
    hide HolderOk, Times;
    assert forall d: nat :: Holds(cpus', d, p) ==> d == c || Holds(cpus, d, p);
    if cpus'[c].held == Some(p) {
      assert Holds(cpus', c, p);
    }
  }

  lemma HolderAccount(k: Config, s: Sys, c: nat, p: Pcb, n: nat)
    requires k.timeSlot >= 1 && ConfigOk(k) && Inv(k, s) && Enabled(k, s, Go(c)) && Account(k, s, p, n) && Holds(s.cpus, c, p)
    ensures Account(k, Do(k, s, Go(c)), p, n + if CallOf(k, s, Go(c)) == Some(SchedRuns.PutOp(p)) then 1 else 0)
  {
    InvState(k, s);
    InvCpu(k, s, c, p);
    hide Inv, Owned, SliceOk, HolderOk, Do, CallOf, Enabled, ConfigOk, Times, OnlyAt, OnlyHolder;
    Alone(k, s, c, p);
    HolderStep(k, s, c, p, n);
    TimesNext(n, k.timeSlot);
    OtherCpus(k, s, c);
    var s' := Do(k, s, Go(c));
    var m := n + if CallOf(k, s, Go(c)) == Some(SchedRuns.PutOp(p)) then 1 else 0;
    HolderKeeps(k.timeSlot, s.cpus, s'.cpus, c, s'.pcs[p], p in s'.finished, p, m);
  }

  /** Somebody else moves, or a CPU takes p out of its queue. */
  lemma OtherKeeps(timeSlot: int, cpus: seq<Cpu>, cpus': seq<Cpu>, c: nat, at: nat, finished: bool, p: Pcb, n: nat)
    requires AccountOk(timeSlot, at, finished, cpus, p, n) && OnlyAt(cpus, cpus', c) && !Holds(cpus, c, p)
    requires Holds(cpus', c, p) ==> !finished && OnlyHolder(cpus', c, p) && cpus'[c].pc == Recheck && cpus'[c].timeLeft == 0
    ensures AccountOk(timeSlot, at, finished, cpus', p, n)
  {
    hide Times;
    assert forall d: nat :: d != c ==> (Holds(cpus, d, p) <==> Holds(cpus', d, p));
  }

  lemma OtherAccount(k: Config, s: Sys, c: nat, p: Pcb, n: nat)
    requires k.timeSlot >= 1 && ConfigOk(k) && Inv(k, s) && Enabled(k, s, Go(c)) && Account(k, s, p, n) && !Holds(s.cpus, c, p)
    ensures Account(k, Do(k, s, Go(c)), p, n) && CallOf(k, s, Go(c)) != Some(SchedRuns.PutOp(p))
  {
    InvCpu(k, s, c, p);
    hide Inv, Owned, SliceOk, Do, CallOf, Enabled, ConfigOk, AccountOk, OnlyAt, OnlyHolder;
    StepKeeps(k, s, Go(c));
    var s' := Do(k, s, Go(c));
    InvState(k, s');
    OtherStep(k, s, c, p);
    OtherCpus(k, s, c);
    if Holds(s'.cpus, c, p) {
      Alone(k, s', c, p);
    }
    OtherKeeps(k.timeSlot, s.cpus, s'.cpus, c, s.pcs[p], p in s.finished, p, n);
  }

  lemma StepAccount(k: Config, s: Sys, step: Step, p: Pcb, n: nat)
    requires k.timeSlot >= 1 && ConfigOk(k) && Inv(k, s) && Enabled(k, s, step) && Account(k, s, p, n)
    ensures Account(k, Do(k, s, step), p, n + if CallOf(k, s, step) == Some(SchedRuns.PutOp(p)) then 1 else 0)
  {
    hide Inv, ConfigOk, AccountOk, Get, Add, Put;
    if step.Go? {
      hide Account, Do, CallOf, Enabled;
      if Holds(s.cpus, step.c, p) {
        HolderAccount(k, s, step.c, p, n);
      } else {
        OtherAccount(k, s, step.c, p, n);
      }
    }
  }

  lemma RunFirst(k: Config, s: Sys, steps: seq<Step>)
    requires CanRun(k, s, steps) && steps != []
    ensures Enabled(k, s, steps[0]) && CanRun(k, Do(k, s, steps[0]), steps[1..])
    ensures RunAll(k, s, steps) == RunAll(k, Do(k, s, steps[0]), steps[1..])
  {
    hide Enabled, Do;
  }

  lemma NoSteps(k: Config, s: Sys)
    requires StateOk(s.sched)
    ensures CanRun(k, s, []) && RunAll(k, s, []) == s && Calls(k, s, []) == []
    ensures SchedRuns.OpsOk([]) && SchedRuns.Dispatches(s.sched, []) == [] && SchedRuns.Gets([]) == 0
  {
  }

  /** How often p is put back in a run. */
  function PutBacks(k: Config, s: Sys, steps: seq<Step>, p: Pcb): nat
    requires CanRun(k, s, steps)
  {
    multiset(Calls(k, s, steps))[SchedRuns.PutOp(p)]
  }

  function PutBack(k: Config, s: Sys, step: Step, p: Pcb): nat
    requires Enabled(k, s, step)
  {
    if CallOf(k, s, step) == Some(SchedRuns.PutOp(p)) then 1 else 0
  }

  lemma PutBacksFirst(k: Config, s: Sys, steps: seq<Step>, p: Pcb)
    requires k.timeSlot >= 1 && ConfigOk(k) && Inv(k, s) && CanRun(k, s, steps) && steps != []
    ensures Enabled(k, s, steps[0]) && CanRun(k, Do(k, s, steps[0]), steps[1..])
    ensures PutBacks(k, s, steps, p) == PutBack(k, s, steps[0], p) + PutBacks(k, Do(k, s, steps[0]), steps[1..], p)
  {
    hide CanRun, Inv, ConfigOk, Calls, Enabled, Do, CallOf;
    RunFirst(k, s, steps);
    FirstCall(k, s, steps, p);
  }

  lemma PutBackOnce(k: Config, s: Sys, step: Step, p: Pcb, n: nat)
    requires k.timeSlot >= 1 && ConfigOk(k) && Inv(k, s) && Enabled(k, s, step) && Account(k, s, p, n)
    ensures Account(k, Do(k, s, step), p, n + PutBack(k, s, step, p))
  {
    hide Inv, ConfigOk, Enabled, Account, Do, CallOf;
    StepAccount(k, s, step, p, n);
  }

  /** The account over any run: one slice more for every put-back. */
  lemma {:induction false} RunAccount(k: Config, s: Sys, steps: seq<Step>, p: Pcb, n: nat)
    requires k.timeSlot >= 1 && ConfigOk(k) && Inv(k, s) && CanRun(k, s, steps) && Account(k, s, p, n)
    ensures Account(k, RunAll(k, s, steps), p, n + PutBacks(k, s, steps, p))
    decreases |steps|
  {
    hide *;
    InvState(k, s);
    if steps == [] {
      NoSteps(k, s);
      NoPutBacks(k, s, p);
    } else {
      RunFirst(k, s, steps);
      PutBacksFirst(k, s, steps, p);
      StepKeeps(k, s, steps[0]);
      PutBackOnce(k, s, steps[0], p, n);
      RunAccount(k, Do(k, s, steps[0]), steps[1..], p, n + PutBack(k, s, steps[0], p));
    }
  }

  lemma NoPutBacks(k: Config, s: Sys, p: Pcb)
    ensures CanRun(k, s, []) && PutBacks(k, s, [], p) == 0
  {
  }

  /** The running list over any run: dispatches enter it, put-backs leave it. */
  lemma {:induction false} RunRunning(k: Config, s: Sys, steps: seq<Step>, p: Pcb)
    requires k.timeSlot >= 1 && ConfigOk(k) && Inv(k, s) && CanRun(k, s, steps)
    ensures StateOk(s.sched) && SchedRuns.OpsOk(Calls(k, s, steps))
    ensures multiset(RunAll(k, s, steps).sched.running)[p] + multiset(Calls(k, s, steps))[SchedRuns.PutOp(p)]
         == multiset(s.sched.running)[p] + multiset(SchedRuns.Dispatches(s.sched, Calls(k, s, steps)))[p]
    decreases |steps|
  {
    InvState(k, s);
    hide *;
    CallsOk(k, s, steps);
    if steps == [] {
      NoSteps(k, s);
    } else {
      RunFirst(k, s, steps);
      FirstCall(k, s, steps, p);
      StepKeeps(k, s, steps[0]);
      RunningStep(k, s, steps[0], p);
      var s' := Do(k, s, steps[0]);
      RunRunning(k, s', steps[1..], p);
      var rest := SchedRuns.Dispatches(s'.sched, Calls(k, s', steps[1..]));
      if CallOf(k, s, steps[0]) == Some(SchedRuns.GetOp) && Get(s.sched).0.Some? {
        CountCons(Get(s.sched).0.value, rest, p);
      } else {
        assert [] + rest == rest;
      }
    }
  }

  // ----- The count for every process -----

  /** The dispatches that a program takes: one for every slice it begins, and one even if it is empty. */
  function TurnsOf(codeSize: nat, timeSlot: int): nat
    requires timeSlot >= 1
  {
    if codeSize == 0 then 1 else (codeSize - 1) / timeSlot + 1
  }

  lemma InitAccount(k: Config, numCpus: nat, p: Pcb)
    requires p in k.procs && p.codeSize >= 1
    ensures Account(k, Init(k, numCpus), p, 0)
  {
    TimesNext(0, k.timeSlot);
    hide Times;
  }

  /** What the account says of one moment. */
  lemma AccountBound(k: Config, s: Sys, p: Pcb, n: nat)
    requires Inv(k, s) && Account(k, s, p, n)
    ensures Times(n, k.timeSlot) < p.codeSize
    ensures p in s.finished ==> p.codeSize <= Times(n, k.timeSlot) + k.timeSlot
  {
    hide Owned, FetchOk, SliceOk, Times;
    if p !in s.finished && (exists c: nat :: Holds(s.cpus, c, p)) {
      var c: nat :| Holds(s.cpus, c, p);
      assert HolderOk(k.timeSlot, s.pcs[p], s.cpus[c], p, n);
    }
  }

  /** An empty program is never put back. */
  lemma {:induction false} EmptyNeverBack(k: Config, s: Sys, steps: seq<Step>, p: Pcb)
    requires k.timeSlot >= 1 && ConfigOk(k) && Inv(k, s) && CanRun(k, s, steps) && p.codeSize == 0
    ensures PutBacks(k, s, steps, p) == 0
    decreases |steps|
  {
    hide *;
    if steps == [] {
      NoPutBacks(k, s, p);
    } else {
      PutBacksFirst(k, s, steps, p);
      StepKeeps(k, s, steps[0]);
      EmptyStays(k, s, steps[0], p);
      EmptyNeverBack(k, Do(k, s, steps[0]), steps[1..], p);
    }
  }

  lemma EmptyStays(k: Config, s: Sys, step: Step, p: Pcb)
    requires Inv(k, s) && Enabled(k, s, step) && p.codeSize == 0
    ensures PutBack(k, s, step, p) == 0
  {
    hide Owned, FetchOk, SliceOk;
  }

  lemma {:induction false} MoreSlices(a: nat, b: nat, timeSlot: int)
    requires timeSlot >= 1
    ensures a < b ==> Times(b, timeSlot) >= Times(a, timeSlot) + timeSlot
  {
    if a < b {
      TimesNext(b - 1, timeSlot);
      MoreSlices(a, b - 1, timeSlot);
      hide Times;
    }
  }

  lemma SlicesFit(n: nat, codeSize: nat, timeSlot: int)
    requires timeSlot >= 1 && Times(n, timeSlot) < codeSize
    ensures n + 1 <= TurnsOf(codeSize, timeSlot)
    ensures codeSize <= Times(n, timeSlot) + timeSlot ==> n + 1 == TurnsOf(codeSize, timeSlot)
  {
    var q, r := (codeSize - 1) / timeSlot, (codeSize - 1) % timeSlot;
    assert codeSize - 1 == q * timeSlot + r;
    MoreSlices(q, n, timeSlot);
    MoreSlices(n, q, timeSlot);
  }

  /**
   However the CPUs interleave, a process is put back fewer times than its program has slices, and
   once it is finished exactly one time fewer than the slices it has begun.
   */
  lemma {:induction false} PutBackBound(k: Config, numCpus: nat, steps: seq<Step>, p: Pcb)
    requires k.timeSlot >= 1 && ConfigOk(k) && CanRun(k, Init(k, numCpus), steps) && p in k.procs
    ensures PutBacks(k, Init(k, numCpus), steps, p) + 1 <= TurnsOf(p.codeSize, k.timeSlot)
    ensures p in RunAll(k, Init(k, numCpus), steps).finished
            ==> PutBacks(k, Init(k, numCpus), steps, p) + 1 == TurnsOf(p.codeSize, k.timeSlot)
  {
    hide ConfigOk, CanRun, RunAll, PutBacks, Init, Inv, Account, Times;
    InitInv(k, numCpus);
    if p.codeSize == 0 {
      EmptyNeverBack(k, Init(k, numCpus), steps, p);
    } else {
      InitAccount(k, numCpus, p);
      RunKeeps(k, Init(k, numCpus), steps);
      RunAccount(k, Init(k, numCpus), steps, p, 0);
      var n := PutBacks(k, Init(k, numCpus), steps, p);
      AccountBound(k, RunAll(k, Init(k, numCpus), steps), p, n);
      SlicesFit(n, p.codeSize, k.timeSlot);
    }
  }

  /** The running list has a process at most once, and a finished one exactly once. */
  lemma RunningOnce(k: Config, s: Sys, p: Pcb)
    requires ConfigOk(k) && Inv(k, s)
    ensures multiset(s.sched.running)[p] <= 1
    ensures p in s.finished ==> multiset(s.sched.running)[p] == 1
  {
    hide QueueBag, HeldBag, OwnLevels, TraceOk, FetchOk, SliceOk;
    RunningListExact(k, s, p);
    OnceEach(s.sched.running, p);
    if p in s.finished {
      assert p in multiset(s.finished) && p in multiset(s.sched.running);
    }
  }

  function Dispatched(k: Config, s: Sys, steps: seq<Step>, p: Pcb): nat
    requires CanRun(k, s, steps) && StateOk(s.sched) && SchedRuns.OpsOk(Calls(k, s, steps))
  {
    multiset(SchedRuns.Dispatches(s.sched, Calls(k, s, steps)))[p]
  }

  /**
   The dispatches of every process, over any interleaving from the start: never more than the slices
   its program begins, and exactly that many when it is finished.
   */
  lemma {:induction false} DispatchCount(k: Config, numCpus: nat, steps: seq<Step>, p: Pcb)
    requires k.timeSlot >= 1 && ConfigOk(k) && CanRun(k, Init(k, numCpus), steps) && p in k.procs
    ensures StateOk(Init(k, numCpus).sched) && SchedRuns.OpsOk(Calls(k, Init(k, numCpus), steps))
    ensures Dispatched(k, Init(k, numCpus), steps, p) <= TurnsOf(p.codeSize, k.timeSlot)
    ensures p in RunAll(k, Init(k, numCpus), steps).finished
            ==> Dispatched(k, Init(k, numCpus), steps, p) == TurnsOf(p.codeSize, k.timeSlot)
  {
    assert Init(k, numCpus).sched.running == [];
    hide ConfigOk, CanRun, RunAll, Calls, Init, Inv, StateOk, SchedRuns.OpsOk, SchedRuns.Dispatches, TurnsOf;
    var s := Init(k, numCpus);
    InitInv(k, numCpus);
    RunKeeps(k, s, steps);
    RunRunning(k, s, steps, p);
    PutBackBound(k, numCpus, steps, p);
    RunningOnce(k, RunAll(k, s, steps), p);
  }
}
