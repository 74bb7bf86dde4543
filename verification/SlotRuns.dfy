/**
 The CPUs among the threads of the slot barrier: each is a device, calls next_slot where cpu_routine
 does, and the timer and all other devices take their own steps in between.
 */
module SlotRuns {
  import opened Queue
  import opened Cpus
  import Timer
  import LoaderRuns

  /** The barrier, the scheduler with its CPUs, and for each CPU the times at which it executed an instruction. */
  datatype Joint = Joint(t: Timer.State, os: Sys, ran: seq<seq<nat>>)

  /** Device c belongs to CPU c; the loader and whoever else attached have the devices behind. */
  datatype JointStep = OnCpu(c: nat) | ByLoader(step: Step) | ByOther(other: Timer.Step)

  predicate AtWork(t: Timer.State, c: nat) {
    c < |t.devs| && t.devs[c].pc.Work?
  }

  /** The barrier does not decide when a CPU calls next_slot or detaches. */
  predicate NotCpus(step: Timer.Step, numCpus: nat) {
    !((step.CallNextSlot? || step.Detach?) && step.i < numCpus)
  }

  predicate JointEnabled(k: Config, j: Joint, step: JointStep) {
    match step
    case OnCpu(c) => Enabled(k, j.os, Go(c)) && AtWork(j.t, c) && c < |j.ran|
    case ByLoader(step) => !step.Go? && Enabled(k, j.os, step)
    case ByOther(step) => Timer.Enabled(j.t, step) && NotCpus(step, |j.os.cpus|)
  }

  /** Whether this step of CPU c executes an instruction. */
  predicate Executes(os: Sys, c: nat) {
    c < |os.cpus| && os.cpus[c].pc.Fetched? && os.cpus[c].held.Some?
  }

  /** A CPU that gets to next_slot calls it, and one that stops detaches; otherwise its device stays at work. */
  function DeviceAfter(t: Timer.State, before: CpuPc, after: CpuPc, c: nat): Timer.State
    requires AtWork(t, c)
  {
    if after.InSlot? && !before.InSlot? then Timer.Do(t, Timer.CallNextSlot(c))
    else if after.Exited? && !before.Exited? then Timer.Do(t, Timer.Detach(c))
    else t
  }

  lemma SameCpus(k: Config, os: Sys, step: Step)
    requires Enabled(k, os, step)
    ensures |Do(k, os, step).cpus| == |os.cpus|
  {
    hide Sched.Get, Sched.Put, Sched.Add;
  }

  function JointDo(k: Config, j: Joint, step: JointStep): Joint
    requires JointEnabled(k, j, step)
  {
    match step
    case OnCpu(c) =>
      SameCpus(k, j.os, Go(c));
      var os := Do(k, j.os, Go(c));
      Joint(DeviceAfter(j.t, j.os.cpus[c].pc, os.cpus[c].pc, c), os,
            if Executes(j.os, c) then j.ran[c := j.ran[c] + [j.t.time]] else j.ran)
    case ByLoader(step) => j.(os := Do(k, j.os, step))
    case ByOther(step) => j.(t := Timer.Do(j.t, step))
  }

  function Start(k: Config, numCpus: nat, others: nat): Joint {
    Joint(Timer.Init(numCpus + others), Init(k, numCpus), seq(numCpus, _ => []))
  }

  predicate CanRun(k: Config, j: Joint, steps: seq<JointStep>)
    decreases |steps|
  {
    steps != [] ==> JointEnabled(k, j, steps[0]) && CanRun(k, JointDo(k, j, steps[0]), steps[1..])
  }

  function RunAll(k: Config, j: Joint, steps: seq<JointStep>): Joint
    requires CanRun(k, j, steps)
    decreases |steps|
  {
    if steps == [] then j else RunAll(k, JointDo(k, j, steps[0]), steps[1..])
  }

  // ----- The invariant -----

  predicate Increasing(times: seq<nat>) {
    forall a, b :: 0 <= a < b < |times| ==> times[a] < times[b]
  }

  /** Every instruction of this CPU lies in a slot that its device has left, one to a slot. */
  predicate CpuOk(cpu: Cpus.Cpu, dev: Timer.Dev, times: seq<nat>) {
    && Increasing(times)
    && (cpu.pc.Exited? <==> LoaderRuns.Leaves(dev.pc))
    && (!cpu.pc.InSlot? && !cpu.pc.Exited? ==> dev.pc.Work?)
    && (forall a :: 0 <= a < |times| ==> times[a] < LoaderRuns.NextWork(dev))
  }

  /** All instructions executed, process by process and CPU by CPU. */
  function SumPcs(procs: seq<Pcb>, pcs: map<Pcb, nat>): nat {
    if procs == [] then 0 else (if procs[0] in pcs then pcs[procs[0]] else 0) + SumPcs(procs[1..], pcs)
  }

  function SumRan(ran: seq<seq<nat>>): nat {
    if ran == [] then 0 else |ran[0]| + SumRan(ran[1..])
  }

  ghost predicate CpusOk(cpus: seq<Cpus.Cpu>, devs: seq<Timer.Dev>, ran: seq<seq<nat>>) {
    |ran| == |cpus| <= |devs| && forall c :: 0 <= c < |ran| ==> CpuOk(cpus[c], devs[c], ran[c])
  }

  ghost predicate JointInv(k: Config, j: Joint) {
    && Inv(k, j.os) && Timer.Inv(j.t) && CpusOk(j.os.cpus, j.t.devs, j.ran)
    && SumPcs(k.procs, j.os.pcs) == SumRan(j.ran)
  }

  lemma {:induction false} SumPcsSame(procs: seq<Pcb>, pcs: map<Pcb, nat>, p: Pcb, n: nat)
    requires p !in procs
    ensures SumPcs(procs, pcs[p := n]) == SumPcs(procs, pcs)
  {
    if procs != [] { SumPcsSame(procs[1..], pcs, p, n); }
  }

  lemma {:induction false} SumPcsNext(procs: seq<Pcb>, pcs: map<Pcb, nat>, p: Pcb)
    requires p in procs && p in pcs && forall a, b :: 0 <= a < b < |procs| ==> procs[a] != procs[b]
    ensures SumPcs(procs, pcs[p := pcs[p] + 1]) == SumPcs(procs, pcs) + 1
  {
    if procs[0] == p {
      SumPcsSame(procs[1..], pcs, p, pcs[p] + 1);
    } else {
      SumPcsNext(procs[1..], pcs, p);
    }
  }

  lemma {:induction false} SumRanNext(ran: seq<seq<nat>>, c: nat, time: nat)
    requires c < |ran|
    ensures SumRan(ran[c := ran[c] + [time]]) == SumRan(ran) + 1
  {
    if c == 0 {
      assert ran[c := ran[c] + [time]][1..] == ran[1..];
    } else {
      assert ran[c := ran[c] + [time]][1..] == ran[1..][c - 1 := ran[1..][c - 1] + [time]];
      SumRanNext(ran[1..], c - 1, time);
    }
  }

  lemma {:induction false} NoPcs(procs: seq<Pcb>, pcs: map<Pcb, nat>)
    requires forall p :: p in pcs ==> pcs[p] == 0
    ensures SumPcs(procs, pcs) == 0
  {
    if procs != [] { NoPcs(procs[1..], pcs); }
  }

  lemma {:induction false} NoRuns(ran: seq<seq<nat>>)
    requires forall c :: 0 <= c < |ran| ==> ran[c] == []
    ensures SumRan(ran) == 0
  {
    if ran != [] { NoRuns(ran[1..]); }
  }

  lemma StartInv(k: Config, numCpus: nat, others: nat)
    requires k.timeSlot >= 1
    ensures JointInv(k, Start(k, numCpus, others))
  {
    InitInv(k, numCpus);
    Timer.InitInv(numCpus + others);
    NoPcs(k.procs, Init(k, numCpus).pcs);
    NoRuns(Start(k, numCpus, others).ran);
    hide Inv, Timer.Inv;
  }

  // ----- Steps of a CPU -----

  /** How a CPU's step goes on: only the loop's own places follow each other. */
  lemma CpuMoves(k: Config, os: Sys, c: nat)
    requires k.timeSlot >= 1 && Enabled(k, os, Go(c)) && SliceOk(k.timeSlot, os.cpus[c])
    ensures var os' := Do(k, os, Go(c));
      && |os'.cpus| == |os.cpus| && (forall d :: 0 <= d < |os.cpus| && d != c ==> os'.cpus[d] == os.cpus[d])
      && (Executes(os, c) ==> os.cpus[c].pc.Fetched? && os'.cpus[c].pc.InSlot?)
      && (os.cpus[c].pc.InSlot? ==> os'.cpus[c].pc.Top?)
  {
    hide Sched.Get, Sched.Put, Sched.Add;
  }

  /** The counters a step moves: that of the instruction executed, if there is one. */
  lemma PcsMove(k: Config, os: Sys, step: Step)
    requires ConfigOk(k) && Inv(k, os) && Enabled(k, os, step)
    ensures Do(k, os, step).pcs
         == if step.Go? && Executes(os, step.c) then os.pcs[os.cpus[step.c].held.value := os.pcs[os.cpus[step.c].held.value] + 1]
            else os.pcs
    ensures step.Go? && Executes(os, step.c) ==> os.cpus[step.c].held.value in k.procs && os.cpus[step.c].held.value in os.pcs
  {
    if step.Go? {
      OneCpu(k, os, step.c);
      if Executes(os, step.c) {
        HeldFacts(k, os, step.c);
      }
    }
    hide Owned, TraceOk, SliceOk, GoCpu, ConfigOk, Sched.Add;
  }

  lemma CallLeaves(t: Timer.State, c: nat)
    requires AtWork(t, c)
    ensures Timer.Enabled(t, Timer.CallNextSlot(c)) && Timer.Enabled(t, Timer.Detach(c))
    ensures var a, b := Timer.Do(t, Timer.CallNextSlot(c)), Timer.Do(t, Timer.Detach(c));
      && |a.devs| == |b.devs| == |t.devs|
      && (forall d :: 0 <= d < |t.devs| && d != c ==> a.devs[d] == b.devs[d] == t.devs[d])
      && LoaderRuns.NextWork(a.devs[c]) == t.devs[c].slot + 1 && !LoaderRuns.Leaves(a.devs[c].pc)
      && LoaderRuns.NextWork(b.devs[c]) == t.devs[c].slot + 1 && LoaderRuns.Leaves(b.devs[c].pc)
  {
  }

  lemma DeviceKeeps(t: Timer.State, before: CpuPc, after: CpuPc, c: nat)
    requires Timer.Inv(t) && AtWork(t, c)
    ensures var t' := DeviceAfter(t, before, after, c);
      && Timer.Inv(t') && |t'.devs| == |t.devs| && (forall d :: 0 <= d < |t.devs| && d != c ==> t'.devs[d] == t.devs[d])
  {
    hide Timer.Inv, Timer.Do, Timer.Enabled;
    CallLeaves(t, c);
    Timer.StepKeeps(t, Timer.CallNextSlot(c));
    Timer.StepKeeps(t, Timer.Detach(c));
  }

  lemma Appended(times: seq<nat>, time: nat)
    requires Increasing(times) && forall a :: 0 <= a < |times| ==> times[a] < time
    ensures Increasing(times + [time])
  {
  }

  /** The CPU that moves: an instruction gets its slot, and with it the device leaves the slot. */
  lemma MovedOk(t: Timer.State, before: Cpus.Cpu, after: Cpus.Cpu, c: nat, times: seq<nat>, executes: bool)
    requires Timer.Inv(t) && AtWork(t, c) && CpuOk(before, t.devs[c], times)
    requires executes ==> after.pc.InSlot? && !before.pc.InSlot?
    requires before.pc.InSlot? ==> after.pc.Top?
    ensures var t' := DeviceAfter(t, before.pc, after.pc, c);
      c < |t'.devs| && CpuOk(after, t'.devs[c], if executes then times + [t.time] else times)
  {
    LoaderRuns.ClockAt(t, c);
    hide Timer.Inv, Timer.Do, Timer.Enabled, Increasing;
    CallLeaves(t, c);
    if executes {
      Appended(times, t.time);
    }
  }

  lemma CpuStepMeans(k: Config, j: Joint, c: nat)
    requires JointEnabled(k, j, OnCpu(c))
    ensures var j' := JointDo(k, j, OnCpu(c)); var os' := Do(k, j.os, Go(c));
      && j'.os == os' && c < |os'.cpus| == |j.os.cpus|
      && j'.t == DeviceAfter(j.t, j.os.cpus[c].pc, os'.cpus[c].pc, c)
      && j'.ran == j.ran[c := if Executes(j.os, c) then j.ran[c] + [j.t.time] else j.ran[c]]
  {
    hide Do, DeviceAfter, Executes;
    SameCpus(k, j.os, Go(c));
    assert j.ran[c := j.ran[c]] == j.ran;
  }

  lemma CpusKeep(k: Config, j: Joint, c: nat)
    requires k.timeSlot >= 1 && JointInv(k, j) && JointEnabled(k, j, OnCpu(c))
    ensures var j' := JointDo(k, j, OnCpu(c)); Timer.Inv(j'.t) && CpusOk(j'.os.cpus, j'.t.devs, j'.ran)
  {
    assert SliceOk(k.timeSlot, j.os.cpus[c]);
    hide Inv, Timer.Inv, CpuOk, SumPcs, SumRan, Do, DeviceAfter, Enabled, SliceOk, JointDo, Executes;
    CpuStepMeans(k, j, c);
    CpuMoves(k, j.os, c);
    var os' := Do(k, j.os, Go(c));
    DeviceKeeps(j.t, j.os.cpus[c].pc, os'.cpus[c].pc, c);
    MovedOk(j.t, j.os.cpus[c], os'.cpus[c], c, j.ran[c], Executes(j.os, c));
  }

  lemma SumsKeep(k: Config, j: Joint, c: nat)
    requires ConfigOk(k) && JointInv(k, j) && JointEnabled(k, j, OnCpu(c))
    ensures var j' := JointDo(k, j, OnCpu(c)); SumPcs(k.procs, j'.os.pcs) == SumRan(j'.ran)
  {
    assert forall a, b :: 0 <= a < b < |k.procs| ==> k.procs[a] != k.procs[b];
    hide Inv, Timer.Inv, CpusOk, SumPcs, SumRan, Do, DeviceAfter, Enabled, ConfigOk;
    PcsMove(k, j.os, Go(c));
    if Executes(j.os, c) {
      SumPcsNext(k.procs, j.os.pcs, j.os.cpus[c].held.value);
      SumRanNext(j.ran, c, j.t.time);
    }
  }

  lemma CpuKeeps(k: Config, j: Joint, c: nat)
    requires k.timeSlot >= 1 && ConfigOk(k) && JointInv(k, j) && JointEnabled(k, j, OnCpu(c))
    ensures JointInv(k, JointDo(k, j, OnCpu(c)))
  {
    hide Inv, Timer.Inv, CpusOk, SumPcs, SumRan, Do, DeviceAfter, Enabled, ConfigOk;
    CpusKeep(k, j, c);
    SumsKeep(k, j, c);
    StepKeeps(k, j.os, Go(c));
  }

  // ----- Everybody else's steps -----

  lemma LoadMoves(k: Config, os: Sys, step: Step)
    requires !step.Go? && Enabled(k, os, step)
    ensures Do(k, os, step).cpus == os.cpus && Do(k, os, step).pcs == os.pcs
  {
  }

  lemma LoaderKeeps(k: Config, j: Joint, step: Step)
    requires k.timeSlot >= 1 && ConfigOk(k) && JointInv(k, j) && JointEnabled(k, j, ByLoader(step))
    ensures JointInv(k, JointDo(k, j, ByLoader(step)))
  {
    hide Inv, Timer.Inv, CpusOk, SumPcs, SumRan, ConfigOk, Do, Enabled;
    LoadMoves(k, j.os, step);
    StepKeeps(k, j.os, step);
  }

  lemma SameDevices(t: Timer.State, step: Timer.Step)
    requires Timer.Enabled(t, step)
    ensures |Timer.Do(t, step).devs| == |t.devs|
  {
  }

  lemma QuietOk(cpu: Cpus.Cpu, dev: Timer.Dev, dev': Timer.Dev, times: seq<nat>)
    requires CpuOk(cpu, dev, times) && (LoaderRuns.Leaves(dev.pc) <==> LoaderRuns.Leaves(dev'.pc))
    requires dev.pc.Work? ==> dev'.pc.Work? && dev'.slot == dev.slot
    requires LoaderRuns.NextWork(dev') >= LoaderRuns.NextWork(dev)
    ensures CpuOk(cpu, dev', times)
  {
    hide Increasing;
  }

  lemma OtherKeeps(k: Config, j: Joint, step: Timer.Step)
    requires JointInv(k, j) && JointEnabled(k, j, ByOther(step))
    ensures JointInv(k, JointDo(k, j, ByOther(step)))
  {
    hide Inv, Timer.Inv, SumPcs, SumRan, Timer.Do, Timer.Enabled, CpuOk, LoaderRuns.NextWork, LoaderRuns.Leaves;
    SameDevices(j.t, step);
    Timer.StepKeeps(j.t, step);
    forall c | 0 <= c < |j.ran|
      ensures CpuOk(j.os.cpus[c], Timer.Do(j.t, step).devs[c], j.ran[c])
    {
      LoaderRuns.DeviceMoves(j.t, step, c);
      QuietOk(j.os.cpus[c], j.t.devs[c], Timer.Do(j.t, step).devs[c], j.ran[c]);
    }
  }

  lemma {:induction false} JointKeeps(k: Config, j: Joint, step: JointStep)
    requires k.timeSlot >= 1 && ConfigOk(k) && JointInv(k, j) && JointEnabled(k, j, step)
    ensures JointInv(k, JointDo(k, j, step))
  {
    hide JointInv, ConfigOk, JointDo, JointEnabled;
    match step
    case OnCpu(c) => CpuKeeps(k, j, c);
    case ByLoader(step) => LoaderKeeps(k, j, step);
    case ByOther(step) => OtherKeeps(k, j, step);
  }

  lemma {:induction false} RunKeeps(k: Config, j: Joint, steps: seq<JointStep>)
    requires k.timeSlot >= 1 && ConfigOk(k) && JointInv(k, j) && CanRun(k, j, steps)
    ensures JointInv(k, RunAll(k, j, steps))
    decreases |steps|
  {
    hide JointInv, ConfigOk, JointDo, JointEnabled;
    if steps != [] {
      JointKeeps(k, j, steps[0]);
      RunKeeps(k, JointDo(k, j, steps[0]), steps[1..]);
    }
  }

  // ----- What every interleaving does -----

  /**
   One instruction per CPU and slot: in every interleaving of the CPUs, the loader and all threads of the
   barrier, the times at which a CPU has executed an instruction increase strictly; and when it
   executes the next one, the clock shows a later slot than for all before.
   */
  lemma {:induction false} OnePerSlot(k: Config, numCpus: nat, others: nat, steps: seq<JointStep>, c: nat)
    requires k.timeSlot >= 1 && ConfigOk(k) && CanRun(k, Start(k, numCpus, others), steps)
    ensures var j := RunAll(k, Start(k, numCpus, others), steps);
      c < |j.ran| ==>
        && Increasing(j.ran[c])
        && (JointEnabled(k, j, OnCpu(c)) && Executes(j.os, c) ==> forall a :: 0 <= a < |j.ran[c]| ==> j.ran[c][a] < j.t.time)
  {
    StartInv(k, numCpus, others);
    hide ConfigOk, CanRun, RunAll, JointInv, Start, Increasing, Enabled;
    RunKeeps(k, Start(k, numCpus, others), steps);
    var j := RunAll(k, Start(k, numCpus, others), steps);
    if c < |j.ran| {
      NextLater(k, j, c);
    }
  }

  lemma NextLater(k: Config, j: Joint, c: nat)
    requires JointInv(k, j) && c < |j.ran|
    ensures Increasing(j.ran[c])
    ensures AtWork(j.t, c) ==> forall a :: 0 <= a < |j.ran[c]| ==> j.ran[c][a] < j.t.time
  {
    LoaderRuns.ClockAt(j.t, c);
    assert CpuOk(j.os.cpus[c], j.t.devs[c], j.ran[c]);
    hide Inv, Timer.Inv, SumPcs, SumRan, Increasing;
  }

  /** Every instruction is some CPU's: program counters and CPUs count the same. */
  lemma {:induction false} AllCounted(k: Config, numCpus: nat, others: nat, steps: seq<JointStep>)
    requires k.timeSlot >= 1 && ConfigOk(k) && CanRun(k, Start(k, numCpus, others), steps)
    ensures var j := RunAll(k, Start(k, numCpus, others), steps); SumPcs(k.procs, j.os.pcs) == SumRan(j.ran)
  {
    StartInv(k, numCpus, others);
    hide ConfigOk, CanRun, RunAll, Inv, Timer.Inv, Start, SumPcs, SumRan, CpusOk;
    RunKeeps(k, Start(k, numCpus, others), steps);
  }
}
