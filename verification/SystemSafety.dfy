/**
 Region safety of the whole system, from a condition on the programs alone: what a program asks
 for in total fits the integers the allocators compute with.
 */
module SystemSafety {
  import opened Queue
  import opened Cpus
  import opened Wrappers
  import opened Paging
  import opened Memory
  import opened RegionRuns
  import opened System
  import CpuRuns
  import RegionSafety
  import Space

  // ----- What programs ask for -----

  /** The most one instruction can move a break: the kernel's, or that of its own process. */
  function Asks(ins: Ins, kernel: bool): nat {
    match ins
    case AllocIns(_, size) => if kernel then 0 else size + PAGESZ64 - 1
    case KmallocIns(_, size) => if kernel then size + PAGESZ64 - 1 else 0
    case _ => 0
  }

  /** The same, over the first n instructions. */
  function AsksUpto(code: seq<Ins>, n: nat, kernel: bool): nat
    requires n <= |code|
  {
    if n == 0 then 0 else AsksUpto(code, n - 1, kernel) + Asks(code[n - 1], kernel)
  }

  lemma {:induction false} AsksMore(code: seq<Ins>, m: nat, n: nat, kernel: bool)
    requires m <= n <= |code|
    ensures AsksUpto(code, m, kernel) <= AsksUpto(code, n, kernel)
    decreases n
  {
    if m < n { AsksMore(code, m, n - 1, kernel); }
  }

  function KernelAsks(code: Programs, pcs: map<Pcb, nat>, p: Pcb): nat {
    if p in code && p in pcs && pcs[p] <= |code[p]| then AsksUpto(code[p], pcs[p], true) else 0
  }

  /** What all the processes together ask of the kernel's space up to their program counters. */
  function KernelTotal(procs: seq<Pcb>, code: Programs, pcs: map<Pcb, nat>): nat {
    if procs == [] then 0 else KernelAsks(code, pcs, procs[0]) + KernelTotal(procs[1..], code, pcs)
  }

  lemma {:induction false} KernelMore(procs: seq<Pcb>, code: Programs, pcs: map<Pcb, nat>, pcs': map<Pcb, nat>)
    requires forall p :: p in procs ==> KernelAsks(code, pcs, p) <= KernelAsks(code, pcs', p)
    ensures KernelTotal(procs, code, pcs) <= KernelTotal(procs, code, pcs')
  {
    hide KernelAsks;
    if procs != [] {
      assert procs[0] in procs;
      KernelMore(procs[1..], code, pcs, pcs');
    }
  }

  lemma {:induction false} KernelSame(procs: seq<Pcb>, code: Programs, pcs: map<Pcb, nat>, p: Pcb, n: nat)
    requires p !in procs
    ensures KernelTotal(procs, code, pcs[p := n]) == KernelTotal(procs, code, pcs)
  {
    if procs != [] { KernelSame(procs[1..], code, pcs, p, n); }
  }

  /** One more instruction of one process. */
  lemma {:induction false} KernelNext(procs: seq<Pcb>, code: Programs, pcs: map<Pcb, nat>, p: Pcb)
    requires p in procs && forall i, j :: 0 <= i < j < |procs| ==> procs[i] != procs[j]
    requires p in code && p in pcs && pcs[p] < |code[p]|
    ensures KernelTotal(procs, code, pcs[p := pcs[p] + 1]) == KernelTotal(procs, code, pcs) + Asks(code[p][pcs[p]], true)
  {
    if procs[0] == p {
      assert p !in procs[1..];
      KernelSame(procs[1..], code, pcs, p, pcs[p] + 1);
    } else {
      KernelNext(procs[1..], code, pcs, p);
    }
  }

  function Ends(procs: seq<Pcb>): map<Pcb, nat> {
    map p | p in procs :: p.codeSize
  }

  /** Each program's own requests fit below 2^31, and all kernel requests together stay far from wrap-around. */
  ghost predicate BudgetOk(k: Config, code: Programs) {
    && ProgramsOk(k, code)
    && (forall p :: p in k.procs ==> p in code && AsksUpto(code[p], |code[p]|, false) <= RegionSafety.INT_LIMIT)
    && (forall p, i :: p in k.procs && p in code && 0 <= i < |code[p]| ==> Asks(code[p][i], true) <= RegionSafety.INT_LIMIT)
    && KernelTotal(k.procs, code, Ends(k.procs)) <= RegionSafety.BREAK_LIMIT - Space.KERNEL_START
  }

  // ----- The invariant -----

  /** No break is further than the instructions run so far asked for. */
  ghost predicate BreaksOk(k: Config, code: Programs, pcs: map<Pcb, nat>, mem: Memory.Sys) {
    && (forall p :: p in k.procs ==> p in code && p in pcs && pcs[p] <= |code[p]|
                                     && BreakOf(mem, p.pid) <= AsksUpto(code[p], pcs[p], false))
    && BreakOf(mem, KERNEL) <= Space.KERNEL_START + KernelTotal(k.procs, code, pcs)
  }

  ghost predicate SafeInv(k: Config, code: Programs, w: Whole) {
    Inv(k, w.os) && SpacesOk(k, w) && AllSafe(w.mem) && BreaksOk(k, code, w.os.pcs, w.mem)
  }

  /** The part of the kernel's budget that one more instruction of p takes is still there. */
  lemma KernelRoom(k: Config, code: Programs, pcs: map<Pcb, nat>, p: Pcb)
    requires BudgetOk(k, code) && p in k.procs && p in pcs && pcs[p] < |code[p]|
    requires forall q :: q in k.procs ==> q in pcs && pcs[q] <= |code[q]|
    ensures Space.KERNEL_START + KernelTotal(k.procs, code, pcs) + Asks(code[p][pcs[p]], true) <= RegionSafety.BREAK_LIMIT
  {
    hide Asks, AsksUpto, KernelTotal;
    var pcs' := pcs[p := pcs[p] + 1];
    KernelNext(k.procs, code, pcs, p);
    forall q | q in k.procs
      ensures KernelAsks(code, pcs', q) <= KernelAsks(code, Ends(k.procs), q)
    {
      var i :| 0 <= i < |k.procs| && k.procs[i] == q;
      assert ProgramOk(code, k.procs[i]);
      AsksMore(code[q], pcs'[q], |code[q]|, true);
    }
    KernelMore(k.procs, code, pcs', Ends(k.procs));
  }

  /** Within budget, the operation behind the next instruction is one the allocators handle. */
  lemma OpGuarded(k: Config, code: Programs, pcs: map<Pcb, nat>, mem: Memory.Sys, p: Pcb, op: MemOp)
    requires BudgetOk(k, code) && BreaksOk(k, code, pcs, mem) && p in k.procs && p.pid in mem.spaces
    requires pcs[p] < |code[p]| && OpOf(mem, p.pid, true, code[p][pcs[p]]) == Some(op) && Allowed(mem, op)
    ensures Guarded(mem, op)
  {
    hide AsksUpto, KernelTotal, ProgramsOk;
    AsksMore(code[p], pcs[p] + 1, |code[p]|, false);
    AsksNext(code[p], pcs[p], false);
    KernelRoom(k, code, pcs, p);
  }

  lemma AsksNext(code: seq<Ins>, n: nat, kernel: bool)
    requires n < |code|
    ensures AsksUpto(code, n + 1, kernel) == AsksUpto(code, n, kernel) + Asks(code[n], kernel)
  {
  }

  /** A step advances the program counter of the process it runs, and no other. */
  lemma RunsMeans(k: Config, os: Cpus.Sys, step: Step)
    requires Enabled(k, os, step)
    ensures var run := Runs(k, os, step);
      && (run.Some? ==> run.value.p in os.pcs)
      && Do(k, os, step).pcs == if run.Some? then os.pcs[run.value.p := run.value.at + 1] else os.pcs
  {
    hide Sched.Get, Sched.Put, Sched.Add;
  }

  lemma InstructionBreaks(k: Config, code: Programs, pcs: map<Pcb, nat>, mem: Memory.Sys, p: Pcb, mem': Memory.Sys)
    requires BudgetOk(k, code) && BreaksOk(k, code, pcs, mem) && AllSafe(mem)
    requires p in k.procs && p.pid in mem.spaces && pcs[p] < |code[p]|
    requires var op := OpOf(mem, p.pid, true, code[p][pcs[p]]);
      if op.Some? then Allowed(mem, op.value) && mem' == Apply(mem, op.value) else mem' == mem
    ensures AllSafe(mem') && BreaksOk(k, code, pcs[p := pcs[p] + 1], mem')
  {
    hide AsksUpto, KernelTotal, ProgramsOk, Apply, Allowed, AllSafe, Guarded, BreakOf;
    var n := pcs[p];
    var op := OpOf(mem, p.pid, true, code[p][n]);
    OtherPid(k, code, p, p);
    if op.Some? {
      OpGuarded(k, code, pcs, mem, p, op.value);
      StepSafe(mem, op.value, KERNEL);
    }
    AsksNext(code[p], n, false);
    SamePcs(k, code, p, pcs);
    forall q | q in k.procs
      ensures BreakOf(mem', q.pid) <= AsksUpto(code[q], pcs[p := n + 1][q], false)
    {
      OtherPid(k, code, p, q);
      if op.Some? {
        StepSafe(mem, op.value, q.pid);
      }
    }
  }

  lemma SamePcs(k: Config, code: Programs, p: Pcb, pcs: map<Pcb, nat>)
    requires BudgetOk(k, code) && p in k.procs && p in pcs && pcs[p] < |code[p]|
    ensures KernelTotal(k.procs, code, pcs[p := pcs[p] + 1]) == KernelTotal(k.procs, code, pcs) + Asks(code[p][pcs[p]], true)
  {
    hide Asks, KernelTotal;
    KernelNext(k.procs, code, pcs, p);
  }

  lemma OtherPid(k: Config, code: Programs, p: Pcb, q: Pcb)
    requires ProgramsOk(k, code) && p in k.procs && q in k.procs
    ensures q.pid != KERNEL && (p.pid == q.pid <==> p == q)
  {
    var i :| 0 <= i < |k.procs| && k.procs[i] == p;
    var j :| 0 <= j < |k.procs| && k.procs[j] == q;
    assert ProgramOk(code, k.procs[j]);
    OwnPid(k, i, j);
  }

  /** A process enters with an empty space. */
  lemma LoadBreaks(k: Config, code: Programs, pcs: map<Pcb, nat>, mem: Memory.Sys, op: MemOp)
    requires BreaksOk(k, code, pcs, mem) && AllSafe(mem) && op.LoadOp? && Allowed(mem, op)
    ensures AllSafe(Apply(mem, op)) && BreaksOk(k, code, pcs, Apply(mem, op))
  {
    hide AsksUpto, KernelTotal, AllSafe, BreakOf;
    StepSafe(mem, op, KERNEL);
    forall p | p in k.procs
      ensures BreakOf(Apply(mem, op), p.pid) <= BreakOf(mem, p.pid)
    {
      StepSafe(mem, op, p.pid);
    }
  }

  lemma NextMeans(k: Config, code: Programs, w: Whole, step: Step)
    requires Able(k, code, w, step)
    ensures var effect := Effect(k, code, w, step); var w' := Next(k, code, w, step);
      && w'.os == Do(k, w.os, step)
      && (if effect.Some? then Allowed(w.mem, effect.value) && w'.mem == Apply(w.mem, effect.value) else w'.mem == w.mem)
      && (Runs(k, w.os, step) == None && !step.Load? ==> effect == None)
      && (step.Load? ==> Runs(k, w.os, step) == None)
  {
    hide Do, Apply, Allowed, OpOf, Enabled;
  }

  lemma BudgetPrograms(k: Config, code: Programs)
    requires BudgetOk(k, code)
    ensures ProgramsOk(k, code)
  {
  }

  /** What a step does to memory keeps the breaks and the regions. */
  lemma StepBreaks(k: Config, code: Programs, w: Whole, step: Step)
    requires BudgetOk(k, code) && WholeInv(k, w) && AllSafe(w.mem) && BreaksOk(k, code, w.os.pcs, w.mem)
    requires Able(k, code, w, step)
    ensures var w' := Next(k, code, w, step); AllSafe(w'.mem) && BreaksOk(k, code, w'.os.pcs, w'.mem)
  {
    hide Inv, SpacesOk, AllSafe, BreaksOk, Next, Effect, Runs, Do, BudgetOk, ProgramsOk, Apply, Allowed, OpOf, Enabled;
    BudgetPrograms(k, code);
    RunsMeans(k, w.os, step);
    NextMeans(k, code, w, step);
    var w' := Next(k, code, w, step);
    if step.Load? {
      LoadCounts(k, code, w, step);
      LoadBreaks(k, code, w.os.pcs, w.mem, Effect(k, code, w, step).value);
    } else if Runs(k, w.os, step).Some? {
      var i := RunsLoaded(k, code, w, step);
      EffectMeans(k, code, w, step);
      InstructionBreaks(k, code, w.os.pcs, w.mem, k.procs[i], w'.mem);
    }
  }

  lemma StepKeepsSafe(k: Config, code: Programs, w: Whole, step: Step)
    requires BudgetOk(k, code) && SafeInv(k, code, w) && Able(k, code, w, step)
    ensures SafeInv(k, code, Next(k, code, w, step))
  {
    hide Inv, SpacesOk, AllSafe, BreaksOk, Next, Able, BudgetOk, ProgramsOk;
    BudgetPrograms(k, code);
    StepKeepsWhole(k, code, w, step);
    StepBreaks(k, code, w, step);
  }

  lemma StartSafe(k: Config, code: Programs, numCpus: nat, maxSize: nat, swapSize: nat)
    requires BudgetOk(k, code)
    ensures SafeInv(k, code, Start(k, numCpus, maxSize, swapSize))
  {
    StartInv(k, code, numCpus, maxSize, swapSize);
    StartBreaks(k, code, numCpus, maxSize, swapSize);
    hide Inv, SpacesOk, AllSafe, BreaksOk;
  }

  lemma BootBreaks(maxSize: nat, swapSize: nat)
    ensures AllSafe(Boot(maxSize, swapSize)) && BreakOf(Boot(maxSize, swapSize), KERNEL) == Space.KERNEL_START
    ensures forall pid :: pid != KERNEL ==> BreakOf(Boot(maxSize, swapSize), pid) == 0
  {
    hide RegionSafety.Safe;
    RegionSafety.InitSafe(true);
  }

  lemma StartBreaks(k: Config, code: Programs, numCpus: nat, maxSize: nat, swapSize: nat)
    requires BudgetOk(k, code)
    ensures AllSafe(Boot(maxSize, swapSize)) && BreaksOk(k, code, Init(k, numCpus).pcs, Boot(maxSize, swapSize))
  {
    hide KernelTotal, AsksUpto, AllSafe, BreakOf, Boot, ProgramsOk;
    BootBreaks(maxSize, swapSize);
    forall p | p in k.procs
      ensures p.pid != KERNEL
    {
      OtherPid(k, code, p, p);
    }
  }

  lemma {:induction false} RunKeepsSafe(k: Config, code: Programs, w: Whole, steps: seq<Step>)
    requires BudgetOk(k, code) && SafeInv(k, code, w) && AbleRun(k, code, w, steps)
    ensures SafeInv(k, code, NextAll(k, code, w, steps))
    decreases |steps|
  {
    hide SafeInv, BudgetOk, Able, Next;
    if steps != [] {
      StepKeepsSafe(k, code, w, steps[0]);
      RunKeepsSafe(k, code, Next(k, code, w, steps[0]), steps[1..]);
    }
  }

  /**
   If every program's requests fit, then in every state the whole system reaches, under any
   interleaving of its CPUs and its loader, the regions of every address space are safe.
   */
  lemma {:induction false} SystemSafe(k: Config, code: Programs, numCpus: nat, maxSize: nat, swapSize: nat, steps: seq<Step>)
    requires BudgetOk(k, code) && CpuRuns.CanRun(k, Init(k, numCpus), steps)
    ensures AbleRun(k, code, Start(k, numCpus, maxSize, swapSize), steps)
    ensures AllSafe(NextAll(k, code, Start(k, numCpus, maxSize, swapSize), steps).mem)
  {
    hide BudgetOk, ProgramsOk, AbleRun, NextAll, Start, Inv, SpacesOk, BreaksOk, AllSafe, CpuRuns.CanRun, Init;
    BudgetPrograms(k, code);
    NothingBlocks(k, code, numCpus, maxSize, swapSize, steps, Load);
    StartSafe(k, code, numCpus, maxSize, swapSize);
    RunKeepsSafe(k, code, Start(k, numCpus, maxSize, swapSize), steps);
  }
}
