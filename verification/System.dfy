/**
 The whole system: CPUs and the loader interleave on the scheduler, and every instruction a CPU
 runs acts on the shared memory.  What the memory assumes of its callers is proved here.
 */
module System {
  import opened Queue
  import opened Sched
  import opened Cpus
  import opened Wrappers
  import opened Paging
  import opened Memory
  import opened Frames
  import opened Isolation
  import FlatMemory
  import RegionRuns
  import CpuRuns
  import Krnl
  import Space

  // ----- Programs -----

  /** The instructions that use memory, and the rest. */
  datatype Ins =
    | CalcIns
    | AllocIns(rgid: nat, size: nat)
    | FreeIns(rgid: nat)
    | KmallocIns(rgid: nat, size: nat)
    | ReadIns(rgid: nat, offset: nat)
    | WriteIns(rgid: nat, offset: nat, value: Byte)

  /** Symbol indices stay inside the table, as the source leaves it to its programs; kernel sizes have 32 bits. */
  predicate InsOk(ins: Ins) {
    match ins
    case CalcIns => true
    case AllocIns(rgid, _) => rgid < Space.SYMBOLS
    case KmallocIns(_, size) => size < 0x1_0000_0000
    case FreeIns(rgid) => rgid != Space.SYMBOLS
    case ReadIns(rgid, _) => rgid != Space.SYMBOLS
    case WriteIns(rgid, _, _) => rgid != Space.SYMBOLS
  }

  type Programs = map<Pcb, seq<Ins>>

  predicate ProgramOk(code: Programs, p: Pcb) {
    && p.pid != KERNEL && p in code && |code[p]| == p.codeSize
    && forall i :: 0 <= i < |code[p]| ==> InsOk(code[p][i])
  }

  predicate ProgramsOk(k: Config, code: Programs) {
    ConfigOk(k) && k.timeSlot >= 1 && forall i :: 0 <= i < |k.procs| ==> ProgramOk(code, k.procs[i])
  }

  /** __read refuses a symbol that was never allocated and an offset behind its end; __write does not. */
  predicate Readable(r: Space.Region, offset: nat) {
    !(r.start == 0 && r.end == 0) && Space.Wrap64(r.start + offset) < r.end
  }

  /** The memory operation behind an instruction of process pid, if there is one. */
  function OpOf(mem: Memory.Sys, pid: nat, found: bool, ins: Ins): Option<MemOp>
    requires pid in mem.spaces
  {
    var sym := mem.spaces[pid].sym;
    match ins
    case CalcIns => None
    case AllocIns(rgid, size) => Some(AllocOp(pid, found, rgid, size))
    case FreeIns(rgid) => if rgid < |sym| then Some(FreeOp(pid, rgid)) else None
    case KmallocIns(rgid, size) => Some(KmallocOp(found, rgid, size))
    case ReadIns(rgid, offset) =>
      if rgid < |sym| && Readable(sym[rgid], offset) then Some(ReadOp(pid, Space.Wrap64(sym[rgid].start + offset)))
      else None
    case WriteIns(rgid, offset, value) =>
      if rgid < |sym| then Some(WriteOp(pid, Space.Wrap64(sym[rgid].start + offset), value)) else None
  }

  // ----- The combined transition system -----

  datatype Whole = Whole(os: Cpus.Sys, mem: Memory.Sys)

  /** An instruction about to take effect: whose, and its number in the program. */
  datatype Turn = Turn(p: Pcb, at: nat)

  /** The instruction that this step executes, if it executes one. */
  function Runs(k: Config, os: Cpus.Sys, step: Step): Option<Turn>
    requires Enabled(k, os, step)
  {
    if step.Go? && os.cpus[step.c].pc.Fetched? && os.cpus[step.c].held.Some?
    then Some(Turn(os.cpus[step.c].held.value, os.cpus[step.c].pc.at)) else None
  }

  /** What a step does to memory; system calls look their caller up in the scheduler's running list. */
  function Effect(k: Config, code: Programs, w: Whole, step: Step): Option<MemOp>
    requires Enabled(k, w.os, step)
  {
    if step.Load? then Some(LoadOp(k.procs[w.os.loaded].pid))
    else match Runs(k, w.os, step)
      case None => None
      case Some(Turn(p, at)) =>
        if p in code && at < |code[p]| && p.pid in w.mem.spaces then
          OpOf(w.mem, p.pid, Krnl.Running(w.os.sched.running, p.pid), code[p][at])
        else None
  }

  predicate Able(k: Config, code: Programs, w: Whole, step: Step) {
    Enabled(k, w.os, step)
    && (Effect(k, code, w, step).Some? ==> Allowed(w.mem, Effect(k, code, w, step).value))
  }

  function Next(k: Config, code: Programs, w: Whole, step: Step): Whole
    requires Able(k, code, w, step)
  {
    var effect := Effect(k, code, w, step);
    Whole(Do(k, w.os, step), if effect.Some? then Apply(w.mem, effect.value) else w.mem)
  }

  function Start(k: Config, numCpus: nat, maxSize: nat, swapSize: nat): Whole {
    Whole(Init(k, numCpus), Boot(maxSize, swapSize))
  }

  predicate AbleRun(k: Config, code: Programs, w: Whole, steps: seq<Step>)
    decreases |steps|
  {
    steps != [] ==> Able(k, code, w, steps[0]) && AbleRun(k, code, Next(k, code, w, steps[0]), steps[1..])
  }

  function NextAll(k: Config, code: Programs, w: Whole, steps: seq<Step>): Whole
    requires AbleRun(k, code, w, steps)
    decreases |steps|
  {
    if steps == [] then w else NextAll(k, code, Next(k, code, w, steps[0]), steps[1..])
  }

  // ----- A run of the system is a run of the memory -----

  /** The memory operations of a run, in order. */
  function Effects(k: Config, code: Programs, w: Whole, steps: seq<Step>): seq<MemOp>
    requires AbleRun(k, code, w, steps)
    decreases |steps|
  {
    if steps == [] then []
    else
      var effect := Effect(k, code, w, steps[0]);
      (if effect.Some? then [effect.value] else []) + Effects(k, code, Next(k, code, w, steps[0]), steps[1..])
  }

  /** Whatever the memory keeps over its own runs, it keeps over every interleaving of the CPUs. */
  lemma {:induction false} EffectsRun(k: Config, code: Programs, w: Whole, steps: seq<Step>)
    requires AbleRun(k, code, w, steps)
    ensures AllowedRun(w.mem, Effects(k, code, w, steps))
    ensures ApplyAll(w.mem, Effects(k, code, w, steps)) == NextAll(k, code, w, steps).mem
    decreases |steps|
  {
    hide Effect, Allowed, Apply, Enabled, Do, AllowedRun, ApplyAll;
    if steps == [] {
      NoOps(w.mem);
    } else {
      var w' := Next(k, code, w, steps[0]);
      EffectsRun(k, code, w', steps[1..]);
      var effect := Effect(k, code, w, steps[0]);
      if effect.Some? {
        ConsRun(w.mem, effect.value, Effects(k, code, w', steps[1..]));
      } else {
        assert Effects(k, code, w, steps) == Effects(k, code, w', steps[1..]);
      }
    }
  }

  lemma NoOps(s: Memory.Sys)
    ensures AllowedRun(s, []) && ApplyAll(s, []) == s
  {
  }

  // ----- Invariants that tie the two halves together -----

  /** Exactly the kernel and the loaded processes have an address space, and every symbol table is full size. */
  ghost predicate SpacesOk(k: Config, w: Whole) {
    && KERNEL in w.mem.spaces
    && (forall i :: 0 <= i < |k.procs| ==> (k.procs[i].pid in w.mem.spaces <==> i < w.os.loaded))
    && (forall pid :: pid in w.mem.spaces ==> |w.mem.spaces[pid].sym| == Space.SYMBOLS)
  }

  ghost predicate WholeInv(k: Config, w: Whole) {
    Inv(k, w.os) && SpacesOk(k, w)
  }

  /** An instruction that runs is the one its process's counter stands at, in the program of a loaded process. */
  lemma RunsLoaded(k: Config, code: Programs, w: Whole, step: Step) returns (i: nat)
    requires ProgramsOk(k, code) && Inv(k, w.os) && Enabled(k, w.os, step) && Runs(k, w.os, step).Some?
    ensures i < w.os.loaded <= |k.procs| && k.procs[i] == Runs(k, w.os, step).value.p
    ensures w.os.pcs[k.procs[i]] == Runs(k, w.os, step).value.at < |code[k.procs[i]]|
    ensures Krnl.Running(w.os.sched.running, k.procs[i].pid)
  {
    hide QueueBag, HeldBag, OwnLevels, SliceOk, TraceOk, Krnl.Running;
    var p := Runs(k, w.os, step).value.p;
    CpuRuns.CallerFound(k, w.os, step.c);
    CpuRuns.HeldLoaded(k, w.os, step.c);
    i :| 0 <= i < w.os.loaded && k.procs[i] == p;
  }

  lemma OpAllowed(mem: Memory.Sys, n: nat, pid: nat, found: bool, ins: Ins)
    requires Contained(mem, n) && KERNEL in mem.spaces && pid in mem.spaces && pid != KERNEL && InsOk(ins)
    ensures OpOf(mem, pid, found, ins).Some? ==> Allowed(mem, OpOf(mem, pid, found, ins).value)
  {
    hide Contained, InDevices, Readable;
    var op := OpOf(mem, pid, found, ins);
    if op.Some? && IsAccess(op.value) {
      AccessInDevices(mem, n, pid, op.value.addr);
    }
  }

  /** Every memory system call finds its caller, and every effect is one the memory allows, whatever was evicted before. */
  lemma {:induction false} EffectAllowed(k: Config, code: Programs, n: nat, w: Whole, step: Step)
    requires ProgramsOk(k, code) && WholeInv(k, w) && Contained(w.mem, n) && Enabled(k, w.os, step)
    ensures Able(k, code, w, step)
  {
    hide Inv, Krnl.Running, Contained, InDevices, OpOf;
    if Runs(k, w.os, step).Some? {
      var i := RunsLoaded(k, code, w, step);
      assert ProgramOk(code, k.procs[i]);
      OpAllowed(w.mem, n, k.procs[i].pid, true, code[k.procs[i]][Runs(k, w.os, step).value.at]);
    }
  }

  /** What a step that executes an instruction does to memory. */
  lemma EffectMeans(k: Config, code: Programs, w: Whole, step: Step)
    requires ProgramsOk(k, code) && WholeInv(k, w) && Enabled(k, w.os, step) && Runs(k, w.os, step).Some?
    ensures var Turn(p, at) := Runs(k, w.os, step).value;
      && p in code && p in w.os.pcs && w.os.pcs[p] == at < |code[p]| && p.pid in w.mem.spaces
      && Effect(k, code, w, step) == OpOf(w.mem, p.pid, true, code[p][at])
  {
    hide Inv, Krnl.Running, OpOf;
    var i := RunsLoaded(k, code, w, step);
    assert ProgramOk(code, k.procs[i]);
  }

  /** A memory operation other than loading keeps the set of spaces and the size of their tables. */
  lemma SpacesKept(s: Memory.Sys, op: MemOp)
    requires Allowed(s, op) && forall pid :: pid in s.spaces ==> |s.spaces[pid].sym| == Space.SYMBOLS
    ensures var s' := Apply(s, op);
      && s'.spaces.Keys == s.spaces.Keys + (if op.LoadOp? then {op.pid} else {})
      && (forall pid :: pid in s'.spaces ==> |s'.spaces[pid].sym| == Space.SYMBOLS)
  {
    if IsAccess(op) {
      hide Apply, Allowed;
      RegionRuns.SameSpaces(s, op);
      forall pid | pid in s.spaces
        ensures pid in Apply(s, op).spaces && Apply(s, op).spaces[pid].sym == s.spaces[pid].sym
      {
        RegionRuns.AccessRegions(s, op, pid);
      }
    } else {
      hide Memory.Fetch, Memory.Store, InDevices, Space.Alloc, Space.Kmalloc, Space.Free;
      AllocSpaces(s, op);
      if op.FreeOp? {
        FreeCount(s.spaces[op.pid], op.rgid);
      }
    }
  }

  lemma AllocSpaces(s: Memory.Sys, op: MemOp)
    ensures op.AllocOp? && op.pid in s.spaces ==>
      |Space.Alloc(s.spaces[op.pid], s.frames, op.found, op.rgid, op.size).0.sym| == |s.spaces[op.pid].sym|
    ensures op.KmallocOp? && KERNEL in s.spaces ==>
      |Space.Kmalloc(s.spaces[KERNEL], s.frames, op.found, op.rgid, op.size).0.sym| == |s.spaces[KERNEL].sym|
  {
    hide Space.Alloc, Space.Kmalloc;
    match op
    case AllocOp(pid, found, rgid, size) => if pid in s.spaces { SymbolCount(s.spaces[pid], s.frames, found, rgid, size); }
    case KmallocOp(found, rgid, size) => if KERNEL in s.spaces { SymbolCount(s.spaces[KERNEL], s.frames, found, rgid, size); }
    case _ =>
  }

  lemma FreeCount(sp: Space.Space, rgid: nat)
    requires rgid < |sp.sym|
    ensures |Space.Free(sp, rgid).sym| == |sp.sym|
  {
  }

  lemma SymbolCount(sp: Space.Space, frames: seq<nat>, found: bool, rgid: nat, size: nat)
    ensures |Space.Alloc(sp, frames, found, rgid, size).0.sym| == |sp.sym|
    ensures |Space.Kmalloc(sp, frames, found, rgid, size).0.sym| == |sp.sym|
  {
    hide Space.TakeRegion, Space.PlanGrowth, Space.MapPages, Space.PushPages;
  }

  lemma LoadCounts(k: Config, code: Programs, w: Whole, step: Step)
    requires Enabled(k, w.os, step)
    ensures Do(k, w.os, step).loaded == w.os.loaded + if step.Load? then 1 else 0
    ensures var effect := Effect(k, code, w, step);
      if step.Load? then effect == Some(LoadOp(k.procs[w.os.loaded].pid)) else effect.Some? ==> !effect.value.LoadOp?
  {
    hide Get, Put, Add, Krnl.Running, Readable;
  }

  lemma OwnPid(k: Config, i: nat, j: nat)
    requires ConfigOk(k) && i < |k.procs| && j < |k.procs|
    ensures k.procs[i].pid == k.procs[j].pid <==> i == j
  {
  }

  lemma SpacesStep(k: Config, code: Programs, w: Whole, step: Step)
    requires ProgramsOk(k, code) && WholeInv(k, w) && Able(k, code, w, step)
    ensures SpacesOk(k, Next(k, code, w, step))
  {
    LoadCounts(k, code, w, step);
    hide Inv, Allowed, Apply, Effect, Do, Enabled, ProgramOk, ConfigOk;
    var w' := Next(k, code, w, step);
    if Effect(k, code, w, step).Some? {
      SpacesKept(w.mem, Effect(k, code, w, step).value);
    }
    forall i | 0 <= i < |k.procs|
      ensures k.procs[i].pid in w'.mem.spaces <==> i < w'.os.loaded
    {
      if step.Load? {
        OwnPid(k, w.os.loaded, i);
      }
    }
  }

  lemma StartInv(k: Config, code: Programs, numCpus: nat, maxSize: nat, swapSize: nat)
    requires ProgramsOk(k, code)
    ensures WholeInv(k, Start(k, numCpus, maxSize, swapSize))
  {
    hide Inv;
    InitInv(k, numCpus);
    assert forall i :: 0 <= i < |k.procs| ==> ProgramOk(code, k.procs[i]);
  }

  lemma StepKeepsWhole(k: Config, code: Programs, w: Whole, step: Step)
    requires ProgramsOk(k, code) && WholeInv(k, w) && Able(k, code, w, step)
    ensures WholeInv(k, Next(k, code, w, step))
  {
    StepKeeps(k, w.os, step);
    SpacesStep(k, code, w, step);
    hide Inv, SpacesOk, Do, Apply, Allowed, Effect, Enabled;
  }

  // ----- Nothing blocks -----

  lemma StepContains(k: Config, code: Programs, n: nat, w: Whole, step: Step)
    requires Contained(w.mem, n) && Able(k, code, w, step)
    ensures Contained(Next(k, code, w, step).mem, n)
  {
    hide Contained, Do, Apply, Allowed, Effect, Enabled;
    if Effect(k, code, w, step).Some? {
      StepContained(w.mem, n, Effect(k, code, w, step).value);
    }
  }

  lemma NextOs(k: Config, code: Programs, w: Whole, step: Step)
    requires Able(k, code, w, step)
    ensures Enabled(k, w.os, step) && Next(k, code, w, step).os == Do(k, w.os, step)
  {
    hide Do, Apply, Allowed, Effect, Enabled;
  }

  /** Every interleaving of the CPUs is one of the whole system: memory never stands in its way. */
  lemma {:induction false} RunAble(k: Config, code: Programs, n: nat, w: Whole, steps: seq<Step>)
    requires ProgramsOk(k, code) && WholeInv(k, w) && Contained(w.mem, n) && CpuRuns.CanRun(k, w.os, steps)
    ensures AbleRun(k, code, w, steps)
    ensures var w' := NextAll(k, code, w, steps);
      WholeInv(k, w') && Contained(w'.mem, n) && w'.os == CpuRuns.RunAll(k, w.os, steps)
    decreases |steps|
  {
    hide WholeInv, Contained, ProgramsOk, Able, Next, Enabled, Do;
    if steps != [] {
      EffectAllowed(k, code, n, w, steps[0]);
      NextOs(k, code, w, steps[0]);
      StepKeepsWhole(k, code, w, steps[0]);
      StepContains(k, code, n, w, steps[0]);
      RunAble(k, code, n, Next(k, code, w, steps[0]), steps[1..]);
    }
  }

  /**
   In every state the whole system reaches, under any interleaving of its CPUs and its loader and
   however many pages it has evicted: no step is blocked by memory, and every memory system call
   finds its caller in the running list.
   */
  lemma {:induction false} NothingBlocks(k: Config, code: Programs, numCpus: nat, maxSize: nat, swapSize: nat,
                                         steps: seq<Step>, next: Step)
    requires ProgramsOk(k, code) && CpuRuns.CanRun(k, Init(k, numCpus), steps)
    ensures AbleRun(k, code, Start(k, numCpus, maxSize, swapSize), steps)
    ensures var w := NextAll(k, code, Start(k, numCpus, maxSize, swapSize), steps);
      Enabled(k, w.os, next) ==>
        && Able(k, code, w, next)
        && (Runs(k, w.os, next).Some? ==> Krnl.Running(w.os.sched.running, Runs(k, w.os, next).value.p.pid))
  {
    var s, n := Start(k, numCpus, maxSize, swapSize), maxSize / PAGESZ;
    BootContained(maxSize, swapSize);
    StartInv(k, code, numCpus, maxSize, swapSize);
    hide ProgramsOk, AbleRun, NextAll, Inv, SpacesOk, Contained, Able, Krnl.Running, Enabled, Runs, Init, Boot, CpuRuns.CanRun;
    RunAble(k, code, n, s, steps);
    var w := NextAll(k, code, s, steps);
    if Enabled(k, w.os, next) {
      EffectAllowed(k, code, n, w, next);
      if Runs(k, w.os, next).Some? {
        var i := RunsLoaded(k, code, w, next);
      }
    }
  }

  // ----- Isolation of the whole system -----

  /** What a start leads to keeps what the memory keeps over its own runs. */
  lemma {:induction false} SystemReady(k: Config, code: Programs, numCpus: nat, maxSize: nat, swapSize: nat, steps: seq<Step>)
    requires ProgramsOk(k, code) && maxSize / PAGESZ <= FPN_LIMIT && CpuRuns.CanRun(k, Init(k, numCpus), steps)
    ensures AbleRun(k, code, Start(k, numCpus, maxSize, swapSize), steps)
    ensures var w := NextAll(k, code, Start(k, numCpus, maxSize, swapSize), steps);
      WholeInv(k, w) && Ready(w.mem, maxSize / PAGESZ)
  {
    var s, n := Start(k, numCpus, maxSize, swapSize), maxSize / PAGESZ;
    BootContained(maxSize, swapSize);
    BootReady(maxSize, swapSize);
    StartInv(k, code, numCpus, maxSize, swapSize);
    hide ProgramsOk, AbleRun, NextAll, Inv, SpacesOk, Contained, Ready, Init, Boot, CpuRuns.CanRun, Effects;
    RunAble(k, code, n, s, steps);
    EffectsRun(k, code, s, steps);
    RunReady(s.mem, n, Effects(k, code, s, steps));
  }

  /** No instruction of the run evicts a page. */
  predicate EvictsNothing(k: Config, code: Programs, w: Whole, steps: seq<Step>)
    requires AbleRun(k, code, w, steps)
    decreases |steps|
  {
    steps != [] ==>
      && (Effect(k, code, w, steps[0]).Some? ==> !Evicting(w.mem, Effect(k, code, w, steps[0]).value))
      && EvictsNothing(k, code, Next(k, code, w, steps[0]), steps[1..])
  }

  /** Frames are isolated now and after every step of the run. */
  ghost predicate AlwaysIsolated(k: Config, code: Programs, n: nat, w: Whole, steps: seq<Step>)
    requires AbleRun(k, code, w, steps)
    decreases |steps|
  {
    Isolated(w.mem, n) && (steps != [] ==> AlwaysIsolated(k, code, n, Next(k, code, w, steps[0]), steps[1..]))
  }

  lemma NextIsolatesIff(k: Config, code: Programs, n: nat, w: Whole, step: Step)
    requires Ready(w.mem, n) && Isolated(w.mem, n) && n <= FPN_LIMIT && Able(k, code, w, step)
    ensures Ready(Next(k, code, w, step).mem, n)
    ensures Isolated(Next(k, code, w, step).mem, n)
            <==> (Effect(k, code, w, step).Some? ==> !Evicting(w.mem, Effect(k, code, w, step).value))
  {
    hide Do, Apply, Allowed, Effect, Enabled, Evicting, Isolated, Ready;
    if Effect(k, code, w, step).Some? {
      StepIsolatesIff(w.mem, n, Effect(k, code, w, step).value);
    }
  }

  lemma {:induction false} IsolatedFrom(k: Config, code: Programs, n: nat, w: Whole, steps: seq<Step>)
    requires Ready(w.mem, n) && Isolated(w.mem, n) && n <= FPN_LIMIT && AbleRun(k, code, w, steps)
    ensures AlwaysIsolated(k, code, n, w, steps) <==> EvictsNothing(k, code, w, steps)
    decreases |steps|
  {
    hide Ready, Isolated, Able, Next, Effect, Evicting;
    if steps != [] {
      AbleMeans(k, code, w, steps[0]);
      NextIsolatesIff(k, code, n, w, steps[0]);
      var w' := Next(k, code, w, steps[0]);
      if Isolated(w'.mem, n) {
        IsolatedFrom(k, code, n, w', steps[1..]);
      } else {
        assert !AlwaysIsolated(k, code, n, w', steps[1..]);
      }
    }
  }

  lemma AbleMeans(k: Config, code: Programs, w: Whole, step: Step)
    requires Able(k, code, w, step)
    ensures Enabled(k, w.os, step)
  {
    hide Effect, Allowed, Enabled;
  }

  /**
   Over any interleaving of any programs, from the start: two pages share a frame only if it is frame
   0; and frames are isolated all the time if and only if no instruction finds its page absent, a
   page enlisted and a swap frame free.
   */
  lemma {:induction false} SystemIsolated(k: Config, code: Programs, numCpus: nat, maxSize: nat, swapSize: nat, steps: seq<Step>)
    requires ProgramsOk(k, code) && maxSize / PAGESZ <= FPN_LIMIT && CpuRuns.CanRun(k, Init(k, numCpus), steps)
    ensures var s, n := Start(k, numCpus, maxSize, swapSize), maxSize / PAGESZ;
      && AbleRun(k, code, s, steps)
      && IsolatedBut(NextAll(k, code, s, steps).mem, n, {0})
      && (AlwaysIsolated(k, code, n, s, steps) <==> EvictsNothing(k, code, s, steps))
  {
    var s, n := Start(k, numCpus, maxSize, swapSize), maxSize / PAGESZ;
    BootReady(maxSize, swapSize);
    hide ProgramsOk, AbleRun, NextAll, WholeInv, Contained, IsolatedBut, BreaksOk, Rooted, Isolated, Init, Boot;
    hide CpuRuns.CanRun, AlwaysIsolated, EvictsNothing;
    SystemReady(k, code, numCpus, maxSize, swapSize, steps);
    IsolatedFrom(k, code, n, s, steps);
  }

  /**
   From any state that a start leads to, whatever the CPUs interleave and evict: a byte of a resident
   page is the last value its own process stored there, for as long as no step changes the entry of
   that page and the page is not on frame 0; without evictions frame 0 is no exception.
   */
  lemma {:induction false} SystemFlat(k: Config, code: Programs, n: nat, w: Whole, steps: seq<Step>, q: nat, b: nat)
    requires ProgramsOk(k, code) && WholeInv(k, w) && Ready(w.mem, n) && n <= FPN_LIMIT && CpuRuns.CanRun(k, w.os, steps)
    ensures AbleRun(k, code, w, steps) && AllowedRun(w.mem, Effects(k, code, w, steps))
    ensures var ops, w' := Effects(k, code, w, steps), NextAll(k, code, w, steps);
      FlatMemory.Resident(w.mem, q, b) && FlatMemory.KeepsAll(w.mem, ops, q, Pgn(b)) && FlatMemory.Private(w.mem, n, ops, q, Pgn(b)) ==>
        && q in w.mem.spaces && q in w'.mem.spaces
        && FlatMemory.ByteAt(w'.mem, q, b) == FlatMemory.LastByte(ops, q, b, FlatMemory.ByteAt(w.mem, q, b))
  {
    ReadyContained(w.mem, n);
    hide *;
    RunAble(k, code, n, w, steps);
    EffectsRun(k, code, w, steps);
    var ops := Effects(k, code, w, steps);
    if FlatMemory.Resident(w.mem, q, b) && FlatMemory.KeepsAll(w.mem, ops, q, Pgn(b)) && FlatMemory.Private(w.mem, n, ops, q, Pgn(b)) {
      FlatMemory.ResidentLoaded(w.mem, q, b);
      FlatMemory.FlatRun(w.mem, n, ops, q, b);
    }
  }

  lemma ReadyContained(s: Memory.Sys, n: nat)
    requires Ready(s, n)
    ensures Contained(s, n)
  {
  }
}
