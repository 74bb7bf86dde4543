/**
 What every instruction does to memory when a CPU executes it, told from the process's symbols and
 bytes; and that nothing else a CPU does touches memory.
 */
module Instructions {
  import opened Queue
  import opened Cpus
  import opened Wrappers
  import opened Paging
  import opened Memory
  import opened Frames
  import opened FlatMemory
  import opened System
  import CpuRuns
  import Faults
  import Krnl
  import RegionRuns
  import RegionSafety
  import Space

  // ----- What an instruction may change -----

  /** The address that a symbol and an offset name, as a 64-bit number. */
  function AddressOf(m: Memory.Sys, pid: nat, rgid: nat, offset: nat): nat
    requires pid in m.spaces && rgid < |m.spaces[pid].sym|
  {
    (m.spaces[pid].sym[rgid].start + offset) % WORD64
  }

  /** Nothing but page tables and page FIFOs of the spaces differs, and only those of one space. */
  ghost predicate SameRegions(m: Memory.Sys, m': Memory.Sys, pid: nat) {
    && m'.spaces.Keys == m.spaces.Keys && m'.frames == m.frames
    && (forall q :: q in m.spaces && q != pid ==> m'.spaces[q] == m.spaces[q])
    && (pid in m.spaces ==> m'.spaces[pid] == m.spaces[pid].(pte := m'.spaces[pid].pte, fifo := m'.spaces[pid].fifo))
  }

  /** The page of the address is there in the end, if it was or if a page could be evicted for it. */
  ghost predicate PageServed(m: Memory.Sys, m': Memory.Sys, pid: nat, addr: nat) {
    && (Mapped(m', pid, Pgn(addr)) <==> Mapped(m, pid, Pgn(addr)) || Faults.CanEvict(m, pid))
    && (Mapped(m, pid, Pgn(addr)) ==> m'.spaces == m.spaces && m'.swap == m.swap)
    && (!Mapped(m, pid, Pgn(addr)) && Faults.CanEvict(m, pid)
        ==> Faults.FifoOf(m', pid) != [] && Faults.FifoOf(m', pid)[0] == Pgn(addr))
  }

  ghost predicate SameEntry(m: Memory.Sys, m': Memory.Sys, q: nat, x: nat) {
    q in m.spaces && q in m'.spaces && PageTable.Lookup(m'.spaces[q].pte, x) == PageTable.Lookup(m.spaces[q].pte, x)
  }

  /** Byte b of process q is the same, if its page keeps its entry and has its frame to itself. */
  ghost predicate ByteKept(m: Memory.Sys, m': Memory.Sys, q: nat, b: nat) {
    q in m.spaces && q in m'.spaces && Resident(m, q, b) && SameEntry(m, m', q, Pgn(b)) && Unshared(m', q, Pgn(b))
    ==> ByteAt(m', q, b) == ByteAt(m, q, b)
  }

  /** WRITE: the byte at the address is the value, and no other byte of any process changes. */
  ghost predicate Stored(m: Memory.Sys, m': Memory.Sys, pid: nat, addr: nat, value: Byte) {
    && SameRegions(m, m', pid) && PageServed(m, m', pid, addr)
    && (pid in m'.spaces && Mapped(m', pid, Pgn(addr)) ==> ByteAt(m', pid, addr) == Some(value))
    && (forall q: nat, b: nat :: !(q == pid && b % BUS_SPACE == addr % BUS_SPACE) ==> ByteKept(m, m', q, b))
  }

  /** READ: the page is fetched, and no byte of RAM changes. */
  ghost predicate Loaded(m: Memory.Sys, m': Memory.Sys, pid: nat, addr: nat) {
    SameRegions(m, m', pid) && PageServed(m, m', pid, addr) && m'.storage == m.storage
  }

  /** Everything but one space and the free frames. */
  ghost predicate OnlySpace(m: Memory.Sys, m': Memory.Sys, pid: nat) {
    && m'.spaces.Keys == m.spaces.Keys && m'.storage == m.storage && m'.swap == m.swap
    && (forall q :: q in m.spaces && q != pid ==> m'.spaces[q] == m.spaces[q])
  }

  /** Symbol rgid is the only one to change, and below 2^31 its length is the size asked for. */
  ghost predicate SymbolGiven(sp: Space.Space, sp': Space.Space, rgid: nat, size: nat) {
    && |sp'.sym| == |sp.sym| && (forall i :: 0 <= i < |sp.sym| && i != rgid ==> sp'.sym[i] == sp.sym[i])
    && (rgid < |sp.sym| && size < RegionSafety.INT_LIMIT
        ==> sp'.sym[rgid].end == (sp'.sym[rgid].start + size) % WORD64)
  }

  /** ALLOC: the process's symbol gets a region; from a safe space it is sound exactly under the guard. */
  ghost predicate AllocDone(m: Memory.Sys, m': Memory.Sys, pid: nat, rgid: nat, size: nat) {
    && OnlySpace(m, m', pid) && pid in m.spaces
    && SymbolGiven(m.spaces[pid], m'.spaces[pid], rgid, size)
    && (RegionSafety.Safe(m.spaces[pid]) ==>
          (RegionSafety.Sound(m.spaces[pid], m'.spaces[pid], rgid, size) <==> RegionSafety.UserGuard(m.spaces[pid], true, size)))
  }

  /** KMALLOC: the same for the kernel's table; an index beyond it records nothing. */
  ghost predicate KmallocDone(m: Memory.Sys, m': Memory.Sys, rgid: nat, size: nat) {
    && OnlySpace(m, m', KERNEL) && KERNEL in m.spaces
    && SymbolGiven(m.spaces[KERNEL], m'.spaces[KERNEL], rgid, size)
    && (RegionSafety.Safe(m.spaces[KERNEL]) && m.spaces[KERNEL].sbrk < RegionSafety.BREAK_LIMIT ==>
          (RegionSafety.Sound(m.spaces[KERNEL], m'.spaces[KERNEL], rgid, size)
           <==> RegionSafety.KernelGuard(m.spaces[KERNEL], true, rgid, size)))
  }

  /** FREE: a live symbol is cleared and its bytes become free; otherwise nothing happens. */
  ghost predicate FreeDone(m: Memory.Sys, m': Memory.Sys, pid: nat, rgid: nat) {
    pid in m.spaces && rgid < |m.spaces[pid].sym| &&
    var r := m.spaces[pid].sym[rgid];
    if r.start == 0 && r.end == 0 then m' == m
    else
      && OnlySpace(m, m', pid) && m'.frames == m.frames
      && m'.spaces[pid] == m.spaces[pid].(sym := m.spaces[pid].sym[rgid := Space.Region(0, 0)], free := m'.spaces[pid].free)
      && forall x :: RegionSafety.Covers(m'.spaces[pid].free, x)
           <==> RegionSafety.Covers(m.spaces[pid].free, x) || RegionSafety.Within(r, x)
  }

  // ----- Proofs on memory alone -----

  lemma AccessShape(m: Memory.Sys, n: nat, op: MemOp)
    requires Contained(m, n) && Allowed(m, op) && IsAccess(op)
    ensures var m' := Apply(m, op); SameRegions(m, m', op.pid) && PageServed(m, m', op.pid, op.addr)
    ensures op.ReadOp? ==> Apply(m, op).storage == m.storage
  {
    hide Contained, Allowed, Apply, Mapped, FrameOf, Faults.PagesSwapped, Faults.CopiedOut, Pgn, Faults.Oldest;
    Faults.ServedIff(m, n, op);
    if Faults.IsMapped(m, op) {
      Faults.AccessHits(m, n, op);
    } else if Faults.CanEvict(m, op.pid) {
      Faults.AccessEvicts(m, n, op);
    } else {
      Faults.AccessFails(m, n, op);
    }
  }

  lemma StoredHit(m: Memory.Sys, n: nat, op: MemOp)
    requires Contained(m, n) && Allowed(m, op) && op.WriteOp? && Mapped(m, op.pid, Pgn(op.addr))
    ensures op.pid in Apply(m, op).spaces && ByteAt(Apply(m, op), op.pid, op.addr) == Some(op.value)
  {
    hide Contained, Allowed, Apply, Mapped, FrameOf, Faults.OneByte, ByteAt, Pgn;
    AccessLoaded(m, op);
    Faults.AccessHits(m, n, op);
    StepContained(m, n, op);
    SameFrame(m, Apply(m, op), op.pid, Pgn(op.addr));
    ByteAtOne(m, Apply(m, op), n, op, FrameOf(m, op.pid, Pgn(op.addr)));
  }

  lemma SameFrame(m: Memory.Sys, m': Memory.Sys, pid: nat, x: nat)
    requires m'.spaces == m.spaces
    ensures Mapped(m', pid, x) == Mapped(m, pid, x) && FrameOf(m', pid, x) == FrameOf(m, pid, x)
  {
    hide PagePresent, PteFpn;
  }

  lemma StoredEvict(m: Memory.Sys, n: nat, op: MemOp)
    requires Contained(m, n) && Allowed(m, op) && op.WriteOp? && !Mapped(m, op.pid, Pgn(op.addr)) && Faults.CanEvict(m, op.pid)
    ensures op.pid in Apply(m, op).spaces && ByteAt(Apply(m, op), op.pid, op.addr) == Some(op.value)
  {
    hide Contained, Allowed, Apply, Mapped, FrameOf, Faults.OneByte, Faults.PagesSwapped, Faults.CopiedOut, Faults.Oldest, ByteAt, Pgn;
    AccessLoaded(m, op);
    Faults.AccessEvicts(m, n, op);
    StepContained(m, n, op);
    var v := Faults.Oldest(m, op.pid);
    Faults.SwappedIn(m, Apply(m, op), op.pid, v, Pgn(op.addr));
    ByteAtOne(m, Apply(m, op), n, op, FrameOf(m, op.pid, v));
  }

  /** After a store the byte is found where the page is. */
  lemma StoredByte(m: Memory.Sys, n: nat, op: MemOp)
    requires Contained(m, n) && Allowed(m, op) && op.WriteOp?
    ensures var m' := Apply(m, op);
      op.pid in m'.spaces && (Mapped(m', op.pid, Pgn(op.addr)) ==> ByteAt(m', op.pid, op.addr) == Some(op.value))
  {
    hide Contained, Allowed, Apply, Mapped, Faults.CanEvict, ByteAt, Pgn;
    AccessLoaded(m, op);
    Faults.ServedIff(m, n, op);
    if Mapped(m, op.pid, Pgn(op.addr)) {
      StoredHit(m, n, op);
    } else if Faults.CanEvict(m, op.pid) {
      StoredEvict(m, n, op);
    }
  }

  lemma AccessLoaded(m: Memory.Sys, op: MemOp)
    requires Allowed(m, op) && op.WriteOp?
    ensures IsAccess(op) && op.pid in m.spaces && op.pid in Apply(m, op).spaces
  {
    hide Apply;
    RegionRuns.SameSpaces(m, op);
  }

  lemma ByteAtOne(m: Memory.Sys, m': Memory.Sys, n: nat, op: MemOp, frame: nat)
    requires op.WriteOp? && IsAccess(op) && op.pid in m'.spaces && Faults.OneByte(m.storage, m'.storage, op, frame) && Contained(m', n)
    requires Mapped(m', op.pid, Pgn(op.addr)) ==> FrameOf(m', op.pid, Pgn(op.addr)) == frame
    ensures Mapped(m', op.pid, Pgn(op.addr)) ==> ByteAt(m', op.pid, op.addr) == Some(op.value)
  {
    hide Mapped, FrameOf, PhysAddr, Offst, Translate, Pgn;
    Faults.TranslatePage(m', op.pid, op.addr);
    PhysAddrArith(frame, op.addr);
    OffstArith(op.addr);
    if Mapped(m', op.pid, Pgn(op.addr)) {
      FrameBelow(m', n, op.pid, Pgn(op.addr));
    }
  }

  lemma OthersKept(m: Memory.Sys, n: nat, op: MemOp, q: nat, b: nat)
    requires Contained(m, n) && Allowed(m, op) && op.WriteOp? && !(q == op.pid && b % BUS_SPACE == op.addr % BUS_SPACE)
    ensures ByteKept(m, Apply(m, op), q, b)
  {
    hide Contained, Allowed, Apply, Resident, ByteAt, Unshared, Pgn;
    var m' := Apply(m, op);
    if q in m.spaces && q in m'.spaces && Resident(m, q, b) && SameEntry(m, m', q, Pgn(b)) && Unshared(m', q, Pgn(b)) {
      ByteStep(m, n, op, q, b);
    }
  }

  lemma StoreDone(m: Memory.Sys, n: nat, op: MemOp)
    requires Contained(m, n) && Allowed(m, op) && op.WriteOp?
    ensures Stored(m, Apply(m, op), op.pid, op.addr, op.value)
  {
    hide Contained, Allowed, Apply, ByteAt, Mapped, SameRegions, PageServed, ByteKept;
    AccessShape(m, n, op);
    StoredByte(m, n, op);
    forall q: nat, b: nat | !(q == op.pid && b % BUS_SPACE == op.addr % BUS_SPACE)
      ensures ByteKept(m, Apply(m, op), q, b)
    {
      OthersKept(m, n, op, q, b);
    }
  }

  lemma LoadDone(m: Memory.Sys, n: nat, op: MemOp)
    requires Contained(m, n) && Allowed(m, op) && op.ReadOp?
    ensures Loaded(m, Apply(m, op), op.pid, op.addr)
  {
    hide Contained, Allowed, Apply, SameRegions, PageServed;
    AccessShape(m, n, op);
  }

  lemma GivenSymbol(sp: Space.Space, frames: seq<nat>, found: bool, rgid: nat, size: nat)
    ensures SymbolGiven(sp, Space.Alloc(sp, frames, found, rgid, size).0, rgid, size)
    ensures SymbolGiven(sp, Space.Kmalloc(sp, frames, found, rgid, size).0, rgid, size)
  {
    hide Space.FirstFit, Space.Carve, Space.PlanGrowth, Space.MapPages, Space.PushPages;
    if size < RegionSafety.INT_LIMIT {
      RegionSafety.IntSize(size);
    }
    hide Space.Int32, Low32;
  }

  lemma AllocIsDone(m: Memory.Sys, op: MemOp)
    requires Allowed(m, op) && op.AllocOp? && op.found
    ensures AllocDone(m, Apply(m, op), op.pid, op.rgid, op.size)
  {
    hide Space.Alloc, Space.Kmalloc, Space.Free, InDevices, Memory.Store, Space.InitMm, RegionSafety.Safe;
    hide RegionSafety.Sound, RegionSafety.UserGuard, SymbolGiven, Memory.Fetch;
    GivenSymbol(m.spaces[op.pid], m.frames, true, op.rgid, op.size);
    if RegionSafety.Safe(m.spaces[op.pid]) {
      RegionSafety.AllocSoundIff(m.spaces[op.pid], m.frames, true, op.rgid, op.size);
    }
  }

  lemma KmallocIsDone(m: Memory.Sys, op: MemOp)
    requires Allowed(m, op) && op.KmallocOp? && op.found
    ensures KmallocDone(m, Apply(m, op), op.rgid, op.size)
  {
    hide Space.Alloc, Space.Kmalloc, Space.Free, InDevices, Memory.Fetch, Memory.Store, Space.InitMm, RegionSafety.Safe;
    hide RegionSafety.Sound, RegionSafety.KernelGuard, SymbolGiven;
    var sp := m.spaces[KERNEL];
    GivenSymbol(sp, m.frames, true, op.rgid, op.size);
    if RegionSafety.Safe(sp) && sp.sbrk < RegionSafety.BREAK_LIMIT {
      RegionSafety.KmallocSoundIff(sp, m.frames, true, op.rgid, op.size);
    }
  }

  lemma FreeIsDone(m: Memory.Sys, op: MemOp)
    requires Allowed(m, op) && op.FreeOp?
    ensures FreeDone(m, Apply(m, op), op.pid, op.rgid)
  {
    hide Space.Alloc, Space.Kmalloc, InDevices, Memory.Fetch, Memory.Store, Space.InitMm, RegionSafety.Covers, Space.Enlist;
    var sp := m.spaces[op.pid];
    forall x
      ensures RegionSafety.Covers(Space.Enlist(sp.free, sp.sym[op.rgid]), x)
              <==> RegionSafety.Covers(sp.free, x) || RegionSafety.Within(sp.sym[op.rgid], x)
    {
      RegionSafety.EnlistCovers(sp.free, sp.sym[op.rgid], x);
    }
    assert !Space.Live(sp.sym[op.rgid]) ==> m.spaces[op.pid := sp] == m.spaces;
  }

  // ----- The instructions -----

  /** What an instruction of process pid does to memory. */
  ghost predicate Effect(m: Memory.Sys, m': Memory.Sys, pid: nat, ins: Ins) {
    pid in m.spaces && |m.spaces[pid].sym| == Space.SYMBOLS &&
    match ins
    case CalcIns => m' == m
    case AllocIns(rgid, size) => AllocDone(m, m', pid, rgid, size)
    case FreeIns(rgid) => if rgid < Space.SYMBOLS then FreeDone(m, m', pid, rgid) else m' == m
    case KmallocIns(rgid, size) => KmallocDone(m, m', rgid, size)
    case ReadIns(rgid, offset) =>
      if rgid < Space.SYMBOLS && m.spaces[pid].sym[rgid] != Space.Region(0, 0)
         && AddressOf(m, pid, rgid, offset) < m.spaces[pid].sym[rgid].end
      then Loaded(m, m', pid, AddressOf(m, pid, rgid, offset))
      else m' == m
    case WriteIns(rgid, offset, value) =>
      if rgid < Space.SYMBOLS then Stored(m, m', pid, AddressOf(m, pid, rgid, offset), value) else m' == m
  }

  lemma OpDone(m: Memory.Sys, n: nat, pid: nat, ins: Ins, op: Option<MemOp>)
    requires Contained(m, n) && KERNEL in m.spaces && pid in m.spaces && pid != KERNEL && InsOk(ins)
    requires |m.spaces[pid].sym| == Space.SYMBOLS && op == OpOf(m, pid, true, ins)
    ensures op.Some? ==> Allowed(m, op.value)
    ensures Effect(m, if op.Some? then Apply(m, op.value) else m, pid, ins)
  {
    hide Contained, Allowed, Apply, AllocDone, KmallocDone, FreeDone, Loaded, Stored;
    OpAllowed(m, n, pid, true, ins);
    match ins
    case CalcIns =>
    case AllocIns(_, _) => AllocIsDone(m, op.value);
    case FreeIns(_) => if op.Some? { FreeIsDone(m, op.value); }
    case KmallocIns(_, _) => KmallocIsDone(m, op.value);
    case ReadIns(_, _) => if op.Some? { LoadDone(m, n, op.value); }
    case WriteIns(_, _, _) => if op.Some? { StoreDone(m, n, op.value); }
  }

  /**
   Every instruction, in every state the whole system reaches: when a CPU that has read instruction
   `at` of process p moves on, memory changes as that instruction of p's program says.
   */
  lemma {:induction false} InstructionDone(k: Config, code: Programs, n: nat, w: Whole, c: nat, p: Pcb, at: nat)
    requires ProgramsOk(k, code) && WholeInv(k, w) && Contained(w.mem, n)
    requires c < |w.os.cpus| && w.os.cpus[c].held == Some(p) && w.os.cpus[c].pc == Fetched(at)
    ensures p in code && at < |code[p]| && Able(k, code, w, Go(c))
    ensures Effect(w.mem, Next(k, code, w, Go(c)).mem, p.pid, code[p][at])
  {
    hide Inv, Contained, OpOf, Allowed, Apply, Effect, Krnl.Running, CpuRuns.CanRun, Do;
    InvOwned(k, w);
    CpuRuns.NeverStuck(k, w.os, Go(c));
    EffectAllowed(k, code, n, w, Go(c));
    EffectMeans(k, code, w, Go(c));
    var i := RunsLoaded(k, code, w, Go(c));
    assert ProgramOk(code, k.procs[i]);
    OpDone(w.mem, n, p.pid, code[p][at], System.Effect(k, code, w, Go(c)));
  }

  lemma InvOwned(k: Config, w: Whole)
    requires WholeInv(k, w)
    ensures Owned(k, w.os)
  {
  }

  /** Any other step leaves memory alone, except that loading gives the next process an empty space. */
  lemma {:induction false} OtherwiseQuiet(k: Config, code: Programs, w: Whole, step: Step)
    requires Able(k, code, w, step)
    requires !(step.Go? && step.c < |w.os.cpus| && w.os.cpus[step.c].pc.Fetched? && w.os.cpus[step.c].held.Some?)
    ensures var m' := Next(k, code, w, step).mem;
      if step.Load? then
        && k.procs[w.os.loaded].pid !in w.mem.spaces
        && m' == w.mem.(spaces := m'.spaces)
        && m'.spaces == w.mem.spaces[k.procs[w.os.loaded].pid := m'.spaces[k.procs[w.os.loaded].pid]]
        && var sp := m'.spaces[k.procs[w.os.loaded].pid];
           sp.vmStart == sp.vmEnd == sp.sbrk == 0 && sp.pte == map[] && sp.fifo == []
           && sp.free == [Space.Region(0, 0)] && sp.sym == seq(Space.SYMBOLS, _ => Space.Region(0, 0))
      else m' == w.mem
  {
    hide Do, Krnl.Running;
    if step.Load? {
      LoadMeans(w.mem, LoadOp(k.procs[w.os.loaded].pid));
    }
  }
}
