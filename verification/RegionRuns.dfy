/** Region safety and the byte ledger over whole runs. */
module RegionRuns {
  import opened Paging
  import opened PageTable
  import opened Space
  import opened Memory
  import RegionSafety

  ghost predicate AllSafe(s: Sys) {
    forall pid :: pid in s.spaces ==> RegionSafety.Safe(s.spaces[pid])
  }

  /** The condition under which an allocation is sound; nothing else can go wrong. */
  predicate Guarded(s: Sys, op: MemOp)
    requires Allowed(s, op)
  {
    hide InDevices;
    match op
    case AllocOp(pid, found, _, size) => RegionSafety.UserGuard(s.spaces[pid], found, size)
    case KmallocOp(found, rgid, size) =>
      RegionSafety.KernelGuard(s.spaces[KERNEL], found, rgid, size) && s.spaces[KERNEL].sbrk < RegionSafety.BREAK_LIMIT
    case _ => true
  }

  predicate GuardedRun(s: Sys, ops: seq<MemOp>)
    requires AllowedRun(s, ops)
    decreases |ops|
  {
    ops != [] ==> Guarded(s, ops[0]) && GuardedRun(Apply(s, ops[0]), ops[1..])
  }

  /** The bytes of one space that one operation loses: what it overwrites and what it rounds up. */
  function Loss(s: Sys, op: MemOp, pid: nat): int
    requires Allowed(s, op)
  {
    hide InDevices, RegionSafety.UserGuard;
    match op
    case AllocOp(q, _, rgid, size) =>
      if q != pid || rgid >= |s.spaces[q].sym| then 0
      else RegionSafety.Len(s.spaces[q].sym[rgid]) + GrowthLoss(s.spaces[q], size)
    case KmallocOp(found, rgid, size) =>
      if pid != KERNEL then 0
      else if rgid < |s.spaces[KERNEL].sym| then
        RegionSafety.Len(s.spaces[KERNEL].sym[rgid]) + GrowthLoss(s.spaces[KERNEL], size)
      else if TakeRegion(s.spaces[KERNEL].free, Int32(size)).ok then size
      else if found then AlignUp(size) else 0
    case _ => 0
  }

  function GrowthLoss(sp: Space, size: nat): int {
    if TakeRegion(sp.free, Int32(size)).ok then 0 else RegionSafety.Rounding(size)
  }

  function TotalLoss(s: Sys, ops: seq<MemOp>, pid: nat): int
    requires AllowedRun(s, ops)
    decreases |ops|
  {
    if ops == [] then 0 else Loss(s, ops[0], pid) + TotalLoss(Apply(s, ops[0]), ops[1..], pid)
  }

  function LostIn(s: Sys, pid: nat): int {
    if pid in s.spaces then RegionSafety.Lost(s.spaces[pid]) else 0
  }

  function BreakOf(s: Sys, pid: nat): nat {
    if pid in s.spaces then s.spaces[pid].sbrk else 0
  }

  /** The most by which an operation can move the break of a space. */
  function Asked(op: MemOp, pid: nat): nat {
    match op
    case AllocOp(q, _, _, size) => if q == pid then size + PAGESZ64 - 1 else 0
    case KmallocOp(_, _, size) => if pid == KERNEL then size + PAGESZ64 - 1 else 0
    case _ => 0
  }

  // ----- One allocation in one space -----

  /** What one guarded allocation does to the bytes and the break of its space. */
  lemma UserStep(sp: Space, frames: seq<nat>, found: bool, rgid: nat, size: nat)
    requires RegionSafety.Safe(sp) && rgid < SYMBOLS && RegionSafety.UserGuard(sp, found, size)
    ensures var sp' := Alloc(sp, frames, found, rgid, size).0;
      && RegionSafety.Safe(sp') && |sp.sym| == SYMBOLS
      && RegionSafety.Lost(sp') == RegionSafety.Lost(sp) + RegionSafety.Len(sp.sym[rgid]) + GrowthLoss(sp, size)
      && sp.sbrk <= sp'.sbrk <= sp.sbrk + size + PAGESZ64 - 1
  {
    hide TakeRegion, Alloc, Kmalloc, Int32, AlignUp, RegionSafety.Safe, RegionSafety.Lost, RegionSafety.Len;
    RegionSafety.SafeShape(sp);
    if TakeRegion(sp.free, Int32(size)).ok {
      RegionSafety.ReuseAlone(sp, frames, found, rgid, size);
      RegionSafety.AllocatedReuse(sp, frames, rgid, size);
    } else {
      RegionSafety.UserIsKernel(sp, frames, found, rgid, size);
      RegionSafety.AllocatedGrow(sp, frames, rgid, size);
      RegionSafety.RoundUp(size);
    }
    RegionSafety.SafeShape(Alloc(sp, frames, found, rgid, size).0);
  }

  lemma KernelStep(sp: Space, frames: seq<nat>, found: bool, rgid: nat, size: nat)
    requires RegionSafety.Safe(sp) && rgid < SYMBOLS && size < RegionSafety.SIZE_LIMIT
    requires RegionSafety.KernelGuard(sp, found, rgid, size) && sp.sbrk < RegionSafety.BREAK_LIMIT
    ensures var sp' := Kmalloc(sp, frames, found, rgid, size).0;
      && RegionSafety.Safe(sp') && |sp.sym| == SYMBOLS
      && RegionSafety.Lost(sp') == RegionSafety.Lost(sp) + RegionSafety.Len(sp.sym[rgid]) + GrowthLoss(sp, size)
      && sp.sbrk <= sp'.sbrk <= sp.sbrk + size + PAGESZ64 - 1
  {
    hide TakeRegion, Alloc, Kmalloc, Int32, AlignUp, RegionSafety.Safe, RegionSafety.Lost, RegionSafety.Len;
    RegionSafety.SafeShape(sp);
    if TakeRegion(sp.free, Int32(size)).ok {
      RegionSafety.ReuseAlone(sp, frames, found, rgid, size);
      RegionSafety.AllocatedReuse(sp, frames, rgid, size);
    } else {
      RegionSafety.AllocatedGrow(sp, frames, rgid, size);
      RegionSafety.RoundUp(size);
    }
    RegionSafety.SafeShape(Kmalloc(sp, frames, found, rgid, size).0);
  }

  lemma UnrecordedStep(sp: Space, frames: seq<nat>, found: bool, rgid: nat, size: nat)
    requires RegionSafety.Safe(sp) && rgid >= SYMBOLS && size < RegionSafety.SIZE_LIMIT
    requires RegionSafety.KernelGuard(sp, found, rgid, size) && sp.sbrk < RegionSafety.BREAK_LIMIT
    ensures var sp' := Kmalloc(sp, frames, found, rgid, size).0;
      && RegionSafety.Safe(sp') && |sp.sym| == SYMBOLS
      && RegionSafety.Lost(sp') == RegionSafety.Lost(sp)
         + (if TakeRegion(sp.free, Int32(size)).ok then size else if found then AlignUp(size) else 0)
      && sp.sbrk <= sp'.sbrk <= sp.sbrk + size + PAGESZ64 - 1
  {
    hide TakeRegion, Kmalloc, Int32, AlignUp, RegionSafety.Safe, RegionSafety.Lost;
    RegionSafety.SafeShape(sp);
    RegionSafety.AllocatedUnrecorded(sp, frames, found, rgid, size);
    RegionSafety.RoundUp(size);
    RegionSafety.SafeShape(Kmalloc(sp, frames, found, rgid, size).0);
  }

  // ----- Every step -----

  /** What an access leaves of a space: everything but page table and page FIFO. */
  lemma AccessRegions(s: Sys, op: MemOp, q: nat)
    requires Allowed(s, op) && (op.ReadOp? || op.WriteOp?) && q in s.spaces
    ensures q in Apply(s, op).spaces
    ensures var sp, sp' := s.spaces[q], Apply(s, op).spaces[q];
      sp' == sp.(pte := sp'.pte, fifo := sp'.fifo)
  {
    hide PagePresent, PteFpn, PteSwpOff, Low32, WithFpn, WithSwap, SwapAfter, Translate, Pgn;
  }

  lemma RegionsKeep(sp: Space, sp': Space)
    requires RegionSafety.Safe(sp) && sp' == sp.(pte := sp'.pte, fifo := sp'.fifo)
    ensures RegionSafety.Safe(sp') && RegionSafety.Lost(sp') == RegionSafety.Lost(sp)
  {
  }

  lemma SameSpaces(s: Sys, op: MemOp)
    requires Allowed(s, op) && (op.ReadOp? || op.WriteOp?)
    ensures Apply(s, op).spaces.Keys == s.spaces.Keys
  {
    hide PagePresent, PteFpn, PteSwpOff, Low32, Evict, SwapAfter, Translate, Pgn;
  }

  /** One step: its space stays safe, its loss is exactly what it accounts for, its break moves by what it asks. */
  lemma StepSafe(s: Sys, op: MemOp, pid: nat)
    requires AllSafe(s) && Allowed(s, op) && Guarded(s, op)
    ensures AllSafe(Apply(s, op))
    ensures LostIn(Apply(s, op), pid) == LostIn(s, pid) + Loss(s, op, pid)
    ensures BreakOf(Apply(s, op), pid) <= BreakOf(s, pid) + Asked(op, pid)
  {
    hide Alloc, Kmalloc, Free, TakeRegion, GrowthLoss, AlignUp, Int32, RegionSafety.Lost, RegionSafety.Len, RegionSafety.Safe;
    hide RegionSafety.UserGuard, RegionSafety.KernelGuard, InDevices, Fetch, Store, InitMm;
    match op
    case AllocOp(q, found, rgid, size) =>
      UserStep(s.spaces[q], s.frames, found, rgid, size);
    case KmallocOp(found, rgid, size) =>
      RegionSafety.SafeShape(s.spaces[KERNEL]);
      if rgid < SYMBOLS {
        KernelStep(s.spaces[KERNEL], s.frames, found, rgid, size);
      } else {
        UnrecordedStep(s.spaces[KERNEL], s.frames, found, rgid, size);
      }
    case FreeOp(q, rgid) =>
      RegionSafety.SafeShape(s.spaces[q]);
      RegionSafety.Freed(s.spaces[q], rgid);
      FreeBreak(s.spaces[q], rgid);
    case LoadOp(q) =>
      RegionSafety.InitSafe(false);
      FreshBreak();
    case ReadOp(_, _) =>
      AccessSafe(s, op, pid);
    case WriteOp(_, _, _) =>
      AccessSafe(s, op, pid);
  }

  lemma FreeBreak(sp: Space, rgid: nat)
    requires rgid < |sp.sym|
    ensures Free(sp, rgid).sbrk == sp.sbrk
  {
  }

  lemma FreshBreak()
    ensures InitMm(false).sbrk == 0
  {
  }

  lemma AccessSafe(s: Sys, op: MemOp, pid: nat)
    requires AllSafe(s) && Allowed(s, op) && (op.ReadOp? || op.WriteOp?)
    ensures AllSafe(Apply(s, op))
    ensures LostIn(Apply(s, op), pid) == LostIn(s, pid) && BreakOf(Apply(s, op), pid) == BreakOf(s, pid)
  {
    hide Apply, Allowed, RegionSafety.Safe, RegionSafety.Lost;
    SameSpaces(s, op);
    forall q | q in s.spaces
      ensures q in Apply(s, op).spaces && RegionSafety.Safe(Apply(s, op).spaces[q])
      ensures RegionSafety.Lost(Apply(s, op).spaces[q]) == RegionSafety.Lost(s.spaces[q])
      ensures Apply(s, op).spaces[q].sbrk == s.spaces[q].sbrk
    {
      AccessRegions(s, op, q);
      RegionsKeep(s.spaces[q], Apply(s, op).spaces[q]);
    }
  }

  /** The space that a step allocates in. */
  function Allocating(op: MemOp): nat
    requires op.AllocOp? || op.KmallocOp?
  {
    if op.AllocOp? then op.pid else KERNEL
  }

  /** For every allocation from a safe memory: it is sound if and only if it is guarded. */
  lemma {:induction false} SoundIff(s: Sys, op: MemOp)
    requires AllSafe(s) && Allowed(s, op) && (op.AllocOp? || op.KmallocOp?)
    requires op.KmallocOp? ==> s.spaces[KERNEL].sbrk < RegionSafety.BREAK_LIMIT
    ensures Allocating(op) in s.spaces && Allocating(op) in Apply(s, op).spaces
    ensures RegionSafety.Sound(s.spaces[Allocating(op)], Apply(s, op).spaces[Allocating(op)], op.rgid, op.size) <==> Guarded(s, op)
  {
    hide Alloc, Kmalloc, RegionSafety.Safe, RegionSafety.UserGuard, RegionSafety.KernelGuard, RegionSafety.Sound, InDevices, Fetch, Store;
    if op.AllocOp? {
      RegionSafety.AllocSoundIff(s.spaces[op.pid], s.frames, op.found, op.rgid, op.size);
    } else {
      RegionSafety.KmallocSoundIff(s.spaces[KERNEL], s.frames, op.found, op.rgid, op.size);
    }
  }

  /**
   Over every guarded run: regions stay safe in every space, and the bytes of a space that are
   neither live nor free are exactly those the run lost.
   */
  lemma {:induction false} RunSafe(s: Sys, ops: seq<MemOp>, pid: nat)
    requires AllSafe(s) && AllowedRun(s, ops) && GuardedRun(s, ops)
    ensures AllSafe(ApplyAll(s, ops))
    ensures LostIn(ApplyAll(s, ops), pid) == LostIn(s, pid) + TotalLoss(s, ops, pid)
    decreases |ops|
  {
    hide Apply, Allowed, Guarded, AllSafe, Loss, LostIn, BreakOf;
    if ops != [] {
      StepSafe(s, ops[0], pid);
      RunSafe(Apply(s, ops[0]), ops[1..], pid);
    }
  }

  /** A step never gains bytes; beyond the region it overwrites, an allocation loses less than a page. */
  lemma LossBounds(s: Sys, op: MemOp, pid: nat)
    requires AllSafe(s) && Allowed(s, op) && Guarded(s, op)
    ensures Loss(s, op, pid) >= 0
    ensures op.AllocOp? && op.pid == pid && op.rgid < |s.spaces[pid].sym|
            ==> Loss(s, op, pid) < RegionSafety.Len(s.spaces[pid].sym[op.rgid]) + PAGESZ64
  {
    hide TakeRegion, RegionSafety.Rounding, InDevices, Int32, AlignUp;
    if (op.AllocOp? || op.KmallocOp?) && op.size < RegionSafety.SIZE_LIMIT {
      RegionSafety.RoundingBound(op.size);
      RegionSafety.RoundUp(op.size);
    }
    if op.AllocOp? {
      assert RegionSafety.Safe(s.spaces[op.pid]);
    } else if op.KmallocOp? {
      assert RegionSafety.Safe(s.spaces[KERNEL]);
    }
  }

  // ----- Ends that wrap around -----

  /** Every space ends at or above its start. */
  ghost predicate EndsOk(s: Sys) {
    forall pid :: pid in s.spaces ==> s.spaces[pid].vmStart <= s.spaces[pid].vmEnd
  }

  /** A growth is refused rather than letting the end wrap around to the start or below. */
  lemma GrowEnds(sp: Space, frames: seq<nat>, size: nat)
    requires sp.vmStart <= sp.vmEnd
    ensures Grow(sp, frames, size).0.vmStart == sp.vmStart <= Grow(sp, frames, size).0.vmEnd
  {
    hide MapPages, PushPages, AlignUp, Wrap64;
  }

  lemma AllocEnds(sp: Space, frames: seq<nat>, found: bool, rgid: nat, size: nat)
    requires sp.vmStart <= sp.vmEnd
    ensures var a, b := Alloc(sp, frames, found, rgid, size).0, Kmalloc(sp, frames, found, rgid, size).0;
      a.vmStart == b.vmStart == sp.vmStart && sp.vmStart <= a.vmEnd && sp.vmStart <= b.vmEnd
  {
    hide TakeRegion, Grow, Int32, Wrap64, Low32;
    GrowEnds(sp.(free := TakeRegion(sp.free, Int32(size)).free), frames, Low32(size));
  }

  lemma StepEnds(s: Sys, op: MemOp)
    requires Allowed(s, op) && EndsOk(s)
    ensures EndsOk(Apply(s, op))
  {
    if op.ReadOp? || op.WriteOp? {
      hide Allowed, Apply;
      SameSpaces(s, op);
      forall q | q in s.spaces
        ensures q in Apply(s, op).spaces && Apply(s, op).spaces[q].vmStart <= Apply(s, op).spaces[q].vmEnd
      {
        AccessRegions(s, op, q);
      }
    } else {
      hide Alloc, Kmalloc, InDevices, Fetch, Store, Enlist;
      match op
      case AllocOp(pid, found, rgid, size) => AllocEnds(s.spaces[pid], s.frames, found, rgid, size);
      case KmallocOp(found, rgid, size) => AllocEnds(s.spaces[KERNEL], s.frames, found, rgid, size);
      case _ =>
    }
  }

  lemma {:induction false} RunEnds(s: Sys, ops: seq<MemOp>)
    requires EndsOk(s) && AllowedRun(s, ops)
    ensures EndsOk(ApplyAll(s, ops))
    decreases |ops|
  {
    hide Apply, Allowed, EndsOk;
    if ops != [] {
      StepEnds(s, ops[0]);
      RunEnds(Apply(s, ops[0]), ops[1..]);
    }
  }

  /** In every run from boot, sound or not and however often the break wraps around, no space ends below its start. */
  lemma {:induction false} EndsFromBoot(maxSize: nat, swapSize: nat, ops: seq<MemOp>)
    requires AllowedRun(Boot(maxSize, swapSize), ops)
    ensures EndsOk(ApplyAll(Boot(maxSize, swapSize), ops))
  {
    assert EndsOk(Boot(maxSize, swapSize));
    hide Boot, AllowedRun, ApplyAll, EndsOk;
    RunEnds(Boot(maxSize, swapSize), ops);
  }

  // ----- Empty regions -----

  /** Every free region has bytes, except perhaps the last of the list. */
  ghost predicate OnlyLastEmpty(free: seq<Region>) {
    forall i :: 0 <= i < |free| - 1 ==> free[i].start < free[i].end
  }

  /** A region that is used up leaves the list, unless nothing comes behind it. */
  lemma CarveOnlyLast(free: seq<Region>, k: nat, size: nat)
    requires k < |free| && OnlyLastEmpty(free) && Fits(free[k], size) && free[k].start + size < WORD64
    ensures OnlyLastEmpty(Carve(free, k, size))
    ensures k + 1 < |free| && free[k].start + size == free[k].end ==> |Carve(free, k, size)| == |free| - 1
    ensures !(k + 1 < |free| && free[k].start + size == free[k].end) ==> |Carve(free, k, size)| == |free|
  {
    RegionSafety.NoWrap(free[k].start + size);
    var carved := Carve(free, k, size);
    forall i | 0 <= i < |carved| - 1
      ensures carved[i].start < carved[i].end
    {
      assert carved[i] == free[i] || (i + 1 < |free| && carved[i] == free[i + 1]) || i == k;
    }
  }

  lemma TakeOnlyLast(sp: Space, size: nat)
    requires RegionSafety.Safe(sp) && OnlyLastEmpty(sp.free) && (TakeRegion(sp.free, Int32(size)).ok ==> size < RegionSafety.INT_LIMIT)
    ensures OnlyLastEmpty(TakeRegion(sp.free, Int32(size)).free)
  {
    hide RegionSafety.Safe, OnlyLastEmpty, Int32, TakeRegion, Carve;
    if TakeRegion(sp.free, Int32(size)).ok {
      RegionSafety.TakeMeans(sp, size);
      FreeBounds(sp, FirstFit(sp.free, size));
      CarveOnlyLast(sp.free, FirstFit(sp.free, size), size);
    } else {
      RegionSafety.TakeMisses(sp, size);
    }
  }

  lemma FreeBounds(sp: Space, k: nat)
    requires RegionSafety.Safe(sp)
    ensures k < |sp.free| ==> sp.free[k].start <= sp.vmEnd < RegionSafety.END_LIMIT
  {
  }

  lemma SameFreeGrow(sp: Space, frames: seq<nat>, size: nat)
    requires RegionSafety.Safe(sp) && 0 < size < RegionSafety.SIZE_LIMIT && sp.sbrk < RegionSafety.BREAK_LIMIT
    ensures Grow(sp, frames, size).0.free == sp.free
  {
    hide RegionSafety.Safe, Grow;
    RegionSafety.GrowthKeeps(sp, frames, size);
  }

  lemma AllocFree(sp: Space, frames: seq<nat>, found: bool, rgid: nat, size: nat)
    requires RegionSafety.Safe(sp) && sp.sbrk < RegionSafety.BREAK_LIMIT && size < RegionSafety.SIZE_LIMIT
    ensures Alloc(sp, frames, found, rgid, size).0.free == TakeRegion(sp.free, Int32(size)).free
    ensures Kmalloc(sp, frames, found, rgid, size).0.free == TakeRegion(sp.free, Int32(size)).free
  {
    hide RegionSafety.Safe, Grow, TakeRegion, Int32;
    if !TakeRegion(sp.free, Int32(size)).ok {
      RegionSafety.TakeMisses(sp, size);
      RegionSafety.CutSize(size);
      SameFreeGrow(sp, frames, size);
    }
  }

  ghost predicate AllOnlyLast(s: Sys) {
    forall pid :: pid in s.spaces ==> OnlyLastEmpty(s.spaces[pid].free)
  }

  lemma UserSizes(s: Sys, op: MemOp)
    requires AllSafe(s) && Allowed(s, op) && Guarded(s, op) && (op.AllocOp? || op.KmallocOp?)
    ensures Allocating(op) in s.spaces && RegionSafety.Safe(s.spaces[Allocating(op)])
    ensures TakeRegion(s.spaces[Allocating(op)].free, Int32(op.size)).ok ==> op.size < RegionSafety.INT_LIMIT
    ensures !TakeRegion(s.spaces[Allocating(op)].free, Int32(op.size)).ok ==>
      op.size < RegionSafety.SIZE_LIMIT && s.spaces[Allocating(op)].sbrk < RegionSafety.BREAK_LIMIT
  {
    hide RegionSafety.Safe, TakeRegion, Int32, InDevices;
  }

  lemma AllocOnlyLast(sp: Space, frames: seq<nat>, found: bool, rgid: nat, size: nat)
    requires RegionSafety.Safe(sp) && OnlyLastEmpty(sp.free)
    requires TakeRegion(sp.free, Int32(size)).ok ==> size < RegionSafety.INT_LIMIT
    requires !TakeRegion(sp.free, Int32(size)).ok ==> size < RegionSafety.SIZE_LIMIT && sp.sbrk < RegionSafety.BREAK_LIMIT
    ensures OnlyLastEmpty(Alloc(sp, frames, found, rgid, size).0.free)
    ensures OnlyLastEmpty(Kmalloc(sp, frames, found, rgid, size).0.free)
  {
    hide RegionSafety.Safe, OnlyLastEmpty, Grow, TakeRegion, Int32;
    TakeOnlyLast(sp, size);
    if !TakeRegion(sp.free, Int32(size)).ok {
      AllocFree(sp, frames, found, rgid, size);
    }
  }

  lemma FreeOnlyLast(sp: Space, rgid: nat)
    requires rgid < |sp.sym| && OnlyLastEmpty(sp.free)
    ensures OnlyLastEmpty(Free(sp, rgid).free)
  {
  }

  lemma StepOnlyLast(s: Sys, op: MemOp)
    requires AllSafe(s) && AllOnlyLast(s) && Allowed(s, op) && Guarded(s, op)
    ensures AllOnlyLast(Apply(s, op))
  {
    if op.ReadOp? || op.WriteOp? {
      hide Allowed, Apply, OnlyLastEmpty;
      SameSpaces(s, op);
      forall q | q in s.spaces
        ensures q in Apply(s, op).spaces && OnlyLastEmpty(Apply(s, op).spaces[q].free)
      {
        AccessRegions(s, op, q);
      }
    } else if op.AllocOp? || op.KmallocOp? {
      hide Alloc, Kmalloc, Fetch, Store, InDevices, OnlyLastEmpty, AllSafe, Guarded, TakeRegion, Int32, RegionSafety.Safe, Free, InitMm;
      UserSizes(s, op);
      AllocOnlyLast(s.spaces[Allocating(op)], s.frames, op.found, op.rgid, op.size);
    } else {
      hide Fetch, Store, InDevices, Alloc, Kmalloc, Free;
      if op.FreeOp? {
        FreeOnlyLast(s.spaces[op.pid], op.rgid);
      }
    }
  }

  /** Over every sound run: free lists hold no empty region but perhaps a last one. */
  lemma {:induction false} RunOnlyLast(s: Sys, ops: seq<MemOp>)
    requires AllSafe(s) && AllOnlyLast(s) && AllowedRun(s, ops) && GuardedRun(s, ops)
    ensures AllOnlyLast(ApplyAll(s, ops))
    decreases |ops|
  {
    hide Apply, Allowed, Guarded, AllSafe, AllOnlyLast;
    if ops != [] {
      StepSafe(s, ops[0], KERNEL);
      StepOnlyLast(s, ops[0]);
      RunOnlyLast(Apply(s, ops[0]), ops[1..]);
    }
  }

  lemma BootOnlyLast(maxSize: nat, swapSize: nat)
    ensures AllOnlyLast(Boot(maxSize, swapSize)) && AllSafe(Boot(maxSize, swapSize))
  {
    hide RegionSafety.Safe;
    RegionSafety.InitSafe(true);
  }

  /** So from boot on, as long as allocations are sound. */
  lemma {:induction false} OnlyLastFromBoot(maxSize: nat, swapSize: nat, ops: seq<MemOp>)
    requires AllowedRun(Boot(maxSize, swapSize), ops) && GuardedRun(Boot(maxSize, swapSize), ops)
    ensures AllOnlyLast(ApplyAll(Boot(maxSize, swapSize), ops))
  {
    hide Boot, AllowedRun, ApplyAll, GuardedRun, AllSafe, AllOnlyLast;
    BootOnlyLast(maxSize, swapSize);
    RunOnlyLast(Boot(maxSize, swapSize), ops);
  }
}
