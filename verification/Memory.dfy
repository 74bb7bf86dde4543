/**
 Many address spaces over one physical memory and one swap device, as a value: what every memory
 operation of src/libmem.c does to all of them.  Space 0 is the kernel's; the others are keyed by
 process id.
 */
module Memory {
  import opened Bits
  import opened Paging
  import opened PageTable
  import opened Seqs
  import opened Space
  import MemPhy

  type Byte = MemPhy.Byte

  const KERNEL: nat := 0

  /** The active swap device: its free frames and its bytes. */
  datatype Swap = Swap(free: seq<nat>, storage: seq<Byte>)

  datatype Sys = Sys(spaces: map<nat, Space>, frames: seq<nat>, storage: seq<Byte>, swap: Swap)

  // ----- Pages -----

  predicate Mapped(s: Sys, pid: nat, p: nat) {
    pid in s.spaces && p in s.spaces[pid].pte && PagePresent(s.spaces[pid].pte[p])
  }

  /** The frame of a mapped page. */
  function FrameOf(s: Sys, pid: nat, p: nat): nat {
    if pid in s.spaces && p in s.spaces[pid].pte then PteFpn(s.spaces[pid].pte[p]) else 0
  }

  /** The page counts as present; otherwise an access takes the fault branch. */
  predicate PageIn(s: Sys, pid: nat, pgn: nat)
    requires pid in s.spaces
  {
    PagePresent(PteOf(s.spaces[pid], pgn))
  }

  /** The fault branch finds a victim page and a free swap frame. */
  predicate Evicts(s: Sys, pid: nat, pgn: nat)
    requires pid in s.spaces
  {
    !PageIn(s, pid, pgn) && s.spaces[pid].fifo != [] && s.swap.free != []
  }

  /** The frame the victim gives up. */
  function VictimFrame(s: Sys, pid: nat): nat
    requires pid in s.spaces && s.spaces[pid].fifo != []
  {
    PteFpn(PteOf(s.spaces[pid], Victim(s.spaces[pid])))
  }

  /** The swap frame that the missing page's own entry names. */
  function TargetFrame(s: Sys, pid: nat, pgn: nat): nat
    requires pid in s.spaces
  {
    PteSwpOff(PteOf(s.spaces[pid], pgn))
  }

  /** An eviction copies only between frames that exist. */
  predicate Backed(s: Sys, pid: nat, pgn: nat)
    requires pid in s.spaces
  {
    Evicts(s, pid, pgn) ==>
      && (VictimFrame(s, pid) + 1) * PAGESZ <= |s.storage|
      && (s.swap.free[0] + 1) * PAGESZ <= |s.swap.storage|
      && (TargetFrame(s, pid, pgn) + 1) * PAGESZ <= |s.swap.storage|
  }

  /** SYSMEM_SWP_OP: always from RAM to swap. */
  function SwappedOut(swap: Swap, storage: seq<Byte>, from: nat, to: nat): Swap
    requires (from + 1) * PAGESZ <= |storage| && (to + 1) * PAGESZ <= |swap.storage|
  {
    swap.(storage := MemPhy.CopyFrame(storage, from, swap.storage, to))
  }

  /** Both copies of an eviction; then the target's swap frame becomes free. */
  function SwapAfter(s: Sys, pid: nat, pgn: nat): Swap
    requires pid in s.spaces && Evicts(s, pid, pgn) && Backed(s, pid, pgn)
  {
    hide PageIn, VictimFrame, TargetFrame;
    var vic, tgt := VictimFrame(s, pid), TargetFrame(s, pid, pgn);
    var taken := s.swap.(free := s.swap.free[1..]);
    var twice := SwappedOut(SwappedOut(taken, s.storage, vic, s.swap.free[0]), s.storage, vic, tgt);
    twice.(free := [tgt] + twice.free)
  }

  /** pg_getpage: nothing for a page that is in; else an eviction, or a failure that may cost the victim its place. */
  function Paged(s: Sys, pid: nat, pgn: nat): Sys
    requires pid in s.spaces && Backed(s, pid, pgn)
  {
    var sp := s.spaces[pid];
    if PageIn(s, pid, pgn) || sp.fifo == [] then s
    else if s.swap.free == [] then s.(spaces := s.spaces[pid := Popped(sp)])
    else s.(spaces := s.spaces[pid := Evict(sp, pgn, s.swap.free[0])], swap := SwapAfter(s, pid, pgn))
  }

  /** An access never touches the free frames and the bytes of RAM before its page is in. */
  lemma PagedKeeps(s: Sys, pid: nat, pgn: nat)
    requires pid in s.spaces && Backed(s, pid, pgn)
    ensures var r := Paged(s, pid, pgn);
      && r.spaces.Keys == s.spaces.Keys && r.frames == s.frames && r.storage == s.storage
      && |r.swap.storage| == |s.swap.storage|
      && (forall q :: q in s.spaces && q != pid ==> r.spaces[q] == s.spaces[q])
      && (PageIn(s, pid, pgn) ==> r == s)
  {
    hide PageIn, Evict, VictimFrame, TargetFrame, MemPhy.CopyFrame;
  }

  // ----- Bytes -----

  /** The physical address behind an address of a process, if its page is present. */
  function Translate(s: Sys, pid: nat, addr: nat): (phys: int)
    requires pid in s.spaces
  {
    var pte := PteOf(s.spaces[pid], Pgn(addr));
    if PagePresent(pte) then PhysAddr(PteFpn(pte), addr) else -1
  }

  /** Every byte that an access touches exists. */
  predicate InDevices(s: Sys, pid: nat, addr: nat)
    requires pid in s.spaces
  {
    Backed(s, pid, Pgn(addr)) &&
    var r := Paged(s, pid, Pgn(addr));
    pid in r.spaces && Translate(r, pid, addr) < |r.storage|
  }

  /** The store itself, behind pg_getpage; without a page there is none. */
  function Write(s: Sys, pid: nat, addr: nat, value: Byte): (r: Sys)
    requires pid in s.spaces && Translate(s, pid, addr) < |s.storage|
    ensures r.spaces == s.spaces && r.frames == s.frames && |r.storage| == |s.storage| && r.swap == s.swap
  {
    var phys := Translate(s, pid, addr);
    if 0 <= phys then s.(storage := s.storage[phys := value]) else s
  }

  /** pg_getval: the page is brought in. */
  function Fetch(s: Sys, pid: nat, addr: nat): Sys
    requires pid in s.spaces && InDevices(s, pid, addr)
  {
    Paged(s, pid, Pgn(addr))
  }

  /** pg_setval: the page is brought in, then the byte is stored. */
  function Store(s: Sys, pid: nat, addr: nat, value: Byte): Sys
    requires pid in s.spaces && InDevices(s, pid, addr)
  {
    Write(Paged(s, pid, Pgn(addr)), pid, addr, value)
  }

  // ----- Operations on the whole memory -----

  datatype MemOp =
    | AllocOp(pid: nat, found: bool, rgid: nat, size: nat)
    | FreeOp(pid: nat, rgid: nat)
    | KmallocOp(found: bool, rgid: nat, size: nat)
    | LoadOp(pid: nat)
    | ReadOp(pid: nat, addr: nat)
    | WriteOp(pid: nat, addr: nat, value: Byte)

  predicate IsAccess(op: MemOp) {
    op.ReadOp? || op.WriteOp?
  }

  /** What the source demands: a process that exists, a symbol inside its table, bytes that exist. */
  predicate Allowed(s: Sys, op: MemOp) {
    && KERNEL in s.spaces
    && match op
       case AllocOp(pid, _, rgid, _) => pid in s.spaces && pid != KERNEL && rgid < SYMBOLS
       case FreeOp(pid, rgid) => pid in s.spaces && pid != KERNEL && rgid < |s.spaces[pid].sym|
       case KmallocOp(_, _, size) => size < 0x1_0000_0000 // a uint32_t
       case LoadOp(pid) => pid !in s.spaces
       case ReadOp(pid, addr) => pid in s.spaces && InDevices(s, pid, addr)
       case WriteOp(pid, addr, _) => pid in s.spaces && InDevices(s, pid, addr)
  }

  function Apply(s: Sys, op: MemOp): Sys
    requires Allowed(s, op)
  {
    hide Alloc, Kmalloc, Free, InDevices, InitMm;
    match op
    case AllocOp(pid, found, rgid, size) =>
      var (sp, rest) := Alloc(s.spaces[pid], s.frames, found, rgid, size);
      s.(spaces := s.spaces[pid := sp], frames := rest)
    case FreeOp(pid, rgid) =>
      s.(spaces := s.spaces[pid := Free(s.spaces[pid], rgid)])
    case KmallocOp(found, rgid, size) =>
      var (sp, rest) := Kmalloc(s.spaces[KERNEL], s.frames, found, rgid, size);
      s.(spaces := s.spaces[KERNEL := sp], frames := rest)
    case LoadOp(pid) =>
      s.(spaces := s.spaces[pid := InitMm(false)])
    case ReadOp(pid, addr) =>
      Fetch(s, pid, addr)
    case WriteOp(pid, addr, value) =>
      Store(s, pid, addr, value)
  }

  // ----- Whole runs -----

  /** The machine after init_memphy and the kernel's init_mm: every frame free, every byte zero. */
  function Boot(maxSize: nat, swapSize: nat): Sys {
    Sys(map[KERNEL := InitMm(true)], seq(maxSize / PAGESZ, i => i), seq(maxSize, _ => 0),
        Swap(seq(swapSize / PAGESZ, i => i), seq(swapSize, _ => 0)))
  }

  predicate AllowedRun(s: Sys, ops: seq<MemOp>)
    decreases |ops|
  {
    ops != [] ==> Allowed(s, ops[0]) && AllowedRun(Apply(s, ops[0]), ops[1..])
  }

  function ApplyAll(s: Sys, ops: seq<MemOp>): Sys
    requires AllowedRun(s, ops)
    decreases |ops|
  {
    if ops == [] then s else ApplyAll(Apply(s, ops[0]), ops[1..])
  }
}
