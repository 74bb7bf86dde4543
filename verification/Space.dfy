/**
 One address space as a value, and what each memory operation does to it: the specification
 that the mutable mm_struct is proved against, branch by branch as in src/libmem.c,
 src/mm-vm.c and src/mm64.c.
 */
module Space {
  import opened Paging
  import opened PageTable
  import opened Seqs

  const SYMBOLS: nat := 30
  const KERNEL_START: nat := 0x8000_0000
  const MAP_PAGES: nat := 3 // pages that every growth maps, whatever its size

  datatype Region = Region(start: nat, end: nat)

  datatype Space = Space(vmStart: nat, vmEnd: nat, sbrk: nat,
                         free: seq<Region>, sym: seq<Region>,
                         fifo: seq<nat>, pte: map<nat, nat>)

  // ----- Machine integers -----

  function Wrap64(x: int): nat {
    x % WORD64
  }

  /** Conversion to a C int. */
  function Int32(x: int): int {
    (x + 0x8000_0000) % 0x1_0000_0000 - 0x8000_0000
  }

  /** PAGING64_PAGE_ALIGNSZ. */
  function AlignUp(sz: nat): nat {
    Wrap64(sz + PAGESZ64 - 1) / PAGESZ64 * PAGESZ64
  }

  // ----- init_mm -----

  const NO_REGION := Region(0, 0)

  function InitMm(kernel: bool): Space {
    var start := if kernel then KERNEL_START else 0;
    Space(start, start, start, [Region(start, start)], seq(SYMBOLS, _ => NO_REGION), [], map[])
  }

  // ----- get_free_vmrg_area -----

  predicate Fits(r: Region, size: int) {
    Wrap64(r.start + size) <= r.end
  }

  /** The first region that is large enough, or |free|. */
  function FirstFit(free: seq<Region>, size: int): (k: nat)
    ensures k <= |free|
    ensures k < |free| ==> Fits(free[k], size)
    ensures forall i :: 0 <= i < k ==> !Fits(free[i], size)
  {
    if free == [] || Fits(free[0], size) then 0 else 1 + FirstFit(free[1..], size)
  }

  /** The free list after region k has given its first bytes away. */
  function Carve(free: seq<Region>, k: nat, size: int): seq<Region>
    requires k < |free|
  {
    var r := free[k];
    if Wrap64(r.start + size) < r.end then free[k := Region(Wrap64(r.start + size), r.end)]
    else if k + 1 < |free| then free[..k] + free[k + 1..]
    else free[k := Region(r.end, r.end)]
  }

  datatype Taken = Taken(ok: bool, rg: Region, free: seq<Region>)

  /** The source recognises failure by the start address it stored before the search. */
  function TakeRegion(free: seq<Region>, size: int): Taken {
    var k := FirstFit(free, size);
    if k == |free| then Taken(false, Region(WORD64 - 1, WORD64 - 1), free)
    else
      Taken(free[k].start != WORD64 - 1, Region(free[k].start, Wrap64(free[k].start + size)), Carve(free, k, size))
  }

  // ----- vm_map_ram -----

  /** The page table after consecutive pages from pgn have been given these frames. */
  function MapPages(pte: map<nat, nat>, pgn: nat, fpns: seq<nat>): map<nat, nat>
    decreases |fpns|
  {
    if fpns == [] then pte
    else
      var n := |fpns| - 1;
      var before := MapPages(pte, pgn, fpns[..n]);
      var p := (pgn + n) % PAGES;
      before[p := WithFpn(Lookup(before, p), fpns[n])]
  }

  function PushPages(fifo: seq<nat>, pgn: nat, n: nat): seq<nat> {
    if n == 0 then fifo else [pgn + n - 1] + PushPages(fifo, pgn, n - 1)
  }

  /** What is left of the free frames after asking for n of them. */
  function FramesAfter(frames: seq<nat>, n: nat): seq<nat> {
    if n <= |frames| then frames[n..] else Reverse(frames)
  }

  function MapRam(sp: Space, frames: seq<nat>, mapstart: nat, n: nat): Space {
    if n <= |frames| then
      sp.(pte := MapPages(sp.pte, mapstart / PAGESZ64, frames[..n]),
          fifo := PushPages(sp.fifo, mapstart / PAGESZ64, n))
    else sp
  }

  // ----- inc_vma_limit -----

  datatype Growth = InPlace | Extend(newEnd: nat) | Refused

  function PlanGrowth(sp: Space, incSz: nat): Growth {
    if incSz == 0 then Refused
    else if Wrap64(sp.sbrk + incSz) <= sp.vmEnd then InPlace
    else if AlignUp(incSz) == 0 then Refused
    else if sp.vmStart >= Wrap64(sp.sbrk + AlignUp(incSz)) then Refused
    else Extend(Wrap64(sp.sbrk + AlignUp(incSz)))
  }

  function Grow(sp: Space, frames: seq<nat>, incSz: nat): (Space, seq<nat>) {
    match PlanGrowth(sp, incSz)
    case Refused => (sp, frames)
    case InPlace =>
      var brk := Wrap64(sp.sbrk + incSz);
      (sp.(sbrk := brk, free := (if brk < sp.vmEnd then [Region(brk, sp.vmEnd)] else []) + sp.free), frames)
    case Extend(newEnd) =>
      (MapRam(sp.(vmEnd := newEnd, sbrk := newEnd), frames, sp.sbrk, MAP_PAGES), FramesAfter(frames, MAP_PAGES))
  }

  // ----- __alloc, __free, __kmalloc -----

  function SetSymbol(sp: Space, rgid: nat, r: Region): Space {
    if rgid < |sp.sym| then sp.(sym := sp.sym[rgid := r]) else sp
  }

  /** SYSMEM_INC_OP, compiled with 32-bit addresses: `found` says whether the system call finds its caller in the running list. */
  function Increase(sp: Space, frames: seq<nat>, found: bool, size: nat): (Space, seq<nat>) {
    if found then Grow(sp, frames, Low32(size)) else (sp, frames)
  }

  function Alloc(sp: Space, frames: seq<nat>, found: bool, rgid: nat, size: nat): (Space, seq<nat>) {
    var t := TakeRegion(sp.free, Int32(size));
    if t.ok then (SetSymbol(sp.(free := t.free), rgid, t.rg), frames)
    else
      var oldSbrk := Wrap64(Int32(sp.sbrk));
      var (grown, rest) := Increase(sp.(free := t.free), frames, found, size);
      (SetSymbol(grown, rgid, Region(oldSbrk, Wrap64(oldSbrk + size))), rest)
  }

  /** The kernel's variant keeps the break as a 64-bit value. */
  function Kmalloc(sp: Space, frames: seq<nat>, found: bool, rgid: nat, size: nat): (Space, seq<nat>) {
    var t := TakeRegion(sp.free, Int32(size));
    if t.ok then (SetSymbol(sp.(free := t.free), rgid, t.rg), frames)
    else
      var (grown, rest) := Increase(sp.(free := t.free), frames, found, size);
      (SetSymbol(grown, rgid, Region(sp.sbrk, Wrap64(sp.sbrk + size))), rest)
  }

  predicate Live(r: Region) {
    r != NO_REGION
  }

  /** enlist_vm_freerg_list: empty regions are turned away. */
  function Enlist(free: seq<Region>, r: Region): seq<Region> {
    if r.start >= r.end then free else [r] + free
  }

  /** __free of a symbol; a symbol that holds no region is refused. */
  function Free(sp: Space, rgid: nat): Space
    requires rgid < |sp.sym|
  {
    var r := sp.sym[rgid];
    if !Live(r) then sp else sp.(sym := sp.sym[rgid := NO_REGION], free := Enlist(sp.free, r))
  }

  // ----- pg_getpage -----

  const SWAP_TYPE: nat := 0 // active_mswp_id, which nothing ever sets

  /** The page at the tail of the page FIFO, as the page table knows it. */
  function Victim(sp: Space): nat
    requires sp.fifo != []
  {
    sp.fifo[|sp.fifo| - 1] % PAGES
  }

  function PteOf(sp: Space, pgn: nat): nat {
    Low32(Lookup(sp.pte, pgn % PAGES))
  }

  /** The space after the victim has left the page FIFO. */
  function Popped(sp: Space): Space
    requires sp.fifo != []
  {
    sp.(fifo := sp.fifo[..|sp.fifo| - 1])
  }

  /** The two entries an eviction writes, and the page that enters the page FIFO. */
  function Exchange(sp: Space, pgn: nat, victim: nat, vicfpn: nat, swpfpn: nat): Space {
    var out := sp.pte[victim % PAGES := WithSwap(Lookup(sp.pte, victim % PAGES), SWAP_TYPE, swpfpn)];
    sp.(pte := out[pgn % PAGES := WithFpn(Lookup(out, pgn % PAGES), vicfpn)], fifo := [pgn] + sp.fifo)
  }

  /** An eviction: the victim's entry gets the swap frame, the missing page gets the victim's frame. */
  function Evict(sp: Space, pgn: nat, swpfpn: nat): Space
    requires sp.fifo != []
  {
    Exchange(Popped(sp), pgn, Victim(sp), PteFpn(PteOf(sp, Victim(sp))), swpfpn)
  }
}
