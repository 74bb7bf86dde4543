/**
 One mutable address space (mm_struct) and the operations that grow and map it, proved against
 the value specification of module Space.
 */
module Mm {
  import opened Bits
  import opened Lists
  import opened Paging
  import opened PageTable
  import opened PageFifo
  import opened VmArea
  import opened MemPhy
  import opened Seqs
  import opened Space
  import opened Wrappers
  import Spec = Space

  class MmStruct {
    const pt: PageDir
    const mmap: Area
    const symrgtbl: array<Region>
    const fifo: Fifo

    ghost var Repr: set<object>

    ghost predicate Valid()
      reads this, Repr
      ensures Valid() ==> this in Repr
    {
      && {this, symrgtbl, pt, mmap, fifo} <= Repr
      && pt.Repr <= Repr && mmap.Repr <= Repr && fifo.Repr <= Repr
      && pt.Repr !! mmap.Repr && pt.Repr !! fifo.Repr && mmap.Repr !! fifo.Repr
      && {this, symrgtbl} !! (pt.Repr + mmap.Repr + fifo.Repr)
      && symrgtbl.Length == SYMBOLS
      && pt.Valid() && mmap.Valid() && fifo.Valid()
    }

    /** The address space as a value. */
    ghost function Model(): Space
      requires Valid()
      reads this, Repr
    {
      Space(mmap.vmStart, mmap.vmEnd, mmap.sbrk, mmap.free, symrgtbl[..], fifo.pages, pt.flat)
    }

    /** init_mm, on a zeroed mm_struct. */
    constructor (kernel: bool)
      ensures Valid() && fresh(Repr)
      ensures Model() == InitMm(kernel)
    {
      hide PageDir.Valid, Area.Valid, Fifo.Valid;
      var start := if kernel then KERNEL_START else 0;
      var tables := new PageDir();
      var area := new Area(start);
      var pages := new Fifo();
      var symbols := new Region[SYMBOLS](_ => NO_REGION);
      assert symbols[..] == seq(SYMBOLS, _ => NO_REGION);
      assert tables.Repr !! area.Repr && tables.Repr !! pages.Repr && area.Repr !! pages.Repr;
      pt, mmap, fifo, symrgtbl := tables, area, pages, symbols;
      Repr := {this, symbols} + tables.Repr + area.Repr + pages.Repr;
    }

    /** get_free_vmrg_area on the one area of this space. */
    method TakeFree(size: int) returns (ok: bool, rg: Region)
      requires Valid()
      modifies Repr
      ensures Valid() && Repr == old(Repr)
      ensures ok == TakeRegion(old(Model()).free, size).ok && rg == TakeRegion(old(Model()).free, size).rg
      ensures Model() == old(Model()).(free := TakeRegion(old(Model()).free, size).free)
    {
      hide Lists.Chain, PageDir.Valid, Fifo.Valid, TakeRegion;
      ok, rg := mmap.GetFreeVmrgArea(size);
    }

    lemma SymbolCount()
      requires Valid()
      ensures |Model().sym| == SYMBOLS
    {
    }

    /** The current break. */
    method Sbrk() returns (brk: nat)
      requires Valid()
      ensures brk == Model().sbrk
    {
      brk := mmap.sbrk;
    }

    /** A symbol-table entry is overwritten. */
    method SetSym(rgid: nat, r: Region)
      requires Valid() && rgid < SYMBOLS
      modifies Repr
      ensures Valid() && Repr == old(Repr)
      ensures Model() == SetSymbol(old(Model()), rgid, r) && |Model().sym| == |old(Model()).sym| == SYMBOLS
    {
      hide PageDir.Valid, Area.Valid, Fifo.Valid;
      symrgtbl[rgid] := r;
    }

    /** The entry of one page; tables may be allocated, the space does not change. */
    method GetPte(pgn: nat) returns (pte: nat)
      requires Valid()
      modifies Repr
      ensures Valid() && fresh(Repr - old(Repr))
      ensures Model() == old(Model())
      ensures pte == PteOf(Model(), pgn)
    {
      hide PageDir.Valid, Area.Valid, Fifo.Valid, Low32, Lookup;
      pte := pt.GetEntry(pgn);
      Repr := Repr + pt.Repr;
    }

    /** pte_set_fpn on this space. */
    method SetFpn(pgn: nat, fpn: nat)
      requires Valid()
      modifies Repr
      ensures Valid() && fresh(Repr - old(Repr))
      ensures Model() == old(Model()).(pte := old(Model()).pte[pgn % PAGES := WithFpn(Lookup(old(Model()).pte, pgn % PAGES), fpn)])
    {
      hide PageDir.Valid, Area.Valid, Fifo.Valid, WithFpn, Lookup;
      pt.SetFpn(pgn, fpn);
      Repr := Repr + pt.Repr;
    }

    /** pte_set_swap on this space. */
    method SetSwap(pgn: nat, swptyp: nat, swpoff: nat)
      requires Valid()
      modifies Repr
      ensures Valid() && fresh(Repr - old(Repr))
      ensures Model() == old(Model()).(pte := old(Model()).pte[pgn % PAGES := WithSwap(Lookup(old(Model()).pte, pgn % PAGES), swptyp, swpoff)])
    {
      hide PageDir.Valid, Area.Valid, Fifo.Valid, WithSwap, Lookup;
      pt.SetSwap(pgn, swptyp, swpoff);
      Repr := Repr + pt.Repr;
    }

    /** find_victim_page on this space: the oldest page leaves the page FIFO. */
    method FindVictim() returns (victim: Option<nat>)
      requires Valid()
      modifies Repr
      ensures Valid() && Repr == old(Repr)
      ensures victim == None ==> old(Model()).fifo == [] && Model() == old(Model())
      ensures victim.Some? ==> old(Model()).fifo != [] && victim.value % PAGES == Spec.Victim(old(Model())) && Model() == Popped(old(Model()))
    {
      hide PageDir.Valid, Area.Valid;
      victim := fifo.FindVictim();
    }

    /** enlist_pgn_node on this space. */
    method EnlistPage(pgn: nat)
      requires Valid()
      modifies Repr
      ensures Valid() && fresh(Repr - old(Repr))
      ensures Model() == old(Model()).(fifo := [pgn] + old(Model()).fifo)
    {
      hide PageDir.Valid, Area.Valid, Lists.Chain;
      fifo.Enlist(pgn);
      Repr := Repr + fifo.Repr;
    }

    /** The body of __free: a live symbol is cleared and its region enlisted as free. */
    method FreeSymbol(rgid: nat) returns (ok: bool)
      requires Valid() && rgid < SYMBOLS
      modifies Repr
      ensures Valid() && fresh(Repr - old(Repr))
      ensures |old(Model()).sym| == SYMBOLS && Model() == Free(old(Model()), rgid)
      ensures ok == Live(old(Model()).sym[rgid])
    {
      hide PageDir.Valid, Lists.Chain, Fifo.Valid;
      var rg := symrgtbl[rgid];
      ok := Live(rg);
      if ok {
        symrgtbl[rgid] := NO_REGION;
        if rg.start < rg.end {
          mmap.PushRegion(rg);
          Repr := Repr + mmap.Repr;
        }
      }
    }

    /** vmap_page_range: page i of the run gets frame i of the list, and enters the page FIFO. */
    method VmapPageRange(addr: nat, pgnum: nat, frames: Cell?<nat>, ghost chain: seq<Cell<nat>>, ghost fpns: seq<nat>)
      requires Valid() && Chain(frames, chain, fpns) && pgnum == |fpns|
      requires forall j :: 0 <= j < |chain| ==> chain[j] !in Repr
      modifies pt.Repr, fifo, this`Repr
      ensures Valid() && fresh(Repr - old(Repr))
      ensures Model() == old(Model()).(pte := MapPages(old(Model()).pte, addr / PAGESZ64, fpns),
                                       fifo := PushPages(old(Model()).fifo, addr / PAGESZ64, pgnum))
    {
      hide Lists.Chain, MapPages, PushPages, PageDir.Valid, Area.Valid, Fifo.Valid;
      MapRun(pt, fifo, addr / PAGESZ64, pgnum, frames, chain, fpns);
      Repr := Repr + pt.Repr + fifo.Repr;
    }

    /** vm_map_ram: all n pages get frames, or, with too few frames, none does. */
    method VmMapRam(mram: Device, mapstart: nat, incpgnum: nat) returns (ok: bool)
      requires Valid() && mram.Valid() && Repr !! mram.Repr
      modifies pt.Repr, fifo, this`Repr, mram`freeFpList, mram`nodes, mram`free, mram`Repr
      ensures Valid() && mram.Valid() && Repr !! mram.Repr
      ensures fresh(Repr - old(Repr)) && fresh(mram.Repr - old(mram.Repr))
      ensures ok == (incpgnum <= |old(mram.free)|)
      ensures Model() == MapRam(old(Model()), old(mram.free), mapstart, incpgnum)
      ensures mram.free == FramesAfter(old(mram.free), incpgnum)
    {
      hide Lists.Chain, MapPages, PushPages, PageDir.Valid, Area.Valid, Fifo.Valid, Device.Valid, Reverse;
      var status, frames, chain, fpns := AllocPagesRange(mram, incpgnum);
      ok := !status.OutOfFrames?;
      if ok {
        VmapPageRange(mapstart, incpgnum, frames, chain, fpns);
      }
    }

    /** inc_vma_limit for the one area of this space. */
    method IncVmaLimit(mram: Device, incSz: nat) returns (ok: bool)
      requires Valid() && mram.Valid() && Repr !! mram.Repr
      modifies Repr, mram`freeFpList, mram`nodes, mram`free, mram`Repr
      ensures Valid() && mram.Valid() && Repr !! mram.Repr
      ensures fresh(Repr - old(Repr)) && fresh(mram.Repr - old(mram.Repr))
      ensures (Model(), mram.free) == Grow(old(Model()), old(mram.free), incSz)
      ensures ok == !PlanGrowth(old(Model()), incSz).Refused?
    {
      hide Lists.Chain, PageDir.Valid, Fifo.Valid, Device.Valid, MapRam, FramesAfter, AlignUp, Wrap64;
      if incSz == 0 {
        return false;
      }
      var oldSbrk := mmap.sbrk;
      if Wrap64(oldSbrk + incSz) <= mmap.vmEnd {
        assert [] + mmap.free == mmap.free;
        mmap.sbrk := Wrap64(oldSbrk + incSz);
        if mmap.sbrk < mmap.vmEnd {
          mmap.PushRegion(Region(mmap.sbrk, mmap.vmEnd));
          Repr := Repr + mmap.Repr;
        }
        return true;
      }
      var aligned := AlignUp(incSz);
      if aligned == 0 {
        return false;
      }
      var newEnd := Wrap64(oldSbrk + aligned);
      if mmap.vmStart >= newEnd {
        return false;
      }
      mmap.vmEnd := newEnd;
      mmap.sbrk := newEnd;
      ghost var extended := Model();
      assert extended == old(Model()).(vmEnd := newEnd, sbrk := newEnd);
      var mapped := VmMapRam(mram, oldSbrk, MAP_PAGES);
      return true;
    }
  }

  /** The loop of vmap_page_range, over the page table and the page FIFO. */
  method MapRun(pt: PageDir, fifo: Fifo, pgn: nat, pgnum: nat,
                frames: Cell?<nat>, ghost chain: seq<Cell<nat>>, ghost fpns: seq<nat>)
    requires pt.Valid() && fifo.Valid() && pt.Repr !! fifo.Repr
    requires Chain(frames, chain, fpns) && pgnum == |fpns|
    requires forall j :: 0 <= j < |chain| ==> chain[j] !in pt.Repr && chain[j] !in fifo.Repr
    modifies pt.Repr, fifo
    ensures pt.Valid() && fifo.Valid() && pt.Repr !! fifo.Repr
    ensures fresh(pt.Repr - old(pt.Repr)) && fresh(fifo.Repr - old(fifo.Repr))
    ensures pt.flat == MapPages(old(pt.flat), pgn, fpns)
    ensures fifo.pages == PushPages(old(fifo.pages), pgn, pgnum)
  {
    hide Lists.Chain, MapPages, WithFpn, Lookup, PageDir.Valid, Fifo.Valid;
    var curr := frames;
    var i := 0;
    ChainLength(frames, chain, fpns);
    MapNone(pt.flat, pgn, fpns);
    while i < pgnum
      invariant 0 <= i <= pgnum == |chain| == |fpns|
      invariant pt.Valid() && fifo.Valid() && pt.Repr !! fifo.Repr
      invariant fresh(pt.Repr - old(pt.Repr)) && fresh(fifo.Repr - old(fifo.Repr))
      invariant Chain(frames, chain, fpns)
      invariant curr == if i < |chain| then chain[i] else null
      invariant pt.flat == MapPages(old(pt.flat), pgn, fpns[..i])
      invariant fifo.pages == PushPages(old(fifo.pages), pgn, i)
    {
      ChainAt(frames, chain, fpns, i);
      MapOneMore(old(pt.flat), pgn, fpns, i);
      pt.SetFpn(pgn + i, curr.item);
      fifo.Enlist(pgn + i);
      curr := curr.next;
      i := i + 1;
    }
    assert fpns[..i] == fpns;
  }

  lemma MapNone(pte: map<nat, nat>, pgn: nat, fpns: seq<nat>)
    ensures MapPages(pte, pgn, fpns[..0]) == pte
  {
  }

  lemma MapOneMore(pte: map<nat, nat>, pgn: nat, fpns: seq<nat>, i: nat)
    requires i < |fpns|
    ensures var before := MapPages(pte, pgn, fpns[..i]);
            var p := (pgn + i) % PAGES;
      MapPages(pte, pgn, fpns[..i + 1]) == before[p := WithFpn(Lookup(before, p), fpns[i])]
  {
    hide Lookup, WithFpn;
    assert fpns[..i + 1][..i] == fpns[..i];
  }
}
