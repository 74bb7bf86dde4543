/**
 The memory system calls over the mutable machine: __sys_memmap looks its caller up in the
 running list (src/sys_mem.c), and the library calls of src/libmem.c go through it, page faults
 included.
 */
module Krnl {
  import opened Bits
  import opened Paging
  import opened PageTable
  import opened Space
  import opened Wrappers
  import opened Mm
  import Spec = Space
  import Memory
  import Frames
  import MemPhy
  import Queue

  type Byte = MemPhy.Byte

  // ----- Values in system-call registers -----

  /** A char widened to a 64-bit register: sign-extended. */
  function ToReg(b: Byte): nat {
    Wrap64(b as int)
  }

  /** A register narrowed back to a char. */
  function FromReg(r: nat): Byte {
    ((r + 128) % 256 - 128) as Byte
  }

  lemma RegRoundTrip(b: Byte)
    ensures FromReg(ToReg(b)) == b
  {
    var v := b as int;
    if v < 0 {
      assert ToReg(b) == v + WORD64;
      assert (v + WORD64 + 128) % 256 == (v + 128) % 256;
    }
  }

  /** Some entry of the running list has this pid. */
  predicate Running(running: seq<Queue.Pcb>, pid: nat) {
    exists i :: 0 <= i < |running| && running[i].pid == pid
  }

  /** Where a resident address of a space lies in physical memory. */
  function Physical(sp: Space, addr: nat): Option<nat> {
    var pte := PteOf(sp, Pgn(addr));
    if PagePresent(pte) then Some(PhysAddr(PteFpn(pte), addr)) else None
  }

  /** The memory as one space sees it: that space, RAM and swap, and nobody else. */
  function Alone(sp: Space, frames: seq<nat>, storage: seq<Byte>, swap: Memory.Swap): Memory.Sys {
    Memory.Sys(map[Memory.KERNEL := sp], frames, storage, swap)
  }

  /** A page that is in: nothing happens. */
  lemma HitCase(sp: Space, frames: seq<nat>, storage: seq<Byte>, swap: Memory.Swap, pgn: nat)
    requires PagePresent(PteOf(sp, pgn))
    ensures var s := Alone(sp, frames, storage, swap);
      Memory.Backed(s, Memory.KERNEL, pgn) && Memory.Paged(s, Memory.KERNEL, pgn) == s
  {
    hide PagePresent, PteOf;
  }

  /** Page numbers count modulo 2^45. */
  lemma PageNumber(sp: Space, pgn: nat, v: nat, vicfpn: nat, swpfpn: nat)
    ensures PteOf(sp, v) == PteOf(sp, v % PAGES)
    ensures Exchange(sp, pgn, v, vicfpn, swpfpn) == Exchange(sp, pgn, v % PAGES, vicfpn, swpfpn)
  {
    hide Low32, WithFpn, WithSwap, Lookup;
  }

  /** The three ways a fault can go, and whether the page is in afterwards. */
  lemma FaultCases(sp: Space, frames: seq<nat>, storage: seq<Byte>, swap: Memory.Swap, pgn: nat)
    requires !PagePresent(PteOf(sp, pgn)) && Memory.Backed(Alone(sp, frames, storage, swap), Memory.KERNEL, pgn)
    ensures var r := Memory.Paged(Alone(sp, frames, storage, swap), Memory.KERNEL, pgn);
      if sp.fifo == [] then r == Alone(sp, frames, storage, swap)
      else if swap.free == [] then
        r == Alone(Popped(sp), frames, storage, swap) && !PagePresent(PteOf(Popped(sp), pgn))
      else
        var vic, tgt, to := PteFpn(PteOf(sp, Victim(sp))), PteSwpOff(PteOf(sp, pgn)), swap.free[0];
        && (vic + 1) * PAGESZ <= |storage| && (to + 1) * PAGESZ <= |swap.storage| && (tgt + 1) * PAGESZ <= |swap.storage|
        && PagePresent(PteOf(Exchange(Popped(sp), pgn, Victim(sp), vic, to), pgn))
        && (var taken := swap.(free := swap.free[1..]);
            var twice := Memory.SwappedOut(Memory.SwappedOut(taken, storage, vic, to), storage, vic, tgt);
            r == Alone(Exchange(Popped(sp), pgn, Victim(sp), vic, to), frames, storage, twice.(free := [tgt] + twice.free)))
  {
    hide PagePresent, PteFpn, PteSwpOff, Low32, Exchange, MemPhy.CopyFrame;
    if sp.fifo != [] {
      Frames.EvictedEntry(sp, pgn, if swap.free == [] then 0 else swap.free[0]);
    }
  }

  class Krnl {
    var mm: MmStruct            // the space that page-table calls work on
    const mram: MemPhy.Device
    const mswp: MemPhy.Device   // active_mswp
    const runningList: Queue.Queue

    ghost var Repr: set<object> // the kernel's own objects: all it changes besides an address space

    ghost predicate Valid()
      reads this, Repr
      ensures Valid() ==> this in Repr && mram.storage in Repr && mswp.storage in Repr
    {
      && {this, mram, mswp, runningList, runningList.proc} <= Repr && mram.Repr <= Repr && mswp.Repr <= Repr
      && {this, runningList, runningList.proc} !! mram.Repr && {this, runningList, runningList.proc} !! mswp.Repr
      && mram.Repr !! mswp.Repr && mram.storage in mram.Repr && mswp.storage in mswp.Repr
      && mram in mram.Repr && mswp in mswp.Repr
      && mram.Valid() && mswp.Valid() && runningList.Valid()
    }

    /** The swap device as a value. */
    ghost function SwapState(): Memory.Swap
      reads mswp, mswp.storage
    {
      Memory.Swap(mswp.free, mswp.storage[..])
    }

    /** The memory as this space sees it. */
    ghost function Seen(space: MmStruct): Memory.Sys
      requires Owns(space)
      reads this, Repr, space, space.Repr, mram.storage, mswp.storage, mswp, mram
    {
      Alone(space.Model(), mram.free, mram.storage[..], SwapState())
    }

    /** The space is whole, and shares nothing with the kernel's own objects. */
    ghost predicate Owns(space: MmStruct)
      reads this, Repr, space, space.Repr
    {
      Valid() && space.Valid() && space.Repr !! Repr
    }

    /** The kernel structure as the loader sets it up: an empty kernel space over the given devices. */
    constructor (mram: MemPhy.Device, mswp: MemPhy.Device, runningList: Queue.Queue)
      requires mram.Valid() && mswp.Valid() && runningList.Valid() && mram.Repr !! mswp.Repr
      requires {runningList, runningList.proc} !! mram.Repr && {runningList, runningList.proc} !! mswp.Repr
      requires mram.storage in mram.Repr && mswp.storage in mswp.Repr && mram in mram.Repr && mswp in mswp.Repr
      ensures this.mram == mram && this.mswp == mswp && this.runningList == runningList
      ensures fresh(mm.Repr) && Owns(mm) && mm.Model() == InitMm(true)
      ensures Repr == {this, runningList, runningList.proc} + mram.Repr + mswp.Repr
    {
      hide MmStruct.Valid, MmStruct.Model, MemPhy.Device.Valid, InitMm;
      var space := new MmStruct(true);
      this.mm, this.mram, this.mswp, this.runningList := space, mram, mswp, runningList;
      Repr := {this, runningList, runningList.proc} + mram.Repr + mswp.Repr;
    }

    /** The search of __sys_memmap for its caller. */
    method FindCaller(pid: nat) returns (found: bool)
      requires Valid()
      ensures found <==> Running(runningList.contents, pid)
    {
      var i := 0;
      while i < runningList.size
        invariant 0 <= i <= runningList.size
        invariant forall j :: 0 <= j < i ==> runningList.contents[j].pid != pid
      {
        ghost var entry := runningList.contents[i];
        assert runningList.proc[i] == entry;
        if runningList.proc[i].pid == pid {
          return true;
        }
        i := i + 1;
      }
      found := false;
    }

    /** SYSMEM_INC_OP: the growth happens only for a caller in the running list, and its size is cut to 32 bits. */
    method SysInc(pid: nat, incSz: nat)
      requires Owns(mm)
      modifies mm.Repr, this`Repr, mram`freeFpList, mram`nodes, mram`free, mram`Repr
      ensures Owns(mm)
      ensures fresh(mm.Repr - old(mm.Repr)) && fresh(Repr - old(Repr))
      ensures (mm.Model(), mram.free) == Increase(old(mm.Model()), old(mram.free), Running(runningList.contents, pid), incSz)
    {
      hide Grow, Running, Low32, MmStruct.Valid, MmStruct.Model, MemPhy.Device.Valid;
      var found := FindCaller(pid);
      if found {
        var ok := mm.IncVmaLimit(mram, Low32(incSz));
        Repr := Repr + mram.Repr;
      }
    }

    /** __alloc: first fit, else growth; the current space is the caller's for the duration. */
    method Alloc(caller: Queue.Pcb, rgid: nat, size: nat) returns (addr: nat)
      requires Owns(caller.mm) && rgid < SYMBOLS
      modifies Repr, caller.mm.Repr
      ensures mm == old(mm) && Owns(caller.mm)
      ensures mram.storage[..] == old(mram.storage[..]) && unchanged(runningList, runningList.proc) && SwapState() == old(SwapState())
      ensures fresh(caller.mm.Repr - old(caller.mm.Repr)) && fresh(Repr - old(Repr))
      ensures (caller.mm.Model(), mram.free)
           == Spec.Alloc(old(caller.mm.Model()), old(mram.free), Running(runningList.contents, caller.pid), rgid, size)
      ensures addr == caller.mm.Model().sym[rgid].start
    {
      hide Increase, Running, TakeRegion, MmStruct.Valid, MmStruct.Model, MemPhy.Device.Valid;
      var osMm := mm;
      mm := caller.mm;
      var ok, rg := mm.TakeFree(Int32(size));
      if ok {
        mm.SetSym(rgid, rg);
        addr := rg.start;
      } else {
        var brk := mm.Sbrk();
        var oldSbrk := Wrap64(Int32(brk));
        SysInc(caller.pid, size);
        mm.SetSym(rgid, Region(oldSbrk, Wrap64(oldSbrk + size)));
        addr := oldSbrk;
      }
      mm := osMm;
    }

    /** __kmalloc: the current space is the kernel's; a symbol outside the table is not recorded. */
    method Kmalloc(caller: Queue.Pcb, rgid: nat, size: nat) returns (addr: nat)
      requires Owns(mm)
      modifies Repr, mm.Repr
      ensures mm == old(mm) && Owns(mm)
      ensures mram.storage[..] == old(mram.storage[..]) && unchanged(runningList, runningList.proc) && SwapState() == old(SwapState())
      ensures fresh(mm.Repr - old(mm.Repr)) && fresh(Repr - old(Repr))
      ensures (mm.Model(), mram.free)
           == Spec.Kmalloc(old(mm.Model()), old(mram.free), Running(runningList.contents, caller.pid), rgid, size)
      ensures var t := TakeRegion(old(mm.Model()).free, Int32(size));
        addr == if t.ok then t.rg.start else old(mm.Model()).sbrk
    {
      hide Increase, Running, TakeRegion, MmStruct.Valid, MmStruct.Model, MemPhy.Device.Valid;
      mm.SymbolCount();
      var ok, rg := mm.TakeFree(Int32(size));
      if ok {
        if rgid < SYMBOLS {
          mm.SetSym(rgid, rg);
        }
        addr := rg.start;
      } else {
        addr := mm.Sbrk();
        SysInc(caller.pid, size);
        mm.SymbolCount();
        if rgid < SYMBOLS {
          mm.SetSym(rgid, Region(addr, Wrap64(addr + size)));
        }
      }
    }

    /** __free; the index one past the table, which the source's check lets through, is not modelled. */
    method Free(caller: Queue.Pcb, rgid: int) returns (ok: bool)
      requires Owns(caller.mm) && rgid != SYMBOLS
      modifies Repr, caller.mm.Repr
      ensures mm == old(mm) && Owns(caller.mm) && Repr == old(Repr)
      ensures mram.free == old(mram.free) && mram.storage[..] == old(mram.storage[..]) && SwapState() == old(SwapState())
      ensures fresh(caller.mm.Repr - old(caller.mm.Repr))
      ensures |old(caller.mm.Model()).sym| == SYMBOLS
      ensures caller.mm.Model() == if 0 <= rgid < SYMBOLS then Spec.Free(old(caller.mm.Model()), rgid) else old(caller.mm.Model())
      ensures ok <==> 0 <= rgid < SYMBOLS && Live(old(caller.mm.Model()).sym[rgid])
    {
      hide MmStruct.Valid, MmStruct.Model, MemPhy.Device.Valid, Spec.Free;
      caller.mm.SymbolCount();
      if rgid < 0 || rgid > SYMBOLS {
        return false;
      }
      var osMm := mm;
      mm := caller.mm;
      ok := mm.FreeSymbol(rgid);
      mm := osMm;
    }

    /** SYSMEM_SWP_OP. */
    method CopyOut(space: MmStruct, from: nat, to: nat)
      requires Owns(space) && (from + 1) * PAGESZ <= mram.storage.Length && (to + 1) * PAGESZ <= mswp.storage.Length
      modifies mswp.storage
      ensures Owns(space) && space.Model() == old(space.Model()) && mram.storage[..] == old(mram.storage[..])
      ensures SwapState() == Memory.SwappedOut(old(SwapState()), mram.storage[..], from, to)
    {
      hide MmStruct.Valid, MmStruct.Model, MemPhy.Device.Valid, MemPhy.CopyFrame;
      MemPhy.SwapCpPage(mram, from, mswp, to);
    }

    /** MEMPHY_put_freefp on the swap device. */
    method PutSwap(space: MmStruct, fpn: nat)
      requires Owns(space)
      modifies this`Repr, mswp`freeFpList, mswp`nodes, mswp`free, mswp`Repr
      ensures Owns(space) && space.Model() == old(space.Model()) && fresh(Repr - old(Repr))
      ensures SwapState() == old(SwapState()).(free := [fpn] + old(SwapState()).free)
    {
      hide MmStruct.Valid, MmStruct.Model, MemPhy.Device.Valid;
      mswp.PutFreeFp(fpn);
      Repr := Repr + mswp.Repr;
    }

    /** The copies and updates of an eviction, from the moment victim and swap frame are known. */
    method Swap(space: MmStruct, pgn: nat, victim: nat, vicfpn: nat, tgtswpfpn: nat, swpfpn: nat)
      requires Owns(space)
      requires (vicfpn + 1) * PAGESZ <= mram.storage.Length
      requires (swpfpn + 1) * PAGESZ <= mswp.storage.Length && (tgtswpfpn + 1) * PAGESZ <= mswp.storage.Length
      modifies this`Repr, space.Repr, mswp`freeFpList, mswp`nodes, mswp`free, mswp`Repr, mswp.storage
      ensures Owns(space) && mram.storage[..] == old(mram.storage[..]) && mram.free == old(mram.free)
      ensures fresh(space.Repr - old(space.Repr)) && fresh(Repr - old(Repr))
      ensures space.Model() == Exchange(old(space.Model()), pgn, victim, vicfpn, swpfpn)
      ensures var ram := mram.storage[..];
              var twice := Memory.SwappedOut(Memory.SwappedOut(old(SwapState()), ram, vicfpn, swpfpn), ram, vicfpn, tgtswpfpn);
        SwapState() == twice.(free := [tgtswpfpn] + twice.free)
    {
      hide MmStruct.Valid, MmStruct.Model, MemPhy.Device.Valid, MemPhy.CopyFrame, WithSwap, WithFpn, Lookup;
      CopyOut(space, vicfpn, swpfpn);
      space.SetSwap(victim, SWAP_TYPE, swpfpn);
      CopyOut(space, vicfpn, tgtswpfpn);
      space.SetFpn(pgn, vicfpn);
      PutSwap(space, tgtswpfpn);
      space.EnlistPage(pgn);
    }

    /** The branch of pg_getpage for a page that is not in. */
    method Fault(space: MmStruct, pgn: nat, pte: nat) returns (ok: bool)
      requires Owns(space) && pte == PteOf(space.Model(), pgn) && !PagePresent(pte)
      requires Memory.Backed(Seen(space), Memory.KERNEL, pgn)
      modifies this`Repr, space.Repr, mswp`freeFpList, mswp`nodes, mswp`free, mswp`Repr, mswp.storage
      ensures Owns(space)
      ensures fresh(space.Repr - old(space.Repr)) && fresh(Repr - old(Repr))
      ensures Seen(space) == Memory.Paged(old(Seen(space)), Memory.KERNEL, pgn)
      ensures ok == PagePresent(PteOf(space.Model(), pgn))
    {
      hide MmStruct.Valid, MmStruct.Model, MemPhy.Device.Valid, Memory.Paged, Memory.SwappedOut;
      hide PagePresent, PteFpn, PteSwpOff, Low32, Exchange, Lookup;
      ghost var sp, frames, ram, swap := space.Model(), mram.free, mram.storage[..], SwapState();
      FaultCases(sp, frames, ram, swap, pgn);
      var victim := space.FindVictim();
      if victim.None? {
        return false;
      }
      var got, swpfpn := mswp.GetFreeFp();
      if !got {
        return false;
      }
      var vicpte := space.GetPte(victim.value);
      PageNumber(Popped(sp), pgn, victim.value, PteFpn(vicpte), swpfpn);
      Swap(space, pgn, victim.value, PteFpn(vicpte), PteSwpOff(pte), swpfpn);
      ok := true;
    }

    /**
     pg_getpage: a page that is in costs nothing; otherwise the oldest page is evicted, or, when
     there is no victim or no swap frame, the access fails - a victim found is out of the FIFO by then.
     */
    method GetPage(space: MmStruct, pgn: nat) returns (fpn: Option<nat>)
      requires Owns(space) && Memory.Backed(Seen(space), Memory.KERNEL, pgn)
      modifies this`Repr, space.Repr, mswp`freeFpList, mswp`nodes, mswp`free, mswp`Repr, mswp.storage
      ensures Owns(space)
      ensures fresh(space.Repr - old(space.Repr)) && fresh(Repr - old(Repr))
      ensures Seen(space) == Memory.Paged(old(Seen(space)), Memory.KERNEL, pgn)
      ensures fpn == if PagePresent(PteOf(space.Model(), pgn)) then Some(PteFpn(PteOf(space.Model(), pgn))) else None
    {
      hide MmStruct.Valid, MmStruct.Model, MemPhy.Device.Valid, Memory.Paged, Memory.Backed, PagePresent, PteFpn, PteOf;
      var pte := space.GetPte(pgn);
      if PagePresent(pte) {
        HitCase(space.Model(), mram.free, mram.storage[..], SwapState(), pgn);
      } else {
        var ok := Fault(space, pgn, pte);
        if !ok {
          return None;
        }
      }
      var now := space.GetPte(pgn);
      fpn := Some(PteFpn(now));
    }

    /** pg_getval: the byte travels back through a system-call register. */
    method GetVal(space: MmStruct, addr: nat) returns (data: Option<Byte>)
      requires Owns(space) && Memory.InDevices(Seen(space), Memory.KERNEL, addr)
      modifies Repr, space.Repr
      ensures Owns(space) && mm == old(mm) && unchanged(runningList, runningList.proc)
      ensures fresh(space.Repr - old(space.Repr)) && fresh(Repr - old(Repr))
      ensures Seen(space) == Memory.Fetch(old(Seen(space)), Memory.KERNEL, addr)
      ensures var phys := Physical(space.Model(), addr);
        && (phys.Some? ==> phys.value < mram.storage.Length)
        && data == if phys.Some? then Some(mram.storage[phys.value]) else None
    {
      hide MmStruct.Valid, MmStruct.Model, MemPhy.Device.Valid, ToReg, FromReg, Memory.Paged, Memory.Backed;
      hide PagePresent, PteFpn, Low32, Pgn, PhysAddr, Lookup;
      var fpn := GetPage(space, Pgn(addr));
      if fpn.Some? {
        var phys := PhysAddr(fpn.value, addr);
        var value := mram.ReadByte(phys);
        var a3 := ToReg(value);
        RegRoundTrip(value);
        data := Some(FromReg(a3));
      } else {
        data := None;
      }
    }

    /** pg_setval: one byte of the device changes behind a page that could be brought in. */
    method SetVal(space: MmStruct, addr: nat, value: Byte) returns (ok: bool)
      requires Owns(space) && Memory.InDevices(Seen(space), Memory.KERNEL, addr)
      modifies Repr, space.Repr
      ensures Owns(space) && mm == old(mm) && unchanged(runningList, runningList.proc)
      ensures fresh(space.Repr - old(space.Repr)) && fresh(Repr - old(Repr))
      ensures Seen(space) == Memory.Store(old(Seen(space)), Memory.KERNEL, addr, value)
      ensures ok == Physical(space.Model(), addr).Some?
    {
      hide MmStruct.Valid, MmStruct.Model, MemPhy.Device.Valid, ToReg, FromReg, Memory.Paged, Memory.Backed;
      hide PagePresent, PteFpn, Low32, Pgn, PhysAddr, Lookup;
      var fpn := GetPage(space, Pgn(addr));
      ok := fpn.Some?;
      if ok {
        var phys := PhysAddr(fpn.value, addr);
        var a3 := ToReg(value);
        RegRoundTrip(value);
        mram.WriteByte(phys, FromReg(a3));
      }
    }
  }
}
