/**
 Loads and stores (pg_getval and pg_setval in src/libmem.c): through page tables, frames and
 offsets every process sees its own flat array of bytes, for as long as its pages stay in place.
 */
module FlatMemory {
  import opened Paging
  import opened PageTable
  import opened Space
  import opened Memory
  import opened Frames
  import opened Isolation
  import opened Wrappers

  /** The page of this address is in RAM; otherwise an access takes the fault branch. */
  predicate Resident(s: Sys, pid: nat, addr: nat) {
    pid in s.spaces && PageIn(s, pid, Pgn(addr))
  }

  /** The byte that an access to this address meets, if its page is in. */
  function ByteAt(s: Sys, pid: nat, addr: nat): Option<Byte>
    requires pid in s.spaces
  {
    var phys := Translate(s, pid, addr);
    if 0 <= phys < |s.storage| then Some(s.storage[phys]) else None
  }

  lemma ResidentMeans(s: Sys, pid: nat, addr: nat)
    requires pid in s.spaces
    ensures Resident(s, pid, addr) <==> Mapped(s, pid, Pgn(addr))
    ensures Mapped(s, pid, Pgn(addr)) ==> Translate(s, pid, addr) == PhysAddr(FrameOf(s, pid, Pgn(addr)), addr)
    ensures !Mapped(s, pid, Pgn(addr)) ==> Translate(s, pid, addr) == -1
  {
    hide PagePresent, PteFpn, Low32, PhysAddr, Pgn;
    AddressSplit(addr);
    assert Pgn(addr) % PAGES == Pgn(addr);
    LowWordDecodes(Lookup(s.spaces[pid].pte, Pgn(addr)));
    NothingPresent();
  }

  /** No other page has the frame of this one. */
  ghost predicate Unshared(s: Sys, q: nat, x: nat) {
    forall p, y :: Mapped(s, p, y) && Mapped(s, q, x) && FrameOf(s, p, y) == FrameOf(s, q, x) ==> p == q && y == x
  }

  /** Isolated frames are unshared, and so is every frame but 0 in any state that runs from boot reach. */
  lemma UnsharedFrames(s: Sys, n: nat, q: nat, x: nat)
    ensures Isolated(s, n) ==> Unshared(s, q, x)
    ensures IsolatedBut(s, n, {0}) && FrameOf(s, q, x) != 0 ==> Unshared(s, q, x)
  {
    hide Mapped, FrameOf, FreeListOk;
  }

  /** An access meets another page's byte exactly when process and address, modulo 2^22, are the same. */
  lemma {:induction false} SameByteIff(s: Sys, p: nat, a: nat, q: nat, b: nat)
    requires Unshared(s, q, Pgn(b)) && Resident(s, p, a) && Resident(s, q, b)
    ensures Translate(s, p, a) == Translate(s, q, b) <==> p == q && a % BUS_SPACE == b % BUS_SPACE
  {
    hide Translate, Pgn, Offst, PhysAddr, FrameOf, Mapped, PageIn;
    ResidentMeans(s, p, a);
    ResidentMeans(s, q, b);
    PhysAddrInjective(FrameOf(s, p, Pgn(a)), a, FrameOf(s, q, Pgn(b)), b);
    SplitIff(a, b);
  }

  lemma InDevice(s: Sys, n: nat, pid: nat, addr: nat)
    requires InRange(s, n) && n * PAGESZ <= |s.storage| && Resident(s, pid, addr)
    ensures 0 <= Translate(s, pid, addr) < |s.storage|
  {
    hide Translate, Pgn, Offst, PhysAddr, FrameOf, Mapped, PageIn;
    ResidentMeans(s, pid, addr);
    PhysAddrArith(FrameOf(s, pid, Pgn(addr)), addr);
  }

  /** One store changes a byte on an unshared frame only if it is its own process's store to it. */
  lemma {:induction false} StoreIsFlat(s: Sys, n: nat, p: nat, a: nat, v: Byte, q: nat, b: nat)
    requires InRange(s, n) && n * PAGESZ <= |s.storage| && Unshared(s, q, Pgn(b)) && Resident(s, p, a) && q in s.spaces
    ensures Translate(s, p, a) < |s.storage|
    ensures ByteAt(Write(s, p, a, v), q, b) == if p == q && a % BUS_SPACE == b % BUS_SPACE then Some(v) else ByteAt(s, q, b)
  {
    ResidentLoaded(s, p, a);
    hide InRange, Translate, Resident, Unshared, Pgn;
    InDevice(s, n, p, a);
    WriteTables(s, p, a, v);
    TranslateSame(s, Write(s, p, a, v), q, b);
    ResidentSigned(s, q, b);
    if Resident(s, q, b) {
      InDevice(s, n, q, b);
      SameByteIff(s, p, a, q, b);
    } else if p == q && a % BUS_SPACE == b % BUS_SPACE {
      SamePage(s, p, a, b);
    }
  }

  lemma ResidentSigned(s: Sys, pid: nat, addr: nat)
    requires pid in s.spaces
    ensures Resident(s, pid, addr) <==> Translate(s, pid, addr) >= 0
  {
    hide PagePresent, PteFpn, Low32, Pgn, Mapped, FrameOf;
    ResidentMeans(s, pid, addr);
    PhysAddrArith(FrameOf(s, pid, Pgn(addr)), addr);
  }

  lemma SamePage(s: Sys, p: nat, a: nat, b: nat)
    requires p in s.spaces && a % BUS_SPACE == b % BUS_SPACE
    ensures Resident(s, p, a) <==> Resident(s, p, b)
  {
    hide Pgn, Offst, PageIn;
    SplitIff(a, b);
  }

  lemma TranslateSame(s: Sys, t: Sys, q: nat, b: nat)
    requires q in s.spaces && q in t.spaces && s.spaces[q].pte == t.spaces[q].pte
    ensures Translate(s, q, b) == Translate(t, q, b)
  {
    hide PhysAddr, Low32, PteFpn, PagePresent, Pgn;
  }

  // ----- Any run, as long as a page keeps its entry -----

  /** The operation leaves the entry of page x of process q as it is. */
  predicate Keeps(s: Sys, op: MemOp, q: nat, x: nat)
    requires Allowed(s, op)
  {
    q in s.spaces && q in Apply(s, op).spaces && Lookup(Apply(s, op).spaces[q].pte, x) == Lookup(s.spaces[q].pte, x)
  }

  predicate KeepsAll(s: Sys, ops: seq<MemOp>, q: nat, x: nat)
    requires AllowedRun(s, ops)
    decreases |ops|
  {
    ops != [] ==> Keeps(s, ops[0], q, x) && KeepsAll(Apply(s, ops[0]), ops[1..], q, x)
  }

  /** The byte after a run, for a process alone in the world: the last value it stored there. */
  function LastByte(ops: seq<MemOp>, q: nat, b: nat, before: Option<Byte>): Option<Byte>
    decreases |ops|
  {
    if ops == [] then before
    else
      var stores := ops[0].WriteOp? && ops[0].pid == q && ops[0].addr % BUS_SPACE == b % BUS_SPACE;
      LastByte(ops[1..], q, b, if stores then Some(ops[0].value) else before)
  }

  /** An access finds its page where pg_getpage leaves it. */
  lemma EntryKept(s: Sys, t: Sys, q: nat, b: nat)
    requires q in s.spaces && q in t.spaces && t.storage == s.storage
    requires Lookup(t.spaces[q].pte, Pgn(b)) == Lookup(s.spaces[q].pte, Pgn(b))
    ensures Translate(t, q, b) == Translate(s, q, b) && ByteAt(t, q, b) == ByteAt(s, q, b)
  {
    hide PhysAddr, Low32, PteFpn, PagePresent, Pgn;
    AddressSplit(b);
  }

  lemma OtherStorage(s: Sys, op: MemOp)
    requires Allowed(s, op) && !op.WriteOp?
    ensures Apply(s, op).storage == s.storage
  {
    hide Alloc, Kmalloc, Free, InitMm, InDevices;
    if op.ReadOp? {
      hide Paged, Backed, Translate;
      AccessMeans(s, op);
      PagedKeeps(s, op.pid, PageOf(op));
    }
  }

  /** After pg_getpage the store meets a resident page or, after a failure, none. */
  lemma WriteFound(s: Sys, n: nat, op: MemOp, q: nat, b: nat)
    requires Contained(s, n) && Allowed(s, op) && op.WriteOp?
    requires Keeps(s, op, q, Pgn(b)) && Resident(s, q, b) && Unshared(Apply(s, op), q, Pgn(b))
    ensures ByteAt(Apply(s, op), q, b)
         == if op.pid == q && op.addr % BUS_SPACE == b % BUS_SPACE then Some(op.value) else ByteAt(s, q, b)
  {
    var r := Paged(s, op.pid, PageOf(op));
    hide Contained, Unshared, Allowed, Apply, Paged, Backed, Translate, ByteAt, Resident, Write, Pgn, PageOf;
    AccessMeans(s, op);
    AccessTables(s, op);
    PagedKeeps(s, op.pid, PageOf(op));
    PagedRanges(s, n, op.pid, PageOf(op));
    SameUnshared(Apply(s, op), r, q, Pgn(b));
    WriteTables(r, op.pid, op.addr, op.value);
    EntryKept(s, r, q, b);
    ResidentSigned(s, q, b);
    ResidentSigned(r, q, b);
    ResidentSigned(r, op.pid, op.addr);
    if Resident(r, op.pid, op.addr) {
      StoreIsFlat(r, n, op.pid, op.addr, op.value, q, b);
    } else {
      NoStore(r, op.pid, op.addr, op.value);
      if op.pid == q && op.addr % BUS_SPACE == b % BUS_SPACE {
        SamePage(r, q, op.addr, b);
      }
    }
  }

  lemma SameUnshared(s: Sys, t: Sys, q: nat, x: nat)
    requires t.spaces == s.spaces && Unshared(s, q, x)
    ensures Unshared(t, q, x)
  {
    hide PagePresent, PteFpn;
    assert forall p, y :: Mapped(t, p, y) == Mapped(s, p, y) && FrameOf(t, p, y) == FrameOf(s, p, y);
  }

  lemma PagedRanges(s: Sys, n: nat, pid: nat, pgn: nat)
    requires Contained(s, n) && pid in s.spaces && Backed(s, pid, pgn)
    ensures var r := Paged(s, pid, pgn); InRange(r, n) && n * PAGESZ <= |r.storage|
  {
    PagedDevices(s, n, pid, pgn);
    PagedInRange(s, n, pid, pgn);
    hide Paged, Backed, InRange, Contained;
  }

  lemma NoStore(s: Sys, pid: nat, addr: nat, value: Byte)
    requires pid in s.spaces && Translate(s, pid, addr) < 0
    ensures Translate(s, pid, addr) < |s.storage| && Write(s, pid, addr, value) == s
  {
  }

  /** One step of anybody: a resident byte whose page keeps its entry changes only by its own process's store. */
  lemma {:induction false} ByteStep(s: Sys, n: nat, op: MemOp, q: nat, b: nat)
    requires Contained(s, n) && Allowed(s, op)
    requires Keeps(s, op, q, Pgn(b)) && Resident(s, q, b) && Unshared(Apply(s, op), q, Pgn(b))
    ensures Resident(Apply(s, op), q, b)
    ensures ByteAt(Apply(s, op), q, b)
         == if op.WriteOp? && op.pid == q && op.addr % BUS_SPACE == b % BUS_SPACE then Some(op.value) else ByteAt(s, q, b)
  {
    hide Contained, Unshared, Allowed, Apply, Translate, ByteAt, Pgn;
    ResidentKept(s, Apply(s, op), q, b);
    if op.WriteOp? {
      WriteFound(s, n, op, q, b);
    } else {
      OtherStorage(s, op);
      EntryKept(s, Apply(s, op), q, b);
    }
  }

  lemma ResidentKept(s: Sys, t: Sys, q: nat, b: nat)
    requires Resident(s, q, b) && q in t.spaces && Lookup(t.spaces[q].pte, Pgn(b)) == Lookup(s.spaces[q].pte, Pgn(b))
    ensures Resident(t, q, b)
  {
    hide Low32, PagePresent, Pgn;
    AddressSplit(b);
  }

  /** Why a page keeps its frame to itself over a run: the frame is not frame 0, or nothing is shared and nothing evicted. */
  ghost predicate Private(s: Sys, n: nat, ops: seq<MemOp>, q: nat, x: nat)
    requires AllowedRun(s, ops)
  {
    FrameOf(s, q, x) != 0 || (Isolated(s, n) && EvictionFree(s, ops))
  }

  lemma PrivateStep(s: Sys, n: nat, ops: seq<MemOp>, q: nat, b: nat)
    requires Ready(s, n) && n <= FPN_LIMIT && AllowedRun(s, ops) && ops != []
    requires Private(s, n, ops, q, Pgn(b)) && Keeps(s, ops[0], q, Pgn(b)) && Resident(s, q, b)
    ensures Unshared(Apply(s, ops[0]), q, Pgn(b)) && Private(Apply(s, ops[0]), n, ops[1..], q, Pgn(b))
  {
    hide Contained, BreaksOk, Rooted, IsolatedBut, Unshared, Allowed, Apply, Evicting, Translate, PageIn, Pgn, Isolated;
    StepIsolatesIff(s, n, ops[0]);
    UnsharedFrames(Apply(s, ops[0]), n, q, Pgn(b));
    FrameKept(s, Apply(s, ops[0]), q, b);
  }

  lemma FrameKept(s: Sys, t: Sys, q: nat, b: nat)
    requires Resident(s, q, b) && q in t.spaces && Lookup(t.spaces[q].pte, Pgn(b)) == Lookup(s.spaces[q].pte, Pgn(b))
    ensures FrameOf(t, q, Pgn(b)) == FrameOf(s, q, Pgn(b))
  {
    hide PagePresent, PteFpn, Pgn;
    ResidentLoaded(s, q, b);
    ZeroFrame();
  }

  lemma ZeroFrame()
    ensures PteFpn(0) == 0
  {
  }

  /**
   Over any run of any processes - allocations, frees, loads, reads, stores, evictions - a byte of a
   resident page is the last value its process stored there, or what it was at the start, for as long
   as no step changes the entry of that page and the page is not on frame 0; and without evictions
   the same holds of frame 0.
   */
  lemma {:induction false} FlatRun(s: Sys, n: nat, ops: seq<MemOp>, q: nat, b: nat)
    requires Ready(s, n) && n <= FPN_LIMIT && AllowedRun(s, ops) && Private(s, n, ops, q, Pgn(b))
    requires Resident(s, q, b) && KeepsAll(s, ops, q, Pgn(b))
    ensures q in ApplyAll(s, ops).spaces && ByteAt(ApplyAll(s, ops), q, b) == LastByte(ops, q, b, ByteAt(s, q, b))
    decreases |ops|
  {
    hide Contained, BreaksOk, Rooted, IsolatedBut, Allowed, Apply, Resident, ByteAt, Keeps, Pgn, Private, Unshared;
    ResidentLoaded(s, q, b);
    if ops != [] {
      PrivateStep(s, n, ops, q, b);
      ByteStep(s, n, ops[0], q, b);
      StepIsolatesIff(s, n, ops[0]);
      ResidentLoaded(Apply(s, ops[0]), q, b);
      FlatRun(Apply(s, ops[0]), n, ops[1..], q, b);
    }
  }

  lemma ResidentLoaded(s: Sys, q: nat, b: nat)
    requires Resident(s, q, b)
    ensures q in s.spaces
  {
  }

  // ----- Runs of accesses -----

  /** The access finds its page. */
  predicate Hits(s: Sys, op: MemOp) {
    IsAccess(op) && op.pid in s.spaces && PageIn(s, op.pid, PageOf(op))
  }

  /** Every operation of the run is an access that finds its page. */
  predicate AllHit(s: Sys, ops: seq<MemOp>)
    requires AllowedRun(s, ops)
    decreases |ops|
  {
    ops != [] ==> Hits(s, ops[0]) && AllHit(Apply(s, ops[0]), ops[1..])
  }

  lemma HitKeeps(s: Sys, op: MemOp, q: nat, x: nat)
    requires Allowed(s, op) && Hits(s, op) && q in s.spaces
    ensures Apply(s, op).spaces == s.spaces && Keeps(s, op, q, x) && !Evicting(s, op)
  {
    hide PageIn, Translate, Write, Pgn, Backed, Allowed, Apply;
    AccessTables(s, op);
    PagedKeeps(s, op.pid, PageOf(op));
  }

  lemma {:induction false} HitsKeepAll(s: Sys, ops: seq<MemOp>, q: nat, x: nat)
    requires AllowedRun(s, ops) && AllHit(s, ops) && q in s.spaces
    ensures KeepsAll(s, ops, q, x) && EvictionFree(s, ops)
    decreases |ops|
  {
    hide Allowed, Apply, Hits, Keeps, Evicting;
    if ops != [] {
      HitKeeps(s, ops[0], q, x);
      HitsKeepAll(Apply(s, ops[0]), ops[1..], q, x);
    }
  }

  /** In particular over any interleaving of loads and stores, by any processes, that find their pages. */
  lemma {:induction false} FlatArray(s: Sys, n: nat, ops: seq<MemOp>, q: nat, b: nat)
    requires Ready(s, n) && Isolated(s, n) && n <= FPN_LIMIT && AllowedRun(s, ops) && AllHit(s, ops)
    requires Resident(s, q, b)
    ensures q in ApplyAll(s, ops).spaces && ByteAt(ApplyAll(s, ops), q, b) == LastByte(ops, q, b, ByteAt(s, q, b))
  {
    hide Ready, Isolated, AllowedRun, ApplyAll, AllHit, EvictionFree, KeepsAll, Resident, ByteAt, Pgn, LastByte;
    ResidentLoaded(s, q, b);
    HitsKeepAll(s, ops, q, Pgn(b));
    FlatRun(s, n, ops, q, b);
  }

  // ----- What an eviction does to bytes -----

  lemma MovedByte(s: Sys, r: Sys, pid: nat, e: Eviction, q: nat, b: nat)
    requires Moved(s, r, pid, e) && r.storage == s.storage && q in s.spaces && q in r.spaces
    ensures Translate(r, q, b) ==
            if q == pid && Pgn(b) == e.page then PhysAddr(e.frame, b)
            else if q == pid && Pgn(b) == e.victim then PhysAddr(e.number, b)
            else Translate(s, q, b)
  {
    hide Translate, Pgn, PhysAddr, Mapped, FrameOf;
    ResidentMeans(s, q, b);
    ResidentMeans(r, q, b);
    assert MovedAt(s, r, pid, e, q, Pgn(b));
    assert MovedAt(s, r, pid, e, pid, e.victim);
  }

  /**
   The bytes behind every address across an eviction: the missing page shows what the victim's
   frame holds, the victim page - which still counts as present - shows RAM frame 0, and every
   other page of every process shows what it did.
   */
  lemma {:induction false} EvictionBytes(s: Sys, n: nat, pid: nat, pgn: nat, q: nat, b: nat)
    requires Contained(s, n) && pid in s.spaces && q in s.spaces && Evicts(s, pid, pgn) && Backed(s, pid, pgn)
    ensures var r := Paged(s, pid, pgn); var e := EvictionOf(s, pid, pgn);
      && q in r.spaces && r.storage == s.storage
      && Translate(r, q, b) ==
           if q == pid && Pgn(b) == e.page then PhysAddr(e.frame, b)
           else if q == pid && Pgn(b) == e.victim then PhysAddr(0, b)
           else Translate(s, q, b)
  {
    hide Translate, Pgn, PhysAddr, Moved, Paged, Backed, Evicts, SpacePages, EvictionOf, DevicesOk, InRange;
    assert SpacePages(s.spaces[pid]);
    PagedKeeps(s, pid, pgn);
    AlwaysZero(s, n, pid, pgn);
    EvictionMoves(s, pid, pgn);
    MovedByte(s, Paged(s, pid, pgn), pid, EvictionOf(s, pid, pgn), q, b);
  }
}
