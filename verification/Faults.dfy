/**
 Page faults as their caller sees them: what every access does to page table, page FIFO, RAM and the
 swap device, byte by byte; which accesses succeed; and the order in which pages become victims.
 */
module Faults {
  import opened Paging
  import opened PageTable
  import opened Seqs
  import opened Space
  import opened Memory
  import opened Frames
  import MemPhy

  // ----- The three ways of an access -----

  predicate IsMapped(s: Sys, op: MemOp) {
    IsAccess(op) && Mapped(s, op.pid, Pgn(op.addr))
  }

  /** A page is enlisted and a swap frame is free. */
  predicate CanEvict(s: Sys, pid: nat) {
    pid in s.spaces && s.spaces[pid].fifo != [] && s.swap.free != []
  }

  /** The page at the tail of the page FIFO. */
  function Oldest(s: Sys, pid: nat): nat
    requires pid in s.spaces && s.spaces[pid].fifo != []
  {
    s.spaces[pid].fifo[|s.spaces[pid].fifo| - 1] % PAGES
  }

  /** RAM after an access to page frame `frame`: a store changes its one byte, a load nothing. */
  ghost predicate OneByte(before: seq<Byte>, after: seq<Byte>, op: MemOp, frame: nat)
    requires IsAccess(op)
  {
    && |after| == |before|
    && forall i :: 0 <= i < |before| ==>
         after[i] == if op.WriteOp? && i == frame * PAGESZ + op.addr % PAGESZ then op.value else before[i]
  }

  lemma WriteByte(s: Sys, n: nat, r: Sys, op: MemOp, frame: nat)
    requires IsAccess(op) && op.pid in r.spaces && Translate(r, op.pid, op.addr) == PhysAddr(frame, op.addr)
    requires Translate(r, op.pid, op.addr) < |r.storage| && r.storage == s.storage
    ensures OneByte(s.storage, (if op.WriteOp? then Write(r, op.pid, op.addr, op.value) else r).storage, op, frame)
  {
    hide Translate, PhysAddr, Offst;
    PhysAddrArith(frame, op.addr);
    OffstArith(op.addr);
  }

  lemma TranslatePage(s: Sys, pid: nat, addr: nat)
    requires pid in s.spaces
    ensures Mapped(s, pid, Pgn(addr)) ==> Translate(s, pid, addr) == PhysAddr(FrameOf(s, pid, Pgn(addr)), addr)
    ensures !Mapped(s, pid, Pgn(addr)) ==> Translate(s, pid, addr) == -1
    ensures Mapped(s, pid, Pgn(addr)) <==> PageIn(s, pid, Pgn(addr))
  {
    hide PagePresent, PteFpn, Low32, PhysAddr, Pgn;
    AddressSplit(addr);
    assert Pgn(addr) % PAGES == Pgn(addr);
    LowWordDecodes(Lookup(s.spaces[pid].pte, Pgn(addr)));
    NothingPresent();
  }

  /** The page is there: at most one byte of its frame changes. */
  lemma {:induction false} AccessHits(s: Sys, n: nat, op: MemOp)
    requires Contained(s, n) && Allowed(s, op) && IsMapped(s, op)
    ensures var t := Apply(s, op);
      && t == s.(storage := t.storage) && OneByte(s.storage, t.storage, op, FrameOf(s, op.pid, Pgn(op.addr)))
  {
    hide Contained, Paged, Backed, Translate, Write, Pgn, PageIn, Allowed, Apply, PhysAddr, FrameOf, Mapped, OneByte;
    AccessMeans(s, op);
    PagedKeeps(s, op.pid, Pgn(op.addr));
    TranslatePage(s, op.pid, op.addr);
    WriteByte(s, n, s, op, FrameOf(s, op.pid, Pgn(op.addr)));
    if op.WriteOp? {
      WriteShape(s, op);
    }
  }

  lemma WriteShape(s: Sys, op: MemOp)
    requires op.WriteOp? && op.pid in s.spaces && Translate(s, op.pid, op.addr) < |s.storage|
    ensures var r := Write(s, op.pid, op.addr, op.value); r == s.(storage := r.storage)
  {
    hide Translate;
  }

  /** It is absent and nothing can be evicted: the access fails, and may still cost the oldest page its place. */
  lemma {:induction false} AccessFails(s: Sys, n: nat, op: MemOp)
    requires Contained(s, n) && Allowed(s, op) && IsAccess(op) && !IsMapped(s, op) && !CanEvict(s, op.pid)
    ensures op.pid in s.spaces
    ensures var sp := s.spaces[op.pid];
      Apply(s, op) == if sp.fifo == [] then s else s.(spaces := s.spaces[op.pid := sp.(fifo := sp.fifo[..|sp.fifo| - 1])])
  {
    hide Contained, Translate, Pgn, PageIn, Mapped, Backed, Allowed, Apply, Evict, SwapAfter;
    AccessMeans(s, op);
    TranslatePage(s, op.pid, op.addr);
    var r := Paged(s, op.pid, Pgn(op.addr));
    SameTranslate(s, r, op.pid, op.addr);
  }

  lemma SameTranslate(s: Sys, t: Sys, pid: nat, addr: nat)
    requires pid in s.spaces && pid in t.spaces && t.spaces[pid].pte == s.spaces[pid].pte
    ensures Translate(t, pid, addr) == Translate(s, pid, addr)
  {
    hide PhysAddr, Low32, PteFpn, PagePresent, Pgn;
  }

  /** What an eviction copies: the victim's whole frame to swap frame 0, and nothing anywhere else. */
  ghost predicate CopiedOut(s: Sys, t: Sys, frame: nat) {
    && t.swap.free == s.swap.free && |t.swap.storage| == |s.swap.storage| >= PAGESZ && (frame + 1) * PAGESZ <= |s.storage|
    && (forall i :: 0 <= i < PAGESZ ==> t.swap.storage[i] == s.storage[frame * PAGESZ + i])
    && (forall i :: PAGESZ <= i < |s.swap.storage| ==> t.swap.storage[i] == s.swap.storage[i])
  }

  lemma PagedCopies(s: Sys, n: nat, pid: nat, pgn: nat)
    requires Contained(s, n) && pid in s.spaces && Evicts(s, pid, pgn) && Backed(s, pid, pgn)
    ensures CopiedOut(s, Paged(s, pid, pgn), VictimFrame(s, pid))
  {
    hide PagePresent, PteFpn, PteSwpOff, Low32, MemPhy.CopyFrame, InRange, SpacePages, Mapped, FrameOf, Evict;
    assert SpacePages(s.spaces[pid]);
    PageInMeans(s, pid, pgn);
    AlwaysZero(s, n, pid, pgn);
    assert TargetFrame(s, pid, pgn) == 0 == s.swap.free[0];
  }

  /** The page FIFO and everything but the page table of the space, across an eviction. */
  lemma PagedQueue(s: Sys, pid: nat, pgn: nat)
    requires pid in s.spaces && Evicts(s, pid, pgn) && Backed(s, pid, pgn)
    ensures var r := Paged(s, pid, pgn); var sp := s.spaces[pid];
      && r.spaces.Keys == s.spaces.Keys && (forall q :: q in s.spaces && q != pid ==> r.spaces[q] == s.spaces[q])
      && r.spaces[pid] == sp.(pte := r.spaces[pid].pte, fifo := [pgn] + sp.fifo[..|sp.fifo| - 1])
      && r.frames == s.frames && r.storage == s.storage
  {
    hide PagePresent, PteFpn, PteSwpOff, Low32, WithFpn, WithSwap, SwapAfter;
  }

  /** Where every page is after an eviction of page v of space pid for page x. */
  ghost predicate PagesSwapped(s: Sys, t: Sys, pid: nat, v: nat, x: nat) {
    && Mapped(s, pid, v) && v != x
    && Mapped(t, pid, x) && FrameOf(t, pid, x) == FrameOf(s, pid, v)
    && Mapped(t, pid, v) && FrameOf(t, pid, v) == 0
    && (forall q, y :: !(q == pid && (y == x || y == v)) ==>
          (Mapped(t, q, y) <==> Mapped(s, q, y)) && (Mapped(s, q, y) ==> FrameOf(t, q, y) == FrameOf(s, q, y)))
  }

  lemma MovedSwaps(s: Sys, r: Sys, pid: nat, e: Eviction)
    requires Moved(s, r, pid, e) && e.number == 0
    ensures PagesSwapped(s, r, pid, e.victim, e.page)
  {
    hide Mapped, FrameOf;
    assert MovedAt(s, r, pid, e, pid, e.victim) && MovedAt(s, r, pid, e, pid, e.page);
    forall q, y | !(q == pid && (y == e.page || y == e.victim))
      ensures (Mapped(r, q, y) <==> Mapped(s, q, y)) && (Mapped(s, q, y) ==> FrameOf(r, q, y) == FrameOf(s, q, y))
    {
      assert MovedAt(s, r, pid, e, q, y);
    }
  }

  lemma SameSwapped(s: Sys, r: Sys, t: Sys, pid: nat, v: nat, x: nat)
    requires PagesSwapped(s, r, pid, v, x) && t.spaces == r.spaces
    ensures PagesSwapped(s, t, pid, v, x)
  {
    hide PagePresent, PteFpn;
    assert forall q, p :: Mapped(t, q, p) == Mapped(r, q, p) && FrameOf(t, q, p) == FrameOf(r, q, p);
  }

  lemma PagedSwaps(s: Sys, n: nat, pid: nat, pgn: nat)
    requires Contained(s, n) && pid in s.spaces && Evicts(s, pid, pgn) && Backed(s, pid, pgn)
    ensures PagesSwapped(s, Paged(s, pid, pgn), pid, Oldest(s, pid), pgn % PAGES)
    ensures VictimFrame(s, pid) == FrameOf(s, pid, Oldest(s, pid))
  {
    hide Paged, Backed, Moved, DevicesOk, InRange, SpacePages, PagesSwapped, FrameOf, Mapped, PageIn, VictimFrame;
    assert SpacePages(s.spaces[pid]);
    EvictionMoves(s, pid, pgn);
    VictimMeans(s, pid);
    AlwaysZero(s, n, pid, pgn);
    MovedSwaps(s, Paged(s, pid, pgn), pid, EvictionOf(s, pid, pgn));
  }

  /**
   It is absent and there is a victim: the oldest page leaves the page FIFO and the missing one
   enters at the other end; the missing page gets the victim's frame, the victim is left on frame
   0, every other page of every space stays; swap frame 0 receives the victim's bytes; and a store
   then changes its one byte of that frame.
   */
  lemma {:induction false} AccessEvicts(s: Sys, n: nat, op: MemOp)
    requires Contained(s, n) && Allowed(s, op) && IsAccess(op) && !IsMapped(s, op) && CanEvict(s, op.pid)
    ensures var t := Apply(s, op); var sp := s.spaces[op.pid]; var v, x := Oldest(s, op.pid), Pgn(op.addr);
      && t.spaces.Keys == s.spaces.Keys && (forall q :: q in s.spaces && q != op.pid ==> t.spaces[q] == s.spaces[q])
      && t.spaces[op.pid] == sp.(pte := t.spaces[op.pid].pte, fifo := [x] + sp.fifo[..|sp.fifo| - 1])
      && t.frames == s.frames
      && PagesSwapped(s, t, op.pid, v, x) && CopiedOut(s, t, FrameOf(s, op.pid, v))
      && OneByte(s.storage, t.storage, op, FrameOf(s, op.pid, v))
  {
    hide *;
    AbsentMeans(s, op);
    AccessMeans(s, op);
    AccessTables(s, op);
    PageBelow(op.addr);
    PagedQueue(s, op.pid, PageOf(op));
    PagedSwaps(s, n, op.pid, PageOf(op));
    PagedCopies(s, n, op.pid, PageOf(op));
    var r, t := Paged(s, op.pid, PageOf(op)), Apply(s, op);
    SameSwapped(s, r, t, op.pid, Oldest(s, op.pid), Pgn(op.addr));
    SwappedIn(s, r, op.pid, Oldest(s, op.pid), Pgn(op.addr));
    TranslatePage(r, op.pid, op.addr);
    WriteByte(s, n, r, op, FrameOf(s, op.pid, Oldest(s, op.pid)));
    SameCopied(s, r, t, FrameOf(s, op.pid, Oldest(s, op.pid)));
  }

  /** The guard of the eviction, in the terms used here. */
  lemma AbsentMeans(s: Sys, op: MemOp)
    requires Allowed(s, op) && IsAccess(op)
    ensures op.pid in s.spaces && (op.ReadOp? || op.WriteOp?) && PageOf(op) == Pgn(op.addr)
    ensures Evicts(s, op.pid, PageOf(op)) <==> !IsMapped(s, op) && CanEvict(s, op.pid)
    ensures CanEvict(s, op.pid) ==> s.spaces[op.pid].fifo != []
  {
    hide Pgn, PageIn, Mapped, InDevices;
    TranslatePage(s, op.pid, op.addr);
  }

  lemma PageBelow(addr: nat)
    ensures Pgn(addr) % PAGES == Pgn(addr)
  {
    hide Pgn;
    AddressSplit(addr);
  }

  lemma SwappedIn(s: Sys, r: Sys, pid: nat, v: nat, x: nat)
    requires PagesSwapped(s, r, pid, v, x)
    ensures Mapped(r, pid, x) && FrameOf(r, pid, x) == FrameOf(s, pid, v)
  {
    hide Mapped, FrameOf;
  }

  lemma SameCopied(s: Sys, r: Sys, t: Sys, frame: nat)
    requires CopiedOut(s, r, frame) && t.swap == r.swap
    ensures CopiedOut(s, t, frame)
  {
  }

  // ----- Which accesses succeed -----

  /** An access finds its page in the end if and only if it was there, or a page was enlisted and a swap frame free. */
  lemma {:induction false} ServedIff(s: Sys, n: nat, op: MemOp)
    requires Contained(s, n) && Allowed(s, op) && IsAccess(op)
    ensures IsMapped(Apply(s, op), op) <==> IsMapped(s, op) || CanEvict(s, op.pid)
  {
    hide Contained, Allowed, Apply, CanEvict, Mapped, FrameOf, CopiedOut, OneByte, Oldest;
    if IsMapped(s, op) {
      AccessHits(s, n, op);
      SameMapped(s, Apply(s, op), op.pid, Pgn(op.addr));
    } else if CanEvict(s, op.pid) {
      AccessEvicts(s, n, op);
    } else {
      AccessFails(s, n, op);
      SameMapped(s, Apply(s, op), op.pid, Pgn(op.addr));
    }
  }

  lemma SameMapped(s: Sys, t: Sys, pid: nat, p: nat)
    requires pid in s.spaces ==> pid in t.spaces && t.spaces[pid].pte == s.spaces[pid].pte
    requires pid in t.spaces ==> pid in s.spaces
    ensures Mapped(t, pid, p) <==> Mapped(s, pid, p)
  {
    hide PagePresent;
  }

  /** The page FIFO of a space, empty before it is loaded. */
  function FifoOf(s: Sys, q: nat): seq<nat> {
    if q in s.spaces then s.spaces[q].fifo else []
  }

  /** What an access does to the page FIFO of any space, and to the free swap frames. */
  lemma AccessQueue(s: Sys, n: nat, op: MemOp, q: nat)
    requires Contained(s, n) && Allowed(s, op) && IsAccess(op)
    ensures Apply(s, op).swap.free == s.swap.free && (q in s.spaces ==> q in Apply(s, op).spaces)
    ensures var old_ := FifoOf(s, q);
      FifoOf(Apply(s, op), q) ==
        if q != op.pid || IsMapped(s, op) || old_ == [] then old_
        else (if CanEvict(s, q) then [Pgn(op.addr)] else []) + old_[..|old_| - 1]
  {
    hide Contained, Allowed, Apply, Mapped, FrameOf, OneByte, Oldest, PagesSwapped, Pgn;
    if IsMapped(s, op) {
      AccessHits(s, n, op);
    } else if CanEvict(s, op.pid) {
      AccessEvicts(s, n, op);
    } else {
      AccessFails(s, n, op);
    }
  }

  /** The pages that an operation enlists in space q, in order. */
  function EnlistedBy(s: Sys, op: MemOp, q: nat): seq<nat>
    requires Allowed(s, op)
  {
    hide Allowed;
    if IsRegionOp(op) && Run(s, op).Mapped3? && SpaceOf(op) == q && q in s.spaces then
      var pgn := s.spaces[q].sbrk / PAGESZ64;
      [pgn, pgn + 1, pgn + 2]
    else if IsAccess(op) && op.pid == q && !IsMapped(s, op) && CanEvict(s, q) then [Pgn(op.addr)]
    else []
  }

  /** The page that an access of space q takes out of its page FIFO. */
  function VictimsBy(s: Sys, op: MemOp, q: nat): seq<nat> {
    if IsAccess(op) && op.pid == q && !IsMapped(s, op) && FifoOf(s, q) != [] then [FifoOf(s, q)[|FifoOf(s, q)| - 1]] else []
  }

  lemma RunStarts(s: Sys, op: MemOp)
    requires Allowed(s, op) && IsRegionOp(op) && Run(s, op).Mapped3?
    ensures SpaceOf(op) in s.spaces && Run(s, op).pgn == s.spaces[SpaceOf(op)].sbrk / PAGESZ64
  {
    hide TakeRegion, PlanGrowth, InDevices;
  }

  lemma RunPushed(fifo: seq<nat>, pgn: nat)
    ensures PushPages(fifo, pgn, MAP_PAGES) == [pgn + 2] + ([pgn + 1] + ([pgn] + fifo))
    ensures Reverse(PushPages(fifo, pgn, MAP_PAGES)) == Reverse(fifo) + [pgn, pgn + 1, pgn + 2]
  {
    assert PushPages(fifo, pgn, 1) == [pgn] + fifo;
    assert PushPages(fifo, pgn, 2) == [pgn + 1] + ([pgn] + fifo);
    hide Reverse;
    ReverseCons(pgn, fifo);
    ReverseCons(pgn + 1, [pgn] + fifo);
    ReverseCons(pgn + 2, [pgn + 1] + ([pgn] + fifo));
    assert ((Reverse(fifo) + [pgn]) + [pgn + 1]) + [pgn + 2] == Reverse(fifo) + [pgn, pgn + 1, pgn + 2];
  }

  lemma ChangedQueue(sp: Space, frames: seq<nat>, sp': Space, frames': seq<nat>, c: Change)
    requires Changes(sp, frames, sp', frames', c)
    ensures c.Shuffled? ==> sp'.fifo == sp.fifo
    ensures c.Mapped3? ==> Reverse(sp'.fifo) == Reverse(sp.fifo) + [c.pgn, c.pgn + 1, c.pgn + 2] && |sp'.fifo| == |sp.fifo| + 3
  {
    hide MapPages, PushPages, Reverse;
    if c.Mapped3? {
      RunPushed(sp.fifo, c.pgn);
    }
  }

  lemma RegionEnlists(s: Sys, op: MemOp, q: nat)
    requires Allowed(s, op) && IsRegionOp(op)
    ensures Run(s, op).Mapped3? && SpaceOf(op) == q ==>
      q in s.spaces && EnlistedBy(s, op, q) == [Run(s, op).pgn, Run(s, op).pgn + 1, Run(s, op).pgn + 2]
    ensures !(Run(s, op).Mapped3? && SpaceOf(op) == q) ==> EnlistedBy(s, op, q) == []
  {
    hide Allowed, Run, CanEvict, IsMapped;
    if Run(s, op).Mapped3? {
      RunStarts(s, op);
    }
  }

  lemma RegionQueue(s: Sys, op: MemOp, q: nat)
    requires Allowed(s, op) && IsRegionOp(op)
    ensures Apply(s, op).swap.free == s.swap.free && (q in s.spaces ==> q in Apply(s, op).spaces)
    ensures Reverse(FifoOf(Apply(s, op), q)) == Reverse(FifoOf(s, q)) + EnlistedBy(s, op, q)
    ensures |FifoOf(Apply(s, op), q)| >= |FifoOf(s, q)|
  {
    hide *;
    var sp, rest := OpChanges(s, op);
    ChangedQueue(s.spaces[SpaceOf(op)], s.frames, sp, rest, Run(s, op));
    RegionEnlists(s, op, q);
    FifoUpdated(s, SpaceOf(op), sp, rest, q);
    NothingMore(Reverse(FifoOf(s, q)));
  }

  lemma NothingMore(a: seq<nat>)
    ensures a + [] == a && [] + a == a
  {
  }

  lemma FifoUpdated(s: Sys, pid: nat, sp: Space, rest: seq<nat>, q: nat)
    requires pid in s.spaces
    ensures FifoOf(s, pid) == s.spaces[pid].fifo
    ensures FifoOf(s.(spaces := s.spaces[pid := sp], frames := rest), q) == if q == pid then sp.fifo else FifoOf(s, q)
  {
  }

  lemma FaultOrder(fifo: seq<nat>, fresh_: seq<nat>)
    requires fifo != [] && |fresh_| <= 1
    ensures Reverse(fifo) + fresh_ == [fifo[|fifo| - 1]] + Reverse(fresh_ + fifo[..|fifo| - 1])
  {
    hide Reverse;
    var older := fifo[..|fifo| - 1];
    ReverseLast(fifo);
    if fresh_ == [] {
      assert fresh_ + older == older;
    } else {
      ReverseCons(fresh_[0], older);
      assert fresh_ == [fresh_[0]];
      assert ([fifo[|fifo| - 1]] + Reverse(older)) + fresh_ == [fifo[|fifo| - 1]] + (Reverse(older) + fresh_);
    }
  }

  /** One step: what waited and what is enlisted are the victim and what waits then, in order. */
  lemma StepOrder(s: Sys, n: nat, op: MemOp, q: nat)
    requires Contained(s, n) && Allowed(s, op)
    ensures Reverse(FifoOf(s, q)) + EnlistedBy(s, op, q) == VictimsBy(s, op, q) + Reverse(FifoOf(Apply(s, op), q))
    ensures Apply(s, op).swap.free == s.swap.free
    ensures CanEvict(s, q) ==> CanEvict(Apply(s, op), q)
  {
    hide Contained, Allowed, Apply, Mapped, Run, Pgn, Reverse, InitMm;
    var f := FifoOf(s, q);
    if IsAccess(op) {
      AccessQueue(s, n, op, q);
      if op.pid == q && !IsMapped(s, op) && f != [] {
        FaultOrder(f, if CanEvict(s, q) then [Pgn(op.addr)] else []);
        assert [] + f[..|f| - 1] == f[..|f| - 1];
      }
    } else if op.LoadOp? {
      LoadMeans(s, op);
      FreshFifo();
    } else {
      RegionQueue(s, op, q);
    }
    assert Reverse(f) + [] == Reverse(f) && [] + Reverse(FifoOf(Apply(s, op), q)) == Reverse(FifoOf(Apply(s, op), q));
  }

  lemma FreshFifo()
    ensures InitMm(false).fifo == []
  {
  }

  /** Every access of space q in the run ends with its page there. */
  ghost predicate AllServed(s: Sys, ops: seq<MemOp>, q: nat)
    requires AllowedRun(s, ops)
    decreases |ops|
  {
    ops != [] ==>
      && (IsAccess(ops[0]) && ops[0].pid == q ==> IsMapped(Apply(s, ops[0]), ops[0]))
      && AllServed(Apply(s, ops[0]), ops[1..], q)
  }

  /**
   Once a space has an enlisted page and there is a swap frame, it keeps one whatever anybody does, and
   no access of it ever fails again.
   */
  lemma {:induction false} NeverFails(s: Sys, n: nat, ops: seq<MemOp>, q: nat)
    requires Contained(s, n) && AllowedRun(s, ops) && CanEvict(s, q)
    ensures CanEvict(ApplyAll(s, ops), q) && AllServed(s, ops, q)
    decreases |ops|
  {
    hide Contained, Allowed, Apply, CanEvict, Mapped;
    if ops != [] {
      StepOrder(s, n, ops[0], q);
      StepContained(s, n, ops[0]);
      if IsAccess(ops[0]) {
        ServedIff(s, n, ops[0]);
      }
      NeverFails(Apply(s, ops[0]), n, ops[1..], q);
    }
  }

  // ----- First in, first out -----

  function Enlisted(s: Sys, ops: seq<MemOp>, q: nat): seq<nat>
    requires AllowedRun(s, ops)
    decreases |ops|
  {
    if ops == [] then [] else EnlistedBy(s, ops[0], q) + Enlisted(Apply(s, ops[0]), ops[1..], q)
  }

  function Victims(s: Sys, ops: seq<MemOp>, q: nat): seq<nat>
    requires AllowedRun(s, ops)
    decreases |ops|
  {
    if ops == [] then [] else VictimsBy(s, ops[0], q) + Victims(Apply(s, ops[0]), ops[1..], q)
  }

  lemma Shift(a: seq<nat>, e: seq<nat>, es: seq<nat>, v: seq<nat>, b: seq<nat>, vs: seq<nat>, c: seq<nat>)
    requires a + e == v + b && b + es == vs + c
    ensures a + (e + es) == (v + vs) + c
  {
    assert a + (e + es) == (a + e) + es;
    assert (v + b) + es == v + (b + es);
    assert v + (vs + c) == (v + vs) + c;
  }

  /** Over any run: what waited and what growths and faults enlist, in order, are the victims and what waits at the end. */
  lemma {:induction false} RunOrder(s: Sys, n: nat, ops: seq<MemOp>, q: nat)
    requires Contained(s, n) && AllowedRun(s, ops)
    ensures Reverse(FifoOf(s, q)) + Enlisted(s, ops, q) == Victims(s, ops, q) + Reverse(FifoOf(ApplyAll(s, ops), q))
    decreases |ops|
  {
    hide Contained, Allowed, Apply, EnlistedBy, VictimsBy, FifoOf, Reverse, CanEvict;
    if ops != [] {
      var t := Apply(s, ops[0]);
      StepOrder(s, n, ops[0], q);
      StepContained(s, n, ops[0]);
      RunOrder(t, n, ops[1..], q);
      Shift(Reverse(FifoOf(s, q)), EnlistedBy(s, ops[0], q), Enlisted(t, ops[1..], q),
            VictimsBy(s, ops[0], q), Reverse(FifoOf(t, q)), Victims(t, ops[1..], q), Reverse(FifoOf(ApplyAll(s, ops), q)));
    }
  }

  /**
   In every run from boot the victims of a space are the first pages that its growths and its faults
   enlisted, in the same order; the rest is what its page FIFO still holds.
   */
  lemma {:induction false} VictimsAreOldest(maxSize: nat, swapSize: nat, ops: seq<MemOp>, q: nat)
    requires AllowedRun(Boot(maxSize, swapSize), ops)
    ensures var s := Boot(maxSize, swapSize);
      && Enlisted(s, ops, q) == Victims(s, ops, q) + Reverse(FifoOf(ApplyAll(s, ops), q))
      && Victims(s, ops, q) <= Enlisted(s, ops, q)
  {
    var s := Boot(maxSize, swapSize);
    assert Reverse(FifoOf(s, q)) == [];
    hide Boot, Contained, AllowedRun, ApplyAll, Enlisted, Victims, FifoOf, Reverse;
    BootContained(maxSize, swapSize);
    RunOrder(s, maxSize / PAGESZ, ops, q);
    assert [] + Enlisted(s, ops, q) == Enlisted(s, ops, q);
  }

  // ----- What the swap device holds -----

  predicate Replacing(s: Sys, op: MemOp) {
    IsAccess(op) && !IsMapped(s, op) && CanEvict(s, op.pid)
  }

  /** The bytes of the frame that an eviction takes. */
  function Taken(s: Sys, pid: nat): seq<Byte>
    requires pid in s.spaces && s.spaces[pid].fifo != []
  {
    var f := FrameOf(s, pid, Oldest(s, pid));
    if (f + 1) * PAGESZ <= |s.storage| then s.storage[f * PAGESZ..(f + 1) * PAGESZ] else []
  }

  /** The victim's bytes of the last eviction of the run, or what was there. */
  function LastTaken(s: Sys, ops: seq<MemOp>, before: seq<Byte>): seq<Byte>
    requires AllowedRun(s, ops)
    decreases |ops|
  {
    if ops == [] then before
    else LastTaken(Apply(s, ops[0]), ops[1..], if Replacing(s, ops[0]) then Taken(s, ops[0].pid) else before)
  }

  lemma StepSwap(s: Sys, n: nat, op: MemOp)
    requires Contained(s, n) && Allowed(s, op) && PAGESZ <= |s.swap.storage|
    ensures var t := Apply(s, op);
      && |t.swap.storage| == |s.swap.storage| && t.swap.storage[PAGESZ..] == s.swap.storage[PAGESZ..]
      && t.swap.storage[..PAGESZ] == if Replacing(s, op) then Taken(s, op.pid) else s.swap.storage[..PAGESZ]
  {
    hide Contained, Allowed, Apply, Mapped, FrameOf, OneByte, PagesSwapped, Oldest, InitMm;
    if Replacing(s, op) {
      AccessEvicts(s, n, op);
    } else if IsMapped(s, op) {
      AccessHits(s, n, op);
    } else if IsAccess(op) {
      AccessFails(s, n, op);
    } else if op.LoadOp? {
      LoadMeans(s, op);
    } else {
      var sp, rest := OpChanges(s, op);
    }
  }

  /**
   The swap device over any run: its first frame holds the bytes that the victim of the last eviction
   had in RAM at that moment, and every other byte is what it was.
   */
  lemma {:induction false} SwapHolds(s: Sys, n: nat, ops: seq<MemOp>)
    requires Contained(s, n) && AllowedRun(s, ops) && PAGESZ <= |s.swap.storage|
    ensures var t := ApplyAll(s, ops);
      && |t.swap.storage| == |s.swap.storage| && t.swap.storage[PAGESZ..] == s.swap.storage[PAGESZ..]
      && t.swap.storage[..PAGESZ] == LastTaken(s, ops, s.swap.storage[..PAGESZ])
    decreases |ops|
  {
    hide Contained, Allowed, Apply, Replacing, Taken;
    if ops != [] {
      StepSwap(s, n, ops[0]);
      StepContained(s, n, ops[0]);
      SwapHolds(Apply(s, ops[0]), n, ops[1..]);
    }
  }
}
