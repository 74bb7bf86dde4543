/**
 When no frame is shared.  Every eviction puts a page on a frame that somebody has already, so a run
 from boot keeps frames isolated exactly as long as it evicts nothing; and whatever it evicts, the
 only frame that is ever shared is frame 0.
 */
module Isolation {
  import opened Paging
  import opened Seqs
  import opened Space
  import opened Memory
  import opened Frames
  import RegionSafety

  // ----- Breaks -----

  const REACH: nat := 0x2_0000_0000 // more than one growth can move a break

  /** The break is the end, in whole pages, and not beyond the limit. */
  predicate BreakOk(sp: Space, limit: nat) {
    sp.sbrk == sp.vmEnd && sp.sbrk % PAGESZ64 == 0 && sp.sbrk <= limit
  }

  /** As long as there are frames for another run, breaks are in reach of the runs mapped so far. */
  ghost predicate BreaksOk(s: Sys, n: nat) {
    |s.frames| >= MAP_PAGES ==>
      && |s.frames| <= n
      && forall pid :: pid in s.spaces ==> BreakOk(s.spaces[pid], REACH * (1 + n - |s.frames|))
  }

  /** A break moves by at least a page and less than the reach when a run is mapped, and otherwise not at all. */
  ghost predicate BreakMoved(sp: Space, sp': Space, c: Change) {
    match c
    case Shuffled => sp'.sbrk == sp.sbrk && sp'.vmEnd == sp.vmEnd
    case Mapped3(pgn) =>
      && pgn == sp.sbrk / PAGESZ64 && sp'.sbrk == sp'.vmEnd && sp'.sbrk % PAGESZ64 == 0
      && sp.sbrk + PAGESZ64 <= sp'.sbrk <= sp.sbrk + REACH
  }

  lemma Rounded(size: nat)
    requires 0 < size < RegionSafety.SIZE_LIMIT
    ensures AlignUp(size) % PAGESZ64 == 0 && PAGESZ64 <= AlignUp(size) <= REACH
  {
    RegionSafety.NoWrap(size + PAGESZ64 - 1);
  }

  lemma CutBelow(size: nat)
    ensures Low32(size) < RegionSafety.SIZE_LIMIT
  {
  }

  lemma PlanMoves(sp: Space, size: nat)
    requires BreakOk(sp, REACH * FPN_LIMIT + REACH) && size < RegionSafety.SIZE_LIMIT
    ensures var plan := PlanGrowth(sp, size);
      && !plan.InPlace?
      && (plan.Extend? ==> size > 0 && plan.newEnd == sp.sbrk + AlignUp(size))
  {
    hide AlignUp;
    if size > 0 {
      Rounded(size);
      RegionSafety.NoWrap(sp.sbrk + size);
      RegionSafety.NoWrap(sp.sbrk + AlignUp(size));
    }
  }

  lemma GrowMoves(sp: Space, frames: seq<nat>, size: nat)
    requires BreakOk(sp, REACH * FPN_LIMIT + REACH) && size < RegionSafety.SIZE_LIMIT
    ensures BreakMoved(sp, Grow(sp, frames, size).0, if PlanGrowth(sp, size).Extend? then Mapped3(sp.sbrk / PAGESZ64) else Shuffled)
    ensures PlanGrowth(sp, size).Extend? ==> size > 0 && Grow(sp, frames, size).0.sbrk == sp.sbrk + AlignUp(size)
  {
    PlanMoves(sp, size);
    if PlanGrowth(sp, size).Extend? {
      Rounded(size);
      RegionSafety.AlignedSum(sp.sbrk, AlignUp(size));
    }
    hide PlanGrowth, AlignUp, MapPages, PushPages, Reverse, BreakOk;
  }

  lemma AllocMoves(sp: Space, frames: seq<nat>, found: bool, rgid: nat, size: nat)
    requires BreakOk(sp, REACH * FPN_LIMIT + REACH) && |frames| >= MAP_PAGES
    ensures BreakMoved(sp, Alloc(sp, frames, found, rgid, size).0, RunOf(sp, frames, found, size))
    ensures BreakMoved(sp, Kmalloc(sp, frames, found, rgid, size).0, RunOf(sp, frames, found, size))
    ensures RunOf(sp, frames, found, size).Mapped3? ==>
      && Low32(size) > 0 && Alloc(sp, frames, found, rgid, size).0.sbrk == sp.sbrk + AlignUp(Low32(size))
      && Kmalloc(sp, frames, found, rgid, size).0.sbrk == sp.sbrk + AlignUp(Low32(size))
  {
    hide TakeRegion, Grow, PlanGrowth, Int32, Wrap64, Low32, AlignUp;
    var t := TakeRegion(sp.free, Int32(size));
    if !t.ok && found {
      CutBelow(size);
      GrowMoves(sp.(free := t.free), frames, Low32(size));
      PlanIgnoresFree(sp, t.free, Low32(size));
    }
  }

  lemma OpMoves(s: Sys, op: MemOp)
    requires Allowed(s, op) && IsRegionOp(op) && SpaceOf(op) in s.spaces && |s.frames| >= MAP_PAGES
    requires BreakOk(s.spaces[SpaceOf(op)], REACH * FPN_LIMIT + REACH)
    ensures SpaceOf(op) in Apply(s, op).spaces
    ensures BreakMoved(s.spaces[SpaceOf(op)], Apply(s, op).spaces[SpaceOf(op)], Run(s, op))
    ensures Run(s, op).Mapped3? ==>
      && !op.FreeOp? && Low32(op.size) > 0
      && Apply(s, op).spaces[SpaceOf(op)].sbrk == s.spaces[SpaceOf(op)].sbrk + AlignUp(Low32(op.size))
  {
    hide AlignUp, Low32, Alloc, Kmalloc, Changes, RunOf, Fetch, Store, InDevices, Free, InitMm, Apply, BreakOk, BreakMoved;
    var sp, rest := OpChanges(s, op);
    match op
    case AllocOp(pid, found, rgid, size) => AllocMoves(s.spaces[pid], s.frames, found, rgid, size);
    case KmallocOp(found, rgid, size) => AllocMoves(s.spaces[KERNEL], s.frames, found, rgid, size);
    case FreeOp(pid, rgid) => StillBreak(s.spaces[pid], sp);
  }

  lemma StillBreak(sp: Space, sp': Space)
    requires sp'.sbrk == sp.sbrk && sp'.vmEnd == sp.vmEnd
    ensures BreakMoved(sp, sp', Shuffled)
  {
  }

  // ----- The frame that is never given up -----

  /** A page on frame 0 that no growth will map again: it lies below the break of its space. */
  ghost predicate Anchor(s: Sys, pid: nat, p: nat) {
    && Mapped(s, pid, p) && FrameOf(s, pid, p) == 0
    && (|s.frames| >= MAP_PAGES ==> PAGESZ64 * (p + 1) <= s.spaces[pid].sbrk)
  }

  /** Nothing has been mapped yet, and the first run will get frame 0. */
  ghost predicate Untouched(s: Sys) {
    && (forall pid :: pid in s.spaces ==> s.spaces[pid].pte == map[] && s.spaces[pid].fifo == [])
    && (|s.frames| >= MAP_PAGES ==> s.frames[0] == 0)
  }

  ghost predicate Rooted(s: Sys) {
    Untouched(s) || exists pid, p :: Anchor(s, pid, p)
  }

  /** What every run from boot keeps, evictions or not. */
  ghost predicate Ready(s: Sys, n: nat) {
    Contained(s, n) && IsolatedBut(s, n, {0}) && BreaksOk(s, n) && Rooted(s)
  }

  lemma BootReady(maxSize: nat, swapSize: nat)
    ensures Ready(Boot(maxSize, swapSize), maxSize / PAGESZ) && Isolated(Boot(maxSize, swapSize), maxSize / PAGESZ)
  {
    hide Contained;
    BootContained(maxSize, swapSize);
    var s := Boot(maxSize, swapSize);
    assert forall pid, p :: !Mapped(s, pid, p);
  }

  // ----- Growths -----

  lemma FarBreak(s: Sys, n: nat, pid: nat)
    requires BreaksOk(s, n) && n <= FPN_LIMIT && |s.frames| >= MAP_PAGES && pid in s.spaces
    ensures BreakOk(s.spaces[pid], REACH * FPN_LIMIT + REACH)
  {
  }

  lemma BreaksKept(s: Sys, n: nat, pid: nat, sp': Space, frames': seq<nat>, c: Change)
    requires BreaksOk(s, n) && pid in s.spaces && Changes(s.spaces[pid], s.frames, sp', frames', c)
    requires |s.frames| >= MAP_PAGES ==> BreakMoved(s.spaces[pid], sp', c)
    ensures BreaksOk(s.(spaces := s.spaces[pid := sp'], frames := frames'), n)
  {
    hide MapPages, PushPages;
  }

  lemma AnchorKept(s: Sys, n: nat, pid: nat, sp': Space, frames': seq<nat>, c: Change, q: nat, x: nat)
    requires Anchor(s, q, x) && IsolatedBut(s, n, {0}) && n <= FPN_LIMIT
    requires BreaksOk(s, n) && pid in s.spaces && Changes(s.spaces[pid], s.frames, sp', frames', c)
    requires |s.frames| >= MAP_PAGES ==> BreakMoved(s.spaces[pid], sp', c)
    ensures Anchor(s.(spaces := s.spaces[pid := sp'], frames := frames'), q, x)
  {
    hide PagePresent, PteFpn, MapPages, PushPages, Nth, IsolatedBut, Reverse;
    if q == pid && c.Mapped3? {
      FarBreak(s, n, pid);
      BelowRun(c.pgn, x);
      MapPagesKeeps(s.spaces[pid].pte, c.pgn, s.frames[..MAP_PAGES], x);
    }
  }

  /** A run above a page does not come round to it. */
  lemma BelowRun(pgn: nat, x: nat)
    requires x < pgn && pgn + MAP_PAGES < PAGES
    ensures !InRun(pgn, MAP_PAGES, x)
  {
    assert forall i :: 0 <= i < MAP_PAGES ==> Nth(pgn, i) == pgn + i;
  }

  /** The first run brings frame 0 in. */
  lemma FirstRun(s: Sys, n: nat, pid: nat, sp': Space, frames': seq<nat>, pgn: nat)
    requires Untouched(s) && n <= FPN_LIMIT && BreaksOk(s, n)
    requires pid in s.spaces && Changes(s.spaces[pid], s.frames, sp', frames', Mapped3(pgn))
    requires BreakMoved(s.spaces[pid], sp', Mapped3(pgn))
    ensures Anchor(s.(spaces := s.spaces[pid := sp'], frames := frames'), pid, pgn)
  {
    hide PagePresent, PteFpn, MapPages, PushPages;
    FarBreak(s, n, pid);
    MapPagesSets(s.spaces[pid].pte, pgn, s.frames[..MAP_PAGES], 0);
    assert Nth(pgn, 0) == pgn;
  }

  lemma RootedKept(s: Sys, n: nat, pid: nat, sp': Space, frames': seq<nat>, c: Change)
    requires Rooted(s) && IsolatedBut(s, n, {0}) && n <= FPN_LIMIT
    requires BreaksOk(s, n) && pid in s.spaces && Changes(s.spaces[pid], s.frames, sp', frames', c)
    requires |s.frames| >= MAP_PAGES ==> BreakMoved(s.spaces[pid], sp', c)
    ensures Rooted(s.(spaces := s.spaces[pid := sp'], frames := frames'))
  {
    hide Anchor, IsolatedBut, BreaksOk, BreakMoved, MapPages, PushPages;
    if q, x :| Anchor(s, q, x) {
      AnchorKept(s, n, pid, sp', frames', c, q, x);
    } else if c.Mapped3? {
      FirstRun(s, n, pid, sp', frames', c.pgn);
    }
  }

  lemma RegionReady(s: Sys, n: nat, op: MemOp)
    requires Ready(s, n) && n <= FPN_LIMIT && Allowed(s, op) && IsRegionOp(op)
    ensures Ready(Apply(s, op), n) && (Isolated(s, n) ==> Isolated(Apply(s, op), n))
  {
    hide Contained, IsolatedBut, BreaksOk, Rooted, Allowed, Apply, Changes, BreakMoved, BreakOk, Run;
    var sp, rest := OpChanges(s, op);
    var pid, c := SpaceOf(op), Run(s, op);
    if |s.frames| >= MAP_PAGES {
      FarBreak(s, n, pid);
      OpMoves(s, op);
    }
    AllocContained(s, n, pid, sp, rest, c);
    ChangeIsolates(s, n, {0}, pid, sp, rest, c);
    BreaksKept(s, n, pid, sp, rest, c);
    RootedKept(s, n, pid, sp, rest, c);
    if Isolated(s, n) {
      ChangeIsolates(s, n, {}, pid, sp, rest, c);
    }
  }

  // ----- Loading -----

  lemma LoadRooted(s: Sys, n: nat, pid: nat)
    requires Rooted(s) && BreaksOk(s, n) && pid !in s.spaces
    ensures var s' := s.(spaces := s.spaces[pid := InitMm(false)]); Rooted(s') && BreaksOk(s', n)
  {
    hide PagePresent, PteFpn;
    var s' := s.(spaces := s.spaces[pid := InitMm(false)]);
    if q, x :| Anchor(s, q, x) {
      assert Anchor(s', q, x);
    }
  }

  lemma LoadReady(s: Sys, n: nat, op: MemOp)
    requires Ready(s, n) && Allowed(s, op) && op.LoadOp?
    ensures Ready(Apply(s, op), n) && (Isolated(s, n) ==> Isolated(Apply(s, op), n))
  {
    hide Contained, IsolatedBut, BreaksOk, Rooted, Allowed, Apply, InitMm;
    LoadMeans(s, op);
    LoadContained(s, n, op.pid);
    LoadIsolates(s, n, {0}, op.pid);
    LoadRooted(s, n, op.pid);
    if Isolated(s, n) {
      LoadIsolates(s, n, {}, op.pid);
    }
  }

  // ----- Accesses -----

  /** The guard of the eviction: the page is absent, a page is enlisted, and a swap frame is free. */
  predicate Evicting(s: Sys, op: MemOp) {
    IsAccess(op) && op.pid in s.spaces && Evicts(s, op.pid, PageOf(op))
  }

  /** What an access does beyond the page tables is nothing that frames depend on. */
  lemma SameReady(r: Sys, t: Sys, n: nat)
    requires t.spaces == r.spaces && t.frames == r.frames
    ensures IsolatedBut(r, n, {0}) <==> IsolatedBut(t, n, {0})
    ensures Isolated(r, n) <==> Isolated(t, n)
    ensures BreaksOk(r, n) ==> BreaksOk(t, n)
    ensures Rooted(r) ==> Rooted(t)
  {
    hide PagePresent, PteFpn, FreeListOk;
    assert forall q, p :: Mapped(t, q, p) == Mapped(r, q, p) && FrameOf(t, q, p) == FrameOf(r, q, p);
    if Rooted(r) && !Untouched(r) {
      var q, x :| Anchor(r, q, x);
      assert Anchor(t, q, x);
    }
  }

  /** pg_getpage moves no break. */
  lemma PagedBreaks(s: Sys, pid: nat, pgn: nat)
    requires pid in s.spaces && Backed(s, pid, pgn)
    ensures var r := Paged(s, pid, pgn);
      && r.spaces.Keys == s.spaces.Keys && r.frames == s.frames
      && forall q :: q in s.spaces ==> r.spaces[q].sbrk == s.spaces[q].sbrk && r.spaces[q].vmEnd == s.spaces[q].vmEnd
  {
    hide PageIn, SwapAfter, WithFpn, WithSwap, PteFpn, Low32;
  }

  lemma PagedBreaksOk(s: Sys, n: nat, pid: nat, pgn: nat)
    requires BreaksOk(s, n) && pid in s.spaces && Backed(s, pid, pgn)
    ensures BreaksOk(Paged(s, pid, pgn), n)
  {
    hide Paged, Backed;
    PagedBreaks(s, pid, pgn);
  }

  /** A victim that was on frame 0 stays on it, and every other page of an anchor stays too. */
  lemma MovedAnchor(s: Sys, r: Sys, pid: nat, e: Eviction, q: nat, x: nat)
    requires Moved(s, r, pid, e) && e.number == 0 && Anchor(s, q, x)
    requires r.spaces.Keys == s.spaces.Keys && forall p :: p in s.spaces ==> r.spaces[p].sbrk == s.spaces[p].sbrk
    ensures Anchor(r, q, x)
  {
    hide FrameOf;
    assert MovedAt(s, r, pid, e, q, x);
  }

  /** After an eviction two pages are on frame 0: the victim and the anchor, or the victim and the page for which it went. */
  lemma MovedShares(s: Sys, r: Sys, n: nat, pid: nat, e: Eviction, q: nat, x: nat)
    requires Moved(s, r, pid, e) && e.number == 0 && Anchor(s, q, x) && e.victim != e.page
    ensures !Isolated(r, n)
  {
    hide Mapped, FrameOf, FreeListOk;
    assert MovedAt(s, r, pid, e, q, x) && MovedAt(s, r, pid, e, pid, e.victim) && MovedAt(s, r, pid, e, pid, e.page);
    if q == pid && x == e.victim {
      assert FrameOf(r, pid, e.page) == 0 == FrameOf(r, pid, e.victim);
    } else {
      assert FrameOf(r, q, x) == 0 == FrameOf(r, pid, e.victim);
    }
  }

  lemma EvictionReady(s: Sys, n: nat, pid: nat, pgn: nat)
    requires Ready(s, n) && pid in s.spaces && Evicts(s, pid, pgn) && Backed(s, pid, pgn)
    ensures var r := Paged(s, pid, pgn); IsolatedBut(r, n, {0}) && Rooted(r) && !Isolated(r, n)
  {
    hide Paged, Backed, Moved, IsolatedBut, Isolated, SpacePages, DevicesOk, InRange, Anchor, EvictionOf, BreaksOk;
    assert SpacePages(s.spaces[pid]);
    assert !Untouched(s);
    EvictionMoves(s, pid, pgn);
    AlwaysZero(s, n, pid, pgn);
    PagedBreaks(s, pid, pgn);
    var r, e := Paged(s, pid, pgn), EvictionOf(s, pid, pgn);
    var q, x :| Anchor(s, q, x);
    MovedAnchor(s, r, pid, e, q, x);
    AnchorTaken(s, n, q, x);
    MovedIsolates(s, r, n, {0}, pid, e);
    MovedDiffer(s, r, pid, e);
    MovedShares(s, r, n, pid, e, q, x);
  }

  lemma AnchorTaken(s: Sys, n: nat, q: nat, x: nat)
    requires IsolatedBut(s, n, {0}) && Anchor(s, q, x)
    ensures 0 < n && 0 !in s.frames
  {
  }

  lemma MovedDiffer(s: Sys, r: Sys, pid: nat, e: Eviction)
    requires Moved(s, r, pid, e)
    ensures e.victim != e.page
  {
  }

  lemma StayReady(s: Sys, n: nat, pid: nat, pgn: nat)
    requires IsolatedBut(s, n, {0}) && Rooted(s) && pid in s.spaces && !Evicts(s, pid, pgn) && Backed(s, pid, pgn)
    ensures var r := Paged(s, pid, pgn); IsolatedBut(r, n, {0}) && Rooted(r) && (Isolated(s, n) ==> Isolated(r, n))
  {
    hide IsolatedBut, Evicts, Paged, Backed, FreeListOk, SamePages;
    var r := Paged(s, pid, pgn);
    NoEviction(s, pid, pgn);
    PagedBreaks(s, pid, pgn);
    FreeOf(s, n, {0});
    SamePagesIsolate(s, r, n, {0});
    if Isolated(s, n) {
      SamePagesIsolate(s, r, n, {});
    }
    SameRooted(s, pid, pgn);
  }

  lemma FreeOf(s: Sys, n: nat, z: set<nat>)
    requires IsolatedBut(s, n, z)
    ensures FreeListOk(s.frames, n)
  {
  }

  lemma SameRooted(s: Sys, pid: nat, pgn: nat)
    requires Rooted(s) && pid in s.spaces && !Evicts(s, pid, pgn) && Backed(s, pid, pgn)
    ensures Rooted(Paged(s, pid, pgn))
  {
    var r := Paged(s, pid, pgn);
    hide PageIn, Mapped, FrameOf, Evict;
    if q, x :| Anchor(s, q, x) {
      hide Paged, Backed, Evicts;
      NoEviction(s, pid, pgn);
      PagedBreaks(s, pid, pgn);
      assert Mapped(s, q, x) ==> q in s.spaces by { MappedLoaded(s, q, x); }
      assert Anchor(r, q, x);
    } else {
      assert s.spaces[pid].fifo == [];
    }
  }

  lemma MappedLoaded(s: Sys, q: nat, x: nat)
    requires Mapped(s, q, x)
    ensures q in s.spaces
  {
  }

  lemma AccessReady(s: Sys, n: nat, op: MemOp)
    requires Ready(s, n) && Allowed(s, op) && IsAccess(op)
    ensures Ready(Apply(s, op), n)
    ensures Isolated(s, n) ==> (Isolated(Apply(s, op), n) <==> !Evicting(s, op))
    ensures Evicting(s, op) ==> !Isolated(Apply(s, op), n)
  {
    hide Contained, IsolatedBut, Isolated, BreaksOk, Rooted, Allowed, Apply, Evicts, Paged, Backed, PageOf;
    AccessContained(s, n, op);
    AccessTables(s, op);
    var pid, pgn := op.pid, PageOf(op);
    PagedBreaksOk(s, n, pid, pgn);
    SameReady(Paged(s, pid, pgn), Apply(s, op), n);
    if Evicts(s, pid, pgn) {
      EvictionReady(s, n, pid, pgn);
    } else {
      StayReady(s, n, pid, pgn);
    }
  }

  // ----- Every step, and every run -----

  /**
   Every operation keeps what is kept; and from an isolated state it keeps frames isolated if and only
   if it does not evict, which its caller can see from page table, page FIFO and swap device.
   */
  lemma {:induction false} StepIsolatesIff(s: Sys, n: nat, op: MemOp)
    requires Ready(s, n) && n <= FPN_LIMIT && Allowed(s, op)
    ensures Ready(Apply(s, op), n)
    ensures Isolated(s, n) ==> (Isolated(Apply(s, op), n) <==> !Evicting(s, op))
  {
    hide Ready, Isolated, Allowed, Apply, Evicts;
    if IsAccess(op) {
      AccessReady(s, n, op);
    } else if op.LoadOp? {
      LoadReady(s, n, op);
    } else {
      RegionReady(s, n, op);
    }
  }

  lemma {:induction false} RunReady(s: Sys, n: nat, ops: seq<MemOp>)
    requires Ready(s, n) && n <= FPN_LIMIT && AllowedRun(s, ops)
    ensures Ready(ApplyAll(s, ops), n)
    decreases |ops|
  {
    hide Apply, Ready, Allowed;
    if ops != [] {
      StepIsolatesIff(s, n, ops[0]);
      RunReady(Apply(s, ops[0]), n, ops[1..]);
    }
  }

  /**
   After every run from boot, with any number of evictions: two pages share a frame only if it is
   frame 0, no mapped frame is free, and no frame is twice in the free list.
   */
  lemma {:induction false} OnlyFrameZero(maxSize: nat, swapSize: nat, ops: seq<MemOp>)
    requires maxSize / PAGESZ <= FPN_LIMIT && AllowedRun(Boot(maxSize, swapSize), ops)
    ensures IsolatedBut(ApplyAll(Boot(maxSize, swapSize), ops), maxSize / PAGESZ, {0})
  {
    hide AllowedRun, ApplyAll, Boot, Contained, IsolatedBut, BreaksOk, Rooted;
    BootReady(maxSize, swapSize);
    RunReady(Boot(maxSize, swapSize), maxSize / PAGESZ, ops);
  }

  /** No access of the run evicts a page. */
  predicate EvictionFree(s: Sys, ops: seq<MemOp>)
    requires AllowedRun(s, ops)
    decreases |ops|
  {
    ops != [] ==> !Evicting(s, ops[0]) && EvictionFree(Apply(s, ops[0]), ops[1..])
  }

  /** Frames are isolated now and after every operation of the run. */
  ghost predicate Throughout(s: Sys, n: nat, ops: seq<MemOp>)
    requires AllowedRun(s, ops)
    decreases |ops|
  {
    Isolated(s, n) && (ops != [] ==> Throughout(Apply(s, ops[0]), n, ops[1..]))
  }

  lemma {:induction false} ThroughoutFrom(s: Sys, n: nat, ops: seq<MemOp>)
    requires Ready(s, n) && Isolated(s, n) && n <= FPN_LIMIT && AllowedRun(s, ops)
    ensures Throughout(s, n, ops) <==> EvictionFree(s, ops)
    decreases |ops|
  {
    hide Apply, Ready, Isolated, Allowed, Evicting;
    if ops != [] {
      StepIsolatesIff(s, n, ops[0]);
      if Isolated(Apply(s, ops[0]), n) {
        ThroughoutFrom(Apply(s, ops[0]), n, ops[1..]);
      } else {
        assert !Throughout(Apply(s, ops[0]), n, ops[1..]);
      }
    }
  }

  /**
   A run from boot keeps frames isolated throughout if and only if no access of it finds its page
   absent, a page enlisted and a swap frame free.
   */
  lemma {:induction false} ThroughoutIff(maxSize: nat, swapSize: nat, ops: seq<MemOp>)
    requires maxSize / PAGESZ <= FPN_LIMIT && AllowedRun(Boot(maxSize, swapSize), ops)
    ensures Throughout(Boot(maxSize, swapSize), maxSize / PAGESZ, ops) <==> EvictionFree(Boot(maxSize, swapSize), ops)
  {
    hide AllowedRun, Throughout, EvictionFree, Boot, Ready, Isolated;
    BootReady(maxSize, swapSize);
    ThroughoutFrom(Boot(maxSize, swapSize), maxSize / PAGESZ, ops);
  }

  lemma {:induction false} EvictionFreeIsolates(s: Sys, n: nat, ops: seq<MemOp>)
    requires Ready(s, n) && Isolated(s, n) && n <= FPN_LIMIT && AllowedRun(s, ops) && EvictionFree(s, ops)
    ensures Isolated(ApplyAll(s, ops), n)
    decreases |ops|
  {
    hide Apply, Ready, Isolated, Allowed, Evicting;
    if ops != [] {
      StepIsolatesIff(s, n, ops[0]);
      EvictionFreeIsolates(Apply(s, ops[0]), n, ops[1..]);
    }
  }

  lemma {:induction false} NoAccesses(s: Sys, ops: seq<MemOp>)
    requires AllowedRun(s, ops) && forall i :: 0 <= i < |ops| ==> !IsAccess(ops[i])
    ensures EvictionFree(s, ops)
    decreases |ops|
  {
    hide Allowed, Apply, Evicts;
    if ops != [] { NoAccesses(Apply(s, ops[0]), ops[1..]); }
  }
}
