/** A run of the repository that shares a frame: the first store of input/proc/m0s. */
module SampleRun {
  import opened Paging
  import opened Space
  import opened Memory
  import opened Frames
  import opened Isolation
  import RegionSafety

  /** The memory operations of input/proc/m0s up to its first store, which goes to byte 20 of variable 1. */
  function Prelude(): seq<MemOp> {
    [LoadOp(1), AllocOp(1, true, 0, 300), AllocOp(1, true, 1, 100), FreeOp(1, 0), AllocOp(1, true, 2, 100)]
  }

  /** Page 0 on frame 0 is the oldest page, page 16 is absent, swap frame 0 is the first free one. */
  ghost predicate OldestOnZero(s: Sys) {
    && KERNEL in s.spaces && 1 in s.spaces
    && Mapped(s, 1, 0) && FrameOf(s, 1, 0) == 0 && 16 !in s.spaces[1].pte
    && s.spaces[1].fifo != [] && Victim(s.spaces[1]) == 0
    && s.swap.free != [] && s.swap.free[0] == 0
  }

  lemma OneRun(pte: map<nat, nat>, pgn: nat, fpns: seq<nat>, p: nat)
    requires |fpns| == 3 && pgn + 3 < PAGES && p < PAGES
    ensures p in MapPages(pte, pgn, fpns) <==> p in pte || pgn <= p < pgn + 3
    ensures !(pgn <= p < pgn + 3) && p in pte ==> MapPages(pte, pgn, fpns)[p] == pte[p]
    ensures pgn <= p < pgn + 3 ==> PagePresent(MapPages(pte, pgn, fpns)[p]) && PteFpn(MapPages(pte, pgn, fpns)[p]) == fpns[p - pgn] % FPN_LIMIT
  {
    hide MapPages, PagePresent, PteFpn;
    if pgn <= p < pgn + 3 {
      assert Nth(pgn, p - pgn) == p;
      MapPagesSets(pte, pgn, fpns, p - pgn);
    } else {
      assert forall i :: 0 <= i < 3 ==> Nth(pgn, i) == pgn + i;
      MapPagesKeeps(pte, pgn, fpns, p);
    }
  }

  lemma ThreePushed(fifo: seq<nat>, pgn: nat)
    ensures PushPages(fifo, pgn, MAP_PAGES) == [pgn + 2, pgn + 1, pgn] + fifo
  {
    assert PushPages(fifo, pgn, 1) == [pgn] + fifo;
    assert PushPages(fifo, pgn, 2) == [pgn + 1, pgn] + fifo;
  }

  /** A growing request of a process with nothing free: its region, its run of pages and what they cost. */
  lemma GrowsOnce(sp: Space, frames: seq<nat>, rgid: nat, size: nat)
    requires RegionSafety.Safe(sp) && sp.free == [Region(0, 0)] && sp.sbrk < 0x1000_0000 && rgid < SYMBOLS
    requires 0 < size <= PAGESZ64 && MAP_PAGES <= |frames|
    ensures var (sp', rest) := Alloc(sp, frames, true, rgid, size);
      && RegionSafety.Safe(sp') && sp'.free == sp.free && sp'.sbrk == sp.sbrk + PAGESZ64
      && |sp.sym| == SYMBOLS && sp'.sym == sp.sym[rgid := Region(sp.sbrk, sp.sbrk + size)]
      && sp'.pte == MapPages(sp.pte, sp.sbrk / PAGESZ64, frames[..MAP_PAGES])
      && sp'.fifo == PushPages(sp.fifo, sp.sbrk / PAGESZ64, MAP_PAGES) && rest == frames[MAP_PAGES..]
  {
    hide Alloc, RegionSafety.Safe, MapPages, PushPages, TakeRegion, PlanGrowth, AlignUp, Int32;
    RegionSafety.SafeShape(sp);
    RegionSafety.EmptyGrows(sp, frames, rgid, size);
    RegionSafety.OnePage(size);
    AllocChanges(sp, frames, true, rgid, size);
  }

  /** A freed region is the first fit for a smaller request: no page is mapped, no entry changes. */
  lemma Refits(sp: Space, frames: seq<nat>, rgid: nat, size: nat)
    requires sp.free != [] && sp.free[0].start == 0 && 0 <= size <= sp.free[0].end < 0x1000_0000 && rgid < |sp.sym|
    ensures var (sp', rest) := Alloc(sp, frames, true, rgid, size);
      sp'.pte == sp.pte && sp'.fifo == sp.fifo && rest == frames && |sp'.sym| == |sp.sym|
      && forall i :: 0 <= i < |sp.sym| && i != rgid ==> sp'.sym[i] == sp.sym[i]
  {
    RegionSafety.IntSize(size);
    RegionSafety.NoWrap(size);
    assert FirstFit(sp.free, size) == 0;
  }

  /** Page 0 is mapped on frame 0 and is the oldest, page 16 is not mapped. */
  ghost predicate ZeroFirst(sp: Space) {
    && 0 in sp.pte && PagePresent(sp.pte[0]) && PteFpn(sp.pte[0]) == 0 && 16 !in sp.pte
    && sp.fifo != [] && sp.fifo[|sp.fifo| - 1] == 0
  }

  /** The space while nothing is free and `taken` requests of at most a page have grown it. */
  ghost predicate Growing(sp: Space, taken: nat) {
    RegionSafety.Safe(sp) && sp.free == [NO_REGION] && sp.sbrk == PAGESZ64 * taken && |sp.sym| == SYMBOLS
  }

  lemma FirstRequest(sp: Space, frames: seq<nat>, size: nat)
    requires Growing(sp, 0) && sp.pte == map[] && sp.fifo == []
    requires |frames| >= 3 && frames[0] == 0 && 0 < size <= PAGESZ64
    ensures var (sp', rest) := Alloc(sp, frames, true, 0, size);
      Growing(sp', 1) && ZeroFirst(sp') && sp'.sym[0] == Region(0, size) && rest == frames[3..]
  {
    hide Alloc, RegionSafety.Safe, MapPages, PushPages, PagePresent, PteFpn, InitMm;
    var pgn := sp.sbrk / PAGESZ64;
    GrowsOnce(sp, frames, 0, size);
    OneRun(sp.pte, pgn, frames[..3], pgn);
    OneRun(sp.pte, pgn, frames[..3], pgn + 16);
    ThreePushed(sp.fifo, pgn);
  }

  lemma FreshGrowing(sp: Space)
    requires sp == InitMm(false)
    ensures Growing(sp, 0) && sp.pte == map[] && sp.fifo == []
  {
    hide RegionSafety.Safe;
    RegionSafety.FreshSpace(sp);
  }

  lemma SecondRequest(sp: Space, frames: seq<nat>, size: nat)
    requires Growing(sp, 1) && ZeroFirst(sp) && |frames| >= 3 && 0 < size <= PAGESZ64
    ensures var (sp', rest) := Alloc(sp, frames, true, 1, size);
      && Growing(sp', 2) && ZeroFirst(sp') && sp'.sym[0] == sp.sym[0] && sp'.sym[1].start == PAGESZ64 && |sp'.sym| == SYMBOLS
      && rest == frames[3..]
  {
    hide Alloc, RegionSafety.Safe, MapPages, PushPages, PagePresent, PteFpn, InitMm;
    GrowsOnce(sp, frames, 1, size);
    OneRun(sp.pte, 1, frames[..3], 0);
    OneRun(sp.pte, 1, frames[..3], 16);
    ThreePushed(sp.fifo, 1);
  }

  /** Freeing the first variable and asking for less takes from its region and maps nothing. */
  lemma ThirdRequest(sp: Space, frames: seq<nat>, first: nat, size: nat)
    requires Growing(sp, 2) && ZeroFirst(sp) && sp.sym[0] == Region(0, first) && 0 < size <= first <= PAGESZ64
    ensures var sp' := Alloc(Free(sp, 0), frames, true, 2, size).0;
      ZeroFirst(sp') && |sp'.sym| == SYMBOLS && sp'.sym[1] == sp.sym[1]
  {
    hide Alloc, RegionSafety.Safe, PagePresent, PteFpn;
    var freed := Free(sp, 0);
    assert freed.free == [Region(0, first)] + sp.free;
    Refits(freed, frames, 2, size);
  }

  /** Process 1 with this space, the next free frames, and an untouched swap device. */
  ghost predicate Stage(s: Sys, sp: Space, frames: seq<nat>, swap: Swap) {
    KERNEL in s.spaces && 1 in s.spaces && s.spaces[1] == sp && s.frames == frames && s.swap == swap
  }

  lemma AllocStage(s: Sys, sp: Space, frames: seq<nat>, swap: Swap, rgid: nat, size: nat)
    requires Stage(s, sp, frames, swap) && rgid < SYMBOLS
    ensures Allowed(s, AllocOp(1, true, rgid, size))
    ensures var (sp', rest) := Alloc(sp, frames, true, rgid, size); Stage(Apply(s, AllocOp(1, true, rgid, size)), sp', rest, swap)
  {
    hide Alloc, Kmalloc, Free, Fetch, Store, InDevices, InitMm;
  }

  lemma FreeStage(s: Sys, sp: Space, frames: seq<nat>, swap: Swap)
    requires Stage(s, sp, frames, swap) && |sp.sym| == SYMBOLS
    ensures Allowed(s, FreeOp(1, 0)) && Stage(Apply(s, FreeOp(1, 0)), Free(sp, 0), frames, swap)
  {
    hide Alloc, Kmalloc, Free, Fetch, Store, InDevices, InitMm;
  }

  lemma LoadStage(b: Sys, maxSize: nat, swapSize: nat)
    requires b == Boot(maxSize, swapSize)
    ensures Allowed(b, LoadOp(1))
    ensures Stage(Apply(b, LoadOp(1)), InitMm(false), seq(maxSize / PAGESZ, i => i), b.swap)
  {
    hide Alloc, Kmalloc, Free, Fetch, Store, InDevices, InitMm;
  }

  lemma LastStage(s: Sys, sp: Space, frames: seq<nat>, swap: Swap)
    requires Stage(s, sp, frames, swap) && ZeroFirst(sp) && swap.free != [] && swap.free[0] == 0
    ensures OldestOnZero(s)
  {
    hide PagePresent, PteFpn;
  }

  /** The prelude's states, one by one. */
  lemma PreludeStates(b: Sys, maxSize: nat, swapSize: nat, size0: nat, size1: nat) returns (s: Sys)
    requires b == Boot(maxSize, swapSize) && maxSize / PAGESZ >= 6 && swapSize / PAGESZ >= 1
    requires 0 < size1 <= size0 <= PAGESZ64
    ensures var ops := [LoadOp(1), AllocOp(1, true, 0, size0), AllocOp(1, true, 1, size1), FreeOp(1, 0), AllocOp(1, true, 2, size1)];
      AllowedRun(b, ops) && s == ApplyAll(b, ops)
    ensures OldestOnZero(s) && |s.spaces[1].sym| == SYMBOLS && s.spaces[1].sym[1].start == PAGESZ64
  {
    var frames := seq(maxSize / PAGESZ, i => i);
    var sp := InitMm(false);
    FreshGrowing(sp);
    assert b.swap.free != [] && b.swap.free[0] == 0;
    hide Alloc, Free, InitMm, ZeroFirst, Growing, AllowedRun, ApplyAll, Apply, Allowed, OldestOnZero, Boot;
    LoadStage(b, maxSize, swapSize);
    FirstRequest(sp, frames, size0);
    var (sp1, f1) := Alloc(sp, frames, true, 0, size0);
    SecondRequest(sp1, f1, size1);
    var (sp2, f2) := Alloc(sp1, f1, true, 1, size1);
    ThirdRequest(sp2, f2, size0, size1);
    var (sp3, f3) := Alloc(Free(sp2, 0), f2, true, 2, size1);
    var l, a, c, f, d := LoadOp(1), AllocOp(1, true, 0, size0), AllocOp(1, true, 1, size1), FreeOp(1, 0), AllocOp(1, true, 2, size1);
    var b1 := Apply(b, l);
    AllocStage(b1, sp, frames, b.swap, 0, size0);
    var b2 := Apply(b1, a);
    AllocStage(b2, sp1, f1, b.swap, 1, size1);
    var b3 := Apply(b2, c);
    FreeStage(b3, sp2, f2, b.swap);
    var b4 := Apply(b3, f);
    AllocStage(b4, Free(sp2, 0), f2, b.swap, 2, size1);
    s := Apply(b4, d);
    LastStage(s, sp3, f3, b.swap);
    FiveRun(b, l, a, c, f, d);
  }

  lemma FiveRun(s: Sys, a: MemOp, b: MemOp, c: MemOp, d: MemOp, e: MemOp)
    requires Allowed(s, a)
    requires Allowed(Apply(s, a), b)
    requires Allowed(Apply(Apply(s, a), b), c)
    requires Allowed(Apply(Apply(Apply(s, a), b), c), d)
    requires Allowed(Apply(Apply(Apply(Apply(s, a), b), c), d), e)
    ensures AllowedRun(s, [a, b, c, d, e])
    ensures ApplyAll(s, [a, b, c, d, e]) == Apply(Apply(Apply(Apply(Apply(s, a), b), c), d), e)
  {
    hide Apply, Allowed;
    var s1 := Apply(s, a);
    var s2 := Apply(s1, b);
    var s3 := Apply(s2, c);
    var s4 := Apply(s3, d);
    assert AllowedRun(Apply(s4, e), []) && ApplyAll(Apply(s4, e), []) == Apply(s4, e);
    ConsRun(s4, e, []);
    ConsRun(s3, d, [e]);
    ConsRun(s2, c, [d, e]);
    ConsRun(s1, b, [c, d, e]);
    ConsRun(s, a, [b, c, d, e]);
    assert [e] + [] == [e] && [d] + [e] == [d, e] && [c] + [d, e] == [c, d, e];
    assert [b] + [c, d, e] == [b, c, d, e] && [a] + [b, c, d, e] == [a, b, c, d, e];
  }

  lemma PreludeRun(maxSize: nat, swapSize: nat) returns (s: Sys)
    requires maxSize / PAGESZ >= 6 && swapSize / PAGESZ >= 1
    ensures AllowedRun(Boot(maxSize, swapSize), Prelude()) && s == ApplyAll(Boot(maxSize, swapSize), Prelude())
    ensures OldestOnZero(s) && |s.spaces[1].sym| == SYMBOLS && s.spaces[1].sym[1].start == PAGESZ64
    ensures forall i :: 0 <= i < |Prelude()| ==> !IsAccess(Prelude()[i])
  {
    hide Boot, AllowedRun, ApplyAll, OldestOnZero;
    s := PreludeStates(Boot(maxSize, swapSize), maxSize, swapSize, 300, 100);
  }

  lemma StoreEvicts(s: Sys, n: nat, addr: nat, value: Byte)
    requires Contained(s, n) && OldestOnZero(s) && Pgn(addr) == 16
    ensures Allowed(s, WriteOp(1, addr, value)) && Evicting(s, WriteOp(1, addr, value))
  {
    hide PagePresent, PteFpn, PteSwpOff, Low32, InDevices, Pgn, DevicesOk, InRange;
    AccessInDevices(s, n, 1, addr);
    assert SpacePages(s.spaces[1]);
    PageInMeans(s, 1, 16);
  }

  lemma M0sStore(s: Sys, n: nat, start: nat, value: Byte) returns (store: MemOp)
    requires Ready(s, n) && Isolated(s, n) && OldestOnZero(s) && n <= FPN_LIMIT && start == PAGESZ64
    ensures store == WriteOp(1, start + 20, value)
    ensures Allowed(s, store) && Evicting(s, store) && !Isolated(Apply(s, store), n)
  {
    hide Contained, BreaksOk, Rooted, IsolatedBut, Isolated, Allowed, Apply, Evicting, Pgn, OldestOnZero;
    store := WriteOp(1, start + 20, value);
    PgnArith(start + 20);
    StoreEvicts(s, n, start + 20, value);
    StepIsolatesIff(s, n, store);
  }

  lemma OneLoaded(s: Sys)
    requires OldestOnZero(s)
    ensures 1 in s.spaces
  {
  }

  /**
   The next store of that program, to byte 20 of variable 1, takes the fault branch: page 0 keeps
   counting as present on frame 0, and page 16 gets frame 0 too.
   */
  lemma {:induction false} M0sSharesAFrame(maxSize: nat, swapSize: nat, value: Byte) returns (before: Sys, store: MemOp)
    requires 6 <= maxSize / PAGESZ <= FPN_LIMIT && swapSize / PAGESZ >= 1
    ensures AllowedRun(Boot(maxSize, swapSize), Prelude()) && before == ApplyAll(Boot(maxSize, swapSize), Prelude())
    ensures 1 in before.spaces && |before.spaces[1].sym| == SYMBOLS
    ensures store == WriteOp(1, before.spaces[1].sym[1].start + 20, value) && Allowed(before, store)
    ensures Isolated(before, maxSize / PAGESZ) && Evicting(before, store) && !Isolated(Apply(before, store), maxSize / PAGESZ)
  {
    hide Boot, AllowedRun, ApplyAll, Isolated, Ready, OldestOnZero, Allowed, Apply, EvictionFree;
    var s, n := Boot(maxSize, swapSize), maxSize / PAGESZ;
    before := PreludeRun(maxSize, swapSize);
    BootReady(maxSize, swapSize);
    NoAccesses(s, Prelude());
    RunReady(s, n, Prelude());
    EvictionFreeIsolates(s, n, Prelude());
    OneLoaded(before);
    store := M0sStore(before, n, before.spaces[1].sym[1].start, value);
  }
}
