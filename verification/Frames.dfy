/**
 Which frames are whose: frames that no two pages share, what a growth and an eviction do to them,
 and everything that stays inside the two devices.
 */
module Frames {
  import opened Bits
  import opened Paging
  import opened PageTable
  import opened Seqs
  import opened Space
  import opened Memory
  import MemPhy

  // ----- Frame ownership -----

  /** Free frames are distinct frames of the device. */
  ghost predicate FreeListOk(frames: seq<nat>, n: nat) {
    && (forall i :: 0 <= i < |frames| ==> frames[i] < n)
    && (forall i, j :: 0 <= i < j < |frames| ==> frames[i] != frames[j])
  }

  /** Two mapped pages, of one space or of two, share a frame only if it is one of `z`, and no mapped frame is free. */
  ghost predicate IsolatedBut(s: Sys, n: nat, z: set<nat>) {
    && FreeListOk(s.frames, n)
    && (forall pid, p :: Mapped(s, pid, p) ==> FrameOf(s, pid, p) < n && FrameOf(s, pid, p) !in s.frames)
    && (forall pid, p, pid', p' ::
          (&& Mapped(s, pid, p) && Mapped(s, pid', p')
           && FrameOf(s, pid, p) == FrameOf(s, pid', p') && FrameOf(s, pid, p) !in z) ==> pid == pid' && p == p')
  }

  /** No two mapped pages share a frame, and no mapped frame is free. */
  ghost predicate Isolated(s: Sys, n: nat) {
    IsolatedBut(s, n, {})
  }

  // ----- What a growth does to the page table -----

  /** Page number i of a run that starts at pgn. */
  function Nth(pgn: nat, i: nat): nat {
    (pgn + i) % PAGES
  }

  lemma NthDistinct(pgn: nat, i: nat, j: nat)
    requires i < j < PAGES
    ensures Nth(pgn, i) != Nth(pgn, j)
  {
    var q, q' := (pgn + i) / PAGES, (pgn + j) / PAGES;
    assert pgn + i == PAGES * q + Nth(pgn, i);
    assert pgn + j == PAGES * q' + Nth(pgn, j);
  }

  /** Page i of the run decodes to frame i, whatever its entry held before. */
  lemma {:induction false} MapPagesSets(pte: map<nat, nat>, pgn: nat, fpns: seq<nat>, i: nat)
    requires i < |fpns| < PAGES
    ensures Nth(pgn, i) in MapPages(pte, pgn, fpns)
    ensures PagePresent(MapPages(pte, pgn, fpns)[Nth(pgn, i)])
    ensures PteFpn(MapPages(pte, pgn, fpns)[Nth(pgn, i)]) == fpns[i] % FPN_LIMIT
    decreases |fpns|
  {
    hide PagePresent, PteFpn, WithFpn;
    var n := |fpns| - 1;
    var before := MapPages(pte, pgn, fpns[..n]);
    if i < n {
      NthDistinct(pgn, i, n);
      MapPagesSets(pte, pgn, fpns[..n], i);
    } else {
      var old_ := Lookup(before, Nth(pgn, n));
      WithFpnFlags(old_, fpns[n]);
      WithFpnFrame(old_, fpns[n]);
    }
  }

  predicate InRun(pgn: nat, n: nat, p: nat) {
    exists i :: 0 <= i < n && p == Nth(pgn, i)
  }

  /** Pages outside the run keep their entries. */
  lemma {:induction false} MapPagesKeeps(pte: map<nat, nat>, pgn: nat, fpns: seq<nat>, p: nat)
    requires !InRun(pgn, |fpns|, p)
    ensures p in MapPages(pte, pgn, fpns) <==> p in pte
    ensures p in pte ==> MapPages(pte, pgn, fpns)[p] == pte[p]
    decreases |fpns|
  {
    hide WithFpn;
    if fpns != [] {
      var n := |fpns| - 1;
      assert p != Nth(pgn, n);
      assert !InRun(pgn, n, p);
      MapPagesKeeps(pte, pgn, fpns[..n], p);
    }
  }

  // ----- Isolation is kept -----

  /** What an allocation does to one page table and to the free list: nothing but a shuffle, or a run of three pages. */
  datatype Change = Shuffled | Mapped3(pgn: nat)

  /** The pages stay and a free list that is too short may be turned around, or frames move from its front to a run. */
  ghost predicate Changes(sp: Space, frames: seq<nat>, sp': Space, frames': seq<nat>, c: Change) {
    match c
    case Shuffled => sp'.pte == sp.pte && sp'.fifo == sp.fifo && (frames' == frames || (|frames| < MAP_PAGES && frames' == Reverse(frames)))
    case Mapped3(pgn) =>
      && MAP_PAGES <= |frames|
      && sp'.pte == MapPages(sp.pte, pgn, frames[..MAP_PAGES]) && frames' == frames[MAP_PAGES..]
      && sp'.fifo == PushPages(sp.fifo, pgn, MAP_PAGES)
  }

  /** The run that a request maps: only a growth that its caller reaches and that gets its frames maps one. */
  function RunOf(sp: Space, frames: seq<nat>, found: bool, size: nat): Change {
    if !TakeRegion(sp.free, Int32(size)).ok && found && PlanGrowth(sp, Low32(size)).Extend? && MAP_PAGES <= |frames|
    then Mapped3(sp.sbrk / PAGESZ64) else Shuffled
  }

  lemma GrowChanges(sp: Space, frames: seq<nat>, size: nat)
    ensures Changes(sp, frames, Grow(sp, frames, size).0, Grow(sp, frames, size).1,
                    if PlanGrowth(sp, size).Extend? && MAP_PAGES <= |frames| then Mapped3(sp.sbrk / PAGESZ64) else Shuffled)
  {
    hide MapPages, PushPages, PlanGrowth, Wrap64, Reverse;
  }

  lemma AllocChanges(sp: Space, frames: seq<nat>, found: bool, rgid: nat, size: nat)
    ensures var c := RunOf(sp, frames, found, size);
      && Changes(sp, frames, Alloc(sp, frames, found, rgid, size).0, Alloc(sp, frames, found, rgid, size).1, c)
      && Changes(sp, frames, Kmalloc(sp, frames, found, rgid, size).0, Kmalloc(sp, frames, found, rgid, size).1, c)
  {
    hide TakeRegion, Grow, PlanGrowth, Int32, Wrap64, Low32, MapPages, PushPages;
    var t := TakeRegion(sp.free, Int32(size));
    if !t.ok && found {
      GrowChanges(sp.(free := t.free), frames, Low32(size));
      PlanIgnoresFree(sp, t.free, Low32(size));
    }
  }

  lemma PlanIgnoresFree(sp: Space, free: seq<Region>, size: nat)
    ensures PlanGrowth(sp.(free := free), size) == PlanGrowth(sp, size)
  {
  }

  lemma SameElements<T>(s: seq<T>, x: T)
    ensures x in Reverse(s) <==> x in s
  {
    var r := Reverse(s);
    if x in s {
      var i :| 0 <= i < |s| && s[i] == x;
      assert r[|s| - 1 - i] == x;
    }
  }

  lemma ReverseFreeList(frames: seq<nat>, n: nat)
    requires FreeListOk(frames, n)
    ensures FreeListOk(Reverse(frames), n)
  {
    hide Reverse;
    var r := Reverse(frames);
    forall i, j | 0 <= i < j < |r|
      ensures r[i] != r[j]
    {
      assert frames[|frames| - 1 - j] != frames[|frames| - 1 - i];
    }
  }

  /** The same pages on the same frames. */
  ghost predicate SamePages(s: Sys, r: Sys) {
    && (forall q, p :: Mapped(r, q, p) <==> Mapped(s, q, p))
    && (forall q, p :: Mapped(r, q, p) ==> FrameOf(r, q, p) == FrameOf(s, q, p))
  }

  lemma SamePagesIsolate(s: Sys, r: Sys, n: nat, z: set<nat>)
    requires IsolatedBut(s, n, z) && SamePages(s, r)
    requires FreeListOk(r.frames, n) && forall f :: f in r.frames ==> f in s.frames
    ensures IsolatedBut(r, n, z)
  {
    hide Mapped, FrameOf, FreeListOk;
  }

  lemma SameTables(s: Sys, r: Sys, pid: nat)
    requires pid in s.spaces && pid in r.spaces && r.spaces[pid].pte == s.spaces[pid].pte
    requires forall q :: q != pid ==> (q in r.spaces <==> q in s.spaces) && (q in s.spaces ==> r.spaces[q] == s.spaces[q])
    ensures SamePages(s, r)
  {
    hide PagePresent, PteFpn;
  }

  lemma ShuffleIsolates(s: Sys, n: nat, z: set<nat>, pid: nat, sp': Space, frames': seq<nat>)
    requires IsolatedBut(s, n, z) && pid in s.spaces
    requires Changes(s.spaces[pid], s.frames, sp', frames', Shuffled)
    ensures IsolatedBut(s.(spaces := s.spaces[pid := sp'], frames := frames'), n, z)
  {
    hide Reverse, SamePages, FreeListOk;
    var s' := s.(spaces := s.spaces[pid := sp'], frames := frames');
    SameTables(s, s', pid);
    ReverseFreeList(s.frames, n);
    forall f | f in frames'
      ensures f in s.frames
    {
      SameElements(s.frames, f);
    }
    SamePagesIsolate(s, s', n, z);
  }

  /** After a growth a mapped page is one that was mapped before, or one of the run with its new frame. */
  lemma RunOrBefore(s: Sys, pid: nat, sp': Space, frames': seq<nat>, pgn: nat, q: nat, p: nat) returns (i: int)
    requires pid in s.spaces
    requires Changes(s.spaces[pid], s.frames, sp', frames', Mapped3(pgn))
    requires Mapped(s.(spaces := s.spaces[pid := sp'], frames := frames'), q, p)
    ensures var s' := s.(spaces := s.spaces[pid := sp'], frames := frames');
      if i < 0 then Mapped(s, q, p) && FrameOf(s', q, p) == FrameOf(s, q, p)
      else i < MAP_PAGES && q == pid && p == Nth(pgn, i) && FrameOf(s', q, p) == s.frames[i] % FPN_LIMIT
  {
    hide PagePresent, PteFpn, MapPages, Nth;
    var fpns := s.frames[..MAP_PAGES];
    var pte := s.spaces[pid].pte;
    if q == pid && InRun(pgn, MAP_PAGES, p) {
      i :| 0 <= i < MAP_PAGES && p == Nth(pgn, i);
      MapPagesSets(pte, pgn, fpns, i);
    } else {
      i := -1;
      if q == pid {
        MapPagesKeeps(pte, pgn, fpns, p);
      }
    }
  }

  lemma MapIsolates(s: Sys, n: nat, z: set<nat>, pid: nat, sp': Space, frames': seq<nat>, pgn: nat)
    requires IsolatedBut(s, n, z) && n <= FPN_LIMIT && pid in s.spaces
    requires Changes(s.spaces[pid], s.frames, sp', frames', Mapped3(pgn))
    ensures IsolatedBut(s.(spaces := s.spaces[pid := sp'], frames := frames'), n, z)
  {
    hide PagePresent, PteFpn, MapPages, Nth, Mapped, FrameOf;
    var s' := s.(spaces := s.spaces[pid := sp'], frames := frames');
    forall q, p | Mapped(s', q, p)
      ensures FrameOf(s', q, p) < n && FrameOf(s', q, p) !in frames'
    {
      var i := RunOrBefore(s, pid, sp', frames', pgn, q, p);
    }
    forall q, p, q', p' | Mapped(s', q, p) && Mapped(s', q', p') && FrameOf(s', q, p) == FrameOf(s', q', p') && FrameOf(s', q, p) !in z
      ensures q == q' && p == p'
    {
      var i := RunOrBefore(s, pid, sp', frames', pgn, q, p);
      var j := RunOrBefore(s, pid, sp', frames', pgn, q', p');
    }
  }

  lemma ChangeIsolates(s: Sys, n: nat, z: set<nat>, pid: nat, sp': Space, frames': seq<nat>, c: Change)
    requires IsolatedBut(s, n, z) && n <= FPN_LIMIT && pid in s.spaces
    requires Changes(s.spaces[pid], s.frames, sp', frames', c)
    ensures IsolatedBut(s.(spaces := s.spaces[pid := sp'], frames := frames'), n, z)
  {
    match c
    case Shuffled => ShuffleIsolates(s, n, z, pid, sp', frames');
    case Mapped3(pgn) => MapIsolates(s, n, z, pid, sp', frames', pgn);
  }

  lemma LoadIsolates(s: Sys, n: nat, z: set<nat>, pid: nat)
    requires IsolatedBut(s, n, z) && pid !in s.spaces
    ensures IsolatedBut(s.(spaces := s.spaces[pid := InitMm(false)]), n, z)
  {
    var s' := s.(spaces := s.spaces[pid := InitMm(false)]);
    assert SamePages(s, s') by {
      hide PagePresent, PteFpn, IsolatedBut;
    }
    SamePagesIsolate(s, s', n, z);
  }

  // ----- What is named exists -----

  /** Entries are present pages, and the page FIFO names only such pages. */
  ghost predicate SpacePages(sp: Space) {
    && (forall p :: p in sp.pte ==> PagePresent(sp.pte[p]))
    && (forall i :: 0 <= i < |sp.fifo| ==> sp.fifo[i] % PAGES in sp.pte)
  }

  ghost predicate PagesOk(s: Sys) {
    forall pid :: pid in s.spaces ==> SpacePages(s.spaces[pid])
  }

  /** Free frames and the frames of mapped pages are frames of RAM. */
  ghost predicate InRange(s: Sys, n: nat) {
    && (forall f :: f in s.frames ==> f < n)
    && (forall pid, p :: Mapped(s, pid, p) ==> FrameOf(s, pid, p) < n)
  }

  /** RAM has n whole frames, the free swap frames are frames of the swap device, and frame 0 is the first of them. */
  ghost predicate DevicesOk(s: Sys, n: nat) {
    && n * PAGESZ <= |s.storage|
    && (forall i :: 0 <= i < |s.swap.free| ==> (s.swap.free[i] + 1) * PAGESZ <= |s.swap.storage|)
    && (s.swap.free != [] ==> s.swap.free[0] == 0)
  }

  /** Whatever pages, page FIFOs and free lists name exists. */
  ghost predicate Contained(s: Sys, n: nat) {
    PagesOk(s) && DevicesOk(s, n) && InRange(s, n)
  }

  lemma {:induction false} MapPagesPresent(pte: map<nat, nat>, pgn: nat, fpns: seq<nat>)
    requires forall p :: p in pte ==> PagePresent(pte[p])
    ensures var pte' := MapPages(pte, pgn, fpns);
      && pte.Keys <= pte'.Keys
      && (forall p :: p in pte' ==> PagePresent(pte'[p]))
      && (forall i :: 0 <= i < |fpns| ==> Nth(pgn, i) in pte')
    decreases |fpns|
  {
    hide PagePresent, WithFpn;
    if fpns != [] {
      var n := |fpns| - 1;
      MapPagesPresent(pte, pgn, fpns[..n]);
      WithFpnFlags(Lookup(MapPages(pte, pgn, fpns[..n]), Nth(pgn, n)), fpns[n]);
    }
  }

  lemma {:induction false} PushedPages(fifo: seq<nat>, pgn: nat, n: nat, i: nat)
    requires i < |PushPages(fifo, pgn, n)|
    ensures PushPages(fifo, pgn, n)[i] in fifo || exists k :: 0 <= k < n && PushPages(fifo, pgn, n)[i] % PAGES == Nth(pgn, k)
  {
    if n > 0 {
      if i == 0 {
        assert PushPages(fifo, pgn, n)[0] % PAGES == Nth(pgn, n - 1);
      } else {
        PushedPages(fifo, pgn, n - 1, i - 1);
      }
    }
  }

  lemma ChangePages(sp: Space, frames: seq<nat>, sp': Space, frames': seq<nat>, c: Change)
    requires SpacePages(sp) && Changes(sp, frames, sp', frames', c)
    ensures SpacePages(sp')
  {
    hide PagePresent, MapPages, PushPages, Nth;
    match c
    case Shuffled =>
    case Mapped3(pgn) =>
      MapPagesPresent(sp.pte, pgn, frames[..MAP_PAGES]);
      forall i | 0 <= i < |sp'.fifo|
        ensures sp'.fifo[i] % PAGES in sp'.pte
      {
        PushedPages(sp.fifo, pgn, MAP_PAGES, i);
      }
  }

  lemma BootContained(maxSize: nat, swapSize: nat)
    ensures Contained(Boot(maxSize, swapSize), maxSize / PAGESZ)
  {
    var s := Boot(maxSize, swapSize);
    assert forall pid, p :: !Mapped(s, pid, p);
  }

  // ----- Evictions -----

  lemma ZeroTarget()
    ensures PteSwpOff(Low32(0)) == 0
  {
    hide PteSwpOff;
    SwpOffArith(0);
  }

  /** Present means mapped; an absent page has no entry, and its entry names swap frame 0. */
  lemma PageInMeans(s: Sys, pid: nat, pgn: nat)
    requires pid in s.spaces && SpacePages(s.spaces[pid])
    ensures PageIn(s, pid, pgn) <==> pgn % PAGES in s.spaces[pid].pte
    ensures PageIn(s, pid, pgn) <==> Mapped(s, pid, pgn % PAGES)
    ensures PageIn(s, pid, pgn) ==> PteFpn(PteOf(s.spaces[pid], pgn)) == FrameOf(s, pid, pgn % PAGES)
    ensures !PageIn(s, pid, pgn) ==> TargetFrame(s, pid, pgn) == 0
  {
    hide PagePresent, PteFpn, PteSwpOff, Low32;
    LowWordDecodes(Lookup(s.spaces[pid].pte, pgn % PAGES));
    ZeroTarget();
    assert !PagePresent(0) by {
      NothingPresent();
    }
  }

  lemma NothingPresent()
    ensures !PagePresent(0)
  {
    FlagMasks();
    TestBit(0, PRESENT);
    BitZero(PRESENT);
  }

  lemma VictimMeans(s: Sys, pid: nat)
    requires pid in s.spaces && SpacePages(s.spaces[pid]) && s.spaces[pid].fifo != []
    ensures Mapped(s, pid, Victim(s.spaces[pid])) && VictimFrame(s, pid) == FrameOf(s, pid, Victim(s.spaces[pid]))
  {
    hide PagePresent, PteFpn, Low32;
    var v := Victim(s.spaces[pid]);
    PageInMeans(s, pid, v);
    assert v % PAGES == v;
  }

  /** An access, whether it faults or not, touches only bytes that exist. */
  lemma {:induction false} AccessInDevices(s: Sys, n: nat, pid: nat, addr: nat)
    requires Contained(s, n) && pid in s.spaces
    ensures InDevices(s, pid, addr)
  {
    hide PagePresent, PteFpn, PteSwpOff, Low32, InRange, Evict, MemPhy.CopyFrame, PhysAddr, Pgn, Mapped, FrameOf;
    AccessBacked(s, n, pid, Pgn(addr));
    var r := Paged(s, pid, Pgn(addr));
    PagedKeeps(s, pid, Pgn(addr));
    assert SpacePages(s.spaces[pid]);
    FrameInRam(s, n, pid, Pgn(addr));
    PhysAddrArith(PteFpn(PteOf(r.spaces[pid], Pgn(addr))), addr);
  }

  lemma AccessBacked(s: Sys, n: nat, pid: nat, pgn: nat)
    requires Contained(s, n) && pid in s.spaces
    ensures Backed(s, pid, pgn)
  {
    hide PagePresent, PteFpn, PteSwpOff, Low32;
    if Evicts(s, pid, pgn) {
      VictimMeans(s, pid);
      PageInMeans(s, pid, pgn);
    }
  }

  lemma FrameBelow(s: Sys, n: nat, pid: nat, p: nat)
    requires InRange(s, n) && Mapped(s, pid, p)
    ensures FrameOf(s, pid, p) < n
  {
  }

  /** The frame an access ends up with is a frame of RAM. */
  lemma FrameInRam(s: Sys, n: nat, pid: nat, pgn: nat)
    requires InRange(s, n) && pid in s.spaces && SpacePages(s.spaces[pid]) && Backed(s, pid, pgn)
    ensures var r := Paged(s, pid, pgn);
      pid in r.spaces && (PageIn(r, pid, pgn) ==> PteFpn(PteOf(r.spaces[pid], pgn)) < n)
  {
    hide PagePresent, PteFpn, PteSwpOff, Low32, MemPhy.CopyFrame, InRange, Evict, SpacePages, Mapped, FrameOf, Backed;
    PageInMeans(s, pid, pgn);
    if PageIn(s, pid, pgn) {
      FrameBelow(s, n, pid, pgn % PAGES);
    } else if Evicts(s, pid, pgn) {
      VictimMeans(s, pid);
      FrameBelow(s, n, pid, Victim(s.spaces[pid]));
      EvictedEntry(s.spaces[pid], pgn, s.swap.free[0]);
    }
  }

  /** The entry of the missing page after an eviction decodes to the victim's frame. */
  lemma EvictedEntry(sp: Space, pgn: nat, swpfpn: nat)
    requires sp.fifo != []
    ensures var w := Lookup(Evict(sp, pgn, swpfpn).pte, pgn % PAGES); var f := PteFpn(PteOf(sp, Victim(sp)));
      PagePresent(w) && PteFpn(w) == f && PteOf(Evict(sp, pgn, swpfpn), pgn) == w
  {
    hide PagePresent, PteFpn, Low32, WithFpn, WithSwap;
    var f := PteFpn(PteOf(sp, Victim(sp)));
    FrameFits(PteOf(sp, Victim(sp)));
    var before := sp.pte[Victim(sp) := WithSwap(Lookup(sp.pte, Victim(sp)), SWAP_TYPE, swpfpn)];
    WithFpnFlags(Lookup(before, pgn % PAGES), f);
    WithFpnFrame(Lookup(before, pgn % PAGES), f);
    WithFpnFits(Lookup(before, pgn % PAGES), f);
  }

  /** The frame number that the victim's entry reads as once it names a swap frame. */
  function GhostFrame(swpfpn: nat): nat {
    SWAP_TYPE % 32 + 32 * (swpfpn % 256)
  }

  /** What an eviction moves: page `page` arrives on frame `frame`, its victim's; the victim moves to `number`. */
  datatype Eviction = Eviction(page: nat, victim: nat, frame: nat, number: nat)

  function EvictionOf(s: Sys, pid: nat, pgn: nat): Eviction
    requires pid in s.spaces
  {
    if s.spaces[pid].fifo == [] || s.swap.free == [] then Eviction(0, 0, 0, 0)
    else Eviction(pgn % PAGES, Victim(s.spaces[pid]), VictimFrame(s, pid), GhostFrame(s.swap.free[0]))
  }

  /** Page x of space q across an eviction in space pid. */
  ghost predicate MovedAt(s: Sys, r: Sys, pid: nat, e: Eviction, q: nat, x: nat) {
    && (Mapped(r, q, x) <==> Mapped(s, q, x) || (q == pid && x == e.page))
    && (Mapped(r, q, x) ==>
          if q == pid && x == e.page then FrameOf(r, q, x) == e.frame
          else if q == pid && x == e.victim then FrameOf(r, q, x) == e.number
          else FrameOf(r, q, x) == FrameOf(s, q, x))
  }

  /** The page was nowhere, the victim was on its frame; nothing else moves. */
  ghost predicate Moved(s: Sys, r: Sys, pid: nat, e: Eviction) {
    && Mapped(s, pid, e.victim) && FrameOf(s, pid, e.victim) == e.frame && !Mapped(s, pid, e.page) && r.frames == s.frames
    && (forall q, x :: MovedAt(s, r, pid, e, q, x))
  }

  lemma EvictedPage(s: Sys, pid: nat, pgn: nat, q: nat, x: nat)
    requires pid in s.spaces && SpacePages(s.spaces[pid]) && Evicts(s, pid, pgn) && Backed(s, pid, pgn)
    ensures MovedAt(s, Paged(s, pid, pgn), pid, EvictionOf(s, pid, pgn), q, x)
  {
    hide PagePresent, PteFpn, PteSwpOff, Low32, MemPhy.CopyFrame, WithFpn, WithSwap;
    var sp := s.spaces[pid];
    var v := Victim(sp);
    VictimMeans(s, pid);
    PageInMeans(s, pid, pgn);
    EvictedEntry(sp, pgn, s.swap.free[0]);
    WithSwapFlags(Lookup(sp.pte, v), SWAP_TYPE, s.swap.free[0]);
    SwapReadsAsFrame(Lookup(sp.pte, v), SWAP_TYPE, s.swap.free[0]);
  }

  /**
   What an eviction leaves mapped: the missing page on the victim's frame, the victim - still
   present - on the number its swap entry reads as, and every other page as before.
   */
  lemma EvictionMoves(s: Sys, pid: nat, pgn: nat)
    requires pid in s.spaces && SpacePages(s.spaces[pid]) && Evicts(s, pid, pgn) && Backed(s, pid, pgn)
    ensures Moved(s, Paged(s, pid, pgn), pid, EvictionOf(s, pid, pgn))
  {
    hide Paged, Backed, Mapped, FrameOf, VictimFrame, Victim, GhostFrame, MovedAt, SpacePages, PageIn;
    PagedKeeps(s, pid, pgn);
    VictimMeans(s, pid);
    PageInMeans(s, pid, pgn);
    forall q, x
      ensures MovedAt(s, Paged(s, pid, pgn), pid, EvictionOf(s, pid, pgn), q, x)
    {
      EvictedPage(s, pid, pgn, q, x);
    }
  }

  /** A frame of RAM that is neither free nor mapped. */
  ghost predicate Ownerless(s: Sys, n: nat, f: nat) {
    f < n && f !in s.frames && forall pid, p :: Mapped(s, pid, p) ==> FrameOf(s, pid, p) != f
  }

  lemma MovedIsolates(s: Sys, r: Sys, n: nat, z: set<nat>, pid: nat, e: Eviction)
    requires IsolatedBut(s, n, z) && Moved(s, r, pid, e)
    requires Ownerless(s, n, e.number) || (e.number in z && e.number < n && e.number !in s.frames)
    ensures IsolatedBut(r, n, z)
  {
    hide Mapped, FrameOf, FreeListOk;
    forall q, x | Mapped(r, q, x)
      ensures FrameOf(r, q, x) < n && FrameOf(r, q, x) !in r.frames
    {
      assert MovedAt(s, r, pid, e, q, x);
    }
    forall q, x, q', x' | Mapped(r, q, x) && Mapped(r, q', x') && FrameOf(r, q, x) == FrameOf(r, q', x') && FrameOf(r, q, x) !in z
      ensures q == q' && x == x'
    {
      assert MovedAt(s, r, pid, e, q, x) && MovedAt(s, r, pid, e, q', x');
    }
  }

  lemma MovedUnshared(s: Sys, r: Sys, n: nat, pid: nat, e: Eviction)
    requires Isolated(r, n) && Moved(s, r, pid, e)
    ensures Ownerless(s, n, e.number)
  {
    hide Mapped, FrameOf, FreeListOk;
    assert MovedAt(s, r, pid, e, pid, e.victim) && MovedAt(s, r, pid, e, pid, e.page);
    forall q, x | Mapped(s, q, x)
      ensures FrameOf(s, q, x) != e.number
    {
      assert MovedAt(s, r, pid, e, q, x);
    }
  }

  /** In any isolated state, also in those no run reaches: an eviction keeps it if and only if the victim's new number belongs to nobody. */
  lemma {:induction false} EvictionIff(s: Sys, n: nat, pid: nat, pgn: nat)
    requires Isolated(s, n) && PagesOk(s) && pid in s.spaces && Evicts(s, pid, pgn) && Backed(s, pid, pgn)
    ensures Isolated(Paged(s, pid, pgn), n) <==> Ownerless(s, n, EvictionOf(s, pid, pgn).number)
  {
    hide Paged, Backed, Evicts, Moved, IsolatedBut, Ownerless, SpacePages, EvictionOf;
    assert SpacePages(s.spaces[pid]);
    EvictionMoves(s, pid, pgn);
    var r, e := Paged(s, pid, pgn), EvictionOf(s, pid, pgn);
    if Ownerless(s, n, e.number) {
      MovedIsolates(s, r, n, {}, pid, e);
    }
    if Isolated(r, n) {
      MovedUnshared(s, r, n, pid, e);
    }
  }

  lemma EvictedPagesOk(sp: Space, pgn: nat, swpfpn: nat)
    requires SpacePages(sp) && sp.fifo != []
    ensures SpacePages(Evict(sp, pgn, swpfpn)) && SpacePages(Popped(sp))
  {
    hide PagePresent, PteFpn, Low32, WithFpn, WithSwap;
    EvictedEntry(sp, pgn, swpfpn);
    WithSwapFlags(Lookup(sp.pte, Victim(sp)), SWAP_TYPE, swpfpn);
  }

  // ----- Every step stays inside -----

  /** The page of an access. */
  function PageOf(op: MemOp): nat
    requires IsAccess(op)
  {
    Pgn(op.addr)
  }

  /** An access as a step: the page first, then perhaps the byte. */
  lemma AccessMeans(s: Sys, op: MemOp)
    requires Allowed(s, op) && IsAccess(op)
    ensures op.pid in s.spaces && Backed(s, op.pid, PageOf(op))
    ensures var r := Paged(s, op.pid, PageOf(op));
      && op.pid in r.spaces && Translate(r, op.pid, op.addr) < |r.storage|
      && Apply(s, op) == if op.WriteOp? then Write(r, op.pid, op.addr, op.value) else r
  {
    hide Backed, Paged, Translate, Write, Pgn;
  }

  lemma WriteTables(s: Sys, pid: nat, addr: nat, value: Byte)
    requires pid in s.spaces && Translate(s, pid, addr) < |s.storage|
    ensures var r := Write(s, pid, addr, value);
      r.spaces == s.spaces && r.frames == s.frames && r.swap == s.swap && |r.storage| == |s.storage|
  {
  }

  /** An access leaves spaces and frames as pg_getpage leaves them. */
  lemma AccessTables(s: Sys, op: MemOp)
    requires Allowed(s, op) && IsAccess(op)
    ensures op.pid in s.spaces && Backed(s, op.pid, PageOf(op))
    ensures var r, t := Paged(s, op.pid, PageOf(op)), Apply(s, op);
      t.spaces == r.spaces && t.frames == r.frames && t.swap == r.swap && |t.storage| == |r.storage|
  {
    hide Backed, Paged, Translate, Write, PageOf, Allowed, Apply;
    AccessMeans(s, op);
    if op.WriteOp? {
      WriteTables(Paged(s, op.pid, PageOf(op)), op.pid, op.addr, op.value);
    }
  }

  /**
   The swap frame an eviction takes is frame 0, and frame 0 is what it gives back: every victim is
   copied to the same place and reads as RAM frame 0 afterwards.
   */
  lemma AlwaysZero(s: Sys, n: nat, pid: nat, pgn: nat)
    requires Contained(s, n) && pid in s.spaces && Backed(s, pid, pgn)
    ensures Paged(s, pid, pgn).swap.free == s.swap.free
    ensures Evicts(s, pid, pgn) ==> EvictionOf(s, pid, pgn).number == 0 && EvictionOf(s, pid, pgn).frame < n
  {
    hide PagePresent, PteFpn, PteSwpOff, Low32, MemPhy.CopyFrame, Evict, Popped, Mapped, FrameOf;
    PageInMeans(s, pid, pgn);
    if Evicts(s, pid, pgn) {
      VictimMeans(s, pid);
      assert [0] + s.swap.free[1..] == s.swap.free;
    }
  }

  lemma PagedDevices(s: Sys, n: nat, pid: nat, pgn: nat)
    requires Contained(s, n) && pid in s.spaces && Backed(s, pid, pgn)
    ensures DevicesOk(Paged(s, pid, pgn), n)
  {
    AlwaysZero(s, n, pid, pgn);
    hide Paged, Backed, InRange, SpacePages;
    PagedKeeps(s, pid, pgn);
  }

  lemma PagedPages(s: Sys, n: nat, pid: nat, pgn: nat)
    requires Contained(s, n) && pid in s.spaces && Backed(s, pid, pgn)
    ensures PagesOk(Paged(s, pid, pgn))
  {
    hide PageIn, InRange, Evict, Popped, Victim, SpacePages, SwapAfter;
    assert SpacePages(s.spaces[pid]);
    if s.spaces[pid].fifo != [] {
      EvictedPagesOk(s.spaces[pid], pgn, if s.swap.free == [] then 0 else s.swap.free[0]);
    }
  }

  lemma MovedInRange(s: Sys, r: Sys, n: nat, pid: nat, e: Eviction)
    requires InRange(s, n) && Moved(s, r, pid, e) && e.number < n
    ensures InRange(r, n)
  {
    hide Mapped, FrameOf;
    forall q, x | Mapped(r, q, x)
      ensures FrameOf(r, q, x) < n
    {
      assert MovedAt(s, r, pid, e, q, x);
    }
  }

  /** Without an eviction pg_getpage changes no page table. */
  lemma NoEviction(s: Sys, pid: nat, pgn: nat)
    requires pid in s.spaces && !Evicts(s, pid, pgn)
    ensures var r := Paged(s, pid, pgn);
      && pid in r.spaces && r.spaces[pid].pte == s.spaces[pid].pte && SamePages(s, r)
      && r.frames == s.frames && r.spaces.Keys == s.spaces.Keys
  {
    hide PageIn, Evict, SwapAfter, SamePages;
    SameTables(s, Paged(s, pid, pgn), pid);
  }

  lemma SameInRange(s: Sys, r: Sys, n: nat)
    requires InRange(s, n) && SamePages(s, r) && forall f :: f in r.frames ==> f in s.frames
    ensures InRange(r, n)
  {
    hide Mapped, FrameOf;
  }

  lemma PagedInRange(s: Sys, n: nat, pid: nat, pgn: nat)
    requires Contained(s, n) && pid in s.spaces && Backed(s, pid, pgn)
    ensures InRange(Paged(s, pid, pgn), n)
  {
    hide InRange, Paged, Evicts, Moved, SpacePages, DevicesOk, EvictionOf, Backed, SamePages;
    assert SpacePages(s.spaces[pid]);
    if Evicts(s, pid, pgn) {
      EvictionMoves(s, pid, pgn);
      AlwaysZero(s, n, pid, pgn);
      MovedInRange(s, Paged(s, pid, pgn), n, pid, EvictionOf(s, pid, pgn));
    } else {
      NoEviction(s, pid, pgn);
      SameInRange(s, Paged(s, pid, pgn), n);
    }
  }

  lemma AccessContained(s: Sys, n: nat, op: MemOp)
    requires Contained(s, n) && Allowed(s, op) && IsAccess(op)
    ensures Contained(Apply(s, op), n)
  {
    hide Paged, PageOf, Allowed, Apply, Backed, SpacePages, SamePages, Contained;
    AccessTables(s, op);
    PagedPages(s, n, op.pid, PageOf(op));
    PagedDevices(s, n, op.pid, PageOf(op));
    PagedInRange(s, n, op.pid, PageOf(op));
    var r, t := Paged(s, op.pid, PageOf(op)), Apply(s, op);
    SameContained(s, r, t, n);
  }

  lemma SameContained(s: Sys, r: Sys, t: Sys, n: nat)
    requires PagesOk(r) && DevicesOk(r, n) && InRange(r, n)
    requires t.spaces == r.spaces && t.frames == r.frames && t.swap == r.swap && |t.storage| == |r.storage|
    ensures Contained(t, n)
  {
    hide PagePresent, PteFpn, SpacePages;
    assert forall q, p :: Mapped(t, q, p) == Mapped(r, q, p) && FrameOf(t, q, p) == FrameOf(r, q, p);
  }

  lemma ModAtMost(f: nat)
    ensures f % FPN_LIMIT <= f
  {
  }

  lemma GrowthInRange(s: Sys, n: nat, pid: nat, sp': Space, frames': seq<nat>, pgn: nat)
    requires InRange(s, n) && pid in s.spaces
    requires Changes(s.spaces[pid], s.frames, sp', frames', Mapped3(pgn))
    ensures InRange(s.(spaces := s.spaces[pid := sp'], frames := frames'), n)
  {
    hide PagePresent, PteFpn, MapPages, Nth, Mapped, FrameOf;
    var s' := s.(spaces := s.spaces[pid := sp'], frames := frames');
    forall f | f in frames'
      ensures f in s.frames
    {
    }
    forall q, p | Mapped(s', q, p)
      ensures FrameOf(s', q, p) < n
    {
      var i := RunOrBefore(s, pid, sp', frames', pgn, q, p);
      if i >= 0 {
        assert s.frames[i] in s.frames;
        ModAtMost(s.frames[i]);
      }
    }
  }

  lemma AllocContained(s: Sys, n: nat, pid: nat, sp': Space, frames': seq<nat>, c: Change)
    requires Contained(s, n) && pid in s.spaces && Changes(s.spaces[pid], s.frames, sp', frames', c)
    ensures Contained(s.(spaces := s.spaces[pid := sp'], frames := frames'), n)
  {
    hide InRange, SpacePages, Reverse, SamePages, MapPages, PushPages;
    assert SpacePages(s.spaces[pid]);
    ChangePages(s.spaces[pid], s.frames, sp', frames', c);
    var s' := s.(spaces := s.spaces[pid := sp'], frames := frames');
    match c
    case Mapped3(pgn) => GrowthInRange(s, n, pid, sp', frames', pgn);
    case Shuffled =>
      SameTables(s, s', pid);
      forall f | f in frames'
        ensures f in s.frames
      {
        SameElements(s.frames, f);
      }
      SameInRange(s, s', n);
  }

  /** The run of three pages that an operation maps, if it maps one. */
  function Run(s: Sys, op: MemOp): Change
    requires Allowed(s, op)
  {
    hide InDevices;
    match op
    case AllocOp(pid, found, _, size) => RunOf(s.spaces[pid], s.frames, found, size)
    case KmallocOp(found, _, size) => RunOf(s.spaces[KERNEL], s.frames, found, size)
    case _ => Shuffled
  }

  function SpaceOf(op: MemOp): nat {
    if op.KmallocOp? then KERNEL else op.pid
  }

  /** Allocations and frees: one space changes, and what happens to its pages and to the free list. */
  predicate IsRegionOp(op: MemOp) {
    op.AllocOp? || op.KmallocOp? || op.FreeOp?
  }

  lemma FreeTables(sp: Space, frames: seq<nat>, rgid: nat)
    requires rgid < |sp.sym|
    ensures Changes(sp, frames, Free(sp, rgid), frames, Shuffled)
    ensures Free(sp, rgid).sbrk == sp.sbrk && Free(sp, rgid).vmEnd == sp.vmEnd
  {
  }

  lemma OpChanges(s: Sys, op: MemOp) returns (sp: Space, rest: seq<nat>)
    requires Allowed(s, op) && IsRegionOp(op)
    ensures SpaceOf(op) in s.spaces && Changes(s.spaces[SpaceOf(op)], s.frames, sp, rest, Run(s, op))
    ensures Apply(s, op) == s.(spaces := s.spaces[SpaceOf(op) := sp], frames := rest)
    ensures op.FreeOp? ==> sp.sbrk == s.spaces[SpaceOf(op)].sbrk && sp.vmEnd == s.spaces[SpaceOf(op)].vmEnd
    ensures op.AllocOp? ==> (sp, rest) == Alloc(s.spaces[op.pid], s.frames, op.found, op.rgid, op.size)
    ensures op.KmallocOp? ==> (sp, rest) == Kmalloc(s.spaces[KERNEL], s.frames, op.found, op.rgid, op.size)
  {
    hide Alloc, Kmalloc, Changes, RunOf, Fetch, Store, InDevices, Free, InitMm;
    match op
    case AllocOp(pid, found, rgid, size) =>
      AllocChanges(s.spaces[pid], s.frames, found, rgid, size);
      sp, rest := Alloc(s.spaces[pid], s.frames, found, rgid, size).0, Alloc(s.spaces[pid], s.frames, found, rgid, size).1;
    case KmallocOp(found, rgid, size) =>
      AllocChanges(s.spaces[KERNEL], s.frames, found, rgid, size);
      sp, rest := Kmalloc(s.spaces[KERNEL], s.frames, found, rgid, size).0, Kmalloc(s.spaces[KERNEL], s.frames, found, rgid, size).1;
    case FreeOp(pid, rgid) =>
      FreeTables(s.spaces[pid], s.frames, rgid);
      sp, rest := Free(s.spaces[pid], rgid), s.frames;
  }

  lemma LoadMeans(s: Sys, op: MemOp)
    requires Allowed(s, op) && op.LoadOp?
    ensures op.pid !in s.spaces && Apply(s, op) == s.(spaces := s.spaces[op.pid := InitMm(false)])
  {
  }

  lemma LoadTables(s: Sys, pid: nat)
    requires pid !in s.spaces
    ensures SamePages(s, s.(spaces := s.spaces[pid := InitMm(false)])) && SpacePages(InitMm(false))
  {
    hide PagePresent, PteFpn;
  }

  lemma LoadContained(s: Sys, n: nat, pid: nat)
    requires Contained(s, n) && pid !in s.spaces
    ensures Contained(s.(spaces := s.spaces[pid := InitMm(false)]), n)
  {
    hide InRange, DevicesOk, InitMm, SpacePages, SamePages;
    LoadTables(s, pid);
    var s' := s.(spaces := s.spaces[pid := InitMm(false)]);
    SameInRange(s, s', n);
    SameDevices(s, s', n);
  }

  /** Every operation leaves everything that is named inside the devices, whatever it evicts. */
  lemma {:induction false} StepContained(s: Sys, n: nat, op: MemOp)
    requires Contained(s, n) && Allowed(s, op)
    ensures Contained(Apply(s, op), n)
  {
    hide Contained, Allowed, Apply, Changes, Run, InitMm;
    if IsAccess(op) {
      AccessContained(s, n, op);
    } else if op.LoadOp? {
      LoadMeans(s, op);
      LoadContained(s, n, op.pid);
    } else {
      var sp, rest := OpChanges(s, op);
      AllocContained(s, n, SpaceOf(op), sp, rest, Run(s, op));
    }
  }

  lemma SameDevices(s: Sys, r: Sys, n: nat)
    requires DevicesOk(s, n) && r.storage == s.storage && r.swap == s.swap
    ensures DevicesOk(r, n)
  {
  }

  lemma {:induction false} RunContained(s: Sys, n: nat, ops: seq<MemOp>)
    requires Contained(s, n) && AllowedRun(s, ops)
    ensures Contained(ApplyAll(s, ops), n)
    decreases |ops|
  {
    hide Apply, Contained, Allowed;
    if ops != [] {
      StepContained(s, n, ops[0]);
      RunContained(Apply(s, ops[0]), n, ops[1..]);
    }
  }

  /**
   After every run from boot, however many pages it evicted, an access of any process to any address
   touches only bytes of the two devices.
   */
  lemma {:induction false} RunInDevices(maxSize: nat, swapSize: nat, ops: seq<MemOp>, pid: nat, addr: nat)
    requires AllowedRun(Boot(maxSize, swapSize), ops)
    ensures pid in ApplyAll(Boot(maxSize, swapSize), ops).spaces ==> InDevices(ApplyAll(Boot(maxSize, swapSize), ops), pid, addr)
  {
    hide AllowedRun, ApplyAll, Boot, Contained, InDevices;
    var s, n := Boot(maxSize, swapSize), maxSize / PAGESZ;
    BootContained(maxSize, swapSize);
    RunContained(s, n, ops);
    if pid in ApplyAll(s, ops).spaces {
      AccessInDevices(ApplyAll(s, ops), n, pid, addr);
    }
  }

  lemma ConsRun(s: Sys, op: MemOp, ops: seq<MemOp>)
    requires Allowed(s, op) && AllowedRun(Apply(s, op), ops)
    ensures AllowedRun(s, [op] + ops) && ApplyAll(s, [op] + ops) == ApplyAll(Apply(s, op), ops)
  {
    hide Allowed, Apply;
    assert ([op] + ops)[1..] == ops;
  }
}
