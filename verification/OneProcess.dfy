/** One process that only allocates: what it loses can be worked out before it starts. */
module OneProcess {
  import opened Paging
  import opened Space
  import opened Memory
  import opened Frames
  import opened Isolation
  import opened FrameLedger
  import RegionSafety

  datatype Request = Request(rgid: nat, size: nat)

  /** The allocations of process 1, one after the other, with nothing freed in between. */
  function Requests(reqs: seq<Request>): seq<MemOp> {
    if reqs == [] then [] else [AllocOp(1, true, reqs[0].rgid, reqs[0].size)] + Requests(reqs[1..])
  }

  /** Sizes and breaks that the allocator handles. */
  predicate RequestsOk(reqs: seq<Request>, brk: nat) {
    reqs != [] ==>
      && reqs[0].rgid < SYMBOLS && 0 < reqs[0].size < RegionSafety.INT_LIMIT && brk < RegionSafety.INT_LIMIT
      && RequestsOk(reqs[1..], brk + AlignUp(reqs[0].size))
  }

  /** What all requests but the last leave for the next to map again. */
  function Overlaps(reqs: seq<Request>): nat {
    if |reqs| <= 1 then 0 else Overlap(reqs[0].size) + Overlaps(reqs[1..])
  }

  /** Process 1 has nothing free and its break stands here. */
  ghost predicate Reached(s: Sys, brk: nat) {
    && KERNEL in s.spaces && 1 in s.spaces
    && RegionSafety.Safe(s.spaces[1]) && s.spaces[1].free == [NO_REGION] && s.spaces[1].sbrk == brk
  }

  /** The space's side of one request. */
  lemma RequestGrows(sp: Space, frames: seq<nat>, rgid: nat, size: nat)
    requires RegionSafety.Safe(sp) && sp.free == [NO_REGION] && sp.sbrk < RegionSafety.INT_LIMIT
    requires rgid < SYMBOLS && 0 < size < RegionSafety.INT_LIMIT && MAP_PAGES <= |frames|
    ensures RunOf(sp, frames, true, size).Mapped3?
    ensures var (sp', rest) := Alloc(sp, frames, true, rgid, size);
      RegionSafety.Safe(sp') && sp'.free == sp.free && sp'.sbrk == sp.sbrk + AlignUp(size) && |rest| == |frames| - MAP_PAGES
  {
    hide Alloc, RegionSafety.Safe, TakeRegion, PlanGrowth, AlignUp, Int32, MapPages, PushPages;
    RegionSafety.EmptyGrows(sp, frames, rgid, size);
    AllocChanges(sp, frames, true, rgid, size);
  }

  lemma RequestStep(s: Sys, brk: nat, rgid: nat, size: nat)
    requires Reached(s, brk) && brk < RegionSafety.INT_LIMIT && MAP_PAGES <= |s.frames|
    requires rgid < SYMBOLS && 0 < size < RegionSafety.INT_LIMIT
    ensures var op := AllocOp(1, true, rgid, size);
      && Allowed(s, op) && Run(s, op).Mapped3?
      && Reached(Apply(s, op), brk + AlignUp(size)) && |Apply(s, op).frames| == |s.frames| - MAP_PAGES
  {
    hide Alloc, Kmalloc, RunOf, Fetch, Store, InDevices, Free, InitMm, RegionSafety.Safe, AlignUp;
    RequestGrows(s.spaces[1], s.frames, rgid, size);
  }

  lemma {:induction false} RequestRun(s: Sys, brk: nat, reqs: seq<Request>, over: map<nat, nat>)
    requires Reached(s, brk) && MAP_PAGES * |reqs| <= |s.frames| && RequestsOk(reqs, brk)
    ensures AllowedRun(s, Requests(reqs))
    ensures Owed(s, Requests(reqs), over) == if reqs == [] then 0 else Over(over, 1) + Overlaps(reqs)
    ensures forall i :: 0 <= i < |Requests(reqs)| ==> !IsAccess(Requests(reqs)[i])
    decreases |reqs|
  {
    hide Reached, Allowed, Apply, Run, Overlap, AlignUp;
    if reqs != [] {
      var op := AllocOp(1, true, reqs[0].rgid, reqs[0].size);
      RequestStep(s, brk, reqs[0].rgid, reqs[0].size);
      RequestRun(Apply(s, op), brk + AlignUp(reqs[0].size), reqs[1..], OverAfter(s, op, over));
      assert Requests(reqs)[0] == op && Requests(reqs)[1..] == Requests(reqs[1..]);
    }
  }

  lemma LoadReaches(maxSize: nat, swapSize: nat)
    ensures var s := Boot(maxSize, swapSize);
      && Allowed(s, LoadOp(1)) && Reached(Apply(s, LoadOp(1)), 0)
      && |Apply(s, LoadOp(1)).frames| == maxSize / PAGESZ
  {
    hide Alloc, Kmalloc, Free, Fetch, Store, InDevices, RegionSafety.Safe;
    RegionSafety.FreshSpace(InitMm(false));
  }

  /** The requests of one process, from boot. */
  function Program(reqs: seq<Request>): seq<MemOp> {
    [LoadOp(1)] + Requests(reqs)
  }

  /**
   The frames lost are exactly the overlaps of all the requests but the last, a sum that can be
   worked out before the first of them.
   */
  lemma {:induction false} ExactLoss(maxSize: nat, swapSize: nat, reqs: seq<Request>)
    requires MAP_PAGES * |reqs| <= maxSize / PAGESZ <= FPN_LIMIT && RequestsOk(reqs, 0)
    ensures AllowedRun(Boot(maxSize, swapSize), Program(reqs))
    ensures |Lost(ApplyAll(Boot(maxSize, swapSize), Program(reqs)), maxSize / PAGESZ)| == Overlaps(reqs)
  {
    var s, load := Boot(maxSize, swapSize), LoadOp(1);
    hide Boot, Reached, Allowed, Apply, Lost, ApplyAll, Overlaps, Requests, RequestsOk, EvictionFree, RunOf;
    LoadReaches(maxSize, swapSize);
    RequestRun(Apply(s, load), 0, reqs, map[]);
    ConsRun(s, load, Requests(reqs));
    assert Program(reqs)[1..] == Requests(reqs);
    NoAccesses(s, Program(reqs));
    OwedIsLost(maxSize, swapSize, Program(reqs));
    NoOverlap(reqs);
  }

  lemma NoOverlap(reqs: seq<Request>)
    ensures reqs == [] ==> Overlaps(reqs) == 0
  {
  }

  lemma RequestPages(size: nat)
    requires 0 < size < RegionSafety.INT_LIMIT
    ensures Overlap(size) == 0 <==> AlignUp(size) >= MAP_PAGES * PAGESZ64
  {
    RegionSafety.CutSize(size);
    RegionSafety.RoundUp(size);
    WholePages(size);
  }

  lemma {:induction false} OverlapsVanish(reqs: seq<Request>, brk: nat)
    requires RequestsOk(reqs, brk)
    ensures Overlaps(reqs) == 0 <==> forall i :: 0 <= i < |reqs| - 1 ==> AlignUp(reqs[i].size) >= MAP_PAGES * PAGESZ64
    decreases |reqs|
  {
    hide AlignUp;
    if |reqs| > 1 {
      OverlapsVanish(reqs[1..], brk + AlignUp(reqs[0].size));
      RequestPages(reqs[0].size);
      assert forall i :: 0 <= i < |reqs| - 2 ==> reqs[1..][i] == reqs[i + 1];
    }
  }

  /** For one process: every frame is free or mapped if and only if every request but the last rounds to three pages or more. */
  lemma {:induction false} LosesNoneIff(maxSize: nat, swapSize: nat, reqs: seq<Request>)
    requires MAP_PAGES * |reqs| <= maxSize / PAGESZ <= FPN_LIMIT && RequestsOk(reqs, 0)
    ensures AllowedRun(Boot(maxSize, swapSize), Program(reqs))
    ensures AllAccounted(ApplyAll(Boot(maxSize, swapSize), Program(reqs)), maxSize / PAGESZ)
            <==> forall i :: 0 <= i < |reqs| - 1 ==> AlignUp(reqs[i].size) >= MAP_PAGES * PAGESZ64
  {
    hide Boot, AllowedRun, ApplyAll, Lost, AllAccounted, Overlaps, RequestsOk, AlignUp, Program;
    ExactLoss(maxSize, swapSize, reqs);
    OverlapsVanish(reqs, 0);
    AccountedMeans(ApplyAll(Boot(maxSize, swapSize), Program(reqs)), maxSize / PAGESZ);
  }

  /** The first two requests of input/proc/m0s, 300 and 100 bytes: the second maps pages 1 and 2 again and two frames are lost. */
  lemma {:induction false} M0sLosesTwoFrames(maxSize: nat, swapSize: nat, size0: nat, size1: nat)
    requires 6 <= maxSize / PAGESZ <= FPN_LIMIT && size0 == 300 && size1 == 100
    ensures var ops := Program([Request(0, size0), Request(1, size1)]);
      && AllowedRun(Boot(maxSize, swapSize), ops)
      && |Lost(ApplyAll(Boot(maxSize, swapSize), ops), maxSize / PAGESZ)| == 2
  {
    hide Boot, AllowedRun, ApplyAll, Lost, AlignUp, Requests;
    var reqs := [Request(0, size0), Request(1, size1)];
    RegionSafety.OnePage(size0);
    RegionSafety.OnePage(size1);
    assert reqs[1..] == [Request(1, size1)] && reqs[1..][1..] == [];
    assert RequestsOk(reqs[1..][1..], 2 * PAGESZ64) && RequestsOk(reqs[1..], PAGESZ64) && RequestsOk(reqs, 0);
    ExactLoss(maxSize, swapSize, reqs);
    assert Overlaps(reqs[1..]) == 0 && Overlaps(reqs) == Overlap(size0) == 2;
  }
}
