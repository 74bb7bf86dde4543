/** The 13-bit frame field: with more frames than it can name, frames are shared without any eviction. */
module FrameLimit {
  import opened Paging
  import opened Space
  import opened Memory
  import opened Frames
  import opened Isolation
  import MemPhy

  /** One process asks again and again for three whole pages. */
  function Greedy(k: nat): seq<MemOp> {
    seq(k, _ => AllocOp(1, true, 0, MAP_PAGES * PAGESZ64))
  }

  /** The state after k of those requests: 3k consecutive pages on 3k consecutive frames. */
  ghost predicate Fed(s: Sys, n: nat, k: nat) {
    && KERNEL in s.spaces && 1 in s.spaces
    && 3 * k <= n && s.frames == seq(n - 3 * k, i => 3 * k + i)
    && var sp := s.spaces[1];
       && sp.free == [Region(0, 0)] && |sp.sym| == SYMBOLS
       && sp.vmStart == 0 && sp.vmEnd == sp.sbrk == 12288 * k
       && (forall p :: 0 <= p < 3 * k ==> Mapped(s, 1, p) && FrameOf(s, 1, p) == p % FPN_LIMIT)
  }

  lemma GreedyGrowth(sp: Space, frames: seq<nat>, k: nat)
    requires sp.free == [Region(0, 0)] && |sp.sym| == SYMBOLS && sp.vmStart == 0
    requires sp.vmEnd == sp.sbrk == 12288 * k && k < 2731 && |frames| >= 3
    ensures var (sp', rest) := Alloc(sp, frames, true, 0, MAP_PAGES * PAGESZ64);
      && rest == frames[3..] && sp'.free == sp.free && |sp'.sym| == SYMBOLS
      && sp'.vmStart == 0 && sp'.vmEnd == sp'.sbrk == 12288 * (k + 1)
      && sp'.pte == MapPages(sp.pte, 3 * k, frames[..3])
  {
    hide MapPages, PushPages;
    assert Int32(12288) == 12288;
    assert FirstFit(sp.free, 12288) == 1 by { assert !Fits(sp.free[0], 12288); }
    assert PlanGrowth(sp, 12288) == Extend(12288 * (k + 1));
  }

  lemma FedStep(s: Sys, n: nat, k: nat)
    requires Fed(s, n, k) && k < 2731 && 3 * (k + 1) <= n
    ensures Allowed(s, Greedy(1)[0]) && Fed(Apply(s, Greedy(1)[0]), n, k + 1)
  {
    hide Alloc, MapPages, PagePresent, PteFpn, Kmalloc, Free, Fetch, Store, InDevices, InitMm;
    var sp := s.spaces[1];
    var fpns := s.frames[..3];
    GreedyGrowth(sp, s.frames, k);
    var s' := Apply(s, Greedy(1)[0]);
    forall p | 0 <= p < 3 * (k + 1)
      ensures Mapped(s', 1, p) && FrameOf(s', 1, p) == p % FPN_LIMIT
    {
      if p < 3 * k {
        assert !InRun(3 * k, 3, p);
        MapPagesKeeps(sp.pte, 3 * k, fpns, p);
        assert Mapped(s, 1, p);
      } else {
        assert Nth(3 * k, p - 3 * k) == p;
        MapPagesSets(sp.pte, 3 * k, fpns, p - 3 * k);
      }
    }
  }

  lemma {:induction false} FedRun(s: Sys, n: nat, k: nat, more: nat)
    requires Fed(s, n, k) && k + more <= 2731 && 3 * (k + more) <= n
    ensures AllowedRun(s, Greedy(more)) && Fed(ApplyAll(s, Greedy(more)), n, k + more)
    decreases more
  {
    hide Fed, Allowed, Apply;
    if more > 0 {
      FedStep(s, n, k);
      assert Greedy(more)[0] == Greedy(1)[0] && Greedy(more)[1..] == Greedy(more - 1);
      FedRun(Apply(s, Greedy(1)[0]), n, k + 1, more - 1);
    }
  }

  lemma FirstLoad(maxSize: nat, swapSize: nat)
    ensures var s := Boot(maxSize, swapSize);
      Allowed(s, LoadOp(1)) && Fed(Apply(s, LoadOp(1)), maxSize / PAGESZ, 0)
  {
    hide Alloc, Kmalloc, Free, Fetch, Store, InDevices, PagePresent, PteFpn;
  }

  lemma Overfed(s: Sys, n: nat)
    requires Fed(s, n, 2731)
    ensures !Isolated(s, n)
  {
    hide PagePresent, PteFpn;
    assert Mapped(s, 1, 0) && Mapped(s, 1, FPN_LIMIT);
    assert FrameOf(s, 1, 0) == FrameOf(s, 1, FPN_LIMIT);
  }

  /** With more frames than the field can name, pages 0 and 8192 of one process end up on frame 0. */
  lemma TooManyFrames(maxSize: nat, swapSize: nat) returns (ops: seq<MemOp>)
    requires maxSize / PAGESZ > FPN_LIMIT
    ensures var s := Boot(maxSize, swapSize);
      AllowedRun(s, ops) && EvictionFree(s, ops) && !Isolated(ApplyAll(s, ops), maxSize / PAGESZ)
  {
    ops := [LoadOp(1)] + Greedy(2731);
    assert forall i :: 0 <= i < |ops| ==> !IsAccess(ops[i]);
    hide *;
    var s, n := Boot(maxSize, swapSize), maxSize / PAGESZ;
    FirstLoad(maxSize, swapSize);
    FedRun(Apply(s, LoadOp(1)), n, 0, 2731);
    ConsRun(s, LoadOp(1), Greedy(2731));
    NoAccesses(s, ops);
    Overfed(ApplyAll(s, ops), n);
  }

  /** Whatever the processes do without an eviction. */
  ghost predicate AlwaysIsolated(maxSize: nat, swapSize: nat) {
    forall ops :: AllowedRun(Boot(maxSize, swapSize), ops) && EvictionFree(Boot(maxSize, swapSize), ops)
      ==> Isolated(ApplyAll(Boot(maxSize, swapSize), ops), maxSize / PAGESZ)
  }

  /** Frames stay isolated in every run without an eviction exactly when the RAM has at most 2^13 of them. */
  lemma {:induction false} IsolationIff(maxSize: nat, swapSize: nat)
    requires 2 * PAGESZ <= maxSize < MemPhy.INT_LIMIT && 2 * PAGESZ <= swapSize < MemPhy.INT_LIMIT
    ensures AlwaysIsolated(maxSize, swapSize) <==> maxSize / PAGESZ <= FPN_LIMIT
  {
    hide AllowedRun, ApplyAll, EvictionFree, Ready, Isolated, Boot;
    var s, n := Boot(maxSize, swapSize), maxSize / PAGESZ;
    if n <= FPN_LIMIT {
      BootReady(maxSize, swapSize);
      forall ops | AllowedRun(s, ops) && EvictionFree(s, ops)
        ensures Isolated(ApplyAll(s, ops), n)
      {
        EvictionFreeIsolates(s, n, ops);
      }
    } else {
      var ops := TooManyFrames(maxSize, swapSize);
    }
  }
}
