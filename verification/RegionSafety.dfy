/**
 What the region allocator keeps in every address space: regions never overlap, never leave the
 space, and every byte between the ends is live, free or accounted for as lost.
 */
module RegionSafety {
  import opened Paging
  import opened PageTable
  import opened Space

  const INT_LIMIT: nat := 0x8000_0000            // sizes and user breaks that fit a C int
  const INT_MIN: int := -0x8000_0000
  const SIZE_LIMIT: nat := 0x1_0000_0000         // sizes that reach inc_vma_limit uncut
  const BREAK_LIMIT: nat := 0x8000_0000_0000_0000 // kernel breaks, far from 64-bit wrap-around
  const END_LIMIT: nat := 0x8000_0001_0000_0000

  // ----- Regions -----

  predicate Within(r: Region, x: int) {
    r.start <= x < r.end
  }

  /** No address lies in both. */
  predicate Apart(a: Region, b: Region) {
    a.start >= a.end || b.start >= b.end || a.end <= b.start || b.end <= a.start
  }

  lemma ApartMeans(a: Region, b: Region)
    ensures Apart(a, b) <==> forall x :: !(Within(a, x) && Within(b, x))
  {
    if !Apart(a, b) {
      var x := if a.start < b.start then b.start else a.start;
      assert Within(a, x) && Within(b, x);
    }
  }

  ghost predicate Covers(rs: seq<Region>, x: int) {
    exists i :: 0 <= i < |rs| && Within(rs[i], x)
  }

  ghost predicate AllApart(rs: seq<Region>) {
    forall i, j :: 0 <= i < j < |rs| ==> Apart(rs[i], rs[j])
  }

  ghost predicate ApartFrom(rs: seq<Region>, r: Region) {
    forall i :: 0 <= i < |rs| ==> Apart(rs[i], r)
  }

  ghost predicate Bounded(rs: seq<Region>, lo: nat, hi: nat) {
    forall i :: 0 <= i < |rs| ==> lo <= rs[i].start <= rs[i].end <= hi
  }

  predicate PartOf(a: Region, b: Region) {
    b.start <= a.start <= a.end <= b.end
  }

  /** Every region of the new list is cut from the one it stands for in the old list. */
  ghost predicate CutFrom(cut: seq<Region>, whole: seq<Region>, from: seq<nat>) {
    && |from| == |cut|
    && (forall i :: 0 <= i < |cut| ==> from[i] < |whole| && PartOf(cut[i], whole[from[i]]))
    && (forall i, j :: 0 <= i < j < |from| ==> from[i] < from[j])
  }

  function Origins(n: nat, k: nat): (r: seq<nat>)
    requires k < n
    ensures |r| == n - 1
    ensures forall i :: 0 <= i < n - 1 ==> r[i] == if i < k then i else i + 1
  {
    seq(n - 1, i => if i < k then i else i + 1)
  }

  lemma CarveCuts(free: seq<Region>, k: nat, size: nat, lo: nat, hi: nat) returns (from: seq<nat>)
    requires k < |free| && size < INT_LIMIT && hi < END_LIMIT
    requires Bounded(free, lo, hi) && Fits(free[k], size)
    ensures CutFrom(Carve(free, k, size), free, from)
    ensures free[k].start + size <= free[k].end
    ensures forall i :: 0 <= i < |from| && from[i] == k ==>
              Apart(Carve(free, k, size)[i], Region(free[k].start, free[k].start + size))
  {
    var r := free[k];
    NoWrap(r.start + size);
    var carved := Carve(free, k, size);
    if r.start + size < r.end {
      assert carved == free[k := Region(r.start + size, r.end)];
      from := seq(|free|, i => i);
    } else if k + 1 < |free| {
      assert carved == free[..k] + free[k + 1..];
      from := Origins(|free|, k);
    } else {
      assert carved == free[k := Region(r.end, r.end)];
      from := seq(|free|, i => i);
    }
  }

  lemma NoWrap(x: nat)
    requires x < WORD64
    ensures Wrap64(x) == x
  {
  }

  /** Taking from a free list keeps it apart, inside its bounds, and away from what was taken. */
  lemma CarveKeeps(free: seq<Region>, k: nat, size: nat, lo: nat, hi: nat)
    requires k < |free| && size < INT_LIMIT && hi < END_LIMIT
    requires Bounded(free, lo, hi) && AllApart(free) && Fits(free[k], size)
    ensures Carve(free, k, size) != []
    ensures Bounded(Carve(free, k, size), lo, hi) && AllApart(Carve(free, k, size))
    ensures ApartFrom(Carve(free, k, size), Region(free[k].start, free[k].start + size))
    ensures forall r :: ApartFrom(free, r) ==> ApartFrom(Carve(free, k, size), r)
  {
    hide Carve;
    var from := CarveCuts(free, k, size, lo, hi);
    var carved := Carve(free, k, size);
    CarveLength(free, k, size);
    forall r | ApartFrom(free, r)
      ensures ApartFrom(carved, r)
    {
      assert forall i :: 0 <= i < |carved| ==> Apart(free[from[i]], r);
    }
    forall i, j | 0 <= i < j < |carved|
      ensures Apart(carved[i], carved[j])
    {
      assert Apart(free[from[i]], free[from[j]]);
    }
    var taken := Region(free[k].start, free[k].start + size);
    forall i | 0 <= i < |carved|
      ensures Apart(carved[i], taken)
    {
      if from[i] < k {
        assert Apart(free[from[i]], free[k]);
      } else if k < from[i] {
        assert Apart(free[k], free[from[i]]);
      }
    }
  }

  lemma CarveLength(free: seq<Region>, k: nat, size: nat)
    requires k < |free|
    ensures Carve(free, k, size) != []
  {
  }

  lemma CarveKeepsCover(free: seq<Region>, k: nat, size: nat, lo: nat, hi: nat, x: int)
    requires k < |free| && size < INT_LIMIT && hi < END_LIMIT
    requires Bounded(free, lo, hi) && Fits(free[k], size)
    requires Covers(free, x) && !Within(Region(free[k].start, free[k].start + size), x)
    ensures Covers(Carve(free, k, size), x)
  {
    var r := free[k];
    NoWrap(r.start + size);
    var carved := Carve(free, k, size);
    var i :| 0 <= i < |free| && Within(free[i], x);
    if r.start + size < r.end || k + 1 == |free| || i < k {
      assert Within(carved[i], x);
    } else {
      assert carved == free[..k] + free[k + 1..];
      assert Within(carved[i - 1], x);
    }
  }

  /** The free addresses split into what was taken and what is still free, nothing else. */
  lemma CarveExact(free: seq<Region>, k: nat, size: nat, lo: nat, hi: nat, x: int)
    requires k < |free| && size < INT_LIMIT && hi < END_LIMIT
    requires Bounded(free, lo, hi) && AllApart(free) && Fits(free[k], size)
    ensures var taken := Region(free[k].start, free[k].start + size);
      && (Covers(free, x) <==> Covers(Carve(free, k, size), x) || Within(taken, x))
      && !(Covers(Carve(free, k, size), x) && Within(taken, x))
  {
    hide Carve, AllApart, Fits;
    var taken := Region(free[k].start, free[k].start + size);
    var carved := Carve(free, k, size);
    CarveKeeps(free, k, size, lo, hi);
    var from := CarveCuts(free, k, size, lo, hi);
    if Covers(carved, x) {
      var i :| 0 <= i < |carved| && Within(carved[i], x);
      assert Within(free[from[i]], x);
    }
    if Within(taken, x) {
      assert Within(free[k], x);
    } else if Covers(free, x) {
      CarveKeepsCover(free, k, size, lo, hi, x);
    }
  }

  /** A negative size fits only where it does not reach below address 0. */
  lemma FitsBelow(r: Region, size: int)
    requires INT_MIN <= size < 0 && r.start <= r.end < END_LIMIT && Fits(r, size)
    ensures r.start + size >= 0 && Wrap64(r.start + size) == r.start + size
  {
  }

  /**
   A negative size, which get_free_vmrg_area accepts as an int: the region grows downwards, over
   addresses that were not free or that another free region holds too.
   */
  lemma NegativeCarve(free: seq<Region>, k: nat, size: int, lo: nat, hi: nat)
    requires k < |free| && INT_MIN <= size < 0 && hi < END_LIMIT
    requires Bounded(free, lo, hi) && Fits(free[k], size)
    ensures free[k].start + size >= 0 && Wrap64(free[k].start + size) == free[k].start + size
    ensures Covers(Carve(free, k, size), free[k].start + size)
    ensures !Covers(free, free[k].start + size) || !AllApart(Carve(free, k, size))
  {
    var r := free[k];
    FitsBelow(r, size);
    var x := r.start + size;
    var carved := Carve(free, k, size);
    assert carved == free[k := Region(x, r.end)];
    assert Within(carved[k], x);
    if Covers(free, x) {
      var i :| 0 <= i < |free| && Within(free[i], x);
      assert Within(carved[i], x);
      if i < k { assert !Apart(carved[i], carved[k]); } else { assert !Apart(carved[k], carved[i]); }
    }
  }

  /** Taking `size` bytes from region k splits the free addresses exactly and keeps them apart. */
  ghost predicate ExactCut(free: seq<Region>, k: nat, size: int)
    requires k < |free|
  {
    var taken := Region(free[k].start, Wrap64(free[k].start + size));
    && AllApart(Carve(free, k, size))
    && (forall x :: Covers(free, x) <==> Covers(Carve(free, k, size), x) || Within(taken, x))
    && (forall x :: !(Covers(Carve(free, k, size), x) && Within(taken, x)))
  }

  /** For every C int, the cut is exact if and only if the size is not negative. */
  lemma {:induction false} CarveExactIff(free: seq<Region>, k: nat, size: int, lo: nat, hi: nat)
    requires k < |free| && INT_MIN <= size < INT_LIMIT && hi < END_LIMIT
    requires Bounded(free, lo, hi) && AllApart(free) && Fits(free[k], size)
    ensures ExactCut(free, k, size) <==> size >= 0
  {
    if size < 0 {
      NegativeCarve(free, k, size, lo, hi);
    } else {
      NoWrap(free[k].start + size);
      CarveKeeps(free, k, size, lo, hi);
      hide Carve, AllApart, Fits, Covers, Within, Wrap64;
      forall x
        ensures var taken := Region(free[k].start, free[k].start + size);
          && (Covers(free, x) <==> Covers(Carve(free, k, size), x) || Within(taken, x))
          && !(Covers(Carve(free, k, size), x) && Within(taken, x))
      {
        CarveExact(free, k, size, lo, hi, x);
      }
    }
  }

  // ----- Byte counts -----

  function Len(r: Region): int {
    r.end - r.start
  }

  function Bytes(rs: seq<Region>): int {
    if rs == [] then 0 else Len(rs[0]) + Bytes(rs[1..])
  }

  lemma {:induction false} BytesConcat(a: seq<Region>, b: seq<Region>)
    ensures Bytes(a + b) == Bytes(a) + Bytes(b)
  {
    if a == [] {
      assert a + b == b;
    } else {
      BytesConcat(a[1..], b);
      assert (a + b)[1..] == a[1..] + b;
    }
  }

  lemma BytesAround(rs: seq<Region>, k: nat)
    requires k < |rs|
    ensures Bytes(rs) == Bytes(rs[..k]) + Len(rs[k]) + Bytes(rs[k + 1..])
  {
    BytesConcat(rs[..k], rs[k..]);
    assert rs == rs[..k] + rs[k..];
    assert rs[k..][1..] == rs[k + 1..];
  }

  lemma BytesUpdated(rs: seq<Region>, k: nat, r: Region)
    requires k < |rs|
    ensures Bytes(rs[k := r]) == Bytes(rs) - Len(rs[k]) + Len(r)
  {
    BytesAround(rs, k);
    BytesAround(rs[k := r], k);
    assert rs[k := r][..k] == rs[..k] && rs[k := r][k + 1..] == rs[k + 1..];
  }

  lemma CarveBytes(free: seq<Region>, k: nat, size: nat, lo: nat, hi: nat)
    requires k < |free| && size < INT_LIMIT && hi < END_LIMIT
    requires Bounded(free, lo, hi) && Fits(free[k], size)
    ensures Bytes(Carve(free, k, size)) == Bytes(free) - size
  {
    hide Bytes, Wrap64;
    var r := free[k];
    NoWrap(r.start + size);
    if r.start + size < r.end {
      BytesUpdated(free, k, Region(r.start + size, r.end));
    } else if k + 1 < |free| {
      BytesAround(free, k);
      BytesConcat(free[..k], free[k + 1..]);
    } else {
      BytesUpdated(free, k, Region(r.end, r.end));
    }
  }

  // ----- One address space -----

  /** Live and free regions are pairwise apart and inside the space; the break is its end. */
  ghost predicate Safe(sp: Space) {
    && |sp.sym| == SYMBOLS && sp.free != []
    && sp.vmStart <= sp.vmEnd == sp.sbrk < END_LIMIT
    && sp.vmStart % PAGESZ64 == 0 && sp.vmEnd % PAGESZ64 == 0
    && Bounded(sp.free, sp.vmStart, sp.vmEnd) && AllApart(sp.free)
    && AllApart(sp.sym)
    && (forall i :: 0 <= i < SYMBOLS ==>
          && ApartFrom(sp.free, sp.sym[i])
          && (Live(sp.sym[i]) ==> PartOf(sp.sym[i], Region(sp.vmStart, sp.vmEnd))))
  }

  /** Pairwise apart, byte by byte: no address lies in two of the regions. */
  lemma {:induction false} AllApartMeans(rs: seq<Region>)
    ensures AllApart(rs) <==> forall i, j, x :: 0 <= i < j < |rs| ==> !(Within(rs[i], x) && Within(rs[j], x))
  {
    forall i, j | 0 <= i < j < |rs|
      ensures Apart(rs[i], rs[j]) <==> forall x :: !(Within(rs[i], x) && Within(rs[j], x))
    {
      ApartMeans(rs[i], rs[j]);
    }
  }

  /** Every byte of a safe space is in at most one region, live or free, and every byte of a region is in the space. */
  lemma {:induction false} OneHolder(sp: Space, x: int)
    requires Safe(sp)
    ensures var all := sp.free + sp.sym;
      && (forall i, j :: 0 <= i < j < |all| ==> !(Within(all[i], x) && Within(all[j], x)))
      && (forall i :: 0 <= i < |all| && Within(all[i], x) ==> sp.vmStart <= x < sp.vmEnd)
  {
    var all := sp.free + sp.sym;
    forall i, j | 0 <= i < j < |all|
      ensures Apart(all[i], all[j])
    {
      assert i < |sp.free| <= j ==> Apart(sp.free[i], sp.sym[j - |sp.free|]);
    }
    hide Apart;
    AllApartMeans(all);
  }

  /** Bytes of the space that no region holds any more. */
  function Lost(sp: Space): int {
    sp.vmEnd - sp.vmStart - Bytes(sp.free) - Bytes(sp.sym)
  }

  function Rounding(size: nat): int {
    AlignUp(size) - size
  }

  lemma InitSafe(kernel: bool)
    ensures Safe(InitMm(kernel))
    ensures Lost(InitMm(kernel)) == 0
  {
    hide Bytes;
    var sp := InitMm(kernel);
    assert |sp.sym| == SYMBOLS && forall i :: 0 <= i < SYMBOLS ==> sp.sym[i] == NO_REGION;
    NoBytes(sp.sym);
    NoBytes(sp.free);
  }

  lemma {:induction false} NoBytes(rs: seq<Region>)
    requires forall i :: 0 <= i < |rs| ==> rs[i].start == rs[i].end
    ensures Bytes(rs) == 0
  {
    if rs != [] { NoBytes(rs[1..]); }
  }

  lemma IntSize(size: nat)
    requires size < INT_LIMIT
    ensures Int32(size) == size
  {
  }

  lemma CutSize(size: nat)
    requires size < SIZE_LIMIT
    ensures Low32(size) == size
  {
  }

  lemma RoundUp(size: nat)
    requires size < SIZE_LIMIT
    ensures AlignUp(size) % PAGESZ64 == 0 && size <= AlignUp(size) < size + PAGESZ64
    ensures size > 0 ==> AlignUp(size) > 0
  {
    NoWrap(size + PAGESZ64 - 1);
  }

  /** A request of at most a page. */
  lemma OnePage(size: nat)
    requires 0 < size <= PAGESZ64
    ensures AlignUp(size) == PAGESZ64 && Low32(size) == size
  {
    NoWrap(size + PAGESZ64 - 1);
    CutSize(size);
  }

  /** A region that is apart from everything else may become a symbol. */
  lemma SymbolSet(sp: Space, rgid: nat, r: Region)
    requires Safe(sp) && rgid < SYMBOLS
    requires PartOf(r, Region(sp.vmStart, sp.vmEnd))
    requires ApartFrom(sp.free, r)
    requires forall i :: 0 <= i < SYMBOLS && i != rgid ==> Apart(sp.sym[i], r)
    ensures Safe(SetSymbol(sp, rgid, r))
    ensures Lost(SetSymbol(sp, rgid, r)) == Lost(sp) + Len(sp.sym[rgid]) - Len(r)
    ensures SetSymbol(sp, rgid, r) == sp.(sym := sp.sym[rgid := r])
  {
    hide Bytes;
    BytesUpdated(sp.sym, rgid, r);
    var sym' := sp.sym[rgid := r];
    forall i, j | 0 <= i < j < SYMBOLS
      ensures Apart(sym'[i], sym'[j])
    {
      assert i != rgid && j != rgid ==> Apart(sp.sym[i], sp.sym[j]);
    }
  }

  // ----- __alloc and __kmalloc -----

  lemma TakeMeans(sp: Space, size: nat)
    requires Safe(sp) && size < INT_LIMIT
    ensures var t := TakeRegion(sp.free, Int32(size));
            var k := FirstFit(sp.free, size);
      && (t.ok <==> k < |sp.free|)
      && (t.ok ==> t.rg == Region(sp.free[k].start, sp.free[k].start + size) && t.free == Carve(sp.free, k, size))
      && (!t.ok ==> t.free == sp.free && size > 0)
  {
    IntSize(size);
    var k := FirstFit(sp.free, size);
    if k < |sp.free| {
      NoWrap(sp.free[k].start + size);
    } else {
      NoWrap(sp.free[0].start);
      assert !Fits(sp.free[0], size);
    }
  }

  /** Taking from the free list: the space stays safe and the taken bytes are apart from everything. */
  lemma TakeKeeps(sp: Space, size: nat)
    requires Safe(sp) && size < INT_LIMIT && TakeRegion(sp.free, Int32(size)).ok
    ensures var t := TakeRegion(sp.free, Int32(size)); var sp1 := sp.(free := t.free);
      && Safe(sp1) && Lost(sp1) == Lost(sp) + size
      && PartOf(t.rg, Region(sp.vmStart, sp.vmEnd)) && Len(t.rg) == size
      && ApartFrom(t.free, t.rg)
      && (forall i :: 0 <= i < SYMBOLS ==> Apart(sp.sym[i], t.rg))
  {
    hide TakeRegion, Carve, Bytes;
    TakeMeans(sp, size);
    var k := FirstFit(sp.free, size);
    var t := TakeRegion(sp.free, Int32(size));
    CarveKeeps(sp.free, k, size, sp.vmStart, sp.vmEnd);
    CarveBytes(sp.free, k, size, sp.vmStart, sp.vmEnd);
    var from := CarveCuts(sp.free, k, size, sp.vmStart, sp.vmEnd);
    assert PartOf(t.rg, sp.free[k]);
    forall i | 0 <= i < SYMBOLS
      ensures ApartFrom(t.free, sp.sym[i]) && Apart(sp.sym[i], t.rg)
    {
      assert ApartFrom(sp.free, sp.sym[i]) && Apart(sp.free[k], sp.sym[i]);
    }
  }

  /** A search without success changes nothing; a size that is 0 as an int never gets here. */
  lemma TakeMisses(sp: Space, size: nat)
    requires Safe(sp) && !TakeRegion(sp.free, Int32(size)).ok
    ensures sp.(free := TakeRegion(sp.free, Int32(size)).free) == sp
    ensures Low32(size) > 0 && size > 0
  {
    NoWrap(sp.free[0].start);
    assert Fits(sp.free[0], 0);
    assert Low32(size) == 0 ==> Int32(size) == 0;
    assert FirstFit(sp.free, Int32(size)) == |sp.free|;
  }

  /** The in-place case of inc_vma_limit is never planned: the break is always the end. */
  lemma GrowthPlan(sp: Space, size: nat)
    requires Safe(sp) && 0 < size < SIZE_LIMIT && sp.sbrk < BREAK_LIMIT
    ensures PlanGrowth(sp, size) == Extend(sp.vmEnd + AlignUp(size))
  {
    RoundUp(size);
    NoWrap(sp.sbrk + size);
    NoWrap(sp.sbrk + AlignUp(size));
  }

  /** A search failed exactly when the start it leaves is the mark that was stored before it. */
  lemma {:induction false} FailureMark(free: seq<Region>, size: int)
    ensures var t := TakeRegion(free, size);
      && (t.ok <==> t.rg.start != WORD64 - 1)
      && (t.ok <==> exists k: nat :: FirstAt(free, size, k) && free[k].start != WORD64 - 1)
  {
    var k := FirstFit(free, size);
    hide FirstFit, Fits, Wrap64, Carve;
    if k < |free| {
      assert FirstAt(free, size, k);
    }
    forall i: nat | FirstAt(free, size, i)
      ensures i == k
    {
    }
  }

  /** Region k is the first that is large enough. */
  predicate FirstAt(free: seq<Region>, size: int, k: nat) {
    k < |free| && Fits(free[k], size) && forall i :: 0 <= i < k ==> !Fits(free[i], size)
  }

  /**
   The case in which the new break, wrapped, is not beyond the end: the end stays, and exactly the bytes
   between break and end become free, on top of those that were.
   */
  lemma {:induction false} InPlaceFrees(sp: Space, frames: seq<nat>, size: nat, x: int)
    requires size > 0 && Wrap64(sp.sbrk + size) <= sp.vmEnd
    ensures var (sp', rest) := Grow(sp, frames, size);
      && rest == frames && sp' == sp.(sbrk := Wrap64(sp.sbrk + size), free := sp'.free)
      && (Covers(sp'.free, x) <==> Covers(sp.free, x) || sp'.sbrk <= x < sp.vmEnd)
  {
    hide *;
    InPlaceShape(sp, frames, size);
    EnlistCovers(sp.free, Region(Wrap64(sp.sbrk + size), sp.vmEnd), x);
    WithinRegion(Wrap64(sp.sbrk + size), sp.vmEnd, x);
  }

  lemma WithinRegion(start: nat, end: nat, x: int)
    ensures Within(Region(start, end), x) <==> start <= x < end
  {
  }

  lemma InPlaceShape(sp: Space, frames: seq<nat>, size: nat)
    requires size > 0 && Wrap64(sp.sbrk + size) <= sp.vmEnd
    ensures var brk := Wrap64(sp.sbrk + size);
      Grow(sp, frames, size) == (sp.(sbrk := brk, free := Enlist(sp.free, Region(brk, sp.vmEnd))), frames)
  {
    hide Wrap64, AlignUp;
    assert [] + sp.free == sp.free;
  }

  /** A growth moves the end and the break together, and leaves the regions alone. */
  lemma GrowthShape(sp: Space, frames: seq<nat>, size: nat, newEnd: nat)
    requires PlanGrowth(sp, size) == Extend(newEnd)
    ensures var sp1 := Grow(sp, frames, size).0;
      && sp1.vmStart == sp.vmStart && sp1.vmEnd == sp1.sbrk == newEnd
      && sp1.free == sp.free && sp1.sym == sp.sym
  {
    hide PlanGrowth, MapPages, PushPages, FramesAfter;
  }

  lemma AlignedSum(a: nat, b: nat)
    requires a % PAGESZ64 == 0 && b % PAGESZ64 == 0
    ensures (a + b) % PAGESZ64 == 0
  {
  }

  /** A space that only moves its end up by whole pages is as safe as before. */
  lemma FurtherEnd(sp: Space, sp1: Space, more: nat)
    requires Safe(sp) && sp1.free == sp.free && sp1.sym == sp.sym && sp1.vmStart == sp.vmStart
    requires sp1.vmEnd == sp1.sbrk == sp.vmEnd + more < END_LIMIT && more % PAGESZ64 == 0
    ensures Safe(sp1) && Lost(sp1) == Lost(sp) + more
  {
    hide Bytes, AllApart, ApartFrom;
    AlignedSum(sp.vmEnd, more);
  }

  /** A region that starts at the break is apart from every other. */
  lemma BeyondBreak(sp: Space, r: Region)
    requires Safe(sp) && r.start == sp.sbrk
    ensures ApartFrom(sp.free, r) && forall i :: 0 <= i < SYMBOLS ==> Apart(sp.sym[i], r)
  {
    hide AllApart;
  }

  lemma GrowthKeeps(sp: Space, frames: seq<nat>, size: nat)
    requires Safe(sp) && 0 < size < SIZE_LIMIT && sp.sbrk < BREAK_LIMIT
    ensures var sp1 := Grow(sp, frames, size).0; var r := Region(sp.sbrk, sp.sbrk + size);
      && Safe(sp1) && Lost(sp1) == Lost(sp) + size + Rounding(size)
      && sp1.sym == sp.sym && sp1.free == sp.free && sp1.vmEnd == sp.vmEnd + AlignUp(size)
      && PartOf(r, Region(sp1.vmStart, sp1.vmEnd))
      && ApartFrom(sp1.free, r)
      && (forall i :: 0 <= i < SYMBOLS ==> Apart(sp1.sym[i], r))
  {
    GrowthPlan(sp, size);
    RoundUp(size);
    GrowthShape(sp, frames, size, sp.vmEnd + AlignUp(size));
    SafeShape(sp);
    hide Safe, Lost, AlignUp, Grow, PlanGrowth, Apart, ApartFrom;
    FurtherEnd(sp, Grow(sp, frames, size).0, AlignUp(size));
    BeyondBreak(sp, Region(sp.sbrk, sp.sbrk + size));
  }

  lemma AllocatedReuse(sp: Space, frames: seq<nat>, rgid: nat, size: nat)
    requires Safe(sp) && rgid < SYMBOLS && size < INT_LIMIT && TakeRegion(sp.free, Int32(size)).ok
    ensures var sp' := Kmalloc(sp, frames, true, rgid, size).0;
      && Safe(sp') && Len(sp'.sym[rgid]) == size
      && sp'.sym == sp.sym[rgid := sp'.sym[rgid]]
      && Lost(sp') == Lost(sp) + Len(sp.sym[rgid])
      && sp'.vmEnd == sp.vmEnd
  {
    TakeKeeps(sp, size);
    hide TakeRegion, Lost, Safe, Apart, ApartFrom, PartOf, Int32;
    var t := TakeRegion(sp.free, Int32(size));
    SymbolSet(sp.(free := t.free), rgid, t.rg);
  }

  lemma AllocatedGrow(sp: Space, frames: seq<nat>, rgid: nat, size: nat)
    requires Safe(sp) && rgid < SYMBOLS && size < SIZE_LIMIT && sp.sbrk < BREAK_LIMIT
    requires !TakeRegion(sp.free, Int32(size)).ok
    ensures |sp.sym| == SYMBOLS
    ensures var sp' := Kmalloc(sp, frames, true, rgid, size).0;
      && Safe(sp') && sp'.sym == sp.sym[rgid := Region(sp.sbrk, sp.sbrk + size)]
      && Lost(sp') == Lost(sp) + Len(sp.sym[rgid]) + Rounding(size)
      && sp'.vmEnd == sp.vmEnd + AlignUp(size) && sp'.free == sp.free
  {
    SafeShape(sp);
    hide *;
    TakeMisses(sp, size);
    CutSize(size);
    NoWrap(sp.sbrk + size);
    KmallocGrows(sp, frames, rgid, size);
    GrowthKeeps(sp, frames, size);
    var grown, r := Grow(sp, frames, size).0, Region(sp.sbrk, sp.sbrk + size);
    SymbolSet(grown, rgid, r);
    RegionLength(sp.sbrk, size);
  }

  lemma SafeShape(sp: Space)
    requires Safe(sp)
    ensures |sp.sym| == SYMBOLS && sp.vmStart <= sp.sbrk == sp.vmEnd < END_LIMIT
  {
  }

  lemma RegionLength(start: nat, size: nat)
    ensures Len(Region(start, start + size)) == size
  {
  }

  lemma KmallocGrows(sp: Space, frames: seq<nat>, rgid: nat, size: nat)
    requires !TakeRegion(sp.free, Int32(size)).ok && sp.(free := TakeRegion(sp.free, Int32(size)).free) == sp
    requires Wrap64(sp.sbrk + size) == sp.sbrk + size && Low32(size) == size
    ensures Kmalloc(sp, frames, true, rgid, size).0
         == SetSymbol(Grow(sp, frames, size).0, rgid, Region(sp.sbrk, sp.sbrk + size))
  {
    hide TakeRegion, Grow, Int32, Low32;
  }

  /** Sizes that the two branches of the allocators handle. */
  predicate SizeFits(sp: Space, size: nat) {
    if TakeRegion(sp.free, Int32(size)).ok then size < INT_LIMIT else size < SIZE_LIMIT
  }

  /** What both allocators keep and account for, given that the growth branch places its region at the break. */
  lemma Allocated(sp: Space, frames: seq<nat>, rgid: nat, size: nat)
    requires Safe(sp) && rgid < SYMBOLS && SizeFits(sp, size) && sp.sbrk < BREAK_LIMIT
    ensures var (sp', rest) := Kmalloc(sp, frames, true, rgid, size);
            var reused := TakeRegion(sp.free, Int32(size)).ok;
      && Safe(sp') && Len(sp'.sym[rgid]) == size
      && sp'.sym == sp.sym[rgid := sp'.sym[rgid]]
      && Lost(sp') == Lost(sp) + Len(sp.sym[rgid]) + (if reused then 0 else Rounding(size))
      && sp'.vmEnd == sp.vmEnd + (if reused then 0 else AlignUp(size))
  {
    hide TakeRegion, Kmalloc, Lost, Rounding, AlignUp, Safe, Int32;
    if TakeRegion(sp.free, Int32(size)).ok {
      AllocatedReuse(sp, frames, rgid, size);
    } else {
      AllocatedGrow(sp, frames, rgid, size);
      RegionLength(sp.sbrk, size);
    }
  }

  /** A hit needs nothing of the system call. */
  lemma ReuseAlone(sp: Space, frames: seq<nat>, found: bool, rgid: nat, size: nat)
    requires TakeRegion(sp.free, Int32(size)).ok
    ensures Alloc(sp, frames, found, rgid, size) == Kmalloc(sp, frames, true, rgid, size)
    ensures Kmalloc(sp, frames, found, rgid, size) == Kmalloc(sp, frames, true, rgid, size)
  {
    hide TakeRegion, Grow, Int32;
  }

  /** A kernel allocation without a symbol: nothing records the region, so all of it is lost. */
  lemma AllocatedUnrecorded(sp: Space, frames: seq<nat>, found: bool, rgid: nat, size: nat)
    requires Safe(sp) && rgid >= SYMBOLS && SizeFits(sp, size) && sp.sbrk < BREAK_LIMIT
    ensures var sp' := Kmalloc(sp, frames, found, rgid, size).0;
            var reused := TakeRegion(sp.free, Int32(size)).ok;
      && Safe(sp') && sp'.sym == sp.sym && (!reused ==> sp'.free == sp.free)
      && Lost(sp') == Lost(sp) + (if reused then size else if found then AlignUp(size) else 0)
      && sp'.vmEnd == sp.vmEnd + (if reused || !found then 0 else AlignUp(size))
  {
    var t := TakeRegion(sp.free, Int32(size));
    if t.ok {
      hide TakeRegion, Grow, Bytes, AlignUp, Int32;
      TakeKeeps(sp, size);
    } else {
      TakeMisses(sp, size);
      CutSize(size);
      hide TakeRegion, Grow, Bytes, AlignUp, Int32, Low32;
      if found {
        GrowthKeeps(sp, frames, size);
      }
    }
  }

  /** Below 2^31 the int copy of the break is the break, and the user allocator is the kernel's. */
  lemma UserIsKernel(sp: Space, frames: seq<nat>, found: bool, rgid: nat, size: nat)
    requires sp.sbrk < INT_LIMIT
    ensures Alloc(sp, frames, found, rgid, size) == Kmalloc(sp, frames, found, rgid, size)
  {
    hide TakeRegion, Grow;
    IntSize(sp.sbrk);
    NoWrap(sp.sbrk);
  }

  /** No byte ever disappears unaccounted for: lost bytes are never negative, rounding is under a page. */
  lemma RoundingBound(size: nat)
    requires size < SIZE_LIMIT
    ensures 0 <= Rounding(size) < PAGESZ64
  {
    RoundUp(size);
  }

  // ----- When an allocation is sound -----

  /**
   The space stays safe, no address becomes free, and a recorded region has the size asked for
   and consists of bytes that were free or beyond the old end.
   */
  ghost predicate Sound(sp: Space, sp': Space, rgid: nat, size: nat) {
    && Safe(sp')
    && (forall x :: Covers(sp'.free, x) ==> Covers(sp.free, x))
    && (rgid < SYMBOLS ==>
          && Len(sp'.sym[rgid]) == size
          && forall x :: Within(sp'.sym[rgid], x) ==> Covers(sp.free, x) || x >= sp.vmEnd)
  }

  lemma TakeSubset(sp: Space, size: nat)
    requires Safe(sp) && size < INT_LIMIT && TakeRegion(sp.free, Int32(size)).ok
    ensures var t := TakeRegion(sp.free, Int32(size));
      && (forall x :: Covers(t.free, x) ==> Covers(sp.free, x))
      && (forall x :: Within(t.rg, x) ==> Covers(sp.free, x))
  {
    TakeMeans(sp, size);
    var k := FirstFit(sp.free, size);
    hide TakeRegion, Carve, Covers, Within, Int32, Fits;
    forall x
      ensures Covers(Carve(sp.free, k, size), x) || Within(Region(sp.free[k].start, sp.free[k].start + size), x)
              ==> Covers(sp.free, x)
    {
      CarveExact(sp.free, k, size, sp.vmStart, sp.vmEnd, x);
    }
  }

  lemma ReuseSound(sp: Space, frames: seq<nat>, rgid: nat, size: nat)
    requires Safe(sp) && size < INT_LIMIT && TakeRegion(sp.free, Int32(size)).ok
    ensures Sound(sp, Kmalloc(sp, frames, true, rgid, size).0, rgid, size)
  {
    TakeKeeps(sp, size);
    TakeSubset(sp, size);
    SafeShape(sp);
    hide TakeRegion, Lost, Safe, Apart, ApartFrom, PartOf, Int32, Covers, Within;
    var t := TakeRegion(sp.free, Int32(size));
    if rgid < SYMBOLS {
      SymbolSet(sp.(free := t.free), rgid, t.rg);
    }
  }

  /** A size that is another number as an int: the region recorded or the free list is wrong. */
  lemma ReuseUnsound(sp: Space, frames: seq<nat>, rgid: nat, size: nat)
    requires Safe(sp) && size >= INT_LIMIT && TakeRegion(sp.free, Int32(size)).ok
    requires rgid < SYMBOLS || size < SIZE_LIMIT
    ensures !Sound(sp, Kmalloc(sp, frames, true, rgid, size).0, rgid, size)
  {
    IntRange(size);
    SafeShape(sp);
    var d := Int32(size);
    var k := FirstFit(sp.free, d);
    hide Int32, AllApart, ApartFrom;
    KmallocReuses(sp, frames, rgid, size);
    hide Kmalloc, SetSymbol, Carve;
    if d < 0 {
      NegativeCarve(sp.free, k, d, sp.vmStart, sp.vmEnd);
    } else {
      NoWrap(sp.free[k].start + d);
    }
  }

  lemma KmallocReuses(sp: Space, frames: seq<nat>, rgid: nat, size: nat)
    requires |sp.sym| == SYMBOLS && TakeRegion(sp.free, Int32(size)).ok
    ensures var k := FirstFit(sp.free, Int32(size)); var sp' := Kmalloc(sp, frames, true, rgid, size).0;
      && k < |sp.free| && sp'.free == Carve(sp.free, k, Int32(size)) && |sp'.sym| == SYMBOLS
      && (rgid < SYMBOLS ==> sp'.sym[rgid] == Region(sp.free[k].start, Wrap64(sp.free[k].start + Int32(size))))
  {
    hide Int32, Carve, Wrap64, Grow;
  }

  lemma IntRange(size: nat)
    ensures INT_MIN <= Int32(size) < INT_LIMIT
    ensures size >= INT_LIMIT ==> Int32(size) != size
    ensures INT_LIMIT <= size < SIZE_LIMIT ==> Int32(size) < 0
  {
  }

  /** The branches in which an allocation of a user process goes right. */
  predicate UserGuard(sp: Space, found: bool, size: nat) {
    if TakeRegion(sp.free, Int32(size)).ok then size < INT_LIMIT
    else found && size < SIZE_LIMIT && sp.sbrk < INT_LIMIT
  }

  lemma GrowSound(sp: Space, frames: seq<nat>, rgid: nat, size: nat)
    requires Safe(sp) && size < SIZE_LIMIT && sp.sbrk < BREAK_LIMIT && !TakeRegion(sp.free, Int32(size)).ok
    ensures Sound(sp, Kmalloc(sp, frames, true, rgid, size).0, rgid, size)
  {
    hide *;
    SafeShape(sp);
    var sp' := Kmalloc(sp, frames, true, rgid, size).0;
    if rgid < SYMBOLS {
      AllocatedGrow(sp, frames, rgid, size);
      SoundAtEnd(sp, sp', rgid, size);
    } else {
      SizeTaken(sp, size);
      AllocatedUnrecorded(sp, frames, true, rgid, size);
      SoundUnrecorded(sp, sp', rgid, size);
    }
  }

  lemma SizeTaken(sp: Space, size: nat)
    requires size < SIZE_LIMIT && !TakeRegion(sp.free, Int32(size)).ok
    ensures SizeFits(sp, size)
  {
    hide TakeRegion, Int32;
  }

  lemma SoundAtEnd(sp: Space, sp': Space, rgid: nat, size: nat)
    requires |sp.sym| == SYMBOLS && rgid < SYMBOLS && Safe(sp') && sp'.free == sp.free && sp.sbrk == sp.vmEnd
    requires sp'.sym == sp.sym[rgid := Region(sp.sbrk, sp.sbrk + size)]
    ensures Sound(sp, sp', rgid, size)
  {
    hide Safe, Covers;
  }

  lemma SoundUnrecorded(sp: Space, sp': Space, rgid: nat, size: nat)
    requires rgid >= SYMBOLS && Safe(sp') && sp'.free == sp.free
    ensures Sound(sp, sp', rgid, size)
  {
    hide Safe, Covers;
  }

  /** In a sound growth the recorded region lies between the old end and the new one. */
  lemma SoundRegion(sp: Space, grown: Space, rgid: nat, r: Region, size: nat)
    requires Safe(sp) && rgid < SYMBOLS && size > 0 && grown.free == sp.free && |grown.sym| == SYMBOLS
    requires Sound(sp, SetSymbol(grown, rgid, r), rgid, size)
    ensures sp.vmEnd <= r.start && r.start + size <= grown.vmEnd
  {
    var sp' := SetSymbol(grown, rgid, r);
    assert sp'.sym[rgid] == r && Within(r, r.start) && Live(r);
    hide AllApart;
    forall i | 0 <= i < |sp.free|
      ensures !Within(sp.free[i], r.start)
    {
      assert Apart(sp'.free[i], sp'.sym[rgid]);
    }
  }

  lemma GrowUnsound(sp: Space, grown: Space, rgid: nat, r: Region, size: nat)
    requires Safe(sp) && rgid < SYMBOLS && size > 0 && grown.free == sp.free && |grown.sym| == SYMBOLS
    requires r.start < sp.vmEnd || r.start + size > grown.vmEnd
    ensures !Sound(sp, SetSymbol(grown, rgid, r), rgid, size)
  {
    hide Safe, Sound, SetSymbol;
    if Sound(sp, SetSymbol(grown, rgid, r), rgid, size) {
      SoundRegion(sp, grown, rgid, r, size);
    }
  }

  /** How far the end can get: never as far as the size, when the size does not fit 32 bits. */
  lemma GrowReach(sp: Space, frames: seq<nat>, size: nat)
    requires Safe(sp) && Low32(size) > 0
    ensures var sp1 := Grow(sp, frames, Low32(size)).0;
      && sp1.free == sp.free && sp1.sym == sp.sym && sp1.vmEnd < WORD64 - INT_LIMIT
      && (size >= SIZE_LIMIT && sp.sbrk < INT_LIMIT ==> sp.sbrk + size > sp1.vmEnd)
  {
    var cut := Low32(size);
    RoundUp(cut);
    NoWrap(sp.sbrk + cut);
    NoWrap(sp.sbrk + AlignUp(cut));
    hide AlignUp, MapPages, PushPages, FramesAfter;
    assert PlanGrowth(sp, cut) == Extend(sp.vmEnd + AlignUp(cut));
    GrowthShape(sp, frames, cut, sp.vmEnd + AlignUp(cut));
    if size >= SIZE_LIMIT {
      CutAtLeast(size);
    }
  }

  lemma CutAtLeast(size: nat)
    requires size >= SIZE_LIMIT
    ensures size >= Low32(size) + SIZE_LIMIT
  {
  }

  lemma IntCopy(brk: nat)
    requires INT_LIMIT <= brk
    ensures Wrap64(Int32(brk)) < brk || Wrap64(Int32(brk)) >= WORD64 - INT_LIMIT
  {
  }

  lemma AllocMisses(sp: Space, frames: seq<nat>, found: bool, rgid: nat, size: nat)
    requires !TakeRegion(sp.free, Int32(size)).ok && sp.(free := TakeRegion(sp.free, Int32(size)).free) == sp
    ensures var start := Wrap64(Int32(sp.sbrk));
      Alloc(sp, frames, found, rgid, size).0
      == SetSymbol(if found then Grow(sp, frames, Low32(size)).0 else sp, rgid, Region(start, Wrap64(start + size)))
  {
    hide TakeRegion, Grow, Int32, Low32, Wrap64;
  }

  /** Where the growth branch of __alloc puts its region, when something is wrong: not into new bytes. */
  lemma Misplaced(sp: Space, frames: seq<nat>, found: bool, size: nat)
    requires Safe(sp) && Low32(size) > 0 && size > 0
    requires !found || size >= SIZE_LIMIT || sp.sbrk >= INT_LIMIT
    ensures var start := Wrap64(Int32(sp.sbrk)); var grown := if found then Grow(sp, frames, Low32(size)).0 else sp;
      && grown.free == sp.free && |grown.sym| == SYMBOLS
      && (start < sp.vmEnd || start + size > grown.vmEnd)
  {
    SafeShape(sp);
    hide *;
    GrowReach(sp, frames, size);
    BreakCopy(sp.sbrk);
  }

  lemma AllocUnsound(sp: Space, frames: seq<nat>, found: bool, rgid: nat, size: nat)
    requires Safe(sp) && rgid < SYMBOLS && !TakeRegion(sp.free, Int32(size)).ok
    requires !found || size >= SIZE_LIMIT || sp.sbrk >= INT_LIMIT
    ensures !Sound(sp, Alloc(sp, frames, found, rgid, size).0, rgid, size)
  {
    hide *;
    TakeMisses(sp, size);
    AllocMisses(sp, frames, found, rgid, size);
    Misplaced(sp, frames, found, size);
    var start := Wrap64(Int32(sp.sbrk));
    GrowUnsound(sp, if found then Grow(sp, frames, Low32(size)).0 else sp, rgid, Region(start, Wrap64(start + size)), size);
  }

  /**
   An allocation of a user process is sound if and only if: a free region fits and the size is
   an int; or none fits, the system call finds its caller, the size is a 32-bit number and the
   break fits the int that __alloc copies it to.
   */
  lemma {:induction false} AllocSoundIff(sp: Space, frames: seq<nat>, found: bool, rgid: nat, size: nat)
    requires Safe(sp) && rgid < SYMBOLS
    ensures Sound(sp, Alloc(sp, frames, found, rgid, size).0, rgid, size) <==> UserGuard(sp, found, size)
  {
    hide Sound, Safe, TakeRegion, Int32, Kmalloc, Alloc;
    if TakeRegion(sp.free, Int32(size)).ok {
      ReuseAlone(sp, frames, found, rgid, size);
      if size < INT_LIMIT {
        ReuseSound(sp, frames, rgid, size);
      } else {
        ReuseUnsound(sp, frames, rgid, size);
      }
    } else if UserGuard(sp, found, size) {
      UserIsKernel(sp, frames, found, rgid, size);
      GrowSound(sp, frames, rgid, size);
    } else {
      AllocUnsound(sp, frames, found, rgid, size);
    }
  }

  lemma BreakCopy(brk: nat)
    requires brk < END_LIMIT
    ensures brk < INT_LIMIT ==> Wrap64(Int32(brk)) == brk
    ensures brk >= INT_LIMIT ==> Wrap64(Int32(brk)) < brk || Wrap64(Int32(brk)) >= WORD64 - INT_LIMIT
  {
    if brk < INT_LIMIT {
      IntSize(brk);
      NoWrap(brk);
    } else {
      IntCopy(brk);
    }
  }

  /** The same for a kernel allocation, whose size is a 32-bit number. */
  predicate KernelGuard(sp: Space, found: bool, rgid: nat, size: nat) {
    if TakeRegion(sp.free, Int32(size)).ok then size < INT_LIMIT else found || rgid >= SYMBOLS
  }

  lemma {:induction false} KmallocSoundIff(sp: Space, frames: seq<nat>, found: bool, rgid: nat, size: nat)
    requires Safe(sp) && size < SIZE_LIMIT && sp.sbrk < BREAK_LIMIT
    ensures Sound(sp, Kmalloc(sp, frames, found, rgid, size).0, rgid, size) <==> KernelGuard(sp, found, rgid, size)
  {
    SafeShape(sp);
    hide Sound, Safe, Grow, TakeRegion, Int32, Kmalloc;
    if TakeRegion(sp.free, Int32(size)).ok {
      ReuseAlone(sp, frames, found, rgid, size);
      if size < INT_LIMIT {
        ReuseSound(sp, frames, rgid, size);
      } else {
        ReuseUnsound(sp, frames, rgid, size);
      }
    } else if found {
      GrowSound(sp, frames, rgid, size);
    } else {
      TakeMisses(sp, size);
      NotFound(sp, frames, rgid, size);
    }
  }

  lemma NotFound(sp: Space, frames: seq<nat>, rgid: nat, size: nat)
    requires Safe(sp) && size > 0 && !TakeRegion(sp.free, Int32(size)).ok
    requires sp.(free := TakeRegion(sp.free, Int32(size)).free) == sp
    ensures Sound(sp, Kmalloc(sp, frames, false, rgid, size).0, rgid, size) <==> rgid >= SYMBOLS
  {
    if rgid < SYMBOLS {
      GrowUnsound(sp, sp, rgid, Region(sp.sbrk, Wrap64(sp.sbrk + size)), size);
    }
    hide TakeRegion, Int32, Grow, Covers;
  }

  /** A kernel request of 2^31 bytes: the free list then claims the addresses below the kernel's space. */
  lemma NegativeSize(frames: seq<nat>)
    ensures var sp := Kmalloc(InitMm(true), frames, true, 0, INT_LIMIT).0;
      && sp.sym[0] == Region(INT_LIMIT, 0) && sp.free == [Region(0, INT_LIMIT)] && !Safe(sp)
  {
    assert Int32(INT_LIMIT) == INT_MIN;
    var free := [Region(INT_LIMIT, INT_LIMIT)];
    assert InitMm(true).free == free;
    assert Wrap64(INT_LIMIT + INT_MIN) == 0 && Fits(free[0], INT_MIN);
    assert FirstFit(free, INT_MIN) == 0;
    var sp := Kmalloc(InitMm(true), frames, true, 0, INT_LIMIT).0;
    assert sp.free[0] == Region(0, INT_LIMIT);
    assert !Bounded(sp.free, sp.vmStart, sp.vmEnd);
  }

  lemma EmptyMisses(size: nat)
    requires 0 < size < INT_LIMIT
    ensures !TakeRegion([Region(0, 0)], Int32(size)).ok
  {
    IntSize(size);
    NoWrap(size);
    assert !Fits([Region(0, 0)][0], size);
  }

  const LARGEST: nat := 0x7fff_ffff

  /** With nothing free, a request grows the space by its rounded size and gets the old end. */
  lemma EmptyGrows(sp: Space, frames: seq<nat>, rgid: nat, size: nat)
    requires Safe(sp) && sp.free == [Region(0, 0)] && rgid < SYMBOLS && 0 < size < INT_LIMIT && sp.sbrk < INT_LIMIT
    ensures !TakeRegion(sp.free, Int32(size)).ok && Low32(size) == size
    ensures PlanGrowth(sp, size) == Extend(sp.sbrk + AlignUp(size))
    ensures var sp' := Alloc(sp, frames, true, rgid, size).0;
      && Safe(sp') && sp'.sbrk == sp.sbrk + AlignUp(size) && sp'.free == sp.free
      && sp'.sym == sp.sym[rgid := Region(sp.sbrk, sp.sbrk + size)]
  {
    SafeShape(sp);
    EmptyMisses(size);
    CutSize(size);
    hide *;
    UserIsKernel(sp, frames, true, rgid, size);
    GrowthPlan(sp, size);
    AllocatedGrow(sp, frames, rgid, size);
    SafeShape(Alloc(sp, frames, true, rgid, size).0);
  }

  lemma SecondFar(sp: Space, frames: seq<nat>)
    requires Safe(sp) && sp.sbrk == INT_LIMIT && sp.free == [Region(0, 0)]
    ensures var sp' := Alloc(sp, frames, true, 1, 1).0;
      |sp'.sym| == SYMBOLS && sp'.sym[1].start == WORD64 - INT_LIMIT && !Sound(sp, sp', 1, 1)
  {
    EmptyMisses(1);
    CopiedIntLimit();
    SafeShape(sp);
    hide Alloc, Grow, TakeRegion, Safe, Sound, Int32, AlignUp;
    AllocUnsound(sp, frames, true, 1, 1);
    TakeMisses(sp, 1);
    AllocMisses(sp, frames, true, 1, 1);
    GrowReach(sp, frames, 1);
  }

  lemma FreshSpace(sp: Space)
    requires sp == InitMm(false)
    ensures Safe(sp) && sp.free == [Region(0, 0)] && sp.sbrk == 0
  {
    InitSafe(false);
  }

  /** Two requests of a new process reach the break that no longer fits: the second region lies far outside. */
  lemma BreakTooFar(sp: Space, frames: seq<nat>, size: nat)
    requires sp == InitMm(false) && size == LARGEST
    ensures var sp1 := Alloc(sp, frames, true, 0, size).0;
            var sp2 := Alloc(sp1, frames, true, 1, 1).0;
      && Safe(sp1) && sp1.sbrk == INT_LIMIT
      && |sp2.sym| == SYMBOLS && sp2.sym[1].start == WORD64 - INT_LIMIT && !Sound(sp1, sp2, 1, 1)
  {
    FreshSpace(sp);
    RoundedIntLimit();
    hide *;
    EmptyGrows(sp, frames, 0, size);
    SecondFar(Alloc(sp, frames, true, 0, size).0, frames);
  }

  lemma RoundedIntLimit()
    ensures AlignUp(LARGEST) == INT_LIMIT
  {
    NoWrap(LARGEST + PAGESZ64 - 1);
  }

  lemma CopiedIntLimit()
    ensures Wrap64(Int32(INT_LIMIT)) == WORD64 - INT_LIMIT
  {
    assert Int32(INT_LIMIT) == INT_MIN;
  }

  // ----- __free -----

  lemma Cleared(sym: seq<Region>, rgid: nat)
    requires AllApart(sym) && rgid < |sym|
    ensures AllApart(sym[rgid := NO_REGION]) && ApartFrom(sym[rgid := NO_REGION], sym[rgid])
  {
    var sym' := sym[rgid := NO_REGION];
    forall i | 0 <= i < |sym|
      ensures Apart(sym'[i], sym[rgid])
    {
      if i < rgid {
        assert Apart(sym[i], sym[rgid]);
      } else if i > rgid {
        assert Apart(sym[rgid], sym[i]);
      }
    }
    forall i, j | 0 <= i < j < |sym|
      ensures Apart(sym'[i], sym'[j])
    {
      assert Apart(sym[i], sym[j]);
    }
  }

  lemma NothingApart(rs: seq<Region>)
    ensures ApartFrom(rs, NO_REGION)
  {
  }

  lemma ClearSymbol(sp: Space, rgid: nat)
    requires Safe(sp) && rgid < SYMBOLS
    ensures var sp1 := sp.(sym := sp.sym[rgid := NO_REGION]);
      && Safe(sp1) && Lost(sp1) == Lost(sp) + Len(sp.sym[rgid])
      && (forall i :: 0 <= i < SYMBOLS ==> Apart(sp1.sym[i], sp.sym[rgid]))
  {
    hide Bytes, AllApart, Apart, Bounded;
    BytesUpdated(sp.sym, rgid, NO_REGION);
    Cleared(sp.sym, rgid);
    NothingApart(sp.free);
  }

  lemma EnlistKeeps(sp: Space, r: Region)
    requires Safe(sp)
    requires PartOf(r, Region(sp.vmStart, sp.vmEnd)) && ApartFrom(sp.free, r)
    requires forall i :: 0 <= i < SYMBOLS ==> Apart(sp.sym[i], r)
    ensures var sp1 := sp.(free := Enlist(sp.free, r));
      Safe(sp1) && Lost(sp1) == Lost(sp) - Len(r)
  {
    hide Bytes;
    BytesConcat([r], sp.free);
    OneRegion(r);
    var longer := [r] + sp.free;
    assert forall i :: 0 <= i < |sp.free| ==> longer[i + 1] == sp.free[i];
  }

  lemma FreedSafe(sp: Space, rgid: nat)
    requires Safe(sp) && rgid < SYMBOLS
    ensures Safe(Free(sp, rgid)) && Lost(Free(sp, rgid)) == Lost(sp)
  {
    if Live(sp.sym[rgid]) {
      ClearSymbol(sp, rgid);
      EnlistKeeps(sp.(sym := sp.sym[rgid := NO_REGION]), sp.sym[rgid]);
    }
  }

  lemma OneRegion(r: Region)
    ensures Bytes([r]) == Len(r)
  {
    assert [r][1..] == [];
  }

  /** Freeing moves the symbol's bytes, all of them and no others, to the free list. */
  lemma Freed(sp: Space, rgid: nat)
    requires Safe(sp) && rgid < SYMBOLS
    ensures var sp' := Free(sp, rgid);
      && Safe(sp') && Lost(sp') == Lost(sp)
      && sp'.sym == sp.sym[rgid := NO_REGION]
      && (forall x :: Covers(sp'.free, x) <==> Covers(sp.free, x) || Within(sp.sym[rgid], x))
  {
    FreedSafe(sp, rgid);
    hide Safe, Lost, Covers, Enlist;
    forall x
      ensures Covers(Free(sp, rgid).free, x) <==> Covers(sp.free, x) || Within(sp.sym[rgid], x)
    {
      EnlistCovers(sp.free, sp.sym[rgid], x);
    }
  }

  lemma EnlistCovers(free: seq<Region>, r: Region, x: int)
    ensures Covers(Enlist(free, r), x) <==> Covers(free, x) || Within(r, x)
  {
    var longer := Enlist(free, r);
    if r.start < r.end {
      assert forall i :: 0 <= i < |free| ==> longer[i + 1] == free[i];
      assert Covers(free, x) ==> Covers(longer, x) by {
        if Covers(free, x) {
          var i :| 0 <= i < |free| && Within(free[i], x);
          assert Within(longer[i + 1], x);
        }
      }
      assert Within(r, x) ==> Within(longer[0], x);
      if Covers(longer, x) {
        var i :| 0 <= i < |longer| && Within(longer[i], x);
        assert i > 0 ==> Within(free[i - 1], x);
      }
    }
  }
}
