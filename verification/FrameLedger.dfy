/**
 Where the frames of RAM go.  A growth always maps three pages, so it may map pages again; the
 frames they had are then neither free nor mapped.  This is the exact account of them.
 */
module FrameLedger {
  import opened Paging
  import opened Seqs
  import opened Space
  import opened Memory
  import opened Frames
  import opened Isolation

  /** The frames that are neither free nor mapped. */
  ghost function Lost(s: Sys, n: nat): set<nat> {
    set f: nat | f < n && Ownerless(s, n, f)
  }

  /** Every frame of RAM is free or mapped. */
  ghost predicate AllAccounted(s: Sys, n: nat) {
    forall f: nat :: f < n ==> f in s.frames || exists pid, p :: Mapped(s, pid, p) && FrameOf(s, pid, p) == f
  }

  lemma AccountedMeans(s: Sys, n: nat)
    ensures AllAccounted(s, n) <==> |Lost(s, n)| == 0
  {
    hide Mapped, FrameOf;
    if |Lost(s, n)| == 0 {
      forall f: nat | f < n
        ensures f in s.frames || exists pid, p :: Mapped(s, pid, p) && FrameOf(s, pid, p) == f
      {
        assert f !in Lost(s, n);
      }
    } else {
      var f :| f in Lost(s, n);
      assert !(f in s.frames || exists pid, p :: Mapped(s, pid, p) && FrameOf(s, pid, p) == f);
    }
  }

  // ----- What one step costs -----

  /** The page is mapped on a frame that it alone has. */
  ghost predicate Owns(s: Sys, pid: nat, p: nat) {
    Mapped(s, pid, p) && FrameOf(s, pid, p) != 0
  }

  /** How many of the first k pages of a run are mapped already, frame 0 apart. */
  ghost function Met(s: Sys, pid: nat, pgn: nat, k: nat): nat {
    if k == 0 then 0 else Met(s, pid, pgn, k - 1) + (if Owns(s, pid, Nth(pgn, k - 1)) then 1 else 0)
  }

  /** The frames under those pages. */
  ghost function Under(s: Sys, pid: nat, pgn: nat, k: nat): set<nat> {
    if k == 0 then {}
    else Under(s, pid, pgn, k - 1) + (if Owns(s, pid, Nth(pgn, k - 1)) then {FrameOf(s, pid, Nth(pgn, k - 1))} else {})
  }

  lemma {:induction false} UnderMeans(s: Sys, pid: nat, pgn: nat, k: nat, f: nat)
    ensures f in Under(s, pid, pgn, k) <==> exists i :: 0 <= i < k && Owns(s, pid, Nth(pgn, i)) && FrameOf(s, pid, Nth(pgn, i)) == f
  {
    hide Owns, FrameOf, Nth;
    if k > 0 { UnderMeans(s, pid, pgn, k - 1, f); }
  }

  /** Two pages of a run never have the same frame, unless it is frame 0. */
  lemma UnderIsNew(s: Sys, n: nat, pid: nat, pgn: nat, k: nat)
    requires IsolatedBut(s, n, {0}) && k + 1 < PAGES && Owns(s, pid, Nth(pgn, k))
    ensures FrameOf(s, pid, Nth(pgn, k)) !in Under(s, pid, pgn, k)
  {
    hide Mapped, FrameOf, Nth, Under;
    UnderMeans(s, pid, pgn, k, FrameOf(s, pid, Nth(pgn, k)));
    forall i | 0 <= i < k
      ensures Nth(pgn, i) != Nth(pgn, k)
    {
      NthDistinct(pgn, i, k);
    }
  }

  lemma {:induction false} UnderCount(s: Sys, n: nat, pid: nat, pgn: nat, k: nat)
    requires IsolatedBut(s, n, {0}) && k < PAGES
    ensures |Under(s, pid, pgn, k)| == Met(s, pid, pgn, k)
  {
    hide Owns, FrameOf, Nth, IsolatedBut;
    if k > 0 {
      UnderCount(s, n, pid, pgn, k - 1);
      if Owns(s, pid, Nth(pgn, k - 1)) {
        UnderIsNew(s, n, pid, pgn, k - 1);
      }
    }
  }

  /** The pages with a frame of their own that the operation maps again. */
  ghost function MetBy(s: Sys, op: MemOp): nat
    requires Allowed(s, op)
  {
    match Run(s, op)
    case Shuffled => 0
    case Mapped3(pgn) => Met(s, SpaceOf(op), pgn, MAP_PAGES)
  }

  // ----- Growths -----

  /** Page x of space q across a growth in space pid that takes these frames. */
  ghost predicate GrownAt(s: Sys, r: Sys, pid: nat, pgn: nat, taken: seq<nat>, q: nat, x: nat) {
    if q == pid && InRun(pgn, |taken|, x) then
      Mapped(r, q, x) && FrameOf(r, q, x) in taken
    else
      (Mapped(r, q, x) <==> Mapped(s, q, x)) && (Mapped(s, q, x) ==> FrameOf(r, q, x) == FrameOf(s, q, x))
  }

  /** The run gets the frames, in order, and every page outside it keeps its own. */
  ghost predicate Grown(s: Sys, r: Sys, pid: nat, pgn: nat, taken: seq<nat>) {
    && s.frames == taken + r.frames
    && (forall q, x :: GrownAt(s, r, pid, pgn, taken, q, x))
    && (forall i :: 0 <= i < |taken| ==> Mapped(r, pid, Nth(pgn, i)) && FrameOf(r, pid, Nth(pgn, i)) == taken[i])
  }

  lemma RunPage(s: Sys, n: nat, pid: nat, sp': Space, frames': seq<nat>, pgn: nat, i: nat)
    requires IsolatedBut(s, n, {0}) && n <= FPN_LIMIT && pid in s.spaces && i < MAP_PAGES
    requires Changes(s.spaces[pid], s.frames, sp', frames', Mapped3(pgn))
    ensures var r := s.(spaces := s.spaces[pid := sp'], frames := frames');
      Mapped(r, pid, Nth(pgn, i)) && FrameOf(r, pid, Nth(pgn, i)) == s.frames[i]
  {
    hide PagePresent, PteFpn, MapPages, Nth;
    MapPagesSets(s.spaces[pid].pte, pgn, s.frames[..MAP_PAGES], i);
  }

  lemma GrownPage(s: Sys, n: nat, pid: nat, sp': Space, frames': seq<nat>, pgn: nat, q: nat, x: nat)
    requires IsolatedBut(s, n, {0}) && n <= FPN_LIMIT && pid in s.spaces
    requires Changes(s.spaces[pid], s.frames, sp', frames', Mapped3(pgn))
    ensures GrownAt(s, s.(spaces := s.spaces[pid := sp'], frames := frames'), pid, pgn, s.frames[..MAP_PAGES], q, x)
  {
    hide PagePresent, PteFpn, MapPages, Nth, IsolatedBut;
    if q == pid && InRun(pgn, MAP_PAGES, x) {
      var i :| 0 <= i < MAP_PAGES && x == Nth(pgn, i);
      RunPage(s, n, pid, sp', frames', pgn, i);
      assert s.frames[..MAP_PAGES][i] == s.frames[i];
    } else if q == pid {
      MapPagesKeeps(s.spaces[pid].pte, pgn, s.frames[..MAP_PAGES], x);
    }
  }

  lemma GrowthGrows(s: Sys, n: nat, pid: nat, sp': Space, frames': seq<nat>, pgn: nat)
    requires IsolatedBut(s, n, {0}) && n <= FPN_LIMIT && pid in s.spaces
    requires Changes(s.spaces[pid], s.frames, sp', frames', Mapped3(pgn))
    ensures Grown(s, s.(spaces := s.spaces[pid := sp'], frames := frames'), pid, pgn, s.frames[..MAP_PAGES])
  {
    hide Mapped, FrameOf, MapPages, Nth, IsolatedBut, GrownAt;
    var r := s.(spaces := s.spaces[pid := sp'], frames := frames');
    forall q, x
      ensures GrownAt(s, r, pid, pgn, s.frames[..MAP_PAGES], q, x)
    {
      GrownPage(s, n, pid, sp', frames', pgn, q, x);
    }
    forall i | 0 <= i < MAP_PAGES
      ensures Mapped(r, pid, Nth(pgn, i)) && FrameOf(r, pid, Nth(pgn, i)) == s.frames[i]
    {
      RunPage(s, n, pid, sp', frames', pgn, i);
    }
  }

  /** After a growth a frame is lost if it was before, or if one of the run's pages gave it up; frame 0 stays in use. */
  lemma GrownLosesOnly(s: Sys, r: Sys, n: nat, pid: nat, pgn: nat, taken: seq<nat>, f: nat)
    requires Grown(s, r, pid, pgn, taken) && Ownerless(r, n, f)
    requires f == 0 ==> Ownerless(s, n, 0)
    ensures Ownerless(s, n, f) || f in Under(s, pid, pgn, |taken|)
  {
    hide Mapped, FrameOf, Nth, Under;
    UnderMeans(s, pid, pgn, |taken|, f);
    assert f !in taken by {
      forall i | 0 <= i < |taken|
        ensures taken[i] != f
      {
        assert Mapped(r, pid, Nth(pgn, i));
      }
    }
    forall q, x | Mapped(s, q, x) && FrameOf(s, q, x) == f
      ensures f in Under(s, pid, pgn, |taken|)
    {
      assert GrownAt(s, r, pid, pgn, taken, q, x);
    }
  }

  lemma GrownLosesAll(s: Sys, r: Sys, n: nat, pid: nat, pgn: nat, taken: seq<nat>, f: nat)
    requires IsolatedBut(s, n, {0}) && Grown(s, r, pid, pgn, taken)
    requires Ownerless(s, n, f) || f in Under(s, pid, pgn, |taken|)
    ensures Ownerless(r, n, f)
  {
    hide Mapped, FrameOf, Nth, Under, FreeListOk;
    UnderMeans(s, pid, pgn, |taken|, f);
    if f in Under(s, pid, pgn, |taken|) {
      var i :| 0 <= i < |taken| && Owns(s, pid, Nth(pgn, i)) && FrameOf(s, pid, Nth(pgn, i)) == f;
      assert f !in s.frames && f < n;
    }
    assert f !in s.frames && f !in taken;
    forall q, x | Mapped(r, q, x)
      ensures FrameOf(r, q, x) != f
    {
      assert GrownAt(s, r, pid, pgn, taken, q, x);
    }
  }

  /** A growth loses exactly the frames under the pages it maps again. */
  lemma GrownLedger(s: Sys, r: Sys, n: nat, pid: nat, pgn: nat, taken: seq<nat>)
    requires IsolatedBut(s, n, {0}) && Grown(s, r, pid, pgn, taken) && |taken| < PAGES
    requires Ownerless(r, n, 0) ==> Ownerless(s, n, 0)
    ensures |Lost(r, n)| == |Lost(s, n)| + Met(s, pid, pgn, |taken|)
  {
    hide Grown, Under, Met, Ownerless;
    var under := Under(s, pid, pgn, |taken|);
    forall f: nat
      ensures f in Lost(r, n) <==> f in Lost(s, n) || f in under
      ensures !(f in Lost(s, n) && f in under)
    {
      UnderInRam(s, n, pid, pgn, |taken|, f);
      if Ownerless(r, n, f) {
        GrownLosesOnly(s, r, n, pid, pgn, taken, f);
      } else if Ownerless(s, n, f) || f in under {
        GrownLosesAll(s, r, n, pid, pgn, taken, f);
      }
    }
    assert Lost(r, n) == Lost(s, n) + under && Lost(s, n) !! under;
    UnderCount(s, n, pid, pgn, |taken|);
  }

  lemma UnderInRam(s: Sys, n: nat, pid: nat, pgn: nat, k: nat, f: nat)
    requires IsolatedBut(s, n, {0})
    ensures f in Under(s, pid, pgn, k) ==> f < n && !Ownerless(s, n, f)
  {
    hide Mapped, FrameOf, Nth, Under;
    UnderMeans(s, pid, pgn, k, f);
  }

  // ----- Every other step -----

  lemma SameLost(s: Sys, r: Sys, n: nat)
    requires SamePages(s, r) && forall f :: f in r.frames <==> f in s.frames
    ensures Lost(r, n) == Lost(s, n)
  {
    hide Mapped, FrameOf;
    forall f: nat
      ensures Ownerless(r, n, f) <==> Ownerless(s, n, f)
    {
    }
  }

  /** Frame 0 is never lost: it is free, or the anchor has it. */
  lemma ZeroInUse(s: Sys, n: nat)
    requires Rooted(s) && !Untouched(s)
    ensures !Ownerless(s, n, 0)
  {
    hide Mapped, FrameOf, Untouched;
  }

  lemma AllocLedger(s: Sys, n: nat, pid: nat, sp': Space, frames': seq<nat>, c: Change)
    requires IsolatedBut(s, n, {0}) && n <= FPN_LIMIT && pid in s.spaces
    requires Changes(s.spaces[pid], s.frames, sp', frames', c)
    ensures var r := s.(spaces := s.spaces[pid := sp'], frames := frames');
      (Ownerless(r, n, 0) ==> Ownerless(s, n, 0)) ==>
        |Lost(r, n)| == |Lost(s, n)| + (if c.Mapped3? then Met(s, pid, c.pgn, MAP_PAGES) else 0)
  {
    hide IsolatedBut, Lost, Met, Grown, SamePages, MapPages, PushPages, Reverse, Ownerless;
    var r := s.(spaces := s.spaces[pid := sp'], frames := frames');
    match c
    case Mapped3(pgn) =>
      GrowthGrows(s, n, pid, sp', frames', pgn);
      if Ownerless(r, n, 0) ==> Ownerless(s, n, 0) {
        GrownLedger(s, r, n, pid, pgn, s.frames[..MAP_PAGES]);
      }
    case Shuffled =>
      SameTables(s, r, pid);
      forall f
        ensures f in frames' <==> f in s.frames
      {
        SameElements(s.frames, f);
      }
      SameLost(s, r, n);
  }

  lemma RegionLedger(s: Sys, n: nat, op: MemOp)
    requires Ready(s, n) && n <= FPN_LIMIT && Allowed(s, op) && IsRegionOp(op)
    ensures |Lost(Apply(s, op), n)| == |Lost(s, n)| + MetBy(s, op)
  {
    hide Contained, IsolatedBut, BreaksOk, Allowed, Apply, Changes, Run, Ownerless, Lost, Met, Anchor, Untouched;
    var sp, rest := OpChanges(s, op);
    AllocLedger(s, n, SpaceOf(op), sp, rest, Run(s, op));
    RegionReady(s, n, op);
    if Run(s, op).Mapped3? {
      GrownTouched(s, SpaceOf(op), sp, rest, Run(s, op).pgn);
      ZeroInUse(Apply(s, op), n);
    } else {
      ShuffledZero(s, n, SpaceOf(op), sp, rest);
    }
  }

  lemma GrownTouched(s: Sys, pid: nat, sp': Space, frames': seq<nat>, pgn: nat)
    requires pid in s.spaces && Changes(s.spaces[pid], s.frames, sp', frames', Mapped3(pgn))
    ensures !Untouched(s.(spaces := s.spaces[pid := sp'], frames := frames'))
  {
    hide MapPages, PagePresent, PteFpn;
    MapPagesSets(s.spaces[pid].pte, pgn, s.frames[..MAP_PAGES], 0);
    assert Nth(pgn, 0) in sp'.pte;
    assert pid in s.spaces[pid := sp'];
  }

  lemma ShuffledZero(s: Sys, n: nat, pid: nat, sp': Space, frames': seq<nat>)
    requires pid in s.spaces && Changes(s.spaces[pid], s.frames, sp', frames', Shuffled)
    ensures var r := s.(spaces := s.spaces[pid := sp'], frames := frames'); Ownerless(r, n, 0) ==> Ownerless(s, n, 0)
  {
    hide Mapped, FrameOf, Reverse;
    var r := s.(spaces := s.spaces[pid := sp'], frames := frames');
    SameTables(s, r, pid);
    SameElements(s.frames, 0);
  }

  // ----- Evictions -----

  /** An eviction loses nothing and finds nothing: the victim's frame goes on being used, and so does frame 0. */
  lemma MovedLost(s: Sys, r: Sys, n: nat, pid: nat, e: Eviction, f: nat)
    requires Moved(s, r, pid, e) && e.number == 0 && !Ownerless(s, n, 0)
    ensures Ownerless(r, n, f) <==> Ownerless(s, n, f)
  {
    hide Mapped, FrameOf;
    assert MovedAt(s, r, pid, e, pid, e.victim) && MovedAt(s, r, pid, e, pid, e.page);
    if Ownerless(r, n, f) {
      forall q, x | Mapped(s, q, x)
        ensures FrameOf(s, q, x) != f
      {
        assert MovedAt(s, r, pid, e, q, x);
      }
    } else if Ownerless(s, n, f) {
      forall q, x | Mapped(r, q, x)
        ensures FrameOf(r, q, x) != f
      {
        assert MovedAt(s, r, pid, e, q, x);
      }
    }
  }

  lemma PagedLedger(s: Sys, n: nat, pid: nat, pgn: nat)
    requires Ready(s, n) && pid in s.spaces && Backed(s, pid, pgn)
    ensures Lost(Paged(s, pid, pgn), n) == Lost(s, n)
  {
    hide IsolatedBut, DevicesOk, InRange, BreaksOk, Ownerless, EvictionOf, SpacePages, Anchor, Paged, Backed, Moved, SamePages;
    assert SpacePages(s.spaces[pid]);
    var r := Paged(s, pid, pgn);
    if Evicts(s, pid, pgn) {
      assert !Untouched(s);
      EvictionMoves(s, pid, pgn);
      AlwaysZero(s, n, pid, pgn);
      ZeroInUse(s, n);
      forall f: nat
        ensures Ownerless(r, n, f) <==> Ownerless(s, n, f)
      {
        MovedLost(s, r, n, pid, EvictionOf(s, pid, pgn), f);
      }
    } else {
      hide Evicts;
      NoEviction(s, pid, pgn);
      SameLost(s, r, n);
    }
  }

  lemma SameSpacesLost(r: Sys, t: Sys, n: nat)
    requires t.spaces == r.spaces && t.frames == r.frames
    ensures Lost(t, n) == Lost(r, n)
  {
    hide PagePresent, PteFpn;
    assert forall q, p :: Mapped(t, q, p) == Mapped(r, q, p) && FrameOf(t, q, p) == FrameOf(r, q, p);
    forall f: nat
      ensures Ownerless(t, n, f) <==> Ownerless(r, n, f)
    {
    }
  }

  lemma AccessLedger(s: Sys, n: nat, op: MemOp)
    requires Ready(s, n) && Allowed(s, op) && IsAccess(op)
    ensures Lost(Apply(s, op), n) == Lost(s, n)
  {
    hide Ready, Paged, Backed, Lost, PageOf, Allowed, Apply;
    AccessTables(s, op);
    PagedLedger(s, n, op.pid, PageOf(op));
    SameSpacesLost(Paged(s, op.pid, PageOf(op)), Apply(s, op), n);
  }

  /** The ledger of one step: it loses as many frames as its growth maps pages again; nothing else loses or finds any. */
  lemma {:induction false} StepLedger(s: Sys, n: nat, op: MemOp)
    requires Ready(s, n) && n <= FPN_LIMIT && Allowed(s, op)
    ensures |Lost(Apply(s, op), n)| == |Lost(s, n)| + MetBy(s, op)
  {
    hide Ready, Allowed, Apply, Lost, Met, InitMm, SamePages;
    if IsAccess(op) {
      AccessLedger(s, n, op);
    } else if op.LoadOp? {
      LoadMeans(s, op);
      LoadTables(s, op.pid);
      SameLost(s, Apply(s, op), n);
    } else {
      RegionLedger(s, n, op);
    }
  }

  // ----- Whole runs -----

  ghost function TotalMet(s: Sys, ops: seq<MemOp>): nat
    requires AllowedRun(s, ops)
    decreases |ops|
  {
    if ops == [] then 0 else MetBy(s, ops[0]) + TotalMet(Apply(s, ops[0]), ops[1..])
  }

  /** Over every run, evictions or not: frames are lost by growths that map pages again, and by nothing else. */
  lemma {:induction false} RunLedger(s: Sys, n: nat, ops: seq<MemOp>)
    requires Ready(s, n) && n <= FPN_LIMIT && AllowedRun(s, ops)
    ensures |Lost(ApplyAll(s, ops), n)| == |Lost(s, n)| + TotalMet(s, ops)
    decreases |ops|
  {
    hide Apply, Ready, Allowed, Lost, MetBy, Isolated;
    if ops != [] {
      StepLedger(s, n, ops[0]);
      StepIsolatesIff(s, n, ops[0]);
      RunLedger(Apply(s, ops[0]), n, ops[1..]);
    }
  }

  /** No growth of the run maps a page again that has a frame of its own. */
  ghost predicate NeverMeets(s: Sys, ops: seq<MemOp>)
    requires AllowedRun(s, ops)
    decreases |ops|
  {
    ops != [] ==> MetBy(s, ops[0]) == 0 && NeverMeets(Apply(s, ops[0]), ops[1..])
  }

  lemma {:induction false} MeetsNothing(s: Sys, ops: seq<MemOp>)
    requires AllowedRun(s, ops)
    ensures TotalMet(s, ops) == 0 <==> NeverMeets(s, ops)
    decreases |ops|
  {
    hide Allowed, Apply, MetBy;
    if ops != [] { MeetsNothing(Apply(s, ops[0]), ops[1..]); }
  }

  lemma NothingLostAtBoot(maxSize: nat, swapSize: nat)
    ensures |Lost(Boot(maxSize, swapSize), maxSize / PAGESZ)| == 0
  {
    var s, n := Boot(maxSize, swapSize), maxSize / PAGESZ;
    AccountedMeans(s, n);
    forall f: nat | f < n
      ensures f in s.frames
    {
      assert s.frames[f] == f;
    }
  }

  /**
   "Free plus mapped is all of RAM", after any run from boot: it holds if and only if no growth of
   the run maps a page again that has a frame of its own.
   */
  lemma {:induction false} AllAccountedIff(maxSize: nat, swapSize: nat, ops: seq<MemOp>)
    requires maxSize / PAGESZ <= FPN_LIMIT && AllowedRun(Boot(maxSize, swapSize), ops)
    ensures AllAccounted(ApplyAll(Boot(maxSize, swapSize), ops), maxSize / PAGESZ) <==> NeverMeets(Boot(maxSize, swapSize), ops)
  {
    hide Boot, AllowedRun, ApplyAll, Ready, Isolated, NeverMeets, TotalMet, AllAccounted, Lost;
    var s, n := Boot(maxSize, swapSize), maxSize / PAGESZ;
    BootReady(maxSize, swapSize);
    RunLedger(s, n, ops);
    NothingLostAtBoot(maxSize, swapSize);
    MeetsNothing(s, ops);
    AccountedMeans(ApplyAll(s, ops), n);
  }

  // ----- What a growth leaves for the next one -----

  /** By how many pages a growth of this size falls short of the three pages it maps. */
  function Overlap(size: nat): nat {
    var pages := AlignUp(Low32(size)) / PAGESZ64;
    if pages < MAP_PAGES then MAP_PAGES - pages else 0
  }

  function Over(over: map<nat, nat>, pid: nat): nat {
    if pid in over then over[pid] else 0
  }

  /** Exactly k pages from the break on are mapped. */
  ghost predicate Tail(s: Sys, pid: nat, k: nat)
    requires pid in s.spaces
  {
    k < MAP_PAGES
    && forall p :: s.spaces[pid].sbrk / PAGESZ64 <= p < PAGES ==> (Mapped(s, pid, p) <==> p < s.spaces[pid].sbrk / PAGESZ64 + k)
  }

  ghost predicate Tails(s: Sys, over: map<nat, nat>) {
    && over.Keys <= s.spaces.Keys
    && (|s.frames| >= MAP_PAGES ==> forall pid :: pid in s.spaces ==> Tail(s, pid, Over(over, pid)))
  }

  /** The overlaps after an operation: a growth leaves its own. */
  function OverAfter(s: Sys, op: MemOp, over: map<nat, nat>): map<nat, nat>
    requires Allowed(s, op)
  {
    hide Allowed;
    if (op.AllocOp? || op.KmallocOp?) && Run(s, op).Mapped3? then over[SpaceOf(op) := Overlap(op.size)] else over
  }

  /** What every growth finds left over by the growth before it in the same space, summed over the run. */
  function Owed(s: Sys, ops: seq<MemOp>, over: map<nat, nat>): nat
    requires AllowedRun(s, ops)
    decreases |ops|
  {
    if ops == [] then 0
    else (if Run(s, ops[0]).Mapped3? then Over(over, SpaceOf(ops[0])) else 0)
         + Owed(Apply(s, ops[0]), ops[1..], OverAfter(s, ops[0], over))
  }

  lemma MetAll(s: Sys, pid: nat, brk: nat, over: nat, k: nat)
    requires brk + MAP_PAGES < PAGES && over < MAP_PAGES && k <= MAP_PAGES
    requires forall p :: brk <= p < PAGES ==> (Owns(s, pid, p) <==> p < brk + over)
    ensures Met(s, pid, brk, k) == if k < over then k else over
  {
    hide Owns;
    if k > 0 {
      MetAll(s, pid, brk, over, k - 1);
      assert Nth(brk, k - 1) == brk + k - 1;
    }
  }

  lemma RunIs(brk: nat, p: nat)
    requires brk + MAP_PAGES < PAGES
    ensures InRun(brk, MAP_PAGES, p) <==> brk <= p < brk + MAP_PAGES
  {
    assert forall i :: 0 <= i < MAP_PAGES ==> Nth(brk, i) == brk + i;
    if brk <= p < brk + MAP_PAGES {
      assert p == Nth(brk, p - brk);
    }
  }

  /** While nothing is shared, no page from a break on is on frame 0. */
  lemma AboveBreak(s: Sys, n: nat, pid: nat, p: nat)
    requires Isolated(s, n) && Rooted(s) && |s.frames| >= MAP_PAGES && pid in s.spaces
    requires s.spaces[pid].sbrk / PAGESZ64 <= p
    ensures Mapped(s, pid, p) <==> Owns(s, pid, p)
  {
    hide FrameOf, FreeListOk;
    if Mapped(s, pid, p) {
      assert !Untouched(s);
      var q, x :| Anchor(s, q, x);
      assert q == pid && x == p ==> false;
    }
  }

  lemma GrowthMeets(s: Sys, n: nat, pid: nat, k: nat)
    requires Ready(s, n) && Isolated(s, n) && n <= FPN_LIMIT && |s.frames| >= MAP_PAGES && pid in s.spaces && Tail(s, pid, k)
    ensures Met(s, pid, s.spaces[pid].sbrk / PAGESZ64, MAP_PAGES) == k
  {
    hide Contained, IsolatedBut, Mapped, FrameOf, Owns, Anchor, Untouched, Rooted;
    FarBreak(s, n, pid);
    var brk := s.spaces[pid].sbrk / PAGESZ64;
    forall p | brk <= p < PAGES
      ensures Owns(s, pid, p) <==> p < brk + k
    {
      AboveBreak(s, n, pid, p);
    }
    MetAll(s, pid, brk, k, MAP_PAGES);
  }

  // ----- The overlaps over a run -----

  /** Growths and other changes of one space leave the tails of the others alone. */
  lemma OtherTail(s: Sys, r: Sys, q: nat, k: nat)
    requires q in s.spaces && q in r.spaces && Tail(s, q, k)
    requires r.spaces[q].sbrk == s.spaces[q].sbrk && r.spaces[q].pte == s.spaces[q].pte
    ensures Tail(r, q, k)
  {
    hide PagePresent;
    assert forall p :: Mapped(r, q, p) == Mapped(s, q, p);
  }

  lemma WholePages(size: nat)
    requires Low32(size) > 0
    ensures AlignUp(Low32(size)) == PAGESZ64 * (AlignUp(Low32(size)) / PAGESZ64)
    ensures AlignUp(Low32(size)) / PAGESZ64 >= 1 && Overlap(size) < MAP_PAGES
  {
    CutBelow(size);
    Rounded(Low32(size));
  }

  lemma PagesMoved(brk: nat, more: nat)
    requires more % PAGESZ64 == 0
    ensures (brk + more) / PAGESZ64 == brk / PAGESZ64 + more / PAGESZ64
  {
  }

  /** After a growth the run reaches beyond the new break by its overlap. */
  lemma GrownTail(s: Sys, r: Sys, n: nat, pid: nat, taken: seq<nat>, size: nat, k: nat)
    requires pid in s.spaces && pid in r.spaces && BreakOk(s.spaces[pid], REACH * FPN_LIMIT + REACH) && Tail(s, pid, k)
    requires Grown(s, r, pid, s.spaces[pid].sbrk / PAGESZ64, taken) && |taken| == MAP_PAGES
    requires Low32(size) > 0 && r.spaces[pid].sbrk == s.spaces[pid].sbrk + AlignUp(Low32(size))
    ensures Tail(r, pid, Overlap(size))
  {
    hide Mapped, FrameOf, AlignUp, Low32;
    WholePages(size);
    var brk := s.spaces[pid].sbrk / PAGESZ64;
    PagesMoved(s.spaces[pid].sbrk, AlignUp(Low32(size)));
    forall p | brk + 1 <= p < PAGES
      ensures Mapped(r, pid, p) <==> p < brk + MAP_PAGES
    {
      assert GrownAt(s, r, pid, brk, taken, pid, p);
      RunIs(brk, p);
    }
  }

  lemma RegionTails(s: Sys, n: nat, op: MemOp, over: map<nat, nat>)
    requires Ready(s, n) && Isolated(s, n) && n <= FPN_LIMIT && Allowed(s, op) && IsRegionOp(op) && Tails(s, over)
    ensures Tails(Apply(s, op), OverAfter(s, op, over))
    ensures MetBy(s, op) == if Run(s, op).Mapped3? then Over(over, SpaceOf(op)) else 0
  {
    hide Contained, IsolatedBut, Rooted, Allowed, Apply, Changes, Run, Met, Tail, Grown, Overlap, AlignUp, Low32, BreakOk, BreakMoved;
    var sp, rest := OpChanges(s, op);
    var pid, c := SpaceOf(op), Run(s, op);
    var r := Apply(s, op);
    ChangedFrames(s.spaces[pid], s.frames, sp, rest, c);
    if |s.frames| >= MAP_PAGES {
      FarBreak(s, n, pid);
      OpMoves(s, op);
      MovedMeans(s.spaces[pid], sp, c);
      if c.Mapped3? {
        GrowthMeets(s, n, pid, Over(over, pid));
        GrowthGrows(s, n, pid, sp, rest, c.pgn);
        GrownTail(s, r, n, pid, s.frames[..MAP_PAGES], op.size, Over(over, pid));
      }
      forall q | q in s.spaces && (q != pid || c.Shuffled?)
        ensures Tail(r, q, Over(over, q))
      {
        OtherTail(s, r, q, Over(over, q));
      }
    }
  }

  lemma MovedMeans(sp: Space, sp': Space, c: Change)
    requires BreakMoved(sp, sp', c)
    ensures if c.Mapped3? then c.pgn == sp.sbrk / PAGESZ64 else sp'.sbrk == sp.sbrk
  {
  }

  lemma ChangedFrames(sp: Space, frames: seq<nat>, sp': Space, frames': seq<nat>, c: Change)
    requires Changes(sp, frames, sp', frames', c)
    ensures |frames'| <= |frames| && (c.Mapped3? ==> |frames| >= MAP_PAGES) && (c.Shuffled? ==> sp'.pte == sp.pte)
  {
    hide MapPages, PushPages;
  }

  lemma QuietTails(s: Sys, r: Sys, over: map<nat, nat>)
    requires Tails(s, over) && r.frames == s.frames && r.spaces.Keys == s.spaces.Keys
    requires forall q :: q in s.spaces ==> r.spaces[q].sbrk == s.spaces[q].sbrk && r.spaces[q].pte == s.spaces[q].pte
    ensures Tails(r, over)
  {
    hide Tail;
    if |s.frames| >= MAP_PAGES {
      forall q | q in s.spaces
        ensures Tail(r, q, Over(over, q))
      {
        OtherTail(s, r, q, Over(over, q));
      }
    }
  }

  lemma AccessTails(s: Sys, op: MemOp, over: map<nat, nat>)
    requires Allowed(s, op) && IsAccess(op) && !Evicting(s, op) && Tails(s, over)
    ensures Tails(Apply(s, op), over)
  {
    hide Tails, Allowed, Apply, Evicts, Paged, Backed, PageOf;
    AccessTables(s, op);
    NoEviction(s, op.pid, PageOf(op));
    PagedBreaks(s, op.pid, PageOf(op));
    PagedKeeps(s, op.pid, PageOf(op));
    QuietTails(s, Apply(s, op), over);
  }

  lemma FreshTail(s: Sys, pid: nat)
    requires pid in s.spaces && s.spaces[pid] == InitMm(false)
    ensures Tail(s, pid, 0)
  {
  }

  lemma LoadTails(s: Sys, op: MemOp, over: map<nat, nat>)
    requires Allowed(s, op) && op.LoadOp? && Tails(s, over)
    ensures Tails(Apply(s, op), over)
  {
    hide Tail, Allowed, Apply, InitMm;
    LoadMeans(s, op);
    var r := Apply(s, op);
    FreshTail(r, op.pid);
    if |s.frames| >= MAP_PAGES {
      forall q | q in s.spaces
        ensures Tail(r, q, Over(over, q))
      {
        OtherTail(s, r, q, Over(over, q));
      }
    }
  }

  lemma StepTails(s: Sys, n: nat, op: MemOp, over: map<nat, nat>)
    requires Ready(s, n) && Isolated(s, n) && n <= FPN_LIMIT && Allowed(s, op) && !Evicting(s, op) && Tails(s, over)
    ensures Tails(Apply(s, op), OverAfter(s, op, over))
    ensures MetBy(s, op) == if Run(s, op).Mapped3? then Over(over, SpaceOf(op)) else 0
  {
    hide Ready, Isolated, Allowed, Apply, Tails, Evicting, RunOf, Met, Overlap;
    if IsAccess(op) {
      AccessTails(s, op, over);
    } else if op.LoadOp? {
      LoadTails(s, op, over);
    } else {
      RegionTails(s, n, op, over);
    }
  }

  lemma {:induction false} OwedFrom(s: Sys, n: nat, ops: seq<MemOp>, over: map<nat, nat>)
    requires Ready(s, n) && Isolated(s, n) && n <= FPN_LIMIT && AllowedRun(s, ops) && EvictionFree(s, ops) && Tails(s, over)
    ensures TotalMet(s, ops) == Owed(s, ops, over)
    decreases |ops|
  {
    hide Ready, Isolated, Allowed, Apply, Tails, Evicting, Run, MetBy, OverAfter, SpaceOf;
    if ops != [] {
      StepTails(s, n, ops[0], over);
      StepIsolatesIff(s, n, ops[0]);
      OwedFrom(Apply(s, ops[0]), n, ops[1..], OverAfter(s, ops[0], over));
    }
  }

  lemma BootTails(maxSize: nat, swapSize: nat)
    ensures Tails(Boot(maxSize, swapSize), map[])
  {
  }

  /**
   Any run from boot without an eviction, by any processes, with allocations and frees: the frames
   lost are exactly the sum, over its growths, of what the growth before it in the same space fell
   short of three pages.
   */
  lemma {:induction false} OwedIsLost(maxSize: nat, swapSize: nat, ops: seq<MemOp>)
    requires maxSize / PAGESZ <= FPN_LIMIT && AllowedRun(Boot(maxSize, swapSize), ops) && EvictionFree(Boot(maxSize, swapSize), ops)
    ensures |Lost(ApplyAll(Boot(maxSize, swapSize), ops), maxSize / PAGESZ)| == Owed(Boot(maxSize, swapSize), ops, map[])
  {
    hide Boot, AllowedRun, ApplyAll, Ready, Isolated, TotalMet, Lost, Owed, EvictionFree, Tails;
    var s, n := Boot(maxSize, swapSize), maxSize / PAGESZ;
    BootReady(maxSize, swapSize);
    BootTails(maxSize, swapSize);
    RunLedger(s, n, ops);
    NothingLostAtBoot(maxSize, swapSize);
    OwedFrom(s, n, ops, map[]);
  }
}
