/** The waiting bound is reached: one CPU, two processes of one level, and the later one always goes first. */
module Overtaking {
  import opened Queue
  import opened Sched
  import opened Cpus
  import opened CpuRuns
  import opened Turns
  import opened Waiting
  import opened Wrappers
  import SchedRuns
  import Starvation

  /** Two processes of one level; y, loaded last, has the smaller legacy priority and something to do. */
  predicate Pair(k: Config, x: Pcb, y: Pcb) {
    k.timeSlot >= 1 && ConfigOk(k) && k.procs == [x, y] && x.prio == y.prio && y.priority < x.priority && y.codeSize >= 1
  }

  /** The CPU is about to ask for y, or runs it, with instructions left unless it has just executed one. */
  predicate Serving(cpu: Cpu, at: nat, y: Pcb) {
    if cpu.held == None then (cpu.pc.Top? || cpu.pc.Refetch?) && at < y.codeSize
    else
      && cpu.held == Some(y) && !cpu.pc.Refetch? && !cpu.pc.Exited?
      && (if cpu.pc.InSlot? || cpu.pc.Top? then at <= y.codeSize else at < y.codeSize)
  }

  /** The CPU serves y, and x waits. */
  ghost predicate Solo(k: Config, s: Sys, x: Pcb, y: Pcb) {
    && Inv(k, s) && s.loaded == 2 && |s.cpus| == 1 && y in s.pcs && y !in s.finished && IsWaiting(s, x)
    && Serving(s.cpus[0], s.pcs[y], y) && (s.cpus[0].held == None ==> IsWaiting(s, y))
  }

  /** How far y is from its end. */
  function Left(s: Sys, y: Pcb): int
    requires |s.cpus| == 1 && y in s.pcs
  {
    var cpu := s.cpus[0];
    8 * (y.codeSize - s.pcs[y])
    + if cpu.held == None then 6
      else match cpu.pc
        case InSlot => 8
        case Top => 7
        case Recheck => 5
        case Running => 4
        case _ => 3
  }

  /** Asked for a process, the scheduler gives y. */
  lemma GivesY(k: Config, s: Sys, x: Pcb, y: Pcb)
    requires Pair(k, x, y) && Inv(k, s) && IsWaiting(s, x) && IsWaiting(s, y)
    ensures StateOk(s.sched) && Get(s.sched).0 == Some(y)
  {
    InvState(k, s);
    hide QueueBag, HeldBag, TraceOk, FetchOk, SliceOk, Get;
    Starvation.RivalBlocks(s.sched, x, y);
    var z := Get(s.sched).0.value;
    Starvation.GetKeeps(s.sched, 0, z);
    WaitingFacts(k, s, z.prio, z);
  }

  /** What a step of a CPU leaves of the CPU, when the scheduler answers with y. */
  lemma SoloMoves(k: Config, s: Sys, x: Pcb, y: Pcb)
    requires Pair(k, x, y) && Solo(k, s, x, y) && Enabled(k, s, Go(0))
    requires s.cpus[0].held == None ==> Get(s.sched).0 == Some(y)
    ensures var s' := Do(k, s, Go(0)); var cpu' := s'.cpus[0];
      && |s'.cpus| == 1 && s'.loaded == 2 && y in s'.pcs
      && (y in s'.finished || (0 <= Left(s', y) < Left(s, y) && Serving(cpu', s'.pcs[y], y)))
  {
    hide Owned, TraceOk, SliceOk, Get, Put, IsWaiting;
  }

  /** A loaded process that is neither held nor finished waits at its level. */
  lemma StillWaiting(k: Config, s: Sys, x: Pcb, y: Pcb)
    requires Pair(k, x, y) && Inv(k, s) && s.loaded == 2 && |s.cpus| == 1 && s.cpus[0].held != Some(y) && y !in s.finished
    ensures IsWaiting(s, y)
  {
    InvState(k, s);
    hide Inv, Owned;
    var place := ExactlyOnePlace(k, s, 1);
    assert At(s, y, place.value);
  }

  lemma {:induction false} SoloStep(k: Config, s: Sys, x: Pcb, y: Pcb)
    requires Pair(k, x, y) && Solo(k, s, x, y)
    ensures Enabled(k, s, Go(0)) && StateOk(s.sched)
    ensures CallOf(k, s, Go(0)) == Some(SchedRuns.GetOp) ==> Get(s.sched).0 == Some(y)
    ensures var s' := Do(k, s, Go(0));
      && Inv(k, s') && IsWaiting(s', x) && |s'.cpus| == 1 && y in s'.pcs
      && (y in s'.finished || (Solo(k, s', x, y) && 0 <= Left(s', y) < Left(s, y)))
  {
    InvState(k, s);
    NeverStuck(k, s, Go(0));
    if s.cpus[0].held == None {
      GivesY(k, s, x, y);
    }
    CallIsAsk(k, s);
    SoloMoves(k, s, x, y);
    hide Inv, ConfigOk, Do, CallOf, Enabled, Get, IsWaiting, Left;
    StepKeeps(k, s, Go(0));
    WaitStep(k, s, Go(0), x);
    var s' := Do(k, s, Go(0));
    if y !in s'.finished && s'.cpus[0].held == None {
      StillWaiting(k, s', x, y);
    }
  }

  lemma CallIsAsk(k: Config, s: Sys)
    requires Enabled(k, s, Go(0)) && |s.cpus| == 1
    ensures CallOf(k, s, Go(0)) == Some(SchedRuns.GetOp) && !s.cpus[0].pc.Refetch? ==> s.cpus[0].held == None
  {
  }

  /** The CPU's steps until y is finished. */
  lemma {:induction false} SoloRun(k: Config, s: Sys, x: Pcb, y: Pcb) returns (more: seq<Step>)
    requires Pair(k, x, y) && Solo(k, s, x, y) && Left(s, y) >= 0
    ensures CanRun(k, s, more) && y in RunAll(k, s, more).finished && StateOk(s.sched) && SchedRuns.OpsOk(Calls(k, s, more))
    ensures x !in SchedRuns.Dispatches(s.sched, Calls(k, s, more))
    decreases Left(s, y)
  {
    hide ConfigOk, Inv, Do, Enabled, CallOf, Get, IsWaiting, CanRun, RunAll, Calls, SchedRuns.Dispatches, Left, StateOk, SchedRuns.OpsOk;
    SoloStep(k, s, x, y);
    var s' := Do(k, s, Go(0));
    var rest;
    if y in s'.finished {
      InvState(k, s');
      NoSteps(k, s');
      rest := [];
    } else {
      rest := SoloRun(k, s', x, y);
    }
    more := [Go(0)] + rest;
    ConsRun(k, s, Go(0), rest);
    assert more[0] == Go(0) && more[1..] == rest;
    FirstCall(k, s, more, x);
  }

  /** Loading touches one queue and nothing else. */
  lemma LoadMeans(k: Config, s: Sys)
    requires Enabled(k, s, Load)
    ensures var s' := Do(k, s, Load); var z := k.procs[s.loaded];
      && s' == s.(sched := s'.sched, loaded := s.loaded + 1) && s'.sched.running == s.sched.running
      && StateOk(s'.sched) && z.prio < MAX_PRIO && s'.sched.queues[z.prio] == Enqueued(s.sched.queues[z.prio], z)
      && CallOf(k, s, Load) == Some(SchedRuns.AddOp(z))
  {
  }

  lemma LoadKeeps(k: Config, s: Sys, y: Pcb)
    requires k.timeSlot >= 1 && ConfigOk(k) && Inv(k, s) && s.loaded < |k.procs| && Account(k, s, y, 0)
    ensures Enabled(k, s, Load) && Inv(k, Do(k, s, Load)) && Account(k, Do(k, s, Load), y, 0)
  {
    hide Account, Inv, ConfigOk;
    NeverStuck(k, s, Load);
    hide Do, Enabled, CallOf;
    LoadMeans(k, s);
    StepKeeps(k, s, Load);
    StepAccount(k, s, Load, y, 0);
  }

  lemma PairQueue(q: seq<Pcb>, x: Pcb, y: Pcb)
    requires q == Enqueued(Enqueued([], x), y)
    ensures x in q && y in q
  {
    assert q[0] == x && q[1] == y;
  }

  lemma Started(k: Config, x: Pcb, y: Pcb, p: nat)
    requires Pair(k, x, y) && p < MAX_PRIO
    ensures var s := Init(k, 1);
      && s.cpus == [IDLE] && s.loaded == 0 && y in s.pcs && s.pcs[y] == 0 && s.finished == []
      && s.sched.running == [] && |s.sched.queues| == MAX_PRIO && s.sched.queues[p] == []
  {
  }

  /** Both are loaded before the CPU moves. */
  lemma BothLoaded(k: Config, x: Pcb, y: Pcb) returns (s: Sys)
    requires Pair(k, x, y)
    ensures var steps := [Load] + ([Load] + []);
      CanRun(k, Init(k, 1), steps) && s == RunAll(k, Init(k, 1), steps)
    ensures Solo(k, s, x, y) && s.sched.running == [] && Account(k, s, y, 0) && Left(s, y) >= 0
  {
    hide CanRun, RunAll, Account, Inv, Init, Do, Enabled, Enqueued, CallOf, ConfigOk, StateOk;
    var s0 := Init(k, 1);
    assert x.prio < MAX_PRIO by { PairLevels(k, x, y); }
    Started(k, x, y, x.prio);
    InitInv(k, 1);
    InitAccount(k, 1, y);
    LoadKeeps(k, s0, y);
    LoadMeans(k, s0);
    var s1 := Do(k, s0, Load);
    LoadKeeps(k, s1, y);
    LoadMeans(k, s1);
    s := Do(k, s1, Load);
    Nothing(k, s);
    ConsRun(k, s1, Load, []);
    ConsRun(k, s0, Load, [Load] + []);
    PairQueue(s.sched.queues[x.prio], x, y);
    LevelCount(s);
  }

  lemma PairLevels(k: Config, x: Pcb, y: Pcb)
    requires Pair(k, x, y)
    ensures x.prio < MAX_PRIO
  {
    assert k.procs[0] == x;
  }

  lemma LevelCount(s: Sys)
    requires StateOk(s.sched)
    ensures |s.sched.queues| == MAX_PRIO
  {
  }

  lemma OneOther(k: Config, x: Pcb, y: Pcb)
    requires Pair(k, x, y)
    ensures TotalTurns(Purged(k.procs, x), k.timeSlot) == TurnsOf(y.codeSize, k.timeSlot)
  {
    hide TurnsOf;
    assert Purged(k.procs, x) == [y];
    assert [y][1..] == [];
  }

  lemma {:induction false} AllTheSame(got: seq<Pcb>, y: Pcb)
    requires forall z :: z in got ==> z == y
    ensures multiset(got)[y] == |got|
  {
    if got != [] {
      assert got[0] in got && forall z :: z in got[1..] ==> z in got;
      AllTheSame(got[1..], y);
      assert got == [got[0]] + got[1..];
    }
  }

  /**
   The bound that NobodyStarves gives cannot be improved: x, loaded first and waiting, sees the
   scheduler called exactly that often before its own turn comes.
   */
  lemma {:induction false} BoundReached(k: Config, x: Pcb, y: Pcb) returns (steps: seq<Step>, more: seq<Step>)
    requires Pair(k, x, y)
    ensures CanRun(k, Init(k, 1), steps) && IsWaiting(RunAll(k, Init(k, 1), steps), x)
    ensures var s := RunAll(k, Init(k, 1), steps);
      && CanRun(k, s, more) && StateOk(s.sched) && SchedRuns.OpsOk(Calls(k, s, more))
      && x !in SchedRuns.Dispatches(s.sched, Calls(k, s, more))
      && SchedRuns.Gets(Calls(k, s, more)) == TotalTurns(Purged(k.procs, x), k.timeSlot)
  {
    hide ConfigOk, Inv, CanRun, RunAll, Calls, SchedRuns.Dispatches, SchedRuns.Gets, StateOk, SchedRuns.OpsOk;
    hide Init, IsWaiting, Account, TurnsOf, Left, Times, TotalTurns, Purged, PutBacks;
    var s := BothLoaded(k, x, y);
    steps := [Load] + ([Load] + []);
    more := SoloRun(k, s, x, y);
    WaitRun(k, s, more, x);
    var got := SchedRuns.Dispatches(s.sched, Calls(k, s, more));
    AllTheSame(got, y);
    var t := RunAll(k, s, more);
    RunKeeps(k, s, more);
    RunAccount(k, s, more, y, 0);
    var n := PutBacks(k, s, more, y);
    AccountBound(k, t, y, n);
    SlicesFit(n, y.codeSize, k.timeSlot);
    RunRunning(k, s, more, y);
    PutBacksMean(k, s, more, y);
    RunningOnce(k, t, y);
    OneOther(k, x, y);
  }
}
