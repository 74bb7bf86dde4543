/** What holds of every interleaving of the CPUs and the loader. */
module CpuRuns {
  import opened Queue
  import opened Sched
  import opened Cpus
  import opened Wrappers
  import Fairness
  import Krnl
  import Starvation

  predicate CanRun(k: Config, s: Sys, steps: seq<Step>)
    decreases |steps|
  {
    steps != [] ==> Enabled(k, s, steps[0]) && CanRun(k, Do(k, s, steps[0]), steps[1..])
  }

  function RunAll(k: Config, s: Sys, steps: seq<Step>): Sys
    requires CanRun(k, s, steps)
    decreases |steps|
  {
    if steps == [] then s else RunAll(k, Do(k, s, steps[0]), steps[1..])
  }

  lemma {:induction false} RunKeeps(k: Config, s: Sys, steps: seq<Step>)
    requires k.timeSlot >= 1 && ConfigOk(k) && Inv(k, s) && CanRun(k, s, steps)
    ensures Inv(k, RunAll(k, s, steps))
    decreases |steps|
  {
    hide Inv, ConfigOk, Do, Enabled;
    if steps != [] {
      StepKeeps(k, s, steps[0]);
      RunKeeps(k, Do(k, s, steps[0]), steps[1..]);
    }
  }

  /** The invariant holds of whatever an interleaving reaches from the start. */
  lemma {:induction false} ReachableInv(k: Config, numCpus: nat, steps: seq<Step>)
    requires k.timeSlot >= 1 && ConfigOk(k) && CanRun(k, Init(k, numCpus), steps)
    ensures Inv(k, RunAll(k, Init(k, numCpus), steps))
  {
    hide Inv, ConfigOk, CanRun, RunAll;
    InitInv(k, numCpus);
    RunKeeps(k, Init(k, numCpus), steps);
  }

  /** No CPU that still runs and no pending load is ever blocked. */
  lemma NeverStuck(k: Config, s: Sys, step: Step)
    requires ConfigOk(k) && Inv(k, s)
    ensures match step
      case Go(c) => Enabled(k, s, step) <==> c < |s.cpus| && s.cpus[c].pc != Exited
      case Load => Enabled(k, s, step) <==> s.loaded < |k.procs|
      case LoaderDone => Enabled(k, s, step) <==> s.loaded == |k.procs|
  {
    hide SliceOk;
    if step.Go? && step.c < |s.cpus| && s.cpus[step.c].held.Some? {
      HeldFacts(k, s, step.c);
    }
  }

  // ----- Every loaded process is in exactly one place -----

  datatype Place = Waiting(level: nat, pos: nat) | Held(c: nat) | Finished(pos: nat)

  predicate At(s: Sys, x: Pcb, place: Place) {
    match place
    case Waiting(p, i) => p < |s.sched.queues| && i < |s.sched.queues[p]| && s.sched.queues[p][i] == x
    case Held(c) => c < |s.cpus| && s.cpus[c].held == Some(x)
    case Finished(i) => i < |s.finished| && s.finished[i] == x
  }

  function Total(s: Sys): multiset<Pcb> {
    QueueBag(s.sched.queues) + HeldBag(s.cpus) + multiset(s.finished)
  }

  lemma {:induction false} InSomeQueue(queues: seq<seq<Pcb>>, x: Pcb) returns (p: nat, i: nat)
    requires x in QueueBag(queues)
    ensures p < |queues| && i < |queues[p]| && queues[p][i] == x
  {
    if x in queues[0] {
      p := 0;
      i :| 0 <= i < |queues[0]| && queues[0][i] == x;
    } else {
      p, i := InSomeQueue(queues[1..], x);
      p := p + 1;
    }
  }

  lemma {:induction false} InSomeCpu(cpus: seq<Cpu>, x: Pcb) returns (c: nat)
    requires x in HeldBag(cpus)
    ensures c < |cpus| && cpus[c].held == Some(x)
  {
    if cpus[0].held == Some(x) {
      c := 0;
    } else {
      c := InSomeCpu(cpus[1..], x);
      c := c + 1;
    }
  }

  lemma SomePlace(s: Sys, x: Pcb) returns (place: Place)
    requires x in Total(s)
    ensures At(s, x, place)
  {
    hide QueueBag, HeldBag;
    if x in QueueBag(s.sched.queues) {
      var p, i := InSomeQueue(s.sched.queues, x);
      place := Waiting(p, i);
    } else if x in HeldBag(s.cpus) {
      var c := InSomeCpu(s.cpus, x);
      place := Held(c);
    } else {
      var i :| 0 <= i < |s.finished| && s.finished[i] == x;
      place := Finished(i);
    }
  }

  lemma TwiceInSeq(q: seq<Pcb>, i: nat, j: nat)
    requires i < |q| && j < |q| && i != j && q[i] == q[j]
    ensures multiset(q)[q[i]] >= 2
  {
    var (i, j) := if i < j then (i, j) else (j, i);
    assert q == q[..j] + q[j..];
    assert q[..j][i] == q[i] && q[j..][0] == q[i];
    assert q[i] in multiset(q[..j]) && q[i] in multiset(q[j..]);
  }

  /** A process in two different places would be counted twice. */
  lemma PlacesCount(s: Sys, x: Pcb, a: Place, b: Place)
    requires At(s, x, a) && At(s, x, b) && a != b && OwnLevels(s.sched.queues)
    ensures Total(s)[x] >= 2
  {
    hide QueueBag, HeldBag;
    PlaceCounts(s, x, a);
    PlaceCounts(s, x, b);
    if a.Waiting? && b.Waiting? {
      var q := s.sched.queues[a.level];
      PlaceLevel(s, x, a);
      PlaceLevel(s, x, b);
      TwiceInSeq(q, a.pos, b.pos);
      InQueueBag(s.sched.queues, a.level);
      assert multiset(q)[x] <= QueueBag(s.sched.queues)[x];
    } else if a.Held? && b.Held? {
      TwiceHeld(s.cpus, if a.c < b.c then a.c else b.c, if a.c < b.c then b.c else a.c, x);
    } else if a.Finished? && b.Finished? {
      TwiceInSeq(s.finished, a.pos, b.pos);
    }
  }

  lemma PlaceCounts(s: Sys, x: Pcb, a: Place)
    requires At(s, x, a)
    ensures a.Waiting? ==> QueueBag(s.sched.queues)[x] >= 1
    ensures a.Held? ==> HeldBag(s.cpus)[x] >= 1
    ensures a.Finished? ==> multiset(s.finished)[x] >= 1
  {
    hide QueueBag, HeldBag;
    match a
    case Waiting(p, i) =>
      InQueueBag(s.sched.queues, p);
      assert x in multiset(s.sched.queues[p]) && multiset(s.sched.queues[p])[x] <= QueueBag(s.sched.queues)[x];
    case Held(c) =>
      InHeldBag(s.cpus, c);
      assert x in HeldOne(s.cpus[c]);
    case Finished(i) =>
      assert x in s.finished;
  }

  /**
   Conservation of processes: a loaded process is in exactly one place, and if it waits, it waits
   at its own level; a process not yet loaded is nowhere.
   */
  lemma {:induction false} ExactlyOnePlace(k: Config, s: Sys, i: nat) returns (place: Option<Place>)
    requires ConfigOk(k) && Owned(k, s) && i < |k.procs|
    ensures place.Some? <==> i < s.loaded
    ensures forall other :: At(s, k.procs[i], other) <==> place == Some(other)
    ensures place.Some? && place.value.Waiting? ==> place.value.level == k.procs[i].prio
  {
    hide QueueBag, HeldBag, At;
    var x := k.procs[i];
    var here := k.procs[..s.loaded];
    OnceEach(here, x);
    assert Total(s) == multiset(here);
    if i < s.loaded {
      assert here[i] == x && x in multiset(here);
      var found := SomePlace(s, x);
      place := Some(found);
      forall other | At(s, x, other) && other != found
        ensures false
      {
        PlacesCount(s, x, found, other);
      }
      PlaceLevel(s, x, found);
    } else {
      place := None;
      assert x !in here by { assert forall j :: 0 <= j < |here| ==> here[j] == k.procs[j]; }
      assert Total(s)[x] == 0;
      forall other | At(s, x, other)
        ensures false
      {
        PlaceCounts(s, x, other);
      }
    }
  }

  lemma PlaceLevel(s: Sys, x: Pcb, place: Place)
    requires At(s, x, place) && OwnLevels(s.sched.queues)
    ensures place.Waiting? ==> place.level == x.prio
  {
    if place.Waiting? {
      assert x in s.sched.queues[place.level];
    }
  }

  // ----- The running list -----

  /** The running list: exactly the held and the finished processes, none twice, never above its capacity. */
  lemma {:induction false} RunningListExact(k: Config, s: Sys, x: Pcb)
    requires ConfigOk(k) && Owned(k, s)
    ensures x in s.sched.running <==> x in s.finished || exists c :: 0 <= c < |s.cpus| && s.cpus[c].held == Some(x)
    ensures forall i, j :: 0 <= i < j < |s.sched.running| ==> s.sched.running[i] != s.sched.running[j]
    ensures |s.sched.running| <= s.loaded <= MAX_QUEUE_SIZE
  {
    hide QueueBag, HeldBag, OwnLevels;
    Room(k, s, 0);
    var running := s.sched.running;
    var here := k.procs[..s.loaded];
    assert x in running <==> x in multiset(running);
    if x in HeldBag(s.cpus) {
      var c := InSomeCpu(s.cpus, x);
    }
    if c :| 0 <= c < |s.cpus| && s.cpus[c].held == Some(x) {
      PlaceCounts(s, x, Held(c));
    }
    forall i, j | 0 <= i < j < |running|
      ensures running[i] != running[j]
    {
      OnceEach(here, running[i]);
      assert multiset(running)[running[i]] <= multiset(here)[running[i]];
      if running[i] == running[j] {
        TwiceInSeq(running, i, j);
      }
    }
  }

  /**
   The caller search of the memory system call never fails for a dispatched process, and the
   entry it finds is that process.
   */
  lemma {:induction false} CallerFound(k: Config, s: Sys, c: nat)
    requires ConfigOk(k) && Owned(k, s) && c < |s.cpus| && s.cpus[c].held.Some?
    ensures Krnl.Running(s.sched.running, s.cpus[c].held.value.pid)
    ensures forall x :: x in s.sched.running && x.pid == s.cpus[c].held.value.pid ==> x == s.cpus[c].held.value
  {
    hide QueueBag, HeldBag, OwnLevels;
    var me := s.cpus[c].held.value;
    HeldFacts(k, s, c);
    var i :| 0 <= i < |s.sched.running| && s.sched.running[i] == me;
    forall x | x in s.sched.running && x.pid == me.pid
      ensures x == me
    {
      assert x in multiset(s.sched.running);
      assert x in multiset(k.procs[..s.loaded]);
    }
  }

  /** A held process is one of those loaded so far. */
  lemma HeldLoaded(k: Config, s: Sys, c: nat)
    requires Owned(k, s) && c < |s.cpus| && s.cpus[c].held.Some?
    ensures exists i :: 0 <= i < s.loaded && k.procs[i] == s.cpus[c].held.value
  {
    hide QueueBag, HeldBag, OwnLevels;
    var x := s.cpus[c].held.value;
    var here := k.procs[..s.loaded];
    InHeldBag(s.cpus, c);
    assert x in HeldBag(s.cpus) && x in multiset(here);
    var i :| 0 <= i < |here| && here[i] == x;
    assert k.procs[i] == x;
  }

  // ----- Room -----

  /**
   Whatever the CPUs hold and the loader still has to load finds room in every queue, so no put-back
   and no admission is ever dropped.
   */
  lemma {:induction false} IsArena(k: Config, s: Sys)
    requires ConfigOk(k) && Owned(k, s)
    ensures Starvation.ArenaOk(Starvation.Arena(s.sched, HeldBag(s.cpus), multiset(k.procs[s.loaded..])))
  {
    hide QueueBag, HeldBag, OwnLevels;
    var here, coming := k.procs[..s.loaded], k.procs[s.loaded..];
    assert here + coming == k.procs;
    forall p | 0 <= p < MAX_PRIO
      ensures |s.sched.queues[p]| + |HeldBag(s.cpus)| + |multiset(coming)| <= MAX_QUEUE_SIZE
    {
      Room(k, s, p);
      assert |multiset(s.sched.running)| == |HeldBag(s.cpus)| + |multiset(s.finished)|;
    }
    forall y: Pcb | y in HeldBag(s.cpus)
      ensures y.prio < MAX_PRIO
    {
      assert y in multiset(here);
      assert y in k.procs;
    }
    forall y: Pcb | y in multiset(coming)
      ensures y.prio < MAX_PRIO
    {
      assert y in k.procs;
    }
  }

  // ----- Progress and slices -----

  /**
   In every reachable state each process has executed its first pc instructions, once each and in
   order, whichever CPUs it ran on; a finished one has executed its whole program.
   */
  lemma {:induction false} ExecutedInOrder(k: Config, numCpus: nat, steps: seq<Step>, p: Pcb)
    requires k.timeSlot >= 1 && ConfigOk(k) && CanRun(k, Init(k, numCpus), steps) && p in k.procs
    ensures var s := RunAll(k, Init(k, numCpus), steps);
      && p in s.pcs && p in s.trace && |s.trace[p]| == s.pcs[p] <= p.codeSize
      && (forall i :: 0 <= i < |s.trace[p]| ==> s.trace[p][i] == i)
      && (p in s.finished ==> |s.trace[p]| == p.codeSize)
  {
    hide ConfigOk, CanRun, RunAll, Owned, SliceOk, Init;
    ReachableInv(k, numCpus, steps);
  }

  /**
   Only ownership gives that: two CPUs that came to hold the same process could read its counter one
   after the other, and the same instruction would be executed twice.
   */
  lemma {:induction false} SharedRepeats(k: Config, s: Sys, c: nat, d: nat, p: Pcb)
    requires Enabled(k, s, Go(c)) && Enabled(k, s, Go(d)) && c != d
    requires s.cpus[c].pc == s.cpus[d].pc == Running && s.cpus[c].held == s.cpus[d].held == Some(p) && s.pcs[p] < p.codeSize
    ensures var steps := [Go(c)] + ([Go(d)] + ([Go(c)] + ([Go(d)] + [])));
      CanRun(k, s, steps) && p in RunAll(k, s, steps).trace && RunAll(k, s, steps).trace[p] == s.trace[p] + [s.pcs[p], s.pcs[p]]
  {
    hide CanRun, RunAll, StateOk;
    var s1 := Do(k, s, Go(c));
    var s2 := Do(k, s1, Go(d));
    var s3 := Do(k, s2, Go(c));
    var s4 := Do(k, s3, Go(d));
    Nothing(k, s4);
    ConsRun(k, s3, Go(d), []);
    ConsRun(k, s2, Go(c), [Go(d)] + []);
    ConsRun(k, s1, Go(d), [Go(c)] + ([Go(d)] + []));
    ConsRun(k, s, Go(c), [Go(d)] + ([Go(c)] + ([Go(d)] + [])));
  }

  /**
   In every reachable state a dispatch is followed by at most time_slot instructions, a process
   that is put back has had exactly that many, and a CPU without a process has no time left.
   */
  lemma {:induction false} SliceBound(k: Config, numCpus: nat, steps: seq<Step>, c: nat)
    requires k.timeSlot >= 1 && ConfigOk(k) && CanRun(k, Init(k, numCpus), steps)
    requires c < |RunAll(k, Init(k, numCpus), steps).cpus|
    ensures var cpu := RunAll(k, Init(k, numCpus), steps).cpus[c];
      && 0 <= cpu.timeLeft <= k.timeSlot
      && (cpu.pc.Running? || cpu.pc.Fetched? || (cpu.pc.InSlot? && cpu.held.Some?) || (cpu.pc.Top? && cpu.held.Some?)
          ==> cpu.ran + cpu.timeLeft == k.timeSlot)
      && (cpu.pc.Running? || cpu.pc.Fetched? ==> cpu.held.Some? && cpu.ran < k.timeSlot)
      && (cpu.pc.Top? && cpu.held == None ==> cpu.timeLeft == 0)
  {
    hide ConfigOk, CanRun, RunAll, Owned, TraceOk, Init;
    ReachableInv(k, numCpus, steps);
    assert SliceOk(k.timeSlot, RunAll(k, Init(k, numCpus), steps).cpus[c]);
  }

  /** The budget of a CPU is never overdrawn, whatever the interleaving. */
  ghost predicate NeverOverdrawn(k: Config) {
    forall numCpus: nat, steps, c ::
      CanRun(k, Init(k, numCpus), steps) && 0 <= c < |RunAll(k, Init(k, numCpus), steps).cpus|
      ==> RunAll(k, Init(k, numCpus), steps).cpus[c].timeLeft >= 0
  }

  lemma FirstDispatch(x: Pcb)
    requires x.prio < MAX_PRIO
    ensures Get(Add(START, x)).0 == Some(x)
  {
    hide Search;
    var s := Add(START, x);
    Fairness.NothingIffAllEmpty(s);
    assert s.queues[x.prio] == [x];
  }

  lemma ConsRun(k: Config, s: Sys, step: Step, steps: seq<Step>)
    requires Enabled(k, s, step) && CanRun(k, Do(k, s, step), steps)
    ensures CanRun(k, s, [step] + steps) && RunAll(k, s, [step] + steps) == RunAll(k, Do(k, s, step), steps)
  {
    hide Enabled, Do;
    assert ([step] + steps)[1..] == steps;
  }

  /** Load, fetch, dispatch: CPU 0 enters run with a whole time slot. */
  lemma EntersRun(k: Config) returns (s: Sys)
    requires ConfigOk(k) && k.procs != []
    ensures s.cpus == [Cpu(Running, Some(k.procs[0]), k.timeSlot, 0)] && k.procs[0] in s.pcs && k.procs[0] in s.trace
    ensures s.pcs[k.procs[0]] == 0 && StateOk(s.sched)
    ensures forall rest :: CanRun(k, s, rest) ==>
      var steps := [Load, Go(0), Go(0)] + rest;
      CanRun(k, Init(k, 1), steps) && RunAll(k, Init(k, 1), steps) == RunAll(k, s, rest)
  {
    hide Get, Add, CanRun, RunAll;
    FirstDispatch(k.procs[0]);
    var s0 := Init(k, 1);
    var s1 := Do(k, s0, Load);
    var s2 := Do(k, s1, Go(0));
    s := Do(k, s2, Go(0));
    forall rest | CanRun(k, s, rest)
      ensures CanRun(k, s0, [Load, Go(0), Go(0)] + rest) && RunAll(k, s0, [Load, Go(0), Go(0)] + rest) == RunAll(k, s, rest)
    {
      ConsRun(k, s2, Go(0), rest);
      ConsRun(k, s1, Go(0), [Go(0)] + rest);
      ConsRun(k, s0, Load, [Go(0)] + ([Go(0)] + rest));
      assert [Load] + ([Go(0)] + ([Go(0)] + rest)) == [Load, Go(0), Go(0)] + rest;
    }
  }

  /** One run from there: one step, or two if the program has an instruction. */
  lemma FirstRun(k: Config, s: Sys, p: Pcb) returns (rest: seq<Step>)
    requires s.cpus == [Cpu(Running, Some(p), k.timeSlot, 0)] && p in s.pcs && p in s.trace && p.prio < MAX_PRIO && StateOk(s.sched)
    ensures CanRun(k, s, rest) && |RunAll(k, s, rest).cpus| == 1 && RunAll(k, s, rest).cpus[0].timeLeft == k.timeSlot - 1
  {
    hide StateOk, CanRun, RunAll;
    var t := Do(k, s, Go(0));
    assert t.cpus[0].held == Some(p);
    if t.cpus[0].pc.Fetched? {
      var u := Do(k, t, Go(0));
      Nothing(k, u);
      ConsRun(k, t, Go(0), []);
      ConsRun(k, s, Go(0), [Go(0)] + []);
      rest := [Go(0)] + ([Go(0)] + []);
    } else {
      Nothing(k, t);
      ConsRun(k, s, Go(0), []);
      rest := [Go(0)] + [];
    }
  }

  lemma Nothing(k: Config, s: Sys)
    ensures CanRun(k, s, []) && RunAll(k, s, []) == s
  {
  }

  /** With no positive time slot the first run takes the budget below zero. */
  lemma Overdraw(k: Config)
    requires k.timeSlot < 1 && ConfigOk(k) && k.procs != []
    ensures !NeverOverdrawn(k)
  {
    hide Init, CanRun, RunAll, StateOk;
    var s := EntersRun(k);
    var rest := FirstRun(k, s, k.procs[0]);
    var steps := [Load, Go(0), Go(0)] + rest;
    assert RunAll(k, Init(k, 1), steps).cpus[0].timeLeft < 0;
  }

  /** The time slot must be positive: exactly then no CPU ever overdraws its budget. */
  lemma {:induction false} SliceIff(k: Config)
    requires ConfigOk(k) && k.procs != []
    ensures NeverOverdrawn(k) <==> k.timeSlot >= 1
  {
    if k.timeSlot < 1 {
      Overdraw(k);
    } else {
      hide ConfigOk, CanRun, RunAll, Init;
      forall numCpus: nat, steps, c | CanRun(k, Init(k, numCpus), steps) && 0 <= c < |RunAll(k, Init(k, numCpus), steps).cpus|
        ensures RunAll(k, Init(k, numCpus), steps).cpus[c].timeLeft >= 0
      {
        SliceBound(k, numCpus, steps, c);
      }
    }
  }
}
