/**
 The dispatch loops of src/os.c: any number of CPUs and the loader interleaving on the scheduler.
 Every call of get_proc, put_proc and add_proc is one step, because each runs under the queue lock.
 */
module Cpus {
  import opened Queue
  import opened Sched
  import opened Wrappers

  // ----- One CPU -----

  /** Where cpu_routine is. */
  datatype CpuPc =
    | Top                    // the head of the loop
    | Refetch(reset: bool)   // a process finished (reset) or was put back; get_proc comes next
    | Recheck
    | Running                // inside run: the program counter is looked at next
    | Fetched(at: nat)       // inside run: the instruction at this number has been read, the counter not yet advanced
    | InSlot                 // inside next_slot
    | Exited

  /** proc, time_left, and how many instructions have been run since the last dispatch. */
  datatype Cpu = Cpu(pc: CpuPc, held: Option<Pcb>, timeLeft: int, ran: nat)

  const IDLE := Cpu(Top, None, 0, 0)

  // ----- The system -----

  /** What is fixed before the start: the time slot and the processes, in loading order. */
  datatype Config = Config(timeSlot: int, procs: seq<Pcb>)

  predicate ConfigOk(k: Config) {
    && |k.procs| <= MAX_QUEUE_SIZE
    && (forall i :: 0 <= i < |k.procs| ==> k.procs[i].prio < MAX_PRIO)
    && (forall i, j :: 0 <= i < j < |k.procs| ==> k.procs[i] != k.procs[j] && k.procs[i].pid != k.procs[j].pid)
  }

  /** `pcs` holds the program counters; `trace` the instructions each process has executed. */
  datatype Sys = Sys(sched: State, cpus: seq<Cpu>, loaded: nat, done: bool, finished: seq<Pcb>,
                     pcs: map<Pcb, nat>, trace: map<Pcb, seq<nat>>)

  function Init(k: Config, numCpus: nat): Sys {
    Sys(START, seq(numCpus, _ => IDLE), 0, false, [],
        map p | p in k.procs :: 0, map p | p in k.procs :: [])
  }

  datatype Step = Go(c: nat) | Load | LoaderDone

  predicate Enabled(k: Config, s: Sys, step: Step) {
    match step
    case Go(c) =>
      && c < |s.cpus| && s.cpus[c].pc != Exited && StateOk(s.sched)
      && (s.cpus[c].held.Some? ==> s.cpus[c].held.value in s.pcs && s.cpus[c].held.value in s.trace
                                   && s.cpus[c].held.value.prio < MAX_PRIO)
    case Load => s.loaded < |k.procs| && StateOk(s.sched) && k.procs[s.loaded].prio < MAX_PRIO
    case LoaderDone => s.loaded == |k.procs|
  }

  /** get_proc: the process goes to CPU c, which moves on to `next`, or to `empty` without one. */
  function Fetch(s: Sys, c: nat, cpu: Cpu, next: CpuPc, empty: CpuPc): Sys
    requires c < |s.cpus| && StateOk(s.sched)
  {
    var (proc, sched) := Get(s.sched);
    s.(sched := sched, cpus := s.cpus[c := cpu.(held := proc, pc := if proc.Some? then next else empty)])
  }

  /** The second half of run: the counter is stored back one further, and the instruction takes effect. */
  function Advance(s: Sys, p: Pcb, at: nat): Sys
    requires p in s.pcs && p in s.trace
  {
    s.(pcs := s.pcs[p := at + 1], trace := s.trace[p := s.trace[p] + [at]])
  }

  /** Back from run: time_left goes down and next_slot comes next. */
  function Ran(cpu: Cpu): Cpu {
    cpu.(pc := InSlot, timeLeft := cpu.timeLeft - 1, ran := cpu.ran + 1)
  }

  function GoCpu(k: Config, s: Sys, c: nat): Sys
    requires Enabled(k, s, Go(c))
  {
    var cpu := s.cpus[c];
    match cpu.pc
    case Top =>
      (match cpu.held
       case None => Fetch(s, c, cpu, Recheck, InSlot)
       case Some(p) =>
         if s.pcs[p] == p.codeSize then
           s.(finished := s.finished + [p], cpus := s.cpus[c := cpu.(held := None, pc := Refetch(true))])
         else if cpu.timeLeft == 0 then
           s.(sched := Put(s.sched, p), cpus := s.cpus[c := cpu.(held := None, pc := Refetch(false))])
         else
           s.(cpus := s.cpus[c := cpu.(pc := Recheck)]))
    case Refetch(reset) =>
      Fetch(s, c, if reset then cpu.(timeLeft := 0) else cpu, Recheck, Recheck)
    case Recheck =>
      if cpu.held.None? then
        s.(cpus := s.cpus[c := cpu.(pc := if s.done then Exited else InSlot)])
      else if cpu.timeLeft == 0 then
        s.(cpus := s.cpus[c := cpu.(pc := Running, timeLeft := k.timeSlot, ran := 0)])
      else
        s.(cpus := s.cpus[c := cpu.(pc := Running)])
    case Running =>
      if cpu.held.None? then s
      else if s.pcs[cpu.held.value] >= cpu.held.value.codeSize then s.(cpus := s.cpus[c := Ran(cpu)])
      else s.(cpus := s.cpus[c := cpu.(pc := Fetched(s.pcs[cpu.held.value]))])
    case Fetched(at) =>
      if cpu.held.None? then s
      else
        var s' := Advance(s, cpu.held.value, at);
        s'.(cpus := s'.cpus[c := Ran(cpu)])
    case InSlot => s.(cpus := s.cpus[c := cpu.(pc := Top)])
    case Exited => s
  }

  function Do(k: Config, s: Sys, step: Step): Sys
    requires Enabled(k, s, step)
  {
    match step
    case Go(c) => GoCpu(k, s, c)
    case Load => s.(sched := Add(s.sched, k.procs[s.loaded]), loaded := s.loaded + 1)
    case LoaderDone => s.(done := true)
  }

  // ----- Where every process is -----

  /** Everything that waits in some queue. */
  function QueueBag(queues: seq<seq<Pcb>>): multiset<Pcb> {
    if queues == [] then multiset{} else multiset(queues[0]) + QueueBag(queues[1..])
  }

  function HeldOne(cpu: Cpu): multiset<Pcb> {
    if cpu.held.Some? then multiset{cpu.held.value} else multiset{}
  }

  /** Everything that some CPU holds. */
  function HeldBag(cpus: seq<Cpu>): multiset<Pcb> {
    if cpus == [] then multiset{} else HeldOne(cpus[0]) + HeldBag(cpus[1..])
  }

  /**
   Conservation: the loaded processes are those waiting, held and finished, each once; the
   running list is the held and the finished ones; and every process waits at its own level.
   */
  ghost predicate Owned(k: Config, s: Sys) {
    && StateOk(s.sched) && s.loaded <= |k.procs|
    && QueueBag(s.sched.queues) + HeldBag(s.cpus) + multiset(s.finished) == multiset(k.procs[..s.loaded])
    && multiset(s.sched.running) == HeldBag(s.cpus) + multiset(s.finished)
    && OwnLevels(s.sched.queues)
  }

  lemma SameAdded<T>(a: multiset<T>, x: multiset<T>, y: multiset<T>, u: multiset<T>, v: multiset<T>)
    requires x + u == y + v
    ensures (a + x) + u == (a + y) + v
  {
    assert (a + x) + u == a + (x + u);
    assert (a + y) + v == a + (y + v);
  }

  lemma {:induction false} QueueBagUpdate(queues: seq<seq<Pcb>>, p: nat, q: seq<Pcb>)
    requires p < |queues|
    ensures QueueBag(queues[p := q]) + multiset(queues[p]) == QueueBag(queues) + multiset(q)
    decreases |queues|
  {
    if p > 0 {
      QueueBagUpdate(queues[1..], p - 1, q);
      assert queues[p := q][1..] == queues[1..][p - 1 := q];
      SameAdded(multiset(queues[0]), QueueBag(queues[1..][p - 1 := q]), QueueBag(queues[1..]), multiset(queues[p]), multiset(q));
    } else {
      assert queues[p := q][1..] == queues[1..];
    }
  }

  lemma {:induction false} HeldBagUpdate(cpus: seq<Cpu>, c: nat, cpu: Cpu)
    requires c < |cpus|
    ensures HeldBag(cpus[c := cpu]) + HeldOne(cpus[c]) == HeldBag(cpus) + HeldOne(cpu)
    decreases |cpus|
  {
    if c > 0 {
      HeldBagUpdate(cpus[1..], c - 1, cpu);
      assert cpus[c := cpu][1..] == cpus[1..][c - 1 := cpu];
      hide HeldOne;
      SameAdded(HeldOne(cpus[0]), HeldBag(cpus[1..][c - 1 := cpu]), HeldBag(cpus[1..]), HeldOne(cpus[c]), HeldOne(cpu));
    } else {
      assert cpus[c := cpu][1..] == cpus[1..];
    }
  }

  /** A CPU without a process takes one, or not. */
  lemma HeldBagTakes(cpus: seq<Cpu>, c: nat, cpu: Cpu)
    requires c < |cpus| && cpus[c].held == None
    ensures HeldBag(cpus[c := cpu]) == HeldBag(cpus) + HeldOne(cpu)
    ensures cpu.held == None ==> HeldBag(cpus[c := cpu]) == HeldBag(cpus)
  {
    HeldBagUpdate(cpus, c, cpu);
    assert HeldBag(cpus[c := cpu]) + multiset{} == HeldBag(cpus[c := cpu]);
    assert HeldBag(cpus) + multiset{} == HeldBag(cpus);
  }

  /** A CPU gives its process away. */
  lemma HeldBagGives(cpus: seq<Cpu>, c: nat, cpu: Cpu)
    requires c < |cpus| && cpus[c].held.Some? && cpu.held == None
    ensures HeldBag(cpus[c := cpu]) + multiset{cpus[c].held.value} == HeldBag(cpus)
  {
    HeldBagUpdate(cpus, c, cpu);
    assert HeldBag(cpus) + multiset{} == HeldBag(cpus);
  }

  lemma HeldBagKeeps(cpus: seq<Cpu>, c: nat, cpu: Cpu)
    requires c < |cpus| && cpu.held == cpus[c].held
    ensures HeldBag(cpus[c := cpu]) == HeldBag(cpus)
  {
    if cpu.held == None {
      HeldBagTakes(cpus, c, cpu);
    } else {
      HeldBagUpdate(cpus, c, cpu);
      CancelBag(HeldBag(cpus[c := cpu]), HeldBag(cpus), HeldOne(cpu));
    }
  }

  lemma CancelBag(a: multiset<Pcb>, b: multiset<Pcb>, u: multiset<Pcb>)
    requires a + u == b + u
    ensures a == b
  {
    assert a == (a + u) - u && b == (b + u) - u;
  }

  lemma {:induction false} InQueueBag(queues: seq<seq<Pcb>>, p: nat)
    requires p < |queues|
    ensures multiset(queues[p]) <= QueueBag(queues)
    decreases |queues|
  {
    if p > 0 { InQueueBag(queues[1..], p - 1); }
  }

  lemma {:induction false} InHeldBag(cpus: seq<Cpu>, c: nat)
    requires c < |cpus|
    ensures HeldOne(cpus[c]) <= HeldBag(cpus)
    decreases |cpus|
  {
    if c > 0 { InHeldBag(cpus[1..], c - 1); }
  }

  lemma WithoutBag(q: seq<Pcb>, i: nat)
    requires i < |q|
    ensures multiset(Without(q, i)) + multiset{q[i]} == multiset(q)
  {
    assert q == q[..i] + [q[i]] + q[i + 1..];
  }

  lemma {:induction false} PurgedBag(q: seq<Pcb>, p: Pcb)
    requires p in q
    ensures multiset(Purged(q, p)) + multiset{p} == multiset(q)
  {
    assert q == [q[0]] + q[1..];
    if q[0] != p { PurgedBag(q[1..], p); }
  }

  lemma {:induction false} EmptyQueues(queues: seq<seq<Pcb>>)
    requires forall p :: 0 <= p < |queues| ==> queues[p] == []
    ensures QueueBag(queues) == multiset{}
  {
    if queues != [] { EmptyQueues(queues[1..]); }
  }

  lemma {:induction false} IdleCpus(cpus: seq<Cpu>)
    requires forall c :: 0 <= c < |cpus| ==> cpus[c].held == None
    ensures HeldBag(cpus) == multiset{}
  {
    if cpus != [] { IdleCpus(cpus[1..]); }
  }

  // ----- Ownership is kept -----

  lemma InitOwned(k: Config, numCpus: nat)
    ensures Owned(k, Init(k, numCpus))
  {
    EmptyQueues(START.queues);
    IdleCpus(Init(k, numCpus).cpus);
  }

  /** Room everywhere: at most 50 processes are in the system. */
  lemma Room(k: Config, s: Sys, p: nat)
    requires ConfigOk(k) && Owned(k, s) && p < MAX_PRIO
    ensures |s.sched.queues[p]| + |s.sched.running| <= s.loaded
  {
    InQueueBag(s.sched.queues, p);
    var all := QueueBag(s.sched.queues) + HeldBag(s.cpus) + multiset(s.finished);
    assert |all| == |multiset(k.procs[..s.loaded])| == s.loaded;
    assert |multiset(s.sched.running)| == |s.sched.running|;
    assert multiset(s.sched.queues[p]) + multiset(s.sched.running) <= all;
    SubBag(multiset(s.sched.queues[p]) + multiset(s.sched.running), all);
  }

  lemma SubBag(a: multiset<Pcb>, b: multiset<Pcb>)
    requires a <= b
    ensures |a| <= |b|
  {
    assert b == a + (b - a);
  }

  /** A process moves from one waiting queue to a holder. */
  lemma FetchBags(all: multiset<Pcb>, all': multiset<Pcb>, q: multiset<Pcb>, q': multiset<Pcb>,
                     held: multiset<Pcb>, held': multiset<Pcb>, x: Pcb, rest: multiset<Pcb>)
    requires all' + q == all + q' && q' + multiset{x} == q && held' == held + multiset{x}
    ensures all' + held' + rest == all + held + rest
  {
    forall y: Pcb
      ensures all'[y] + multiset{x}[y] == all[y]
    {
      assert (all' + q)[y] == (all + q')[y] && (q' + multiset{x})[y] == q[y];
    }
    assert all' + multiset{x} == all;
  }

  lemma FetchOwned(k: Config, s: Sys, c: nat, cpu: Cpu, next: CpuPc, empty: CpuPc)
    requires ConfigOk(k) && Owned(k, s) && c < |s.cpus| && s.cpus[c].held == None && cpu.held == None
    ensures Owned(k, Fetch(s, c, cpu, next, empty))
  {
    hide Search, Best, OwnLevels, QueueBag, HeldBag;
    var (level, cur) := Search(s.sched.cur, Busy(s.sched.queues));
    var s' := Fetch(s, c, cpu, next, empty);
    HeldBagTakes(s.cpus, c, s'.cpus[c]);
    if level.Some? {
      var p := level.value;
      var q := s.sched.queues[p];
      var b := Best(q);
      Room(k, s, p);
      WithoutBag(q, b);
      QueueBagUpdate(s.sched.queues, p, Without(q, b));
      FetchBags(QueueBag(s.sched.queues), QueueBag(s'.sched.queues), multiset(q), multiset(Without(q, b)),
                HeldBag(s.cpus), HeldBag(s'.cpus), q[b], multiset(s.finished));
      assert multiset(s.sched.running + [q[b]]) == multiset(s.sched.running) + multiset{q[b]};
      LevelsKept(s.sched.queues, p, Without(q, b));
    }
  }

  lemma LevelsKept(queues: seq<seq<Pcb>>, p: nat, q: seq<Pcb>)
    requires OwnLevels(queues) && p < |queues|
    requires forall x :: x in q ==> x in queues[p] || x.prio == p
    ensures OwnLevels(queues[p := q])
  {
  }

  /** A put-back: from the holder to the end of its own level, out of the running list. */
  lemma PutOwned(k: Config, s: Sys, c: nat, cpu: Cpu)
    requires ConfigOk(k) && Owned(k, s) && c < |s.cpus| && s.cpus[c].held.Some? && cpu.held == None
    requires s.cpus[c].held.value.prio < MAX_PRIO
    ensures Owned(k, s.(sched := Put(s.sched, s.cpus[c].held.value), cpus := s.cpus[c := cpu]))
  {
    hide OwnLevels, QueueBag, HeldBag;
    var x := s.cpus[c].held.value;
    var q := s.sched.queues[x.prio];
    InHeldBag(s.cpus, c);
    assert x in HeldBag(s.cpus) && x in multiset(s.sched.running);
    Room(k, s, x.prio);
    HeldBagGives(s.cpus, c, cpu);
    PurgedBag(s.sched.running, x);
    QueueBagUpdate(s.sched.queues, x.prio, q + [x]);
    LevelsKept(s.sched.queues, x.prio, q + [x]);
    PutBags(QueueBag(s.sched.queues), QueueBag(s.sched.queues[x.prio := q + [x]]), multiset(q), multiset(q + [x]),
            HeldBag(s.cpus), HeldBag(s.cpus[c := cpu]), x, multiset(s.finished));
    RunningBags(multiset(s.sched.running), multiset(Purged(s.sched.running, x)),
                HeldBag(s.cpus), HeldBag(s.cpus[c := cpu]), x, multiset(s.finished));
  }

  lemma PutBags(all: multiset<Pcb>, all': multiset<Pcb>, q: multiset<Pcb>, q': multiset<Pcb>,
                held: multiset<Pcb>, held': multiset<Pcb>, x: Pcb, rest: multiset<Pcb>)
    requires all' + q == all + q' && q' == q + multiset{x} && held' + multiset{x} == held
    ensures all' + held' + rest == all + held + rest
  {
    CancelBag(all', all + multiset{x}, q);
  }

  lemma RunningBags(run: multiset<Pcb>, run': multiset<Pcb>, held: multiset<Pcb>, held': multiset<Pcb>, x: Pcb, rest: multiset<Pcb>)
    requires run == held + rest && run' + multiset{x} == run && held' + multiset{x} == held
    ensures run' == held' + rest
  {
    CancelBag(run', held' + rest, multiset{x});
  }

  /** A finished process leaves its CPU; nobody takes it out of the running list. */
  lemma FinishOwned(k: Config, s: Sys, c: nat, cpu: Cpu)
    requires Owned(k, s) && c < |s.cpus| && s.cpus[c].held.Some? && cpu.held == None
    ensures Owned(k, s.(finished := s.finished + [s.cpus[c].held.value], cpus := s.cpus[c := cpu]))
  {
    hide OwnLevels, QueueBag, HeldBag;
    HeldBagGives(s.cpus, c, cpu);
    var x := s.cpus[c].held.value;
    assert multiset(s.finished + [x]) == multiset(s.finished) + multiset{x};
  }

  lemma LoadOwned(k: Config, s: Sys)
    requires ConfigOk(k) && Owned(k, s) && s.loaded < |k.procs|
    ensures Owned(k, s.(sched := Add(s.sched, k.procs[s.loaded]), loaded := s.loaded + 1))
  {
    hide OwnLevels, QueueBag, HeldBag;
    var x := k.procs[s.loaded];
    var q := s.sched.queues[x.prio];
    Room(k, s, x.prio);
    QueueBagUpdate(s.sched.queues, x.prio, q + [x]);
    LevelsKept(s.sched.queues, x.prio, q + [x]);
    LoadBags(QueueBag(s.sched.queues), QueueBag(s.sched.queues[x.prio := q + [x]]), multiset(q), multiset(q + [x]), x,
             HeldBag(s.cpus), multiset(s.finished));
    assert k.procs[..s.loaded + 1] == k.procs[..s.loaded] + [x];
    assert multiset(k.procs[..s.loaded] + [x]) == multiset(k.procs[..s.loaded]) + multiset{x};
  }

  lemma LoadBags(all: multiset<Pcb>, all': multiset<Pcb>, q: multiset<Pcb>, q': multiset<Pcb>, x: Pcb,
                 held: multiset<Pcb>, rest: multiset<Pcb>)
    requires all' + q == all + q' && q' == q + multiset{x}
    ensures all' + held + rest == all + held + rest + multiset{x}
  {
    CancelBag(all', all + multiset{x}, q);
  }

  // ----- Progress of every process, and the time slice -----

  /** The first n instruction numbers. */
  function Upto(n: nat): seq<nat> {
    seq(n, i => i)
  }

  /** Each process has executed its instructions 0, 1, .. up to its program counter, each once. */
  ghost predicate TraceOk(k: Config, pcs: map<Pcb, nat>, trace: map<Pcb, seq<nat>>, finished: seq<Pcb>) {
    && pcs.Keys == trace.Keys == (set p | p in k.procs)
    && (forall p :: p in pcs ==> pcs[p] <= p.codeSize && trace[p] == Upto(pcs[p]))
    && (forall p :: p in finished ==> p in pcs && pcs[p] == p.codeSize)
  }

  /** time_left counts the slice down from the dispatch, and an idle CPU has none left. */
  predicate SliceOk(timeSlot: int, cpu: Cpu) {
    && (cpu.pc.Exited? ==> cpu.held == None)
    && 0 <= cpu.timeLeft <= timeSlot
    && (cpu.held == None && !cpu.pc.Refetch? ==> cpu.timeLeft == 0 && !cpu.pc.Running? && !cpu.pc.Fetched?)
    && (cpu.pc.Refetch? ==> cpu.held == None && (cpu.pc.reset || cpu.timeLeft == 0))
    && (cpu.held.Some? && !(cpu.pc.Recheck? && cpu.timeLeft == 0) ==> cpu.ran + cpu.timeLeft == timeSlot)
    && (cpu.pc.Running? || cpu.pc.Fetched? ==> cpu.timeLeft > 0)
  }

  /** Between the two halves of run nobody else moves the program counter. */
  ghost predicate FetchOk(pcs: map<Pcb, nat>, cpus: seq<Cpu>) {
    forall c :: 0 <= c < |cpus| && cpus[c].pc.Fetched? && cpus[c].held.Some? ==>
      cpus[c].held.value in pcs && pcs[cpus[c].held.value] == cpus[c].pc.at < cpus[c].held.value.codeSize
  }

  ghost predicate Inv(k: Config, s: Sys) {
    && Owned(k, s) && TraceOk(k, s.pcs, s.trace, s.finished) && FetchOk(s.pcs, s.cpus)
    && (forall c :: 0 <= c < |s.cpus| ==> SliceOk(k.timeSlot, s.cpus[c]))
  }

  lemma InitInv(k: Config, numCpus: nat)
    requires k.timeSlot >= 1
    ensures Inv(k, Init(k, numCpus))
  {
    hide Owned;
    InitOwned(k, numCpus);
  }

  /** A held process is a loaded one, unfinished, and in the running list. */
  lemma HeldFacts(k: Config, s: Sys, c: nat)
    requires ConfigOk(k) && Owned(k, s) && c < |s.cpus| && s.cpus[c].held.Some?
    ensures s.cpus[c].held.value in k.procs && s.cpus[c].held.value.prio < MAX_PRIO
    ensures s.cpus[c].held.value in s.sched.running && s.cpus[c].held.value !in s.finished
  {
    hide QueueBag, HeldBag, OwnLevels;
    var x := s.cpus[c].held.value;
    InHeldBag(s.cpus, c);
    assert x in HeldBag(s.cpus) && x in multiset(s.sched.running);
    var here := k.procs[..s.loaded];
    assert x in multiset(here);
    OnceEach(here, x);
    assert multiset(here)[x] >= HeldBag(s.cpus)[x] + multiset(s.finished)[x];
  }

  lemma {:induction false} OnceEach(q: seq<Pcb>, x: Pcb)
    requires forall i, j :: 0 <= i < j < |q| ==> q[i] != q[j]
    ensures multiset(q)[x] <= 1
  {
    if q != [] {
      OnceEach(q[1..], x);
      assert q == [q[0]] + q[1..];
      if q[0] == x {
        assert x !in q[1..];
      }
    }
  }

  /** Every step of every CPU and of the loader keeps ownership. */
  lemma StepOwned(k: Config, s: Sys, step: Step)
    requires ConfigOk(k) && Inv(k, s) && Enabled(k, s, step)
    ensures Owned(k, Do(k, s, step))
  {
    match step
    case Load => LoadOwned(k, s);
    case LoaderDone =>
    case Go(c) =>
      var cpu := s.cpus[c];
      assert SliceOk(k.timeSlot, cpu);
      var s' := Do(k, s, step);
      hide QueueBag, HeldBag, OwnLevels, TraceOk, FetchOk, Get, Put, Purged, Enqueued;
      if cpu.pc.Top? && cpu.held == None {
        FetchOwned(k, s, c, cpu, Recheck, InSlot);
      } else if cpu.pc.Refetch? {
        FetchOwned(k, s, c, if cpu.pc.reset then cpu.(timeLeft := 0) else cpu, Recheck, Recheck);
      } else if cpu.pc.Top? && s.pcs[cpu.held.value] == cpu.held.value.codeSize {
        FinishOwned(k, s, c, s'.cpus[c]);
      } else if cpu.pc.Top? && cpu.timeLeft == 0 {
        PutOwned(k, s, c, s'.cpus[c]);
      } else {
        HeldBagKeeps(s.cpus, c, s'.cpus[c]);
      }
  }

  // ----- Progress and slices are kept -----

  lemma UptoNext(n: nat)
    ensures Upto(n) + [n] == Upto(n + 1)
  {
  }

  lemma {:induction false} TwiceHeld(cpus: seq<Cpu>, c: nat, d: nat, x: Pcb)
    requires c < d < |cpus| && cpus[c].held == cpus[d].held == Some(x)
    ensures HeldBag(cpus)[x] >= 2
    decreases c
  {
    if c == 0 {
      InHeldBag(cpus[1..], d - 1);
      assert x in HeldBag(cpus[1..]);
    } else {
      TwiceHeld(cpus[1..], c - 1, d - 1, x);
    }
  }

  /** No two CPUs hold the same process. */
  lemma HoldersDiffer(k: Config, s: Sys, c: nat, d: nat)
    requires ConfigOk(k) && Owned(k, s) && c < |s.cpus| && d < |s.cpus| && c != d && s.cpus[c].held.Some?
    ensures s.cpus[d].held != s.cpus[c].held
  {
    hide QueueBag, HeldBag, OwnLevels;
    var x := s.cpus[c].held.value;
    var here := k.procs[..s.loaded];
    OnceEach(here, x);
    assert HeldBag(s.cpus)[x] <= multiset(here)[x];
    if s.cpus[d].held == s.cpus[c].held {
      TwiceHeld(s.cpus, if c < d then c else d, if c < d then d else c, x);
    }
  }

  /** The advance stores the number it fetched: the trace grows by exactly the instruction the counter stood at. */
  lemma AdvanceTrace(k: Config, s: Sys, p: Pcb, at: nat)
    requires TraceOk(k, s.pcs, s.trace, s.finished) && p in s.pcs && p !in s.finished
    requires s.pcs[p] == at < p.codeSize
    ensures TraceOk(k, Advance(s, p, at).pcs, Advance(s, p, at).trace, s.finished)
  {
    hide Upto;
    UptoNext(at);
  }

  lemma FinishTrace(k: Config, s: Sys, p: Pcb)
    requires TraceOk(k, s.pcs, s.trace, s.finished) && p in s.pcs && s.pcs[p] == p.codeSize
    ensures TraceOk(k, s.pcs, s.trace, s.finished + [p])
  {
    hide Upto;
  }

  /** Keeping traces in order rests on exclusive ownership: the fetched number is still the counter. */
  lemma StepTrace(k: Config, s: Sys, step: Step)
    requires ConfigOk(k) && Inv(k, s) && Enabled(k, s, step)
    ensures var s' := Do(k, s, step); TraceOk(k, s'.pcs, s'.trace, s'.finished)
  {
    hide Owned, TraceOk, SliceOk, Get, Put, Add;
    if step.Go? && s.cpus[step.c].held.Some? {
      var p := s.cpus[step.c].held.value;
      HeldFacts(k, s, step.c);
      if s.cpus[step.c].pc.Fetched? {
        AdvanceTrace(k, s, p, s.cpus[step.c].pc.at);
      } else if s.cpus[step.c].pc.Top? && s.pcs[p] == p.codeSize {
        FinishTrace(k, s, p);
      }
    }
  }

  /** What a step of CPU c leaves of the others, and whether c has an instruction in hand afterwards. */
  lemma OneCpu(k: Config, s: Sys, c: nat)
    requires Enabled(k, s, Go(c))
    ensures var s' := GoCpu(k, s, c); var cpu := s.cpus[c];
      && |s'.cpus| == |s.cpus| && (forall d :: 0 <= d < |s.cpus| && d != c ==> s'.cpus[d] == s.cpus[d])
      && (cpu.pc.Fetched? && cpu.held.Some? ==> s'.pcs == s.pcs[cpu.held.value := cpu.pc.at + 1])
      && (!(cpu.pc.Fetched? && cpu.held.Some?) ==> s'.pcs == s.pcs)
      && (s'.cpus[c].pc.Fetched? && s'.cpus[c].held.Some? ==>
            s'.cpus[c].held == cpu.held && cpu.held.value in s.pcs
            && s'.cpus[c].pc.at == s.pcs[cpu.held.value] < cpu.held.value.codeSize && s'.pcs == s.pcs)
  {
    hide Get, Put;
  }

  lemma StepFetch(k: Config, s: Sys, step: Step)
    requires ConfigOk(k) && Inv(k, s) && Enabled(k, s, step)
    ensures FetchOk(Do(k, s, step).pcs, Do(k, s, step).cpus)
  {
    hide Owned, TraceOk, SliceOk, Get, Put, Add, GoCpu;
    if step.Go? {
      OneCpu(k, s, step.c);
      hide Enabled, ConfigOk;
      if s.cpus[step.c].held.Some? {
        forall d | 0 <= d < |s.cpus| && d != step.c
          ensures s.cpus[d].held != s.cpus[step.c].held
        {
          HoldersDiffer(k, s, step.c, d);
        }
      }
    }
  }

  lemma StepSlices(k: Config, s: Sys, step: Step)
    requires k.timeSlot >= 1 && ConfigOk(k) && Inv(k, s) && Enabled(k, s, step)
    ensures var s' := Do(k, s, step); forall c :: 0 <= c < |s'.cpus| ==> SliceOk(k.timeSlot, s'.cpus[c])
  {
    hide Owned, TraceOk, FetchOk, Get, Put, Add;
    if step.Go? {
      assert SliceOk(k.timeSlot, s.cpus[step.c]);
    }
  }

  /** Every step of every CPU and of the loader keeps the invariant. */
  lemma StepKeeps(k: Config, s: Sys, step: Step)
    requires k.timeSlot >= 1 && ConfigOk(k) && Inv(k, s) && Enabled(k, s, step)
    ensures Inv(k, Do(k, s, step))
  {
    hide Owned, TraceOk, SliceOk, FetchOk, Do, Enabled, ConfigOk;
    StepOwned(k, s, step);
    StepFetch(k, s, step);
    StepTrace(k, s, step);
    StepSlices(k, s, step);
  }
}
