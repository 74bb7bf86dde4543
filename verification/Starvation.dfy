/**
 Who can be starved in the scheduler alone, by an environment that may hold processes and put them
 back without end.  The CPUs are not such an environment, because programs end: Waiting proves that
 they starve nobody, and how long a process can be overtaken.
 */
module Starvation {
  import opened Queue
  import opened Sched
  import opened Fairness
  import opened SchedRuns
  import opened Wrappers

  /** The scheduler, the processes that CPUs hold, and the processes still to be loaded. */
  datatype Arena = Arena(s: State, held: multiset<Pcb>, coming: multiset<Pcb>)

  /** Queues hold processes of their own level, and have room for everything outside. */
  ghost predicate ArenaOk(a: Arena) {
    && StateOk(a.s) && OwnLevels(a.s.queues)
    && (forall y :: y in a.held ==> y.prio < MAX_PRIO)
    && (forall y :: y in a.coming ==> y.prio < MAX_PRIO)
    && (forall p :: 0 <= p < MAX_PRIO ==> |a.s.queues[p]| + |a.held| + |a.coming| <= MAX_QUEUE_SIZE)
  }

  /** Only a held process is put back, and only one still to be loaded is admitted. */
  predicate May(a: Arena, op: Op) {
    match op
    case GetOp => true
    case PutOp(y) => y in a.held && y.prio < MAX_PRIO
    case AddOp(y) => y in a.coming && y.prio < MAX_PRIO
  }

  function After(a: Arena, op: Op): (r: Arena)
    requires StateOk(a.s) && May(a, op)
    ensures OpOk(op) && r.s == Step(a.s, op) && StateOk(r.s)
  {
    var s' := Step(a.s, op);
    match op
    case GetOp => Arena(s', if Get(a.s).0.Some? then a.held + multiset{Get(a.s).0.value} else a.held, a.coming)
    case PutOp(y) => Arena(s', a.held - multiset{y}, a.coming)
    case AddOp(y) => Arena(s', a.held, a.coming - multiset{y})
  }

  /** What the environment can do; it never runs out of put-backs, as CPUs with endless programs would not. */
  predicate Legal(a: Arena, ops: seq<Op>)
    requires StateOk(a.s)
    decreases |ops|
  {
    ops != [] ==> May(a, ops[0]) && Legal(After(a, ops[0]), ops[1..])
  }

  /** A run with that many dispatches, and x is not among them. */
  ghost predicate Avoids(a: Arena, ops: seq<Op>, x: Pcb, n: nat)
    requires StateOk(a.s)
  {
    Legal(a, ops) && OpsOk(ops) && Gets(ops) >= n && x !in Dispatches(a.s, ops)
  }

  /** A process of x's level that goes before it: waiting there, held, or still to come. */
  ghost predicate Rival(a: Arena, x: Pcb, y: Pcb)
    requires StateOk(a.s) && x.prio < MAX_PRIO
  {
    y.prio == x.prio && y.priority < x.priority && (y in a.s.queues[x.prio] || y in a.held || y in a.coming)
  }

  // ----- Without a rival -----

  lemma {:induction false} LegalOps(a: Arena, ops: seq<Op>)
    requires StateOk(a.s) && Legal(a, ops)
    ensures OpsOk(ops)
    decreases |ops|
  {
    hide Step;
    if ops != [] {
      LegalOps(After(a, ops[0]), ops[1..]);
    }
  }

  lemma WithoutFrom(q: seq<Pcb>, i: nat, y: Pcb)
    requires i < |q|
    ensures y in q ==> y == q[i] || y in Without(q, i)
    ensures y in Without(q, i) ==> y in q
  {
    if y in q && y != q[i] {
      var j :| 0 <= j < |q| && q[j] == y;
      assert Without(q, i)[if j < i then j else j - 1] == y;
    }
  }

  /** What a dispatch leaves waiting in level p. */
  lemma GetKeeps(s: State, p: nat, y: Pcb)
    requires StateOk(s) && OwnLevels(s.queues) && p < MAX_PRIO
    ensures OwnLevels(Get(s).1.queues)
    ensures y in Get(s).1.queues[p] ==> y in s.queues[p]
    ensures y in s.queues[p] ==> y in Get(s).1.queues[p] || Get(s).0 == Some(y)
    ensures Get(s).0 == Some(y) ==> y.prio < MAX_PRIO && y in s.queues[y.prio]
  {
    hide Scan, Enqueued, Best, Without, Busy;
    var level := Search(s.cur, Busy(s.queues)).0;
    if level.Some? {
      var q := s.queues[level.value];
      BusyMeans(s.queues, level.value);
      WithoutFrom(q, Best(q), y);
      forall l, z | 0 <= l < MAX_PRIO && z in Get(s).1.queues[l]
        ensures z in s.queues[l]
      {
        WithoutFrom(q, Best(q), z);
      }
    }
  }

  lemma ArrivalAdds(s: State, op: Op, p: nat, y: Pcb)
    requires StateOk(s) && OwnLevels(s.queues) && p < MAX_PRIO && !op.GetOp? && OpOk(op)
    ensures OwnLevels(Step(s, op).queues)
    ensures y in Step(s, op).queues[p] ==> y in s.queues[p] || y == op.p
  {
    hide Purged, Get;
    var q := s.queues[op.p.prio];
    assert Step(s, op).queues == s.queues[op.p.prio := Enqueued(q, op.p)];
    assert forall z :: z in Enqueued(q, op.p) ==> z in q || z == op.p;
  }

  /** No legal step brings in a rival. */
  lemma NoNewRival(a: Arena, op: Op, x: Pcb)
    requires StateOk(a.s) && OwnLevels(a.s.queues) && x.prio < MAX_PRIO && May(a, op)
    requires forall y :: !Rival(a, x, y)
    ensures OwnLevels(After(a, op).s.queues) && forall y :: !Rival(After(a, op), x, y)
  {
    hide Get, Add, Put, OwnLevels;
    forall y
      ensures OwnLevels(After(a, op).s.queues) && !Rival(After(a, op), x, y)
    {
      assert !Rival(a, x, y);
      if op.GetOp? {
        GetKeeps(a.s, x.prio, y);
      } else {
        assert !Rival(a, x, op.p);
        ArrivalAdds(a.s, op, x.prio, y);
      }
    }
    assert !Rival(After(a, op), x, x);
  }

  /** So no arrival of a legal run is smaller. */
  lemma {:induction false} LegalIsLeast(a: Arena, ops: seq<Op>, x: Pcb)
    requires StateOk(a.s) && OwnLevels(a.s.queues) && x.prio < MAX_PRIO && Legal(a, ops)
    requires forall y :: !Rival(a, x, y)
    ensures Least(a.s, ops, x.prio, x.priority)
    decreases |ops|
  {
    hide After;
    forall i | 0 <= i < |a.s.queues[x.prio]|
      ensures x.priority <= a.s.queues[x.prio][i].priority
    {
      assert !Rival(a, x, a.s.queues[x.prio][i]);
    }
    if ops != [] {
      NoNewRival(a, ops[0], x);
      assert !ops[0].GetOp? ==> !Rival(a, x, ops[0].p);
      LegalIsLeast(After(a, ops[0]), ops[1..], x);
      assert forall i :: 0 < i < |ops| ==> ops[i] == ops[1..][i - 1];
    }
  }

  /** Dispatches that are enough for process i of level p: one bound, and one for every equal one ahead of it. */
  function Enough(q: seq<Pcb>, p: nat, i: nat): nat
    requires p < MAX_PRIO && i < |q|
  {
    (1 + Equals(q[..i], q[i].priority)) * Bound(p)
  }

  /** Without a rival every legal run of that many dispatches has dispatched x. */
  lemma NoRivalServes(a: Arena, x: Pcb, i: nat, ops: seq<Op>, n: nat)
    requires StateOk(a.s) && OwnLevels(a.s.queues) && x.prio < MAX_PRIO
    requires i < |a.s.queues[x.prio]| && a.s.queues[x.prio][i] == x && n >= Enough(a.s.queues[x.prio], x.prio, i)
    requires forall y :: !Rival(a, x, y)
    ensures !Avoids(a, ops, x, n)
  {
    hide Rival, Legal, Dispatches, Gets, Least, OpsOk, Bound, Equals, OwnLevels;
    if Legal(a, ops) && OpsOk(ops) && Gets(ops) >= n {
      LegalIsLeast(a, ops, x);
      ProcessNeverStarves(a.s, ops, x.prio, i);
    }
  }

  // ----- With a rival -----

  /** While a smaller process waits in its level, a process is not dispatched, whatever the state. */
  lemma {:induction false} RivalBlocks(s: State, x: Pcb, y: Pcb)
    requires StateOk(s) && OwnLevels(s.queues) && x.prio < MAX_PRIO
    requires y in s.queues[x.prio] && y.priority < x.priority
    ensures Get(s).0.Some? && Get(s).0 != Some(x)
  {
    hide Scan, Enqueued, Without, Busy;
    GetFromLevel(s, x.prio);
    var level := Search(s.cur, Busy(s.queues)).0.value;
    var q := s.queues[level];
    assert q[Best(q)] in q;
    var j :| 0 <= j < |s.queues[x.prio]| && s.queues[x.prio][j] == y;
    assert level == x.prio ==> q[Best(q)].priority <= q[j].priority;
  }

  /** Dispatch and put back, n times: each run continues the one before. */
  function Rounds(s: State, n: nat): seq<Op>
    requires StateOk(s)
    decreases n
  {
    if n == 0 || Get(s).0.None? || Get(s).0.value.prio >= MAX_PRIO then []
    else [GetOp] + ([PutOp(Get(s).0.value)] + Rounds(Put(Get(s).1, Get(s).0.value), n - 1))
  }

  lemma PutRoom(s: State)
    requires StateOk(s) && Get(s).0.Some? && Get(s).0.value.prio < MAX_PRIO && OwnLevels(s.queues)
    requires forall p :: 0 <= p < MAX_PRIO ==> |s.queues[p]| <= MAX_QUEUE_SIZE
    ensures var z := Get(s).0.value; var s' := Put(Get(s).1, z);
      && OwnLevels(s'.queues)
      && (forall p :: 0 <= p < MAX_PRIO ==> |s'.queues[p]| == |s.queues[p]|)
      && z in s'.queues[z.prio]
      && (forall p, y :: 0 <= p < MAX_PRIO && y in Get(s).1.queues[p] ==> y in s'.queues[p])
  {
    hide Scan, Best, Busy, Purged;
    GetKeeps(s, 0, Get(s).0.value);
    var z := Get(s).0.value;
    var level := Search(s.cur, Busy(s.queues)).0.value;
    BusyMeans(s.queues, level);
    var q := s.queues[level];
    assert z == q[Best(q)] && z in q && z.prio == level;
    var w := Get(s).1.queues[level];
    assert w == Without(q, Best(q)) && |w| < MAX_QUEUE_SIZE;
    var s' := Put(Get(s).1, z);
    assert s'.queues[level] == w + [z] && s'.queues[level][|w|] == z;
  }

  /** A round leaves the rival waiting. */
  lemma RoundKeeps(a: Arena, x: Pcb, y: Pcb)
    requires ArenaOk(a) && x.prio < MAX_PRIO && y in a.s.queues[x.prio] && y.priority < x.priority
    ensures Get(a.s).0.Some? && Get(a.s).0.value.prio < MAX_PRIO && May(a, GetOp) && May(After(a, GetOp), PutOp(Get(a.s).0.value))
    ensures var a' := After(After(a, GetOp), PutOp(Get(a.s).0.value));
      ArenaOk(a') && y in a'.s.queues[x.prio] && a'.s == Put(Get(a.s).1, Get(a.s).0.value)
  {
    hide Get, Put;
    RivalBlocks(a.s, x, y);
    var z := Get(a.s).0.value;
    GetKeeps(a.s, x.prio, y);
    GetKeeps(a.s, x.prio, z);
    PutRoom(a.s);
    assert (a.held + multiset{z}) - multiset{z} == a.held;
  }

  /** One operation in front of a run. */
  lemma ConsOp(a: Arena, op: Op, rest: seq<Op>)
    requires StateOk(a.s) && May(a, op) && Legal(After(a, op), rest) && OpsOk(rest)
    ensures Legal(a, [op] + rest) && OpsOk([op] + rest)
    ensures Gets([op] + rest) == Gets(rest) + if op.GetOp? then 1 else 0
    ensures Dispatches(a.s, [op] + rest)
         == (if op.GetOp? && Get(a.s).0.Some? then [Get(a.s).0.value] else []) + Dispatches(After(a, op).s, rest)
  {
    hide Step, May, Get, After, StateOk, OpOk;
    assert ([op] + rest)[1..] == rest;
  }

  /** A dispatch of z and its put-back, in front of a run. */
  lemma OneRound(a: Arena, z: Pcb, rest: seq<Op>)
    requires StateOk(a.s) && Get(a.s).0 == Some(z) && z.prio < MAX_PRIO && May(a, GetOp) && May(After(a, GetOp), PutOp(z))
    requires OpsOk(rest) && Legal(After(After(a, GetOp), PutOp(z)), rest)
    ensures var ops := [GetOp] + ([PutOp(z)] + rest);
      && Legal(a, ops) && OpsOk(ops) && Gets(ops) == Gets(rest) + 1
      && Dispatches(a.s, ops) == [z] + Dispatches(After(After(a, GetOp), PutOp(z)).s, rest)
  {
    hide Get, Put, May, Legal, OpsOk, Gets, Dispatches, StateOk, After;
    ConsOp(After(a, GetOp), PutOp(z), rest);
    ConsOp(a, GetOp, [PutOp(z)] + rest);
  }

  /** While the rival waits, putting back whoever is dispatched keeps x waiting through any number of rounds. */
  lemma {:induction false} RoundsStarve(a: Arena, x: Pcb, y: Pcb, n: nat)
    requires ArenaOk(a) && x.prio < MAX_PRIO && y in a.s.queues[x.prio] && y.priority < x.priority
    ensures Legal(a, Rounds(a.s, n)) && OpsOk(Rounds(a.s, n)) && Gets(Rounds(a.s, n)) == n
    ensures x !in Dispatches(a.s, Rounds(a.s, n))
    decreases n
  {
    hide ArenaOk, Get, Put, May, After, Dispatches, Legal, Gets;
    if n == 0 {
      NoOps(a);
    } else {
      ArenaState(a);
      RoundKeeps(a, x, y);
      RivalBlocks(a.s, x, y);
      var z := Get(a.s).0.value;
      var a' := After(After(a, GetOp), PutOp(z));
      RoundsStarve(a', x, y, n - 1);
      OneRound(a, z, Rounds(a'.s, n - 1));
    }
  }

  lemma ArenaState(a: Arena)
    requires ArenaOk(a)
    ensures StateOk(a.s) && OwnLevels(a.s.queues)
  {
  }

  lemma NoOps(a: Arena)
    requires ArenaOk(a)
    ensures StateOk(a.s) && Legal(a, []) && OpsOk([]) && Gets([]) == 0 && Dispatches(a.s, []) == []
  {
  }

  /** A rival outside comes in first. */
  lemma RivalArrives(a: Arena, x: Pcb, y: Pcb) returns (op: Op)
    requires ArenaOk(a) && x.prio < MAX_PRIO && y.prio == x.prio && (y in a.held || y in a.coming)
    ensures !op.GetOp? && May(a, op)
    ensures ArenaOk(After(a, op)) && y in After(a, op).s.queues[x.prio]
  {
    hide Get, Purged;
    op := if y in a.held then PutOp(y) else AddOp(y);
    var q := a.s.queues[x.prio];
    var a' := After(a, op);
    assert |a'.held| + |a'.coming| + 1 == |a.held| + |a.coming|;
    assert a'.s.queues[x.prio] == q + [y] && (q + [y])[|q|] == y;
  }

  lemma RivalStarves(a: Arena, x: Pcb, y: Pcb, n: nat) returns (ops: seq<Op>)
    requires ArenaOk(a) && x.prio < MAX_PRIO && Rival(a, x, y)
    ensures Avoids(a, ops, x, n)
  {
    hide ArenaOk, After, Legal, OpsOk, Gets, Dispatches, May, Rounds;
    ArenaState(a);
    if y in a.s.queues[x.prio] {
      RoundsStarve(a, x, y, n);
      ops := Rounds(a.s, n);
    } else {
      var op := RivalArrives(a, x, y);
      var a' := After(a, op);
      RoundsStarve(a', x, y, n);
      ConsOp(a, op, Rounds(a'.s, n));
      ops := [op] + Rounds(a'.s, n);
    }
  }

  /**
   Such an environment can keep a waiting process waiting through any number of dispatches from the
   bound on if and only if a process of its level with a smaller legacy priority waits too, is held,
   or is still to come.
   */
  lemma {:induction false} StarvesIff(a: Arena, x: Pcb, i: nat, n: nat)
    requires ArenaOk(a) && x.prio < MAX_PRIO
    requires i < |a.s.queues[x.prio]| && a.s.queues[x.prio][i] == x && n >= Enough(a.s.queues[x.prio], x.prio, i)
    ensures (exists ops :: Avoids(a, ops, x, n)) <==> exists y :: Rival(a, x, y)
  {
    hide ArenaOk, Avoids, Rival, Enough;
    ArenaState(a);
    if y :| Rival(a, x, y) {
      var ops := RivalStarves(a, x, y, n);
    } else {
      forall ops
        ensures !Avoids(a, ops, x, n)
      {
        NoRivalServes(a, x, i, ops, n);
      }
    }
  }
}
