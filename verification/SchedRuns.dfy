/**
 Runs of the whole scheduler: dispatches, put-backs and admissions in any order.  The guarantees
 of the cursor carry over to every such run.
 */
module SchedRuns {
  import opened Queue
  import opened Sched
  import opened Fairness
  import opened Wrappers

  datatype Op = GetOp | PutOp(p: Pcb) | AddOp(p: Pcb)

  predicate OpOk(op: Op) {
    op.GetOp? || op.p.prio < MAX_PRIO
  }

  predicate OpsOk(ops: seq<Op>) {
    forall i :: 0 <= i < |ops| ==> OpOk(ops[i])
  }

  function Step(s: State, op: Op): (r: State)
    requires StateOk(s) && OpOk(op)
    ensures StateOk(r)
  {
    match op
    case GetOp => Get(s).1
    case PutOp(p) => Put(s, p)
    case AddOp(p) => Add(s, p)
  }

  /** The busy levels at each dispatch of a run. */
  function BusySets(s: State, ops: seq<Op>): seq<set<nat>>
    requires StateOk(s) && OpsOk(ops)
    decreases |ops|
  {
    if ops == [] then []
    else (if ops[0].GetOp? then [Busy(s.queues)] else []) + BusySets(Step(s, ops[0]), ops[1..])
  }

  /** The level each dispatch of a run takes its process from. */
  function Levels(s: State, ops: seq<Op>): seq<Option<nat>>
    requires StateOk(s) && OpsOk(ops)
    decreases |ops|
  {
    if ops == [] then []
    else (if ops[0].GetOp? then [Search(s.cur, Busy(s.queues)).0] else []) + Levels(Step(s, ops[0]), ops[1..])
  }

  /** The processes dispatched in a run, in order. */
  function Dispatches(s: State, ops: seq<Op>): seq<Pcb>
    requires StateOk(s) && OpsOk(ops)
    decreases |ops|
  {
    if ops == [] then []
    else (if ops[0].GetOp? && Get(s).0.Some? then [Get(s).0.value] else []) + Dispatches(Step(s, ops[0]), ops[1..])
  }

  function Gets(ops: seq<Op>): nat {
    if ops == [] then 0 else (if ops[0].GetOp? then 1 else 0) + Gets(ops[1..])
  }

  /** In every run the cursor sees only which levels are busy: put-backs and admissions do not move it. */
  lemma {:induction false} RunServes(s: State, ops: seq<Op>)
    requires StateOk(s) && OpsOk(ops)
    ensures |BusySets(s, ops)| == Gets(ops)
    ensures Levels(s, ops) == Served(s.cur, BusySets(s, ops))
    decreases |ops|
  {
    hide Search, Best, Enqueued, Without, Purged, Busy;
    if ops != [] {
      RunServes(Step(s, ops[0]), ops[1..]);
      var rest := BusySets(Step(s, ops[0]), ops[1..]);
      if ops[0].GetOp? {
        assert ([Busy(s.queues)] + rest)[1..] == rest;
      } else {
        assert [] + rest == rest && [] + Levels(Step(s, ops[0]), ops[1..]) == Levels(Step(s, ops[0]), ops[1..]);
      }
    }
  }

  /**
   In any run of dispatches, put-backs and admissions that finds exactly the levels of `busy`
   waiting at each of one round of dispatches, level p gets exactly its budget of them.
   */
  lemma {:induction false} RunExactShare(s: State, ops: seq<Op>, busy: set<nat>, p: nat)
    requires StateOk(s) && OpsOk(ops) && p in busy && p < MAX_PRIO
    requires Gets(ops) == Round(busy)
    requires forall k :: 0 <= k < |BusySets(s, ops)| ==> BusySets(s, ops)[k] == busy
    ensures multiset(Levels(s, ops))[Some(p)] == Slot(p)
  {
    RunServes(s, ops);
    hide Served, BusySets, Levels;
    assert BusySets(s, ops) == seq(Round(busy), _ => busy);
    ExactShare(s.cur, busy, p);
  }

  /** Nothing that waits in level p, now or from some arrival on, has a smaller legacy priority. */
  ghost predicate Least(s: State, ops: seq<Op>, p: nat, priority: nat)
    requires StateOk(s) && p < MAX_PRIO
  {
    && (forall i :: 0 <= i < |s.queues[p]| ==> priority <= s.queues[p][i].priority)
    && (forall i :: 0 <= i < |ops| && !ops[i].GetOp? && ops[i].p.prio == p ==> priority <= ops[i].p.priority)
  }

  /** How many of these have that legacy priority. */
  function Equals(q: seq<Pcb>, priority: nat): nat {
    if q == [] then 0 else (if q[0].priority == priority then 1 else 0) + Equals(q[1..], priority)
  }

  lemma {:induction false} EqualsAdd(a: seq<Pcb>, b: seq<Pcb>, priority: nat)
    ensures Equals(a + b, priority) == Equals(a, priority) + Equals(b, priority)
    decreases |a|
  {
    if a == [] {
      assert a + b == b;
    } else {
      assert (a + b)[1..] == a[1..] + b;
      EqualsAdd(a[1..], b, priority);
    }
  }

  /** A level whose smallest priority is that of its process i gives up that process, or an equal one ahead of it. */
  lemma LevelAdvances(q: seq<Pcb>, i: nat)
    requires i < |q| && forall j :: 0 <= j < |q| ==> q[i].priority <= q[j].priority
    ensures var b := Best(q);
      (|| b == i
       || (&& b < i && Without(q, b)[i - 1] == q[i]
           && Equals(Without(q, b)[..i - 1], q[i].priority) + 1 == Equals(q[..i], q[i].priority)))
  {
    hide Best;
    var b, r := Best(q), q[i].priority;
    if b < i {
      assert q[..i] == q[..b] + ([q[b]] + q[b + 1..i]);
      assert Without(q, b)[..i - 1] == q[..b] + q[b + 1..i];
      assert q[b].priority == r;
      EqualsAdd(q[..b], [q[b]] + q[b + 1..i], r);
      EqualsAdd([q[b]], q[b + 1..i], r);
      EqualsAdd(q[..b], q[b + 1..i], r);
      assert Equals([q[b]], r) == 1;
    }
  }

  /** A dispatch takes the best of its level, or leaves level p alone. */
  lemma GetFromLevel(s: State, p: nat)
    requires StateOk(s) && p < MAX_PRIO && s.queues[p] != []
    ensures var (proc, s') := Get(s); var level := Search(s.cur, Busy(s.queues)).0;
      && level.Some? && level.value < MAX_PRIO && s.queues[level.value] != [] && s'.cur == Search(s.cur, Busy(s.queues)).1
      && proc == Some(s.queues[level.value][Best(s.queues[level.value])])
      && s'.queues == s.queues[level.value := Without(s.queues[level.value], Best(s.queues[level.value]))]
  {
    hide Scan, Enqueued, Best, Without;
    BusyMeans(s.queues, p);
    SomeLevelServed(s.cur, Busy(s.queues));
  }

  lemma BusyMeans(queues: seq<seq<Pcb>>, p: nat)
    requires p < |queues|
    ensures p in Busy(queues) <==> queues[p] != []
  {
  }

  /** A put-back or an admission leaves every waiting process where it is. */
  lemma ArrivalKeeps(s: State, ops: seq<Op>, p: nat, i: nat, priority: nat)
    requires StateOk(s) && OpsOk(ops) && ops != [] && !ops[0].GetOp? && p < MAX_PRIO && i < |s.queues[p]|
    requires Least(s, ops, p, priority)
    ensures var s' := Step(s, ops[0]);
      && s'.cur == s.cur
      && i < |s'.queues[p]| && s'.queues[p][i] == s.queues[p][i] && s'.queues[p][..i] == s.queues[p][..i]
      && Least(s', ops[1..], p, priority)
  {
    hide Purged;
    var s' := Step(s, ops[0]);
    assert s'.queues[p] == s.queues[p] || (ops[0].p.prio == p && s'.queues[p] == s.queues[p] + [ops[0].p]);
  }

  /** One dispatch: x goes, or an equal one ahead of it goes, or the cursor comes closer to level p. */
  lemma DispatchProgress(s: State, ops: seq<Op>, p: nat, i: nat)
    requires StateOk(s) && OpsOk(ops) && ops != [] && ops[0].GetOp? && p < MAX_PRIO && i < |s.queues[p]|
    requires Least(s, ops, p, s.queues[p][i].priority)
    ensures var (proc, s') := Get(s); var x := s.queues[p][i];
      && Least(s', ops[1..], p, x.priority) && Ahead9870(s'.cur, p) < Bound(p)
      && (|| proc == Some(x)
          || (i > 0 && i - 1 < |s'.queues[p]| && s'.queues[p][i - 1] == x
              && Equals(s'.queues[p][..i - 1], x.priority) + 1 == Equals(s.queues[p][..i], x.priority))
          || (s'.queues[p] == s.queues[p] && Ahead9870(s'.cur, p) < Ahead9870(s.cur, p)))
  {
    hide Scan, Get, Ahead9870, Busy, Best, Equals;
    GetFromLevel(s, p);
    BusyMeans(s.queues, p);
    ScanApproaches(s.cur, Busy(s.queues), 0, p);
    AheadBounds(Get(s).1.cur, p);
    LevelAdvances(s.queues[p], i);
  }

  /** i whole bounds. */
  function Bounds(i: nat, p: nat): nat
    requires p < MAX_PRIO
  {
    if i == 0 then 0 else Bounds(i - 1, p) + Bound(p)
  }

  lemma {:induction false} BoundsIsProduct(i: nat, p: nat)
    requires p < MAX_PRIO
    ensures Bounds(i, p) == i * Bound(p)
  {
    if i > 0 { BoundsIsProduct(i - 1, p); }
  }

  lemma DispatchedNowOrLater(s: State, ops: seq<Op>, x: Pcb)
    requires StateOk(s) && OpsOk(ops) && ops != []
    ensures ops[0].GetOp? && Get(s).0 == Some(x) ==> x in Dispatches(s, ops)
    ensures x in Dispatches(Step(s, ops[0]), ops[1..]) ==> x in Dispatches(s, ops)
  {
    hide Get, Add, Put;
  }

  lemma FirstOp(s: State, ops: seq<Op>)
    requires StateOk(s) && OpsOk(ops) && Gets(ops) > 0
    ensures ops != [] && OpsOk(ops[1..])
    ensures Gets(ops) == Gets(ops[1..]) + if ops[0].GetOp? then 1 else 0
    ensures ops[0].GetOp? ==> Step(s, ops[0]) == Get(s).1
  {
    hide Get, Add, Put;
  }

  /** Process x waits at position i of level p, and enough dispatches are left to reach it. */
  ghost predicate Due(s: State, ops: seq<Op>, p: nat, i: nat, x: Pcb)
    requires StateOk(s) && OpsOk(ops)
  {
    && p < MAX_PRIO && i < |s.queues[p]| && s.queues[p][i] == x && Least(s, ops, p, x.priority)
    && Gets(ops) > Bounds(Equals(s.queues[p][..i], x.priority), p) + Ahead9870(s.cur, p)
  }

  lemma DueAtDispatch(s: State, ops: seq<Op>, p: nat, i: nat, x: Pcb) returns (j: nat)
    requires StateOk(s) && OpsOk(ops) && Due(s, ops, p, i, x) && ops != [] && ops[0].GetOp?
    ensures Get(s).0 == Some(x) || Due(Get(s).1, ops[1..], p, j, x)
  {
    hide Get, Least, Bound, Ahead9870, Equals;
    AheadBounds(s.cur, p);
    DispatchProgress(s, ops, p, i);
    var q, q' := s.queues[p], Get(s).1.queues[p];
    j := if (q' == q && Ahead9870(Get(s).1.cur, p) < Ahead9870(s.cur, p)) || i == 0 then i else i - 1;
  }

  lemma DueAtArrival(s: State, ops: seq<Op>, p: nat, i: nat, x: Pcb)
    requires StateOk(s) && OpsOk(ops) && Due(s, ops, p, i, x) && ops != [] && !ops[0].GetOp?
    ensures Due(Step(s, ops[0]), ops[1..], p, i, x)
  {
    hide Step, Least, Bounds, Ahead9870, Equals;
    ArrivalKeeps(s, ops, p, i, x.priority);
  }

  lemma {:induction false} ProcessServed(s: State, ops: seq<Op>, p: nat, i: nat, x: Pcb)
    requires StateOk(s) && OpsOk(ops) && Due(s, ops, p, i, x)
    ensures x in Dispatches(s, ops)
    decreases |ops|
  {
    DueMeans(s, ops, p, i, x);
    hide *;
    FirstOp(s, ops);
    DispatchedNowOrLater(s, ops, x);
    if ops[0].GetOp? {
      var j := DueAtDispatch(s, ops, p, i, x);
      if Get(s).0 != Some(x) {
        ProcessServed(Step(s, ops[0]), ops[1..], p, j, x);
      }
    } else {
      DueAtArrival(s, ops, p, i, x);
      ProcessServed(Step(s, ops[0]), ops[1..], p, i, x);
    }
  }

  lemma DueMeans(s: State, ops: seq<Op>, p: nat, i: nat, x: Pcb)
    requires StateOk(s) && OpsOk(ops) && Due(s, ops, p, i, x)
    ensures Gets(ops) > 0
  {
    hide Ahead9870, Least, Equals;
    AheadBounds(s.cur, p);
  }

  /**
   A process is dispatched within one bound of its level, plus one for every process of equal legacy
   priority ahead of it, whatever is put back or admitted meanwhile and wherever the cursor starts,
   as long as nothing that waits in the level or arrives there has a smaller legacy priority.
   */
  lemma {:induction false} ProcessNeverStarves(s: State, ops: seq<Op>, p: nat, i: nat)
    requires StateOk(s) && OpsOk(ops) && p < MAX_PRIO && i < |s.queues[p]|
    requires Least(s, ops, p, s.queues[p][i].priority)
    requires Gets(ops) >= (1 + Equals(s.queues[p][..i], s.queues[p][i].priority)) * Bound(p)
    ensures s.queues[p][i] in Dispatches(s, ops)
  {
    hide Least, Ahead9870, Bounds, Bound, Equals, Gets, Dispatches;
    var n := Equals(s.queues[p][..i], s.queues[p][i].priority);
    AheadBounds(s.cur, p);
    assert (1 + n) * Bound(p) == n * Bound(p) + Bound(p);
    BoundsIsProduct(n, p);
    ProcessServed(s, ops, p, i, s.queues[p][i]);
  }
}
