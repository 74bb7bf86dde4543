/**
 The multi-level-queue scheduler of src/sched.c: 140 array queues, a running list, and a cursor
 that persists between calls.
 */
module Sched {
  import opened Queue
  import opened Wrappers

  const MAX_PRIO: nat := 140

  /** The budget of a level. */
  function Slot(p: nat): nat
    requires p < MAX_PRIO
  {
    MAX_PRIO - p
  }

  // ----- The cursor -----

  /** curr_prio and curr_slot_cnt. */
  datatype Cursor = Cursor(prio: nat, cnt: nat)

  predicate CursorOk(c: Cursor) {
    c.prio < MAX_PRIO && c.cnt < Slot(c.prio)
  }

  function NextLevel(p: nat): nat {
    (p + 1) % MAX_PRIO
  }

  /** The cursor after its level has been served once. */
  function Serve(c: Cursor): Cursor
    requires c.prio < MAX_PRIO
  {
    if c.cnt + 1 >= Slot(c.prio) then Cursor(NextLevel(c.prio), 0) else Cursor(c.prio, c.cnt + 1)
  }

  /** The search over at most 140 levels: the level served, if any, and the cursor left behind. */
  function Scan(c: Cursor, busy: set<nat>, tried: nat): (r: (Option<nat>, Cursor))
    requires CursorOk(c) && tried <= MAX_PRIO
    ensures CursorOk(r.1)
    ensures r.0.Some? ==> r.0.value in busy && r.0.value < MAX_PRIO
    decreases MAX_PRIO - tried
  {
    if tried == MAX_PRIO then (None, c)
    else if c.prio in busy then (Some(c.prio), Serve(c))
    else Scan(Cursor(NextLevel(c.prio), 0), busy, tried + 1)
  }

  /** The search starts with no level tried. */
  function Search(c: Cursor, busy: set<nat>): (r: (Option<nat>, Cursor))
    requires CursorOk(c)
    ensures CursorOk(r.1)
    ensures r.0.Some? ==> r.0.value in busy && r.0.value < MAX_PRIO
  {
    Scan(c, busy, 0)
  }

  lemma ScanUnfolds(c: Cursor, busy: set<nat>, tried: nat)
    requires CursorOk(c) && tried <= MAX_PRIO
    ensures Scan(c, busy, tried)
         == if tried == MAX_PRIO then (None, c)
            else if c.prio in busy then (Some(c.prio), Serve(c))
            else Scan(Cursor(NextLevel(c.prio), 0), busy, tried + 1)
  {
  }

  // ----- The scheduler as a value -----

  datatype State = State(queues: seq<seq<Pcb>>, cur: Cursor, running: seq<Pcb>)

  predicate StateOk(s: State) {
    |s.queues| == MAX_PRIO && CursorOk(s.cur)
  }

  /** Every process waits at its own level. */
  ghost predicate OwnLevels(queues: seq<seq<Pcb>>) {
    forall p, x :: 0 <= p < |queues| && x in queues[p] ==> x.prio == p
  }

  /** The levels with a waiting process. */
  function Busy(queues: seq<seq<Pcb>>): set<nat> {
    set p | 0 <= p < |queues| && queues[p] != []
  }

  const START := State(seq(MAX_PRIO, _ => []), Cursor(0, 0), [])

  /** get_mlq_proc. */
  function Get(s: State): (r: (Option<Pcb>, State))
    requires StateOk(s)
    ensures StateOk(r.1)
  {
    var (level, cur) := Search(s.cur, Busy(s.queues));
    match level
    case None => (None, s.(cur := cur))
    case Some(p) =>
      var b := Best(s.queues[p]);
      var proc := s.queues[p][b];
      (Some(proc), State(s.queues[p := Without(s.queues[p], b)], cur, Enqueued(s.running, proc)))
  }

  /** add_mlq_proc. */
  function Add(s: State, p: Pcb): (r: State)
    requires StateOk(s) && p.prio < MAX_PRIO
    ensures StateOk(r)
  {
    s.(queues := s.queues[p.prio := Enqueued(s.queues[p.prio], p)])
  }

  /** put_mlq_proc. */
  function Put(s: State, p: Pcb): (r: State)
    requires StateOk(s) && p.prio < MAX_PRIO
    ensures StateOk(r)
  {
    Add(s.(running := Purged(s.running, p)), p)
  }

  // ----- The scheduler in memory -----

  class Scheduler {
    const mlq: array<Queue>
    const slot: array<nat>
    const runningList: Queue
    var currPrio: nat
    var currSlotCnt: nat
    ghost var queues: seq<seq<Pcb>>
    ghost var Repr: set<object>

    ghost predicate Valid()
      reads this, Repr
      ensures Valid() ==> this in Repr
    {
      && {this, mlq, slot, runningList, runningList.proc} <= Repr
      && mlq.Length == MAX_PRIO && Distinct(mlq, runningList) && runningList.Valid()
      && |queues| == MAX_PRIO
      && (forall i :: 0 <= i < MAX_PRIO ==> mlq[i] in Repr && mlq[i].proc in Repr)
      && (forall i :: 0 <= i < MAX_PRIO ==> mlq[i].Valid() && mlq[i].contents == queues[i])
      && slot.Length == MAX_PRIO && (forall i :: 0 <= i < MAX_PRIO ==> slot[i] == Slot(i))
      && CursorOk(Cursor(currPrio, currSlotCnt))
    }

    ghost function Model(): State
      requires Valid()
      reads this, Repr
    {
      State(queues, Cursor(currPrio, currSlotCnt), runningList.contents)
    }

    /** The static storage of the file: its cursor starts at level 0. */
    constructor (mlq: array<Queue>, slot: array<nat>, runningList: Queue)
      ensures this.mlq == mlq && this.slot == slot && this.runningList == runningList
      ensures currPrio == currSlotCnt == 0
    {
      this.mlq, this.slot, this.runningList := mlq, slot, runningList;
      currPrio, currSlotCnt := 0, 0;
      queues, Repr := [], {};
    }

    /** init_scheduler: every queue is emptied and gets its budget. `objects` are the queues and their arrays. */
    method InitScheduler(ghost objects: set<object>)
      requires mlq.Length == slot.Length == MAX_PRIO && runningList.proc.Length == MAX_QUEUE_SIZE && Distinct(mlq, runningList)
      requires forall i :: 0 <= i < MAX_PRIO ==> mlq[i].proc.Length == MAX_QUEUE_SIZE
      requires forall i :: 0 <= i < MAX_PRIO ==> mlq[i] in objects && mlq[i].proc in objects
      requires currPrio == currSlotCnt == 0 && {this, mlq, slot} !! objects
      modifies this, slot, runningList, objects
      ensures Valid() && Model() == START
      ensures Repr == {this, mlq, slot, runningList, runningList.proc} + objects
    {
      hide Queue.Valid, Distinct;
      Reset(mlq, slot, runningList, objects);
      queues := seq(MAX_PRIO, _ => []);
      Repr := {this, mlq, slot, runningList, runningList.proc} + objects;
    }

    /** Takes the best process of the cursor's level and moves the cursor on. */
    method ServeLevel() returns (proc: Pcb?)
      requires Valid() && queues[currPrio] != []
      modifies Repr
      ensures Valid() && Repr == old(Repr)
      ensures var p := old(currPrio); var b := Best(old(queues)[p]);
        && proc == old(queues)[p][b] && proc != null
        && Model() == State(old(queues)[p := Without(old(queues)[p], b)],
                            Serve(Cursor(p, old(currSlotCnt))), old(runningList.contents))
    {
      hide Queue.Valid, Best, Without;
      proc := mlq[currPrio].Dequeue();
      queues := queues[currPrio := mlq[currPrio].contents];
      currSlotCnt := currSlotCnt + 1;
      if currSlotCnt >= slot[currPrio] {
        currPrio := (currPrio + 1) % MAX_PRIO;
        currSlotCnt := 0;
      }
    }

    /** The search loop: empty levels are skipped, each at most once. */
    method FindLevel() returns (found: bool)
      requires Valid()
      modifies this`currPrio, this`currSlotCnt
      ensures Valid() && Model().queues == old(Model()).queues && Model().running == old(Model()).running
      ensures found ==> Search(old(Model()).cur, Busy(queues)) == (Some(currPrio), Serve(Model().cur)) && queues[currPrio] != []
      ensures !found ==> Search(old(Model()).cur, Busy(queues)) == (None, Model().cur)
    {
      hide Scan, Serve, Distinct, Queue.Valid, Queue.Empty, Busy;
      EmptyLevels(queues);
      ghost var busy := Busy(queues);
      var tried := 0;
      while tried < MAX_PRIO && mlq[currPrio].Empty()
        invariant 0 <= tried <= MAX_PRIO && Valid()
        invariant Search(old(Model()).cur, busy) == Scan(Cursor(currPrio, currSlotCnt), busy, tried)
      {
        ScanUnfolds(Cursor(currPrio, currSlotCnt), busy, tried);
        currPrio := (currPrio + 1) % MAX_PRIO;
        currSlotCnt := 0;
        tried := tried + 1;
      }
      ScanUnfolds(Cursor(currPrio, currSlotCnt), busy, tried);
      found := tried < MAX_PRIO;
    }

    /** get_mlq_proc. */
    method GetMlqProc() returns (proc: Pcb?)
      requires Valid()
      modifies Repr
      ensures Valid() && Repr == old(Repr)
      ensures var (p, s) := Get(old(Model())); Model() == s && proc == if p.Some? then p.value else null
    {
      hide Search, Serve, Best, Without, Enqueued, Busy, Queue.Valid, Distinct;
      var found := FindLevel();
      if found {
        proc := ServeLevel();
        EnlistRunning(proc);
      } else {
        proc := null;
      }
    }

    /** A dispatched process enters the running list. */
    method EnlistRunning(proc: Pcb)
      requires Valid()
      modifies runningList, runningList.proc
      ensures Valid()
      ensures Model() == old(Model()).(running := Enqueued(old(Model()).running, proc))
    {
      hide Queue.Valid, Enqueued;
      runningList.Enqueue(proc);
    }

    /** add_mlq_proc. */
    method AddMlqProc(p: Pcb)
      requires Valid() && p.prio < MAX_PRIO
      modifies Repr
      ensures Valid() && Repr == old(Repr)
      ensures Model() == Add(old(Model()), p)
    {
      hide Queue.Valid, Enqueued;
      mlq[p.prio].Enqueue(p);
      queues := queues[p.prio := mlq[p.prio].contents];
    }

    /** put_mlq_proc. */
    method PutMlqProc(p: Pcb)
      requires Valid() && p.prio < MAX_PRIO
      modifies Repr
      ensures Valid() && Repr == old(Repr)
      ensures Model() == Put(old(Model()), p)
    {
      hide Queue.Valid, Enqueued, Purged;
      var purged := runningList.Purge(p);
      AddMlqProc(p);
    }
  }

  /** The loop of init_scheduler. */
  method Reset(mlq: array<Queue>, slot: array<nat>, runningList: Queue, ghost objects: set<object>)
    requires Distinct(mlq, runningList) && runningList.proc.Length == MAX_QUEUE_SIZE && slot.Length == MAX_PRIO
    requires forall i :: 0 <= i < MAX_PRIO ==> mlq[i].proc.Length == MAX_QUEUE_SIZE
    requires mlq !in objects && slot !in objects && forall i :: 0 <= i < MAX_PRIO ==> mlq[i] in objects
    modifies slot, runningList, objects
    ensures forall i :: 0 <= i < MAX_PRIO ==> mlq[i].Valid() && mlq[i].contents == []
    ensures forall i :: 0 <= i < MAX_PRIO ==> slot[i] == Slot(i)
    ensures runningList.Valid() && runningList.contents == []
  {
    hide Queue.Valid;
    for i := 0 to MAX_PRIO
      invariant forall j :: 0 <= j < i ==> mlq[j].Valid() && mlq[j].contents == [] && slot[j] == Slot(j)
    {
      mlq[i].Clear();
      slot[i] := MAX_PRIO - i;
    }
    runningList.Clear();
  }

  /** The static queues of the file: 140 different ones. `objects` are the queues and their arrays. */
  method Storage(runningList: Queue) returns (mlq: array<Queue>, ghost objects: set<object>)
    requires runningList.Valid()
    ensures fresh(mlq) && fresh(objects) && mlq !in objects
    ensures Distinct(mlq, runningList)
    ensures forall i :: 0 <= i < MAX_PRIO ==> mlq[i].proc.Length == MAX_QUEUE_SIZE && mlq[i] in objects && mlq[i].proc in objects
  {
    hide Queue.Valid;
    mlq := new Queue[MAX_PRIO](_ => runningList);
    objects := {};
    for i := 0 to MAX_PRIO
      invariant fresh(objects) && mlq !in objects
      invariant forall j :: 0 <= j < i ==> mlq[j] in objects && mlq[j].proc in objects && mlq[j].proc.Length == MAX_QUEUE_SIZE
      invariant forall j, k :: 0 <= j < k < i ==> mlq[j] != mlq[k] && mlq[j].proc != mlq[k].proc
    {
      mlq[i] := new Queue();
      QueueSize(mlq[i]);
      objects := objects + {mlq[i], mlq[i].proc};
    }
  }

  lemma QueueSize(q: Queue)
    requires q.Valid()
    ensures q.proc.Length == MAX_QUEUE_SIZE
  {
  }

  /** The scheduler at boot: its storage, then init_scheduler. */
  method StartScheduler() returns (s: Scheduler)
    ensures fresh(s) && s.Valid() && fresh(s.Repr) && s.Model() == START
  {
    hide Queue.Valid, Distinct;
    var runningList := new Queue();
    QueueSize(runningList);
    var slot := new nat[MAX_PRIO](_ => 0);
    var mlq, objects := Storage(runningList);
    s := new Scheduler(mlq, slot, runningList);
    SizeOf(mlq, runningList);
    s.InitScheduler(objects);
  }

  lemma SizeOf(mlq: array<Queue>, runningList: Queue)
    requires Distinct(mlq, runningList)
    ensures mlq.Length == MAX_PRIO
  {
  }

  lemma EmptyLevels(queues: seq<seq<Pcb>>)
    ensures forall p :: 0 <= p < |queues| ==> (p in Busy(queues) <==> queues[p] != [])
  {
  }

  /** The queues and their arrays are all different objects. */
  ghost predicate Distinct(mlq: array<Queue>, runningList: Queue)
    reads mlq
  {
    && mlq.Length == MAX_PRIO
    && (forall i, j :: 0 <= i < j < MAX_PRIO ==> mlq[i] != mlq[j] && mlq[i].proc != mlq[j].proc)
    && (forall i :: 0 <= i < MAX_PRIO ==> mlq[i] != runningList && mlq[i].proc != runningList.proc)
  }
}
