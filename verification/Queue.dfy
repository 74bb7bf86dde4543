/** The fixed-size array queues of src/queue.c, and the process control blocks they hold. */
module Queue {
  import opened Mm

  const MAX_QUEUE_SIZE: nat := 50

  /** The fields of pcb_t that scheduling and memory calls look at. */
  class Pcb {
    const pid: nat
    const priority: nat // legacy priority, from the program file
    const prio: nat     // MLQ level, from the configuration
    const codeSize: nat
    const mm: MmStruct

    constructor (pid: nat, priority: nat, prio: nat, codeSize: nat, mm: MmStruct)
      ensures this.pid == pid && this.priority == priority && this.prio == prio
      ensures this.codeSize == codeSize && this.mm == mm
    {
      this.pid, this.priority, this.prio, this.codeSize, this.mm := pid, priority, prio, codeSize, mm;
    }
  }

  // ----- The queue as a sequence -----

  function Enqueued(q: seq<Pcb>, p: Pcb): seq<Pcb> {
    if |q| == MAX_QUEUE_SIZE then q else q + [p]
  }

  function Without(q: seq<Pcb>, i: nat): seq<Pcb>
    requires i < |q|
  {
    q[..i] + q[i + 1..]
  }

  /** Position b holds the smallest legacy priority, and no earlier one does. */
  predicate IsBest(q: seq<Pcb>, b: nat) {
    && b < |q|
    && (forall i :: 0 <= i < |q| ==> q[b].priority <= q[i].priority)
    && (forall i :: 0 <= i < b ==> q[b].priority < q[i].priority)
  }

  function Best(q: seq<Pcb>): (b: nat)
    requires q != []
    ensures IsBest(q, b)
  {
    if |q| == 1 then 0
    else
      var n := |q| - 1;
      var b := Best(q[..n]);
      assert forall i :: 0 <= i < n ==> q[..n][i] == q[i];
      if q[n].priority < q[b].priority then n else b
  }

  lemma BestIsUnique(q: seq<Pcb>, a: nat, b: nat)
    requires IsBest(q, a) && IsBest(q, b)
    ensures a == b
  {
    assert q[a].priority <= q[b].priority && q[b].priority <= q[a].priority;
  }

  /** The queue gives up its head exactly when nothing behind the head has a smaller legacy priority. */
  lemma {:induction false} HeadFirstIff(q: seq<Pcb>)
    requires q != []
    ensures Best(q) == 0 <==> forall i :: 0 <= i < |q| ==> q[0].priority <= q[i].priority
  {
    if forall i :: 0 <= i < |q| ==> q[0].priority <= q[i].priority {
      BestIsUnique(q, Best(q), 0);
    }
  }

  function Purged(q: seq<Pcb>, p: Pcb): seq<Pcb> {
    if q == [] then []
    else if q[0] == p then q[1..]
    else [q[0]] + Purged(q[1..], p)
  }

  lemma {:induction false} PurgedAt(q: seq<Pcb>, p: Pcb, i: nat)
    requires i < |q| && q[i] == p && forall j :: 0 <= j < i ==> q[j] != p
    ensures Purged(q, p) == Without(q, i)
  {
    if i > 0 {
      PurgedAt(q[1..], p, i - 1);
      assert [q[0]] + Without(q[1..], i - 1) == Without(q, i);
    }
  }

  lemma {:induction false} PurgedAbsent(q: seq<Pcb>, p: Pcb)
    requires p !in q
    ensures Purged(q, p) == q
  {
    if q != [] { PurgedAbsent(q[1..], p); }
  }

  // ----- The queue in memory -----

  class Queue {
    const proc: array<Pcb?>
    var size: nat
    ghost var contents: seq<Pcb>

    ghost predicate Valid()
      reads this, proc
    {
      && proc.Length == MAX_QUEUE_SIZE
      && size == |contents| <= MAX_QUEUE_SIZE
      && (forall i :: 0 <= i < size ==> proc[i] == contents[i])
    }

    constructor ()
      ensures Valid() && fresh(proc) && contents == []
    {
      proc := new Pcb?[MAX_QUEUE_SIZE](_ => null);
      size := 0;
      contents := [];
    }

    /** The reset that init_scheduler gives every queue. */
    method Clear()
      requires proc.Length == MAX_QUEUE_SIZE
      modifies this
      ensures Valid() && contents == []
    {
      size := 0;
      contents := [];
    }

    predicate Empty()
      requires Valid()
      reads this, proc
      ensures Empty() <==> contents == []
    {
      size == 0
    }

    /** enqueue: a full queue silently drops the process. */
    method Enqueue(p: Pcb?)
      requires Valid()
      modifies this, proc
      ensures Valid()
      ensures contents == if p == null then old(contents) else Enqueued(old(contents), p)
    {
      if p == null || size == MAX_QUEUE_SIZE {
        return;
      }
      proc[size] := p;
      size := size + 1;
      contents := contents + [p];
    }

    /** Shifts everything behind position at one to the left. */
    method CloseGap(at: nat)
      requires Valid() && at < size
      modifies this, proc
      ensures Valid()
      ensures contents == Without(old(contents), at)
    {
      var i := at;
      while i < size - 1
        invariant at <= i <= size - 1 && size == old(size)
        invariant contents == old(contents)
        invariant forall j :: 0 <= j < at ==> proc[j] == contents[j]
        invariant forall j :: at <= j < i ==> proc[j] == contents[j + 1]
        invariant forall j :: i < j < size ==> proc[j] == contents[j]
      {
        proc[i] := proc[i + 1];
        i := i + 1;
      }
      size := size - 1;
      contents := Without(contents, at);
    }

    /** dequeue: the first process with the smallest legacy priority. */
    method Dequeue() returns (p: Pcb?)
      requires Valid()
      modifies this, proc
      ensures Valid()
      ensures old(contents) == [] ==> p == null && contents == []
      ensures old(contents) != [] ==> var b := Best(old(contents)); p == old(contents)[b] && contents == Without(old(contents), b)
    {
      if size == 0 {
        return null;
      }
      var best := 0;
      var i := 1;
      while i < size
        invariant 1 <= i <= size && best < i && Valid() && unchanged(this) && unchanged(proc)
        invariant forall j :: 0 <= j < i ==> contents[best].priority <= contents[j].priority
        invariant forall j :: 0 <= j < best ==> contents[best].priority < contents[j].priority
      {
        ghost var (cur, min) := (contents[i], contents[best]);
        assert proc[i] == cur && proc[best] == min;
        if proc[i].priority < proc[best].priority {
          best := i;
        }
        i := i + 1;
      }
      BestIsUnique(contents, best, Best(contents));
      p := proc[best];
      CloseGap(best);
    }

    /** purgequeue: the first occurrence of the process leaves the queue. */
    method Purge(p: Pcb?) returns (r: Pcb?)
      requires Valid()
      modifies this, proc
      ensures Valid()
      ensures p == null ==> r == null && contents == old(contents)
      ensures p != null ==> contents == Purged(old(contents), p) && r == if p in old(contents) then p else null
    {
      if p == null {
        return null;
      }
      var i := 0;
      while i < size
        invariant 0 <= i <= size && Valid() && unchanged(this) && unchanged(proc)
        invariant forall j :: 0 <= j < i ==> contents[j] != p
      {
        if proc[i] == p {
          PurgedAt(contents, p, i);
          CloseGap(i);
          return p;
        }
        i := i + 1;
      }
      PurgedAbsent(contents, p);
      r := null;
    }
  }
}
