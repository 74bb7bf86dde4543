/**
 The mutable machine as a whole: one kernel structure, one RAM device, and an address space for
 the kernel and for every loaded process.  Each memory operation, with all its in-place updates,
 is exactly one step of the value-level system in module Memory.
 */
module Machine {
  import opened Paging
  import opened Space
  import opened Memory
  import opened Frames
  import opened Wrappers
  import Bits
  import FlatMemory
  import PageTable
  import opened Mm
  import Spec = Space
  import Krnl
  import Queue
  import MemPhy

  /** Which process belongs to which space. */
  predicate Tables(spaces: map<nat, MmStruct>, procs: map<nat, Queue.Pcb>, kernel: MmStruct) {
    && KERNEL in spaces && spaces[KERNEL] == kernel
    && procs.Keys == spaces.Keys - {KERNEL}
    && (forall pid :: pid in procs ==> procs[pid].pid == pid && procs[pid].mm == spaces[pid])
  }

  lemma TablesJoin(spaces: map<nat, MmStruct>, procs: map<nat, Queue.Pcb>, kernel: MmStruct, pid: nat, pcb: Queue.Pcb)
    requires Tables(spaces, procs, kernel) && pid !in spaces && pcb.pid == pid
    ensures Tables(spaces[pid := pcb.mm], procs[pid := pcb], kernel)
  {
  }

  // ----- Who owns which objects -----

  /** The spaces own disjoint sets of objects, none of them the kernel's. */
  ghost predicate Separate(owned: map<nat, set<object>>, kernel: set<object>) {
    && (forall p :: p in owned ==> owned[p] !! kernel)
    && (forall p, q :: p in owned && q in owned && p != q ==> owned[p] !! owned[q])
  }

  /** An operation that works for one space and takes only new objects keeps them separate. */
  lemma StaySeparate(owned: map<nat, set<object>>, kernel: set<object>, all: set<object>,
                     pid: nat, mine: set<object>, kernel': set<object>)
    requires Separate(owned, kernel) && pid in owned
    requires forall p :: p in owned ==> owned[p] <= all
    requires mine !! kernel'
    requires (mine - owned[pid]) !! all && (kernel' - kernel) !! all
    ensures Separate(owned[pid := mine], kernel')
  {
    assert kernel' <= kernel + (kernel' - kernel) && mine <= owned[pid] + (mine - owned[pid]);
    forall p | p in owned && p != pid
      ensures owned[p] !! kernel' && owned[p] !! mine
    {
      assert owned[p] !! kernel && owned[p] !! owned[pid];
    }
  }

  lemma SingleSeparate(mine: set<object>, kernel: set<object>)
    requires mine !! kernel
    ensures Separate(map[KERNEL := mine], kernel)
  {
  }

  lemma Mine(owned: map<nat, set<object>>, kernel: set<object>, p: nat)
    requires Separate(owned, kernel) && p in owned
    ensures owned[p] !! kernel
  {
  }

  lemma Separated(owned: map<nat, set<object>>, kernel: set<object>, p: nat, q: nat)
    requires Separate(owned, kernel) && p in owned && q in owned && p != q
    ensures owned[p] !! owned[q] && owned[p] !! kernel
  {
  }

  class Machine {
    const krnl: Krnl.Krnl
    var spaces: map<nat, MmStruct>
    var procs: map<nat, Queue.Pcb>
    ghost var Repr: set<object>

    ghost function Owned(): map<nat, set<object>>
      reads this, set pid | pid in spaces :: spaces[pid]
    {
      map pid | pid in spaces :: spaces[pid].Repr
    }

    ghost predicate Valid()
      reads this, Repr
    {
      && {this, krnl} <= Repr && krnl.Repr <= Repr && this !in krnl.Repr && krnl.Valid()
      && Tables(spaces, procs, krnl.mm)
      && (forall pid :: pid in spaces ==> spaces[pid] in Repr && spaces[pid].Repr <= Repr)
      && (forall pid :: pid in spaces ==> this !in spaces[pid].Repr && spaces[pid].Valid())
      && Separate(Owned(), krnl.Repr)
    }

    /** The machine as a value. */
    ghost function Abs(): Sys
      requires Valid()
      reads this, Repr
    {
      Sys(map pid | pid in spaces :: spaces[pid].Model(), krnl.mram.free, krnl.mram.storage[..], krnl.SwapState())
    }

    ghost predicate Found(pid: nat)
      reads this, krnl, krnl.runningList
    {
      Krnl.Running(krnl.runningList.contents, pid)
    }

    /** A machine over a kernel structure, with no process loaded yet. */
    constructor (k: Krnl.Krnl)
      requires k.Owns(k.mm)
      ensures Valid() && fresh(Repr - k.Repr - k.mm.Repr)
      ensures krnl == k && spaces == map[KERNEL := k.mm] && procs == map[]
    {
      hide MmStruct.Valid, MmStruct.Model, Krnl.Krnl.Valid, Separate;
      krnl := k;
      spaces, procs := map[KERNEL := k.mm], map[];
      Repr := {this} + k.Repr + k.mm.Repr;
      new;
      SingleSeparate(k.mm.Repr, k.Repr);
      assert Owned() == map[KERNEL := k.mm.Repr];
    }

    /** After an operation for one space: the new objects join the machine. */
    ghost method Settle(pid: nat, owned: map<nat, set<object>>, kernel: set<object>, all: set<object>)
      requires this in all && krnl in all && this !in krnl.Repr && Tables(spaces, procs, krnl.mm) && pid in spaces
      requires Separate(owned, kernel) && owned.Keys == spaces.Keys && kernel <= all
      requires forall q :: q in spaces ==> spaces[q] in all && owned[q] <= all && this !in spaces[q].Repr
      requires forall q :: q in spaces && q != pid ==> spaces[q].Repr == owned[q] && spaces[q].Valid()
      requires krnl.Owns(spaces[pid])
      requires (spaces[pid].Repr - owned[pid]) !! all && (krnl.Repr - kernel) !! all
      modifies this`Repr
      ensures Valid() && Repr == all + spaces[pid].Repr + krnl.Repr
      ensures forall q :: q in spaces ==> spaces[q].Model() == old(spaces[q].Model())
    {
      hide MmStruct.Valid, MmStruct.Model, Krnl.Krnl.Valid, Separate, Tables;
      StaySeparate(owned, kernel, all, pid, spaces[pid].Repr, krnl.Repr);
      Repr := all + spaces[pid].Repr + krnl.Repr;
      assert Owned() == owned[pid := spaces[pid].Repr];
    }

    lemma AbsMeans()
      requires Valid()
      ensures Abs().spaces.Keys == spaces.Keys
      ensures forall q :: q in spaces ==> Abs().spaces[q] == spaces[q].Model()
      ensures Abs().frames == krnl.mram.free && Abs().storage == krnl.mram.storage[..] && Abs().swap == krnl.SwapState()
    {
    }

    lemma OneSpaceChanged(before: Sys, pid: nat)
      requires Valid() && pid in spaces && before.spaces.Keys == spaces.Keys
      requires forall q :: q in spaces && q != pid ==> spaces[q].Model() == before.spaces[q]
      ensures Abs() == Sys(before.spaces[pid := spaces[pid].Model()], krnl.mram.free, krnl.mram.storage[..], krnl.SwapState())
    {
      hide MmStruct.Valid, MmStruct.Model, Krnl.Krnl.Valid, Separate;
    }

    /** Changes to the running list leave every space and the device alone. */
    lemma ListApart()
      requires Valid()
      ensures {krnl.runningList, krnl.runningList.proc} !! krnl.mram.Repr && {krnl.runningList, krnl.runningList.proc} <= Repr
      ensures this !in {krnl.runningList, krnl.runningList.proc}
      ensures forall q :: q in spaces ==> {krnl.runningList, krnl.runningList.proc} !! spaces[q].Repr
    {
      forall q | q in spaces
        ensures spaces[q].Repr !! krnl.Repr
      {
        Mine(Owned(), krnl.Repr, q);
      }
    }

    /** What get_mlq_proc does to the kernel's view: the dispatched process enters the running list. */
    method Dispatch(pid: nat)
      requires Valid() && pid in procs
      modifies krnl.runningList, krnl.runningList.proc
      ensures Valid() && Abs() == old(Abs())
      ensures krnl.runningList.contents == Queue.Enqueued(old(krnl.runningList.contents), procs[pid])
      ensures |old(krnl.runningList.contents)| < Queue.MAX_QUEUE_SIZE ==> Found(pid)
    {
      hide MmStruct.Valid, MmStruct.Model, Separate, MemPhy.Device.Valid;
      ListApart();
      krnl.runningList.Enqueue(procs[pid]);
      ghost var list := krnl.runningList.contents;
      assert |list| > 0 && old(|krnl.runningList.contents|) < Queue.MAX_QUEUE_SIZE ==> list[|list| - 1].pid == pid;
    }

    /** What put_mlq_proc does to the kernel's view: the process leaves the running list. */
    method Preempt(pid: nat)
      requires Valid() && pid in procs
      modifies krnl.runningList, krnl.runningList.proc
      ensures Valid() && Abs() == old(Abs())
      ensures krnl.runningList.contents == Queue.Purged(old(krnl.runningList.contents), procs[pid])
    {
      hide MmStruct.Valid, MmStruct.Model, Separate, MemPhy.Device.Valid, Queue.Purged;
      ListApart();
      var purged := krnl.runningList.Purge(procs[pid]);
    }

    /** ALLOC, run by a loaded process: the work, seen from its one space. */
    method AllocInSpace(pid: nat, rgid: nat, size: nat)
      requires Valid() && pid in procs && rgid < SYMBOLS
      modifies Repr
      ensures Valid() && fresh(Repr - old(Repr))
      ensures spaces == old(spaces) && procs == old(procs) && Found(pid) == old(Found(pid))
      ensures forall q :: q in spaces && q != pid ==> spaces[q].Model() == old(spaces[q].Model())
      ensures krnl.mram.storage[..] == old(krnl.mram.storage[..]) && krnl.SwapState() == old(krnl.SwapState())
      ensures (spaces[pid].Model(), krnl.mram.free)
           == Spec.Alloc(old(spaces[pid].Model()), old(krnl.mram.free), Found(pid), rgid, size)
    {
      hide MmStruct.Valid, MmStruct.Model, Krnl.Krnl.Valid, Separate, Krnl.Running, Spec.Alloc;
      Mine(Owned(), krnl.Repr, pid);
      var addr := krnl.Alloc(procs[pid], rgid, size);
      hide Tables;
      forall q | q in spaces && q != pid
        ensures spaces[q].Repr == old(spaces[q].Repr) && spaces[q].Valid()
        ensures spaces[q].Model() == old(spaces[q].Model())
      {
        Separated(old(Owned()), old(krnl.Repr), q, pid);
      }
      Settle(pid, old(Owned()), old(krnl.Repr), old(Repr));
    }

    /** ALLOC as one step of the whole memory. */
    method Alloc(pid: nat, rgid: nat, size: nat)
      requires Valid() && Allowed(Abs(), AllocOp(pid, Found(pid), rgid, size))
      modifies Repr
      ensures Valid() && fresh(Repr - old(Repr))
      ensures Abs() == Apply(old(Abs()), AllocOp(pid, Found(pid), rgid, size))
    {
      hide MmStruct.Valid, MmStruct.Model, Krnl.Krnl.Valid, Separate, Krnl.Running, Machine.Abs, Machine.Found;
      hide Spec.Alloc, Spec.Kmalloc, Spec.Free, Memory.Write, InitMm;
      AbsMeans();
      ghost var before := Abs();
      AllocInSpace(pid, rgid, size);
      OneSpaceChanged(before, pid);
    }

    /** FREE, seen from its one space. */
    method FreeInSpace(pid: nat, rgid: int) returns (ok: bool)
      requires Valid() && pid in procs && rgid != SYMBOLS
      modifies Repr
      ensures Valid() && fresh(Repr - old(Repr))
      ensures spaces == old(spaces) && procs == old(procs)
      ensures forall q :: q in spaces && q != pid ==> spaces[q].Model() == old(spaces[q].Model())
      ensures krnl.mram.free == old(krnl.mram.free) && krnl.mram.storage[..] == old(krnl.mram.storage[..])
      ensures krnl.SwapState() == old(krnl.SwapState())
      ensures |old(spaces[pid].Model()).sym| == SYMBOLS
      ensures spaces[pid].Model() == if 0 <= rgid < SYMBOLS then Spec.Free(old(spaces[pid].Model()), rgid) else old(spaces[pid].Model())
      ensures ok <==> 0 <= rgid < SYMBOLS && Live(old(spaces[pid].Model()).sym[rgid])
    {
      hide MmStruct.Valid, MmStruct.Model, Krnl.Krnl.Valid, Separate, Krnl.Running, Spec.Free;
      Mine(Owned(), krnl.Repr, pid);
      ok := krnl.Free(procs[pid], rgid);
      hide Tables;
      forall q | q in spaces && q != pid
        ensures spaces[q].Repr == old(spaces[q].Repr) && spaces[q].Valid()
        ensures spaces[q].Model() == old(spaces[q].Model())
      {
        Separated(old(Owned()), old(krnl.Repr), q, pid);
      }
      Settle(pid, old(Owned()), old(krnl.Repr), old(Repr));
    }

    /** FREE as one step of the whole memory; a refused index is no step. */
    method Free(pid: nat, rgid: int) returns (ok: bool)
      requires Valid() && pid in procs && rgid != SYMBOLS
      modifies Repr
      ensures Valid() && fresh(Repr - old(Repr)) && pid in old(Abs()).spaces && |old(Abs()).spaces[pid].sym| == SYMBOLS
      ensures if 0 <= rgid < SYMBOLS then
                Allowed(old(Abs()), FreeOp(pid, rgid)) && Abs() == Apply(old(Abs()), FreeOp(pid, rgid))
              else Abs() == old(Abs())
      ensures ok <==> 0 <= rgid < SYMBOLS && Live(old(Abs()).spaces[pid].sym[rgid])
    {
      hide MmStruct.Valid, MmStruct.Model, Krnl.Krnl.Valid, Separate, Machine.Abs;
      hide Spec.Alloc, Spec.Kmalloc, Spec.Free, Memory.Write, InitMm;
      AbsMeans();
      ghost var before := Abs();
      ok := FreeInSpace(pid, rgid);
      OneSpaceChanged(before, pid);
    }

    /** KMALLOC by process pid, seen from the kernel's space. */
    method KmallocInSpace(pid: nat, rgid: nat, size: nat)
      requires Valid() && pid in procs
      modifies Repr
      ensures Valid() && fresh(Repr - old(Repr))
      ensures spaces == old(spaces) && procs == old(procs) && Found(pid) == old(Found(pid))
      ensures forall q :: q in spaces && q != KERNEL ==> spaces[q].Model() == old(spaces[q].Model())
      ensures krnl.mram.storage[..] == old(krnl.mram.storage[..]) && krnl.SwapState() == old(krnl.SwapState())
      ensures (spaces[KERNEL].Model(), krnl.mram.free)
           == Spec.Kmalloc(old(spaces[KERNEL].Model()), old(krnl.mram.free), Found(pid), rgid, size)
    {
      hide MmStruct.Valid, MmStruct.Model, Krnl.Krnl.Valid, Separate, Krnl.Running, Spec.Kmalloc;
      Mine(Owned(), krnl.Repr, KERNEL);
      var addr := krnl.Kmalloc(procs[pid], rgid, size);
      hide Tables;
      forall q | q in spaces && q != KERNEL
        ensures spaces[q].Repr == old(spaces[q].Repr) && spaces[q].Valid()
        ensures spaces[q].Model() == old(spaces[q].Model())
      {
        Separated(old(Owned()), old(krnl.Repr), q, KERNEL);
      }
      Settle(KERNEL, old(Owned()), old(krnl.Repr), old(Repr));
    }

    /** KMALLOC as one step of the whole memory. */
    method Kmalloc(pid: nat, rgid: nat, size: nat)
      requires Valid() && pid in procs && size < 0x1_0000_0000
      modifies Repr
      ensures Valid() && fresh(Repr - old(Repr))
      ensures Allowed(old(Abs()), KmallocOp(Found(pid), rgid, size))
           && Abs() == Apply(old(Abs()), KmallocOp(Found(pid), rgid, size))
    {
      hide MmStruct.Valid, MmStruct.Model, Krnl.Krnl.Valid, Separate, Machine.Abs, Machine.Found;
      hide Spec.Alloc, Spec.Kmalloc, Spec.Free, Memory.Write, InitMm;
      AbsMeans();
      ghost var before := Abs();
      KmallocInSpace(pid, rgid, size);
      OneSpaceChanged(before, KERNEL);
    }

    /** pg_getval, seen from its one space. */
    method ReadInSpace(pid: nat, addr: nat) returns (data: Option<Byte>)
      requires Valid() && pid in spaces && krnl.Owns(spaces[pid]) && InDevices(krnl.Seen(spaces[pid]), KERNEL, addr)
      modifies Repr
      ensures Valid() && fresh(Repr - old(Repr))
      ensures spaces == old(spaces) && procs == old(procs)
      ensures forall q :: q in spaces && q != pid ==> spaces[q].Model() == old(spaces[q].Model())
      ensures krnl.Owns(spaces[pid]) && krnl.Seen(spaces[pid]) == Fetch(old(krnl.Seen(spaces[pid])), KERNEL, addr)
      ensures var phys := Krnl.Physical(spaces[pid].Model(), addr);
        && (phys.Some? ==> phys.value < krnl.mram.storage.Length)
        && data == if phys.Some? then Some(krnl.mram.storage[phys.value]) else None
    {
      hide MmStruct.Valid, MmStruct.Model, Krnl.Krnl.Valid, Separate, Krnl.Physical, InDevices, Fetch;
      Mine(Owned(), krnl.Repr, pid);
      data := krnl.GetVal(spaces[pid], addr);
      forall q | q in spaces && q != pid
        ensures spaces[q].Repr == old(spaces[q].Repr) && spaces[q].Valid()
        ensures spaces[q].Model() == old(spaces[q].Model())
      {
        Separated(old(Owned()), old(krnl.Repr), q, pid);
      }
      Settle(pid, old(Owned()), old(krnl.Repr), old(Repr));
    }

    /** What the kernel sees of one space is that space's part of the whole. */
    lemma SeenMeans(pid: nat)
      requires Valid() && pid in spaces && krnl.Owns(spaces[pid])
      ensures pid in Abs().spaces
      ensures krnl.Seen(spaces[pid]) == Krnl.Alone(Abs().spaces[pid], Abs().frames, Abs().storage, Abs().swap)
    {
      hide MmStruct.Valid, MmStruct.Model, Krnl.Krnl.Valid;
      AbsMeans();
    }

    lemma MineOwned(pid: nat)
      requires Valid() && pid in spaces
      ensures krnl.Owns(spaces[pid])
    {
      hide MmStruct.Valid, Krnl.Krnl.Valid, Separate;
      Mine(Owned(), krnl.Repr, pid);
    }

    /** pg_getval by a loaded process or by the kernel: one step of the whole memory, and the byte it meets. */
    method Read(pid: nat, addr: nat) returns (data: Option<Byte>)
      requires Valid() && pid in spaces && Allowed(Abs(), ReadOp(pid, addr))
      modifies Repr
      ensures Valid() && fresh(Repr - old(Repr))
      ensures Abs() == Apply(old(Abs()), ReadOp(pid, addr))
      ensures pid in Abs().spaces && data == FlatMemory.ByteAt(Abs(), pid, addr)
    {
      hide MmStruct.Valid, MmStruct.Model, Krnl.Krnl.Valid, Separate, Machine.Abs, FlatMemory.ByteAt, Krnl.Physical, Fetch, InDevices;
      hide Spec.Alloc, Spec.Kmalloc, Spec.Free, InitMm, Store, Krnl.Krnl.Owns, Krnl.Krnl.Seen;
      AbsMeans();
      MineOwned(pid);
      SeenMeans(pid);
      ghost var before := Abs();
      Local(before, pid, addr, 0);
      data := ReadInSpace(pid, addr);
      MineOwned(pid);
      SeenMeans(pid);
      OneSpaceChanged(before, pid);
      SeenByte(Abs(), pid, addr);
    }

    /** pg_setval, seen from its one space. */
    method WriteInSpace(pid: nat, addr: nat, value: Byte) returns (ok: bool)
      requires Valid() && pid in spaces && krnl.Owns(spaces[pid]) && InDevices(krnl.Seen(spaces[pid]), KERNEL, addr)
      modifies Repr
      ensures Valid() && fresh(Repr - old(Repr))
      ensures spaces == old(spaces) && procs == old(procs)
      ensures forall q :: q in spaces && q != pid ==> spaces[q].Model() == old(spaces[q].Model())
      ensures krnl.Owns(spaces[pid]) && krnl.Seen(spaces[pid]) == Store(old(krnl.Seen(spaces[pid])), KERNEL, addr, value)
      ensures ok == Krnl.Physical(spaces[pid].Model(), addr).Some?
    {
      hide MmStruct.Valid, MmStruct.Model, Krnl.Krnl.Valid, Separate, Krnl.Physical, InDevices, Store;
      Mine(Owned(), krnl.Repr, pid);
      ok := krnl.SetVal(spaces[pid], addr, value);
      forall q | q in spaces && q != pid
        ensures spaces[q].Repr == old(spaces[q].Repr) && spaces[q].Valid()
        ensures spaces[q].Model() == old(spaces[q].Model())
      {
        Separated(old(Owned()), old(krnl.Repr), q, pid);
      }
      Settle(pid, old(Owned()), old(krnl.Repr), old(Repr));
    }

    /** pg_setval as one step of the whole memory. */
    method Write(pid: nat, addr: nat, value: Byte) returns (ok: bool)
      requires Valid() && pid in spaces && Allowed(Abs(), WriteOp(pid, addr, value))
      modifies Repr
      ensures Valid() && fresh(Repr - old(Repr))
      ensures Abs() == Apply(old(Abs()), WriteOp(pid, addr, value))
      ensures ok == FlatMemory.Resident(Abs(), pid, addr)
    {
      hide MmStruct.Valid, MmStruct.Model, Krnl.Krnl.Valid, Separate, Machine.Abs, FlatMemory.Resident, Krnl.Physical, Fetch, Store, InDevices;
      hide Spec.Alloc, Spec.Kmalloc, Spec.Free, InitMm, Krnl.Krnl.Owns, Krnl.Krnl.Seen;
      AbsMeans();
      MineOwned(pid);
      SeenMeans(pid);
      ghost var before := Abs();
      Local(before, pid, addr, value);
      ok := WriteInSpace(pid, addr, value);
      MineOwned(pid);
      SeenMeans(pid);
      OneSpaceChanged(before, pid);
      SeenByte(Abs(), pid, addr);
    }

    /** A new process and its space enter the tables. */
    method Join(pid: nat, pcb: Queue.Pcb)
      requires Valid() && pid !in spaces && pcb.pid == pid
      requires pcb.mm.Valid() && pcb.mm.Repr !! Repr
      modifies this
      ensures Valid() && Repr == old(Repr) + pcb.mm.Repr
      ensures spaces == old(spaces)[pid := pcb.mm] && procs == old(procs)[pid := pcb]
    {
      hide MmStruct.Valid, MmStruct.Model, Krnl.Krnl.Valid, Separate, Tables;
      JoinSeparate(Owned(), krnl.Repr, pid, pcb.mm.Repr, Repr);
      TablesJoin(spaces, procs, krnl.mm, pid, pcb);
      spaces, procs := spaces[pid := pcb.mm], procs[pid := pcb];
      Repr := Repr + pcb.mm.Repr;
      assert Owned() == old(Owned())[pid := pcb.mm.Repr];
    }

    /** A process is loaded: it gets a fresh control block and an empty address space. */
    method LoadSpace(pid: nat, priority: nat, prio: nat, codeSize: nat)
      requires Valid() && pid !in spaces
      modifies this
      ensures Valid() && fresh(Repr - old(Repr))
      ensures spaces.Keys == old(spaces).Keys + {pid} && spaces[pid].Model() == InitMm(false)
      ensures forall q :: q in old(spaces) ==> spaces[q] == old(spaces)[q] && spaces[q].Model() == old(spaces[q].Model())
      ensures krnl.mram.free == old(krnl.mram.free) && krnl.mram.storage[..] == old(krnl.mram.storage[..])
      ensures krnl.SwapState() == old(krnl.SwapState())
    {
      hide MmStruct.Valid, MmStruct.Model, Krnl.Krnl.Valid, Separate, Tables, InitMm;
      var mm := new MmStruct(false);
      var pcb := new Queue.Pcb(pid, priority, prio, codeSize, mm);
      Join(pid, pcb);
    }

    /** Loading as one step of the whole memory. */
    method Load(pid: nat, priority: nat, prio: nat, codeSize: nat)
      requires Valid() && pid !in spaces
      modifies this
      ensures Valid() && fresh(Repr - old(Repr))
      ensures Allowed(old(Abs()), LoadOp(pid)) && Abs() == Apply(old(Abs()), LoadOp(pid))
    {
      hide MmStruct.Valid, MmStruct.Model, Krnl.Krnl.Valid, Separate, InitMm, Machine.Abs;
      hide Spec.Alloc, Spec.Kmalloc, Spec.Free, Memory.Write;
      AbsMeans();
      ghost var before := Abs();
      LoadSpace(pid, priority, prio, codeSize);
      AbsMeans();
      assert Abs().spaces == before.spaces[pid := InitMm(false)];
    }
  }

  /** The machine at start: RAM and swap of the given sizes, an empty running list, the kernel's space. */
  method StartMachine(maxSize: nat, swapSize: nat) returns (m: Machine)
    requires 2 * PAGESZ <= maxSize < MemPhy.INT_LIMIT && 2 * PAGESZ <= swapSize < MemPhy.INT_LIMIT
    ensures m.Valid() && fresh(m.Repr)
    ensures m.Abs() == Boot(maxSize, swapSize)
  {
    hide MmStruct.Valid, MmStruct.Model, MemPhy.Device.Valid, Krnl.Krnl.Valid, InitMm, Machine.Abs, Machine.Valid;
    var k := StartKernel(maxSize, swapSize);
    m := new Machine(k);
    m.AbsMeans();
    assert m.Abs().spaces == map[KERNEL := InitMm(true)];
  }

  method StartKernel(maxSize: nat, swapSize: nat) returns (k: Krnl.Krnl)
    requires 2 * PAGESZ <= maxSize < MemPhy.INT_LIMIT && 2 * PAGESZ <= swapSize < MemPhy.INT_LIMIT
    ensures k.Owns(k.mm) && fresh(k.Repr) && fresh(k.mm.Repr)
    ensures k.mm.Model() == InitMm(true)
    ensures k.mram.free == seq(maxSize / PAGESZ, i => i) && k.mram.storage[..] == seq(maxSize, _ => 0)
    ensures k.SwapState() == Swap(seq(swapSize / PAGESZ, i => i), seq(swapSize, _ => 0))
  {
    hide MmStruct.Valid, MmStruct.Model, MemPhy.Device.Valid, Krnl.Krnl.Valid, InitMm;
    var mram := new MemPhy.Device(maxSize, null);
    var mswp := new MemPhy.Device(swapSize, null);
    var running := new Queue.Queue();
    k := new Krnl.Krnl(mram, mswp, running);
  }

  /** An access of one process works on its own space, on RAM and on swap, and on nothing else. */
  lemma Local(s: Sys, pid: nat, addr: nat, value: Byte)
    requires pid in s.spaces
    ensures var a := Krnl.Alone(s.spaces[pid], s.frames, s.storage, s.swap);
      && (InDevices(s, pid, addr) <==> InDevices(a, KERNEL, addr))
      && (InDevices(s, pid, addr) ==>
            && KERNEL in Fetch(a, KERNEL, addr).spaces && KERNEL in Store(a, KERNEL, addr, value).spaces
            && Fetch(s, pid, addr) == Widened(s, pid, Fetch(a, KERNEL, addr))
            && Store(s, pid, addr, value) == Widened(s, pid, Store(a, KERNEL, addr, value)))
  {
    hide Evict, Popped, PagePresent, PteOf, PteFpn, PteSwpOff, PhysAddr, Pgn, SwappedOut;
  }

  /** A space's part put back into the whole. */
  function Widened(s: Sys, pid: nat, a: Sys): Sys {
    if KERNEL in a.spaces then Sys(s.spaces[pid := a.spaces[KERNEL]], a.frames, a.storage, a.swap) else s
  }

  lemma SeenByte(s: Sys, pid: nat, addr: nat)
    requires pid in s.spaces
    ensures var phys := Krnl.Physical(s.spaces[pid], addr);
      && (FlatMemory.Resident(s, pid, addr) <==> phys.Some?)
      && (phys.Some? && phys.value < |s.storage| ==> FlatMemory.ByteAt(s, pid, addr) == Some(s.storage[phys.value]))
      && (phys.None? ==> FlatMemory.ByteAt(s, pid, addr) == None)
  {
    hide PagePresent, PteOf, PteFpn, PhysAddr, Pgn;
  }

  lemma JoinSeparate(owned: map<nat, set<object>>, kernel: set<object>, pid: nat, mine: set<object>, all: set<object>)
    requires Separate(owned, kernel) && pid !in owned
    requires mine !! all && kernel <= all && forall p :: p in owned ==> owned[p] <= all
    ensures Separate(owned[pid := mine], kernel)
  {
  }
}
