# A verified model of the teaching operating system

The repository simulates a small operating system: a paging memory manager with a 64-bit, five-level
page table, a multi-level-queue scheduler with a dispatch loop on several CPUs, and a timer that
makes all of them move in slots. This project models the three together in Dafny and proves what
they promise each other.

How the files fit together:

* **Words and layouts.** `Bits.dfy` defines the C bit macros on unbounded naturals, one bit at a
  time. `Paging.dfy` proves from them what the entry fields, the address split and the table indices
  mean. The two page sizes stay apart: mapping works in 4096-byte pages, loads and stores in
  256-byte pages on a 22-bit bus.
* **The mutable memory manager.** Classes with the source's own fields and loops: `PageTable.dfy`
  (tables hung into each other on demand), `MemPhy.dfy` (RAM, swap and their linked free-frame
  lists), `PageFifo.dfy`, `VmArea.dfy` (the linked free-region list), `Mm.dfy` (`mm_struct`),
  `Krnl.dfy` (library calls, page faults and the memory system call) and `Machine.dfy` (all address
  spaces on one RAM and one swap device). Each method is proved equal to a function on values:
  `Space.dfy` for one address space, `Memory.dfy` for all of them.
* **What the memory manager guarantees, and when it does not.** `RegionSafety.dfy` and
  `RegionRuns.dfy` (regions never overlap, every byte is accounted for, and exactly which allocations
  are sound), `Frames.dfy` (what growths and evictions do to frames, and that every access stays inside
  the devices), `Isolation.dfy` (which runs keep frames unshared, and what all others keep),
  `FrameLimit.dfy` (the bound on RAM), `FrameLedger.dfy` and `OneProcess.dfy` (how many frames are
  neither free nor mapped), `FlatMemory.dfy` (loads and stores see one flat array per process for as
  long as its pages stay in place), `Faults.dfy` (every access byte by byte, which of them succeed, and
  the order of victims), `SampleRun.dfy` (a program of the repository that shares a frame).
* **Scheduling.** `Queue.dfy` and `Sched.dfy` are the array queues and the scheduler as classes,
  proved against value functions. `Fairness.dfy` and `SchedRuns.dfy` prove work conservation, exact
  shares and bounds for levels and processes; `Starvation.dfy` says who can be starved in the
  scheduler alone. `Cpus.dfy` and `CpuRuns.dfy` interleave any number of CPUs with the loader; reading
  an instruction and advancing the program counter are separate steps. `Turns.dfy` counts the
  dispatches of every process, `Waiting.dfy` bounds every wait, `Overtaking.dfy` reaches the bound, and
  `Stopping.dfy` says when a CPU stops.
* **Time.** `Timer.dfy` is the slot barrier with every lock, wait and signal a step of its own.
  `TimerSafety.dfy` holds its guarantees, `TimerStops.dfy` its end. `Loader.dfy` is the admission loop on its own;
  `LoaderRuns.dfy` and `SlotRuns.dfy` put the loader and the CPUs among the threads of the barrier.
* **The whole.** `System.dfy` and `SystemSafety.dfy` let the CPUs run programs on the shared memory
  and discharge what the memory manager assumes of its callers; `Instructions.dfy` says what each
  instruction does to memory.

`Lists.dfy`, `Seqs.dfy` and `Wrappers.dfy` are helpers. `dafny verify dfyconfig.toml` checks the
whole project.

## What is assumed

* RAM and the swap device have a size below 2^31 and at least two frames (`Machine.StartMachine`); a
  device of one frame or none is covered by `MemPhy.Device` alone. At most 8192 frames are needed for
  isolation, and `FrameLimit.IsolationIff` proves that bound exact.
* A fresh `mm_struct` is zeroed. The source takes it from plain `malloc` and clears only part of it.
* `malloc` and `calloc` succeed and return fresh memory. A process is identified by its pid, which is
  positive; the model keys the kernel's space by 0.
* Every library memory call is one atomic step, and so is every call of `get_proc`, `put_proc` and
  `add_proc`, which run under one lock.
* At most 50 processes are ever loaded, and levels are below 140.
* Programs use symbol indices inside the 30-entry table.

## Where the code does not do what one expects

The model follows the code in each case.

* A page fault (`src/libmem.c:240-296`) leaves the victim's entry present (`src/mm64.c:188-205`), and
  both copies go from RAM to swap (`src/mm-vm.c:49-53`). An absent page's entry is 0, so the swap frame
  given back is always frame 0, which is the next one taken: every victim is copied to the same place
  and goes on being read at RAM frame 0. `Isolation.ThroughoutIff` proves that a run from boot keeps
  frames unshared throughout if and only if none of its accesses takes that branch, which its caller
  can see beforehand; `Isolation.OnlyFrameZero` proves that whatever is evicted, frame 0 is the only
  one ever shared. `SampleRun.M0sSharesAFrame` shows the first store of `input/proc/m0s` doing it.
* Every growth maps three pages whatever its size (`src/mm-vm.c:166`), so later growths map pages
  again and their old frames are lost. `FrameLedger.AllAccountedIff` and `OneProcess.LosesNoneIff`
  say exactly when "free plus mapped is all of RAM" holds, and `OneProcess.M0sLosesTwoFrames` is the
  witness.
* `src/libmem.c:105` copies the break into an `int`, `src/libmem.c:963` takes the size as an `int`, and
  `src/sys_mem.c:60` passes it on as 32 bits, because that file includes the headers before `MM64` is
  defined. `RegionSafety.AllocSoundIff` and `RegionSafety.KmallocSoundIff` say exactly which
  allocations are sound; `RegionSafety.NegativeSize` and `RegionSafety.BreakTooFar` are witnesses.
* `src/queue.c:29-32` says a level is a FIFO because all its priorities are equal. The code compares
  the legacy `priority` field, which need not be equal inside a level. `Queue.HeadFirstIff` gives the
  exact condition for one dequeue. A process can therefore be overtaken by a later one;
  `Waiting.NobodyStarves` bounds how often, `Overtaking.BoundReached` reaches the bound, and
  `Starvation.StarvesIff` says when only the end of programs limits it.
* A CPU that finds nothing at the head of its loop goes straight to the next slot (`src/os.c:63-66`);
  only the call after a finished or put-back process leads to the test of `done`. `Stopping.StopsIff`
  is the exact condition. `Stopping.LastOneStops` shows that the CPU of the last process stops, and
  `Stopping.IdleForEver` that a CPU that is idle by then never does.
* `src/mm-vm.c:115-119` describes the in-place growth as registering the bytes below the new break as
  free; the code registers those above it (`RegionSafety.InPlaceFrees`). `RegionSafety.GrowthPlan` shows
  that a safe space never gets there.
* `src/sys_mem.c:43-45` expects callers that are not in the running list. `CpuRuns.CallerFound`
  shows there are none among dispatched processes.

## Model

| member | source | states |
|---|---|---|
| Bits.GetValField | include/mm.h:76 | GETVAL under GENMASK(h, l) reads exactly bits l..h, shifted down |
| Bits.SetValBits | include/mm.h:75 | SETVAL writes the value into bits l..h, keeps the other bits below 32 and drops those above |
| Bits.ClrBitBits | include/mm.h:73 | CLRBIT clears one bit, and with its 32-bit mask every bit from 32 up |
| Bits.SetBitBits | include/mm.h:72 | SETBIT raises one bit and keeps the rest |
| Bits.BitGenMask | include/bitops.h:27-28 | the masks have ones exactly at bits l..h, in 32 and in 64 bits |
| Bits.GetAfterSet | include/mm.h:75-76 | a field read back after SETVAL is the value cut to the field's width |
| Paging.DecodeAfterSetFpn | src/mm64.c:212-228 | over any stale word the entry decodes as present, unswapped, on the frame modulo 2^13; bits 13..29 survive |
| Paging.DecodeAfterSetSwap | src/mm64.c:188-205 | over any stale word the entry decodes to the 5-bit type and the 21-bit offset, and still counts as present |
| Paging.SwapReadsAsFrame | src/mm64.c:188-205 | an entry that names a swap frame, being still present, reads as RAM frame type + 32 * (offset mod 256) |
| Paging.FrameRoundTripIff | include/mm.h:33-34 | the frame written is the frame read back if and only if it is below 8192 |
| Paging.LowWordDecodes | src/mm64.c:235-246 | reading an entry as 32 bits loses nothing that is decoded from it |
| Paging.AddressSplit | include/mm.h:86-88 | page and offset are the base-256 digits of the address modulo 2^22 |
| Paging.SplitIff | include/mm.h:86-88 | two addresses agree modulo 2^22 if and only if page and offset agree |
| Paging.PhysAddrInjective | src/libmem.c:320 | two physical addresses meet if and only if frame and offset are the same |
| Paging.IndexDigits | src/mm64.c:155-180 | the five indices are the base-512 digits of the page number modulo 2^45 |
| PageTable.TableAdded | src/mm64.c:101-108 | hanging a zeroed table under an empty word represents the same flat table |
| PageTable.EntryWritten | src/mm64.c:263 | writing one leaf word changes exactly one entry of the flat table |
| PageTable.PageDir.constructor | src/mm64.c:444 | the fresh directory represents the empty map |
| PageTable.PageDir.NextTable | src/mm64.c:99-108 | one stanza: follows a link, or hangs one fresh table there, or fails exactly when none exists and create is off |
| PageTable.PageDir.Walk | src/mm64.c:93-144 | returns the word of that page, changes no entry; without create it changes nothing and fails only where the flat entry is zero |
| PageTable.PageDir.SetFpn | src/mm64.c:212-228 | exactly the entry of this page changes |
| PageTable.PageDir.SetSwap | src/mm64.c:188-205 | exactly the entry of this page changes |
| PageTable.PageDir.GetEntry | src/mm64.c:235-246 | returns the low 32 bits and changes no entry although it may allocate tables |
| PageTable.PageDir.SetEntry | src/mm64.c:253-266 | exactly the entry of this page changes |
| MemPhy.Device.constructor | src/mm-memphy.c:195-209 | zeroed storage, every frame free in ascending order; with one frame its link is whatever the memory held, with none so is the list |
| MemPhy.Device.Format | src/mm-memphy.c:125-151 | the linked free list is 0, 1, .., n - 1 from two frames on; what one frame and no frame leave behind |
| MemPhy.Device.GetFreeFp | src/mm-memphy.c:153-169 | takes the first free frame; fails, changing nothing, exactly when there is none |
| MemPhy.Device.PutFreeFp | src/mm-memphy.c:179-190 | puts the frame in front |
| MemPhy.AllocPagesRange | src/mm64.c:321-373 | all or nothing: the first n free frames in order, leaving the rest; or no frame and the free list reversed |
| MemPhy.GiveBack | src/mm64.c:335-341 | the roll-back loop turns the taken frames into a reversed free list |
| MemPhy.SwapCpPage | src/mm64.c:417-433 | every byte of the target frame becomes the byte at the same place of the source frame, and every other byte of the target device stays |
| PageFifo.Fifo.Enlist | src/mm64.c:495-504 | the page enters at the head |
| PageFifo.Fifo.FindVictim | src/libmem.c:929-955 | the last page leaves the list; nothing is found exactly when the list is empty |
| PageFifo.VictimsAreAPrefix | src/libmem.c:929-955 | over any interleaving, the pages enlisted are the victims so far followed by what still waits: FIFO |
| PageFifo.MissIffDrained | src/libmem.c:934-937 | a search fails if and only if every page enlisted has been a victim |
| VmArea.Area.constructor | src/mm64.c:446-468 | start, end and break coincide, with one empty free region |
| VmArea.Area.PushRegion | src/libmem.c:34-48 | the region enters at the head of the linked list |
| VmArea.Area.GetFreeVmrgArea | src/libmem.c:963-1021 | the in-place list operation takes from the first region that fits, and changes nothing when none does |
| VmArea.Area.CarveNode | src/libmem.c:983-1008 | the chosen node shrinks, becomes its successor's clone, or becomes an empty last node |
| RegionSafety.CarveExactIff | src/libmem.c:963-1021 | the old free addresses are the disjoint union of the region taken and the new free ones if and only if the size, an int, is not negative |
| RegionSafety.CarveKeeps | src/libmem.c:983-1008 | for a size that is not negative as an int, the list stays non-empty, bounded and pairwise disjoint, and apart from the region taken |
| RegionSafety.TakeKeeps | src/libmem.c:83-94 | for such a size, a first-fit hit has the size asked for, lies inside the space and overlaps no symbol and no free region |
| RegionSafety.FailureMark | src/libmem.c:968-1020 | a search succeeds if and only if some region fits and the first that does is not at the failure mark, which is how the caller reads it |
| RegionSafety.InitSafe | src/mm64.c:440-474 | a fresh space is safe and has lost no byte |
| RegionSafety.OneHolder | src/libmem.c:71-180 | in a safe space every byte is in at most one region, live or free, and every byte of a region is in the space |
| RegionSafety.GrowthPlan | src/mm-vm.c:113-162 | in a safe space every growth extends the end by the rounded size; the in-place case is unreachable |
| RegionSafety.InPlaceFrees | src/mm-vm.c:113-136 | where the wrapped break is not beyond the end, the end stays and exactly the bytes between break and end become free |
| RegionSafety.GrowthKeeps | src/mm-vm.c:146-169 | the bytes above the old break are inside the space and overlap nothing; end and break stay equal and aligned |
| RegionSafety.Allocated | src/libmem.c:71-133 | an allocation of a size its branch handles keeps every region disjoint and inside; it loses the region its index held and the rounding, nothing else |
| RegionSafety.AllocatedUnrecorded | src/libmem.c:543-573 | a kernel allocation outside the symbol table stays safe and loses its whole size |
| RegionSafety.UserIsKernel | src/libmem.c:105-125 | below 2^31 the int copy of the break changes nothing and both allocators agree |
| RegionSafety.AllocSoundIff | src/libmem.c:71-133 | a user allocation keeps the space safe and gets bytes that were free or are new if and only if a free region fits and the size is below 2^31, or none fits, its caller is found, the size has 32 bits and the break is below 2^31 |
| RegionSafety.KmallocSoundIff | src/libmem.c:523-596 | a kernel allocation does so if and only if a free region fits and the size is below 2^31, or none fits and the caller is found or nothing is recorded |
| RegionSafety.NegativeSize | src/libmem.c:963-1021 | a kernel request of 2^31 bytes records an inverted region and frees the addresses below the kernel's space |
| RegionSafety.BreakTooFar | src/libmem.c:105-125 | two requests of a new process reach a break that no longer fits an int, and the second region lies far outside the space |
| RegionSafety.RoundingBound | src/mm-vm.c:147 | a growth rounds up by at least 0 and less than 4096 bytes |
| RegionSafety.Freed | src/libmem.c:142-180 | freeing moves exactly the symbol's bytes to the free addresses and loses none |
| Mm.MmStruct.constructor | src/mm64.c:440-474 | the fresh mutable space is the initial value of the specification |
| Mm.MmStruct.VmapPageRange | src/mm64.c:290-312 | page i of the run gets frame i of the list and enters the page FIFO, and nothing else changes |
| Mm.MmStruct.VmMapRam | src/mm64.c:384-409 | all pages get frames or none does, and what the free list is left with, for any number of pages |
| Mm.MmStruct.IncVmaLimit | src/mm-vm.c:104-186 | every branch of the growth, on the space and on the free frames together |
| Mm.MmStruct.TakeFree | src/libmem.c:963-1021 | the free list is the only part of the space that changes |
| Mm.MmStruct.FreeSymbol | src/libmem.c:155-174 | a live symbol is cleared and enlisted; an empty one is refused |
| Frames.MapPagesSets | src/mm64.c:304-309 | page i of a mapped run decodes to frame i, whatever its entry held |
| Frames.MapPagesKeeps | src/mm64.c:304-309 | pages outside the run keep their entries |
| Isolation.StepIsolatesIff | src/libmem.c:71-368 | from an isolated state that runs from boot reach, any allocation, free, load, read or write keeps frames unshared between pages, spaces and the free list if and only if it does not evict: page absent, a page enlisted, a swap frame free |
| Frames.EvictionMoves | src/libmem.c:236-300 | an eviction puts the missing page on the victim's frame, leaves the victim present on the number its swap entry reads as, and moves nothing else |
| Frames.AlwaysZero | src/libmem.c:248-290 | the swap frame taken is frame 0 and is given back at once, so that number is always RAM frame 0 and the free swap frames never change |
| Frames.AccessInDevices | src/libmem.c:236-368 | where everything named exists, no access, faulting or not, touches a byte outside the two devices |
| Frames.StepContained | src/libmem.c:71-368 | every operation keeps that, evictions included and for any size of RAM |
| Frames.RunInDevices | src/libmem.c:71-368 | so after every run from boot any access of any process to any address stays inside |
| Faults.AccessHits | src/libmem.c:299-368 | an access whose page is there changes nothing but, for a store, the one byte at its offset of the page's frame |
| Faults.AccessEvicts | src/libmem.c:240-368 | one that evicts: the missing page enters the page FIFO and the oldest leaves it; the missing page gets the victim's frame, the victim frame 0, no other page moves; swap frame 0 receives the victim's 256 bytes and no other swap byte changes; a store changes its one byte |
| Faults.AccessFails | src/libmem.c:247-258 | one that can do neither changes nothing, except that without a swap frame the oldest page leaves the page FIFO |
| Faults.ServedIff | src/libmem.c:240-299 | an access finds its page in the end if and only if it was there, or a page was enlisted and a swap frame free |
| Faults.NeverFails | src/libmem.c:240-299 | once a space has an enlisted page and there is a swap frame, it keeps one over every run and no access of it fails |
| Faults.VictimsAreOldest | src/libmem.c:248-295 | in every run from boot the victims of a space are the first pages that its growths and faults enlisted, in order, and the rest is what its page FIFO holds |
| Faults.SwapHolds | src/libmem.c:265-290 | over every run the first swap frame holds the bytes the last victim had in RAM when it was evicted, and no other swap byte changes |
| Isolation.OnlyFrameZero | src/libmem.c:71-368 | after every run from boot by any number of processes, with any number of evictions: two pages share a frame only if it is frame 0, and no mapped frame is free |
| Isolation.ThroughoutIff | src/libmem.c:236-300 | a run from boot keeps frames isolated throughout if and only if no access of it finds its page absent, a page enlisted and a swap frame free |
| FrameLimit.TooManyFrames | include/mm.h:33-34 | with more than 8192 frames there is a run without any access that puts two pages of one process on one frame |
| FrameLimit.IsolationIff | include/mm.h:33-34 | every run from boot without an eviction keeps frames isolated if and only if RAM has at most 8192 of them |
| SampleRun.M0sSharesAFrame | src/libmem.c:240-296 | from boot, the five memory operations of input/proc/m0s before its first store keep frames isolated, and that store evicts and puts pages 0 and 16 on frame 0 |
| FrameLedger.StepLedger | src/mm-vm.c:163-169 | each step loses exactly the frames of the pages its growth maps again, frame 0 apart; evictions lose and find none |
| FrameLedger.RunLedger | src/mm-vm.c:163-169 | over every run, evictions or not: frames lost at the end are those lost before plus those growths met |
| FrameLedger.AllAccountedIff | src/mm-vm.c:163-169 | after any run from boot free plus mapped is all of RAM if and only if no growth of the run maps a page again that has a frame of its own |
| FrameLedger.OwedIsLost | src/mm-vm.c:163-169 | without evictions the loss is exactly the sum, over the growths of any processes, of what the growth before it in the same space fell short of three pages |
| OneProcess.ExactLoss | src/mm-vm.c:163-169 | one process that only allocates loses exactly the sum, over all requests but the last, of what each falls short of three pages |
| OneProcess.LosesNoneIff | src/mm-vm.c:163-169 | it loses none if and only if every request but the last rounds to at least 12288 bytes |
| OneProcess.M0sLosesTwoFrames | src/mm-vm.c:163-169 | the first two requests of input/proc/m0s lose two frames |
| RegionRuns.RunSafe | src/libmem.c:71-180 | over every run whose allocations are sound all regions stay safe, and the lost bytes of a space are exactly what its steps account for |
| RegionRuns.SoundIff | src/libmem.c:71-133 | from a safe memory an allocation is sound if and only if it meets the condition the runs ask for |
| RegionRuns.StepSafe | src/mm-vm.c:146-162 | one step keeps every space safe, loses exactly what it accounts for, and moves a break by no more than its size and the rounding |
| RegionRuns.LossBounds | src/libmem.c:83-133 | a step loses no negative amount, and less than a page beyond the region it overwrites |
| RegionRuns.EndsFromBoot | src/mm-vm.c:149-158 | in every run from boot, sound or not, no space ever ends below its start |
| RegionRuns.CarveOnlyLast | src/libmem.c:983-1008 | a region that is used up leaves the list unless it is the last, and only the last is ever empty |
| RegionRuns.OnlyLastFromBoot | src/libmem.c:34-48 | over every sound run from boot free lists hold no empty region but perhaps a last one |
| FlatMemory.SameByteIff | src/libmem.c:309-368 | an access meets the byte of a page whose frame is not shared if and only if process and address modulo 2^22 are the same |
| FlatMemory.StoreIsFlat | src/libmem.c:344-368 | a store changes a byte on a frame that is not shared only if it is its own process's store to it |
| FlatMemory.ByteStep | src/libmem.c:71-368 | so does any operation of anybody, evictions too, that keeps the page's entry |
| FlatMemory.FlatRun | src/libmem.c:71-368 | over any run, evictions too, a resident byte off frame 0 is the last value its process stored there for as long as its page keeps its entry; without evictions frame 0 is no exception |
| FlatMemory.FlatArray | src/libmem.c:309-368 | after any interleaving of accesses that find their pages a resident byte is the last value its process stored there |
| FlatMemory.EvictionBytes | src/libmem.c:236-300 | across an eviction the missing page shows the victim's frame, the victim shows RAM frame 0, and every other address shows what it did |
| Krnl.RegRoundTrip | src/libmem.c:326-333 | a byte survives the trip through a 64-bit system-call register |
| Krnl.Krnl.FindCaller | src/sys_mem.c:30-41 | succeeds if and only if some entry of the running list has the pid |
| Krnl.Krnl.SysInc | src/sys_mem.c:58-61 | for a caller that is found the growth by the size cut to 32 bits, and nothing for any other |
| Krnl.Krnl.Alloc | src/libmem.c:71-133 | space, free frames and address as specified; the kernel's current space is put back |
| Krnl.Krnl.Kmalloc | src/libmem.c:523-596 | the kernel's space and the free frames as specified |
| Krnl.Krnl.Free | src/libmem.c:142-180 | the space as specified, and which indices are refused |
| Krnl.Krnl.GetPage | src/libmem.c:236-300 | the frame of a page that is in, or the whole fault branch, on the space, its page FIFO, RAM and both ends of the swap device |
| Krnl.Krnl.Fault | src/libmem.c:240-296 | no victim; a victim lost for want of a swap frame; or the eviction with its two copies: the state of the specification that Faults.AccessEvicts and Faults.AccessFails spell out |
| Krnl.Krnl.GetVal | src/libmem.c:309-336 | the byte behind the page that pg_getpage leaves, after the changes it makes |
| Krnl.Krnl.SetVal | src/libmem.c:344-368 | changes exactly the byte behind that page, after the changes pg_getpage makes |
| Machine.Machine.Alloc | src/libmem.c:71-133 | with all its in-place updates, one step of the whole memory: no other space changes |
| Machine.Machine.Free | src/libmem.c:142-180 | the same for a free, and a refused index changes nothing |
| Machine.Machine.Kmalloc | src/libmem.c:523-596 | the same for a kernel allocation |
| Machine.Machine.Read | src/libmem.c:309-336 | one step of the whole memory, faults included, and the byte of the process's flat memory after it |
| Machine.Machine.Write | src/libmem.c:344-368 | one step of the whole memory, faults included; it fails exactly when the page is absent afterwards |
| Machine.Machine.Load | src/os.c:142-143 | a process enters with an empty space and no other space changes |
| Machine.Machine.Dispatch | src/sched.c:115-116 | a dispatched process enters the kernel's running list; no space, frame or byte changes |
| Machine.Machine.Preempt | src/sched.c:137-138 | a put-back process leaves it; no space, frame or byte changes |
| Machine.StartMachine | src/os.c:119-125 | the machine at start is the boot state of the value-level memory |
| Queue.HeadFirstIff | src/queue.c:37-46 | a queue gives up its head if and only if nothing behind it has a smaller legacy priority |
| Queue.Queue.Enqueue | src/queue.c:12-22 | appends, or silently drops when 50 are waiting |
| Queue.Queue.Dequeue | src/queue.c:24-54 | removes the first process of the smallest legacy priority and keeps the order of the rest |
| Queue.Queue.Purge | src/queue.c:56-76 | removes the first occurrence, or reports that there is none |
| Sched.Scheduler.InitScheduler | src/sched.c:40-54 | all queues empty, budgets 140 - p, cursor at the start |
| Sched.StartScheduler | src/sched.c:16-54 | a scheduler built from nothing starts with empty queues, full budgets and the cursor at level 0 |
| Sched.Scheduler.FindLevel | src/sched.c:88-113 | the search loop stops at the level the value-level search finds |
| Sched.Scheduler.GetMlqProc | src/sched.c:73-120 | process, queues, cursor and running list as the value-level dispatch says |
| Sched.Scheduler.PutMlqProc | src/sched.c:131-141 | out of the running list, to the end of its own level |
| Sched.Scheduler.AddMlqProc | src/sched.c:148-157 | to the end of its own level |
| Fairness.ScanConserves | src/sched.c:77-113 | the search serves the first busy level cyclically from the cursor; if there is none, the cursor is back with count zero |
| Fairness.NothingIffAllEmpty | src/sched.c:73-120 | no process is returned if and only if all 140 queues are empty |
| Fairness.ExactShare | src/sched.c:73-120 | any window of one round serves each busy level p exactly 140 - p times, from any cursor |
| Fairness.FullRound | src/sched.c:44-48 | a round of all levels is 9870 dispatches |
| Fairness.NoLevelStarves | src/sched.c:88-113 | a waiting level is served within 9871 - (140 - p) calls, whatever the others do |
| Fairness.BoundIsTight | src/sched.c:88-113 | from the cursor just past a level, with all levels waiting, that call is the first that serves it |
| SchedRuns.RunServes | src/sched.c:73-157 | put-backs and admissions never move the cursor: a run serves what the cursor alone dictates |
| SchedRuns.RunExactShare | src/sched.c:73-157 | exact shares in any run of dispatches, put-backs and admissions that keeps the same levels busy |
| SchedRuns.ProcessNeverStarves | src/sched.c:73-157 | if nothing that waits in its level or arrives there has a smaller legacy priority, a process is dispatched within one bound plus one for every equal process ahead of it |
| Starvation.StarvesIff | src/queue.c:38-46 | an environment that can put processes back without end keeps a waiting process waiting through any number of dispatches from that bound on if and only if a smaller process of its level waits, is held or is still to come |
| Starvation.RivalBlocks | src/queue.c:38-46 | while a smaller process waits in its level no dispatch takes a process, in any state |
| CpuRuns.IsArena | src/os.c:51-151 | in every state that CPUs and loader reach there is room in every queue for all that is held or still to be loaded |
| Cpus.StepOwned | src/os.c:51-151 | no step of any CPU or of the loader loses, duplicates or misplaces a process |
| Cpus.HoldersDiffer | src/os.c:51-102 | no two CPUs hold the same process |
| Cpus.StepFetch | src/cpu.c:69-70 | between a CPU's reading of an instruction and its advance of the counter nobody else moves that counter, although no lock protects it |
| Cpus.StepTrace | src/cpu.c:61-70 | every step keeps traces equal to the instruction numbers below the program counter, given what StepFetch keeps |
| Cpus.StepSlices | src/os.c:55-102 | every step keeps the countdown of the time slice |
| Cpus.StepKeeps | src/os.c:51-151 | the system invariant is kept by every step |
| CpuRuns.NeverStuck | src/os.c:57-102 | exactly the CPUs that have not stopped, and pending loads, can move |
| Stopping.StopsIff | src/os.c:82-85 | in every reachable state a step stops a CPU if and only if it is that CPU's step after a call that left it without a process, and the loader is done then |
| Stopping.StoppedMeans | src/os.c:57-102 | a CPU that has stopped was given a process before, its last call of get_proc found all 140 queues empty, and every process is loaded |
| Stopping.LastOneStops | src/os.c:67-88 | the CPU that has completed the last process stops after three steps of its own, whatever the others do |
| Stopping.IdleForEver | src/os.c:60-66 | a CPU that is idle once every process has finished never stops, on any interleaving |
| Stopping.NoProcessNoStop | src/os.c:60-66 | with no process at all no CPU ever stops |
| Stopping.DoneIff | src/os.c:154 | the loader's last step sets the flag, and nothing clears it |
| Stopping.SlotEnds | src/os.c:57-101 | whatever the others do, a CPU needs at most five steps of its own until it calls next_slot or stops |
| CpuRuns.ExactlyOnePlace | src/os.c:57-102 | a loaded process waits once at its own level, or is held by one CPU, or is finished; any other process is nowhere |
| CpuRuns.RunningListExact | src/sched.c:115-141 | the running list is exactly the held and the finished processes, without duplicates, never above 50 |
| CpuRuns.CallerFound | src/sys_mem.c:30-41 | the caller search succeeds for every dispatched process and finds that process |
| CpuRuns.ExecutedInOrder | src/cpu.c:61-70 | instructions run once each and in order across all CPUs; a finished process has run them all |
| Turns.PutBackBound | src/os.c:67-101 | however CPUs interleave, a process is put back fewer times than its program has slices, and when finished exactly one time fewer |
| Turns.DispatchCount | src/os.c:57-101 | it is dispatched at most once for every slice its program begins, and exactly that often when it is finished |
| Waiting.NobodyStarves | src/os.c:57-101 | from every reachable state, whatever the legacy priorities, a waiting process is dispatched before the scheduler has been called more often than all the other programs have slices to begin |
| Waiting.PriorityBound | src/queue.c:37-46 | once every smaller process of its level has finished it is dispatched within the scheduler's own bound |
| Overtaking.BoundReached | src/queue.c:37-46 | with two processes on one CPU the first of these bounds is reached: the process loaded first waits exactly that long |
| CpuRuns.SharedRepeats | src/cpu.c:69-70 | two CPUs that held the same process could execute one instruction twice: ownership is what prevents it |
| CpuRuns.SliceBound | src/os.c:67-101 | at most time_slot instructions between a dispatch and the next put-back or finish; an idle CPU has no time left |
| CpuRuns.SliceIff | src/os.c:92-100 | no CPU ever overdraws its time slice if and only if the slice is positive |
| Loader.LdRoutine | src/os.c:129-151 | the loop admits process i exactly in slot max(start_i, previous + 1) |
| LoaderRuns.AdmitsInSlot | src/os.c:129-151 | in every interleaving of the barrier's threads, process i is admitted exactly when the clock shows that slot |
| LoaderRuns.ClockDecides | src/os.c:129-151 | before that slot no interleaving has admitted it, after it every one has |
| LoaderRuns.LoaderMoves | src/os.c:129-157 | in its slot the loader always has a step of its own, and it detaches only after the last process |
| LoaderRuns.LoaderSoon | src/os.c:131-155 | each of its own steps hands the slot over or brings it closer to that: it never spins |
| SlotRuns.OnePerSlot | src/os.c:57-102 | with the CPUs among the threads of the barrier, every CPU executes at most one instruction in a slot, in every interleaving |
| SlotRuns.AllCounted | src/cpu.c:61-70 | the program counters of all processes add up to the instructions that the CPUs have executed |
| Loader.ClosedForm | src/os.c:129-151 | that slot is the largest of start_j + (i - j) over all j up to i, for unsorted start times too |
| Loader.Earliest | src/os.c:129-151 | no schedule that honours the start times, one process a slot in order, is ahead of the loader |
| Loader.OnTimeIff | src/os.c:129-151 | everybody starts in the slot asked for if and only if start times strictly increase |
| Timer.StepKeeps | src/timer.c:29-111 | every lock, wait, wake-up and signal of any thread keeps the barrier invariant |
| TimerSafety.BarrierSafe | src/timer.c:34-63 | no device is in slot t + 1 before every attached device has ended slot t |
| TimerSafety.ClockStable | src/timer.c:52-55 | the clock never moves while a device is inside its slot, and shows that slot |
| TimerSafety.ReturnsOneLater | src/timer.c:71-87 | each return from next_slot is exactly one tick after its call and one slot further |
| TimerSafety.CallRemembered | src/timer.c:71-87 | no other step completes a slot or forgets the time of a call |
| TimerSafety.NoLostWakeUp | src/timer.c:38-63 | a sleeper whose condition has come true is about to be signalled by a thread that still holds the lock |
| TimerSafety.DoneWritersExclude | src/timer.c:60 | the set and the clear of done never run together although they use different locks |
| TimerSafety.NoMutualWait | src/timer.c:39-85 | the timer never sleeps on a device that sleeps on the timer |
| TimerSafety.MutualExclusion | src/timer.c:37-63 | each lock has one holder |
| TimerSafety.OnlyWorkBlocks | src/timer.c:29-111 | if no thread can move, the timer waits for a device busy in its slot, or everything is over |
| TimerSafety.StopsLast | src/timer.c:64-66 | the timer ends only after every device has detached |
| TimerStops.LastRound | src/timer.c:29-67 | from the head of the timer's loop with every device detached, on every run: the clock moves at most once more, the timer thread is not blocked until it has stopped, and it stops by itself after exactly one round of steps |
| TimerStops.StopsSoon | src/timer.c:29-67 | from anywhere in its loop: at most two more ticks, and it has stopped after at most two rounds of steps |
| System.EffectAllowed | src/sys_mem.c:30-41 | every memory operation a CPU's instruction makes is one the memory handles, whatever was evicted before |
| Instructions.InstructionDone | src/cpu.c:61-130 | memory changes exactly as the instruction executed says: a store puts the value at symbol start plus offset and keeps every other byte, a read fetches that page if and only if symbol and offset are valid, an allocation or a free changes the named symbol of its own process or of the kernel, and calc nothing |
| Instructions.OtherwiseQuiet | src/os.c:57-151 | no other step touches memory, except that loading gives the process an empty space |
| System.NothingBlocks | src/os.c:51-151 | so every interleaving of the CPUs is one of the whole system: no step is ever blocked by memory, and every memory system call finds its caller |
| System.SystemIsolated | src/os.c:51-151 | over any interleaving of any programs on any CPUs from the start: only frame 0 is ever shared, and frames are isolated all the time if and only if no instruction evicts a page |
| System.EffectsRun | src/os.c:51-151 | every interleaving of the CPUs acts on memory as one run of memory operations, so all results on those runs carry over |
| System.SystemFlat | src/os.c:51-151 | from any such state on, whatever is evicted, a resident byte off frame 0 is the last value its own process stored there while its page keeps its entry |
| SystemSafety.SystemSafe | src/os.c:51-151 | if the programs' requests fit, no interleaving of the CPUs is blocked and regions are safe in every state it reaches |

## Left out

* SYSMEM_MAP_OP and `vmap_pgd_memset`: they write a fixed pattern over entries. The user SYSCALL
  instruction that could issue it, or a swap or an I/O operation, is left out with it.
* Kernel byte access and copies between user and kernel: kernel addresses are cut to 22 bits on
  access but mapped in full, so these always take the fault path.
* Kernel cache pools: the pool table is null in every reachable state.
* The copy of kernel directory entries into `krnl_pgd` (`src/libmem.c:578-593`): nothing reads it.
* `free_pcb_memph`: never called.
* Interleaving inside `__kmalloc`, which takes no lock: each memory call is one step.
* Symbol index 30, which the checks in `__free`, `__read` and `__write` let through, and indices
  beyond the table in `__alloc`, which has no check: both leave the table's storage.
* The value that `__read` hands back when its page could not be brought in: the source leaves the
  byte unset.
* Swap devices other than the active one, and sequential-access devices.
* More than one memory area in a space, and `validate_overlap_vm_area` beyond that.
* Allocation failure and address reuse of `malloc`; a finished process's control block is freed by the
  source while it stays in the running list, and the model keeps it.
* Fairness of the thread scheduler: what is proved of ends counts the steps that a thread takes itself.
* Configuration and program files, printing, the system-call table, the non-MLQ scheduler path, and
  the older `src/mem.c`, `src/mm.c` and `src/paging.c`.
- Bits.ClrBitBits: the macro is applied to 64-bit words with 32-bit masks only, as in the source; other widths are not covered.
- Krnl.Krnl.Alloc: symbol indices inside the table only, because the source writes outside its storage for others.
- Krnl.Krnl.Free: every index but 30, for which the source reads and clears what lies behind the table.
- Machine.Machine.Alloc: symbol indices inside the table only, as for Krnl.Krnl.Alloc.
- Machine.Machine.Free: every index but 30, as for Krnl.Krnl.Free.
- RegionSafety.CarveKeeps: sizes that are not negative as an int; RegionSafety.CarveExactIff shows both halves.
- RegionSafety.TakeKeeps: sizes below 2^31; RegionSafety.AllocSoundIff says what happens to the others.
- RegionSafety.GrowthPlan: sizes below 2^32, since the system call cuts every size to that.
- RegionSafety.KmallocSoundIff: sizes below 2^32, the type of the argument, and kernel breaks below 2^63.
- RegionRuns.RunSafe: covers runs whose allocations are sound, RegionRuns.SoundIff saying exactly which are; SystemSafety.SystemSafe discharges the condition for whole systems.
- FrameLedger.OwedIsLost: runs without evictions, which map pages anywhere above a break; FrameLedger.RunLedger covers the others by what is mapped.
- FlatMemory.FlatRun: after an eviction nothing is promised of bytes on frame 0, which several pages may share then.
- Machine.StartMachine: devices of at least two frames, because with fewer the source leaves the free list undefined; MemPhy.Device.Format shows what it leaves.
- Starvation.StarvesIff: the starving half needs put-backs without end, which finite programs do not make; Waiting.NobodyStarves is the statement for the CPUs.
- CpuRuns.IsArena: a statement about states; Turns.PutBackBound and Waiting.NobodyStarves are those about runs.
- SchedRuns.RunExactShare: counts dispatches per level, not per process inside a level.
- CpuRuns.SliceIff: the bound is stated for configurations with at least one process, since without one no CPU ever dispatches.
