/** What the barrier of src/timer.c guarantees in every reachable state. */
module TimerSafety {
  import opened Timer

  // ----- Runs -----

  ghost predicate CanRun(s: State, steps: seq<Step>)
    decreases |steps|
  {
    steps != [] ==> Enabled(s, steps[0]) && CanRun(Do(s, steps[0]), steps[1..])
  }

  ghost function RunAll(s: State, steps: seq<Step>): State
    requires CanRun(s, steps)
    decreases |steps|
  {
    if steps == [] then s else RunAll(Do(s, steps[0]), steps[1..])
  }

  /** The invariant holds after any run of any number of devices. */
  lemma {:induction false} RunKeeps(s: State, steps: seq<Step>)
    requires Inv(s) && CanRun(s, steps)
    ensures Inv(RunAll(s, steps))
    decreases |steps|
  {
    hide Inv, Do, Enabled;
    if steps != [] {
      StepKeeps(s, steps[0]);
      RunKeeps(Do(s, steps[0]), steps[1..]);
    }
  }

  ghost predicate Reachable(s: State) {
    exists n, steps :: CanRun(Init(n), steps) && s == RunAll(Init(n), steps)
  }

  lemma ReachableInv(s: State)
    requires Reachable(s)
    ensures Inv(s)
  {
    hide Inv, Init;
    var n, steps :| CanRun(Init(n), steps) && s == RunAll(Init(n), steps);
    InitInv(n);
    RunKeeps(Init(n), steps);
  }

  // ----- The barrier -----

  /** No device is in slot t + 1 before every device still attached has ended slot t. */
  lemma {:induction false} BarrierSafe(s: State, i: nat, j: nat, t: nat)
    requires Reachable(s) && i < |s.devs| && j < |s.devs|
    requires InSlot(s.devs[i].pc) && s.devs[i].slot == t + 1 && !s.devs[i].fsh && !s.devs[j].fsh
    ensures s.devs[j].slot > t || (s.devs[j].slot == t && Ended(s.devs[j].pc))
  {
    ReachableInv(s);
    assert DevOk(s.time, s.pc, s.devs[i], i) && DevOk(s.time, s.pc, s.devs[j], j);
  }

  /** The clock never moves while a device is inside its slot, and inside slot t it shows t. */
  lemma {:induction false} ClockStable(s: State, step: Step, i: nat)
    requires Reachable(s) && Enabled(s, step) && i < |s.devs| && InSlot(s.devs[i].pc)
    ensures s.time == s.devs[i].slot
    ensures Do(s, step).time == s.time
  {
    ReachableInv(s);
    assert DevOk(s.time, s.pc, s.devs[i], i);
  }

  /** next_slot returns exactly one tick after it was called, and completes exactly one slot. */
  lemma {:induction false} ReturnsOneLater(s: State, i: nat)
    requires Reachable(s) && i < |s.devs| && s.devs[i].pc.Returning?
    ensures Enabled(s, DevGo(i))
    ensures var s' := Do(s, DevGo(i));
      s'.devs[i].pc.Work? && s'.time == s.devs[i].called + 1 == s'.devs[i].slot == s.devs[i].slot + 1
  {
    ReachableInv(s);
    assert DevOk(s.time, s.pc, s.devs[i], i);
  }

  /** Until it returns, next_slot remembers the time of its call; no other step completes a slot. */
  lemma {:induction false} CallRemembered(s: State, step: Step, i: nat)
    requires Enabled(s, step) && i < |s.devs|
    ensures var d, d' := s.devs[i], Do(s, step).devs[i];
      && (d'.slot == d.slot || (step == DevGo(i) && d.pc.Returning?))
      && (d'.called == d.called || (step == CallNextSlot(i) && d'.called == s.time))
  {
    if step.DevGo? {
      hide TimerAdvance;
    } else if step.TimerGo? {
      hide DevAdvance;
    }
  }

  // ----- Wake-ups -----

  /**
   A sleeping thread whose condition has become true is about to be signalled by the thread that
   made it true, which still holds the lock: no wake-up is lost.
   */
  lemma {:induction false} NoLostWakeUp(s: State, i: nat)
    requires Reachable(s) && i < |s.devs|
    ensures s.devs[i].pc.Asleep? && !s.devs[i].done ==> s.pc == Signal(i) && s.devs[i].timer == TimerThread
    ensures s.pc == Sleep(i) && (s.devs[i].done || s.devs[i].fsh)
            ==> (s.devs[i].pc.Signalling? || s.devs[i].pc.DetachSignalling?) && s.devs[i].event == Device
  {
    ReachableInv(s);
    assert DevOk(s.time, s.pc, s.devs[i], i);
  }

  /** The two writers of `done` hold different locks, yet are never at their writes together. */
  lemma {:induction false} DoneWritersExclude(s: State, i: nat)
    requires Reachable(s) && i < |s.devs|
    ensures !(s.pc == Clear(i) && s.devs[i].pc.Setting?)
  {
    ReachableInv(s);
    assert DevOk(s.time, s.pc, s.devs[i], i);
  }

  /** The timer never waits for a device that waits for the timer. */
  lemma {:induction false} NoMutualWait(s: State, i: nat)
    requires Reachable(s) && i < |s.devs|
    ensures !(s.pc == Sleep(i) && s.devs[i].pc.Asleep?)
  {
    ReachableInv(s);
    assert DevOk(s.time, s.pc, s.devs[i], i);
  }

  /** Each lock has one holder, the thread whose program counter is between lock and unlock. */
  lemma {:induction false} MutualExclusion(s: State, i: nat)
    requires Reachable(s) && i < |s.devs|
    ensures !(HoldsEvent(s.devs[i].pc) && (s.pc == Test(i) || s.pc == Count(i)))
    ensures !(HoldsTimer(s.devs[i].pc) && (s.pc == Clear(i) || s.pc == Signal(i) || s.pc == Unlock(i)))
  {
    ReachableInv(s);
    assert DevOk(s.time, s.pc, s.devs[i], i);
  }

  // ----- No deadlock -----

  /** No thread can move on its own: spurious wake-ups, new calls and stop_timer are left aside. */
  ghost predicate AtRest(s: State) {
    !TimerEnabled(s) && forall i :: 0 <= i < |s.devs| ==> !DevEnabled(s.devs[i])
  }

  lemma RestingDevice(s: State, i: nat)
    requires Inv(s) && AtRest(s) && i < |s.devs|
    ensures s.pc == Sleep(i) ==> s.devs[i].pc.Work?
    ensures s.pc != Wait(i) && s.pc != Wake(i) && s.pc != Want(i)
    ensures s.pc.Stopped? ==> s.devs[i].pc.Exited?
  {
    assert DevOk(s.time, s.pc, s.devs[i], i) && !DevEnabled(s.devs[i]);
  }

  /**
   The system comes to rest only where it should: the timer waits for a device that is busy
   inside its slot, or everything is over.  So no set of threads ever waits for each other, and
   once every attached device has called next_slot they all go on.
   */
  lemma {:induction false} OnlyWorkBlocks(s: State)
    requires Reachable(s) && AtRest(s)
    ensures || (s.pc.Sleep? && s.pc.i < |s.devs| && s.devs[s.pc.i].pc.Work?)
            || (s.pc.Stopped? && forall i :: 0 <= i < |s.devs| ==> s.devs[i].pc.Exited?)
  {
    ReachableInv(s);
    if HasIndex(s.pc) {
      RestingDevice(s, s.pc.i);
    }
    forall i | 0 <= i < |s.devs|
      ensures s.pc.Stopped? ==> s.devs[i].pc.Exited?
    {
      RestingDevice(s, i);
    }
  }

  /** The timer ends only after every device has detached, so it leaves nobody waiting. */
  lemma {:induction false} StopsLast(s: State, i: nat)
    requires Reachable(s) && i < |s.devs| && s.pc.Stopped?
    ensures s.devs[i].fsh && !s.devs[i].pc.Asleep?
  {
    ReachableInv(s);
    assert DevOk(s.time, s.pc, s.devs[i], i);
  }
}
