/**
 The loader thread as one device of the slot barrier: its loop reads the clock, admits and calls
 next_slot while the timer thread and every other device take their own steps in between.
 */
module LoaderRuns {
  import opened Timer
  import opened Loader

  // ----- The loader among the threads of the barrier -----

  /** Where ld_routine is between its calls of next_slot; inside one, the device's own counter says where. */
  datatype LdPc = Checking | Calling | Admitting | Gone

  /** The barrier, and the loader's variables: i, and the times at which it called add_proc. */
  datatype Sys = Sys(t: State, pc: LdPc, i: nat, admitted: seq<nat>)

  /** Check reads current_time; Other is any step of any thread that ld_routine does not decide. */
  datatype LdStep = Check | Call | Admit | Quit | Other(step: Step)

  predicate LdEnabled(start: seq<nat>, d: nat, s: Sys, step: LdStep) {
    match step
    case Check => s.pc.Checking? && s.i < |start| && d < |s.t.devs| && s.t.devs[d].pc.Work?
    case Call => s.pc.Calling? && Enabled(s.t, CallNextSlot(d))
    case Admit => s.pc.Admitting? && d < |s.t.devs| && s.t.devs[d].pc.Work?
    case Quit => s.pc.Checking? && s.i >= |start| && Enabled(s.t, Detach(d))
    case Other(step) => Enabled(s.t, step) && step != CallNextSlot(d) && step != Detach(d)
  }

  function LdDo(start: seq<nat>, d: nat, s: Sys, step: LdStep): Sys
    requires LdEnabled(start, d, s, step)
  {
    match step
    case Check => s.(pc := if s.t.time < start[s.i] then Calling else Admitting)
    case Call => s.(t := Do(s.t, CallNextSlot(d)), pc := Checking)
    case Admit => s.(admitted := s.admitted + [s.t.time], i := s.i + 1, pc := Calling)
    case Quit => s.(t := Do(s.t, Detach(d)), pc := Gone)
    case Other(step) => s.(t := Do(s.t, step))
  }

  function Start(n: nat): Sys {
    Sys(Init(n), Checking, 0, [])
  }

  predicate CanRun(start: seq<nat>, d: nat, s: Sys, steps: seq<LdStep>)
    decreases |steps|
  {
    steps != [] ==> LdEnabled(start, d, s, steps[0]) && CanRun(start, d, LdDo(start, d, s, steps[0]), steps[1..])
  }

  function RunAll(start: seq<nat>, d: nat, s: Sys, steps: seq<LdStep>): Sys
    requires CanRun(start, d, s, steps)
    decreases |steps|
  {
    if steps == [] then s else RunAll(start, d, LdDo(start, d, s, steps[0]), steps[1..])
  }

  // ----- The invariant -----

  /** The latest slot in which the loader is to look at process i; after the last one, the slot it detaches in. */
  function Target(start: seq<nat>, i: nat): nat
    requires i <= |start|
  {
    if i < |start| then Admission(start, i) else NextSlotFor(start, i)
  }

  predicate Leaves(pc: DevPc) {
    pc.DetachWant? || pc.DetachSetting? || pc.DetachSignalling? || pc.DetachLeaving? || pc.Exited?
  }

  /** The slot of the device's next own step. */
  function NextWork(dev: Dev): nat {
    if dev.pc.Work? then dev.slot else dev.slot + 1
  }

  predicate LdOk(start: seq<nat>, pc: LdPc, i: nat, dev: Dev) {
    && i <= |start|
    && match pc
       case Checking => !Leaves(dev.pc) && NextSlotFor(start, i) <= NextWork(dev) <= Target(start, i)
       case Calling => dev.pc.Work? && NextSlotFor(start, i) <= dev.slot + 1 <= Target(start, i)
       case Admitting => i < |start| && dev.pc.Work? && dev.slot == Admission(start, i)
       case Gone => i == |start| && Leaves(dev.pc)
  }

  ghost predicate LdInv(start: seq<nat>, d: nat, s: Sys) {
    && Inv(s.t) && d < |s.t.devs| && LdOk(start, s.pc, s.i, s.t.devs[d])
    && |s.admitted| == s.i && (forall j :: 0 <= j < s.i ==> s.admitted[j] == Admission(start, j))
    && (s.i > 0 ==> Admission(start, s.i - 1) <= s.t.time)
  }

  lemma TimerTouches(t: State, d: nat)
    requires TimerEnabled(t) && d < |t.devs|
    ensures TimerAdvance(t).time >= t.time && d < |TimerAdvance(t).devs|
    ensures var dev, dev' := t.devs[d], TimerAdvance(t).devs[d];
      dev'.slot == dev.slot && (dev'.pc == dev.pc || (dev.pc.Asleep? && dev'.pc.Woken?))
  {
  }

  /** Between its own steps the device stays at work, or goes through next_slot and comes out one slot later. */
  lemma DeviceMoves(t: State, step: Step, d: nat)
    requires Enabled(t, step) && step != CallNextSlot(d) && step != Detach(d) && d < |t.devs|
    ensures d < |Do(t, step).devs| && Do(t, step).time >= t.time
    ensures var dev, dev' := t.devs[d], Do(t, step).devs[d];
      && (Leaves(dev.pc) <==> Leaves(dev'.pc))
      && (dev.pc.Work? ==> dev'.pc.Work? && dev'.slot == dev.slot)
      && NextWork(dev') == NextWork(dev)
  {
    if step.TimerGo? {
      hide TimerAdvance, TimerEnabled;
      TimerTouches(t, d);
    } else {
      hide TimerAdvance, TimerEnabled, SignalEvent;
    }
  }

  /** At work, the clock shows the device's own slot; in next_slot at most the slot it returns in. */
  lemma ClockAt(t: State, d: nat)
    requires Inv(t) && d < |t.devs|
    ensures t.devs[d].pc.Work? ==> t.time == t.devs[d].slot
    ensures !Leaves(t.devs[d].pc) ==> t.time <= NextWork(t.devs[d])
  {
    assert DevOk(t.time, t.pc, t.devs[d], d);
  }

  /** Reading the clock and admitting leave the barrier alone. */
  lemma LoopKeeps(start: seq<nat>, d: nat, s: Sys, step: LdStep)
    requires LdInv(start, d, s) && LdEnabled(start, d, s, step) && (step.Check? || step.Admit?)
    ensures LdInv(start, d, LdDo(start, d, s, step))
  {
    ClockAt(s.t, d);
    AdmissionMeans(start, s.i);
    hide Inv, NextSlotFor, Admission, Enabled, Do;
    if step.Admit? && s.i + 1 < |start| {
      AdmissionMeans(start, s.i + 1);
    }
  }

  lemma OtherKeeps(start: seq<nat>, d: nat, s: Sys, step: Step)
    requires LdInv(start, d, s) && LdEnabled(start, d, s, Other(step))
    ensures LdInv(start, d, LdDo(start, d, s, Other(step)))
  {
    hide Inv, NextSlotFor, Admission, Target, Enabled, Do;
    StepKeeps(s.t, step);
    DeviceMoves(s.t, step, d);
  }

  lemma LdStepKeeps(start: seq<nat>, d: nat, s: Sys, step: LdStep)
    requires LdInv(start, d, s) && LdEnabled(start, d, s, step)
    ensures LdInv(start, d, LdDo(start, d, s, step))
  {
    match step
    case Check => LoopKeeps(start, d, s, step);
    case Admit => LoopKeeps(start, d, s, step);
    case Other(step) => OtherKeeps(start, d, s, step);
    case _ =>
      hide Inv, NextSlotFor, Admission, TimerAdvance, DevAdvance;
      StepKeeps(s.t, if step.Call? then CallNextSlot(d) else Detach(d));
  }

  lemma {:induction false} LdRunKeeps(start: seq<nat>, d: nat, s: Sys, steps: seq<LdStep>)
    requires LdInv(start, d, s) && CanRun(start, d, s, steps)
    ensures LdInv(start, d, RunAll(start, d, s, steps))
    decreases |steps|
  {
    hide LdInv, LdEnabled, LdDo;
    if steps != [] {
      LdStepKeeps(start, d, s, steps[0]);
      LdRunKeeps(start, d, LdDo(start, d, s, steps[0]), steps[1..]);
    }
  }

  lemma StartInv(start: seq<nat>, d: nat, n: nat)
    requires d < n
    ensures LdInv(start, d, Start(n))
  {
    InitInv(n);
    hide Inv;
    if start != [] {
      AdmissionMeans(start, 0);
    }
  }

  lemma ReachableInv(start: seq<nat>, d: nat, n: nat, steps: seq<LdStep>)
    requires d < n && CanRun(start, d, Start(n), steps)
    ensures LdInv(start, d, RunAll(start, d, Start(n), steps))
  {
    hide LdInv, CanRun, RunAll;
    StartInv(start, d, n);
    LdRunKeeps(start, d, Start(n), steps);
  }

  // ----- What every interleaving does -----

  /**
   In every reachable state of the barrier with n devices, the loader among them: every process
   admitted was admitted in its slot, add_proc is only ever called when the clock shows the slot
   of the process at hand, and reading the clock leads to admission exactly in that slot.
   */
  lemma {:induction false} AdmitsInSlot(start: seq<nat>, d: nat, n: nat, steps: seq<LdStep>)
    requires d < n && CanRun(start, d, Start(n), steps)
    ensures var s := RunAll(start, d, Start(n), steps);
      && |s.admitted| == s.i <= |start| && (forall j :: 0 <= j < s.i ==> s.admitted[j] == Admission(start, j))
      && (LdEnabled(start, d, s, Admit) ==> s.i < |start| && s.t.time == Admission(start, s.i))
      && (LdEnabled(start, d, s, Check) ==> (LdDo(start, d, s, Check).pc.Admitting? <==> s.t.time == Admission(start, s.i)))
  {
    hide CanRun, RunAll, LdInv;
    ReachableInv(start, d, n, steps);
    AdmitsNow(start, d, RunAll(start, d, Start(n), steps));
  }

  lemma AdmitsNow(start: seq<nat>, d: nat, s: Sys)
    requires LdInv(start, d, s)
    ensures |s.admitted| == s.i <= |start| && (forall j :: 0 <= j < s.i ==> s.admitted[j] == Admission(start, j))
    ensures LdEnabled(start, d, s, Admit) ==> s.i < |start| && s.t.time == Admission(start, s.i)
    ensures LdEnabled(start, d, s, Check) ==> (LdDo(start, d, s, Check).pc.Admitting? <==> s.t.time == Admission(start, s.i))
  {
    ClockAt(s.t, d);
    if s.i < |start| {
      AdmissionMeans(start, s.i);
    }
    hide Inv, NextSlotFor, Admission, Enabled;
  }

  lemma {:induction false} AdmissionsGrow(start: seq<nat>, i: nat, j: nat)
    requires i <= j < |start|
    ensures Admission(start, i) + (j - i) <= Admission(start, j)
    decreases j
  {
    if i < j { AdmissionsGrow(start, i, j - 1); }
  }

  /**
   Outside its admission slot the clock alone says whether a process is in the system: before that
   slot no interleaving has admitted it, and after it every interleaving has.
   */
  lemma {:induction false} ClockDecides(start: seq<nat>, d: nat, n: nat, steps: seq<LdStep>, j: nat)
    requires d < n && CanRun(start, d, Start(n), steps) && j < |start|
    ensures var s := RunAll(start, d, Start(n), steps);
      && (s.t.time < Admission(start, j) ==> j >= |s.admitted|)
      && (s.t.time > Admission(start, j) ==> j < |s.admitted| && s.admitted[j] == Admission(start, j))
  {
    hide CanRun, RunAll, Inv, NextSlotFor, Admission;
    ReachableInv(start, d, n, steps);
    var s := RunAll(start, d, Start(n), steps);
    ClockAt(s.t, d);
    if j < s.i {
      AdmissionsGrow(start, j, s.i - 1);
    } else {
      AdmissionsGrow(start, s.i, j);
    }
  }

  /** The loader itself never holds the barrier up: in its slot it always has a step, and after the last process it detaches. */
  lemma {:induction false} LoaderMoves(start: seq<nat>, d: nat, n: nat, steps: seq<LdStep>)
    requires d < n && CanRun(start, d, Start(n), steps)
    ensures var s := RunAll(start, d, Start(n), steps);
      && d < |s.t.devs|
      && (s.t.devs[d].pc.Work? <==> exists step: LdStep :: !step.Other? && LdEnabled(start, d, s, step))
      && (s.pc.Gone? ==> s.i == |start| && !s.t.devs[d].pc.Work?)
  {
    hide CanRun, RunAll, Inv;
    ReachableInv(start, d, n, steps);
    var s := RunAll(start, d, Start(n), steps);
    var step := match s.pc
      case Checking => if s.i < |start| then Check else Quit
      case Calling => Call
      case Admitting => Admit
      case Gone => Quit;
    assert s.t.devs[d].pc.Work? ==> LdEnabled(start, d, s, step);
  }

  /** The most own steps of the loader until it calls next_slot or detaches. */
  function StepsToCall(pc: LdPc): nat {
    match pc
    case Checking => 3
    case Admitting => 2
    case Calling => 1
    case Gone => 0
  }

  /** Nor does it spin: each of its steps hands the slot over, or brings it one step closer to that. */
  lemma {:induction false} LoaderSoon(start: seq<nat>, d: nat, s: Sys, step: LdStep)
    requires LdEnabled(start, d, s, step)
    ensures var s' := LdDo(start, d, s, step);
      if step.Other? then s'.pc == s.pc && s'.i == s.i && s'.admitted == s.admitted
      else || StepsToCall(s'.pc) < StepsToCall(s.pc)
           || (d < |s'.t.devs| && !s'.t.devs[d].pc.Work?)
  {
  }
}
