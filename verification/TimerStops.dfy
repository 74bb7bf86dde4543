/** The end of the timer: once every device has detached, it stops by itself, and the clock hardly moves any more. */
module TimerStops {
  import opened Timer
  import opened TimerSafety

  ghost predicate AllExited(s: State) {
    forall i :: 0 <= i < |s.devs| ==> s.devs[i].pc.Exited?
  }

  /** The steps of one whole round of the timer thread when nobody holds it up. */
  function Round(n: nat): nat {
    7 * n + 3
  }

  /** The steps left in the current round. */
  function RoundLeft(pc: TimerPc, n: nat): int {
    match pc
    case Head => Round(n)
    case Wait(i) => 3 * (n - i) + 4 * n + 2
    case Wake(i) => 3 * (n - i) + 4 * n + 2
    case Sleep(i) => 3 * (n - i) + 4 * n + 2
    case Test(i) => 3 * (n - i) + 4 * n + 1
    case Count(i) => 3 * (n - i) + 4 * n
    case Tick => 4 * n + 2
    case Want(i) => 4 * (n - i) + 1
    case Clear(i) => 4 * (n - i)
    case Signal(i) => 4 * (n - i) - 1
    case Unlock(i) => 4 * (n - i) - 2
    case End => 1
    case Stopped => 0
  }

  /** Every device this round has counted had detached; at Head nothing has been counted yet. */
  predicate OnlyGone(s: State) {
    s.pc.Head? || s.pc.Stopped? || s.fsh == s.event
  }

  /** The most steps the timer thread still takes. */
  function StepsLeft(s: State): int {
    RoundLeft(s.pc, |s.devs|) + if OnlyGone(s) then 0 else Round(|s.devs|)
  }

  /** The most by which the clock still moves. */
  function TicksLeft(s: State): nat {
    (if s.pc.Head? || s.pc.Wait? || s.pc.Test? || s.pc.Sleep? || s.pc.Wake? || s.pc.Count? || s.pc.Tick? then 1 else 0)
    + if OnlyGone(s) then 0 else 1
  }

  ghost predicate Gone(s: State) {
    Inv(s) && AllExited(s)
  }

  lemma GoneDevice(s: State, i: nat)
    requires Gone(s) && i < |s.devs|
    ensures s.devs[i].fsh && s.devs[i].event != Device && s.devs[i].timer != Device && s.pc != Sleep(i)
    ensures s.devs[i].event == TimerThread <==> s.pc == Test(i) || s.pc == Count(i)
    ensures s.devs[i].timer == TimerThread <==> s.pc == Clear(i) || s.pc == Signal(i) || s.pc == Unlock(i)
  {
    assert DevOk(s.time, s.pc, s.devs[i], i);
  }

  /** Nothing holds the timer up, and nobody else has a step that matters. */
  lemma {:induction false} GoneMoves(s: State)
    requires Gone(s)
    ensures Enabled(s, TimerGo) <==> !s.pc.Stopped?
    ensures forall step :: Enabled(s, step) ==> step.TimerGo? || step.Stop?
    ensures 0 <= StepsLeft(s) && (StepsLeft(s) == 0 <==> s.pc.Stopped?)
  {
    if HasIndex(s.pc) {
      GoneDevice(s, s.pc.i);
    }
    hide DevOk, CountsOk;
  }

  /** A step of the timer thread is one of those left, and the clock moves only where it may. */
  ghost predicate Ticks(s: State, t: State) {
    && |t.devs| == |s.devs| && t.stop == s.stop
    && (if s.stop && s.pc.Head? then t.pc.Stopped? else StepsLeft(t) == StepsLeft(s) - 1)
    && t.time + TicksLeft(t) <= s.time + TicksLeft(s)
    && (!s.stop ==> t.time + TicksLeft(t) == s.time + TicksLeft(s))
  }

  lemma CountingTick(s: State)
    requires TimerEnabled(s) && (s.pc.Head? || s.pc.Wait? || s.pc.Wake?)
    ensures Ticks(s, TimerAdvance(s))
  {
  }

  lemma TestTick(s: State)
    requires TimerEnabled(s) && (s.pc.Test? || s.pc.Count?) && s.devs[s.pc.i].fsh
    ensures Ticks(s, TimerAdvance(s))
  {
  }

  lemma ReleaseTick(s: State)
    requires TimerEnabled(s) && (s.pc.Tick? || s.pc.Want? || s.pc.Clear?)
    ensures Ticks(s, TimerAdvance(s))
  {
  }

  lemma EndTick(s: State)
    requires TimerEnabled(s) && (s.pc.Signal? || s.pc.Unlock? || s.pc.End?)
    ensures Ticks(s, TimerAdvance(s))
  {
  }

  lemma {:induction false} GoneTick(s: State)
    requires Gone(s) && Enabled(s, TimerGo)
    ensures Ticks(s, Do(s, TimerGo))
  {
    if HasIndex(s.pc) {
      GoneDevice(s, s.pc.i);
    }
    hide Inv, Ticks, TimerAdvance;
    if s.pc.Head? || s.pc.Wait? || s.pc.Wake? {
      CountingTick(s);
    } else if s.pc.Test? || s.pc.Count? {
      TestTick(s);
    } else if s.pc.Tick? || s.pc.Want? || s.pc.Clear? {
      ReleaseTick(s);
    } else {
      EndTick(s);
    }
  }

  lemma StayExited(s: State, step: Step)
    requires Gone(s) && Enabled(s, step) && (step.TimerGo? || step.Stop?)
    ensures AllExited(Do(s, step))
  {
    hide Inv;
  }

  lemma GoneStep(s: State, step: Step)
    requires Gone(s) && Enabled(s, step)
    ensures var t := Do(s, step);
      && Gone(t) && |t.devs| == |s.devs|
      && 0 <= StepsLeft(t) <= StepsLeft(s) - (if step.TimerGo? then 1 else 0)
      && t.time + TicksLeft(t) <= s.time + TicksLeft(s)
      && (!t.stop ==> !s.stop && step.TimerGo? && StepsLeft(t) == StepsLeft(s) - 1
                      && t.time + TicksLeft(t) == s.time + TicksLeft(s))
  {
    hide Inv, Enabled, Do, StepsLeft, TicksLeft;
    StepKeeps(s, step);
    GoneMoves(s);
    StayExited(s, step);
    if step.TimerGo? {
      GoneTick(s);
    } else {
      StopOnly(s);
    }
    GoneMoves(Do(s, step));
  }

  lemma StopOnly(s: State)
    requires Enabled(s, Stop)
    ensures Do(s, Stop) == s.(stop := true)
    ensures StepsLeft(s.(stop := true)) == StepsLeft(s) && TicksLeft(s.(stop := true)) == TicksLeft(s)
  {
  }

  /** The steps of the timer thread in a run. */
  function TimerSteps(steps: seq<Step>): nat {
    if steps == [] then 0 else (if steps[0].TimerGo? then 1 else 0) + TimerSteps(steps[1..])
  }

  lemma {:induction false} GoneRun(s: State, steps: seq<Step>)
    requires Gone(s) && CanRun(s, steps)
    ensures var t := RunAll(s, steps);
      && Gone(t) && 0 <= StepsLeft(t) <= StepsLeft(s) - TimerSteps(steps)
      && t.time + TicksLeft(t) <= s.time + TicksLeft(s)
      && (!t.stop ==> StepsLeft(t) == StepsLeft(s) - TimerSteps(steps) && t.time + TicksLeft(t) == s.time + TicksLeft(s))
      && (s.stop ==> t.stop)
    decreases |steps|
  {
    hide Gone, Enabled, Do, StepsLeft, TicksLeft;
    if steps == [] {
      GoneCount(s);
    } else {
      GoneStep(s, steps[0]);
      GoneRun(Do(s, steps[0]), steps[1..]);
    }
  }

  lemma GoneCount(s: State)
    requires Gone(s)
    ensures StepsLeft(s) >= 0
  {
    hide Inv, StepsLeft;
    GoneMoves(s);
  }

  /**
   From a state at the head of its loop in which every device has detached: on every run the clock moves
   at most once more; the timer thread takes at most one round of steps, and is never blocked until
   it has stopped; and after that many steps it has stopped, by itself if nobody told it to.
   */
  lemma {:induction false} LastRound(s: State, steps: seq<Step>)
    requires Reachable(s) && AllExited(s) && s.pc.Head? && CanRun(s, steps)
    ensures var t := RunAll(s, steps);
      && t.time <= s.time + 1
      && TimerSteps(steps) <= Round(|s.devs|)
      && (Enabled(t, TimerGo) <==> !t.pc.Stopped?)
      && (TimerSteps(steps) == Round(|s.devs|) ==> t.pc.Stopped?)
      && (!t.stop ==> (t.pc.Stopped? <==> TimerSteps(steps) == Round(|s.devs|)) && (t.pc.Stopped? ==> t.time == s.time + 1))
  {
    ReachableInv(s);
    HeadCounts(s);
    hide Inv, CanRun, RunAll, Enabled, StepsLeft, TicksLeft, Round, AllExited;
    GoneRun(s, steps);
    var t := RunAll(s, steps);
    GoneMoves(t);
    StoppedCounts(t);
  }

  lemma HeadCounts(s: State)
    requires s.pc.Head?
    ensures StepsLeft(s) == Round(|s.devs|) && TicksLeft(s) == 1
  {
  }

  lemma StoppedCounts(s: State)
    ensures s.pc.Stopped? ==> TicksLeft(s) == 0
  {
  }

  /**
   From any state in which every device has detached, wherever the timer is: at most one more whole
   round than the one it is in, and at most two more ticks; then it has stopped.
   */
  lemma {:induction false} StopsSoon(s: State, steps: seq<Step>)
    requires Reachable(s) && AllExited(s) && CanRun(s, steps)
    ensures var t := RunAll(s, steps);
      && t.time <= s.time + 2
      && TimerSteps(steps) <= 2 * Round(|s.devs|)
      && (Enabled(t, TimerGo) <==> !t.pc.Stopped?)
      && (TimerSteps(steps) == 2 * Round(|s.devs|) ==> t.pc.Stopped?)
  {
    ReachableInv(s);
    MostLeft(s);
    hide Inv, CanRun, RunAll, Enabled, StepsLeft, TicksLeft, Round, AllExited;
    GoneRun(s, steps);
    GoneMoves(RunAll(s, steps));
  }

  lemma MostLeft(s: State)
    requires Gone(s)
    ensures StepsLeft(s) <= 2 * Round(|s.devs|) && TicksLeft(s) <= 2
  {
    hide DevOk, CountsOk;
  }
}
