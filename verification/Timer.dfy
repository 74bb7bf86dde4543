/**
 The slot barrier of src/timer.c as a transition system: one timer thread, any number of device
 threads, every lock, test, wait, wake-up and signal a step of its own, in any interleaving.
 */
module Timer {

  // ----- Threads -----

  /** Where a device thread is: in its slot, inside next_slot, or inside detach_event. */
  datatype DevPc =
    | Work
    // next_slot, first half, under event_lock
    | WantEvent | Setting | Signalling | Leaving
    // next_slot, second half, under timer_lock
    | WantTimer | Testing | Asleep | Woken | Returning
    // detach_event, under event_lock
    | DetachWant | DetachSetting | DetachSignalling | DetachLeaving | Exited

  /** Where the timer thread is; the index is the device of the list it is dealing with. */
  datatype TimerPc =
    | Head
    // waiting for devices, under event_lock
    | Wait(i: nat) | Test(i: nat) | Sleep(i: nat) | Wake(i: nat) | Count(i: nat)
    | Tick
    // releasing devices, under timer_lock
    | Want(i: nat) | Clear(i: nat) | Signal(i: nat) | Unlock(i: nat)
    | End | Stopped

  datatype Holder = Nobody | Device | TimerThread

  /** timer_id_t, its owner's program counter, and what the owner has done: slots completed, time of its last call. */
  datatype Dev = Dev(done: bool, fsh: bool, event: Holder, timer: Holder, pc: DevPc, slot: nat, called: nat)

  datatype State = State(time: nat, pc: TimerPc, fsh: nat, event: nat, stop: bool, devs: seq<Dev>)

  datatype Step = CallNextSlot(i: nat) | Detach(i: nat) | DevGo(i: nat) | DevSpurious(i: nat)
                | TimerGo | TimerSpurious | Stop

  /** start_timer after the devices have attached. */
  function Init(n: nat): State {
    State(0, Head, 0, 0, false, seq(n, _ => Dev(false, false, Nobody, Nobody, Work, 0, 0)))
  }

  // ----- Steps of a device -----

  predicate DevEnabled(d: Dev) {
    match d.pc
    case Work | Asleep | Exited => false
    case WantEvent | DetachWant => d.event == Nobody
    case WantTimer | Woken => d.timer == Nobody
    case _ => true
  }

  function DevAdvance(d: Dev): Dev {
    match d.pc
    case WantEvent => d.(pc := Setting, event := Device)
    case Setting => d.(pc := Signalling, done := true)
    case Signalling => d.(pc := Leaving)
    case Leaving => d.(pc := WantTimer, event := Nobody)
    case WantTimer | Woken => d.(pc := Testing, timer := Device)
    case Testing => if d.done then d.(pc := Asleep, timer := Nobody) else d.(pc := Returning)
    case Returning => d.(pc := Work, timer := Nobody, slot := d.slot + 1)
    case DetachWant => d.(pc := DetachSetting, event := Device)
    case DetachSetting => d.(pc := DetachSignalling, fsh := true)
    case DetachSignalling => d.(pc := DetachLeaving)
    case DetachLeaving => d.(pc := Exited, event := Nobody)
    case Work | Asleep | Exited => d
  }

  /** A signal on event_cond of device i wakes the timer if it sleeps there. */
  function SignalEvent(pc: TimerPc, i: nat): TimerPc {
    if pc == Sleep(i) then Wake(i) else pc
  }

  /** A signal on timer_cond wakes the device if it sleeps. */
  function SignalTimer(d: Dev): Dev {
    if d.pc.Asleep? then d.(pc := Woken) else d
  }

  // ----- Steps of the timer -----

  function WaitFrom(i: nat, n: nat): TimerPc {
    if i < n then Wait(i) else Tick
  }

  function ReleaseFrom(i: nat, n: nat): TimerPc {
    if i < n then Want(i) else End
  }

  predicate HasIndex(pc: TimerPc) {
    pc.Wait? || pc.Test? || pc.Sleep? || pc.Wake? || pc.Count? || pc.Want? || pc.Clear? || pc.Signal? || pc.Unlock?
  }

  predicate TimerEnabled(s: State) {
    && (HasIndex(s.pc) ==> s.pc.i < |s.devs|)
    && match s.pc
       case Sleep(_) | Stopped => false
       case Wait(i) => s.devs[i].event == Nobody
       case Wake(i) => s.devs[i].event == Nobody
       case Want(i) => s.devs[i].timer == Nobody
       case _ => true
  }

  function TimerAdvance(s: State): State
    requires TimerEnabled(s)
  {
    var n := |s.devs|;
    match s.pc
    case Head => if s.stop then s.(pc := Stopped) else s.(pc := WaitFrom(0, n), fsh := 0, event := 0)
    case Wait(i) => s.(pc := Test(i), devs := s.devs[i := s.devs[i].(event := TimerThread)])
    case Wake(i) => s.(pc := Test(i), devs := s.devs[i := s.devs[i].(event := TimerThread)])
    case Test(i) =>
      if !s.devs[i].done && !s.devs[i].fsh then s.(pc := Sleep(i), devs := s.devs[i := s.devs[i].(event := Nobody)])
      else s.(pc := Count(i))
    case Count(i) =>
      s.(pc := WaitFrom(i + 1, n), fsh := s.fsh + (if s.devs[i].fsh then 1 else 0), event := s.event + 1,
         devs := s.devs[i := s.devs[i].(event := Nobody)])
    case Tick => s.(pc := ReleaseFrom(0, n), time := s.time + 1)
    case Want(i) => s.(pc := Clear(i), devs := s.devs[i := s.devs[i].(timer := TimerThread)])
    case Clear(i) => s.(pc := Signal(i), devs := s.devs[i := s.devs[i].(done := false)])
    case Signal(i) => s.(pc := Unlock(i), devs := s.devs[i := SignalTimer(s.devs[i])])
    case Unlock(i) => s.(pc := ReleaseFrom(i + 1, n), devs := s.devs[i := s.devs[i].(timer := Nobody)])
    case End => s.(pc := if s.fsh == s.event then Stopped else Head)
    case Sleep(_) | Stopped => s
  }

  // ----- Steps of the system -----

  predicate Enabled(s: State, step: Step) {
    match step
    case CallNextSlot(i) => i < |s.devs| && s.devs[i].pc.Work?
    case Detach(i) => i < |s.devs| && s.devs[i].pc.Work?
    case DevGo(i) => i < |s.devs| && DevEnabled(s.devs[i])
    case DevSpurious(i) => i < |s.devs| && s.devs[i].pc.Asleep?
    case TimerGo => TimerEnabled(s)
    case TimerSpurious => s.pc.Sleep?
    // stop_timer is called once every device thread has been joined
    case Stop => forall i :: 0 <= i < |s.devs| ==> s.devs[i].pc.Exited?
  }

  function Do(s: State, step: Step): State
    requires Enabled(s, step)
  {
    match step
    case CallNextSlot(i) => s.(devs := s.devs[i := s.devs[i].(pc := WantEvent, called := s.time)])
    case Detach(i) => s.(devs := s.devs[i := s.devs[i].(pc := DetachWant)])
    case DevGo(i) =>
      s.(devs := s.devs[i := DevAdvance(s.devs[i])],
         pc := if s.devs[i].pc.Signalling? || s.devs[i].pc.DetachSignalling? then SignalEvent(s.pc, i) else s.pc)
    case DevSpurious(i) => s.(devs := s.devs[i := s.devs[i].(pc := Woken)])
    case TimerGo => TimerAdvance(s)
    case TimerSpurious => s.(pc := Wake(s.pc.i))
    case Stop => s.(stop := true)
  }

  // ----- The invariant -----

  /** The device is inside its slot: next_slot or detach_event has not announced the end yet. */
  predicate InSlot(pc: DevPc) {
    pc.Work? || pc.WantEvent? || pc.Setting? || pc.DetachWant? || pc.DetachSetting?
  }

  /** The device has announced the end of its slot and has not returned from next_slot. */
  predicate Ended(pc: DevPc) {
    pc.Signalling? || pc.Leaving? || Parked(pc) || pc.Returning?
  }

  /** Past event_lock, before seeing its release. */
  predicate Parked(pc: DevPc) {
    pc.WantTimer? || pc.Testing? || pc.Asleep? || pc.Woken?
  }

  predicate HoldsEvent(pc: DevPc) {
    || pc.Setting? || pc.Signalling? || pc.Leaving?
    || pc.DetachSetting? || pc.DetachSignalling? || pc.DetachLeaving?
  }

  predicate HoldsTimer(pc: DevPc) {
    pc.Testing? || pc.Returning?
  }

  /** In this round the timer has seen device i done or detached, and has not cleared it yet. */
  predicate Seen(pc: TimerPc, i: nat) {
    match pc
    case Wait(j) => i < j
    case Test(j) => i < j
    case Sleep(j) => i < j
    case Wake(j) => i < j
    case Count(j) => i <= j
    case Tick => true
    case Want(j) => i >= j
    case Clear(j) => i >= j
    case Signal(j) => i > j
    case Unlock(j) => i > j
    case Head | End | Stopped => false
  }

  predicate Releasing(pc: TimerPc) {
    pc.Want? || pc.Clear? || pc.Signal? || pc.Unlock?
  }

  /** Which thread holds the locks of device i, read off the program counters. */
  predicate LocksOk(pc: TimerPc, d: Dev, i: nat) {
    && (d.event == Device <==> HoldsEvent(d.pc))
    && (d.event == TimerThread <==> pc == Test(i) || pc == Count(i))
    && (d.timer == Device <==> HoldsTimer(d.pc))
    && (d.timer == TimerThread <==> pc == Clear(i) || pc == Signal(i) || pc == Unlock(i))
  }

  /** How far device i is, compared with the clock. */
  predicate PaceOk(time: nat, pc: TimerPc, d: Dev, i: nat) {
    if d.fsh then
      !d.done && (d.pc.DetachSignalling? || d.pc.DetachLeaving? || d.pc.Exited?)
    else if Seen(pc, i) then
      d.done && Parked(d.pc) && d.slot + (if Releasing(pc) then 1 else 0) == time
    else if d.done then
      Ended(d.pc) && !d.pc.Returning? && d.slot == time
    else
      || (InSlot(d.pc) && d.slot == time)
      || ((Parked(d.pc) || d.pc.Returning?) && d.slot + 1 == time)
  }

  /** Sleepers whose condition holds have a wake-up on its way. */
  predicate SleepersOk(pc: TimerPc, d: Dev, i: nat) {
    && (d.pc.Asleep? && !d.done ==> pc == Signal(i))
    && (pc == Sleep(i) && (d.done || d.fsh) ==> d.pc.Signalling? || d.pc.DetachSignalling?)
  }

  predicate CallOk(d: Dev) {
    d.pc.WantEvent? || d.pc.Setting? || Ended(d.pc) ==> d.called == d.slot
  }

  predicate DevOk(time: nat, pc: TimerPc, d: Dev, i: nat) {
    LocksOk(pc, d, i) && PaceOk(time, pc, d, i) && SleepersOk(pc, d, i) && CallOk(d)
  }

  /** How many devices the timer has counted in this round, once it is past Head. */
  function Counted(pc: TimerPc, n: nat): nat {
    match pc
    case Wait(i) => i
    case Test(i) => i
    case Sleep(i) => i
    case Wake(i) => i
    case Count(i) => i
    case _ => n
  }

  ghost predicate CountsOk(s: State) {
    s.pc.Head? || s.pc.Stopped?
    || (var k := Counted(s.pc, |s.devs|);
        && s.event == k && s.fsh <= k
        && (s.fsh == k ==> forall j :: 0 <= j < k && j < |s.devs| ==> s.devs[j].fsh))
  }

  ghost predicate Inv(s: State) {
    && (HasIndex(s.pc) ==> s.pc.i < |s.devs|)
    && (forall i :: 0 <= i < |s.devs| ==> DevOk(s.time, s.pc, s.devs[i], i))
    && CountsOk(s)
    && (s.stop || s.pc.Stopped? ==> forall i :: 0 <= i < |s.devs| ==> s.devs[i].fsh)
  }

  lemma InitInv(n: nat)
    ensures Inv(Init(n))
  {
  }

  // ----- Every step keeps the invariant -----

  lemma CallKeeps(s: State, i: nat)
    requires Inv(s) && Enabled(s, CallNextSlot(i))
    ensures Inv(Do(s, CallNextSlot(i)))
  {
  }

  lemma DetachKeeps(s: State, i: nat)
    requires Inv(s) && Enabled(s, Detach(i))
    ensures Inv(Do(s, Detach(i)))
  {
  }

  /** The timer's program counter after a step of device i. */
  function PcAfter(pc: TimerPc, d: Dev, i: nat): TimerPc {
    if d.pc.Signalling? || d.pc.DetachSignalling? then SignalEvent(pc, i) else pc
  }

  lemma SteppingDevice(time: nat, pc: TimerPc, d: Dev, i: nat)
    requires DevOk(time, pc, d, i) && DevEnabled(d)
    ensures DevOk(time, PcAfter(pc, d, i), DevAdvance(d), i)
    ensures d.fsh ==> DevAdvance(d).fsh
  {
  }

  lemma OtherDevice(time: nat, pc: TimerPc, d: Dev, i: nat, e: Dev, j: nat)
    requires DevOk(time, pc, e, j) && i != j
    ensures DevOk(time, PcAfter(pc, d, i), e, j)
  {
  }

  lemma DevGoKeeps(s: State, i: nat)
    requires Inv(s) && Enabled(s, DevGo(i))
    ensures Inv(Do(s, DevGo(i)))
  {
    hide DevOk, DevAdvance, DevEnabled;
    SteppingDevice(s.time, s.pc, s.devs[i], i);
    forall j | 0 <= j < |s.devs| && j != i
      ensures DevOk(s.time, PcAfter(s.pc, s.devs[i], i), s.devs[j], j)
    {
      OtherDevice(s.time, s.pc, s.devs[i], i, s.devs[j], j);
    }
  }

  lemma DevSpuriousKeeps(s: State, i: nat)
    requires Inv(s) && Enabled(s, DevSpurious(i))
    ensures Inv(Do(s, DevSpurious(i)))
  {
  }

  lemma TimerSpuriousKeeps(s: State)
    requires Inv(s) && Enabled(s, TimerSpurious)
    ensures Inv(Do(s, TimerSpurious))
  {
  }

  /** One device across a step of the timer, whether or not it is the one dealt with. */
  ghost predicate Kept(s: State, i: nat)
    requires TimerEnabled(s) && i < |s.devs|
  {
    var s' := TimerAdvance(s);
    && |s'.devs| == |s.devs| && s'.devs[i].fsh == s.devs[i].fsh
    && (HasIndex(s'.pc) ==> s'.pc.i < |s.devs|)
    && DevOk(s'.time, s'.pc, s'.devs[i], i)
  }

  lemma LockPhase(s: State, i: nat)
    requires TimerEnabled(s) && i < |s.devs| && DevOk(s.time, s.pc, s.devs[i], i)
    requires s.pc.Wait? || s.pc.Wake?
    ensures Kept(s, i)
  {
  }

  lemma TestPhase(s: State, i: nat)
    requires TimerEnabled(s) && i < |s.devs| && DevOk(s.time, s.pc, s.devs[i], i)
    requires s.pc.Test? || s.pc.Count?
    ensures Kept(s, i)
  {
  }

  lemma ClearPhase(s: State, i: nat)
    requires TimerEnabled(s) && i < |s.devs| && DevOk(s.time, s.pc, s.devs[i], i)
    requires s.pc.Want? || s.pc.Clear?
    ensures Kept(s, i)
  {
  }

  lemma SignalPhase(s: State, i: nat)
    requires TimerEnabled(s) && i < |s.devs| && DevOk(s.time, s.pc, s.devs[i], i)
    requires s.pc.Signal? || s.pc.Unlock?
    ensures Kept(s, i)
  {
  }

  lemma TurnPhase(s: State, i: nat)
    requires TimerEnabled(s) && i < |s.devs| && DevOk(s.time, s.pc, s.devs[i], i)
    requires s.pc.Head? || s.pc.Tick? || s.pc.End?
    ensures Kept(s, i)
  {
  }

  lemma CountsKept(s: State)
    requires Inv(s) && TimerEnabled(s)
    ensures CountsOk(TimerAdvance(s))
    ensures TimerAdvance(s).pc.Stopped? ==> forall i :: 0 <= i < |s.devs| ==> s.devs[i].fsh
    ensures TimerAdvance(s).stop == s.stop
  {
    hide DevOk;
  }

  lemma TimerGoKeeps(s: State)
    requires Inv(s) && Enabled(s, TimerGo)
    ensures Inv(Do(s, TimerGo))
  {
    hide DevOk, TimerAdvance, CountsOk;
    CountsKept(s);
    NextIndex(s);
    var s' := TimerAdvance(s);
    forall i | 0 <= i < |s.devs|
      ensures DevOk(s'.time, s'.pc, s'.devs[i], i) && s'.devs[i].fsh == s.devs[i].fsh
    {
      if s.pc.Head? || s.pc.Tick? || s.pc.End? {
        TurnPhase(s, i);
      } else if s.pc.Wait? || s.pc.Wake? {
        LockPhase(s, i);
      } else if s.pc.Test? || s.pc.Count? {
        TestPhase(s, i);
      } else if s.pc.Want? || s.pc.Clear? {
        ClearPhase(s, i);
      } else {
        SignalPhase(s, i);
      }
      assert Kept(s, i);
    }
  }

  lemma NextIndex(s: State)
    requires TimerEnabled(s)
    ensures var s' := TimerAdvance(s);
      |s'.devs| == |s.devs| && (HasIndex(s'.pc) ==> s'.pc.i < |s.devs|)
  {
  }

  lemma StopKeeps(s: State)
    requires Inv(s) && Enabled(s, Stop)
    ensures Inv(Do(s, Stop))
  {
  }

  /** Every step of every thread keeps the invariant. */
  lemma {:induction false} StepKeeps(s: State, step: Step)
    requires Inv(s) && Enabled(s, step)
    ensures Inv(Do(s, step))
  {
    hide Inv;
    match step
    case CallNextSlot(i) => CallKeeps(s, i);
    case Detach(i) => DetachKeeps(s, i);
    case DevGo(i) => DevGoKeeps(s, i);
    case DevSpurious(i) => DevSpuriousKeeps(s, i);
    case TimerGo => TimerGoKeeps(s);
    case TimerSpurious => TimerSpuriousKeeps(s);
    case Stop => StopKeeps(s);
  }
}
