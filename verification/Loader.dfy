/** The admission loop of the loader thread, ld_routine in src/os.c. */
module Loader {
  /**
   The clock as one device sees it, for the loop on its own: it stands still while the device is
   inside its slot and is one later when next_slot returns.  LoaderRuns puts the loop among the
   threads of the barrier, where it is proved to keep the same slots in every interleaving.
   */
  class Clock {
    var time: nat

    constructor ()
      ensures time == 0
    {
      time := 0;
    }

    method NextSlot()
      modifies this
      ensures time == old(time) + 1
    {
      time := time + 1;
    }
  }

  /** The first slot left for process i: the one after its predecessor's. */
  function NextSlotFor(start: seq<nat>, i: nat): nat
    requires i <= |start|
    decreases i, 0
  {
    if i == 0 then 0 else Admission(start, i - 1) + 1
  }

  /** The slot in which process i is admitted. */
  function Admission(start: seq<nat>, i: nat): nat
    requires i < |start|
    decreases i, 1
  {
    if start[i] < NextSlotFor(start, i) then NextSlotFor(start, i) else start[i]
  }

  lemma AdmissionMeans(start: seq<nat>, i: nat)
    requires i < |start|
    ensures Admission(start, i) == if start[i] < NextSlotFor(start, i) then NextSlotFor(start, i) else start[i]
    ensures NextSlotFor(start, i + 1) == Admission(start, i) + 1
  {
  }

  /** The loop: wait for the start time, admit, and leave the slot. */
  method LdRoutine(start: seq<nat>, clock: Clock) returns (admitted: seq<nat>)
    requires clock.time == 0
    modifies clock
    ensures |admitted| == |start| && forall i :: 0 <= i < |start| ==> admitted[i] == Admission(start, i)
    ensures clock.time == NextSlotFor(start, |start|)
  {
    hide Admission;
    admitted := [];
    var i := 0;
    while i < |start|
      invariant 0 <= i <= |start| && |admitted| == i
      invariant forall j :: 0 <= j < i ==> admitted[j] == Admission(start, j)
      invariant clock.time == NextSlotFor(start, i)
    {
      hide NextSlotFor;
      AdmissionMeans(start, i);
      while clock.time < start[i]
        invariant NextSlotFor(start, i) <= clock.time <= Admission(start, i)
      {
        clock.NextSlot();
      }
      admitted := admitted + [clock.time];
      i := i + 1;
      clock.NextSlot();
    }
  }

  /** The admission slot is the largest, over every j up to i, of start_j plus one slot for each process after j. */
  lemma {:induction false} ClosedForm(start: seq<nat>, i: nat)
    requires i < |start|
    ensures forall j :: 0 <= j <= i ==> Admission(start, i) >= start[j] + i - j
    ensures exists j :: 0 <= j <= i && Admission(start, i) == start[j] + i - j
  {
    if i == 0 {
      assert Admission(start, 0) == start[0] + 0 - 0;
    } else {
      ClosedForm(start, i - 1);
      if Admission(start, i) == start[i] {
        assert Admission(start, i) == start[i] + i - i;
      } else {
        var j :| 0 <= j <= i - 1 && Admission(start, i - 1) == start[j] + (i - 1) - j;
        assert Admission(start, i) == start[j] + i - j;
      }
    }
  }

  /** No schedule that honours the start times and admits one process a slot, in order, is ahead of the loader's. */
  lemma {:induction false} Earliest(start: seq<nat>, schedule: seq<nat>, i: nat)
    requires |schedule| == |start| && i < |start|
    requires forall j :: 0 <= j < |start| ==> schedule[j] >= start[j]
    requires forall j :: 0 < j < |start| ==> schedule[j - 1] < schedule[j]
    ensures schedule[i] >= Admission(start, i)
  {
    if i > 0 { Earliest(start, schedule, i - 1); }
  }

  /** Everybody is admitted in the slot asked for exactly when the start times strictly increase. */
  lemma {:induction false} OnTimeIff(start: seq<nat>)
    ensures (forall i :: 0 <= i < |start| ==> Admission(start, i) == start[i])
            <==> forall i :: 0 < i < |start| ==> start[i - 1] < start[i]
  {
    if forall i :: 0 <= i < |start| ==> Admission(start, i) == start[i] {
      forall i | 0 < i < |start|
        ensures start[i - 1] < start[i]
      {
        AdmissionMeans(start, i - 1);
        assert Admission(start, i) == start[i] && Admission(start, i - 1) == start[i - 1];
      }
    } else if forall i :: 0 < i < |start| ==> start[i - 1] < start[i] {
      forall i | 0 <= i < |start|
        ensures Admission(start, i) == start[i]
      {
        Earliest(start, start, i);
      }
    }
  }
}
