/** Events over whole runs (src/proc/event.c, src/proc/scheduler.c:596-615): no signal is lost or used
    twice, and a wait ends only by one. */
module SchedEvents {
  import opened Common
  import opened Contexts
  import opened SleepQueue
  import opened SchedSteps
  import opened SchedInv
  import opened SchedRuns

  /** schedule resumes a thread that waited for event `e`, which had fired. */
  ghost predicate Resumes(s: State, step: Step, e: nat) {
    Schedules(step) && Enabled(s, step) && CpuOk(AtPick(s, step), step.c) &&
    var s1 := AtPick(s, step);
    var r := Choice(s1, step.c);
    r.Some? && !At(s1, r.value).phase.Ready? && At(s1, r.value).event == e && Count(s.events, e) != 0
  }

  /** The step uses one signal of event `e` up. */
  ghost predicate Uses(s: State, step: Step, e: nat) {
    step == TakeEvent(e) || Resumes(s, step, e)
  }

  ghost predicate CountsOk(events: map<nat, nat>) {
    forall e :: e in events ==> events[e] < 0x1_0000_0000
  }

  /** A step moves the count of an event by its trigger or its use, modulo 2^32. */
  lemma StepCounts(s: State, step: Step, e: nat)
    requires Inv(s) && Enabled(s, step) && CountsOk(s.events)
    ensures CountsOk(After(s, step).events)
    ensures Count(After(s, step).events, e) ==
            (Count(s.events, e) + (if step == Trigger(e) then 1 else 0)
             - if Uses(s, step, e) then 1 else 0) % 0x1_0000_0000
  {
    hide Inv, After, Enabled, AtPick, Choice;
    if Schedules(step) {
      ScheduleCounts(s, step, e);
    } else {
      OtherEvents(s, step);
    }
  }

  /** No step but these three touches an event. */
  lemma OtherEvents(s: State, step: Step)
    requires Enabled(s, step) && !Schedules(step)
    ensures After(s, step).events ==
            match step
            case Trigger(e) => s.events[e := (Count(s.events, e) + 1) % TWO32]
            case TakeEvent(e) => DecEvent(s.events, e)
            case _ => s.events
  {
    hide Started, Wake, Advanced, AdvanceWakes, FirstWaiter, DecEvent;
  }

  lemma ScheduleCounts(s: State, step: Step, e: nat)
    requires Inv(s) && Schedules(step) && Enabled(s, step) && CountsOk(s.events)
    ensures CountsOk(After(s, step).events)
    ensures Count(After(s, step).events, e) == Count(s.events, e) - if Uses(s, step, e) then 1 else 0
    ensures 0 <= Count(After(s, step).events, e) < 0x1_0000_0000
  {
    hide Inv, InTransit, AtPick, After, Before, Schedule, Enabled;
    PickCounts(s, step);
  }

  /** What schedule does to the events: the resumed thread's loses one signal, no other changes. */
  lemma PickCounts(s: State, step: Step)
    requires Inv(s) && Schedules(step) && Enabled(s, step)
    ensures CpuOk(AtPick(s, step), step.c)
    ensures var s1 := AtPick(s, step); var r := Choice(s1, step.c);
            && s1.events == s.events
            && After(s, step).events ==
               if r.Some? && !At(s1, r.value).phase.Ready? && Count(s.events, At(s1, r.value).event) != 0
               then DecEvent(s.events, At(s1, r.value).event) else s.events
  {
    hide Inv, AtPick, After, Restored, Taken, DecEvent, Runnable, Switched, Choice;
    AtPickFrame(s, step);
    StepSwitches(s, step);
  }

  function Triggers(steps: seq<Step>, e: nat, k: nat): nat
    requires k <= |steps|
  {
    if k == 0 then 0 else Triggers(steps, e, k - 1) + if steps[k - 1] == Trigger(e) then 1 else 0
  }

  ghost function Used(states: seq<State>, steps: seq<Step>, e: nat, k: nat): nat
    requires k <= |steps| < |states|
  {
    if k == 0 then 0 else Used(states, steps, e, k - 1) + if Uses(states[k - 1], steps[k - 1], e) then 1 else 0
  }

  /** Over every run an event's count is what it was, plus the triggers, less the signals used. */
  lemma {:induction false} SignalsConserved(states: seq<State>, steps: seq<Step>, e: nat, k: nat)
    requires IsRun(states, steps) && Inv(states[0]) && CountsOk(states[0].events) && k <= |steps|
    ensures CountsOk(states[k].events)
    ensures Count(states[k].events, e) ==
            (Count(states[0].events, e) + Triggers(steps, e, k) - Used(states, steps, e, k)) % 0x1_0000_0000
  {
    hide Inv, Enabled, After, Uses, Count, CountsOk;
    if k == 0 {
      SmallCount(states[0].events, e);
    } else {
      SignalsConserved(states, steps, e, k - 1);
      RunKeeps(states, steps, k - 1);
      assert states[k] == After(states[k - 1], steps[k - 1]) && Enabled(states[k - 1], steps[k - 1]);
      StepCounts(states[k - 1], steps[k - 1], e);
      ModStep(Count(states[0].events, e) + Triggers(steps, e, k - 1) - Used(states, steps, e, k - 1),
              (if steps[k - 1] == Trigger(e) then 1 else 0) - if Uses(states[k - 1], steps[k - 1], e) then 1 else 0);
    }
  }

  lemma ModStep(a: int, d: int)
    ensures (a % 0x1_0000_0000 + d) % 0x1_0000_0000 == (a + d) % 0x1_0000_0000
  {
  }

  lemma SmallCount(events: map<nat, nat>, e: nat)
    requires CountsOk(events)
    ensures Count(events, e) % 0x1_0000_0000 == Count(events, e)
  {
  }

  ghost predicate IsWaiting(th: Thread) {
    th.phase.WaitEvent? || th.phase.WaitEventTimeout?
  }

  lemma WaitingNotCurrent(s: State, t: nat)
    requires Inv(s) && Has(s, t) && IsWaiting(At(s, t))
    ensures NotIdle(s, t) && forall c :: 0 <= c < |s.cpus| ==> s.cpus[c].current != Some(t)
  {
    hide SleepersOk, WaitersOk, OpOk, ThreadsOk;
    forall c | 0 <= c < |s.cpus| ensures s.cpus[c].current != Some(t) {
      assert CurrentOk(s, c);
    }
  }

  /** Steps that do not schedule leave a waiting thread's record alone. */
  lemma WaitUntouched(s: State, step: Step, t: nat)
    requires Inv(s) && Enabled(s, step) && Has(s, t) && IsWaiting(At(s, t)) && !Schedules(step)
    ensures var s' := After(s, step); Has(s', t) && At(s', t) == At(s, t)
  {
    hide Inv, Wake, AdvanceWakes, Advanced, Started, FirstWaiter, DecEvent, FreeSlot;
    match step
    case SetFs(c, _) => WaitingNotCurrent(s, t);
    case Timer(busy) =>
      if !busy {
        TimerKeeps(s);
        WakeAt(s.threads, AdvanceWakes(s.sleepers, s.lagged + 1), t);
      }
    case Start(th) => StartAt(s.threads, th);
    case BootCpu(th, _) => StartAt(s.threads, th);
    case WakeReady(_) => OpFacts(s);
    case _ =>
  }

  /** A thread in await_event waits on until a processor resumes it with a signal of its event, which is
      used up. */
  lemma WaitEndsBySignal(s: State, step: Step, t: nat)
    requires Inv(s) && Enabled(s, step) && Has(s, t) && At(s, t).phase.WaitEvent?
    ensures var s', e := After(s, step), At(s, t).event;
            && Has(s', t)
            && ((At(s', t).phase.WaitEvent? && At(s', t).event == e) ||
                (Schedules(step) && RunsOn(s', t, step.c) && Resumes(s, step, e)))
  {
    WaitingNotCurrent(s, t);
    if Schedules(step) {
      WaiterPicked(s, step, t);
    } else {
      WaitUntouched(s, step, t);
    }
  }

  lemma WaiterPicked(s: State, step: Step, t: nat)
    requires Inv(s) && Schedules(step) && Enabled(s, step) && Has(s, t) && At(s, t).phase.WaitEvent?
    requires NotIdle(s, t) && s.cpus[step.c].current != Some(t)
    ensures var s' := After(s, step);
            Has(s', t) && (s'.threads[t] == s.threads[t] || (RunsOn(s', t, step.c) && Resumes(s, step, At(s, t).event)))
  {
    hide Inv, AtPick, After, Restored, Taken, TimedOut, Resumed, Choice;
    AtPickFrame(s, step);
    StepSwitches(s, step);
    ResumedSwitches(AtPick(s, step), step.c);
    assert AtPick(s, step).threads[t] == s.threads[t];
  }
}
