/** How a wait for an event ends, over whole runs (src/proc/event.c, src/proc/scheduler.c:588-616). */
module SchedWaits {
  import opened Common
  import opened Contexts
  import opened SleepQueue
  import opened SchedSteps
  import opened SchedInv
  import opened SchedRuns
  import opened SchedEvents
  import opened SchedSleep

  ghost predicate Signalled(events: map<nat, nat>, e: nat) {
    e in events && events[e] != 0
  }

  /** One signal of event `e` is there in `events` and used up in `events'`. */
  ghost predicate UsesUp(events: map<nat, nat>, events': map<nat, nat>, e: nat) {
    e in events && events[e] != 0 && events' == events[e := events[e] - 1]
  }

  /** `start` less `now`, as 64-bit words, is at least `timeout`. */
  ghost predicate TimeIsUp(start: int, now: int, timeout: nat) {
    (start - now) % 0x1_0000_0000_0000_0000 >= timeout
  }

  /** The step schedules and runs thread `t`, which waited as `th` says: a signal of its event is used up
      or, with none there, its timeout is taken for expired. */
  ghost predicate Ends(s: State, step: Step, s': State, t: nat, th: Thread) {
    && Schedules(step) && RunsOn(s', t, step.c)
    && if Signalled(s.events, th.event) then UsesUp(s.events, s'.events, th.event)
       else th.phase.WaitEventTimeout? && s'.events == s.events && TimeIsUp(th.waitStart, s.ticks, th.timeout)
  }

  /** A thread that waits when the next thread is picked is left waiting or has its wait ended. */
  lemma PickedWaiter(s: State, step: Step, t: nat)
    requires Inv(s) && Schedules(step) && Enabled(s, step) && NotIdle(s, t)
    requires Has(AtPick(s, step), t) && IsWaiting(At(AtPick(s, step), t))
    ensures var th, s' := At(AtPick(s, step), t), After(s, step);
            Has(s', t) && (At(s', t) == th || Ends(s, step, s', t, th))
  {
    hide Inv, AtPick, After, Enabled, Restored, Taken, Resumed, Choice;
    AtPickFrame(s, step);
    StepSwitches(s, step);
    PickCounts(s, step);
    var s1, s', c := AtPick(s, step), After(s, step), step.c;
    ResumedSwitches(s1, c);
    if s'.cpus[c].current == Some(t) {
      RunnableWaiter(s1, At(s1, t));
    } else {
      assert s'.threads[t] == s1.threads[t];
    }
  }

  lemma RunnableWaiter(s: State, th: Thread)
    requires IsWaiting(th) && Runnable(s, th)
    ensures Signalled(s.events, th.event) || (th.phase.WaitEventTimeout? && TimeIsUp(th.waitStart, s.ticks, th.timeout))
  {
  }

  lemma WaitStep(s: State, step: Step, t: nat)
    requires Inv(s) && Enabled(s, step) && Has(s, t) && IsWaiting(At(s, t))
    ensures var s' := After(s, step); Has(s', t) && (At(s', t) == At(s, t) || Ends(s, step, s', t, At(s, t)))
  {
    hide Inv, After, AtPick, Enabled, Ends;
    if Schedules(step) {
      WaitingNotCurrent(s, t);
      AtPickFrame(s, step);
      assert AtPick(s, step).threads[t] == s.threads[t];
      PickedWaiter(s, step, t);
    } else {
      WaitUntouched(s, step, t);
    }
  }

  /** Thread `t` waits for event `e`, without a timeout. */
  ghost predicate WaitsOn(s: State, t: nat, e: nat) {
    Has(s, t) && At(s, t).phase.WaitEvent? && At(s, t).event == e
  }

  /** Thread `t` has waited for event `e` since the clock showed `start`, for `timeout` ticks. */
  ghost predicate WaitsTimed(s: State, t: nat, e: nat, start: nat, timeout: nat) {
    && Has(s, t) && At(s, t).phase.WaitEventTimeout? && At(s, t).event == e
    && At(s, t).waitStart == start && At(s, t).timeout == timeout
  }

  lemma AwaitAtPick(s: State, step: Step, t: nat)
    requires Inv(s) && Enabled(s, step) && (step.Await? || step.AwaitTimeout?) && RunsOn(s, t, step.c)
    ensures NotIdle(s, t)
    ensures step.Await? ==> WaitsOn(AtPick(s, step), t, step.event)
    ensures step.AwaitTimeout? ==> WaitsTimed(AtPick(s, step), t, step.event, s.ticks, step.timeout)
  {
    hide Inv;
    BusyRuns(s, step.c);
    hide Saved, Restored;
    SaveRestore(At(Before(s, step), t), s.cpus[step.c].live);
  }

  /** The step that begins a wait, which may end it at once. */
  lemma AwaitStep(s: State, step: Step, t: nat)
    requires Inv(s) && Enabled(s, step) && (step.Await? || step.AwaitTimeout?) && RunsOn(s, t, step.c)
    ensures Has(After(s, step), t)
    ensures step.Await? ==>
              var s' := After(s, step);
              WaitsOn(s', t, step.event) || (RunsOn(s', t, step.c) && UsesUp(s.events, s'.events, step.event))
    ensures step.AwaitTimeout? ==>
              var s' := After(s, step);
              || WaitsTimed(s', t, step.event, s.ticks, step.timeout)
              || (RunsOn(s', t, step.c) && if Signalled(s.events, step.event)
                                           then UsesUp(s.events, s'.events, step.event)
                                           else s'.events == s.events && TimeIsUp(s.ticks, s.ticks, step.timeout))
  {
    hide Inv, After, AtPick, Enabled;
    AwaitAtPick(s, step, t);
    PickedWaiter(s, step, t);
  }

  /** Step `l` schedules and runs thread `t` with one signal of event `e`, which it uses up. */
  ghost predicate EndsBySignal(states: seq<State>, steps: seq<Step>, t: nat, e: nat, l: nat)
    requires l < |steps| < |states|
  {
    Schedules(steps[l]) && RunsOn(states[l + 1], t, steps[l].c) && UsesUp(states[l].events, states[l + 1].events, e)
  }

  /** Over every run: a thread that takes await_event for `e` waits for `e` until a step that schedules
      resumes it and uses up one signal of that same `e`. */
  lemma {:induction false} AwaitEndsBySignal(states: seq<State>, steps: seq<Step>, t: nat, j: nat, i: nat)
    requires IsRun(states, steps) && Inv(states[0]) && j < i <= |steps|
    requires steps[j].Await? && RunsOn(states[j], t, steps[j].c)
    requires forall l :: j <= l < i ==> !EndsBySignal(states, steps, t, steps[j].event, l)
    ensures WaitsOn(states[i], t, steps[j].event)
    decreases i
  {
    hide Inv, Enabled, After, Schedules, RunsOn, UsesUp, Signalled;
    var s, step := states[i - 1], steps[i - 1];
    assert states[i] == After(s, step) && Enabled(s, step);
    RunKeeps(states, steps, i - 1);
    assert !EndsBySignal(states, steps, t, steps[j].event, i - 1);
    if j == i - 1 {
      AwaitStep(s, step, t);
      assert Schedules(step) by { AwaitSchedules(step); }
    } else {
      AwaitEndsBySignal(states, steps, t, j, i - 1);
      WaitStep(s, step, t);
    }
  }

  lemma AwaitSchedules(step: Step)
    requires step.Await? || step.AwaitTimeout?
    ensures Schedules(step)
  {
  }

  /** The clock counts the timer's ticks in 64 bits. */
  lemma {:induction false} ClockCounts(states: seq<State>, steps: seq<Step>, k: nat)
    requires IsRun(states, steps) && states[0] == POWER_ON && k <= |steps|
    ensures states[k].ticks == Delivered(steps, k) % 0x1_0000_0000_0000_0000
  {
    hide Enabled, After;
    if k > 0 {
      ClockCounts(states, steps, k - 1);
      assert states[k] == After(states[k - 1], steps[k - 1]) && Enabled(states[k - 1], steps[k - 1]);
      TicksThen(states[k - 1], steps[k - 1]);
      WordPlusOne(Delivered(steps, k - 1));
    }
  }

  lemma WordPlusOne(n: nat)
    ensures (n % 0x1_0000_0000_0000_0000 + 1) % 0x1_0000_0000_0000_0000 == (n + 1) % 0x1_0000_0000_0000_0000
    ensures n < 0x1_0000_0000_0000_0000 ==> n % 0x1_0000_0000_0000_0000 == n
  {
  }

  /** No step but the timer's touches the clock. */
  lemma TicksThen(s: State, step: Step)
    requires Enabled(s, step)
    ensures After(s, step).ticks ==
            if step.Timer? then (s.ticks + 1) % 0x1_0000_0000_0000_0000 else s.ticks
  {
    if Schedules(step) {
      hide AtPick, After, Enabled;
      AtPickFrame(s, step);
      StepSwitches(s, step);
    } else {
      hide Started, Wake, Advanced, AdvanceWakes, FirstWaiter, DecEvent;
    }
  }

  /** Step `l` schedules and runs thread `t`: it uses up a signal of `e` or, when there is none, comes
      when the ticks gone since step `j`, negated in 64 bits, are at least `timeout`. */
  ghost predicate EndsInTime(states: seq<State>, steps: seq<Step>, t: nat, e: nat, timeout: nat, j: nat, l: nat)
    requires j <= l < |steps| < |states|
  {
    && Schedules(steps[l]) && RunsOn(states[l + 1], t, steps[l].c)
    && if Signalled(states[l].events, e) then UsesUp(states[l].events, states[l + 1].events, e)
       else states[l + 1].events == states[l].events && TimeIsUp(Delivered(steps, j), Delivered(steps, l), timeout)
  }

  /** Over every run: a thread that takes await_event_timeout waits, for the event and the timeout it
      asked for and from the tick it asked at, until a step that schedules resumes it, by a signal of
      that event, which is used up, or by the timeout test with none there. Meanwhile it is able to run
      exactly if there is a signal or the test holds. */
  lemma {:induction false} TimedWaitEnds(states: seq<State>, steps: seq<Step>, t: nat, j: nat, i: nat)
    requires IsRun(states, steps) && states[0] == POWER_ON && j < i <= |steps|
    requires steps[j].AwaitTimeout? && RunsOn(states[j], t, steps[j].c)
    requires forall l :: j <= l < i ==> !EndsInTime(states, steps, t, steps[j].event, steps[j].timeout, j, l)
    ensures WaitsTimed(states[i], t, steps[j].event, Delivered(steps, j) % 0x1_0000_0000_0000_0000, steps[j].timeout)
    ensures CanRun(states[i], t) <==>
            || Signalled(states[i].events, steps[j].event)
            || TimeIsUp(Delivered(steps, j), Delivered(steps, i), steps[j].timeout)
    decreases i
  {
    hide Inv, Enabled, After, Schedules, RunsOn, UsesUp, Signalled, CanRun, TimeIsUp;
    var s, step, e, timeout := states[i - 1], steps[i - 1], steps[j].event, steps[j].timeout;
    assert states[i] == After(s, step) && Enabled(s, step);
    PowerOn();
    RunKeeps(states, steps, i - 1);
    ClockCounts(states, steps, j);
    ClockCounts(states, steps, i - 1);
    ClockCounts(states, steps, i);
    assert !EndsInTime(states, steps, t, e, timeout, j, i - 1);
    TimeInWords(Delivered(steps, j), Delivered(steps, i - 1), timeout);
    TimeInWords(Delivered(steps, j), Delivered(steps, i), timeout);
    if j == i - 1 {
      AwaitStep(s, step, t);
      assert Schedules(step) by { AwaitSchedules(step); }
    } else {
      TimedWaitEnds(states, steps, t, j, i - 1);
      WaitStep(s, step, t);
    }
    TimedCanRun(states[i], t, e, states[j].ticks, timeout);
  }

  lemma TimedCanRun(s: State, t: nat, e: nat, start: nat, timeout: nat)
    requires WaitsTimed(s, t, e, start, timeout)
    ensures CanRun(s, t) <==> Signalled(s.events, e) || TimeIsUp(start, s.ticks, timeout)
  {
  }

  /** The test sees the clock in 64 bits and the ticks delivered alike. */
  lemma TimeInWords(a: nat, b: nat, timeout: nat)
    ensures TimeIsUp(a % 0x1_0000_0000_0000_0000, b % 0x1_0000_0000_0000_0000, timeout) <==> TimeIsUp(a, b, timeout)
  {
    WordsApart(a, b);
  }

  lemma WordsApart(a: nat, b: nat)
    ensures (a % 0x1_0000_0000_0000_0000 - b % 0x1_0000_0000_0000_0000) % 0x1_0000_0000_0000_0000 ==
            (a - b) % 0x1_0000_0000_0000_0000
  {
  }

  /** A thread interrupted by the timer is ready afterwards, or runs on. */
  lemma PreemptedIsReady(s: State, c: nat, t: nat)
    requires Inv(s) && Enabled(s, Tick(c)) && RunsOn(s, t, c)
    ensures var s' := After(s, Tick(c)); IsReady(s', t) || RunsOn(s', t, c)
  {
    hide Inv, After, Resumed, Choice, Saved, Restored, Runnable;
    BusyRuns(s, c);
    SaveRestore(At(s, t), s.cpus[c].live);
    AtPickFrame(s, Tick(c));
    StepSwitches(s, Tick(c));
    var s1, s' := AtPick(s, Tick(c)), After(s, Tick(c));
    assert At(s1, t).phase.Ready?;
    if s'.cpus[c].current != Some(t) {
      assert s'.threads[t] == s1.threads[t];
    }
  }
}
