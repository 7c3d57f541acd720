/** What the scheduler guarantees over whole runs, whatever the processors do and in whatever
    order. */
module SchedRuns {
  import opened Common
  import opened Contexts
  import opened Cyclic
  import opened SleepQueue
  import opened SchedSteps
  import opened SchedInv

  /** The state in which the next thread is picked: the current one has been put away. */
  function AtPick(s: State, step: Step): State
    requires Schedules(step) && Enabled(s, step)
  {
    SwitchOut(Before(s, step), step.c)
  }

  /** Up to the pick, only the current thread's record changes. */
  ghost predicate OnlyCurrent(s: State, s1: State, c: nat) {
    && c < |s.cpus| && s1.cpus == s.cpus && |s1.threads| == |s.threads| && s1.events == s.events && s1.ticks == s.ticks
    && s1.words == s.words
    && (forall t: nat :: t < |s.threads| ==> (s1.threads[t].Some? <==> s.threads[t].Some?))
    && (forall t: nat :: t < |s.threads| && s.cpus[c].current != Some(t) ==> s1.threads[t] == s.threads[t])
  }

  lemma AtPickFrame(s: State, step: Step)
    requires Schedules(step) && Enabled(s, step)
    ensures OnlyCurrent(s, AtPick(s, step), step.c)
  {
    hide Left, Inserted, Enlisted;
  }

  lemma AtPickTransit(s: State, step: Step)
    requires Inv(s) && Schedules(step) && Enabled(s, step)
    ensures InTransit(AtPick(s, step), step.c) && CpuOk(AtPick(s, step), step.c)
  {
    hide Inv, InTransit, SwitchOut;
    var c := step.c;
    match step {
      case Tick(_) => TickTransit(s, c);
      case Await(_, e) =>
        BusyRuns(s, c);
        LeavesChanged(s, c, Current(s, c).(event := e, phase := WaitEvent));
      case AwaitTimeout(_, e, timeout) =>
        BusyRuns(s, c);
        var th := Current(s, c);
        LeavesChanged(s, c, th.(event := e, phase := WaitEventTimeout, timeout := timeout, waitStart := s.ticks));
      case Sleep(_, ms) => SleepTransit(s, c, ms);
      case FutexBlock(_) => FutexTransit(s, c);
    }
    TransitCpu(AtPick(s, step), c);
  }

  /** What picking and running does to state `s1` of processor `c`: one thread of `s1` becomes current with
      the context of its record, as the idle thread or as the runnable thread chosen; no other thread and
      no other processor changes, nor does any queue. */
  ghost predicate Switched(s1: State, s': State, c: nat) {
    && c < |s1.cpus| == |s'.cpus| && |s'.threads| == |s1.threads|
    && (forall d :: 0 <= d < |s1.cpus| && d != c ==> s'.cpus[d] == s1.cpus[d])
    && s'.cpus[c].idleTid == s1.cpus[c].idleTid
    && s'.sleepers == s1.sleepers && s'.lagged == s1.lagged && s'.lists == s1.lists && s'.op == s1.op
    && s'.ticks == s1.ticks && s'.words == s1.words
    && s'.cpus[c].current.Some? && PickedIs(s1, s', c, s'.cpus[c].current.value)
  }

  ghost predicate PickedIs(s1: State, s': State, c: nat, t: nat)
    requires c < |s1.cpus| == |s'.cpus| && |s'.threads| == |s1.threads|
  {
    && Has(s1, t) && Has(s', t) && s'.cpus[c].live == Restored(At(s1, t))
    && (forall u: nat :: u < |s1.threads| && u != t ==> s'.threads[u] == s1.threads[u])
    && (s'.cpus[c].idle ==> t == s1.cpus[c].idleTid && At(s', t) == At(s1, t).(cpu := c))
    && (!s'.cpus[c].idle ==> Runnable(s1, At(s1, t)) && At(s', t) == Taken(At(s1, t), c))
  }

  lemma ResumedSwitches(s1: State, c: nat)
    requires CpuOk(s1, c)
    ensures Switched(s1, Resumed(s1, c), c)
    ensures Resumed(s1, c).cpus[c].idle <==> Choice(s1, c).None?
    ensures Choice(s1, c).Some? ==> Resumed(s1, c).cpus[c].current == Choice(s1, c)
  {
    hide Restored, Taken, DecEvent, Runnable;
    var r := Choice(s1, c);
    hide Choice;
    if r.Some? {
      RunSwitches(s1, c, r.value);
    } else {
      IdleSwitches(s1, c);
    }
  }

  lemma RunSwitches(s1: State, c: nat, t: nat)
    requires c < |s1.cpus| && Has(s1, t) && Runnable(s1, At(s1, t))
    ensures var s' := RunThread(s1, c, t); Switched(s1, s', c) && !s'.cpus[c].idle && s'.cpus[c].current == Some(t)
  {
    hide Restored, Taken, DecEvent, Runnable;
  }

  lemma IdleSwitches(s1: State, c: nat)
    requires CpuOk(s1, c)
    ensures Switched(s1, RunIdle(s1, c), c) && RunIdle(s1, c).cpus[c].idle
  {
    hide Restored, Taken, Runnable;
  }

  /** A step that schedules takes the state at the pick there. */
  lemma StepSwitches(s: State, step: Step)
    requires Schedules(step) && Enabled(s, step)
    ensures CpuOk(AtPick(s, step), step.c) && After(s, step) == Resumed(AtPick(s, step), step.c)
    ensures Switched(AtPick(s, step), After(s, step), step.c)
  {
    hide Before, SwitchOut, Resumed, Switched;
    AtPickCpu(s, step);
    ResumedSwitches(AtPick(s, step), step.c);
  }

  lemma StepKeeps(s: State, step: Step)
    requires Inv(s) && Enabled(s, step)
    ensures Inv(After(s, step))
  {
    hide Inv, Schedule, SwitchOut, Before, TickTimer, Started, ChecksFutex, LooksForWaiter, ReadiesWaiter;
    hide ClearsPlace, DecEvent, InTransit;
    if Schedules(step) {
      AtPickTransit(s, step);
      ScheduleKeeps(Before(s, step), step.c);
    } else {
      match step
      case Execute(c, live) => ExecuteKeeps(s, c, live);
      case SetFs(c, base) => SetFsKeeps(s, c, base);
      case Timer(busy) => if busy { LagKeeps(s); } else { TimerKeeps(s); }
      case Start(th) => StartKeeps(s, After(s, step), th);
      case BootCpu(th, live) => BootKeeps(s, th, live);
      case FutexWait(c, f, expected) => FutexCallKeeps(s, c, f, expected);
      case FutexWake(c, f) => FutexCallKeeps(s, c, f, 0);
      case WakeReady(_) => WakeReadyKeeps(s);
      case WakeClear(_) => WakeClearKeeps(s);
      case TakeEvent(_) => WordsKeep(s, After(s, step));
      case Trigger(_) => WordsKeep(s, After(s, step));
      case Store(_, _) => WordsKeep(s, After(s, step));
    }
  }

  lemma LagKeeps(s: State)
    requires Inv(s)
    ensures Inv(TickTimer(s, true))
  {
    hide Inv;
    WordsKeep(s, TickTimer(s, true));
  }

  /** A run: the states it goes through and the steps it takes. */
  ghost predicate IsRun(states: seq<State>, steps: seq<Step>) {
    |states| == |steps| + 1 &&
    forall i {:trigger steps[i]} :: 0 <= i < |steps| ==>
        Enabled(states[i], steps[i]) && states[i + 1] == After(states[i], steps[i])
  }

  const POWER_ON := State([], [], map[], 0, [], 0, map[], map[], None)

  /** The invariant holds from power-on, in every state of every run. */
  lemma {:induction false} RunKeeps(states: seq<State>, steps: seq<Step>, k: nat)
    requires IsRun(states, steps) && k <= |steps| && (Inv(states[0]) || states[0] == POWER_ON)
    ensures Inv(states[k])
  {
    hide Inv, Enabled, After;
    if k == 0 {
      PowerOn();
    } else {
      RunKeeps(states, steps, k - 1);
      assert steps[k - 1] == steps[k - 1];
      StepKeeps(states[k - 1], steps[k - 1]);
    }
  }

  lemma PowerOn()
    ensures Inv(POWER_ON)
  {
  }

  /** Processor `c` runs thread `t`. */
  ghost predicate RunsOn(s: State, t: nat, c: nat) {
    c < |s.cpus| && !s.cpus[c].idle && s.cpus[c].current == Some(t)
  }

  /** Running threads and the current threads of busy processors are the same, one to one, and the
      `running` flag agrees. */
  lemma OneToOne(s: State)
    requires Inv(s)
    ensures forall t :: Has(s, t) ==> At(s, t).tid == t
    ensures forall t :: Has(s, t) && At(s, t).phase.Running? ==> At(s, t).cpu >= 0 && RunsOn(s, t, At(s, t).cpu)
    ensures forall t, c :: RunsOn(s, t, c) ==> Has(s, t) && At(s, t).phase.Running? && At(s, t).cpu == c
    ensures forall t :: Has(s, t) ==> (At(s, t).running <==> At(s, t).phase.Running?)
    ensures forall t, u, c :: RunsOn(s, t, c) && RunsOn(s, u, c) ==> t == u
  {
    hide SleepersOk, WaitersOk, OpOk;
    forall t: nat | Has(s, t) ensures ThreadOk(s, t) {
      assert s.threads[t].Some?;
    }
    forall t, c | RunsOn(s, t, c) ensures Has(s, t) && At(s, t).phase.Running? && At(s, t).cpu == c {
      assert CurrentOk(s, c);
    }
  }

  /** What lets a thread run: it is ready, its event has a signal left, or it waits with a timeout and the
      start of the wait less the clock, as 64-bit words, is at least that. */
  ghost predicate CanRun(s: State, t: nat) {
    Has(s, t) &&
    var th := At(s, t);
    match th.phase
    case Ready => true
    case WaitEvent => th.event in s.events && s.events[th.event] != 0
    case WaitEventTimeout =>
      || (th.event in s.events && s.events[th.event] != 0)
      || (th.waitStart - s.ticks) % 0x1_0000_0000_0000_0000 >= th.timeout
    case _ => false
  }

  lemma CanRunIs(s: State, t: nat)
    ensures CanRun(s, t) <==> Has(s, t) && Runnable(s, At(s, t))
  {
  }

  /** Seen from the state `s1` in which it picks, processor `c` idles in `s'` exactly if no thread is
      ready and no waiting thread's event has fired or timeout expired; otherwise it runs the first
      such thread in cyclic order after `cur`. */
  ghost predicate PicksNext(s1: State, s': State, c: nat, cur: nat) {
    && c < |s'.cpus| && s'.cpus[c].current.Some? && cur < |s1.threads|
    && (s'.cpus[c].idle <==> forall t: nat :: !CanRun(s1, t))
    && (!s'.cpus[c].idle ==>
          var p, n := s'.cpus[c].current.value, |s1.threads|;
          CanRun(s1, p) && forall u: nat :: CanRun(s1, u) ==> Dist(n, cur, p) <= Dist(n, cur, u))
    && (s'.cpus[c].idle ==> s'.cpus[c].current.value == s'.cpus[c].idleTid)
  }

  lemma IdleIffNoneRunnable(s: State, step: Step)
    requires Inv(s) && Schedules(step) && Enabled(s, step) && s.cpus[step.c].current.Some?
    ensures PicksNext(AtPick(s, step), After(s, step), step.c, s.cpus[step.c].current.value)
  {
    hide Inv, InTransit, AtPick, After, Resumed, Runnable, CanRun;
    AtPickTransit(s, step);
    AtPickFrame(s, step);
    StepSwitches(s, step);
    var s1, c := AtPick(s, step), step.c;
    ResumedSwitches(s1, c);
    assert At(s1, s.cpus[c].current.value).tid == s.cpus[c].current.value by { TransitTids(s1, c); }
    var f := RunnableFlags(s1);
    forall t: nat ensures CanRun(s1, t) <==> t < |f| && f[t] {
      CanRunIs(s1, t);
    }
  }

  lemma TransitTids(s: State, c: nat)
    requires InTransit(s, c)
    ensures forall t: nat :: t < |s.threads| && s.threads[t].Some? ==> s.threads[t].value.tid == t
  {
  }

  /** A step of another processor, or one that does not schedule, leaves the current thread of `c`
      where it is. */
  lemma CurrentKept(s: State, step: Step, c: nat)
    requires Enabled(s, step) && c < |s.cpus| && !(Schedules(step) && step.c == c)
    ensures var s' := After(s, step);
            c < |s'.cpus| && s'.cpus[c].current == s.cpus[c].current && s'.cpus[c].idle == s.cpus[c].idle &&
            s'.cpus[c].idleTid == s.cpus[c].idleTid
  {
    if Schedules(step) {
      hide AtPick, After;
      AtPickFrame(s, step);
      StepSwitches(s, step);
    } else {
      hide Inserted, Enlisted, Started, Wake, FirstWaiter;
    }
  }

  lemma TableGrows(s: State, step: Step)
    requires Enabled(s, step)
    ensures |s.threads| <= |After(s, step).threads| && |s.cpus| <= |After(s, step).cpus|
  {
    if Schedules(step) {
      hide AtPick, After;
      AtPickFrame(s, step);
      StepSwitches(s, step);
    } else {
      hide Started, FreeSlot, Wake;
      match step
      case Start(th) => StartAt(s.threads, th);
      case BootCpu(th, _) => StartAt(s.threads, th);
      case _ =>
    }
  }

  lemma AtPickCpu(s: State, step: Step)
    requires Schedules(step) && Enabled(s, step)
    ensures CpuOk(AtPick(s, step), step.c)
  {
    hide Inserted, Enlisted;
  }

  predicate IsReady(s: State, t: nat) {
    Has(s, t) && At(s, t).phase.Ready?
  }

  /** Each schedule that passes over a thread that can run comes closer to it. */
  lemma PassesCloser(s: State, step: Step, t: nat)
    requires Inv(s) && Schedules(step) && Enabled(s, step) && s.cpus[step.c].current.Some?
    requires CanRun(s, t) && CanRun(After(s, step), t) && |After(s, step).threads| == |s.threads|
    ensures var s', c, n := After(s, step), step.c, |s.threads|;
            && c < |s'.cpus| && s'.cpus[c].current.Some? && s.cpus[c].current.value < n && s'.cpus[c].current.value < n
            && Dist(n, s'.cpus[c].current.value, t) < Dist(n, s.cpus[c].current.value, t)
  {
    hide Inv, AtPick, After, Inserted, Enlisted;
    var s1, s', c := AtPick(s, step), After(s, step), step.c;
    StepKeeps(s, step);
    IdleIffNoneRunnable(s, step);
    AtPickFrame(s, step);
    CurrentCannot(s, c);
    CurrentCannot(s', c);
    assert CanRun(s1, t);
  }

  /** The current thread runs already, or is the idle thread. */
  lemma CurrentCannot(s: State, c: nat)
    requires Inv(s) && c < |s.cpus| && s.cpus[c].current.Some?
    ensures Has(s, s.cpus[c].current.value) && !CanRun(s, s.cpus[c].current.value)
  {
    hide SleepersOk, WaitersOk, OpOk, ThreadsOk;
    assert CurrentOk(s, c);
  }

  /** How many of the first `k` steps schedule on processor `c`. */
  function Turns(steps: seq<Step>, c: nat, k: nat): nat
    requires k <= |steps|
  {
    if k == 0 then 0
    else Turns(steps, c, k - 1) + if Schedules(steps[k - 1]) && steps[k - 1].c == c then 1 else 0
  }

  /** While thread `t` can run and the table keeps its size, every turn of processor `c` uses up
      some of the distance to `t`. */
  lemma {:induction false} DistanceShrinks(states: seq<State>, steps: seq<Step>, c: nat, t: nat, k: nat)
    requires IsRun(states, steps) && k <= |steps| && Inv(states[0])
    requires c < |states[0].cpus| && states[0].cpus[c].current.Some?
    requires forall i :: 0 <= i <= k ==> CanRun(states[i], t) && |states[i].threads| == |states[0].threads|
    ensures var n, s := |states[0].threads|, states[k];
            && c < |s.cpus| && s.cpus[c].current.Some? && s.cpus[c].current.value < n
            && states[0].cpus[c].current.value < n && t < n
            && Turns(steps, c, k) + Dist(n, s.cpus[c].current.value, t) <= Dist(n, states[0].cpus[c].current.value, t)
  {
    hide Inv, Enabled, After;
    if k == 0 {
      CurrentCannot(states[0], c);
    } else {
      DistanceShrinks(states, steps, c, t, k - 1);
      RunKeeps(states, steps, k - 1);
      var s, step := states[k - 1], steps[k - 1];
      assert states[k] == After(s, step);
      assert CanRun(s, t) && CanRun(states[k], t) && |s.threads| == |states[k].threads|;
      if Schedules(step) && step.c == c {
        PassesCloser(s, step, t);
      } else {
        CurrentKept(s, step, c);
      }
    }
  }

  /** A thread that is not current where the step schedules is left alone, or picked. */
  lemma OthersKeptOrPicked(s: State, step: Step, t: nat)
    requires Inv(s) && Schedules(step) && Enabled(s, step) && Has(s, t) && s.cpus[step.c].current != Some(t)
    requires NotIdle(s, t)
    ensures var s', c := After(s, step), step.c;
            && Has(s', t) && |s'.cpus| == |s.cpus| && |s'.threads| == |s.threads|
            && (s'.threads[t] == s.threads[t] ||
                (!At(s, t).phase.Running? && At(s', t) == Taken(At(s, t), c) && RunsOn(s', t, c) &&
                 s'.cpus[c].live == Restored(At(s, t))))
            && (s'.cpus[c].current != Some(t) ==> s'.threads[t] == s.threads[t])
            && (forall d :: 0 <= d < |s.cpus| && d != c ==> s'.cpus[d] == s.cpus[d])
            && s'.cpus[c].idleTid == s.cpus[c].idleTid
  {
    hide Inv, AtPick, After, Restored, Taken, TimedOut;
    AtPickFrame(s, step);
    StepSwitches(s, step);
    assert AtPick(s, step).threads[t] == s.threads[t];
  }

  /** A ready thread stays ready until some processor runs it. */
  lemma ReadyUntilRun(s: State, step: Step, t: nat)
    requires Inv(s) && Enabled(s, step) && IsReady(s, t)
    ensures IsReady(After(s, step), t) || (Schedules(step) && RunsOn(After(s, step), t, step.c))
  {
    ReadyNotIdle(s, t);
    if Schedules(step) {
      hide Inv, After;
      CurrentNotReadyAt(s, step.c);
      OthersKeptOrPicked(s, step, t);
    } else {
      ReadyElsewhere(s, step, t);
    }
  }

  lemma CurrentNotReadyAt(s: State, c: nat)
    requires Inv(s) && c < |s.cpus|
    ensures s.cpus[c].current.Some? ==> Has(s, s.cpus[c].current.value) && !At(s, s.cpus[c].current.value).phase.Ready?
  {
    hide Inv;
    if s.cpus[c].current.Some? {
      CurrentCannot(s, c);
    }
  }

  lemma ReadyNotIdle(s: State, t: nat)
    requires Inv(s) && IsReady(s, t)
    ensures NotIdle(s, t)
  {
    hide SleepersOk, WaitersOk, OpOk, ThreadsOk, CurrentsOk;
  }

  lemma ReadyElsewhere(s: State, step: Step, t: nat)
    requires Inv(s) && Enabled(s, step) && IsReady(s, t) && !Schedules(step)
    ensures IsReady(After(s, step), t)
  {
    hide SleepersOk, WaitersOk, OpOk, Wake, AdvanceWakes, Advanced, Started, FirstWaiter, DecEvent, ThreadsOk;
    hide CurrentsOk;
    match step
    case Timer(busy) =>
      if !busy {
        WakeAt(s.threads, AdvanceWakes(s.sleepers, s.lagged + 1), t);
      }
    case Start(th) => StartAt(s.threads, th);
    case BootCpu(th, _) => StartAt(s.threads, th);
    case _ =>
  }

  /** Bounded bypass: over a run in which processor `c` gets as many turns as the thread table has
      slots, and the table does not grow, a thread that is ready at the start is run. */
  lemma BoundedBypass(states: seq<State>, steps: seq<Step>, c: nat, t: nat)
    requires IsRun(states, steps) && Inv(states[0]) && IsReady(states[0], t)
    requires c < |states[0].cpus| && states[0].cpus[c].current.Some?
    requires |states[|steps|].threads| == |states[0].threads| <= Turns(steps, c, |steps|)
    ensures exists i, d :: 0 <= i <= |steps| && RunsOn(states[i], t, d)
  {
    hide Inv, Enabled, After, CanRun;
    if !exists i, d :: 0 <= i <= |steps| && RunsOn(states[i], t, d) {
      AlwaysReady(states, steps, t, |steps|);
      forall i: nat | i <= |steps| ensures CanRun(states[i], t) {
        ReadyCanRun(states[i], t);
      }
      TurnsPassOver(states, steps, c, t);
    }
  }

  lemma ReadyCanRun(s: State, t: nat)
    requires IsReady(s, t)
    ensures CanRun(s, t)
  {
  }

  /** The same for a thread that waits: over as many turns of processor `c` it does not stay able to run,
      so it is run unless its signals go to others. */
  lemma TurnsPassOver(states: seq<State>, steps: seq<Step>, c: nat, t: nat)
    requires IsRun(states, steps) && Inv(states[0]) && c < |states[0].cpus| && states[0].cpus[c].current.Some?
    requires |states[|steps|].threads| == |states[0].threads| <= Turns(steps, c, |steps|)
    ensures exists i :: 0 <= i <= |steps| && !CanRun(states[i], t)
  {
    hide Inv, Enabled, After, CanRun;
    if forall i :: 0 <= i <= |steps| ==> CanRun(states[i], t) {
      SizesBetween(states, steps, |steps|);
      DistanceShrinks(states, steps, c, t, |steps|);
    }
  }

  lemma {:induction false} AlwaysReady(states: seq<State>, steps: seq<Step>, t: nat, k: nat)
    requires IsRun(states, steps) && Inv(states[0]) && IsReady(states[0], t) && k <= |steps|
    requires forall i, d :: 0 <= i <= k ==> !RunsOn(states[i], t, d)
    ensures forall i :: 0 <= i <= k ==> IsReady(states[i], t)
  {
    hide Inv, Enabled, After, RunsOn, IsReady;
    if k > 0 {
      AlwaysReady(states, steps, t, k - 1);
      RunKeeps(states, steps, k - 1);
      assert states[k] == After(states[k - 1], steps[k - 1]);
      ReadyUntilRun(states[k - 1], steps[k - 1], t);
    }
  }

  lemma {:induction false} SizesBetween(states: seq<State>, steps: seq<Step>, k: nat)
    requires IsRun(states, steps) && k <= |steps|
    ensures forall i :: 0 <= i <= k ==> |states[0].threads| <= |states[i].threads| <= |states[k].threads|
  {
    hide Enabled, After;
    if k > 0 {
      SizesBetween(states, steps, k - 1);
      assert states[k] == After(states[k - 1], steps[k - 1]);
      TableGrows(states[k - 1], steps[k - 1]);
    }
  }

  /** What thread `t` runs with: live on its processor while it runs, in its record otherwise. */
  function ContextOf(s: State, t: nat): Live
    requires Has(s, t)
  {
    var th := At(s, t);
    if th.phase.Running? && 0 <= th.cpu < |s.cpus| then s.cpus[th.cpu].live else Restored(th)
  }

  /** The thread itself changes its context. */
  ghost predicate OwnStep(s: State, step: Step, t: nat) {
    (step.Execute? || step.SetFs?) && RunsOn(s, t, step.c)
  }

  /** Thread `t` is switched out of its processor by this step. */
  ghost predicate Leaves(s: State, step: Step, t: nat) {
    Schedules(step) && RunsOn(s, t, step.c)
  }

  /** What a switch keeps: everything but FS.base, which the save leaves out and the restore takes from
      the thread's record. */
  function Kept(live: Live, fs: nat): Live {
    live.(fsBase := fs)
  }

  /** What a step by anybody else does to the context of `t`. */
  ghost predicate Isolated(s: State, step: Step, s': State, t: nat)
    requires Has(s, t)
  {
    && Has(s', t) && NotIdle(s', t) && At(s', t).regs.fs == At(s, t).regs.fs
    && ContextOf(s', t) == if Leaves(s, step, t) then Kept(ContextOf(s, t), At(s, t).regs.fs) else ContextOf(s, t)
  }

  lemma OtherKeepsContext(s: State, step: Step, t: nat)
    requires Inv(s) && Schedules(step) && Enabled(s, step) && Has(s, t) && NotIdle(s, t)
    requires s.cpus[step.c].current != Some(t)
    ensures Isolated(s, step, After(s, step), t)
  {
    hide Inv, After, Restored, Enabled;
    OthersKeptOrPicked(s, step, t);
    OneToOne(s);
    var s' := After(s, step);
    assert forall d :: 0 <= d < |s.cpus| ==> s'.cpus[d].idleTid == s.cpus[d].idleTid;
  }

  /** Being switched out, and perhaps straight back in, keeps what a thread runs with. */
  lemma LeaverKeepsContext(s: State, step: Step, t: nat)
    requires Inv(s) && Schedules(step) && Enabled(s, step) && Has(s, t) && NotIdle(s, t)
    requires s.cpus[step.c].current == Some(t)
    ensures Leaves(s, step, t) && Isolated(s, step, After(s, step), t)
  {
    hide Inv, AtPick, After, Runnable, Restored, ContextOf;
    LeaverSaved(s, step, t);
    AtPickFrame(s, step);
    StepSwitches(s, step);
    var s' := After(s, step);
    assert NotIdle(s', t) by { assert forall d :: 0 <= d < |s.cpus| ==> s'.cpus[d].idleTid == s.cpus[d].idleTid; }
    LeaverContext(AtPick(s, step), s', step.c, t);
  }

  /** Resumed at once or not, the thread that left has the context of its record. */
  lemma LeaverContext(s1: State, s': State, c: nat, t: nat)
    requires Switched(s1, s', c) && Has(s1, t) && !At(s1, t).phase.Running? && s'.cpus[c].idleTid != t
    ensures Has(s', t) && At(s', t).regs == At(s1, t).regs && ContextOf(s', t) == Restored(At(s1, t))
  {
    hide Runnable, Restored;
    if s'.cpus[c].current != Some(t) {
      assert s'.threads[t] == s1.threads[t];
    }
  }

  /** At the pick the record of the thread that leaves holds what was live, FS.base apart. */
  lemma LeaverSaved(s: State, step: Step, t: nat)
    requires Inv(s) && Schedules(step) && Enabled(s, step) && Has(s, t) && NotIdle(s, t)
    requires s.cpus[step.c].current == Some(t)
    ensures Leaves(s, step, t) && Has(AtPick(s, step), t)
    ensures var th, live, fs := At(AtPick(s, step), t), s.cpus[step.c].live, At(s, t).regs.fs;
            !th.phase.Running? && th.regs.fs == fs && Restored(th) == Kept(live, fs) && ContextOf(s, t) == live
  {
    hide SleepersOk, WaitersOk, OpOk, Inserted, Enlisted, IdleOk, Saved, Restored;
    var c := step.c;
    assert CurrentOk(s, c) && ThreadOk(s, t);
    var th := At(Before(s, step), t);
    assert At(AtPick(s, step), t) == Left(th, s.cpus[c]);
    assert th.regs == At(s, t).regs && th.tid == t;
    LeftRestores(th, s.cpus[c]);
  }

  lemma LeftRestores(th: Thread, cpu: Cpu)
    ensures Restored(Left(th, cpu)) == Kept(cpu.live, th.regs.fs) && Left(th, cpu).regs.fs == th.regs.fs
  {
  }

  /** Whatever step is taken, and by whom, a thread other than the one that takes it keeps its
      context; only being switched out resets FS.base to the recorded one. */
  lemma StepIsolates(s: State, step: Step, t: nat)
    requires Inv(s) && Enabled(s, step) && Has(s, t) && NotIdle(s, t) && !OwnStep(s, step, t)
    ensures Isolated(s, step, After(s, step), t)
  {
    hide Inv, After, Isolated, NotIdle, OwnStep;
    if !Schedules(step) {
      ElsewhereIsolates(s, step, t);
    } else if s.cpus[step.c].current == Some(t) {
      LeaverKeepsContext(s, step, t);
    } else {
      OtherKeepsContext(s, step, t);
    }
  }

  lemma ElsewhereIsolates(s: State, step: Step, t: nat)
    requires Inv(s) && Enabled(s, step) && Has(s, t) && NotIdle(s, t) && !OwnStep(s, step, t) && !Schedules(step)
    ensures Isolated(s, step, After(s, step), t)
  {
    hide Inv, Wake, AdvanceWakes, Advanced, Started, FirstWaiter, DecEvent, FreeSlot, TickTimer, ReadiesWaiter;
    hide Restored;
    match step
    case Timer(busy) => TimerIsolates(s, busy, t);
    case Start(th) => StartIsolates(s, step, th, t);
    case BootCpu(th, _) => StartIsolates(s, step, th, t);
    case WakeReady(c) => WakeIsolates(s, c, t);
    case _ => OneToOne(s);
  }

  lemma TimerIsolates(s: State, busy: bool, t: nat)
    requires Inv(s) && Has(s, t) && NotIdle(s, t)
    ensures Isolated(s, Timer(busy), TickTimer(s, busy), t)
  {
    hide Inv, Wake, AdvanceWakes, Advanced;
    if !busy {
      TimerKeeps(s);
      WakeAt(s.threads, AdvanceWakes(s.sleepers, s.lagged + 1), t);
    }
  }

  lemma StartIsolates(s: State, step: Step, th: Thread, t: nat)
    requires Inv(s) && Enabled(s, step) && Has(s, t) && NotIdle(s, t)
    requires (step.Start? || step.BootCpu?) && step.thread == th
    ensures Isolated(s, step, After(s, step), t)
  {
    hide Inv, Started, FreeSlot, Restored;
    OneToOne(s);
    StartAt(s.threads, th);
  }

  lemma WakeIsolates(s: State, c: nat, t: nat)
    requires Inv(s) && Enabled(s, WakeReady(c)) && Has(s, t) && NotIdle(s, t)
    ensures Isolated(s, WakeReady(c), ReadiesWaiter(s), t)
  {
    hide Inv;
    OneToOne(s);
    OpFacts(s);
  }

  /** Somewhere from state `i` to state `k` thread `t` was switched out. */
  ghost predicate SwitchedOut(states: seq<State>, steps: seq<Step>, t: nat, i: nat, k: nat)
    requires k <= |steps| < |states|
  {
    exists j :: i <= j < k && Leaves(states[j], steps[j], t)
  }

  /** Between two states of a run in which `t` takes no step of its own, its context stays, FS.base
      falling back to the recorded one when it is switched out. */
  lemma {:induction false} RunKeepsContext(states: seq<State>, steps: seq<Step>, t: nat, i: nat, k: nat)
    requires IsRun(states, steps) && i <= k <= |steps| && Inv(states[0]) && Has(states[i], t) && NotIdle(states[i], t)
    requires forall j :: i <= j < k ==> !OwnStep(states[j], steps[j], t)
    ensures Has(states[k], t) && NotIdle(states[k], t) && At(states[k], t).regs.fs == At(states[i], t).regs.fs
    ensures ContextOf(states[k], t) ==
            if SwitchedOut(states, steps, t, i, k) then Kept(ContextOf(states[i], t), At(states[i], t).regs.fs)
            else ContextOf(states[i], t)
  {
    hide Inv, Enabled, After, ContextOf, OwnStep, NotIdle, Leaves;
    if i < k {
      RunKeepsContext(states, steps, t, i, k - 1);
      RunKeeps(states, steps, k - 1);
      assert states[k] == After(states[k - 1], steps[k - 1]);
      StepIsolates(states[k - 1], steps[k - 1], t);
      if Leaves(states[k - 1], steps[k - 1], t) {
        assert SwitchedOut(states, steps, t, i, k);
      }
    }
  }

  /** Isolation over a run: whatever the other threads and all processors did in between, a thread that
      took no step of its own has every register, stack, address space and floating-point word it had,
      wherever it is resumed. FS.base is among them exactly if the thread was not switched out or its
      FS.base was the recorded one, as it is after set_fs_base_syscall. */
  lemma RunIsolates(states: seq<State>, steps: seq<Step>, t: nat, i: nat, k: nat)
    requires IsRun(states, steps) && i <= k <= |steps| && Inv(states[0]) && Has(states[i], t) && NotIdle(states[i], t)
    requires forall j :: i <= j < k ==> !OwnStep(states[j], steps[j], t)
    ensures Has(states[k], t)
    ensures ContextOf(states[k], t).(fsBase := 0) == ContextOf(states[i], t).(fsBase := 0)
    ensures ContextOf(states[k], t) == ContextOf(states[i], t) <==>
            !SwitchedOut(states, steps, t, i, k) || ContextOf(states[i], t).fsBase == At(states[i], t).regs.fs
  {
    hide Inv, Enabled, After, ContextOf, OwnStep, NotIdle, SwitchedOut;
    RunKeepsContext(states, steps, t, i, k);
  }
}
