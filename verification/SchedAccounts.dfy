/** No thread is ever lost: a thread that sleeps is in the sleep queue, and a blocked one is on a futex
    list, is a processor's idle thread or was started blocked, in every state of every run. */
module SchedAccounts {
  import opened Common
  import opened Contexts
  import opened SleepQueue
  import opened SchedSteps
  import opened SchedInv
  import opened SchedRuns
  import opened SchedFutex

  ghost predicate Queued(s: State, t: nat) {
    exists i :: 0 <= i < |s.sleepers| && s.sleepers[i].tid == t
  }

  ghost predicate InList(s: State, t: nat) {
    exists f, i :: Listed(s, f, i) && Waiter(s, f, i) == t
  }

  ghost predicate Traced(s: State, t: nat)
    requires Has(s, t)
  {
    && (At(s, t).phase.Sleeping? ==> Queued(s, t))
    && (At(s, t).phase.Blocked? ==> !NotIdle(s, t) || InList(s, t))
  }

  /** The waiter futex_wake has readied is not blocked again before its place is emptied. */
  ghost predicate WokenAwake(s: State) {
    s.op.Some? && s.op.value.Woke? && Listed(s, s.op.value.futex, s.op.value.slot) ==>
      var t := Waiter(s, s.op.value.futex, s.op.value.slot); Has(s, t) && !At(s, t).phase.Blocked?
  }

  /** All threads but the parked ones, which were started blocked, can be found. */
  ghost predicate Accounted(s: State, parked: set<nat>) {
    WokenAwake(s) && forall t: nat :: Has(s, t) && t !in parked ==> Traced(s, t)
  }

  /** The threads parked after one more step. */
  function Parked(s: State, step: Step, parked: set<nat>): set<nat> {
    if step.Start? && step.thread.phase.Blocked? then parked + {FreeSlot(s.threads)} else parked
  }

  /** Queues only grow when a thread is switched away. */
  lemma QueuesGrow(s: State, step: Step, t: nat)
    requires Inv(s) && Schedules(step) && Enabled(s, step)
    ensures Queued(s, t) ==> Queued(After(s, step), t)
    ensures InList(s, t) ==> InList(After(s, step), t)
    ensures !step.FutexBlock? ==> After(s, step).op == s.op && After(s, step).lists == s.lists
    ensures step.FutexBlock? ==> After(s, step).op.None? && s.op.Some? && s.op.value.Waiting?
    ensures step.Sleep? && s.cpus[step.c].current == Some(t) ==> Queued(After(s, step), t)
    ensures step.FutexBlock? && s.cpus[step.c].current == Some(t) ==> InList(After(s, step), t)
  {
    hide Inv, After, Inserted;
    var s' := After(s, step);
    SleepersAfter(s, step);
    if step.Sleep? && (Queued(s, t) || s.cpus[step.c].current == Some(t)) {
      SleeperQueued(s, step, t);
    }
    if step.FutexBlock? {
      BlockTakesPlace(s, step.c);
    } else {
      ListsKept(s, step);
    }
    if InList(s, t) {
      var f, i :| Listed(s, f, i) && Waiter(s, f, i) == t;
      assert Listed(s', f, i) && Waiter(s', f, i) == t;
    }
  }

  /** Going to sleep adds the thread to the queue; no other switch touches it. */
  lemma SleepersAfter(s: State, step: Step)
    requires Inv(s) && Schedules(step) && Enabled(s, step)
    ensures After(s, step).lagged == s.lagged
    ensures !step.Sleep? ==> After(s, step).sleepers == s.sleepers
    ensures step.Sleep? ==>
            Busy(s, step.c) && After(s, step).sleepers == Inserted(s.sleepers, Current(s, step.c).tid, step.ms)
  {
    hide Inv, After, Left, Inserted, Enlisted;
    StepSwitches(s, step);
  }

  lemma SleeperQueued(s: State, step: Step, t: nat)
    requires Inv(s) && step.Sleep? && Enabled(s, step) && (Queued(s, t) || s.cpus[step.c].current == Some(t))
    ensures Queued(After(s, step), t)
  {
    hide Inv, After, Inserted, Position;
    SleepersAfter(s, step);
    BusyRuns(s, step.c);
    var q, q', k := s.sleepers, After(s, step).sleepers, Position(s.sleepers, step.ms);
    InsertTids(q, Current(s, step.c).tid, step.ms);
    if s.cpus[step.c].current == Some(t) {
      assert q'[k].tid == t;
    } else {
      var i :| 0 <= i < |q| && q[i].tid == t;
      var j := if i < k then i else i + 1;
      assert q'[j].tid == t;
    }
  }

  /** The thread that is switched away is where its new phase says. */
  lemma LeaverTraced(s: State, step: Step, t: nat)
    requires Inv(s) && Schedules(step) && Enabled(s, step) && Has(s, t) && NotIdle(s, t)
    requires s.cpus[step.c].current == Some(t)
    ensures var s' := After(s, step);
            && Has(s', t) && NotIdle(s', t) && (At(s', t).phase.Sleeping? ==> step.Sleep?)
            && (At(s', t).phase.Blocked? ==> step.FutexBlock?)
  {
    hide Inv, AtPick, After, Restored, Runnable;
    LeaverPhase(s, step, t);
    SameThreads(s, step, t);
    StepSwitches(s, step);
    var s', c := After(s, step), step.c;
    if s'.cpus[c].current != Some(t) {
      assert s'.threads[t] == AtPick(s, step).threads[t];
    }
  }

  lemma LeaverPhase(s: State, step: Step, t: nat)
    requires Inv(s) && Schedules(step) && Enabled(s, step) && Has(s, t) && NotIdle(s, t)
    requires s.cpus[step.c].current == Some(t)
    ensures var s1 := AtPick(s, step);
            Has(s1, t) && (At(s1, t).phase.Sleeping? ==> step.Sleep?) && (At(s1, t).phase.Blocked? ==> step.FutexBlock?)
  {
    hide SleepersOk, WaitersOk, OpOk, Inserted, Enlisted, Saved;
    assert CurrentOk(s, step.c) && s.cpus[step.c].idleTid != t;
  }

  /** A thread that could be found before a switch can be found after it, and one that was not blocked
      is blocked by futex_wait only. */
  lemma ScheduleTraces(s: State, step: Step, t: nat)
    requires Inv(s) && Schedules(step) && Enabled(s, step) && Has(s, t)
    ensures Has(After(s, step), t) && (Traced(s, t) ==> Traced(After(s, step), t))
    ensures !step.FutexBlock? && !At(s, t).phase.Blocked? && NotIdle(s, t) ==> !At(After(s, step), t).phase.Blocked?
  {
    hide Inv, After, InList, Queued, NotIdle;
    SameThreads(s, step, t);
    QueuesGrow(s, step, t);
    if !NotIdle(s, t) {
      StepKeeps(s, step);
      IdleBlocked(After(s, step), t);
    } else {
      if s.cpus[step.c].current == Some(t) {
        LeaverTraced(s, step, t);
      } else {
        OthersKeptOrPicked(s, step, t);
      }
    }
  }

  /** Scheduling creates no thread and changes no idle thread. */
  lemma SameThreads(s: State, step: Step, t: nat)
    requires Inv(s) && Schedules(step) && Enabled(s, step)
    ensures step.c < |s.cpus| && (Has(After(s, step), t) <==> Has(s, t))
    ensures (NotIdle(After(s, step), t) <==> NotIdle(s, t))
  {
    hide Inv, AtPick, After, Restored, Runnable, Taken;
    AtPickFrame(s, step);
    StepSwitches(s, step);
    var s', c := After(s, step), step.c;
    assert t < |s.threads| && s'.cpus[c].current != Some(t) ==> s'.threads[t] == AtPick(s, step).threads[t];
    assert |s'.cpus| == |s.cpus| && forall d :: 0 <= d < |s.cpus| ==> s'.cpus[d].idleTid == s.cpus[d].idleTid;
  }

  lemma IdleBlocked(s: State, t: nat)
    requires Inv(s) && Has(s, t) && !NotIdle(s, t)
    ensures At(s, t).phase.Blocked?
  {
    hide SleepersOk, WaitersOk, OpOk, ThreadsOk, CurrentsOk;
  }

  lemma ScheduleAccounts(s: State, step: Step, parked: set<nat>)
    requires Inv(s) && Accounted(s, parked) && Schedules(step) && Enabled(s, step)
    ensures Accounted(After(s, step), parked)
  {
    hide Inv, After, Enabled, Traced;
    var s' := After(s, step);
    forall t: nat | Has(s', t) && t !in parked ensures Traced(s', t) {
      SameThreads(s, step, t);
      ScheduleTraces(s, step, t);
    }
    QueuesGrow(s, step, 0);
    if s.op.Some? && s.op.value.Woke? && Listed(s, s.op.value.futex, s.op.value.slot) {
      var t := Waiter(s, s.op.value.futex, s.op.value.slot);
      OpFacts(s);
      SameThreads(s, step, t);
      ScheduleTraces(s, step, t);
    }
  }

  /** The timer readies exactly the threads it takes off the queue. */
  lemma TimerAccounts(s: State, parked: set<nat>)
    requires Inv(s) && Accounted(s, parked)
    ensures Accounted(TickTimer(s, false), parked)
  {
    hide Inv, Wake, AdvanceWakes, Advanced;
    var s', wakes, q := TickTimer(s, false), AdvanceWakes(s.sleepers, s.lagged + 1), Advanced(s.sleepers, s.lagged + 1);
    TimerKeeps(s);
    AdvanceTids(s.sleepers, s.lagged + 1);
    forall t: nat | Has(s', t) && t !in parked
      ensures Has(s, t) && Traced(s', t) && (!At(s, t).phase.Blocked? ==> !At(s', t).phase.Blocked?)
    {
      WakeAt(s.threads, wakes, t);
      assert Has(s, t) && Traced(s, t);
      if At(s', t).phase.Sleeping? {
        assert t !in wakes && Queued(s, t);
        var i :| 0 <= i < |s.sleepers| && s.sleepers[i].tid == t;
        assert Tids(s.sleepers)[i] == t && i >= |wakes|;
        assert q[i - |wakes|].tid == Tids(q)[i - |wakes|] == t;
      }
      if At(s', t).phase.Blocked? && InList(s, t) {
        var f, i :| Listed(s, f, i) && Waiter(s, f, i) == t;
        assert Listed(s', f, i) && Waiter(s', f, i) == t;
      }
    }
    if s.op.Some? && s.op.value.Woke? && Listed(s, s.op.value.futex, s.op.value.slot) {
      WakeAt(s.threads, wakes, Waiter(s, s.op.value.futex, s.op.value.slot));
    }
  }

  /** Threads, queues, lists and processors unchanged: so is what is accounted for. */
  lemma SameAccounts(s: State, s': State, parked: set<nat>)
    requires Accounted(s, parked) && s'.threads == s.threads && s'.sleepers == s.sleepers && |s'.cpus| == |s.cpus|
    requires forall c :: 0 <= c < |s.cpus| ==> s'.cpus[c].idleTid == s.cpus[c].idleTid
    requires s'.op.Some? && s'.op.value.Woke? ==> s'.op == s.op
    requires forall f, i :: Listed(s, f, i) <==> Listed(s', f, i)
    requires forall f, i :: Listed(s, f, i) ==> Waiter(s', f, i) == Waiter(s, f, i)
    ensures Accounted(s', parked)
  {
    forall t: nat | Has(s', t) && t !in parked ensures Traced(s', t) {
      assert Has(s, t) && Traced(s, t);
      if InList(s, t) {
        var f, i :| Listed(s, f, i) && Waiter(s, f, i) == t;
        assert Listed(s', f, i) && Waiter(s', f, i) == t;
      }
    }
  }

  lemma StartAccounts(s: State, s': State, th: Thread, parked: set<nat>, parked': set<nat>)
    requires Inv(s) && Accounted(s, parked) && s'.threads == Started(s.threads, th) && parked <= parked'
    requires s'.sleepers == s.sleepers && s'.lists == s.lists && s'.op == s.op
    requires |s.cpus| <= |s'.cpus| && (forall c :: 0 <= c < |s.cpus| ==> s'.cpus[c].idleTid == s.cpus[c].idleTid)
    requires th.phase.Ready? || th.phase.Blocked?
    requires th.phase.Blocked? ==> FreeSlot(s.threads) in parked' || !NotIdle(s', FreeSlot(s.threads))
    ensures Accounted(s', parked')
  {
    hide Inv, Started, FreeSlot;
    StartAt(s.threads, th);
    forall t: nat | Has(s', t) && t !in parked' ensures Traced(s', t) {
      if t != FreeSlot(s.threads) {
        assert Has(s, t) && Traced(s, t) && At(s', t) == At(s, t);
        if InList(s, t) {
          var f, i :| Listed(s, f, i) && Waiter(s, f, i) == t;
          assert Listed(s', f, i) && Waiter(s', f, i) == t;
        }
      }
    }
    if s.op.Some? && s.op.value.Woke? && Listed(s, s.op.value.futex, s.op.value.slot) {
      OpFacts(s);
    }
  }

  lemma WakeReadyAccounts(s: State, c: nat, parked: set<nat>)
    requires Inv(s) && Accounted(s, parked) && Enabled(s, WakeReady(c))
    ensures Accounted(After(s, WakeReady(c)), parked)
  {
    hide Inv;
    WakeReadiesOne(s, c);
    var s', t0 := After(s, WakeReady(c)), Waiter(s, s.op.value.futex, s.op.value.slot);
    forall t: nat | Has(s', t) && t !in parked ensures Traced(s', t) {
      if t != t0 {
        assert Has(s, t) && Traced(s, t) && At(s', t) == At(s, t);
        if InList(s, t) {
          var f, i :| Listed(s, f, i) && Waiter(s, f, i) == t;
          assert Listed(s', f, i) && Waiter(s', f, i) == t;
        }
      }
    }
  }

  lemma WakeClearAccounts(s: State, c: nat, parked: set<nat>)
    requires Inv(s) && Accounted(s, parked) && Enabled(s, WakeClear(c))
    ensures Accounted(After(s, WakeClear(c)), parked)
  {
    hide Inv;
    OpFacts(s);
    var s', op := After(s, WakeClear(c)), s.op.value;
    var t0 := Waiter(s, op.futex, op.slot);
    forall t: nat | Has(s', t) && t !in parked ensures Traced(s', t) {
      assert Has(s, t) && Traced(s, t);
      if At(s, t).phase.Blocked? && InList(s, t) {
        var f, i :| Listed(s, f, i) && Waiter(s, f, i) == t;
        assert f != op.futex || i != op.slot;
        assert Listed(s', f, i) && Waiter(s', f, i) == t;
      }
    }
  }

  lemma StepAccounts(s: State, step: Step, parked: set<nat>)
    requires Inv(s) && Accounted(s, parked) && Enabled(s, step)
    ensures Accounted(After(s, step), Parked(s, step, parked))
  {
    hide Inv, Accounted, Schedule, Before, Started, Wake, Advanced, AdvanceWakes, FirstWaiter, DecEvent, TickTimer;
    hide FreeSlot;
    if Schedules(step) {
      ScheduleAccounts(s, step, parked);
    } else {
      match step
      case Timer(busy) => if busy { BusyAccounts(s, parked); } else { TimerAccounts(s, parked); }
      case Start(th) => StartAccounts(s, After(s, step), th, parked, Parked(s, step, parked));
      case BootCpu(th, live) => BootAccounts(s, th, live, parked);
      case WakeReady(c) => WakeReadyAccounts(s, c, parked);
      case WakeClear(c) => WakeClearAccounts(s, c, parked);
      case SetFs(c, base) => SetFsAccounts(s, c, base, parked);
      case FutexWait(_, _, _) => SameAccounts(s, After(s, step), parked);
      case FutexWake(_, _) => SameAccounts(s, After(s, step), parked);
      case Execute(_, _) => SameAccounts(s, After(s, step), parked);
      case TakeEvent(_) => SameAccounts(s, After(s, step), parked);
      case Trigger(_) => SameAccounts(s, After(s, step), parked);
      case Store(_, _) => SameAccounts(s, After(s, step), parked);
    }
  }

  lemma BusyAccounts(s: State, parked: set<nat>)
    requires Accounted(s, parked)
    ensures Accounted(TickTimer(s, true), parked)
  {
    hide Accounted;
    SameAccounts(s, TickTimer(s, true), parked);
  }

  lemma BootAccounts(s: State, th: Thread, live: Live, parked: set<nat>)
    requires Inv(s) && Accounted(s, parked) && th.phase.Blocked? && !th.running
    ensures Accounted(After(s, BootCpu(th, live)), parked)
  {
    hide Inv, Accounted, Started, FreeSlot;
    var s' := After(s, BootCpu(th, live));
    assert s'.cpus[|s.cpus|].idleTid == FreeSlot(s.threads);
    StartAccounts(s, s', th, parked, parked);
  }

  lemma SetFsAccounts(s: State, c: nat, base: nat, parked: set<nat>)
    requires Accounted(s, parked) && Calls(s, c)
    ensures Accounted(After(s, SetFs(c, base)), parked)
  {
    var s' := After(s, SetFs(c, base));
    assert |s'.cpus| == |s.cpus| && forall d :: 0 <= d < |s.cpus| ==> s'.cpus[d].idleTid == s.cpus[d].idleTid;
    forall t: nat | Has(s', t) && t !in parked ensures Traced(s', t) {
      assert Has(s, t) && Traced(s, t) && At(s', t).phase == At(s, t).phase;
      if InList(s, t) {
        var f, i :| Listed(s, f, i) && Waiter(s, f, i) == t;
        assert Listed(s', f, i) && Waiter(s', f, i) == t;
      }
    }
  }

  /** The threads started blocked among the first `k` steps. */
  ghost function ParkedBy(states: seq<State>, steps: seq<Step>, k: nat): set<nat>
    requires k <= |steps| < |states|
  {
    if k == 0 then {} else Parked(states[k - 1], steps[k - 1], ParkedBy(states, steps, k - 1))
  }

  /** No thread is lost, from power-on, in any state of any run: if it cannot be found, it was started
      blocked. */
  lemma {:induction false} NobodyLost(states: seq<State>, steps: seq<Step>, k: nat)
    requires IsRun(states, steps) && k <= |steps| && states[0] == POWER_ON
    ensures forall t: nat :: Has(states[k], t) && t !in ParkedBy(states, steps, k) ==> Traced(states[k], t)
    ensures Accounted(states[k], ParkedBy(states, steps, k))
  {
    hide Inv, Enabled, After, Traced, Parked;
    if k > 0 {
      NobodyLost(states, steps, k - 1);
      RunKeeps(states, steps, k - 1);
      assert states[k] == After(states[k - 1], steps[k - 1]) && Enabled(states[k - 1], steps[k - 1]);
      StepAccounts(states[k - 1], steps[k - 1], ParkedBy(states, steps, k - 1));
    }
  }

  /** Without such starts nobody is lost at all. */
  lemma {:induction false} NoneParked(states: seq<State>, steps: seq<Step>, k: nat)
    requires k <= |steps| < |states| && forall i :: 0 <= i < k && steps[i].Start? ==> steps[i].thread.phase.Ready?
    ensures ParkedBy(states, steps, k) == {}
  {
    if k > 0 {
      NoneParked(states, steps, k - 1);
    }
  }
}
