/** When a sleeping thread wakes, over whole runs of the machine (src/proc/sleep_queue.c:57-103). */
module SchedSleep {
  import opened SleepQueue
  import opened SchedSteps
  import opened SchedInv
  import opened SchedRuns
  import opened SchedAccounts

  /** The timer ticks among the first `k` steps. */
  function Delivered(steps: seq<Step>, k: nat): nat
    requires k <= |steps|
  {
    if k == 0 then 0 else Delivered(steps, k - 1) + if steps[k - 1].Timer? then 1 else 0
  }

  /** The sleep queue after a step. */
  function SleepersThen(s: State, step: Step): Queue
    requires Enabled(s, step)
  {
    match step
    case Sleep(c, ms) => Inserted(s.sleepers, Current(s, c).tid, ms)
    case Timer(busy) => if busy then s.sleepers else Advanced(s.sleepers, s.lagged + 1)
    case _ => s.sleepers
  }

  function LaggedThen(s: State, step: Step): nat {
    match step
    case Timer(busy) => if busy then s.lagged + 1 else 0
    case _ => s.lagged
  }

  /** No step but sleep_ms and the timer touches the queue. */
  lemma SleepStep(s: State, step: Step)
    requires Inv(s) && Enabled(s, step)
    ensures After(s, step).sleepers == SleepersThen(s, step) && After(s, step).lagged == LaggedThen(s, step)
  {
    if Schedules(step) {
      hide Inv, After, Inserted;
      SleepersAfter(s, step);
    } else {
      hide Inv, Started, Wake, Advanced, FirstWaiter, DecEvent;
    }
  }

  /** Every sleep among the first `k` steps is of at least one tick. */
  ghost predicate PositiveSleeps(steps: seq<Step>, k: nat)
    requires k <= |steps|
  {
    forall i :: 0 <= i < k && steps[i].Sleep? ==> steps[i].ms >= 1
  }

  /** Ticks delivered are ticks counted down plus ticks lagged, and nobody at the head is due already. */
  lemma {:induction false} ClockOk(states: seq<State>, steps: seq<Step>, k: nat)
    requires IsRun(states, steps) && k <= |steps| && states[0] == POWER_ON && PositiveSleeps(steps, k)
    ensures states[k].lagged <= Delivered(steps, k) && HeadPositive(states[k].sleepers)
  {
    hide Enabled, After, Inserted, Advanced, HeadPositive, Inv;
    if k == 0 {
      assert HeadPositive(states[0].sleepers) by { NobodySleeps(); }
    } else {
      ClockOk(states, steps, k - 1);
      var s, step := states[k - 1], steps[k - 1];
      assert states[k] == After(s, step) && Enabled(s, step);
      RunKeeps(states, steps, k - 1);
      SleepStep(s, step);
      HeadStaysPositive(s, step);
    }
  }

  lemma NobodySleeps()
    ensures HeadPositive(POWER_ON.sleepers)
  {
  }

  lemma HeadStaysPositive(s: State, step: Step)
    requires Enabled(s, step) && HeadPositive(s.sleepers) && (step.Sleep? ==> step.ms >= 1)
    ensures HeadPositive(SleepersThen(s, step))
  {
    hide HeadPositive, Inserted, Advanced;
    match step
    case Sleep(c, ms) => InsertAddsDeadline(s.sleepers, Current(s, c).tid, ms, 0);
    case Timer(busy) => if !busy { AdvanceKeepsLater(s.sleepers, 0, s.lagged + 1); }
    case _ =>
  }

  /** The ticks counted down so far. */
  function CountedBy(states: seq<State>, steps: seq<Step>, k: nat): int
    requires k <= |steps| < |states|
  {
    Delivered(steps, k) - states[k].lagged
  }

  /** When a thread that goes to sleep at step `j` is due. */
  function DueTick(states: seq<State>, steps: seq<Step>, j: nat): int
    requires j < |steps| < |states| && steps[j].Sleep?
  {
    CountedBy(states, steps, j) + steps[j].ms
  }

  /** No timer tick that gets the lock between steps `j` and `i` comes at or after tick `d`. */
  ghost predicate NotYet(steps: seq<Step>, j: nat, i: nat, d: int)
    requires i <= |steps|
  {
    forall l :: j < l < i && steps[l] == Timer(false) ==> Delivered(steps, l) + 1 < d
  }

  /** Until then the thread is in the queue with that deadline. */
  lemma {:induction false} StillDue(states: seq<State>, steps: seq<Step>, t: nat, j: nat, i: nat)
    requires IsRun(states, steps) && states[0] == POWER_ON && j < i <= |steps| && PositiveSleeps(steps, i)
    requires steps[j].Sleep? && RunsOn(states[j], t, steps[j].c)
    requires NotYet(steps, j, i, DueTick(states, steps, j))
    ensures CountedBy(states, steps, i) >= 0 && DueTick(states, steps, j) >= 0
    ensures Due(t, DueTick(states, steps, j)) in Deadlines(states[i].sleepers, CountedBy(states, steps, i))
    decreases i
  {
    hide Enabled, After, Inserted, Advanced, Deadlines, HeadPositive, Inv;
    var s, step, d := states[i - 1], steps[i - 1], DueTick(states, steps, j);
    assert states[i] == After(s, step) && Enabled(s, step);
    RunKeeps(states, steps, i - 1);
    SleepStep(s, step);
    ClockOk(states, steps, i - 1);
    ClockOk(states, steps, i);
    if j == i - 1 {
      TidIs(s, step.c, t);
      InsertAddsDeadline(s.sleepers, t, step.ms, CountedBy(states, steps, j));
      assert Due(t, d) in multiset(Deadlines(states[i].sleepers, CountedBy(states, steps, i)));
    } else {
      ClockOk(states, steps, j);
      StillDue(states, steps, t, j, i - 1);
      DeadlineKept(s, step, t, d, CountedBy(states, steps, i - 1));
    }
  }

  lemma TidIs(s: State, c: nat, t: nat)
    requires Inv(s) && RunsOn(s, t, c)
    ensures Busy(s, c) && Current(s, c).tid == t
  {
    hide SleepersOk, WaitersOk, OpOk;
    OneToOne(s);
  }

  /** A step that does not count down to `d` keeps a deadline at `d`. */
  lemma DeadlineKept(s: State, step: Step, t: nat, d: nat, counted: nat)
    requires Enabled(s, step) && HeadPositive(s.sleepers) && Due(t, d) in Deadlines(s.sleepers, counted)
    requires step == Timer(false) ==> counted + s.lagged + 1 < d
    ensures var counted' := if step == Timer(false) then counted + s.lagged + 1 else counted;
            Due(t, d) in Deadlines(SleepersThen(s, step), counted')
  {
    hide Inserted, Advanced, Deadlines, HeadPositive;
    match step
    case Sleep(c, ms) =>
      InsertKept(s.sleepers, Current(s, c).tid, ms, counted, Due(t, d));
    case Timer(busy) =>
      if !busy {
        AdvanceKeepsLater(s.sleepers, counted, s.lagged + 1);
        DueAfterMembers(Deadlines(s.sleepers, counted), counted + s.lagged + 1);
      }
    case _ =>
  }

  lemma InsertKept(q: Queue, tid: nat, ms: nat, now: nat, due: Due)
    requires due in Deadlines(q, now)
    ensures due in Deadlines(Inserted(q, tid, ms), now)
  {
    hide Deadlines, Inserted;
    InsertAddsDeadline(q, tid, ms, now);
    assert due in multiset(Deadlines(q, now));
    assert due in multiset(Deadlines(Inserted(q, tid, ms), now));
  }

  /** Over every run in which sleeps are of at least one tick, a thread that went to sleep for `ms` when
      `delivered - lagged` ticks had been counted sleeps until the first timer tick that gets the lock at
      or after their sum, and that tick makes it ready. */
  lemma SleeperWakes(states: seq<State>, steps: seq<Step>, t: nat, j: nat, i: nat)
    requires IsRun(states, steps) && states[0] == POWER_ON && j < i <= |steps| && PositiveSleeps(steps, i)
    requires steps[j].Sleep? && RunsOn(states[j], t, steps[j].c) && NotYet(steps, j, i, DueTick(states, steps, j))
    ensures Has(states[i], t) && At(states[i], t).phase.Sleeping?
    ensures i < |steps| && steps[i] == Timer(false) && Delivered(steps, i) + 1 >= DueTick(states, steps, j) ==>
            IsReady(states[i + 1], t)
  {
    hide Enabled, After, Deadlines, AdvanceWakes, Advanced, Wake, HeadPositive, Inv, DueTick;
    var s, d, counted := states[i], DueTick(states, steps, j), CountedBy(states, steps, i);
    StillDue(states, steps, t, j, i);
    RunKeeps(states, steps, i);
    ClockOk(states, steps, i);
    QueuedSleeps(s, counted, Due(t, d));
    if i < |steps| && steps[i] == Timer(false) && Delivered(steps, i) + 1 >= d {
      assert states[i + 1] == After(s, steps[i]);
      AdvanceWakesAllDue(s.sleepers, counted, s.lagged + 1, t);
      assert DueBy(Deadlines(s.sleepers, counted), counted + s.lagged + 1, t);
      WakeAt(s.threads, AdvanceWakes(s.sleepers, s.lagged + 1), t);
      assert states[i + 1].threads == Wake(s.threads, AdvanceWakes(s.sleepers, s.lagged + 1)) by { TimerThreads(s); }
    }
  }

  lemma TimerThreads(s: State)
    ensures Enabled(s, Timer(false))
    ensures After(s, Timer(false)).threads == Wake(s.threads, AdvanceWakes(s.sleepers, s.lagged + 1))
  {
    hide Wake, AdvanceWakes, Advanced;
  }

  /** A thread with a deadline sleeps. */
  lemma QueuedSleeps(s: State, now: nat, due: Due)
    requires Inv(s) && due in Deadlines(s.sleepers, now)
    ensures Has(s, due.tid) && At(s, due.tid).phase.Sleeping?
  {
    hide Placed, WaitersOk, OpOk, Deadlines;
    DeadlinesLength(s.sleepers, now);
    var i :| 0 <= i < |s.sleepers| && Deadlines(s.sleepers, now)[i] == due;
    assert s.sleepers[i].tid == due.tid;
  }
}
