/** Futexes and timeouts over whole runs (src/proc/sched_syscalls.c:322-390,
    src/proc/scheduler.c:604-615). */
module SchedFutex {
  import opened Common
  import opened Contexts
  import opened SleepQueue
  import opened SchedSteps
  import opened SchedInv
  import opened SchedRuns

  /** With the futex lock free, every waiter is blocked and stands in one place. */
  lemma WaitersBlocked(s: State)
    requires Inv(s) && s.op.None?
    ensures forall f, i :: Listed(s, f, i) ==> Has(s, Waiter(s, f, i)) && At(s, Waiter(s, f, i)).phase.Blocked?
    ensures forall f, i, g, j :: Listed(s, f, i) && Listed(s, g, j) && Waiter(s, f, i) == Waiter(s, g, j) ==>
            f == g && i == j
  {
    hide Placed, SleepersOk;
    forall f, i | Listed(s, f, i) ensures WaiterOk(s, f, i) {
    }
  }

  /** The steps that change who waits. */
  predicate FutexStep(step: Step) {
    step.FutexBlock? || step.WakeReady? || step.WakeClear? || step.FutexWait? || step.FutexWake?
  }

  /** Everything else, by whichever processor, leaves the wait lists and the futex lock alone. */
  lemma ListsKept(s: State, step: Step)
    requires Enabled(s, step) && !FutexStep(step)
    ensures After(s, step).lists == s.lists && After(s, step).op == s.op
  {
    if Schedules(step) {
      hide After, Inserted, Left, Switched;
      StepSwitches(s, step);
      assert Switched(AtPick(s, step), After(s, step), step.c);
    } else {
      hide Started, Wake, Advanced, AdvanceWakes, DecEvent;
    }
  }

  /** The places taken. */
  ghost function Places(lists: map<nat, WaitList>): set<(nat, nat)> {
    set f, i | f in lists && 0 <= i < |lists[f]| && lists[f][i].Some? :: (f, i)
  }

  /** The last step of futex_wait lists the thread and gives the lock back. */
  lemma BlockLists(s: State, c: nat)
    requires Inv(s) && Enabled(s, FutexBlock(c))
    ensures var s', f := After(s, FutexBlock(c)), s.op.value.futex;
            f in s.lists && s'.op.None? && s'.lists == s.lists[f := Enlisted(s.lists[f], s.op.value.holder)]
  {
    hide Inv, After, Left, Enlisted;
    OpFacts(s);
    StepSwitches(s, FutexBlock(c));
  }

  /** futex_wait takes one free place, for the thread that holds the lock; nobody else moves. */
  lemma BlockTakesPlace(s: State, c: nat)
    requires Inv(s) && Enabled(s, FutexBlock(c))
    ensures var f, s' := s.op.value.futex, After(s, FutexBlock(c));
            && f in s.lists && s'.op.None?
            && (f, FreePlace(s.lists[f])) !in Places(s.lists)
            && Places(s'.lists) == Places(s.lists) + {(f, FreePlace(s.lists[f]))}
            && Listed(s', f, FreePlace(s.lists[f])) && Waiter(s', f, FreePlace(s.lists[f])) == s.op.value.holder
            && forall g, i :: Listed(s, g, i) ==> Listed(s', g, i) && Waiter(s', g, i) == Waiter(s, g, i)
  {
    hide Inv, After, Enlisted, FreePlace;
    BlockLists(s, c);
    EnlistPlaces(s.lists, s.op.value.futex, s.op.value.holder);
  }

  lemma EnlistPlaces(lists: map<nat, WaitList>, f: nat, t: nat)
    requires f in lists
    ensures var lists', k := lists[f := Enlisted(lists[f], t)], FreePlace(lists[f]);
            && (f, k) !in Places(lists) && Places(lists') == Places(lists) + {(f, k)}
            && k < |lists'[f]| && lists'[f][k] == Some(t)
            && forall g, i :: g in lists && 0 <= i < |lists[g]| && lists[g][i].Some? ==>
                i < |lists'[g]| && lists'[g][i] == lists[g][i]
  {
    hide FreePlace;
  }

  /** futex_wake finds the first waiter, or nobody: it takes the lock exactly if someone waits. */
  lemma WakeFindsWaiter(s: State, c: nat, f: nat)
    requires Inv(s) && Enabled(s, FutexWake(c, f))
    ensures var s' := After(s, FutexWake(c, f));
            && s'.lists == s.lists && s'.threads == s.threads
            && (s'.op.Some? <==> exists i :: Listed(s, f, i))
            && (s'.op.Some? ==> s'.op.value.Found? && s'.op.value.futex == f && Listed(s, f, s'.op.value.slot) &&
                                forall i :: Listed(s, f, i) ==> s'.op.value.slot <= i)
  {
    hide Inv;
    var i := FirstWaiter(ListOf(s, f));
    if i < |ListOf(s, f)| {
      assert Listed(s, f, i);
    }
  }

  /** The waiter found, and nobody else, turns from blocked to ready. */
  lemma WakeReadiesOne(s: State, c: nat)
    requires Inv(s) && Enabled(s, WakeReady(c))
    ensures var s', t := After(s, WakeReady(c)), Waiter(s, s.op.value.futex, s.op.value.slot);
            && Listed(s, s.op.value.futex, s.op.value.slot)
            && Has(s, t) && At(s, t).phase.Blocked? && IsReady(s', t) && s'.lists == s.lists
            && forall u: nat :: u < |s.threads| && u != t ==> s'.threads[u] == s.threads[u]
  {
    hide Inv;
    OpFacts(s);
  }

  /** Its place, and no other, is emptied. */
  lemma WakeClearsPlace(s: State, c: nat)
    requires Inv(s) && Enabled(s, WakeClear(c))
    ensures var s', p := After(s, WakeClear(c)), (s.op.value.futex, s.op.value.slot);
            p in Places(s.lists) && Places(s'.lists) == Places(s.lists) - {p} && s'.op.None? && s'.threads == s.threads
  {
    hide Inv;
    OpFacts(s);
  }

  lemma CallsKeepPlaces(s: State, step: Step)
    requires Inv(s) && Enabled(s, step) && (step.FutexWait? || step.FutexWake? || step.WakeReady?)
    ensures Places(After(s, step).lists) == Places(s.lists)
  {
    hide Inv, FirstWaiter;
  }

  function Waits(steps: seq<Step>, k: nat): nat
    requires k <= |steps|
  {
    if k == 0 then 0 else Waits(steps, k - 1) + if steps[k - 1].FutexBlock? then 1 else 0
  }

  function Wakes(steps: seq<Step>, k: nat): nat
    requires k <= |steps|
  {
    if k == 0 then 0 else Wakes(steps, k - 1) + if steps[k - 1].WakeClear? then 1 else 0
  }

  /** No waiter and no wake is lost: over every run the waits entered less the wakes delivered are
      the waiters there are. */
  lemma {:induction false} WaitersConserved(states: seq<State>, steps: seq<Step>, k: nat)
    requires IsRun(states, steps) && Inv(states[0]) && k <= |steps|
    ensures |Places(states[k].lists)| + Wakes(steps, k) == |Places(states[0].lists)| + Waits(steps, k)
  {
    hide Inv, Enabled, After, Places;
    if k > 0 {
      WaitersConserved(states, steps, k - 1);
      RunKeeps(states, steps, k - 1);
      var s, step := states[k - 1], steps[k - 1];
      assert states[k] == After(s, step) && Enabled(s, step);
      match step
      case FutexBlock(c) => BlockTakesPlace(s, c);
      case WakeClear(c) => WakeClearsPlace(s, c);
      case FutexWait(_, _, _) => CallsKeepPlaces(s, step);
      case FutexWake(_, _) => CallsKeepPlaces(s, step);
      case WakeReady(_) => CallsKeepPlaces(s, step);
      case _ => ListsKept(s, step);
    }
  }

  /** Among the first `k` steps thread `t` saw the word of futex `f` equal what it expected. */
  ghost predicate Checked(states: seq<State>, steps: seq<Step>, k: nat, f: nat, t: nat)
    requires k <= |steps| < |states|
  {
    exists j :: 0 <= j < k && ChecksAt(states[j], steps[j], f, t)
  }

  ghost predicate ChecksAt(s: State, step: Step, f: nat, t: nat) {
    step.FutexWait? && step.futex == f && RunsOn(s, t, step.c) &&
    (if f in s.words then s.words[f] else 0) == step.expected
  }

  /** No step but a store to it changes a word. */
  lemma WordThen(s: State, step: Step, w: nat)
    requires Enabled(s, step)
    ensures var s' := After(s, step);
            if step.Store? && step.word == w then w in s'.words && s'.words[w] == step.value
            else (w in s'.words <==> w in s.words) && (w in s.words ==> s'.words[w] == s.words[w])
  {
    if Schedules(step) {
      hide After, AtPick, Enabled;
      AtPickFrame(s, step);
      StepSwitches(s, step);
    } else {
      hide Started, Wake, Advanced, AdvanceWakes, FirstWaiter, DecEvent;
    }
  }

  /** Over every run the word a futex check reads is the one stored last. */
  lemma {:induction false} LastStored(states: seq<State>, steps: seq<Step>, w: nat, j: nat, k: nat)
    requires IsRun(states, steps) && j < k <= |steps| && steps[j].Store? && steps[j].word == w
    requires forall l :: j < l < k ==> !(steps[l].Store? && steps[l].word == w)
    ensures w in states[k].words && states[k].words[w] == steps[j].value
    decreases k
  {
    hide Enabled, After;
    var s, step := states[k - 1], steps[k - 1];
    assert states[k] == After(s, step) && Enabled(s, step);
    WordThen(s, step, w);
    if j < k - 1 {
      LastStored(states, steps, w, j, k - 1);
    }
  }

  /** Starting without waiters, a thread is on the list of a futex only if, holding the lock, it saw
      the word equal the value it expected. */
  lemma {:induction false} ListedOnlyIfChecked(states: seq<State>, steps: seq<Step>, k: nat, f: nat, t: nat)
    requires IsRun(states, steps) && Inv(states[0]) && k <= |steps|
    requires states[0].op.None? && Places(states[0].lists) == {}
    ensures (exists i :: Listed(states[k], f, i) && Waiter(states[k], f, i) == t) ==> Checked(states, steps, k, f, t)
    ensures states[k].op == Some(Waiting(t, f)) ==> Checked(states, steps, k, f, t)
  {
    hide Inv, Enabled, After, Places, ChecksAt;
    if k == 0 {
      EmptyPlaces(states[0]);
    } else {
      ListedOnlyIfChecked(states, steps, k - 1, f, t);
      RunKeeps(states, steps, k - 1);
      assert states[k] == After(states[k - 1], steps[k - 1]) && Enabled(states[k - 1], steps[k - 1]);
      NewWaiter(states[k - 1], steps[k - 1], f, t);
    }
  }

  lemma EmptyPlaces(s: State)
    requires Places(s.lists) == {}
    ensures forall f, i :: !Listed(s, f, i)
  {
    forall f: nat, i: nat ensures !Listed(s, f, i) {
      assert (f, i) !in Places(s.lists);
    }
  }

  /** A thread gets on a list from holding the lock, and the lock from the check. */
  lemma NewWaiter(s: State, step: Step, f: nat, t: nat)
    requires Inv(s) && Enabled(s, step)
    ensures var s' := After(s, step);
            && ((exists i :: Listed(s', f, i) && Waiter(s', f, i) == t) ==>
                  (exists i :: Listed(s, f, i) && Waiter(s, f, i) == t) || s.op == Some(Waiting(t, f)))
            && (s'.op == Some(Waiting(t, f)) ==> s.op == s'.op || ChecksAt(s, step, f, t))
  {
    hide Inv, After, Enabled, ChecksAt;
    ListSources(s, step, f, t);
    if After(s, step).op == Some(Waiting(t, f)) {
      LockSources(s, step, f, t);
    }
  }

  lemma ListSources(s: State, step: Step, f: nat, t: nat)
    requires Inv(s) && Enabled(s, step)
    ensures forall i :: Listed(After(s, step), f, i) && Waiter(After(s, step), f, i) == t ==>
              (Listed(s, f, i) && Waiter(s, f, i) == t) || s.op == Some(Waiting(t, f))
  {
    if step.FutexBlock? {
      hide Inv, After;
      BlockLists(s, step.c);
    } else if FutexStep(step) {
      hide Inv, FirstWaiter;
    } else {
      hide Inv, After, Enabled;
      ListsKept(s, step);
    }
  }

  lemma LockSources(s: State, step: Step, f: nat, t: nat)
    requires Inv(s) && Enabled(s, step) && After(s, step).op == Some(Waiting(t, f))
    ensures s.op == After(s, step).op || ChecksAt(s, step, f, t)
  {
    if step.FutexBlock? {
      hide Inv, After, Enlisted;
      BlockLists(s, step.c);
    } else if FutexStep(step) {
      hide Inv, FirstWaiter;
    } else {
      hide Inv, After, Enabled;
      ListsKept(s, step);
    }
  }

  /** The timeout test subtracts the wrong way round. With `d` ticks gone it agrees with "the timeout
      has passed" exactly if no tick has gone, or `d` lies between the timeout and its complement: an
      ordinary timeout is taken for expired at the first tick. */
  lemma TimeoutExact(th: Thread, d: nat)
    requires d < TWO64 && th.waitStart + d < TWO64 && th.timeout < TWO64
    ensures var test, passed := TimedOut(th, th.waitStart + d), d >= th.timeout;
            (test <==> passed) <==>
              d == 0 || th.timeout <= d <= TWO64 - th.timeout || TWO64 - th.timeout < d < th.timeout
    ensures 0 < d < th.timeout <= TWO64 / 2 ==> TimedOut(th, th.waitStart + d)
  {
    if d > 0 {
      var e: int := 0 - d;
      assert e % TWO64 == TWO64 - d;
    }
  }

  /** A wait of 100 ticks, begun at tick 0, is over at tick 1. */
  lemma TimeoutExample(th: Thread)
    requires th.waitStart == 0 && th.timeout == 100
    ensures TimedOut(th, 1)
  {
    TimeoutExact(th, 1);
  }
}
