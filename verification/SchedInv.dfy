/** What holds whenever `sched_lock` is free, and that every step keeps it. */
module SchedInv {
  import opened Common
  import opened Contexts
  import opened SleepQueue
  import opened SchedSteps

  /** No processor idles in thread `t`. */
  ghost predicate NotIdle(s: State, t: nat) {
    forall c :: 0 <= c < |s.cpus| ==> s.cpus[c].idleTid != t
  }

  /** `threads[t]->tid == t`. */
  ghost predicate TidsOk(s: State) {
    forall t :: 0 <= t < |s.threads| && s.threads[t].Some? ==> s.threads[t].value.tid == t
  }

  /** Idle threads are blocked for good, one to a processor. */
  ghost predicate IdleOk(s: State) {
    && (forall c :: 0 <= c < |s.cpus| ==>
        Has(s, s.cpus[c].idleTid) && At(s, s.cpus[c].idleTid).phase.Blocked? && !At(s, s.cpus[c].idleTid).running)
    && (forall c, d :: 0 <= c < d < |s.cpus| ==> s.cpus[c].idleTid != s.cpus[d].idleTid)
  }

  /** A processor runs its idle thread, nothing yet, or a running thread that knows where it runs. */
  ghost predicate CurrentOk(s: State, c: nat)
    requires c < |s.cpus|
  {
    var cpu := s.cpus[c];
    && (cpu.current.Some? ==> Has(s, cpu.current.value))
    && (cpu.idle ==> cpu.current.None? || cpu.current.value == cpu.idleTid)
    && (!cpu.idle ==> cpu.current.Some? && At(s, cpu.current.value).phase.Running? && At(s, cpu.current.value).cpu == c)
  }

  ghost predicate CurrentsOk(s: State) {
    forall c :: 0 <= c < |s.cpus| ==> CurrentOk(s, c)
  }

  /** A thread is running exactly if it says so, and then it is current where it says. */
  ghost predicate ThreadOk(s: State, t: nat)
    requires Has(s, t)
  {
    var th := At(s, t);
    && (th.running <==> th.phase.Running?)
    && (th.phase.Running? ==> 0 <= th.cpu < |s.cpus| && !s.cpus[th.cpu].idle && s.cpus[th.cpu].current == Some(t))
  }

  ghost predicate ThreadsOk(s: State) {
    forall t {:trigger s.threads[t]} :: 0 <= t < |s.threads| && s.threads[t].Some? ==> ThreadOk(s, t)
  }

  /** Everything in the sleep queue sleeps, and is there once. */
  ghost predicate SleepersOk(s: State) {
    && (forall i :: 0 <= i < |s.sleepers| ==> Has(s, s.sleepers[i].tid) && At(s, s.sleepers[i].tid).phase.Sleeping?)
    && (forall i, j :: 0 <= i < j < |s.sleepers| ==> s.sleepers[i].tid != s.sleepers[j].tid)
  }

  /** Place `i` of futex `f` is taken. */
  ghost predicate Listed(s: State, f: nat, i: nat) {
    f in s.lists && i < |s.lists[f]| && s.lists[f][i].Some?
  }

  ghost function Waiter(s: State, f: nat, i: nat): nat
    requires Listed(s, f, i)
  {
    s.lists[f][i].value
  }

  /** The place futex_wake has emptied in all but name. */
  ghost predicate JustWoken(s: State, f: nat, i: nat) {
    s.op.Some? && s.op.value.Woke? && s.op.value.futex == f && s.op.value.slot == i
  }

  ghost predicate WaiterOk(s: State, f: nat, i: nat)
    requires Listed(s, f, i)
  {
    Has(s, Waiter(s, f, i)) && NotIdle(s, Waiter(s, f, i)) &&
    (!JustWoken(s, f, i) ==> At(s, Waiter(s, f, i)).phase.Blocked?)
  }

  /** Every waiter is blocked and waits in one place. */
  ghost predicate WaitersOk(s: State) {
    && (forall f, i :: Listed(s, f, i) ==> WaiterOk(s, f, i))
    && (forall f, i, g, j :: Listed(s, f, i) && Listed(s, g, j) && (f != g || i != j) ==>
        Waiter(s, f, i) != Waiter(s, g, j))
  }

  ghost predicate OpOk(s: State) {
    s.op.Some? ==>
      && Has(s, s.op.value.holder) && NotIdle(s, s.op.value.holder) && s.op.value.futex in s.lists
      && (!s.op.value.Waiting? ==> Listed(s, s.op.value.futex, s.op.value.slot))
  }

  /** Threads and processors agree on who runs where. */
  ghost predicate Placed(s: State) {
    TidsOk(s) && IdleOk(s) && CurrentsOk(s) && ThreadsOk(s)
  }

  ghost predicate Inv(s: State) {
    Placed(s) && SleepersOk(s) && WaitersOk(s) && OpOk(s)
  }

  /** The same in the middle of schedule: nobody runs on processor `c`. */
  ghost predicate Between(s: State, c: nat) {
    && TidsOk(s) && IdleOk(s) && CpuOk(s, c)
    && (forall d :: 0 <= d < |s.cpus| && d != c ==> CurrentOk(s, d))
    && ThreadsOk(s.(cpus := s.cpus[c := s.cpus[c].(idle := true)]))
  }

  ghost predicate InTransit(s: State, c: nat) {
    Between(s, c) && SleepersOk(s) && WaitersOk(s) && OpOk(s)
  }

  lemma CpusOk(s: State)
    requires Inv(s)
    ensures forall c :: 0 <= c < |s.cpus| ==> CpuOk(s, c)
  {
    hide ThreadsOk, SleepersOk, WaitersOk, OpOk;
    forall c | 0 <= c < |s.cpus| ensures CpuOk(s, c) {
      assert CurrentOk(s, c);
    }
  }

  /** Changing a thread that is no waiter and does not sleep leaves the queues in order. */
  lemma QueuesKept(s: State, t: nat, th: Thread)
    requires Has(s, t) && SleepersOk(s) && WaitersOk(s) && OpOk(s)
    requires At(s, t).phase.Blocked? ==> th.phase.Blocked?
    requires At(s, t).phase.Sleeping? ==> th.phase.Sleeping?
    ensures SleepersOk(SetThread(s, t, th)) && WaitersOk(SetThread(s, t, th)) && OpOk(SetThread(s, t, th))
  {
    var s' := SetThread(s, t, th);
    assert forall u :: Has(s', u) <==> Has(s, u);
    forall f, i | Listed(s', f, i) ensures WaiterOk(s', f, i) {
      assert Listed(s, f, i) && WaiterOk(s, f, i);
    }
    forall f, i, g, j | Listed(s', f, i) && Listed(s', g, j) && (f != g || i != j)
      ensures Waiter(s', f, i) != Waiter(s', g, j)
    {
      assert Listed(s, f, i) && Listed(s, g, j);
    }
  }

  /** The thread on processor `c` leaves it. */
  lemma Departs(s: State, c: nat, th: Thread)
    requires Inv(s) && CpuOk(s, c) && s.cpus[c].current.Some?
    requires th.tid == s.cpus[c].current.value && !th.running
    requires if s.cpus[c].idle then th.phase.Blocked? else !th.phase.Running?
    ensures InTransit(SetThread(s, s.cpus[c].current.value, th), c)
  {
    hide SleepersOk, WaitersOk, OpOk;
    var t := s.cpus[c].current.value;
    assert CurrentOk(s, c);
    QueuesKept(s, t, th);
    var s' := SetThread(s, t, th);
    forall d | 0 <= d < |s.cpus| && d != c ensures CurrentOk(s', d) {
      assert CurrentOk(s, d);
      assert s.cpus[d].current != Some(t);
    }
    var s1 := s'.(cpus := s'.cpus[c := s'.cpus[c].(idle := true)]);
    forall u | 0 <= u < |s1.threads| && s1.threads[u].Some? ensures ThreadOk(s1, u) {
      assert ThreadOk(s, u);
    }
  }

  /** A thread that may run gets processor `c`. The kernel's asserts hold: it is ready, or was
      waiting, and runs nowhere. */
  lemma Arrives(s: State, c: nat, t: nat)
    requires InTransit(s, c) && Has(s, t) && Runnable(s, At(s, t))
    ensures !At(s, t).running && Eligible(At(s, t)) && NotIdle(s, t)
    ensures Inv(RunThread(s, c, t))
  {
    hide SleepersOk, WaitersOk, OpOk;
    var th := At(s, t);
    var s0 := s.(cpus := s.cpus[c := s.cpus[c].(idle := true)]);
    assert ThreadOk(s0, t);
    assert NotIdle(s, t);
    QueuesKept(s, t, Taken(th, c));
    var s1 := SetThread(s, t, Taken(th, c));
    var s' := RunThread(s, c, t);
    WaitersMove(s1, s');
    SleepersMove(s1, s');
    forall d | 0 <= d < |s'.cpus| ensures CurrentOk(s', d) {
      if d != c {
        assert CurrentOk(s, d);
        assert s.cpus[d].current != Some(t);
      }
    }
    forall u | 0 <= u < |s'.threads| && s'.threads[u].Some? ensures ThreadOk(s', u) {
      assert s0.threads[u].Some? && ThreadOk(s0, u);
    }
  }

  /** The futex lists depend on nothing but the threads and who is idle. */
  lemma WaitersMove(s: State, s': State)
    requires WaitersOk(s) && OpOk(s)
    requires s'.threads == s.threads && s'.lists == s.lists && s'.op == s.op
    requires |s'.cpus| == |s.cpus| && forall c :: 0 <= c < |s.cpus| ==> s'.cpus[c].idleTid == s.cpus[c].idleTid
    ensures WaitersOk(s') && OpOk(s')
  {
    forall f, i | Listed(s', f, i) ensures WaiterOk(s', f, i) {
      assert Listed(s, f, i) && WaiterOk(s, f, i);
    }
    forall f, i, g, j | Listed(s', f, i) && Listed(s', g, j) && (f != g || i != j)
      ensures Waiter(s', f, i) != Waiter(s', g, j)
    {
      assert Listed(s, f, i) && Listed(s, g, j);
    }
    if s.op.Some? && !s.op.value.Waiting? {
      assert Listed(s, s.op.value.futex, s.op.value.slot);
    }
  }

  lemma SleepersMove(s: State, s': State)
    requires SleepersOk(s) && s'.threads == s.threads && s'.sleepers == s.sleepers
    ensures SleepersOk(s')
  {
  }

  /** Processor `c` falls to its idle thread. */
  lemma Idles(s: State, c: nat)
    requires InTransit(s, c)
    ensures Inv(RunIdle(s, c))
  {
    hide SleepersOk, WaitersOk, OpOk;
    var t := s.cpus[c].idleTid;
    var th := At(s, t);
    QueuesKept(s, t, th.(cpu := c));
    var s' := RunIdle(s, c);
    WaitersMove(SetThread(s, t, th.(cpu := c)), s');
    SleepersMove(SetThread(s, t, th.(cpu := c)), s');
    forall d | 0 <= d < |s'.cpus| ensures CurrentOk(s', d) {
      if d != c {
        assert CurrentOk(s, d);
      }
    }
    var s0 := s.(cpus := s.cpus[c := s.cpus[c].(idle := true)]);
    forall u | 0 <= u < |s'.threads| && s'.threads[u].Some? ensures ThreadOk(s', u) {
      assert s0.threads[u].Some? && ThreadOk(s0, u);
    }
  }

  /** schedule keeps the invariant once the thread that leaves has left. */
  lemma ScheduleKeeps(s: State, c: nat)
    requires CpuOk(s, c) && InTransit(SwitchOut(s, c), c)
    ensures Inv(Schedule(s, c))
  {
    hide InTransit, Inv, RunThread, RunIdle, Runnable, SwitchOut;
    var s1 := SwitchOut(s, c);
    assert CpuOk(s1, c) by { TransitCpu(s1, c); }
    var r := Choice(s1, c);
    if r.Some? {
      Arrives(s1, c, r.value);
    } else {
      Idles(s1, c);
    }
  }

  lemma TransitCpu(s: State, c: nat)
    requires InTransit(s, c)
    ensures CpuOk(s, c)
  {
  }

  function Tids(q: Queue): (r: seq<nat>)
    ensures |r| == |q|
  {
    seq(|q|, i requires 0 <= i < |q| => q[i].tid)
  }

  /** Inserting adds one sleeper and reorders none. */
  lemma InsertTids(q: Queue, tid: nat, ms: nat)
    ensures |Inserted(q, tid, ms)| == |q| + 1 && Inserted(q, tid, ms)[Position(q, ms)].tid == tid
    ensures forall i :: 0 <= i < Position(q, ms) ==> Inserted(q, tid, ms)[i].tid == q[i].tid
    ensures forall i :: Position(q, ms) < i <= |q| ==> Inserted(q, tid, ms)[i].tid == q[i - 1].tid
  {
    hide Inserted, Deadlines, Position;
    var q', k := Inserted(q, tid, ms), Position(q, ms);
    InsertSplices(q, tid, ms, 0);
    DeadlinesLength(q, 0);
    DeadlinesLength(q', 0);
    var ds, ds' := Deadlines(q, 0), Deadlines(q', 0);
    assert forall i :: 0 <= i < |q'| ==> ds'[i] == if i < k then ds[i] else if i == k then Due(tid, ms) else ds[i - 1];
  }

  /** The threads an advance wakes, followed by those it leaves, are the threads that slept. */
  lemma {:induction false} AdvanceTids(q: Queue, n: nat)
    ensures AdvanceWakes(q, n) + Tids(Advanced(q, n)) == Tids(q)
  {
    hide Tids, Woken, Ticked;
    if n > 0 {
      AdvanceTids(q, n - 1);
      TickTids(Advanced(q, n - 1));
      var a, w, r := AdvanceWakes(q, n - 1), Woken(Advanced(q, n - 1)), Tids(Advanced(q, n));
      assert a + w + r == a + (w + r);
    }
  }

  lemma TickTids(q: Queue)
    ensures Woken(q) + Tids(Ticked(q)) == Tids(q)
  {
  }

  lemma {:induction false} WakeAt(threads: seq<Option<Thread>>, tids: seq<nat>, u: nat)
    requires u < |threads|
    ensures Wake(threads, tids)[u] ==
            if u in tids && threads[u].Some?
            then Some(threads[u].value.(phase := Ready, running := false)) else threads[u]
    decreases |tids|
  {
    if tids != [] {
      WakeAt(threads, tids[..|tids| - 1], u);
      assert tids == tids[..|tids| - 1] + [tids[|tids| - 1]];
    }
  }

  /** The thread that left sleeps. */
  lemma FallsAsleep(s: State, c: nat, t: nat, ms: nat)
    requires InTransit(s, c) && Has(s, t) && At(s, t).phase.Sleeping?
    requires forall i :: 0 <= i < |s.sleepers| ==> s.sleepers[i].tid != t
    ensures InTransit(s.(sleepers := Inserted(s.sleepers, t, ms)), c)
  {
    hide Between, WaitersOk, OpOk;
    var q, k := Inserted(s.sleepers, t, ms), Position(s.sleepers, ms);
    var s' := s.(sleepers := q);
    InsertTids(s.sleepers, t, ms);
    assert SleepersOk(s') by {
      forall i | 0 <= i < |q| ensures Has(s', q[i].tid) && At(s', q[i].tid).phase.Sleeping? {
        assert i < k ==> q[i].tid == s.sleepers[i].tid;
        assert i > k ==> q[i].tid == s.sleepers[i - 1].tid;
      }
    }
    BetweenMoves(s, s', c);
    WaitersMove(s, s');
  }

  /** Threads and processors do not depend on the queues. */
  lemma BetweenMoves(s: State, s': State, c: nat)
    requires Between(s, c) && s'.threads == s.threads && s'.cpus == s.cpus
    ensures Between(s', c)
  {
    assert forall u :: Has(s', u) <==> Has(s, u);
    assert forall d :: 0 <= d < |s.cpus| && CurrentOk(s, d) ==> CurrentOk(s', d);
    var s0 := s.(cpus := s.cpus[c := s.cpus[c].(idle := true)]);
    var s1 := s'.(cpus := s'.cpus[c := s'.cpus[c].(idle := true)]);
    forall u | 0 <= u < |s1.threads| && s1.threads[u].Some? ensures ThreadOk(s1, u) {
      assert s0.threads[u].Some? && ThreadOk(s0, u);
    }
  }

  lemma PlacedMoves(s: State, s': State)
    requires Placed(s) && s'.threads == s.threads && s'.cpus == s.cpus
    ensures Placed(s')
  {
    assert forall u :: Has(s', u) <==> Has(s, u);
    assert forall d :: 0 <= d < |s.cpus| && CurrentOk(s, d) ==> CurrentOk(s', d);
    forall u | 0 <= u < |s'.threads| && s'.threads[u].Some? ensures ThreadOk(s', u) {
      assert s.threads[u].Some? && ThreadOk(s, u);
    }
  }

  /** The thread that left waits in the list of the futex. */
  lemma JoinsList(s: State, c: nat, f: nat, t: nat)
    requires InTransit(s, c) && Has(s, t) && NotIdle(s, t) && At(s, t).phase.Blocked?
    requires s.op.Some? && s.op.value.Waiting? && f in s.lists
    requires forall g, i :: Listed(s, g, i) ==> Waiter(s, g, i) != t
    ensures InTransit(s.(lists := s.lists[f := Enlisted(s.lists[f], t)], op := None), c)
  {
    hide Between, SleepersOk;
    var w := s.lists[f];
    var s' := s.(lists := s.lists[f := Enlisted(w, t)], op := None);
    BetweenMoves(s, s', c);
    SleepersMove(s, s');
    assert forall g, i :: Listed(s', g, i) ==>
        if g == f && i == FreePlace(w) then Waiter(s', g, i) == t
        else Listed(s, g, i) && Waiter(s', g, i) == Waiter(s, g, i);
    forall g, i | Listed(s', g, i) ensures WaiterOk(s', g, i) {
      if g != f || i != FreePlace(w) {
        assert Listed(s, g, i) && WaiterOk(s, g, i);
      }
    }
  }

  /** The current thread of a busy processor runs, sleeps in no queue, and waits for no futex. */
  lemma BusyRuns(s: State, c: nat)
    requires Inv(s) && Busy(s, c)
    ensures var t := s.cpus[c].current.value;
            At(s, t).phase.Running? && At(s, t).running && At(s, t).tid == t && At(s, t).cpu == c && NotIdle(s, t)
  {
    hide SleepersOk, WaitersOk, OpOk;
    assert CurrentOk(s, c) && ThreadOk(s, s.cpus[c].current.value);
  }

  lemma BusyNotAsleep(s: State, c: nat)
    requires Inv(s) && Busy(s, c)
    ensures forall i :: 0 <= i < |s.sleepers| ==> s.sleepers[i].tid != s.cpus[c].current.value
    ensures forall f, i :: Listed(s, f, i) && !JustWoken(s, f, i) ==> Waiter(s, f, i) != s.cpus[c].current.value
  {
    hide Placed;
    BusyRuns(s, c);
  }

  /** Changing the current thread and then switching it out is one change. */
  lemma LeavesChanged(s: State, c: nat, th: Thread)
    requires Inv(s) && Busy(s, c) && th.tid == s.cpus[c].current.value && !th.phase.Running?
    ensures CpuOk(s, c) && CpuOk(Change(s, c, th), c)
    ensures SwitchOut(Change(s, c, th), c) == SetThread(s, s.cpus[c].current.value, Left(th, s.cpus[c]))
    ensures InTransit(SwitchOut(Change(s, c, th), c), c)
  {
    var t := s.cpus[c].current.value;
    BusyRuns(s, c);
    CpusOk(s);
    assert s.threads[t := Some(th)][t := Some(Left(th, s.cpus[c]))] == s.threads[t := Some(Left(th, s.cpus[c]))];
    Departs(s, c, Left(th, s.cpus[c]));
  }

  lemma TickTransit(s: State, c: nat)
    requires Inv(s) && CpuOk(s, c)
    ensures InTransit(SwitchOut(s, c), c)
  {
    hide SleepersOk, WaitersOk, OpOk;
    assert CurrentOk(s, c);
    if s.cpus[c].current.None? {
      assert s.cpus[c := s.cpus[c].(idle := true)] == s.cpus;
      assert s.(cpus := s.cpus) == s;
    } else {
      Departs(s, c, Left(At(s, s.cpus[c].current.value), s.cpus[c]));
    }
  }

  lemma SleepTransit(s: State, c: nat, ms: nat)
    requires Inv(s) && Busy(s, c)
    ensures CpuOk(Sleeps(s, c, ms), c) && InTransit(SwitchOut(Sleeps(s, c, ms), c), c)
  {
    hide Inv, Inserted, InTransit;
    var t, th := s.cpus[c].current.value, Current(s, c).(phase := Sleeping);
    BusyRuns(s, c);
    BusyNotAsleep(s, c);
    LeavesChanged(s, c, th);
    FallsAsleep(SwitchOut(Change(s, c, th), c), c, t, ms);
    assert SwitchOut(Sleeps(s, c, ms), c) == SwitchOut(Change(s, c, th), c).(sleepers := Inserted(s.sleepers, t, ms));
  }

  lemma FutexTransit(s: State, c: nat)
    requires Inv(s) && Holds(s, c) && s.op.value.Waiting?
    ensures CpuOk(BlocksOnFutex(s, c), c) && InTransit(SwitchOut(BlocksOnFutex(s, c), c), c)
  {
    hide Inv, Enlisted, InTransit;
    var t, th, f := s.cpus[c].current.value, Current(s, c).(phase := Blocked), s.op.value.futex;
    BusyRuns(s, c);
    BusyNotAsleep(s, c);
    LeavesChanged(s, c, th);
    assert f in s.lists by { OpFacts(s); }
    var s1 := SwitchOut(Change(s, c, th), c);
    assert forall g, i :: Listed(s1, g, i) ==> Listed(s, g, i) && Waiter(s1, g, i) == Waiter(s, g, i);
    JoinsList(s1, c, f, t);
    assert SwitchOut(BlocksOnFutex(s, c), c) == s1.(lists := s.lists[f := Enlisted(s.lists[f], t)], op := None);
  }

  lemma OpFacts(s: State)
    requires Inv(s) && s.op.Some?
    ensures s.op.value.futex in s.lists && Has(s, s.op.value.holder) && NotIdle(s, s.op.value.holder)
    ensures !s.op.value.Waiting? ==>
            Listed(s, s.op.value.futex, s.op.value.slot) && WaiterOk(s, s.op.value.futex, s.op.value.slot)
  {
    hide Placed, SleepersOk;
  }

  /** Code running on a processor touches nothing but what is live there. */
  lemma ExecuteKeeps(s: State, c: nat, live: Live)
    requires Inv(s) && c < |s.cpus|
    ensures Inv(s.(cpus := s.cpus[c := s.cpus[c].(live := live)]))
  {
    hide SleepersOk, WaitersOk, OpOk;
    var s' := s.(cpus := s.cpus[c := s.cpus[c].(live := live)]);
    WaitersMove(s, s');
    SleepersMove(s, s');
    forall d | 0 <= d < |s'.cpus| ensures CurrentOk(s', d) {
      assert CurrentOk(s, d);
    }
    forall u | 0 <= u < |s'.threads| && s'.threads[u].Some? ensures ThreadOk(s', u) {
      assert ThreadOk(s, u);
    }
  }

  lemma SetFsKeeps(s: State, c: nat, base: nat)
    requires Inv(s) && Calls(s, c)
    ensures Inv(After(s, SetFs(c, base)))
  {
    hide SleepersOk, WaitersOk, OpOk;
    var s' := After(s, SetFs(c, base));
    var t, th := s.cpus[c].current.value, Current(s, c);
    var s1 := Change(s, c, th.(regs := th.regs.(fs := base)));
    QueuesKept(s, t, th.(regs := th.regs.(fs := base)));
    WaitersMove(s1, s');
    SleepersMove(s1, s');
    forall d | 0 <= d < |s'.cpus| ensures CurrentOk(s', d) {
      assert CurrentOk(s, d) && CurrentOk(s, c);
      assert d != c ==> s.cpus[d].current != Some(t);
    }
    forall u | 0 <= u < |s'.threads| && s'.threads[u].Some? ensures ThreadOk(s', u) {
      assert ThreadOk(s, u);
    }
  }

  /** Events, words, clocks and the futex lock do not place threads. */
  lemma WordsKeep(s: State, s': State)
    requires Inv(s) && s'.threads == s.threads && s'.cpus == s.cpus && s'.sleepers == s.sleepers
    requires s'.lists == s.lists && s'.op == s.op
    ensures Inv(s')
  {
    hide Placed, SleepersOk, WaitersOk, OpOk;
    PlacedMoves(s, s');
    SleepersMove(s, s');
    WaitersMove(s, s');
  }

  /** The sleepers among `wakes` are ready in `s'`, all others as before. */
  ghost predicate AllWoken(s: State, s': State, wakes: seq<nat>) {
    && |s'.threads| == |s.threads|
    && (forall u :: 0 <= u < |s.threads| && u in wakes ==>
          s.threads[u].Some? && s.threads[u].value.phase.Sleeping? &&
          s'.threads[u] == Some(s.threads[u].value.(phase := Ready, running := false)))
    && (forall u :: 0 <= u < |s.threads| && u !in wakes ==> s'.threads[u] == s.threads[u])
  }

  /** advance_time: every woken thread was asleep, as the kernel asserts, and is ready after. */
  lemma TimerKeeps(s: State)
    requires Inv(s)
    ensures forall t :: t in AdvanceWakes(s.sleepers, s.lagged + 1) ==> Has(s, t) && At(s, t).phase.Sleeping?
    ensures Inv(TickTimer(s, false))
  {
    hide Wake, AdvanceWakes, Advanced, WaitersOk, OpOk;
    var s', wakes, q := TickTimer(s, false), AdvanceWakes(s.sleepers, s.lagged + 1), Advanced(s.sleepers, s.lagged + 1);
    AdvanceTids(s.sleepers, s.lagged + 1);
    var ts := Tids(s.sleepers);
    forall t | t in wakes ensures Has(s, t) && At(s, t).phase.Sleeping? {
      var i :| 0 <= i < |wakes| && wakes[i] == t;
      assert ts[i] == t && s.sleepers[i].tid == t;
    }
    forall u | 0 <= u < |s.threads| {
      WakeAt(s.threads, wakes, u);
    }
    assert AllWoken(s, s', wakes);
    RestSleep(s, s', wakes);
    WokenPlaced(s, s', wakes);
    WokenWaiters(s, s', wakes);
  }

  lemma RestSleep(s: State, s': State, wakes: seq<nat>)
    requires SleepersOk(s) && |s'.threads| == |s.threads| && wakes + Tids(s'.sleepers) == Tids(s.sleepers)
    requires forall u :: 0 <= u < |s.threads| && u !in wakes ==> s'.threads[u] == s.threads[u]
    ensures SleepersOk(s')
  {
    var q, q', n := s.sleepers, s'.sleepers, |wakes|;
    forall i | 0 <= i < |q'| ensures q'[i].tid == q[n + i].tid && q'[i].tid !in wakes {
      SuffixTid(wakes, q', q, i);
      forall j | 0 <= j < n ensures q'[i].tid != wakes[j] {
        assert wakes[j] == Tids(q)[j] == q[j].tid;
      }
    }
  }

  lemma SuffixTid(wakes: seq<nat>, q': Queue, q: Queue, i: nat)
    requires wakes + Tids(q') == Tids(q) && i < |q'|
    ensures |wakes| + i < |q| && q'[i].tid == q[|wakes| + i].tid
  {
    assert Tids(q)[|wakes| + i] == Tids(q')[i];
  }

  lemma WokenPlaced(s: State, s': State, wakes: seq<nat>)
    requires Placed(s) && s'.cpus == s.cpus
    requires AllWoken(s, s', wakes)
    ensures Placed(s')
  {
    assert forall u :: Has(s', u) <==> Has(s, u);
    forall d | 0 <= d < |s'.cpus| ensures CurrentOk(s', d) {
      assert CurrentOk(s, d);
    }
    forall u | 0 <= u < |s'.threads| && s'.threads[u].Some? ensures ThreadOk(s', u) {
      assert ThreadOk(s, u);
    }
  }

  lemma WokenWaiters(s: State, s': State, wakes: seq<nat>)
    requires WaitersOk(s) && OpOk(s) && s'.cpus == s.cpus && s'.lists == s.lists && s'.op == s.op
    requires AllWoken(s, s', wakes)
    ensures WaitersOk(s') && OpOk(s')
  {
    assert forall u :: Has(s', u) <==> Has(s, u);
    forall f, i | Listed(s', f, i) ensures WaiterOk(s', f, i) {
      assert Listed(s, f, i) && WaiterOk(s, f, i);
    }
    forall f, i, g, j | Listed(s', f, i) && Listed(s', g, j) && (f != g || i != j)
      ensures Waiter(s', f, i) != Waiter(s', g, j)
    {
      assert Listed(s, f, i) && Listed(s, g, j);
    }
    if s.op.Some? && !s.op.value.Waiting? {
      assert Listed(s, s.op.value.futex, s.op.value.slot);
    }
  }

  /** A new thread takes a slot nobody knew. */
  lemma StartAt(threads: seq<Option<Thread>>, th: Thread)
    ensures var t, r := FreeSlot(threads), Started(threads, th);
            && |threads| <= |r| && t < |r| && r[t] == Some(th.(tid := t)) && (t < |threads| ==> threads[t].None?)
            && (forall u :: 0 <= u < |threads| && u != t ==> r[u] == threads[u])
            && (forall u :: |threads| <= u < |r| && u != t ==> r[u].None?)
  {
    hide FreeSlot;
  }

  /** start_thread, and the start of a processor with its idle thread. */
  lemma StartKeeps(s: State, s': State, th: Thread)
    requires Inv(s) && !th.running && !th.phase.Running? && s' == s.(threads := Started(s.threads, th))
    ensures Inv(s') && Has(s', FreeSlot(s.threads)) && At(s', FreeSlot(s.threads)) == th.(tid := FreeSlot(s.threads))
    ensures !Has(s, FreeSlot(s.threads))
  {
    hide Started, FreeSlot;
    StartAt(s.threads, th);
    assert forall u :: Has(s, u) ==> Has(s', u) && At(s', u) == At(s, u);
    forall d | 0 <= d < |s'.cpus| ensures CurrentOk(s', d) {
      assert CurrentOk(s, d);
    }
    forall u | 0 <= u < |s'.threads| && s'.threads[u].Some? ensures ThreadOk(s', u) {
      if u != FreeSlot(s.threads) {
        assert s.threads[u].Some? && ThreadOk(s, u);
      }
    }
    forall f, i | Listed(s', f, i) ensures WaiterOk(s', f, i) {
      assert Listed(s, f, i) && WaiterOk(s, f, i);
    }
    forall f, i, g, j | Listed(s', f, i) && Listed(s', g, j) && (f != g || i != j)
      ensures Waiter(s', f, i) != Waiter(s', g, j)
    {
      assert Listed(s, f, i) && Listed(s, g, j);
    }
  }

  /** A processor joins with an idle thread of its own. */
  lemma JoinKeeps(s: State, t: nat, live: Live)
    requires Inv(s) && Has(s, t) && At(s, t).phase.Blocked? && !At(s, t).running && NotIdle(s, t)
    requires s.op.Some? ==> s.op.value.holder != t
    requires forall f, i :: Listed(s, f, i) ==> Waiter(s, f, i) != t
    ensures Inv(s.(cpus := s.cpus + [Cpu(None, t, true, live)]))
  {
    var s' := s.(cpus := s.cpus + [Cpu(None, t, true, live)]);
    forall d | 0 <= d < |s'.cpus| ensures CurrentOk(s', d) {
      if d < |s.cpus| {
        assert CurrentOk(s, d);
      }
    }
    forall u | 0 <= u < |s'.threads| && s'.threads[u].Some? ensures ThreadOk(s', u) {
      assert ThreadOk(s, u);
    }
    forall f, i | Listed(s', f, i) ensures WaiterOk(s', f, i) {
      assert Listed(s, f, i) && WaiterOk(s, f, i);
    }
    forall f, i, g, j | Listed(s', f, i) && Listed(s', g, j) && (f != g || i != j)
      ensures Waiter(s', f, i) != Waiter(s', g, j)
    {
      assert Listed(s, f, i) && Listed(s, g, j);
    }
  }

  lemma BootKeeps(s: State, th: Thread, live: Live)
    requires Inv(s) && th.phase.Blocked? && !th.running
    ensures Inv(After(s, BootCpu(th, live)))
  {
    hide Inv, Started, FreeSlot;
    var t, s1 := FreeSlot(s.threads), s.(threads := Started(s.threads, th));
    StartKeeps(s, s1, th);
    KnownThreads(s, t);
    assert forall f, i :: Listed(s1, f, i) ==> Listed(s, f, i);
    assert forall c :: 0 <= c < |s.cpus| ==> s1.cpus[c] == s.cpus[c];
    JoinKeeps(s1, t, live);
  }

  /** A slot without a thread is named nowhere. */
  lemma KnownThreads(s: State, t: nat)
    requires Inv(s) && !Has(s, t)
    ensures NotIdle(s, t) && (s.op.Some? ==> s.op.value.holder != t)
    ensures forall f, i :: Listed(s, f, i) ==> Waiter(s, f, i) != t
  {
    hide SleepersOk, CurrentsOk, ThreadsOk, TidsOk;
  }

  /** The steps of a futex call that switch no thread. */
  lemma FutexCallKeeps(s: State, c: nat, f: nat, expected: nat)
    requires Inv(s) && Calls(s, c) && s.op.None?
    ensures Inv(ChecksFutex(s, c, f, expected)) && Inv(LooksForWaiter(s, c, f))
  {
    hide Placed, SleepersOk;
    BusyRuns(s, c);
    var s1, s2 := ChecksFutex(s, c, f, expected), LooksForWaiter(s, c, f);
    PlacedMoves(s, s1);
    PlacedMoves(s, s2);
    SleepersMove(s, s1);
    SleepersMove(s, s2);
    ListsMove(s, s1);
    ListsMove(s, s2);
  }

  /** Creating an empty list or taking the lock moves no waiter. */
  lemma ListsMove(s: State, s': State)
    requires WaitersOk(s) && s'.threads == s.threads && s'.cpus == s.cpus && s.op.None?
    requires (s'.op.Some? ==> !s'.op.value.Woke?)
    requires forall f, i :: Listed(s', f, i) ==> Listed(s, f, i) && Waiter(s', f, i) == Waiter(s, f, i)
    ensures WaitersOk(s')
  {
    forall f, i | Listed(s', f, i) ensures WaiterOk(s', f, i) {
      assert Listed(s, f, i) && WaiterOk(s, f, i);
    }
  }

  /** Waking: the waiter found was blocked and no processor ran it. */
  lemma WakeReadyKeeps(s: State)
    requires Inv(s) && s.op.Some? && s.op.value.Found?
    ensures Inv(ReadiesWaiter(s))
  {
    var op := s.op.value;
    OpFacts(s);
    var t := Waiter(s, op.futex, op.slot);
    var s' := ReadiesWaiter(s);
    assert s' == SetThread(s, t, At(s, t).(phase := Ready)).(op := Some(Woke(op.holder, op.futex, op.slot)));
    ReadyPlaced(s, s', t);
    ReadyQueues(s, s', t);
  }

  lemma ReadyPlaced(s: State, s': State, t: nat)
    requires Placed(s) && Has(s, t) && At(s, t).phase.Blocked? && NotIdle(s, t)
    requires s'.cpus == s.cpus && s'.threads == s.threads[t := Some(At(s, t).(phase := Ready))]
    ensures Placed(s')
  {
    assert forall u :: Has(s', u) <==> Has(s, u);
    forall d | 0 <= d < |s'.cpus| ensures CurrentOk(s', d) {
      assert CurrentOk(s, d);
    }
    forall u | 0 <= u < |s'.threads| && s'.threads[u].Some? ensures ThreadOk(s', u) {
      assert ThreadOk(s, u);
    }
  }

  lemma ReadyQueues(s: State, s': State, t: nat)
    requires SleepersOk(s) && WaitersOk(s) && OpOk(s) && Has(s, t) && At(s, t).phase.Blocked?
    requires s.op.Some? && s.op.value.Found? && Waiter(s, s.op.value.futex, s.op.value.slot) == t
    requires var op := s.op.value;
             s' == SetThread(s, t, At(s, t).(phase := Ready)).(op := Some(Woke(op.holder, op.futex, op.slot)))
    ensures SleepersOk(s') && WaitersOk(s') && OpOk(s')
  {
    assert forall u :: Has(s', u) <==> Has(s, u);
    forall f, i | Listed(s', f, i) ensures WaiterOk(s', f, i) {
      assert Listed(s, f, i) && WaiterOk(s, f, i);
    }
    forall f, i, g, j | Listed(s', f, i) && Listed(s', g, j) && (f != g || i != j)
      ensures Waiter(s', f, i) != Waiter(s', g, j)
    {
      assert Listed(s, f, i) && Listed(s, g, j);
    }
  }

  lemma WakeClearKeeps(s: State)
    requires Inv(s) && s.op.Some? && s.op.value.Woke?
    ensures Inv(ClearsPlace(s))
  {
    hide Placed, SleepersOk;
    OpFacts(s);
    var s', op := ClearsPlace(s), s.op.value;
    PlacedMoves(s, s');
    SleepersMove(s, s');
    assert forall f, i :: Listed(s', f, i) ==>
        Listed(s, f, i) && Waiter(s', f, i) == Waiter(s, f, i) && (f != op.futex || i != op.slot);
    forall f, i | Listed(s', f, i) ensures WaiterOk(s', f, i) {
      assert Listed(s, f, i) && WaiterOk(s, f, i);
    }
  }
}
