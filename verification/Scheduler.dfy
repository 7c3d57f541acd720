/** The scheduler as the kernel runs it: thread table, processors and queues updated in place, each
    operation proved to take exactly one step of the machine. */
module Scheduler {
  import opened Common
  import opened Contexts
  import opened Cyclic
  import opened SleepQueue
  import opened SchedSteps
  import opened SchedInv
  import opened SchedRuns
  import opened SchedContexts
  import opened SchedWaits

  /** A picked thread that may run: a waiting one is made ready and consumes its event. */
  function Accepted(s: State, t: nat): State
    requires Has(s, t)
  {
    var th := At(s, t);
    var fired := !th.phase.Ready? && Count(s.events, th.event) != 0;
    var s1 := if fired then s.(events := DecEvent(s.events, th.event)) else s;
    SetThread(s1, t, th.(phase := Ready))
  }

  /** Processor `c` looks at thread `t`. */
  function LooksAt(s: State, c: nat, t: nat): State
    requires c < |s.cpus|
  {
    s.(cpus := s.cpus[c := s.cpus[c].(current := Some(t))])
  }

  /** How far a scan from `from` has come: nothing runnable lies up to `at`, and `first` is the first
      thread it met. */
  ghost predicate Scanned(s: State, from: nat, at: nat, first: Option<nat>) {
    && from < |s.threads| && at < |s.threads|
    && (first.None? ==> at == from)
    && (first.Some? ==>
          && IsNext(EligibleFlags(s), from, first.value) && EligibleFlags(s)[at]
          && forall u :: 0 <= u < |s.threads| && RunnableFlags(s)[u] ==>
              Dist(|s.threads|, from, at) < Dist(|s.threads|, from, u))
  }

  ghost function Ahead(s: State, from: nat, at: nat, first: Option<nat>): nat
    requires from < |s.threads| && at < |s.threads|
  {
    if first.None? then |s.threads| + 1 else |s.threads| - Dist(|s.threads|, from, at)
  }

  /** Runnable threads are eligible. */
  lemma RunnableIsEligible(s: State)
    ensures forall u :: 0 <= u < |s.threads| && RunnableFlags(s)[u] ==> EligibleFlags(s)[u]
  {
  }

  /** The scan meets `p` next. Either it has come around and nothing is runnable, or `p` is the next
      runnable thread, or the scan goes on from `p` with less left. */
  lemma ScanOn(s: State, from: nat, at: nat, first: Option<nat>, p: nat)
    requires Scanned(s, from, at, first) && IsNext(EligibleFlags(s), at, p)
    ensures first == Some(p) ==> Next(RunnableFlags(s), from) == None
    ensures first != Some(p) && RunnableFlags(s)[p] ==> Next(RunnableFlags(s), from) == Some(p)
    ensures first != Some(p) && !RunnableFlags(s)[p] ==>
              var first' := if first.None? then Some(p) else first;
              Scanned(s, from, p, first') && Ahead(s, from, p, first') < Ahead(s, from, at, first)
  {
    var e, r, n := EligibleFlags(s), RunnableFlags(s), |s.threads|;
    RunnableIsEligible(s);
    if first.Some? {
      Hop(e, from, at, p);
      if first == Some(p) {
        assert Dist(n, from, p) <= Dist(n, from, at);
      } else {
        FirstUnique(e, from, first.value, p);
      }
    }
    if first != Some(p) && r[p] {
      NextUnique(r, from, p);
    }
  }

  lemma FirstUnique(flags: seq<bool>, from: nat, p: nat, q: nat)
    requires from < |flags| && IsNext(flags, from, p) && q < |flags| && q != p
    ensures !IsNext(flags, from, q)
  {
    assert Dist(|flags|, from, p) != Dist(|flags|, from, q);
  }

  /** Looking from thread to thread changes no flag. */
  lemma FlagsKept(s: State, c: nat, t: nat)
    requires CpuOk(s, c) && TidsOk(s) && Has(s, t)
    ensures EligibleFlags(LooksAt(s, c, t)) == EligibleFlags(s)
    ensures At(s, t).tid == t && TidsOk(LooksAt(s, c, t)) && CpuOk(LooksAt(s, c, t), c)
  {
  }

  /** A thread met on the scan may run in the state that looks at it exactly if it may at the
      start. */
  lemma LooksAway(s: State, c: nat, u: nat, t: nat)
    requires c < |s.cpus| && Has(s, t)
    ensures var s' := LooksAt(s, c, u);
            && LooksAt(s', c, t) == LooksAt(s, c, t)
            && (Runnable(s', At(s', t)) <==> RunnableFlags(s)[t]) && (Eligible(At(s', t)) <==> EligibleFlags(s)[t])
            && LooksAt(Accepted(s', t), c, t) == LooksAt(Accepted(s, t), c, t)
  {
    assert LooksAt(LooksAt(s, c, u), c, t).cpus == LooksAt(s, c, t).cpus;
  }

  lemma NoneEligible(s: State, from: nat, at: nat)
    requires from < |s.threads| && at < |s.threads| && Next(EligibleFlags(s), at) == None
    ensures Next(RunnableFlags(s), from) == None
  {
    RunnableIsEligible(s);
  }

  lemma NextExists(s: State, at: nat, t: nat)
    requires at < |s.threads| && IsNext(EligibleFlags(s), at, t)
    ensures Has(s, t) && EligibleFlags(s)[t]
  {
  }

  /** The last part of schedule, from the state that looks at the thread to run: it is marked as
      running, told its processor, and its context loaded. */
  function Loaded(s: State, c: nat, t: nat, run: bool): State
    requires c < |s.cpus| && Has(s, t)
  {
    var th := At(s, t);
    SetThread(s, t, if run then th.(running := true, phase := Running, cpu := c) else th.(cpu := c)).(
      cpus := s.cpus[c := s.cpus[c].(idle := !run, live := Restored(th))])
  }

  lemma LoadsChosen(s: State, c: nat, t: nat)
    requires c < |s.cpus| && Has(s, t)
    ensures Loaded(LooksAt(Accepted(s, t), c, t), c, t, true) == RunThread(s, c, t)
  {
    hide Restored;
    var th, s1, s2 := At(s, t), LooksAt(Accepted(s, t), c, t), RunThread(s, c, t);
    assert Restored(th.(phase := Ready)) == Restored(th) by { PhaseNotRestored(th, Ready); }
    assert s1.cpus[c := s1.cpus[c].(idle := false, live := Restored(th))] == s2.cpus;
    assert s1.threads[t := Some(Taken(th, c))] == s2.threads;
  }

  lemma PhaseNotRestored(th: Thread, phase: Phase)
    ensures Restored(th.(phase := phase)) == Restored(th)
  {
  }

  lemma LoadsIdle(s: State, c: nat)
    requires CpuOk(s, c)
    ensures Loaded(LooksAt(s, c, s.cpus[c].idleTid), c, s.cpus[c].idleTid, false) == RunIdle(s, c)
  {
    hide Restored;
    var t, s1, s2 := s.cpus[c].idleTid, LooksAt(s, c, s.cpus[c].idleTid), RunIdle(s, c);
    assert s1.cpus[c := s1.cpus[c].(idle := true, live := Restored(At(s, t)))] == s2.cpus;
  }

  lemma MarksNotRestored(was: Thread, th: Thread)
    requires th == was.(phase := th.phase, running := th.running, cpu := th.cpu)
    ensures Restored(th) == Restored(was)
  {
  }

  /** What the kernel asserts of the thread it is about to run. */
  lemma AcceptedReady(s: State, c: nat, t: nat)
    requires c < |s.cpus| && Has(s, t)
    ensures var s' := LooksAt(Accepted(s, t), c, t);
            c < |s'.cpus| && Has(s', t) && At(s', t).phase.Ready? && At(s', t).running == At(s, t).running &&
            s'.cpus[c].current == Some(t)
  {
  }

  lemma NoneYet(s: State)
    ensures Wake(s.threads, AdvanceWakes(s.sleepers, 0)) == s.threads && Advanced(s.sleepers, 0) == s.sleepers
  {
  }

  lemma WakesSoFar(s: State, i: nat)
    ensures AdvanceWakes(s.sleepers, i + 1) == AdvanceWakes(s.sleepers, i) + Woken(Advanced(s.sleepers, i))
    ensures Advanced(s.sleepers, i + 1) == Ticked(Advanced(s.sleepers, i))
  {
  }

  lemma WakeOne(was: seq<Option<Thread>>, woken: seq<nat>, more: seq<nat>, k: nat)
    requires k < |more|
    ensures var w, t := Wake(was, woken + more[..k]), more[k];
            Wake(was, woken + more[..k + 1]) ==
            if t < |w| && w[t].Some? then w[t := Some(w[t].value.(phase := Ready, running := false))] else w
  {
    var tids := woken + more[..k + 1];
    assert tids[..|tids| - 1] == woken + more[..k];
  }

  class Machine {
    var threads: seq<Option<Thread>>
    var cpus: seq<Cpu>
    var events: map<nat, nat>
    var ticks: nat
    var sleepers: Queue
    var lagged: nat
    var lists: map<nat, WaitList>
    var words: map<nat, nat>
    var op: Option<FutexOp>

    function Now(): State
      reads this
    {
      State(threads, cpus, events, ticks, sleepers, lagged, lists, words, op)
    }

    constructor ()
      ensures Now() == POWER_ON && Inv(Now())
    {
      threads, cpus, events, ticks, sleepers, lagged, lists, words, op := [], [], map[], 0, [], 0, map[], map[], None;
      new;
      PowerOn();
    }

    /** pick_task: after the current thread to the end of the table, then from its start. */
    method PickTask(c: nat) returns (r: Option<nat>)
      requires CpuOk(Now(), c) && TidsOk(Now())
      ensures cpus[c].current.None? ==> r == None
      ensures cpus[c].current.Some? ==> r == Next(EligibleFlags(Now()), threads[cpus[c].current.value].value.tid)
    {
      if cpus[c].current.None? {
        return None;
      }
      var cur := threads[cpus[c].current.value].value.tid;
      ghost var e := EligibleFlags(Now());
      var t := cur + 1;
      while t < |threads|
        invariant cur + 1 <= t <= |threads|
        invariant forall u :: cur < u < t ==> !e[u]
      {
        if threads[t].Some? && Eligible(threads[t].value) {
          NextUnique(e, cur, t);
          return Some(threads[t].value.tid);
        }
        t := t + 1;
      }
      t := 0;
      while t < cur + 1
        invariant 0 <= t <= cur + 1
        invariant forall u :: cur < u < |e| || 0 <= u < t ==> !e[u]
      {
        if threads[t].Some? && Eligible(threads[t].value) {
          NextUnique(e, cur, t);
          return Some(threads[t].value.tid);
        }
        t := t + 1;
      }
      return None;
    }

    /** The first half of schedule: the current thread is saved and stops running. */
    method PutAway(c: nat)
      requires CpuOk(Now(), c)
      modifies this`threads
      ensures Now() == SwitchOut(old(Now()), c)
      ensures cpus[c].current.Some? ==>
                var t := cpus[c].current.value;
                && Has(Now(), t) && Agree(threads[t].value, cpus[c].live)
                && threads[t].value.regs.fs == old(threads[t]).value.regs.fs
                && !threads[t].value.running && threads[t].value.cpu == -1
    {
      hide Saved, Agree;
      if cpus[c].current.Some? {
        var t := cpus[c].current.value;
        SaveRestore(threads[t].value, cpus[c].live);
        var th := Saved(threads[t].value, cpus[c].live);
        th := th.(cpu := -1);
        if th.running {
          th := th.(running := false);
        }
        if th.phase.Running? && th.tid != cpus[c].idleTid {
          th := th.(phase := Ready);
        }
        MarksKeepContext(Saved(threads[t].value, cpus[c].live), th, cpus[c].live);
        threads := threads[t := Some(th)];
      }
    }

    /** May the picked thread run? A waiting one is made ready if its event fired, which uses the
        event up, or if its timeout is taken for expired. */
    method Accept(t: nat) returns (ok: bool)
      requires Has(Now(), t) && Eligible(At(Now(), t))
      modifies this`threads, this`events
      ensures ok == Runnable(old(Now()), At(old(Now()), t))
      ensures Now() == if ok then Accepted(old(Now()), t) else old(Now())
    {
      var th := threads[t].value;
      if th.phase.WaitEvent? {
        if Count(events, th.event) != 0 {
          events := DecEvent(events, th.event);
          threads := threads[t := Some(th.(phase := Ready))];
          return true;
        }
        return false;
      } else if th.phase.WaitEventTimeout? {
        if Count(events, th.event) != 0 {
          events := DecEvent(events, th.event);
          threads := threads[t := Some(th.(phase := Ready))];
          return true;
        } else if (th.waitStart - ticks) % TWO64 >= th.timeout {
          threads := threads[t := Some(th.(phase := Ready))];
          return true;
        }
        return false;
      }
      assert threads[t := Some(th.(phase := Ready))] == threads;
      return true;
    }

    /** One turn of the repick loop: thread `t` becomes current, and runs if it may. */
    method Visit(c: nat, t: nat) returns (ok: bool)
      requires c < |cpus| && Has(Now(), t) && Eligible(At(Now(), t))
      modifies this`threads, this`events, this`cpus
      ensures ok == Runnable(old(Now()), At(old(Now()), t))
      ensures Now() == LooksAt(if ok then Accepted(old(Now()), t) else old(Now()), c, t)
    {
      cpus := cpus[c := cpus[c].(current := Some(t))];
      ok := Accept(t);
    }

    /** No thread to run: the idle thread becomes current. */
    method Fall(c: nat)
      requires c < |cpus|
      modifies this`cpus
      ensures Now() == LooksAt(old(Now()), c, old(cpus[c].idleTid))
    {
      cpus := cpus[c := cpus[c].(current := Some(cpus[c].idleTid))];
    }

    /** The repick loop. It always ends, at the first runnable thread in cyclic order or, when there is
        none, at the idle thread. */
    method Repick(c: nat) returns (run: Option<nat>)
      requires CpuOk(Now(), c) && TidsOk(Now())
      modifies this`threads, this`events, this`cpus
      ensures run == Choice(old(Now()), c)
      ensures Now() == if run.Some? then LooksAt(Accepted(old(Now()), run.value), c, run.value)
                       else LooksAt(old(Now()), c, old(cpus[c].idleTid))
    {
      hide Runnable, Eligible, EligibleFlags, RunnableFlags, Accepted, TidsOk, Next, Ahead, Dist;
      ghost var s := Now();
      var first: Option<nat> := None;
      if cpus[c].current.None? {
        run := PickTask(c);
        Fall(c);
        return;
      }
      ghost var from := cpus[c].current.value;
      ghost var at := from;
      FlagsKept(s, c, at);
      assert LooksAt(s, c, at) == s;
      while true
        invariant Now() == LooksAt(s, c, at) && Has(s, at)
        invariant Scanned(s, from, at, first)
        decreases Ahead(s, from, at, first)
      {
        FlagsKept(s, c, at);
        run := PickTask(c);
        if run.None? {
          NoneEligible(s, from, at);
          LooksAway(s, c, at, s.cpus[c].idleTid);
          Fall(c);
          return;
        }
        ScanOn(s, from, at, first, run.value);
        if first.None? {
          first := run;
        } else if first == run {
          run := None;
          LooksAway(s, c, at, s.cpus[c].idleTid);
          Fall(c);
          return;
        }
        NextExists(s, at, run.value);
        LooksAway(s, c, at, run.value);
        at := run.value;
        var ok := Visit(c, run.value);
        if ok {
          return;
        }
      }
    }

    method Load(c: nat, t: nat, run: bool)
      requires c < |cpus| && Has(Now(), t) && cpus[c].current == Some(t)
      requires run ==> threads[t].value.phase.Ready? && !threads[t].value.running
      modifies this`threads, this`cpus
      ensures Now() == Loaded(old(Now()), c, t, run)
      ensures Has(Now(), t) && Agree(threads[t].value, cpus[c].live) && cpus[c].live.fsBase == threads[t].value.regs.fs
      ensures SameContext(threads[t].value, old(threads[t]).value) && threads[t].value.cpu == c
      ensures run ==> RunsOn(Now(), t, c) && threads[t].value.running && threads[t].value.phase.Running?
    {
      hide Restored, Agree;
      var th := threads[t].value;
      if run {
        assert th.phase.Ready?;
        assert !th.running;
        th := th.(running := true, phase := Running);
        cpus := cpus[c := cpus[c].(idle := false)];
      } else {
        cpus := cpus[c := cpus[c].(idle := true)];
      }
      th := th.(cpu := c);
      ghost var was := old(threads[t].value);
      assert Restored(th) == Restored(was) by { MarksNotRestored(was, th); }
      SaveRestore(th, Restored(th));
      threads := threads[t := Some(th)];
      cpus := cpus[c := cpus[c].(live := Restored(th))];
      assert cpus == old(cpus)[c := old(cpus[c]).(idle := !run, live := Restored(was))];
    }

    /** schedule, called with the lock held and the current thread on its way out. */
    method Reschedule(c: nat)
      requires CpuOk(Now(), c) && InTransit(SwitchOut(Now(), c), c)
      modifies this`threads, this`cpus, this`events
      ensures Now() == Schedule(old(Now()), c) && Inv(Now())
    {
      hide InTransit, SwitchOut, Inv, Loaded, RunThread, RunIdle, Runnable, Accepted;
      ScheduleKeeps(Now(), c);
      PutAway(c);
      ghost var s := Now();
      TransitCpu(s, c);
      assert TidsOk(s) by { TransitTids(s, c); }
      var run := Repick(c);
      if run.Some? {
        Arrives(s, c, run.value);
        AcceptedReady(s, c, run.value);
        LoadsChosen(s, c, run.value);
        Load(c, run.value, true);
      } else {
        LoadsIdle(s, c);
        Load(c, cpus[c].idleTid, false);
      }
    }

    /** A timer tick or yield on processor `c`. */
    method OnTick(c: nat)
      requires Inv(Now()) && c < |cpus|
      modifies this
      ensures CpuOk(old(Now()), c) && Now() == After(old(Now()), Tick(c)) && Inv(Now())
      ensures RecordsKept(old(Now()), Now(), c)
    {
      hide Inv, InTransit, SwitchOut, Schedule, RecordsKept;
      CpusOk(Now());
      ScheduleLoads(Now(), Tick(c));
      TickTransit(Now(), c);
      Reschedule(c);
    }

    /** await_event: an event that has fired is used up at once, otherwise the thread waits. */
    method AwaitEvent(c: nat, e: nat)
      requires Inv(Now()) && Calls(Now(), c)
      modifies this
      ensures CpuOk(old(Now()), c) && Inv(Now())
      ensures Now() == After(old(Now()), if Count(old(events), e) != 0 then TakeEvent(e) else Await(c, e))
      ensures if Signalled(old(events), e)
              then UsesUp(old(events), events, e) && threads == old(threads) && cpus == old(cpus)
              else WaitsOn(Now(), old(cpus[c].current.value), e) && RecordsKept(old(Now()), Now(), c)
    {
      hide Inv, InTransit, SwitchOut, Schedule, RecordsKept;
      CpusOk(Now());
      if Count(events, e) != 0 {
        StepKeeps(Now(), TakeEvent(e));
        events := DecEvent(events, e);
        return;
      }
      hide DecEvent;
      AwaitStep(Now(), Await(c, e), cpus[c].current.value);
      ScheduleLoads(Now(), Await(c, e));
      AtPickTransit(Now(), Await(c, e));
      var t := cpus[c].current.value;
      threads := threads[t := Some(threads[t].value.(event := e, phase := WaitEvent))];
      assert Now() == WaitsFor(old(Now()), c, e);
      Reschedule(c);
    }

    method AwaitEventTimeout(c: nat, e: nat, timeout: nat)
      requires Inv(Now()) && Calls(Now(), c)
      modifies this
      ensures CpuOk(old(Now()), c) && Now() == After(old(Now()), AwaitTimeout(c, e, timeout)) && Inv(Now())
      ensures var t := old(cpus[c].current.value);
              || WaitsTimed(Now(), t, e, old(ticks), timeout)
              || (RunsOn(Now(), t, c) && if Signalled(old(events), e) then UsesUp(old(events), events, e)
                                         else timeout == 0 && events == old(events))
      ensures RecordsKept(old(Now()), Now(), c)
    {
      hide Inv, InTransit, SwitchOut, Schedule, RecordsKept;
      CpusOk(Now());
      AwaitStep(Now(), AwaitTimeout(c, e, timeout), cpus[c].current.value);
      ScheduleLoads(Now(), AwaitTimeout(c, e, timeout));
      AtPickTransit(Now(), AwaitTimeout(c, e, timeout));
      var t := cpus[c].current.value;
      var th := threads[t].value;
      th := th.(event := e, phase := WaitEventTimeout, timeout := timeout, waitStart := ticks);
      threads := threads[t := Some(th)];
      assert Now() == WaitsForTimeout(old(Now()), c, e, timeout);
      Reschedule(c);
    }

    method TriggerEvent(e: nat)
      requires Inv(Now())
      modifies this
      ensures Now() == After(old(Now()), Trigger(e)) && Inv(Now())
    {
      hide Inv;
      StepKeeps(Now(), Trigger(e));
      events := events[e := (Count(events, e) + 1) % TWO32];
    }

    /** sleep_ms. */
    method SleepMs(c: nat, ms: nat)
      requires Inv(Now()) && Calls(Now(), c)
      modifies this
      ensures CpuOk(old(Now()), c) && Now() == After(old(Now()), Sleep(c, ms)) && Inv(Now())
    {
      hide Inv, InTransit, SwitchOut, Schedule, Inserted;
      CpusOk(Now());
      BusyRuns(Now(), c);
      AtPickTransit(Now(), Sleep(c, ms));
      var t := cpus[c].current.value;
      assert threads[t].value.phase.Running?;
      threads := threads[t := Some(threads[t].value.(phase := Sleeping))];
      sleepers := Inserted(sleepers, threads[t].value.tid, ms);
      assert Now() == Sleeps(old(Now()), c, ms);
      Reschedule(c);
    }

    /** The timer interrupt up to rescheduling: the clock, then advance_time with `sched_lock` busy or
        free. Each counted tick wakes the sleepers that reach zero. */
    method AdvanceTime(busy: bool)
      requires Inv(Now())
      modifies this
      ensures Now() == After(old(Now()), Timer(busy)) && Inv(Now())
    {
      hide Inv, Wake, Advanced, AdvanceWakes, Ticked, Woken;
      ghost var s := Now();
      StepKeeps(s, Timer(busy));
      ticks := (ticks + 1) % TWO64;
      if busy {
        lagged := lagged + 1;
        return;
      }
      TimerKeeps(s);
      NoneYet(s);
      var i := 0;
      while i < lagged + 1
        invariant i <= lagged + 1
        invariant Now() ==
            s.(ticks := ticks, threads := Wake(s.threads, AdvanceWakes(s.sleepers, i)),
                sleepers := Advanced(s.sleepers, i))
        invariant ticks == (s.ticks + 1) % TWO64
      {
        WakesSoFar(s, i);
        CountTick(s.threads, AdvanceWakes(s.sleepers, i));
        i := i + 1;
      }
      lagged := 0;
    }

    /** One counted tick of advance_time. */
    method CountTick(ghost was: seq<Option<Thread>>, ghost woken: seq<nat>)
      requires threads == Wake(was, woken)
      modifies this`threads, this`sleepers
      ensures threads == Wake(was, woken + Woken(old(sleepers)))
      ensures sleepers == Ticked(old(sleepers))
    {
      hide Wake, Expired;
      ghost var d := Counted(sleepers);
      if sleepers == [] {
        assert woken + Woken(sleepers) == woken;
        return;
      }
      sleepers := [Sleeper(sleepers[0].tid, Dec(sleepers[0].left))] + sleepers[1..];
      assert sleepers == d;
      ghost var k := 0;
      assert woken + Woken(old(sleepers))[..k] == woken;
      while sleepers != [] && sleepers[0].left == 0
        invariant k <= |d| && sleepers == d[k..] && k <= Expired(d)
        invariant threads == Wake(was, woken + Woken(old(sleepers))[..k])
        decreases |sleepers|
      {
        var tid := sleepers[0].tid;
        WakeOne(was, woken, Woken(old(sleepers)), k);
        if tid < |threads| && threads[tid].Some? {
          threads := threads[tid := Some(threads[tid].value.(phase := Ready, running := false))];
        }
        sleepers := sleepers[1..];
        k := k + 1;
      }
      assert k == Expired(d);
      assert Woken(old(sleepers))[..k] == Woken(old(sleepers));
    }

    /** add_new_tid. */
    method AddTid() returns (tid: nat)
      modifies this`threads
      ensures tid == FreeSlot(old(threads)) && threads == WithSlot(old(threads))
      ensures forall u :: 0 <= u < tid ==> threads[u].Some?
      ensures threads == if tid < |old(threads)| then old(threads) else old(threads) + seq(10, _ => None)
    {
      hide FreeSlot;
      tid := 0;
      while tid < |threads|
        invariant tid <= |threads| && forall u :: 0 <= u < tid ==> threads[u].Some?
      {
        if threads[tid].None? {
          return;
        }
        tid := tid + 1;
      }
      threads := threads + seq(10, _ => None);
    }

    /** start_thread, of a thread made READY or BLOCKED. */
    method StartThread(th: Thread) returns (tid: nat)
      requires Inv(Now()) && (th.phase.Ready? || th.phase.Blocked?) && !th.running
      modifies this
      ensures Now() == After(old(Now()), Start(th)) && Inv(Now()) && Has(Now(), tid)
      ensures At(Now(), tid) == th.(tid := tid)
    {
      hide Inv, FreeSlot;
      StepKeeps(Now(), Start(th));
      tid := AddTid();
      threads := threads[tid := Some(th.(tid := tid))];
    }

    /** init_sched_cpu_locals. */
    method StartCpu(th: Thread, live: Live)
      requires Inv(Now()) && th.phase.Blocked? && !th.running
      modifies this
      ensures Now() == After(old(Now()), BootCpu(th, live)) && Inv(Now())
      ensures |cpus| == |old(cpus)| + 1 && cpus[..|old(cpus)|] == old(cpus)
      ensures var cpu := cpus[|old(cpus)|];
              && cpu.current.None? && cpu.live == live
              && Has(Now(), cpu.idleTid) && At(Now(), cpu.idleTid) == th.(tid := cpu.idleTid)
    {
      hide Inv, FreeSlot;
      StepKeeps(Now(), BootCpu(th, live));
      var tid := AddTid();
      threads := threads[tid := Some(th.(tid := tid))];
      cpus := cpus + [Cpu(None, tid, true, live)];
    }

    /** set_fs_base_syscall. */
    method SetFsBase(c: nat, base: nat)
      requires Inv(Now()) && Calls(Now(), c)
      modifies this
      ensures Now() == After(old(Now()), SetFs(c, base)) && Inv(Now())
    {
      hide Inv;
      StepKeeps(Now(), SetFs(c, base));
      var t := cpus[c].current.value;
      var th := threads[t].value;
      threads := threads[t := Some(th.(regs := th.regs.(fs := base)))];
      cpus := cpus[c := cpus[c].(live := cpus[c].live.(fsBase := base))];
    }

    /** futex_wait up to taking `sched_lock`: false, with nothing changed, if the word has moved on. */
    method FutexCheck(c: nat, f: nat, expected: nat) returns (ok: bool)
      requires Inv(Now()) && Calls(Now(), c) && op.None?
      modifies this
      ensures Now() == After(old(Now()), FutexWait(c, f, expected)) && Inv(Now())
      ensures ok == ((if f in words then words[f] else 0) == expected) && (!ok ==> Now() == old(Now()))
      ensures ok ==> op == Some(Waiting(old(cpus[c].current.value), f))
    {
      hide Inv;
      StepKeeps(Now(), FutexWait(c, f, expected));
      if (if f in words then words[f] else 0) != expected {
        return false;
      }
      if f !in lists {
        lists := lists[f := []];
      }
      assert lists == old(lists)[f := ListOf(old(Now()), f)];
      op := Some(Waiting(cpus[c].current.value, f));
      return true;
    }

    /** The rest of futex_wait. */
    method FutexEnqueue(c: nat)
      requires Inv(Now()) && Holds(Now(), c) && op.value.Waiting?
      modifies this
      ensures CpuOk(old(Now()), c) && Now() == After(old(Now()), FutexBlock(c)) && Inv(Now())
    {
      hide Inv, InTransit, SwitchOut, Schedule, FreePlace;
      CpusOk(Now());
      OpFacts(Now());
      AtPickTransit(Now(), FutexBlock(c));
      var f, t := op.value.futex, cpus[c].current.value;
      var w, i := lists[f], 0;
      while i < |w| && w[i].Some?
        invariant i <= |w| && forall j :: 0 <= j < i ==> w[j].Some?
      {
        i := i + 1;
      }
      assert i == FreePlace(w);
      w := if i < |w| then w[i := Some(t)] else w + [Some(t)];
      lists := lists[f := w];
      threads := threads[t := Some(threads[t].value.(phase := Blocked))];
      op := None;
      assert Now() == BlocksOnFutex(old(Now()), c);
      Reschedule(c);
    }

    /** futex_wake up to the waiter found. */
    method FutexFind(c: nat, f: nat)
      requires Inv(Now()) && Calls(Now(), c) && op.None?
      modifies this
      ensures Now() == After(old(Now()), FutexWake(c, f)) && Inv(Now())
    {
      hide Inv, FirstWaiter;
      StepKeeps(Now(), FutexWake(c, f));
      if f !in lists {
        return;
      }
      var w, i := lists[f], 0;
      while i < |w|
        invariant i <= |w| && forall j :: 0 <= j < i ==> w[j].None?
      {
        if w[i].Some? {
          op := Some(Found(cpus[c].current.value, f, i));
          return;
        }
        i := i + 1;
      }
    }

    /** The rest of futex_wake: the waiter is made ready under `sched_lock`, and only then taken off the
        list. */
    method FutexReady(c: nat)
      requires Inv(Now()) && Holds(Now(), c) && op.value.Found?
      modifies this
      ensures Now() == After(old(Now()), WakeReady(c)) && Inv(Now())
    {
      hide Inv;
      StepKeeps(Now(), WakeReady(c));
      OpFacts(Now());
      var t := lists[op.value.futex][op.value.slot].value;
      threads := threads[t := Some(threads[t].value.(phase := Ready))];
      op := Some(Woke(op.value.holder, op.value.futex, op.value.slot));
    }

    method FutexClear(c: nat)
      requires Inv(Now()) && Holds(Now(), c) && op.value.Woke?
      modifies this
      ensures Now() == After(old(Now()), WakeClear(c)) && Inv(Now())
    {
      hide Inv;
      StepKeeps(Now(), WakeClear(c));
      OpFacts(Now());
      var f := op.value.futex;
      lists := lists[f := lists[f][op.value.slot := None]];
      op := None;
    }
  }
}
