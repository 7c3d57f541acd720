/** The registers a thread runs with, over whole runs (src/proc/scheduler.c:520-556, 646-682): each is
    saved to and loaded from its own place in the thread's record. */
module SchedContexts {
  import opened Common
  import opened Contexts
  import opened SleepQueue
  import opened SchedSteps
  import opened SchedInv
  import opened SchedRuns

  /** The registers of every record after a step of processor `c` that schedules: the thread that left has
      what was live there, every other thread what it had, and the processor runs with the registers of
      the thread it chose. */
  ghost predicate RecordsKept(s: State, s': State, c: nat) {
    && c < |s.cpus| == |s'.cpus| && |s'.threads| == |s.threads|
    && (forall t: nat :: Has(s, t) && s.cpus[c].current != Some(t) ==> Has(s', t) && SameContext(At(s', t), At(s, t)))
    && (forall t: nat :: Has(s, t) && s.cpus[c].current == Some(t) ==>
          Has(s', t) && Agree(At(s', t), s.cpus[c].live) && At(s', t).regs.fs == At(s, t).regs.fs)
    && s'.cpus[c].current.Some? && Has(s', s'.cpus[c].current.value)
    && var chosen := At(s', s'.cpus[c].current.value);
       Agree(chosen, s'.cpus[c].live) && s'.cpus[c].live.fsBase == chosen.regs.fs
  }

  lemma ScheduleLoads(s: State, step: Step)
    requires Schedules(step) && Enabled(s, step)
    ensures RecordsKept(s, After(s, step), step.c)
  {
    hide AtPick, After, Enabled, Agree, Switched, OnlyCurrent, RecordsKept;
    var s1, s', c := AtPick(s, step), After(s, step), step.c;
    AtPickFrame(s, step);
    StepSwitches(s, step);
    CurrentCpu(s, s1, c);
    if s.cpus[c].current.Some? && Has(s, s.cpus[c].current.value) {
      PutAwaySaves(s, step, s.cpus[c].current.value);
    }
    RecordsAfter(s, s1, s', c);
  }

  lemma CurrentCpu(s: State, s1: State, c: nat)
    requires OnlyCurrent(s, s1, c)
    ensures c < |s.cpus| && forall t: nat :: Has(s, t) ==> Has(s1, t)
  {
  }

  /** The records from before the step to the pick, and from there on. */
  lemma RecordsAfter(s: State, s1: State, s': State, c: nat)
    requires OnlyCurrent(s, s1, c) && Switched(s1, s', c)
    requires forall t: nat :: Has(s, t) && s.cpus[c].current == Some(t) ==>
               Has(s1, t) && Agree(At(s1, t), s.cpus[c].live) && At(s1, t).regs.fs == At(s, t).regs.fs
    ensures RecordsKept(s, s', c)
  {
    hide Agree, Switched;
    ChosenLoads(s1, s', c);
    forall t: nat | Has(s, t)
      ensures Has(s', t)
      ensures s.cpus[c].current != Some(t) ==> SameContext(At(s', t), At(s, t))
      ensures s.cpus[c].current == Some(t) ==> Agree(At(s', t), s.cpus[c].live) && At(s', t).regs.fs == At(s, t).regs.fs
    {
      SwitchKeepsRecord(s1, s', c, t);
      SameContextAgrees(At(s', t), At(s1, t), s.cpus[c].live);
    }
  }

  /** Picking and running changes no thread's registers ... */
  lemma SwitchKeepsRecord(s1: State, s': State, c: nat, t: nat)
    requires Switched(s1, s', c) && Has(s1, t)
    ensures Has(s', t) && SameContext(At(s', t), At(s1, t))
  {
    hide Runnable, Restored;
    if s'.cpus[c].current != Some(t) {
      assert s'.threads[t] == s1.threads[t];
    }
  }

  /** ... and gives the processor those of the thread it chose. */
  lemma ChosenLoads(s1: State, s': State, c: nat)
    requires Switched(s1, s', c)
    ensures c < |s1.cpus| == |s'.cpus| && |s'.threads| == |s1.threads|
    ensures s'.cpus[c].current.Some? && Has(s', s'.cpus[c].current.value)
    ensures var chosen := At(s', s'.cpus[c].current.value);
            Agree(chosen, s'.cpus[c].live) && s'.cpus[c].live.fsBase == chosen.regs.fs
  {
    hide Runnable, Restored, Agree;
    var t := s'.cpus[c].current.value;
    SaveRestore(At(s1, t), s'.cpus[c].live);
    MarksKeepContext(At(s1, t), At(s', t), s'.cpus[c].live);
  }

  lemma SameContextAgrees(th: Thread, was: Thread, live: Live)
    requires SameContext(th, was)
    ensures Agree(th, live) <==> Agree(was, live)
  {
  }

  /** Marking a thread as running, or as idle on a processor, leaves its registers alone. */
  lemma MarksKeepContext(th: Thread, th': Thread, live: Live)
    requires th' == th.(phase := th'.phase, running := th'.running, cpu := th'.cpu)
    ensures SameContext(th', th) && (Agree(th, live) <==> Agree(th', live))
  {
  }

  lemma PutAwaySaves(s: State, step: Step, t: nat)
    requires Schedules(step) && Enabled(s, step) && Has(s, t) && s.cpus[step.c].current == Some(t)
    ensures Has(AtPick(s, step), t)
    ensures var th := At(AtPick(s, step), t); Agree(th, s.cpus[step.c].live) && th.regs.fs == At(s, t).regs.fs
  {
    hide Inserted, Enlisted, Saved, Agree;
    var th := At(Before(s, step), t);
    SaveRestore(th, s.cpus[step.c].live);
    MarksKeepContext(Saved(th, s.cpus[step.c].live), At(AtPick(s, step), t), s.cpus[step.c].live);
  }

  /** Thread `t` first comes into being at step `j`. */
  ghost predicate Born(states: seq<State>, steps: seq<Step>, t: nat, j: nat)
    requires j < |steps| < |states|
  {
    steps[j].Start? && !Has(states[j], t) && Has(states[j + 1], t)
  }

  lemma StartedAt(s: State, th: Thread, t: nat)
    requires Inv(s) && Enabled(s, Start(th)) && !Has(s, t) && Has(After(s, Start(th)), t)
    ensures var s' := After(s, Start(th)); At(s', t) == th.(tid := t) && NotIdle(s', t) && s'.cpus == s.cpus
  {
    hide FreeSlot, Started, Placed, SleepersOk, WaitersOk, OpOk;
    StartAt(s.threads, th);
    assert IdleOk(s) by { IdleThreads(s); }
  }

  lemma IdleThreads(s: State)
    requires Placed(s)
    ensures IdleOk(s)
  {
  }

  /** A thread begins with the registers it was made with: over every run, the first time a processor
      runs a thread after start_thread, it runs it with the registers, stacks, address space and
      floating-point words given to start_thread. */
  lemma FirstRun(states: seq<State>, steps: seq<Step>, t: nat, j: nat, k: nat, c: nat)
    requires IsRun(states, steps) && Inv(states[0]) && j < k <= |steps| && Born(states, steps, t, j)
    requires RunsOn(states[k], t, c) && forall l, d :: j < l < k ==> !RunsOn(states[l], t, d)
    ensures Agree(steps[j].thread, states[k].cpus[c].live)
    ensures states[k].cpus[c].live.fsBase == steps[j].thread.regs.fs
  {
    hide Inv, Enabled, After, ContextOf, NotIdle, Agree, SameContext;
    var th := steps[j].thread;
    RunKeeps(states, steps, j);
    RunKeeps(states, steps, k);
    assert states[j + 1] == After(states[j], steps[j]) && Enabled(states[j], steps[j]);
    StartedAt(states[j], th, t);
    RunKeepsContext(states, steps, t, j + 1, k);
    LiveContext(states[k], t, c);
    NewContext(states[j], states[j + 1], th, t);
    SaveRestore(th, Restored(th));
  }

  /** A thread that runs has what is live on its processor. */
  lemma LiveContext(s: State, t: nat, c: nat)
    requires Inv(s) && RunsOn(s, t, c)
    ensures Has(s, t) && ContextOf(s, t) == s.cpus[c].live
  {
    hide Inv;
    OneToOne(s);
  }

  lemma NewContext(s: State, s': State, th: Thread, t: nat)
    requires Enabled(s, Start(th)) && Has(s', t) && At(s', t) == th.(tid := t)
    ensures ContextOf(s', t) == Restored(th)
  {
  }

  /** A thread goes on where it left off: over every run, from the moment its own instructions left the
      processor with `live` until it executes again, wherever it is resumed it has those registers,
      stacks, address space and floating-point words. */
  lemma GoesOnWhereItLeft(states: seq<State>, steps: seq<Step>, t: nat, j: nat, k: nat, c: nat)
    requires IsRun(states, steps) && Inv(states[0]) && j < k <= |steps|
    requires steps[j].Execute? && RunsOn(states[j], t, steps[j].c)
    requires RunsOn(states[k], t, c) && forall l :: j < l < k ==> !OwnStep(states[l], steps[l], t)
    ensures states[k].cpus[c].live.(fsBase := 0) == steps[j].live.(fsBase := 0)
  {
    hide Inv, Enabled, After, ContextOf, NotIdle, OwnStep;
    RunKeeps(states, steps, j);
    RunKeeps(states, steps, k);
    assert states[j + 1] == After(states[j], steps[j]) && Enabled(states[j], steps[j]);
    Executed(states[j], steps[j].c, steps[j].live, t);
    RunIsolates(states, steps, t, j + 1, k);
    LiveContext(states[k], t, c);
  }

  lemma Executed(s: State, c: nat, live: Live, t: nat)
    requires Inv(s) && Enabled(s, Execute(c, live)) && RunsOn(s, t, c)
    ensures var s' := After(s, Execute(c, live)); Has(s', t) && NotIdle(s', t) && ContextOf(s', t) == live
  {
    hide Inv;
    OneToOne(s);
    BusyRuns(s, c);
  }

  /** The FS.base a thread sets stays its own: over every run it has it again wherever it is resumed,
      until it changes its registers itself. */
  lemma FsBaseSurvives(states: seq<State>, steps: seq<Step>, t: nat, j: nat, k: nat)
    requires IsRun(states, steps) && Inv(states[0]) && j < k <= |steps|
    requires steps[j].SetFs? && RunsOn(states[j], t, steps[j].c)
    requires forall l :: j < l < k ==> !OwnStep(states[l], steps[l], t)
    ensures Has(states[k], t) && At(states[k], t).regs.fs == steps[j].base
    ensures forall c: nat :: RunsOn(states[k], t, c) ==> states[k].cpus[c].live.fsBase == steps[j].base
  {
    hide Inv, Enabled, After, ContextOf, NotIdle, OwnStep;
    RunKeeps(states, steps, j);
    RunKeeps(states, steps, k);
    assert states[j + 1] == After(states[j], steps[j]) && Enabled(states[j], steps[j]);
    FsBaseSet(states[j], steps[j].c, steps[j].base, t);
    RunKeepsContext(states, steps, t, j + 1, k);
    forall c: nat | RunsOn(states[k], t, c) ensures states[k].cpus[c].live.fsBase == steps[j].base {
      LiveContext(states[k], t, c);
    }
  }

  lemma FsBaseSet(s: State, c: nat, base: nat, t: nat)
    requires Inv(s) && Enabled(s, SetFs(c, base)) && RunsOn(s, t, c)
    ensures var s' := After(s, SetFs(c, base));
            Has(s', t) && NotIdle(s', t) && At(s', t).regs.fs == base && ContextOf(s', t).fsBase == base
  {
    hide Inv;
    BusyRuns(s, c);
  }
}
