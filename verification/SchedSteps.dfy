/** The scheduler, events, futexes and sleepers as a machine of several processors. One step is one
    section under `sched_lock`, or one access to a word outside it (src/proc/scheduler.c,
    src/proc/event.c, src/proc/sleep_queue.c, src/proc/sched_syscalls.c). */
module SchedSteps {
  import opened Common
  import opened Contexts
  import opened Cyclic
  import opened SleepQueue

  const TWO32: nat := 0x1_0000_0000

  datatype Cpu = Cpu(current: Option<nat>, idleTid: nat, idle: bool, live: Live)

  /** Who holds `futex_lock`, and how far it has come. */
  datatype FutexOp =
    | Waiting(holder: nat, futex: nat)
    | Found(holder: nat, futex: nat, slot: nat)
    | Woke(holder: nat, futex: nat, slot: nat)

  type WaitList = seq<Option<nat>>

  datatype State = State(threads: seq<Option<Thread>>, cpus: seq<Cpu>, events: map<nat, nat>, ticks: nat,
                         sleepers: Queue, lagged: nat,
                         lists: map<nat, WaitList>, words: map<nat, nat>, op: Option<FutexOp>)

  predicate Has(s: State, t: nat) {
    t < |s.threads| && s.threads[t].Some?
  }

  function At(s: State, t: nat): Thread
    requires Has(s, t)
  {
    s.threads[t].value
  }

  function SetThread(s: State, t: nat, th: Thread): State
    requires Has(s, t)
  {
    s.(threads := s.threads[t := Some(th)])
  }

  /** Processor `c` has an idle thread, and its current thread, if any, exists. */
  predicate CpuOk(s: State, c: nat) {
    && c < |s.cpus| && Has(s, s.cpus[c].idleTid)
    && (s.cpus[c].current.Some? ==> Has(s, s.cpus[c].current.value) && At(s, s.cpus[c].current.value).tid < |s.threads|)
  }

  function Count(events: map<nat, nat>, e: nat): nat {
    if e in events then events[e] else 0
  }

  function DecEvent(events: map<nat, nat>, e: nat): map<nat, nat> {
    events[e := if Count(events, e) == 0 then TWO32 - 1 else Count(events, e) - 1]
  }

  /** The timeout test as the code has it: start minus now, unsigned. */
  predicate TimedOut(th: Thread, ticks: nat) {
    (th.waitStart - ticks) % TWO64 >= th.timeout
  }

  /** pick_task's test, and the test a picked thread has to pass to run. */
  predicate Eligible(th: Thread) {
    th.phase.Ready? || th.phase.WaitEvent? || th.phase.WaitEventTimeout?
  }

  predicate Runnable(s: State, th: Thread) {
    || th.phase.Ready?
    || (th.phase.WaitEvent? && Count(s.events, th.event) != 0)
    || (th.phase.WaitEventTimeout? && (Count(s.events, th.event) != 0 || TimedOut(th, s.ticks)))
  }

  function EligibleFlags(s: State): (f: seq<bool>)
    ensures |f| == |s.threads|
  {
    seq(|s.threads|, t requires 0 <= t < |s.threads| => s.threads[t].Some? && Eligible(s.threads[t].value))
  }

  function RunnableFlags(s: State): (f: seq<bool>)
    ensures |f| == |s.threads|
  {
    seq(|s.threads|, t requires 0 <= t < |s.threads| => s.threads[t].Some? && Runnable(s, s.threads[t].value))
  }

  /** What schedule does to the thread it interrupts. */
  function Left(th: Thread, cpu: Cpu): Thread {
    Saved(th, cpu.live).(
      cpu := -1, running := false,
      phase := if th.phase.Running? && th.tid != cpu.idleTid then Ready else th.phase)
  }

  function SwitchOut(s: State, c: nat): State
    requires CpuOk(s, c)
  {
    var cpu := s.cpus[c];
    if cpu.current.None? then s else SetThread(s, cpu.current.value, Left(At(s, cpu.current.value), cpu))
  }

  /** The thread to run: the first runnable one in cyclic order after the current one; none when
      there is no current thread yet. */
  function Choice(s: State, c: nat): (r: Option<nat>)
    requires CpuOk(s, c)
    ensures r.Some? ==> Has(s, r.value) && Runnable(s, At(s, r.value))
  {
    if s.cpus[c].current.None? then None
    else Next(RunnableFlags(s), At(s, s.cpus[c].current.value).tid)
  }

  function Taken(th: Thread, c: nat): Thread {
    th.(phase := Running, running := true, cpu := c)
  }

  /** Running the chosen thread: a waiting one consumes its event if that fired. */
  function RunThread(s: State, c: nat, t: nat): State
    requires c < |s.cpus| && Has(s, t)
  {
    var th := At(s, t);
    var fired := !th.phase.Ready? && Count(s.events, th.event) != 0;
    var s1 := if fired then s.(events := DecEvent(s.events, th.event)) else s;
    var cpu := s.cpus[c].(current := Some(t), idle := false, live := Restored(th));
    SetThread(s1, t, Taken(th, c)).(cpus := s.cpus[c := cpu])
  }

  function RunIdle(s: State, c: nat): State
    requires CpuOk(s, c)
  {
    var t := s.cpus[c].idleTid;
    var th := At(s, t);
    var cpu := s.cpus[c].(current := Some(t), idle := true, live := Restored(th));
    SetThread(s, t, th.(cpu := c)).(cpus := s.cpus[c := cpu])
  }

  /** The second half of schedule: pick, and run what was picked. */
  function Resumed(s: State, c: nat): State
    requires CpuOk(s, c)
  {
    var r := Choice(s, c);
    if r.Some? then RunThread(s, c, r.value) else RunIdle(s, c)
  }

  /** schedule on processor `c`. */
  function Schedule(s: State, c: nat): State
    requires CpuOk(s, c)
  {
    Resumed(SwitchOut(s, c), c)
  }

  /** add_new_tid: the first empty slot, or a table ten longer. */
  function FreeSlot(threads: seq<Option<Thread>>): (t: nat)
    ensures t <= |threads| && (forall u :: 0 <= u < t ==> threads[u].Some?)
    ensures t < |threads| ==> threads[t].None?
  {
    if threads == [] || threads[0].None? then 0 else 1 + FreeSlot(threads[1..])
  }

  function WithSlot(threads: seq<Option<Thread>>): (r: seq<Option<Thread>>)
    ensures FreeSlot(threads) < |r| && |threads| <= |r|
  {
    if FreeSlot(threads) < |threads| then threads else threads + seq(10, _ => None)
  }

  function Started(threads: seq<Option<Thread>>, th: Thread): seq<Option<Thread>> {
    WithSlot(threads)[FreeSlot(threads) := Some(th.(tid := FreeSlot(threads)))]
  }

  /** The first empty place of a wait list, or one past its end. */
  function FreePlace(w: WaitList): (i: nat)
    ensures i <= |w| && (forall j :: 0 <= j < i ==> w[j].Some?) && (i < |w| ==> w[i].None?)
  {
    if w == [] || w[0].None? then 0 else 1 + FreePlace(w[1..])
  }

  function Enlisted(w: WaitList, t: nat): WaitList {
    if FreePlace(w) < |w| then w[FreePlace(w) := Some(t)] else w + [Some(t)]
  }

  /** The first taken place of a wait list, or its length. */
  function FirstWaiter(w: WaitList): (i: nat)
    ensures i <= |w| && (forall j :: 0 <= j < i ==> w[j].None?) && (i < |w| ==> w[i].Some?)
  {
    if w == [] || w[0].Some? then 0 else 1 + FirstWaiter(w[1..])
  }

  function ListOf(s: State, f: nat): WaitList {
    if f in s.lists then s.lists[f] else []
  }

  /** Waking the sleepers whose time has come, one after another. */
  function Wake(threads: seq<Option<Thread>>, tids: seq<nat>): (r: seq<Option<Thread>>)
    ensures |r| == |threads|
    decreases |tids|
  {
    if tids == [] then threads
    else
      var t := tids[|tids| - 1];
      var w := Wake(threads, tids[..|tids| - 1]);
      if t < |w| && w[t].Some? then w[t := Some(w[t].value.(phase := Ready, running := false))] else w
  }

  datatype Step =
    | Execute(c: nat, live: Live)
    | SetFs(c: nat, base: nat)
    | Tick(c: nat)
    | Await(c: nat, event: nat)
    | AwaitTimeout(c: nat, event: nat, timeout: nat)
    | TakeEvent(event: nat)
    | Trigger(event: nat)
    | Sleep(c: nat, ms: nat)
    | Timer(busy: bool)
    | Start(thread: Thread)
    | BootCpu(thread: Thread, live: Live)
    | FutexWait(c: nat, futex: nat, expected: nat)
    | FutexBlock(c: nat)
    | FutexWake(c: nat, futex: nat)
    | WakeReady(c: nat)
    | WakeClear(c: nat)
    | Store(word: nat, value: nat)

  /** Processor `c` runs a thread of the system. */
  predicate Busy(s: State, c: nat) {
    c < |s.cpus| && !s.cpus[c].idle && s.cpus[c].current.Some? && Has(s, s.cpus[c].current.value)
  }

  /** ... which is not in the middle of a futex call. */
  predicate Calls(s: State, c: nat) {
    Busy(s, c) && (s.op.Some? ==> s.op.value.holder != s.cpus[c].current.value)
  }

  /** ... which is the one in the middle of a futex call. */
  predicate Holds(s: State, c: nat) {
    Busy(s, c) && s.op.Some? && s.op.value.holder == s.cpus[c].current.value
  }

  predicate Enabled(s: State, step: Step) {
    match step
    case Execute(c, _) => c < |s.cpus|
    case SetFs(c, _) => Calls(s, c)
    case Tick(c) => CpuOk(s, c)
    case Await(c, _) => Calls(s, c) && CpuOk(s, c)
    case AwaitTimeout(c, _, _) => Calls(s, c) && CpuOk(s, c)
    case TakeEvent(_) => true
    case Trigger(_) => true
    case Sleep(c, _) => Calls(s, c) && CpuOk(s, c)
    case Timer(_) => true
    case Start(th) => (th.phase.Ready? || th.phase.Blocked?) && !th.running
    case BootCpu(th, _) => th.phase.Blocked? && !th.running
    case FutexWait(c, _, _) => Calls(s, c) && s.op.None?
    case FutexBlock(c) => Holds(s, c) && s.op.value.Waiting? && CpuOk(s, c)
    case FutexWake(c, _) => Calls(s, c) && s.op.None?
    case WakeReady(c) => Holds(s, c) && s.op.value.Found?
    case WakeClear(c) => Holds(s, c) && s.op.value.Woke?
    case Store(_, _) => true
  }

  /** The current thread changes before it is scheduled away. */
  function Change(s: State, c: nat, th: Thread): State
    requires Busy(s, c)
  {
    SetThread(s, s.cpus[c].current.value, th)
  }

  function Current(s: State, c: nat): Thread
    requires Busy(s, c)
  {
    At(s, s.cpus[c].current.value)
  }

  /** await_event and await_event_timeout up to the switch. */
  function WaitsFor(s: State, c: nat, e: nat): State
    requires Busy(s, c)
  {
    Change(s, c, Current(s, c).(event := e, phase := WaitEvent))
  }

  function WaitsForTimeout(s: State, c: nat, e: nat, timeout: nat): State
    requires Busy(s, c)
  {
    Change(s, c, Current(s, c).(event := e, phase := WaitEventTimeout, timeout := timeout, waitStart := s.ticks))
  }

  /** sleep_ms up to the switch. */
  function Sleeps(s: State, c: nat, ms: nat): State
    requires Busy(s, c)
  {
    Change(s, c, Current(s, c).(phase := Sleeping)).(sleepers := Inserted(s.sleepers, Current(s, c).tid, ms))
  }

  function TickTimer(s: State, busy: bool): State {
    var s1 := s.(ticks := (s.ticks + 1) % TWO64);
    if busy then s1.(lagged := s.lagged + 1)
    else s1.(threads := Wake(s.threads, AdvanceWakes(s.sleepers, s.lagged + 1)),
             sleepers := Advanced(s.sleepers, s.lagged + 1), lagged := 0)
  }

  /** futex_wait up to the test of the word, and from there up to the switch. */
  function ChecksFutex(s: State, c: nat, f: nat, expected: nat): State
    requires Busy(s, c)
  {
    if (if f in s.words then s.words[f] else 0) != expected then s
    else s.(op := Some(Waiting(s.cpus[c].current.value, f)), lists := s.lists[f := ListOf(s, f)])
  }

  function BlocksOnFutex(s: State, c: nat): State
    requires Busy(s, c) && s.op.Some?
  {
    var f := s.op.value.futex;
    Change(s, c, Current(s, c).(phase := Blocked)).(
      lists := s.lists[f := Enlisted(ListOf(s, f), s.cpus[c].current.value)], op := None)
  }

  /** futex_wake: the search, the waking and the clearing of the place. */
  function LooksForWaiter(s: State, c: nat, f: nat): State
    requires Busy(s, c)
  {
    var i := FirstWaiter(ListOf(s, f));
    if i < |ListOf(s, f)| then s.(op := Some(Found(s.cpus[c].current.value, f, i))) else s
  }

  function ReadiesWaiter(s: State): State
    requires s.op.Some? && s.op.value.Found?
  {
    var op := s.op.value;
    var w := ListOf(s, op.futex);
    var s1 := s.(op := Some(Woke(op.holder, op.futex, op.slot)));
    if op.slot < |w| && w[op.slot].Some? && Has(s, w[op.slot].value)
    then SetThread(s1, w[op.slot].value, At(s, w[op.slot].value).(phase := Ready)) else s1
  }

  function ClearsPlace(s: State): State
    requires s.op.Some? && s.op.value.Woke?
  {
    var op := s.op.value;
    var w := ListOf(s, op.futex);
    s.(op := None, lists := if op.slot < |w| then s.lists[op.futex := w[op.slot := None]] else s.lists)
  }

  /** Does this step call schedule, and on which processor. */
  predicate Schedules(step: Step) {
    step.Tick? || step.Await? || step.AwaitTimeout? || step.Sleep? || step.FutexBlock?
  }

  /** The state in which schedule is called. */
  function Before(s: State, step: Step): (r: State)
    requires Schedules(step) && Enabled(s, step)
    ensures CpuOk(r, step.c)
  {
    match step
    case Tick(c) => s
    case Await(c, e) => WaitsFor(s, c, e)
    case AwaitTimeout(c, e, timeout) => WaitsForTimeout(s, c, e, timeout)
    case Sleep(c, ms) => Sleeps(s, c, ms)
    case FutexBlock(c) => BlocksOnFutex(s, c)
  }

  function After(s: State, step: Step): State
    requires Enabled(s, step)
  {
    match step
    case Execute(c, live) => s.(cpus := s.cpus[c := s.cpus[c].(live := live)])
    case SetFs(c, base) =>
      var th := Current(s, c);
      var cpu := s.cpus[c].(live := s.cpus[c].live.(fsBase := base));
      Change(s, c, th.(regs := th.regs.(fs := base))).(cpus := s.cpus[c := cpu])
    case Tick(c) => Schedule(Before(s, step), c)
    case Await(c, _) => Schedule(Before(s, step), c)
    case AwaitTimeout(c, _, _) => Schedule(Before(s, step), c)
    case Sleep(c, _) => Schedule(Before(s, step), c)
    case FutexBlock(c) => Schedule(Before(s, step), c)
    case TakeEvent(e) => s.(events := DecEvent(s.events, e))
    case Trigger(e) => s.(events := s.events[e := (Count(s.events, e) + 1) % TWO32])
    case Timer(busy) => TickTimer(s, busy)
    case Start(th) => s.(threads := Started(s.threads, th))
    case BootCpu(th, live) =>
      s.(threads := Started(s.threads, th), cpus := s.cpus + [Cpu(None, FreeSlot(s.threads), true, live)])
    case FutexWait(c, f, expected) => ChecksFutex(s, c, f, expected)
    case FutexWake(c, f) => LooksForWaiter(s, c, f)
    case WakeReady(_) => ReadiesWaiter(s)
    case WakeClear(_) => ClearsPlace(s)
    case Store(w, v) => s.(words := s.words[w := v])
  }
}
