/** The kernel's sleep queue (src/proc/sleep_queue.c): a list in which each sleeper holds the ticks
    left after the one before it. */
module SleepQueue {
  import opened Common

  datatype Sleeper = Sleeper(tid: nat, left: nat)

  type Queue = seq<Sleeper>

  /** insert_to_queue on the list's contents. */
  function Inserted(q: Queue, tid: nat, ticks: nat): Queue {
    if q == [] then [Sleeper(tid, ticks)]
    else if q[0].left >= ticks then [Sleeper(tid, ticks), Sleeper(q[0].tid, q[0].left - ticks)] + q[1..]
    else [q[0]] + Inserted(q[1..], tid, ticks - q[0].left)
  }

  /** The unsigned decrement of `time_left`. */
  function Dec(n: nat): nat {
    if n == 0 then TWO64 - 1 else n - 1
  }

  /** The sleepers at the front with nothing left. */
  function Expired(q: Queue): (k: nat)
    ensures k <= |q| && forall i :: 0 <= i < k ==> q[i].left == 0
    ensures k < |q| ==> q[k].left != 0
  {
    if q != [] && q[0].left == 0 then 1 + Expired(q[1..]) else 0
  }

  /** One counted tick: the head loses a tick, then everything that reached zero leaves. */
  function Counted(q: Queue): Queue {
    if q == [] then [] else [Sleeper(q[0].tid, Dec(q[0].left))] + q[1..]
  }

  function Ticked(q: Queue): Queue {
    Counted(q)[Expired(Counted(q))..]
  }

  function Woken(q: Queue): seq<nat> {
    var d := Counted(q);
    seq(Expired(d), i requires 0 <= i < Expired(d) => d[i].tid)
  }

  /** A sleeper and the tick at which it is due. */
  datatype Due = Due(tid: nat, at: nat)

  /** The queue's meaning when `now` ticks have been counted. */
  function Deadlines(q: Queue, now: nat): seq<Due> {
    if q == [] then [] else [Due(q[0].tid, now + q[0].left)] + Deadlines(q[1..], now + q[0].left)
  }

  /** Nobody at the head is due already. */
  predicate HeadPositive(q: Queue) {
    q != [] ==> q[0].left > 0
  }

  /** How many sleepers are due before `ticks` from now. */
  function Position(q: Queue, ticks: nat): (k: nat)
    ensures k <= |q|
  {
    if q == [] || q[0].left >= ticks then 0 else 1 + Position(q[1..], ticks - q[0].left)
  }

  lemma DeadlinesLength(q: Queue, now: nat)
    ensures |Deadlines(q, now)| == |q|
    ensures forall i :: 0 <= i < |q| ==> Deadlines(q, now)[i].tid == q[i].tid && Deadlines(q, now)[i].at >= now
  {
  }

  /** Deadlines come in order. */
  lemma {:induction false} DeadlinesSorted(q: Queue, now: nat, i: nat, j: nat)
    requires i <= j < |q|
    ensures |Deadlines(q, now)| == |q| && Deadlines(q, now)[i].at <= Deadlines(q, now)[j].at
  {
    DeadlinesLength(q, now);
    var rest := Deadlines(q[1..], now + q[0].left);
    DeadlinesLength(q[1..], now + q[0].left);
    if i > 0 {
      DeadlinesSorted(q[1..], now + q[0].left, i - 1, j - 1);
      assert Deadlines(q, now)[i] == rest[i - 1] && Deadlines(q, now)[j] == rest[j - 1];
    } else if j > 0 {
      assert Deadlines(q, now)[j] == rest[j - 1];
    }
  }

  /** Inserting splices in one deadline, `ticks` from now, and moves no other. */
  lemma {:induction false} InsertSplices(q: Queue, tid: nat, ticks: nat, now: nat)
    ensures Position(q, ticks) <= |Deadlines(q, now)|
    ensures var k, ds := Position(q, ticks), Deadlines(q, now);
            Deadlines(Inserted(q, tid, ticks), now) == ds[..k] + [Due(tid, now + ticks)] + ds[k..]
  {
    DeadlinesLength(q, now);
    if q == [] {
    } else if q[0].left >= ticks {
      var q' := Inserted(q, tid, ticks);
      assert q'[1..][1..] == q[1..];
    } else {
      var rest, k := Deadlines(q[1..], now + q[0].left), Position(q[1..], ticks - q[0].left);
      InsertSplices(q[1..], tid, ticks - q[0].left, now + q[0].left);
      assert Inserted(q, tid, ticks)[1..] == Inserted(q[1..], tid, ticks - q[0].left);
      assert Deadlines(q, now)[..k + 1] == [Due(q[0].tid, now + q[0].left)] + rest[..k];
      assert Deadlines(q, now)[k + 1..] == rest[k..];
    }
  }

  /** As a collection, the deadlines gain exactly the new one. The head stays positive exactly when
      the sleep is of at least one tick. */
  lemma InsertAddsDeadline(q: Queue, tid: nat, ticks: nat, now: nat)
    ensures multiset(Deadlines(Inserted(q, tid, ticks), now)) ==
            multiset(Deadlines(q, now)) + multiset{Due(tid, now + ticks)}
    ensures HeadPositive(q) ==> (HeadPositive(Inserted(q, tid, ticks)) <==> ticks > 0)
  {
    hide Deadlines;
    var k, ds := Position(q, ticks), Deadlines(q, now);
    InsertSplices(q, tid, ticks, now);
    assert ds == ds[..k] + ds[k..];
  }

  /** The deadlines that are at tick `t`, or after it. */
  function DueAt(ds: seq<Due>, t: nat): seq<nat> {
    if ds == [] then [] else (if ds[0].at == t then [ds[0].tid] else []) + DueAt(ds[1..], t)
  }

  function DueAfter(ds: seq<Due>, t: nat): seq<Due> {
    if ds == [] then [] else (if ds[0].at > t then [ds[0]] else []) + DueAfter(ds[1..], t)
  }

  lemma {:induction false} DueSplit(ds: seq<Due>, k: nat, t: nat)
    requires k <= |ds| && (forall i :: 0 <= i < k ==> ds[i].at == t) && (forall i :: k <= i < |ds| ==> ds[i].at > t)
    ensures DueAt(ds, t) == seq(k, i requires 0 <= i < k => ds[i].tid) && DueAfter(ds, t) == ds[k..]
  {
    if ds == [] {
    } else if k == 0 {
      DueSplit(ds[1..], 0, t);
    } else {
      DueSplit(ds[1..], k - 1, t);
      var s := seq(k - 1, i requires 0 <= i < k - 1 => ds[1..][i].tid);
      assert [ds[0].tid] + s == seq(k, i requires 0 <= i < k => ds[i].tid);
    }
  }

  /** A counted tick wakes exactly the sleepers due at it and leaves the other deadlines alone,
      provided nobody at the head was due already. */
  lemma TickWakesTheDue(q: Queue, now: nat)
    requires HeadPositive(q)
    ensures Woken(q) == DueAt(Deadlines(q, now), now + 1)
    ensures Deadlines(Ticked(q), now + 1) == DueAfter(Deadlines(q, now), now + 1)
    ensures HeadPositive(Ticked(q))
  {
    var d := Counted(q);
    var k := Expired(d);
    CountedDeadlines(q, now);
    ExpiredDeadlines(d, now + 1);
    var ds := Deadlines(q, now);
    DueSplit(ds, k, now + 1);
  }

  lemma CountedDeadlines(q: Queue, now: nat)
    requires HeadPositive(q)
    ensures Deadlines(Counted(q), now + 1) == Deadlines(q, now)
  {
    if q != [] {
      assert Counted(q)[1..] == q[1..];
    }
  }

  /** Expired sleepers are due now, all others later. */
  lemma {:induction false} ExpiredDeadlines(d: Queue, now: nat)
    ensures var k, ds := Expired(d), Deadlines(d, now);
            && |ds| == |d| && (forall i :: 0 <= i < k ==> ds[i] == Due(d[i].tid, now))
            && (forall i :: k <= i < |ds| ==> ds[i].at > now)
            && Deadlines(d[k..], now) == ds[k..]
  {
    DeadlinesLength(d, now);
    if d == [] {
    } else if d[0].left == 0 {
      ExpiredDeadlines(d[1..], now);
      assert d[1..][Expired(d[1..])..] == d[Expired(d)..];
    } else {
      assert d[0..] == d;
      DeadlinesLength(d[1..], now + d[0].left);
    }
  }

  /** A sleep of zero ticks puts a zero at the head, and counting it down wraps: nobody wakes and
      every deadline moves out by 2^64 ticks. */
  lemma ZeroHeadWraps(q: Queue, now: nat)
    requires q != [] && q[0].left == 0
    ensures Woken(q) == [] && |Ticked(q)| == |q|
    ensures forall i :: 0 <= i < |q| ==>
              |Deadlines(Ticked(q), now + 1)| == |Deadlines(q, now)| == |q| &&
              Deadlines(Ticked(q), now + 1)[i].at == Deadlines(q, now)[i].at + TWO64
  {
    hide Deadlines;
    var d := Counted(q);
    assert d[1..] == q[1..] && Expired(d) == 0;
    assert Ticked(q) == d;
    DeadlinesLength(q, now);
    DeadlinesLength(d, now + 1);
    DeadlinesShift(q[1..], now, now + TWO64);
    DeadlinesFirst(q, now);
    DeadlinesFirst(d, now + 1);
  }

  lemma DeadlinesFirst(q: Queue, now: nat)
    requires q != []
    ensures Deadlines(q, now) == [Due(q[0].tid, now + q[0].left)] + Deadlines(q[1..], now + q[0].left)
  {
  }

  lemma {:induction false} DeadlinesShift(q: Queue, a: nat, b: nat)
    ensures |Deadlines(q, a)| == |Deadlines(q, b)| == |q|
    ensures forall i :: 0 <= i < |q| ==> Deadlines(q, b)[i].at - b == Deadlines(q, a)[i].at - a
  {
    if q != [] {
      DeadlinesShift(q[1..], a + q[0].left, b + q[0].left);
    }
  }

  /** advance_time once it holds the lock: the ticks missed and the current one, one at a time. */
  function Advanced(q: Queue, n: nat): Queue {
    if n == 0 then q else Ticked(Advanced(q, n - 1))
  }

  function AdvanceWakes(q: Queue, n: nat): seq<nat> {
    if n == 0 then [] else AdvanceWakes(q, n - 1) + Woken(Advanced(q, n - 1))
  }

  ghost predicate DueBy(ds: seq<Due>, t: nat, tid: nat) {
    exists d :: d in ds && d.tid == tid && d.at <= t
  }

  /** After `n` counted ticks the sleepers left are those due later. */
  lemma {:induction false} AdvanceKeepsLater(q: Queue, now: nat, n: nat)
    requires HeadPositive(q)
    ensures HeadPositive(Advanced(q, n))
    ensures Deadlines(Advanced(q, n), now + n) == DueAfter(Deadlines(q, now), now + n)
  {
    hide Deadlines, DueAfter, Ticked, Woken;
    if n == 0 {
      AllLater(q, now);
    } else {
      AdvanceKeepsLater(q, now, n - 1);
      TickWakesTheDue(Advanced(q, n - 1), now + n - 1);
      DueAfterTwice(Deadlines(q, now), now + n - 1, now + n);
    }
  }

  /** A thread is woken within `n` counted ticks exactly if it is due by then. */
  lemma {:induction false} AdvanceWakesAllDue(q: Queue, now: nat, n: nat, tid: nat)
    requires HeadPositive(q)
    ensures tid in AdvanceWakes(q, n) <==> DueBy(Deadlines(q, now), now + n, tid)
  {
    hide Deadlines, DueAfter, Ticked, Woken;
    var ds := Deadlines(q, now);
    AllLater(q, now);
    if n > 0 {
      AdvanceWakesAllDue(q, now, n - 1, tid);
      AdvanceKeepsLater(q, now, n - 1);
      TickWakesTheDue(Advanced(q, n - 1), now + n - 1);
      DueAtMembers(DueAfter(ds, now + n - 1), now + n, tid);
      DueAfterMembers(ds, now + n - 1);
      assert DueBy(ds, now + n, tid) <==> DueBy(ds, now + n - 1, tid) || Due(tid, now + n) in ds;
    }
  }

  lemma {:induction false} DueAfterTwice(ds: seq<Due>, t: nat, t': nat)
    requires t <= t'
    ensures DueAfter(DueAfter(ds, t), t') == DueAfter(ds, t')
  {
    if ds != [] {
      DueAfterTwice(ds[1..], t, t');
      var rest, kept := DueAfter(ds[1..], t), DueAfter(ds, t);
      if ds[0].at > t {
        assert kept[0] == ds[0] && kept[1..] == rest;
      } else {
        assert kept == rest;
      }
    }
  }

  lemma {:induction false} DueAfterMembers(ds: seq<Due>, t: nat)
    ensures forall d :: d in DueAfter(ds, t) <==> d in ds && d.at > t
  {
    if ds != [] {
      DueAfterMembers(ds[1..], t);
      assert ds == [ds[0]] + ds[1..];
    }
  }

  lemma {:induction false} DueAtMembers(ds: seq<Due>, t: nat, tid: nat)
    ensures tid in DueAt(ds, t) <==> Due(tid, t) in ds
  {
    if ds != [] {
      DueAtMembers(ds[1..], t, tid);
      assert ds == [ds[0]] + ds[1..];
    }
  }

  /** With a positive head every deadline lies ahead. */
  lemma AllLater(q: Queue, now: nat)
    requires HeadPositive(q)
    ensures DueAfter(Deadlines(q, now), now) == Deadlines(q, now)
    ensures forall d :: d in Deadlines(q, now) ==> d.at > now
  {
    DeadlinesLength(q, now);
    if q != [] {
      DeadlinesLength(q[1..], now + q[0].left);
    }
    KeepAll(Deadlines(q, now), now);
  }

  lemma {:induction false} KeepAll(ds: seq<Due>, t: nat)
    requires forall i :: 0 <= i < |ds| ==> ds[i].at > t
    ensures DueAfter(ds, t) == ds
  {
    if ds != [] {
      KeepAll(ds[1..], t);
    }
  }

  /** The queue with its tick counts: ticks delivered by the timer, ticks counted down so far and
      ticks missed because the scheduler lock was busy. */
  datatype Clock = Clock(q: Queue, counted: nat, lagged: nat, delivered: nat)

  datatype ClockStep = GoToSleep(tid: nat, ms: nat) | BusyTick | FreeTick

  function Stepped(c: Clock, s: ClockStep): Clock {
    match s
    case GoToSleep(tid, ms) => c.(q := Inserted(c.q, tid, ms))
    case BusyTick => c.(lagged := c.lagged + 1, delivered := c.delivered + 1)
    case FreeTick =>
      Clock(Advanced(c.q, c.lagged + 1), c.counted + c.lagged + 1, 0, c.delivered + 1)
  }

  /** The specification: who sleeps, and until which delivered tick. */
  type Alarms = map<nat, nat>

  function AlarmStep(a: Alarms, delivered: nat, lagged: nat, s: ClockStep): Alarms
    requires lagged <= delivered
  {
    match s
    case GoToSleep(tid, ms) => a[tid := delivered - lagged + ms]
    case BusyTick => a
    case FreeTick => map t | t in a && a[t] > delivered + 1 :: a[t]
  }

  /** The queue stands for the alarms. */
  ghost predicate Represents(c: Clock, a: Alarms) {
    && HeadPositive(c.q) && c.delivered == c.counted + c.lagged
    && (forall d :: d in Deadlines(c.q, c.counted) ==> d.tid in a && a[d.tid] == d.at)
    && (forall t :: t in a ==> Due(t, a[t]) in Deadlines(c.q, c.counted))
    && OneEach(Deadlines(c.q, c.counted))
  }

  /** No thread is listed twice. */
  ghost predicate OneEach(ds: seq<Due>) {
    forall i, j :: 0 <= i < j < |ds| ==> ds[i].tid != ds[j].tid
  }

  lemma {:induction false} DueAfterOneEach(ds: seq<Due>, t: nat)
    requires OneEach(ds)
    ensures OneEach(DueAfter(ds, t))
  {
    if ds != [] {
      DueAfterOneEach(ds[1..], t);
      DueAfterMembers(ds[1..], t);
      var rest := DueAfter(ds[1..], t);
      forall j | 0 <= j < |rest| ensures rest[j].tid != ds[0].tid {
        assert rest[j] in ds[1..];
      }
    }
  }

  /** A step the kernel can take: a thread goes to sleep for at least one tick and only while it is
      awake. */
  predicate Allowed(a: Alarms, s: ClockStep) {
    s.GoToSleep? ==> s.ms >= 1 && s.tid !in a
  }

  /** Every step of the queue is the step of the alarms, and a tick that gets the lock wakes exactly
      the threads whose alarm has come. */
  lemma StepRefines(c: Clock, a: Alarms, s: ClockStep)
    requires Represents(c, a) && Allowed(a, s)
    ensures Represents(Stepped(c, s), AlarmStep(a, c.delivered, c.lagged, s))
    ensures s.FreeTick? ==> forall t :: t in AdvanceWakes(c.q, c.lagged + 1) <==> t in a && a[t] <= c.delivered + 1
  {
    match s
    case BusyTick =>
    case GoToSleep(tid, ms) => SleepRefines(c, a, tid, ms);
    case FreeTick => TickRefines(c, a);
  }

  lemma SleepRefines(c: Clock, a: Alarms, tid: nat, ms: nat)
    requires Represents(c, a) && Allowed(a, GoToSleep(tid, ms))
    ensures Represents(c.(q := Inserted(c.q, tid, ms)), a[tid := c.delivered - c.lagged + ms])
  {
    hide Deadlines, Inserted, Position, OneEach, HeadPositive;
    var ds, k, due := Deadlines(c.q, c.counted), Position(c.q, ms), Due(tid, c.counted + ms);
    InsertSplices(c.q, tid, ms, c.counted);
    InsertAddsDeadline(c.q, tid, ms, c.counted);
    assert forall i :: 0 <= i < |ds| ==> ds[i] in ds;
    SpliceOneEach(ds, k, due);
    SpliceMembers(ds, k, due);
  }

  lemma SpliceMembers(ds: seq<Due>, k: nat, due: Due)
    requires k <= |ds|
    ensures forall d :: d in ds[..k] + [due] + ds[k..] <==> d in ds || d == due
  {
    var ds' := ds[..k] + [due] + ds[k..];
    forall d | d in ds ensures d in ds' {
      var i :| 0 <= i < |ds| && ds[i] == d;
      assert ds'[if i < k then i else i + 1] == d;
    }
    assert ds'[k] == due;
    forall d | d in ds' ensures d in ds || d == due {
      var i :| 0 <= i < |ds'| && ds'[i] == d;
      assert ds'[i] == if i < k then ds[i] else if i == k then due else ds[i - 1];
    }
  }

  /** Splicing in a thread that is not listed keeps each thread listed once. */
  lemma SpliceOneEach(ds: seq<Due>, k: nat, due: Due)
    requires OneEach(ds) && k <= |ds| && forall i :: 0 <= i < |ds| ==> ds[i].tid != due.tid
    ensures OneEach(ds[..k] + [due] + ds[k..])
  {
    var ds' := ds[..k] + [due] + ds[k..];
    forall i, j | 0 <= i < j < |ds'| ensures ds'[i].tid != ds'[j].tid {
      assert ds'[i] == if i < k then ds[i] else if i == k then due else ds[i - 1];
      assert ds'[j] == if j < k then ds[j] else if j == k then due else ds[j - 1];
    }
  }

  lemma TickRefines(c: Clock, a: Alarms)
    requires Represents(c, a)
    ensures Represents(Stepped(c, FreeTick), AlarmStep(a, c.delivered, c.lagged, FreeTick))
    ensures forall t :: t in AdvanceWakes(c.q, c.lagged + 1) <==> t in a && a[t] <= c.delivered + 1
  {
    hide Deadlines, Advanced, AdvanceWakes;
    var ds, n := Deadlines(c.q, c.counted), c.lagged + 1;
    AdvanceKeepsLater(c.q, c.counted, n);
    DueAfterMembers(ds, c.counted + n);
    DueAfterOneEach(ds, c.counted + n);
    forall t ensures t in AdvanceWakes(c.q, n) <==> t in a && a[t] <= c.delivered + 1 {
      AdvanceWakesAllDue(c.q, c.counted, n, t);
      if t in a {
        assert Due(t, a[t]) in ds;
      }
    }
  }

  /** A run of the queue. */
  function RunClock(c: Clock, steps: seq<ClockStep>): Clock
    decreases |steps|
  {
    if steps == [] then c else RunClock(Stepped(c, steps[0]), steps[1..])
  }

  /** The alarms beside it, with their own tick counts. */
  datatype AlarmClock = AlarmClock(alarms: Alarms, delivered: nat, lagged: nat)

  function AlarmTick(a: AlarmClock, s: ClockStep): AlarmClock
    requires a.lagged <= a.delivered
  {
    AlarmClock(AlarmStep(a.alarms, a.delivered, a.lagged, s),
               if s.GoToSleep? then a.delivered else a.delivered + 1,
               if s.GoToSleep? then a.lagged else if s.BusyTick? then a.lagged + 1 else 0)
  }

  function RunAlarms(a: AlarmClock, steps: seq<ClockStep>): (r: AlarmClock)
    requires a.lagged <= a.delivered
    decreases |steps|
  {
    if steps == [] then a else RunAlarms(AlarmTick(a, steps[0]), steps[1..])
  }

  ghost predicate AllAllowed(a: AlarmClock, steps: seq<ClockStep>)
    requires a.lagged <= a.delivered
    decreases |steps|
  {
    steps == [] || (Allowed(a.alarms, steps[0]) && AllAllowed(AlarmTick(a, steps[0]), steps[1..]))
  }

  ghost predicate ClockRepresents(c: Clock, a: AlarmClock) {
    Represents(c, a.alarms) && c.delivered == a.delivered && c.lagged == a.lagged
  }

  /** Over every run of sleeps and timer ticks the delta list stands for the alarms: a thread that
      went to sleep for `ms` when `delivered - lagged` ticks had been counted is due at their sum,
      and no tick is lost. */
  lemma {:induction false} RunRefines(c: Clock, a: AlarmClock, steps: seq<ClockStep>)
    requires ClockRepresents(c, a) && a.lagged <= a.delivered && AllAllowed(a, steps)
    ensures ClockRepresents(RunClock(c, steps), RunAlarms(a, steps))
    decreases |steps|
  {
    hide Represents, Allowed, AlarmStep, Inserted, Advanced;
    if steps != [] {
      StepRefines(c, a.alarms, steps[0]);
      RunRefines(Stepped(c, steps[0]), AlarmTick(a, steps[0]), steps[1..]);
    }
  }
}
