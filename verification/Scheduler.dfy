/**
  schedule, do_timer and sys_nice of kernel/sched.c: time slices as counters, recharged all at once.
 */
module Scheduler {
  import opened Common

  const SIGKILL: nat := 9
  const SIGALRM: nat := 14
  const SIGSTOP: nat := 19

  datatype State = Running | Interruptible | Uninterruptible | Zombie | Stopped

  datatype Task = Task(state: State, counter: int, priority: int, alarm: int, signal: set<nat>, blocked: set<nat>)

  predicate Runs(tasks: seq<Option<Task>>, i: nat) {
    0 < i < |tasks| && tasks[i].Some? && tasks[i].value.state == Running
  }

  /** Priorities are positive and counters are not negative. */
  predicate Sane(t: Option<Task>) {
    t.Some? ==> t.value.priority >= 1 && t.value.counter >= 0
  }

  ghost predicate AllSane(tasks: seq<Option<Task>>) {
    forall i :: 0 <= i < |tasks| ==> Sane(tasks[i])
  }

  /** The best of the tasks from `from` on: the greatest counter, the last slot among equals. */
  ghost predicate Best(tasks: seq<Option<Task>>, from: nat, next: nat, c: int) {
    if c == -1 then next == 0 && forall i: nat :: i >= from ==> !Runs(tasks, i)
    else
      && from <= next && Runs(tasks, next) && tasks[next].value.counter == c
      && (forall i: nat :: i >= from && Runs(tasks, i) ==> tasks[i].value.counter <= c)
      && (forall i: nat :: i > next && Runs(tasks, i) ==> tasks[i].value.counter < c)
  }

  function Refill(t: Option<Task>): Option<Task> {
    if t.None? then None else Some(t.value.(counter := t.value.counter / 2 + t.value.priority))
  }

  /** Every task but task 0 is recharged, runnable or not. */
  ghost predicate Recharged(tasks: seq<Option<Task>>, tasks': seq<Option<Task>>) {
    |tasks'| == |tasks| && forall i :: 0 <= i < |tasks| ==> tasks'[i] == if i == 0 then tasks[i] else Refill(tasks[i])
  }

  lemma RechargeSane(tasks: seq<Option<Task>>, tasks': seq<Option<Task>>)
    requires AllSane(tasks) && Recharged(tasks, tasks')
    ensures AllSane(tasks') && forall i: nat :: Runs(tasks', i) ==> Runs(tasks, i) && tasks'[i].value.counter > 0
    ensures forall i: nat :: Runs(tasks, i) ==> Runs(tasks', i)
  {
    forall i | 0 <= i < |tasks'|
      ensures Sane(tasks'[i])
    {
      assert Sane(tasks[i]);
    }
    forall i: nat
      ensures Runs(tasks', i) <==> Runs(tasks, i)
      ensures Runs(tasks', i) ==> tasks'[i].value.counter > 0
    {
      assert Runs(tasks', i) ==> Sane(tasks[i]);
    }
  }

  /** A signal that is not blocked, or that cannot be. */
  predicate Deliverable(t: Task) {
    t.signal - (t.blocked - {SIGKILL, SIGSTOP}) != {}
  }

  /** The first loop of schedule on one task: an alarm that has gone off, then a signal that wakes. */
  function Signalled(t: Task, jiffies: int): Task {
    var t1 := if t.alarm != 0 && t.alarm < jiffies then t.(signal := t.signal + {SIGALRM}, alarm := 0) else t;
    if Deliverable(t1) && t1.state == Interruptible then t1.(state := Running) else t1
  }

  /** The tasks after the first loop of schedule, which leaves task 0 alone. */
  function AfterSignals(tasks: seq<Option<Task>>, jiffies: int): seq<Option<Task>> {
    seq(|tasks|, i requires 0 <= i < |tasks| =>
      if i > 0 && tasks[i].Some? then Some(Signalled(tasks[i].value, jiffies)) else tasks[i])
  }

  /** No runnable task has time left. */
  ghost predicate Spent(tasks: seq<Option<Task>>) {
    (exists i: nat :: Runs(tasks, i)) && forall i: nat :: Runs(tasks, i) ==> tasks[i].value.counter == 0
  }

  /** What the rest of schedule makes of the tasks: a recharge exactly when it is due. */
  ghost predicate Follows(tasks: seq<Option<Task>>, tasks': seq<Option<Task>>) {
    if Spent(tasks) then Recharged(tasks, tasks') else tasks' == tasks
  }

  /** The current task is the runnable one with the most time left, or task 0 when none is runnable. */
  ghost predicate Elected(tasks: seq<Option<Task>>, current: nat) {
    if current == 0 then forall i: nat :: !Runs(tasks, i)
    else
      && Runs(tasks, current) && tasks[current].value.counter > 0
      && Best(tasks, 1, current, tasks[current].value.counter)
  }

  // ---------------------------------------------------------------- the steps

  datatype Snap = Snap(tasks: seq<Option<Task>>, current: nat)

  ghost predicate Good(s: Snap) {
    s.current < |s.tasks| && s.tasks[0].Some? && s.tasks[s.current].Some? && AllSane(s.tasks)
  }

  datatype Step =
    | Tick(user: bool, jiffies: int) | Yield(jiffies: int) | Renice(increment: int)
    | Clone(child: nat) | Change(i: nat, state: State) | Reap(i: nat)

  /** One tick less. */
  function Charged(t: Task): Task { t.(counter := if t.counter > 0 then t.counter - 1 else 0) }

  /** sys_nice: the priority changes only if it stays positive. */
  function Niced(t: Task, increment: int): Task {
    t.(priority := if t.priority > increment then t.priority - increment else t.priority)
  }

  /** The scheduling half of copy_process: the child starts with a full slice and does not run yet. */
  function Cloned(t: Task): Task { t.(state := Uninterruptible, counter := t.priority, signal := {}, alarm := 0) }

  /** The tasks that schedule works on; a tick has been charged before it is called from do_timer. */
  function Before(s: Snap, a: Step): seq<Option<Task>>
    requires s.current < |s.tasks| && s.tasks[s.current].Some?
  {
    if a.Tick? then s.tasks[s.current := Some(Charged(s.tasks[s.current].value))] else s.tasks
  }

  /** Whether a step calls schedule: always by choice, on a tick when the time is up in user mode. */
  predicate Schedules(s: Snap, a: Step)
    requires s.current < |s.tasks| && s.tasks[s.current].Some?
  {
    a.Yield? || (a.Tick? && a.user && s.tasks[s.current].value.counter <= 1)
  }

  /** Whether a step recharges the counters. */
  ghost predicate Recharges(s: Snap, a: Step) {
    && s.current < |s.tasks| && s.tasks[s.current].Some?
    && Schedules(s, a) && Spent(AfterSignals(Before(s, a), a.jiffies))
  }

  ghost predicate Next(s: Snap, a: Step, s': Snap)
    requires Good(s)
  {
    if Schedules(s, a) then Follows(AfterSignals(Before(s, a), a.jiffies), s'.tasks) && Elected(s'.tasks, s'.current)
    else
      match a
      case Renice(k) => s' == s.(tasks := s.tasks[s.current := Some(Niced(s.tasks[s.current].value, k))])
      case Clone(c) =>
        if c < |s.tasks| && s.tasks[c].None? then
          s' == s.(tasks := s.tasks[c := Some(Cloned(s.tasks[s.current].value))])
        else s' == s
      case Change(i, state) =>
        if i < |s.tasks| && s.tasks[i].Some? then
          s' == s.(tasks := s.tasks[i := Some(s.tasks[i].value.(state := state))])
        else s' == s
      case Reap(i) => if 0 < i < |s.tasks| && i != s.current then s' == s.(tasks := s.tasks[i := None]) else s' == s
      case _ => s' == s.(tasks := Before(s, a))
  }

  lemma StaysGood(s: Snap, a: Step, s': Snap)
    requires Good(s) && Next(s, a, s')
    ensures Good(s') && |s'.tasks| == |s.tasks|
  {
    assert Sane(s.tasks[s.current]);
    if Schedules(s, a) {
      var before := Before(s, a);
      var mid := AfterSignals(before, a.jiffies);
      forall i | 0 <= i < |mid|
        ensures Sane(mid[i])
      {
        assert Sane(s.tasks[i]);
      }
      if Spent(mid) { RechargeSane(mid, s'.tasks); }
    }
  }

  // ---------------------------------------------------------------- bounds on the counters

  /** Priorities are at most `top`. */
  ghost predicate PrioritiesTo(tasks: seq<Option<Task>>, top: int) {
    forall i :: 0 <= i < |tasks| && tasks[i].Some? ==> tasks[i].value.priority <= top
  }

  ghost predicate CountersTo(tasks: seq<Option<Task>>, top: int) {
    forall i :: 0 <= i < |tasks| && tasks[i].Some? ==> tasks[i].value.counter <= top
  }

  /** While priorities are at most P, counters stay at most 2P - 1. */
  lemma CountersBounded(s: Snap, a: Step, s': Snap, top: int)
    requires Good(s) && Next(s, a, s') && PrioritiesTo(s.tasks, top) && CountersTo(s.tasks, 2 * top - 1)
    ensures CountersTo(s'.tasks, 2 * top - 1)
  {
    hide Best, Elected, Deliverable, Spent;
    assert Sane(s.tasks[s.current]);
    if Schedules(s, a) {
      var mid := AfterSignals(Before(s, a), a.jiffies);
      assert PrioritiesTo(mid, top) && CountersTo(mid, 2 * top - 1);
    }
  }

  // ---------------------------------------------------------------- runs

  ghost predicate IsRun(trace: seq<Snap>, steps: seq<Step>) {
    |trace| == |steps| + 1 && forall i: nat :: i < |steps| ==> Moves(trace[i], steps[i], trace[i + 1])
  }

  ghost predicate Moves(s: Snap, a: Step, s': Snap) {
    Good(s) ==> Next(s, a, s')
  }

  lemma {:induction false} RunGood(trace: seq<Snap>, steps: seq<Step>, n: nat)
    requires IsRun(trace, steps) && Good(trace[0]) && n < |trace|
    ensures Good(trace[n]) && |trace[n].tasks| == |trace[0].tasks|
  {
    hide Good, Next;
    if n > 0 {
      RunGood(trace, steps, n - 1);
      assert Moves(trace[n - 1], steps[n - 1], trace[n]);
      StaysGood(trace[n - 1], steps[n - 1], trace[n]);
    }
  }

  /** Over every run: with priorities at most P throughout, counters are at most 2P - 1 in every state. */
  lemma {:induction false} RunBounded(trace: seq<Snap>, steps: seq<Step>, top: int, n: nat)
    requires IsRun(trace, steps) && Good(trace[0]) && n < |trace| && CountersTo(trace[0].tasks, 2 * top - 1)
    requires forall k :: 0 <= k < |trace| ==> PrioritiesTo(trace[k].tasks, top)
    ensures CountersTo(trace[n].tasks, 2 * top - 1)
  {
    hide Good, Next, PrioritiesTo, CountersTo;
    if n > 0 {
      RunBounded(trace, steps, top, n - 1);
      RunGood(trace, steps, n - 1);
      assert Moves(trace[n - 1], steps[n - 1], trace[n]);
      CountersBounded(trace[n - 1], steps[n - 1], trace[n], top);
    }
  }

  /** The ticks charged to slot `i` by steps `a` to `n`. */
  function TicksOf(trace: seq<Snap>, steps: seq<Step>, i: nat, a: nat, n: nat): nat
    requires a <= n <= |steps| <= |trace|
  {
    if n == a then 0
    else TicksOf(trace, steps, i, a, n - 1) + if steps[n - 1].Tick? && trace[n - 1].current == i then 1 else 0
  }

  /** The counter of slot `i`. */
  function CounterOf(s: Snap, i: nat): int {
    if i < |s.tasks| && s.tasks[i].Some? then s.tasks[i].value.counter else 0
  }

  /** Slot `i` holds a task that this step neither reaps nor creates. */
  predicate Stays(s: Snap, a: Step, i: nat) {
    i < |s.tasks| && s.tasks[i].Some? && a != Reap(i)
  }

  /** What is left of `c` ticks after `n` of them. */
  function Rest(c: int, n: nat): int {
    if c > n then c - n else 0
  }

  /** Without a recharge a counter goes down by the ticks charged and by nothing else, and stops at 0. */
  lemma CounterFalls(s: Snap, a: Step, s': Snap, i: nat)
    requires Good(s) && Next(s, a, s') && Stays(s, a, i) && !Recharges(s, a)
    ensures i < |s'.tasks| && s'.tasks[i].Some?
    ensures CounterOf(s', i) == Rest(CounterOf(s, i), if a.Tick? && s.current == i then 1 else 0)
  {
    assert Sane(s.tasks[i]);
  }

  lemma {:induction false} EpochFalls(trace: seq<Snap>, steps: seq<Step>, i: nat, a: nat, n: nat)
    requires IsRun(trace, steps) && Good(trace[0]) && a <= n <= |steps| && i < |trace[a].tasks|
    requires trace[a].tasks[i].Some?
    requires forall k :: a <= k < n ==> steps[k] != Reap(i)
    requires forall k :: a <= k < n ==> !Recharges(trace[k], steps[k])
    ensures i < |trace[n].tasks| && trace[n].tasks[i].Some?
    ensures CounterOf(trace[n], i) == Rest(CounterOf(trace[a], i), TicksOf(trace, steps, i, a, n))
  {
    hide Good, Next, Recharges, CounterOf;
    if a == n {
      RunGood(trace, steps, a);
      SaneCounter(trace[a], i);
    } else {
      EpochFalls(trace, steps, i, a, n - 1);
      RunGood(trace, steps, n - 1);
      assert Moves(trace[n - 1], steps[n - 1], trace[n]);
      CounterFalls(trace[n - 1], steps[n - 1], trace[n], i);
    }
  }

  /**
    No runnable task with time left is passed over by a recharge: from any state `a` on, up to and with
    the next recharge at `n`, a task that is runnable then has been charged every tick it had at `a`.
   */
  lemma RechargeFair(trace: seq<Snap>, steps: seq<Step>, i: nat, a: nat, n: nat)
    requires IsRun(trace, steps) && Good(trace[0]) && a <= n < |steps| && i < |trace[a].tasks|
    requires trace[a].tasks[i].Some?
    requires forall k :: a <= k <= n ==> steps[k] != Reap(i)
    requires forall k :: a <= k < n ==> !Recharges(trace[k], steps[k])
    requires Recharges(trace[n], steps[n]) && Runs(AfterSignals(Before(trace[n], steps[n]), steps[n].jiffies), i)
    ensures TicksOf(trace, steps, i, a, n + 1) >= CounterOf(trace[a], i)
  {
    hide Good, Next;
    EpochFalls(trace, steps, i, a, n);
    RunGood(trace, steps, n);
    SpentCounter(trace[n], steps[n], i);
  }

  lemma SaneCounter(s: Snap, i: nat)
    requires Good(s)
    ensures CounterOf(s, i) >= 0
  {
    if i < |s.tasks| { assert Sane(s.tasks[i]); }
  }

  lemma SpentCounter(s: Snap, a: Step, i: nat)
    requires Good(s) && Recharges(s, a) && Runs(AfterSignals(Before(s, a), a.jiffies), i)
    ensures CounterOf(s, i) <= if a.Tick? && s.current == i then 1 else 0
  {
    var mid := AfterSignals(Before(s, a), a.jiffies);
    assert mid[i].value.counter == 0;
  }

  // ---------------------------------------------------------------- the reward for sleeping

  function Pow2(k: nat): nat {
    if k == 0 then 1 else 2 * Pow2(k - 1)
  }

  lemma {:induction false} Pow2Positive(k: nat)
    ensures Pow2(k) >= 1
  {
    if k > 0 { Pow2Positive(k - 1); }
  }

  /** `e` / 2^k, rounded up. */
  function Halved(e: int, k: nat): int {
    Pow2Positive(k);
    (e + Pow2(k) - 1) / Pow2(k)
  }

  lemma HalvedNext(e: int, k: nat)
    ensures Halved(e, 0) == e && Halved(e, k + 1) == (Halved(e, k) + 1) / 2
  {
    Pow2Positive(k);
    var p, q := Pow2(k), Halved(e, k);
    var r := (q + 1) / 2;
    assert Pow2(k + 1) == 2 * p;
    DivIs(e + p - 1, p, q);
    RoundUp(e, p, q, r);
    DivIs(e + 2 * p - 1, 2 * p, r);
  }

  lemma RoundUp(e: int, p: int, q: int, r: int)
    requires p >= 1 && p * q <= e + p - 1 < p * q + p && 2 * r <= q + 1 < 2 * r + 2
    ensures 2 * p * r <= e + 2 * p - 1 < 2 * p * r + 2 * p
  {
    if q == 2 * r - 1 {
      assert p * q == 2 * p * r - p;
    } else {
      assert q == 2 * r && p * q == 2 * p * r;
    }
  }

  lemma DivIs(x: int, d: int, q: int)
    requires d >= 1
    ensures x / d == q <==> d * q <= x < d * q + d
  {
    if d * q <= x < d * q + d { Quotient(x, d, q, x - d * q); }
    if x / d == q { assert x == d * q + x % d; }
  }

  /** Slot `i` holds a task that this step neither reaps nor charges nor renices. */
  predicate Rests(s: Snap, a: Step, i: nat) {
    Stays(s, a, i) && i > 0 && !(s.current == i && (a.Tick? || a.Renice?))
  }

  /** Of the 2 * priority ticks it could have, a resting task lacks half as many after a recharge. */
  lemma RestStep(s: Snap, a: Step, s': Snap, i: nat)
    requires Good(s) && Next(s, a, s') && Rests(s, a, i)
    ensures i < |s'.tasks| && s'.tasks[i].Some? && s'.tasks[i].value.priority == s.tasks[i].value.priority
    ensures var top := 2 * s.tasks[i].value.priority;
      top - CounterOf(s', i) == if Recharges(s, a) then (top - CounterOf(s, i) + 1) / 2 else top - CounterOf(s, i)
  {
  }

  /** The recharges among steps `a` to `n`. */
  ghost function RechargesIn(trace: seq<Snap>, steps: seq<Step>, a: nat, n: nat): nat
    requires a <= n <= |steps| <= |trace|
  {
    if n == a then 0 else RechargesIn(trace, steps, a, n - 1) + if Recharges(trace[n - 1], steps[n - 1]) then 1 else 0
  }

  /** The counter that `c` becomes in `k` recharges of a task that sleeps. */
  function Saved(priority: int, c: int, k: nat): int {
    2 * priority - Halved(2 * priority - c, k)
  }

  /**
    The reward for sleeping: over every run, whatever other tasks do, a task that is not charged has
    after k recharges all of twice its priority but 1/2^k, rounded up, of what it lacked before.
   */
  lemma {:induction false} SleepPays(trace: seq<Snap>, steps: seq<Step>, i: nat, a: nat, n: nat)
    requires IsRun(trace, steps) && Good(trace[0]) && a <= n <= |steps| && i < |trace[a].tasks|
    requires trace[a].tasks[i].Some? && forall k :: a <= k < n ==> Rests(trace[k], steps[k], i)
    ensures i < |trace[n].tasks| && trace[n].tasks[i].Some?
    ensures trace[n].tasks[i].value.priority == trace[a].tasks[i].value.priority
    ensures CounterOf(trace[n], i) ==
      Saved(trace[a].tasks[i].value.priority, CounterOf(trace[a], i), RechargesIn(trace, steps, a, n))
  {
    hide Good, Next, Recharges, CounterOf, Halved;
    HalvedNext(2 * trace[a].tasks[i].value.priority - CounterOf(trace[a], i), 0);
    if a < n {
      SleepPays(trace, steps, i, a, n - 1);
      RunGood(trace, steps, n - 1);
      assert Moves(trace[n - 1], steps[n - 1], trace[n]);
      RestStep(trace[n - 1], steps[n - 1], trace[n], i);
      HalvedNext(2 * trace[a].tasks[i].value.priority - CounterOf(trace[a], i),
                 RechargesIn(trace, steps, a, n - 1));
    }
  }

  /** It comes to 2P - 1, in the end and no further, and gets there as soon as 2^k is what it lacked. */
  lemma SavedTop(priority: int, c: int, k: nat)
    requires 0 <= c < 2 * priority
    ensures c <= Saved(priority, c, k) <= 2 * priority - 1
    ensures Saved(priority, c, k) == 2 * priority - 1 <==> 2 * priority - c <= Pow2(k)
    ensures Saved(priority, 2 * priority - 1, k) == 2 * priority - 1
    ensures k > 0 ==> Saved(priority, c, k) >= priority
  {
    Pow2Positive(k);
    var p, e := Pow2(k), 2 * priority - c;
    DivIs(e + p - 1, p, Halved(e, k));
    DivIs(e + p - 1, p, 1);
    DivIs(1 + p - 1, p, 1);
    HalvedLess(e, k);
    if k > 0 { HalvedHalf(e, priority, k); }
  }

  lemma {:induction false} HalvedLess(e: int, k: nat)
    requires e >= 1
    ensures 1 <= Halved(e, k) <= e
  {
    hide Halved;
    HalvedNext(e, 0);
    if k > 0 {
      HalvedLess(e, k - 1);
      HalvedNext(e, k - 1);
    }
  }

  lemma HalvedHalf(e: int, half: int, k: nat)
    requires 1 <= e <= 2 * half && k > 0
    ensures Halved(e, k) <= half
  {
    hide Halved;
    HalvedNext(e, k - 1);
    HalvedLess(e, k - 1);
  }

  /** Of two tasks of one priority the one with at least two ticks more before a recharge has more after it. */
  lemma RewardOrder(tasks: seq<Option<Task>>, tasks': seq<Option<Task>>, i: nat, j: nat)
    requires Recharged(tasks, tasks') && 0 < i < |tasks| && 0 < j < |tasks| && tasks[i].Some? && tasks[j].Some?
    requires tasks[i].value.priority == tasks[j].value.priority
    requires tasks[i].value.counter >= tasks[j].value.counter + 2
    ensures tasks'[i].Some? && tasks'[j].Some? && tasks'[i].value.counter > tasks'[j].value.counter
  {
  }

  // ---------------------------------------------------------------- preemption, signals, new tasks

  /** After a tick in user mode the current task has time left, or nothing can run. */
  lemma TickPreempts(s: Snap, a: Step, s': Snap)
    requires Good(s) && Next(s, a, s') && a.Tick? && a.user
    ensures CounterOf(s', s'.current) > 0 || (s'.current == 0 && forall i: nat :: !Runs(s'.tasks, i))
  {
    hide Best, AfterSignals;
  }

  /** schedule leaves the processor to a runnable task that no other has more time left than, if there is one. */
  lemma MostTimeRuns(s: Snap, a: Step, s': Snap, i: nat)
    requires Good(s) && Next(s, a, s') && Schedules(s, a)
    requires 0 < i < |s'.tasks| && s'.tasks[i].Some? && s'.tasks[i].value.state == Running
    ensures s'.current > 0 && Runs(s'.tasks, s'.current) && CounterOf(s', s'.current) >= CounterOf(s', i)
    ensures i > s'.current ==> CounterOf(s', s'.current) > CounterOf(s', i)
  {
    hide AfterSignals;
    assert Runs(s'.tasks, i);
  }

  /** Some signal is pending that is not blocked, or cannot be. */
  ghost predicate SignalPending(t: Task) {
    exists n: nat :: n in t.signal && (n !in t.blocked || n == 9 || n == 19)
  }

  /**
    schedule wakes a task that sleeps interruptibly exactly when it has such a signal or its alarm has
    gone off, and no other task: an alarm that has gone off is cleared and SIGALRM is pending.
   */
  lemma SignalWakes(s: Snap, a: Step, s': Snap, i: nat)
    requires Good(s) && Next(s, a, s') && Schedules(s, a) && 0 < i < |s.tasks| && s.tasks[i].Some?
    ensures i < |s'.tasks| && s'.tasks[i].Some?
    ensures var t, t' := s.tasks[i].value, s'.tasks[i].value;
      var rings := t.alarm != 0 && t.alarm < a.jiffies;
      && t'.state == (if t.state == Interruptible && (SignalPending(t) || (rings && 14 !in t.blocked)) then Running
                      else t.state)
      && t'.signal == (if rings then t.signal + {14} else t.signal)
      && t'.alarm == (if rings then 0 else t.alarm) && t'.blocked == t.blocked
  {
    hide Best, Spent;
    var t := s.tasks[i].value;
    var t1 := if t.alarm != 0 && t.alarm < a.jiffies then t.(signal := t.signal + {SIGALRM}, alarm := 0) else t;
    PendingIs(t1);
    assert SignalPending(t1) <==> SignalPending(t) || (t1 != t && 14 !in t.blocked) by {
      if t1 != t && 14 !in t.blocked { assert 14 in t1.signal; }
      if SignalPending(t) {
        var n: nat :| n in t.signal && (n !in t.blocked || n == 9 || n == 19);
        assert n in t1.signal;
      }
    }
  }

  lemma PendingIs(t: Task)
    ensures Deliverable(t) <==> SignalPending(t)
  {
    var left := t.signal - (t.blocked - {SIGKILL, SIGSTOP});
    if SignalPending(t) {
      var n: nat :| n in t.signal && (n !in t.blocked || n == 9 || n == 19);
      assert n in left;
    }
    if left != {} {
      var n :| n in left;
      assert n in t.signal;
    }
  }

  /** A new task starts with its parent's priority as its time, and does not run before its state is changed. */
  lemma {:induction false} ChildWaits(trace: seq<Snap>, steps: seq<Step>, c: nat, m: nat, n: nat)
    requires IsRun(trace, steps) && Good(trace[0]) && m < n <= |steps| && steps[m] == Clone(c)
    requires c < |trace[m].tasks| && trace[m].tasks[c].None?
    requires forall k :: m < k < n ==> steps[k] != Reap(c) && !(steps[k].Change? && steps[k].i == c)
    ensures 0 < c < |trace[n].tasks| && trace[n].tasks[c].Some? && trace[n].current != c
    ensures trace[n].tasks[c].value.state == Uninterruptible
    ensures n == m + 1 && trace[m].current < |trace[m].tasks| && trace[m].tasks[trace[m].current].Some? ==>
      var t, p := trace[n].tasks[c].value, trace[m].tasks[trace[m].current].value;
      t.counter == t.priority == p.priority
  {
    hide Good, Next;
    RunGood(trace, steps, n - 1);
    assert Moves(trace[n - 1], steps[n - 1], trace[n]);
    if n == m + 1 {
      ChildStarts(trace[m], trace[n], c);
    } else {
      ChildWaits(trace, steps, c, m, n - 1);
      ChildStays(trace[n - 1], steps[n - 1], trace[n], c);
    }
  }

  lemma ChildStarts(s: Snap, s': Snap, c: nat)
    requires Good(s) && Next(s, Clone(c), s') && c < |s.tasks| && s.tasks[c].None?
    ensures c > 0 && s'.current == s.current != c && |s'.tasks| == |s.tasks| && s'.tasks[c].Some?
    ensures var t, p := s'.tasks[c].value, s.tasks[s.current].value;
      t.state == Uninterruptible && t.counter == t.priority == p.priority
  {
  }

  lemma ChildStays(s: Snap, a: Step, s': Snap, c: nat)
    requires Good(s) && Next(s, a, s') && 0 < c < |s.tasks| && s.tasks[c].Some? && s.current != c
    requires s.tasks[c].value.state == Uninterruptible && a != Reap(c) && !(a.Change? && a.i == c)
    ensures c < |s'.tasks| && s'.tasks[c].Some? && s'.current != c && s'.tasks[c].value.state == Uninterruptible
  {
    hide Best, Spent, Deliverable;
    if Schedules(s, a) { assert Runs(s'.tasks, c) ==> s'.tasks[c].value.state == Running; }
  }

  class Machine {
    const task: array<Option<Task>>
    var current: nat

    ghost function View(): Snap
      reads this, task
    {
      Snap(task[..], current)
    }

    ghost predicate Valid()
      reads this, task
    {
      Good(View())
    }

    /** Task 0, and nothing else. */
    constructor (slots: nat)
      requires slots >= 1
      ensures Valid() && fresh(task) && task.Length == slots && current == 0
    {
      task := new Option<Task>[slots](i => if i == 0 then Some(Task(Running, 15, 15, 0, {}, {})) else None);
      current := 0;
    }

    /** The alarm and signal loop. */
    method CheckSignals(jiffies: int)
      requires Valid()
      modifies task
      ensures Valid()
      ensures forall i :: 0 <= i < task.Length ==>
        task[i] == if i > 0 && old(task[i]).Some? then Some(Signalled(old(task[i]).value, jiffies)) else old(task[i])
    {
      var p := task.Length;
      while p > 1
        invariant 1 <= p <= task.Length && Valid()
        invariant forall i :: 0 <= i < task.Length ==>
          task[i] == if i >= p && old(task[i]).Some? then Some(Signalled(old(task[i]).value, jiffies)) else old(task[i])
      {
        p := p - 1;
        if task[p].Some? {
          assert Sane(task[p]);
          if task[p].value.alarm != 0 && task[p].value.alarm < jiffies {
            task[p] := Some(task[p].value.(signal := task[p].value.signal + {SIGALRM}, alarm := 0));
          }
          if Deliverable(task[p].value) && task[p].value.state == Interruptible {
            task[p] := Some(task[p].value.(state := Running));
          }
        }
      }
    }

    /** One pass over the tasks. */
    method Pick() returns (next: nat, c: int)
      requires Valid()
      ensures c >= -1 && Best(task[..], 1, next, c)
    {
      c, next := -1, 0;
      var i := task.Length;
      while i > 1
        invariant 1 <= i <= task.Length && c >= -1 && Best(task[..], i, next, c)
      {
        i := i - 1;
        assert Sane(task[..][i]);
        if task[i].Some? && task[i].value.state == Running && task[i].value.counter > c {
          c, next := task[i].value.counter, i;
        }
      }
    }

    method Recharge()
      requires task.Length > 0
      modifies task
      ensures Recharged(old(task[..]), task[..])
    {
      var p := task.Length;
      while p > 1
        invariant 1 <= p <= task.Length
        invariant forall i :: 0 <= i < task.Length ==> task[i] == if i >= p then Refill(old(task[i])) else old(task[i])
      {
        p := p - 1;
        if task[p].Some? {
          task[p] := Some(task[p].value.(counter := task[p].value.counter / 2 + task[p].value.priority));
        }
      }
    }

    /**
      schedule, after its signal loop.  At most one recharge, and only when every runnable task has
      spent its counter; then the runnable task with the most time left, or task 0 exactly when no
      task is runnable.
     */
    method Choose()
      requires Valid()
      modifies this, task
      ensures Valid() && Follows(old(task[..]), task[..]) && Elected(task[..], current)
    {
      hide Best, Recharged;
      ghost var before := task[..];
      ghost var recharged := false;
      var next, c := Pick();
      while c == 0
        invariant Valid() && c >= -1 && Best(task[..], 1, next, c) && (recharged ==> c > 0 && Spent(before))
        invariant if recharged then Recharged(before, task[..]) else task[..] == before
        decreases !recharged
      {
        recharged := true;
        BestSpent(before, next);
        Recharge();
        RechargeSane(before, task[..]);
        SameTasks(before, task[..]);
        next, c := Pick();
        BestSome(before, task[..], next, c);
      }
      BestElected(task[..], next, c);
      if !recharged && Spent(before) { SpentBest(before, next, c); }
      current := next;
    }

    method Schedule(jiffies: int)
      requires Valid()
      modifies this, task
      ensures Valid() && Follows(AfterSignals(old(task[..]), jiffies), task[..]) && Elected(task[..], current)
    {
      CheckSignals(jiffies);
      assert task[..] == AfterSignals(old(task[..]), jiffies);
      Choose();
    }

    /** The time slice half of do_timer; `user` says the tick came in user mode. */
    method DoTimer(user: bool, jiffies: int)
      requires Valid()
      modifies this, task
      ensures Valid() && Next(old(View()), Tick(user, jiffies), View())
    {
      var t := task[current].value;
      assert Sane(task[..][current]);
      task[current] := Some(t.(counter := t.counter - 1));
      if t.counter - 1 > 0 { return; }
      task[current] := Some(t.(counter := 0));
      assert task[..] == Before(old(View()), Tick(user, jiffies));
      if !user { return; }
      Schedule(jiffies);
    }

    /** sys_nice. */
    method Nice(increment: int)
      requires Valid()
      modifies task
      ensures Valid() && Next(old(View()), Renice(increment), View())
      ensures task[current].Some? && task[current].value.priority ==
        if old(task[current].value.priority) - increment > 0 then old(task[current].value.priority) - increment
        else old(task[current].value.priority)
    {
      assert Sane(task[..][current]);
      var t := task[current].value;
      if t.priority - increment > 0 {
        task[current] := Some(t.(priority := t.priority - increment));
      }
    }

    /** The scheduling half of copy_process. */
    method Fork(child: nat)
      requires Valid() && child < task.Length && task[child] == None
      modifies task
      ensures Valid() && Next(old(View()), Clone(child), View())
    {
      assert Sane(task[..][current]);
      var t := task[current].value;
      task[child] := Some(t.(state := Uninterruptible, counter := t.priority, signal := {}, alarm := 0));
    }

    /** A task goes to sleep, is woken, exits or is stopped. */
    method SetState(i: nat, state: State)
      requires Valid() && i < task.Length && task[i].Some?
      modifies task
      ensures Valid() && Next(old(View()), Change(i, state), View())
    {
      assert Sane(task[..][i]);
      task[i] := Some(task[i].value.(state := state));
    }

    /** release: a zombie's slot is empty again. */
    method Release(i: nat)
      requires Valid() && 0 < i < task.Length && i != current
      modifies task
      ensures Valid() && Next(old(View()), Reap(i), View())
    {
      task[i] := None;
    }

    method Do(a: Step)
      requires Valid()
      modifies this, task
      ensures Valid() && Next(old(View()), a, View())
    {
      match a {
        case Tick(user, jiffies) => DoTimer(user, jiffies);
        case Yield(jiffies) => Schedule(jiffies);
        case Renice(increment) => Nice(increment);
        case Clone(child) => if child < task.Length && task[child] == None { Fork(child); }
        case Change(i, state) => if i < task.Length && task[i].Some? { SetState(i, state); }
        case Reap(i) => if 0 < i < task.Length && i != current { Release(i); }
      }
    }

    /** What the code does is such a run. */
    method Run(steps: seq<Step>) returns (ghost trace: seq<Snap>)
      requires Valid()
      modifies this, task
      ensures Valid() && IsRun(trace, steps) && trace[0] == old(View()) && trace[|steps|] == View()
    {
      hide Good, Next;
      trace := [View()];
      for n := 0 to |steps|
        invariant Valid() && IsRun(trace, steps[..n]) && trace[0] == old(View()) && trace[n] == View()
      {
        Do(steps[n]);
        MoreRun(trace, steps[..n], steps[n], View());
        assert steps[..n + 1] == steps[..n] + [steps[n]];
        trace := trace + [View()];
      }
      assert steps[..|steps|] == steps;
    }
  }

  lemma MoreRun(trace: seq<Snap>, steps: seq<Step>, a: Step, s: Snap)
    requires IsRun(trace, steps) && Moves(trace[|steps|], a, s)
    ensures IsRun(trace + [s], steps + [a])
  {
    hide Moves;
    var trace', steps' := trace + [s], steps + [a];
    forall i: nat | i < |steps'|
      ensures Moves(trace'[i], steps'[i], trace'[i + 1])
    {
      assert i < |steps| ==> Moves(trace[i], steps[i], trace[i + 1]);
    }
  }

  lemma BestSpent(tasks: seq<Option<Task>>, next: nat)
    requires Best(tasks, 1, next, 0) && forall i: nat :: Runs(tasks, i) ==> tasks[i].value.counter >= 0
    ensures Spent(tasks)
  {
  }

  lemma SpentBest(tasks: seq<Option<Task>>, next: nat, c: int)
    requires Best(tasks, 1, next, c) && c >= -1 && Spent(tasks)
    ensures c == 0
  {
  }

  lemma SameTasks(tasks: seq<Option<Task>>, tasks': seq<Option<Task>>)
    requires Recharged(tasks, tasks')
    ensures |tasks'| == |tasks| && forall i :: 0 <= i < |tasks| ==> (tasks'[i].Some? <==> tasks[i].Some?)
  {
  }

  lemma BestSome(before: seq<Option<Task>>, tasks: seq<Option<Task>>, next: nat, c: int)
    requires Spent(before) && Best(tasks, 1, next, c) && c >= -1
    requires forall i: nat :: Runs(before, i) ==> Runs(tasks, i)
    requires forall i: nat :: Runs(tasks, i) ==> tasks[i].value.counter > 0
    ensures c > 0
  {
    var i: nat :| Runs(before, i);
    assert Runs(tasks, i);
  }

  lemma BestElected(tasks: seq<Option<Task>>, next: nat, c: int)
    requires Best(tasks, 1, next, c) && c >= -1
    ensures if c == -1 then next == 0 && forall i: nat :: !Runs(tasks, i)
      else 0 < next < |tasks| && Runs(tasks, next) && tasks[next].Some? && tasks[next].value.counter == c
  {
    if c == -1 {
      forall i: nat
        ensures !Runs(tasks, i)
      {
        assert Runs(tasks, i) ==> i >= 1;
      }
    }
  }
}
