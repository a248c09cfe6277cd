/**
  The round-robin scheduler of nctuos (lab5): sched_yield, the timer handler, and the system calls
  that give up the processor.
 */
module RoundRobin {
  const NR_TASKS: nat := 10
  const TIME_QUANT: nat := 100

  datatype State = Free | Runnable | Running | Sleep

  /** Steps around the table from one task to another. */
  function Dist(from: nat, to: nat): (d: nat)
    ensures d < NR_TASKS
  {
    (to - from) % NR_TASKS
  }

  lemma DistNext(from: nat, i: nat)
    requires from < NR_TASKS && i < NR_TASKS && i != from
    ensures Dist(from, i) > 0
    ensures var n := if i == NR_TASKS - 1 then 0 else i + 1;
      if n == from then Dist(from, i) == NR_TASKS - 1 else Dist(from, n) == Dist(from, i) + 1
  {
  }

  lemma DistFirst(from: nat)
    requires from < NR_TASKS
    ensures (from + 1) % NR_TASKS != from && Dist(from, (from + 1) % NR_TASKS) == 1
    ensures forall j: nat :: j < NR_TASKS && j != from ==> Dist(from, j) > 0
  {
  }

  lemma DistOne(from: nat, i: nat, j: nat)
    requires from < NR_TASKS && i < NR_TASKS && j < NR_TASKS && Dist(from, i) == Dist(from, j)
    ensures i == j
  {
  }

  /** From a task in between, the way is shorter. */
  lemma DistBetween(from: nat, mid: nat, to: nat)
    requires from < NR_TASKS && mid < NR_TASKS && to < NR_TASKS && 0 < Dist(from, mid) < Dist(from, to)
    ensures Dist(mid, to) == Dist(from, to) - Dist(from, mid)
  {
    hide Dist;
    DistIs(from, mid);
    DistIs(from, to);
    DistIs(mid, to);
  }

  lemma DistIs(from: nat, to: nat)
    requires from < NR_TASKS && to < NR_TASKS
    ensures Dist(from, to) == if from <= to then to - from else to + NR_TASKS - from
  {
  }

  /** The first runnable task after `from`, or `from` itself if there is no other. */
  ghost predicate IsNext(state: seq<State>, from: nat, next: nat) {
    && next < |state| && (next != from ==> state[next] == Runnable)
    && forall j: nat :: j < |state| && j != from && state[j] == Runnable ==>
      next != from && Dist(from, next) <= Dist(from, j)
  }

  /** No task but `from` can run. */
  predicate NoOther(state: seq<State>, from: nat) {
    forall j: nat :: j < |state| && j != from ==> state[j] != Runnable
  }

  /** The states after a tick: a sleeper whose time is up is runnable. */
  function Woken(state: seq<State>, left: seq<int>): seq<State>
    requires |left| == |state|
  {
    seq(|state|, i requires 0 <= i < |state| => if state[i] == Sleep && left[i] <= 1 then Runnable else state[i])
  }

  /** The sleepers' ticks after a tick. */
  function Counted(state: seq<State>, left: seq<int>): seq<int>
    requires |left| == |state|
  {
    seq(|state|, i requires 0 <= i < |state| => if state[i] == Sleep then left[i] - 1 else left[i])
  }

  /** Ticks that may pass before task `t` gets the processor. */
  ghost function Patience(cur: nat, left: int, t: nat): int {
    left + (Dist(cur, t) - 1) * TIME_QUANT
  }

  /** The whole state: the tasks' states and ticks left (remind_ticks), and the current task. */
  datatype Snap = Snap(state: seq<State>, left: seq<int>, cur: nat)

  /** Exactly one task is running, it is the current one, and it has time left. */
  ghost predicate Good(s: Snap) {
    && |s.state| == |s.left| == NR_TASKS && s.cur < NR_TASKS && 1 <= s.left[s.cur] <= TIME_QUANT
    && forall i :: 0 <= i < NR_TASKS ==> (s.state[i] == Running <==> i == s.cur)
  }

  /** sched_yield with the current task's state and ticks already changed to `state` and `left`. */
  ghost predicate Switches(state: seq<State>, left: seq<int>, from: nat, s: Snap) {
    && |state| == |left| == NR_TASKS && IsNext(state, from, s.cur)
    && s.state == state[s.cur := Running] && s.left == left[s.cur := TIME_QUANT]
  }

  /** sched_yield leaves one task running if the old one had stopped, or goes on. */
  lemma SwitchGood(state: seq<State>, left: seq<int>, from: nat, s: Snap)
    requires from < NR_TASKS && Switches(state, left, from, s)
    requires forall i :: 0 <= i < NR_TASKS && i != from ==> state[i] != Running
    ensures Good(s) <==> state[from] != Running || NoOther(state, from)
  {
    hide Dist;
    assert s.cur == from <==> NoOther(state, from);
    assert s.state[s.cur] == Running && s.left[s.cur] == TIME_QUANT;
    assert s.cur != from ==> s.state[from] == state[from];
  }

  datatype Step = Tick | DoSleep(ticks: int) | DoKill | DoFork(child: nat)

  /** Whether a step calls sched_yield. */
  predicate Yields(s: Snap, a: Step) {
    match a
    case Tick => s.cur < |s.left| && s.left[s.cur] <= 1
    case DoSleep(_) => true
    case DoKill => s.cur > 0
    case DoFork(_) => false
  }

  /** One timer tick, system call or creation of a task. */
  ghost predicate Follows(s: Snap, a: Step, s': Snap)
    requires Good(s)
  {
    match a
    case Tick =>
      var state, left := Woken(s.state, s.left), Counted(s.state, s.left)[s.cur := s.left[s.cur] - 1];
      if Yields(s, a) then Switches(state[s.cur := Runnable], left, s.cur, s') else s' == Snap(state, left, s.cur)
    case DoSleep(k) => Switches(s.state[s.cur := Sleep], s.left[s.cur := k], s.cur, s')
    case DoKill => if s.cur > 0 then Switches(s.state[s.cur := Free], s.left, s.cur, s') else s' == s
    case DoFork(c) =>
      if c < NR_TASKS && s.state[c] == Free then s' == Snap(s.state[c := Runnable], s.left[c := TIME_QUANT], s.cur)
      else s' == s
  }

  /** Task 0 kills task 1 while task 2 can run: afterwards 0 and 2 are both marked as running. */
  lemma KillOther(s: Snap)
    requires Switches(Three()[1 := Free], seq(NR_TASKS, _ => TIME_QUANT), 0, s)
    ensures Good(Snap(Three(), seq(NR_TASKS, _ => TIME_QUANT), 0))
    ensures s.cur == 2 && s.state[0] == Running && s.state[2] == Running && !Good(s)
  {
    var state := Three()[1 := Free];
    assert state[2] == Runnable && NoOther(state[2 := Free], 0);
  }

  function Three(): seq<State> {
    [Running, Runnable, Runnable, Free, Free, Free, Free, Free, Free, Free]
  }

  // ---------------------------------------------------------------- runs

  ghost predicate IsRun(trace: seq<Snap>, steps: seq<Step>) {
    |trace| == |steps| + 1 && forall i: nat :: i < |steps| ==> Moves(trace[i], steps[i], trace[i + 1])
  }

  ghost predicate Moves(s: Snap, a: Step, s': Snap) {
    Good(s) ==> Follows(s, a, s')
  }

  /** After every step exactly one task is running, and it is the current one. */
  lemma StaysGood(s: Snap, a: Step, s': Snap)
    requires Good(s) && Follows(s, a, s')
    ensures Good(s')
  {
  }

  /** The ticks among the first `n` steps. */
  function Ticks(steps: seq<Step>, n: nat): nat
    requires n <= |steps|
  {
    if n == 0 then 0 else Ticks(steps, n - 1) + if steps[n - 1].Tick? then 1 else 0
  }

  /** How often the first `n` steps called sched_yield. */
  function YieldCount(trace: seq<Snap>, steps: seq<Step>, n: nat): nat
    requires n <= |steps| <= |trace|
  {
    if n == 0 then 0 else YieldCount(trace, steps, n - 1) + if Yields(trace[n - 1], steps[n - 1]) then 1 else 0
  }

  /** After a step a task that waits is closer to its turn, or has got it. */
  lemma Advances(s: Snap, a: Step, s': Snap, t: nat)
    requires Good(s) && Follows(s, a, s') && Good(s') && t < NR_TASKS && s.state[t] == Runnable && s'.cur != t
    ensures s'.state[t] == Runnable
    ensures Dist(s'.cur, t) + (if Yields(s, a) then 1 else 0) <= Dist(s.cur, t)
    ensures Patience(s'.cur, s'.left[s'.cur], t) + (if a.Tick? then 1 else 0) <= Patience(s.cur, s.left[s.cur], t)
  {
    hide Dist;
    if Yields(s, a) { Closer(s.cur, s'.cur, t); }
  }

  lemma {:induction false} StillWaiting(trace: seq<Snap>, steps: seq<Step>, t: nat, n: nat)
    requires IsRun(trace, steps) && n <= |steps| && t < NR_TASKS && Good(trace[0]) && trace[0].state[t] == Runnable
    requires forall i :: 0 <= i <= n ==> trace[i].cur != t
    ensures Good(trace[n]) && trace[n].state[t] == Runnable
    ensures YieldCount(trace, steps, n) + Dist(trace[n].cur, t) <= NR_TASKS - 1
    ensures Ticks(steps, n) + Patience(trace[n].cur, trace[n].left[trace[n].cur], t) <= (NR_TASKS - 1) * TIME_QUANT
  {
    hide Good, Follows;
    if n == 0 {
      GoodLeft(trace[0]);
    } else {
      StillWaiting(trace, steps, t, n - 1);
      assert Moves(trace[n - 1], steps[n - 1], trace[n]);
      StaysGood(trace[n - 1], steps[n - 1], trace[n]);
      GoodLeft(trace[n - 1]);
      GoodLeft(trace[n]);
      Advances(trace[n - 1], steps[n - 1], trace[n], t);
    }
  }

  lemma GoodLeft(s: Snap)
    requires Good(s)
    ensures |s.state| == |s.left| == NR_TASKS && s.cur < NR_TASKS && 1 <= s.left[s.cur] <= TIME_QUANT
  {
  }

  /**
    The bound: as long as a runnable task has not had the processor, fewer than NR_TASKS - 1 yields and
    fewer than (NR_TASKS - 1) * TIME_QUANT ticks have passed, whatever the other tasks do.
   */
  lemma WaitBound(trace: seq<Snap>, steps: seq<Step>, t: nat, n: nat)
    requires IsRun(trace, steps) && n <= |steps| && t < NR_TASKS && Good(trace[0]) && trace[0].state[t] == Runnable
    requires forall i :: 0 <= i <= n ==> trace[i].cur != t
    ensures YieldCount(trace, steps, n) < NR_TASKS - 1 && Ticks(steps, n) < (NR_TASKS - 1) * TIME_QUANT
  {
    StillWaiting(trace, steps, t, n);
    DistPositive(trace[n].cur, t);
  }

  lemma DistPositive(from: nat, to: nat)
    requires from < NR_TASKS && to < NR_TASKS && from != to
    ensures Dist(from, to) > 0
  {
  }

  /** So it gets the processor by the time either bound is reached. */
  lemma GetsTurn(trace: seq<Snap>, steps: seq<Step>, t: nat) returns (i: nat)
    requires IsRun(trace, steps) && t < NR_TASKS && Good(trace[0]) && trace[0].state[t] == Runnable
    requires YieldCount(trace, steps, |steps|) >= NR_TASKS - 1 || Ticks(steps, |steps|) >= (NR_TASKS - 1) * TIME_QUANT
    ensures 0 < i <= |steps| && trace[i].cur == t && forall k :: 0 <= k < i ==> trace[k].cur != t
    ensures YieldCount(trace, steps, i) <= NR_TASKS - 1 && Ticks(steps, i) <= (NR_TASKS - 1) * TIME_QUANT
  {
    hide Good, Moves, Yields, Ticks, YieldCount;
    NotCurrent(trace[0], t);
    i := 0;
    while i < |steps| && trace[i].cur != t
      invariant i <= |steps| && forall k :: 0 <= k < i ==> trace[k].cur != t
    {
      i := i + 1;
    }
    if trace[i].cur != t { WaitBound(trace, steps, t, |steps|); }
    WaitBound(trace, steps, t, i - 1);
    OneStepMore(trace, steps, i);
  }

  lemma NotCurrent(s: Snap, t: nat)
    requires Good(s) && t < NR_TASKS && s.state[t] == Runnable
    ensures s.cur != t
  {
  }

  lemma OneStepMore(trace: seq<Snap>, steps: seq<Step>, i: nat)
    requires 0 < i <= |steps| <= |trace|
    ensures YieldCount(trace, steps, i) <= YieldCount(trace, steps, i - 1) + 1
    ensures Ticks(steps, i) <= Ticks(steps, i - 1) + 1
  {
  }

  // ---------------------------------------------------------------- the life of a task, over runs

  /** The ticks among the steps from `a` to `n`. */
  function TicksIn(steps: seq<Step>, a: nat, n: nat): nat
    requires a <= n <= |steps|
  {
    if n == a then 0 else TicksIn(steps, a, n - 1) + if steps[n - 1].Tick? then 1 else 0
  }

  lemma {:induction false} TicksAdd(steps: seq<Step>, a: nat, b: nat, n: nat)
    requires a <= b <= n <= |steps|
    ensures TicksIn(steps, a, n) == TicksIn(steps, a, b) + TicksIn(steps, b, n)
  {
    if b < n { TicksAdd(steps, a, b, n - 1); }
  }

  lemma {:induction false} TicksFrom(steps: seq<Step>, a: nat, n: nat)
    requires a + n <= |steps|
    ensures Ticks(steps[a..], n) == TicksIn(steps, a, a + n)
  {
    if n > 0 { TicksFrom(steps, a, n - 1); }
  }

  lemma {:induction false} RunGood(trace: seq<Snap>, steps: seq<Step>, n: nat)
    requires IsRun(trace, steps) && Good(trace[0]) && n < |trace|
    ensures Good(trace[n]) && (n < |steps| ==> Follows(trace[n], steps[n], trace[n + 1]))
  {
    hide Good, Follows;
    if n > 0 {
      RunGood(trace, steps, n - 1);
      StaysGood(trace[n - 1], steps[n - 1], trace[n]);
    }
    if n < |steps| { assert Moves(trace[n], steps[n], trace[n + 1]); }
  }

  /** The ticks that a request for `k` of them lasts. */
  function Nap(k: int): int {
    if k < 1 then 1 else k
  }

  /** In step `m` task `t` goes to sleep for `k` ticks, and another task takes over. */
  predicate FallsAsleep(trace: seq<Snap>, steps: seq<Step>, t: nat, k: int, m: nat) {
    m + 1 < |trace| && m < |steps| && steps[m] == DoSleep(k) && trace[m].cur == t != trace[m + 1].cur
  }

  /** Until that many ticks have passed it is asleep, whatever the others do. */
  lemma {:induction false} SleepsOn(trace: seq<Snap>, steps: seq<Step>, t: nat, k: int, m: nat, n: nat)
    requires IsRun(trace, steps) && Good(trace[0]) && FallsAsleep(trace, steps, t, k, m)
    requires m < n <= |steps| && TicksIn(steps, m + 1, n) < Nap(k)
    ensures |trace[n].state| == |trace[n].left| == NR_TASKS && t < NR_TASKS
    ensures trace[n].state[t] == Sleep && trace[n].cur != t && trace[n].left[t] == k - TicksIn(steps, m + 1, n)
  {
    hide Good, Dist;
    RunGood(trace, steps, m);
    RunGood(trace, steps, n - 1);
    RunGood(trace, steps, n);
    GoodLeft(trace[m]);
    GoodLeft(trace[n]);
    if n > m + 1 {
      SleepsOn(trace, steps, t, k, m, n - 1);
      StillAsleep(trace[n - 1], steps[n - 1], trace[n], t);
    }
  }

  lemma StillAsleep(s: Snap, a: Step, s': Snap, t: nat)
    requires Good(s) && Follows(s, a, s') && t < NR_TASKS && s.state[t] == Sleep
    ensures |s'.state| == |s'.left| == NR_TASKS
    ensures if a.Tick? && s.left[t] <= 1 then s'.state[t] == Runnable || s'.cur == t
      else s'.state[t] == Sleep && s'.cur != t && s'.left[t] == s.left[t] - if a.Tick? then 1 else 0
  {
    hide Dist;
  }

  /** With the last of them it can run again, or has the processor already. */
  lemma WakesUp(trace: seq<Snap>, steps: seq<Step>, t: nat, k: int, m: nat, n: nat)
    requires IsRun(trace, steps) && Good(trace[0]) && FallsAsleep(trace, steps, t, k, m) && m + 1 < n <= |steps|
    requires steps[n - 1].Tick? && TicksIn(steps, m + 1, n) == Nap(k)
    ensures |trace[n].state| == NR_TASKS && t < NR_TASKS && (trace[n].state[t] == Runnable || trace[n].cur == t)
  {
    hide Good, Follows, Moves;
    SleepsOn(trace, steps, t, k, m, n - 1);
    RunGood(trace, steps, n - 1);
    StillAsleep(trace[n - 1], steps[n - 1], trace[n], t);
  }

  /** A task that can run gets the processor within (NR_TASKS - 1) * TIME_QUANT ticks, from any point of a run. */
  lemma TurnFrom(trace: seq<Snap>, steps: seq<Step>, t: nat, a: nat) returns (i: nat)
    requires IsRun(trace, steps) && Good(trace[0]) && a <= |steps| && t < NR_TASKS
    requires |trace[a].state| == NR_TASKS && trace[a].state[t] == Runnable
    requires TicksIn(steps, a, |steps|) >= (NR_TASKS - 1) * TIME_QUANT
    ensures a < i <= |steps| && trace[i].cur == t && forall j :: a <= j < i ==> trace[j].cur != t
    ensures TicksIn(steps, a, i) <= (NR_TASKS - 1) * TIME_QUANT
  {
    hide Good, Moves, Yields, YieldCount, Ticks, TicksIn;
    RunGood(trace, steps, a);
    forall j: nat | j < |steps[a..]| ensures Moves(trace[a..][j], steps[a..][j], trace[a..][j + 1]) {
      assert Moves(trace[a + j], steps[a + j], trace[a + j + 1]);
    }
    TicksFrom(steps, a, |steps| - a);
    var k := GetsTurn(trace[a..], steps[a..], t);
    TicksFrom(steps, a, k);
    i := a + k;
    forall j | a <= j < i ensures trace[j].cur != t { assert trace[a..][j - a].cur != t; }
  }

  /**
    A sleeper gets the processor back: not before the ticks it asked for have passed, and at most
    (NR_TASKS - 1) * TIME_QUANT ticks later.
   */
  lemma SleeperRuns(trace: seq<Snap>, steps: seq<Step>, t: nat, k: int, m: nat) returns (i: nat)
    requires IsRun(trace, steps) && Good(trace[0]) && FallsAsleep(trace, steps, t, k, m)
    requires TicksIn(steps, m + 1, |steps|) >= Nap(k) + (NR_TASKS - 1) * TIME_QUANT
    ensures m < i <= |steps| && trace[i].cur == t && forall j :: m < j < i ==> trace[j].cur != t
    ensures Nap(k) <= TicksIn(steps, m + 1, i) <= Nap(k) + (NR_TASKS - 1) * TIME_QUANT
  {
    hide Good, Moves, Nap;
    var n := NapEnds(steps, m + 1, k);
    forall j | m < j < n ensures trace[j].cur != t {
      TicksAdd(steps, m + 1, j, n - 1);
      SleepsOn(trace, steps, t, k, m, j);
    }
    WakesUp(trace, steps, t, k, m, n);
    i := n;
    if trace[n].cur != t {
      TicksAdd(steps, m + 1, n, |steps|);
      i := TurnFrom(trace, steps, t, n);
      TicksAdd(steps, m + 1, n, i);
    }
  }

  /** The step with the last tick. */
  lemma NapEnds(steps: seq<Step>, a: nat, k: int) returns (n: nat)
    requires a <= |steps| && TicksIn(steps, a, |steps|) >= Nap(k)
    ensures a < n <= |steps| && steps[n - 1].Tick? && TicksIn(steps, a, n) == Nap(k)
  {
    n := a;
    while TicksIn(steps, a, n) < Nap(k)
      invariant a <= n <= |steps| && TicksIn(steps, a, n) <= Nap(k)
      invariant n > a && TicksIn(steps, a, n) == Nap(k) ==> steps[n - 1].Tick?
      decreases |steps| - n
    {
      n := n + 1;
    }
  }

  /** A task that was killed does not run again until its slot is given to a new one. */
  lemma {:induction false} KilledGone(trace: seq<Snap>, steps: seq<Step>, t: nat, m: nat, n: nat)
    requires IsRun(trace, steps) && Good(trace[0]) && m < n <= |steps|
    requires steps[m] == DoKill && 0 < t == trace[m].cur != trace[m + 1].cur
    requires forall j :: m < j < n ==> steps[j] != DoFork(t)
    ensures |trace[n].state| == NR_TASKS && t < NR_TASKS && trace[n].state[t] == Free && trace[n].cur != t
  {
    hide Dist;
    RunGood(trace, steps, m);
    RunGood(trace, steps, n - 1);
    RunGood(trace, steps, n);
    if n > m + 1 { KilledGone(trace, steps, t, m, n - 1); }
  }

  /** A new task gets the processor. */
  lemma ChildRuns(trace: seq<Snap>, steps: seq<Step>, c: nat, m: nat) returns (i: nat)
    requires IsRun(trace, steps) && Good(trace[0]) && m < |steps| && steps[m] == DoFork(c)
    requires c < |trace[m].state| && trace[m].state[c] == Free
    requires TicksIn(steps, m + 1, |steps|) >= (NR_TASKS - 1) * TIME_QUANT
    ensures m + 1 < i <= |steps| && trace[i].cur == c && TicksIn(steps, m + 1, i) <= (NR_TASKS - 1) * TIME_QUANT
  {
    hide Switches, TicksIn;
    RunGood(trace, steps, m);
    RunGood(trace, steps, m + 1);
    i := TurnFrom(trace, steps, c, m + 1);
  }

  /** Step `i - 1` has given the processor to `t`. */
  predicate TurnStarts(trace: seq<Snap>, steps: seq<Step>, t: nat, i: nat) {
    0 < i < |trace| && i <= |steps| && Yields(trace[i - 1], steps[i - 1]) && trace[i].cur == t
  }

  /**
    A turn lasts TIME_QUANT ticks: a task that neither sleeps nor is killed keeps the processor until
    then, and with the last tick another task has it, if any other can run.
   */
  lemma {:induction false} TurnLasts(trace: seq<Snap>, steps: seq<Step>, t: nat, i: nat, n: nat)
    requires IsRun(trace, steps) && Good(trace[0]) && TurnStarts(trace, steps, t, i) && i <= n <= |steps|
    requires forall j :: i <= j < n ==> steps[j].Tick? || steps[j].DoFork?
    requires TicksIn(steps, i, n) <= TIME_QUANT && (n > i ==> TicksIn(steps, i, n - 1) < TIME_QUANT)
    ensures |trace[n].state| == |trace[n].left| == NR_TASKS && t < NR_TASKS
    ensures if TicksIn(steps, i, n) < TIME_QUANT
      then trace[n].cur == t && trace[n].left[t] == TIME_QUANT - TicksIn(steps, i, n)
      else trace[n].cur == t ==> NoOther(trace[n].state, t)
  {
    hide Dist;
    RunGood(trace, steps, i - 1);
    RunGood(trace, steps, n);
    if n > i {
      RunGood(trace, steps, n - 1);
      TurnLasts(trace, steps, t, i, n - 1);
    }
  }

  class Tasks {
    const state: array<State>
    const left: array<int>          // remind_ticks
    var cur: nat

    ghost function View(): Snap
      reads this, state, left
    {
      Snap(state[..], left[..], cur)
    }

    ghost predicate Valid()
      reads this, state, left
    {
      state.Length == left.Length == NR_TASKS && Good(View())
    }

    constructor ()
      ensures Valid() && fresh(state) && fresh(left)
    {
      state := new State[NR_TASKS](i => if i == 0 then Running else Free);
      left := new int[NR_TASKS](_ => TIME_QUANT);
      cur := 0;
    }

    /**
      sched_yield.  Callers have changed the state of the current task before; if it were still running,
      two tasks would be afterwards, unless there is no other to run.
     */
    method Yield()
      requires state.Length == left.Length == NR_TASKS && cur < NR_TASKS
      requires forall i :: 0 <= i < NR_TASKS && i != cur ==> state[i] != Running
      modifies this, state, left
      ensures cur < NR_TASKS && Switches(old(state[..]), old(left[..]), old(cur), View())
      ensures Valid() <==> old(state[cur]) != Running || old(NoOther(state[..], cur))
    {
      hide Dist;
      DistFirst(cur);
      var next := cur;
      var i: nat := (cur + 1) % NR_TASKS;
      ghost var k := 1;
      while i != cur
        modifies {}
        invariant i < NR_TASKS && next == cur
        invariant if i == cur then k == NR_TASKS else k == Dist(cur, i)
        invariant forall j: nat :: j < NR_TASKS && 0 < Dist(cur, j) < k ==> state[j] != Runnable
        decreases NR_TASKS - k
      {
        DistNext(cur, i);
        if state[i] == Runnable {
          next := i;
          break;
        }
        forall j: nat | j < NR_TASKS && Dist(cur, j) == k
          ensures j == i
        {
          DistOne(cur, i, j);
        }
        i := if i == NR_TASKS - 1 then 0 else i + 1;
        k := k + 1;
      }
      ghost var state0, left0, cur0 := state[..], left[..], cur;
      assert IsNext(state0, cur, next);
      cur := next;
      state[cur] := Running;
      left[cur] := TIME_QUANT;
      SwitchGood(state0, left0, cur0, View());
    }

    /** timer_handler. */
    method Timer() returns (yielded: bool)
      requires Valid()
      modifies this, state, left
      ensures Valid() && yielded == old(Yields(View(), Tick)) && Follows(old(View()), Tick, View())
    {
      var i := 0;
      while i < NR_TASKS
        invariant i <= NR_TASKS && Valid() && cur == old(cur) && left[cur] == old(left[cur])
        invariant forall j :: 0 <= j < NR_TASKS ==>
          if j < i && old(state[j]) == Sleep then
            left[j] == old(left[j]) - 1 && state[j] == (if old(left[j]) <= 1 then Runnable else Sleep)
          else left[j] == old(left[j]) && state[j] == old(state[j])
      {
        if state[i] == Sleep {
          left[i] := left[i] - 1;
          if left[i] <= 0 { state[i] := Runnable; }
        }
        i := i + 1;
      }
      assert state[..] == Woken(old(state[..]), old(left[..])) && left[..] == Counted(old(state[..]), old(left[..]));
      left[cur] := left[cur] - 1;
      if left[cur] <= 0 {
        state[cur] := Runnable;
        Yield();
        return true;
      }
      return false;
    }

    /** SYS_sleep. */
    method SysSleep(ticks: int)
      requires Valid()
      modifies this, state, left
      ensures Valid() && Follows(old(View()), DoSleep(ticks), View())
    {
      left[cur] := ticks;
      state[cur] := Sleep;
      Yield();
    }

    /**
      sys_kill.  Task 0 and numbers out of range are refused.  It is right for the current task, which is
      what the system call passes; killing another leaves two tasks running unless no third can run.
     */
    method SysKill(pid: int)
      requires Valid()
      modifies this, state, left
      ensures !(0 < pid < NR_TASKS) ==> View() == old(View())
      ensures 0 < pid < NR_TASKS ==> Switches(old(state[..])[pid := Free], old(left[..]), old(cur), View())
      ensures Valid() <==> !(0 < pid < NR_TASKS) || pid == old(cur) || old(NoOther(state[..][pid := Free], cur))
    {
      if 0 < pid < NR_TASKS {
        state[pid] := Free;
        Yield();
      }
    }

    /** The end of task_create. */
    method Create(child: nat)
      requires Valid() && child < NR_TASKS && state[child] == Free
      modifies state, left
      ensures Valid() && Follows(old(View()), DoFork(child), View())
    {
      state[child] := Runnable;
      left[child] := TIME_QUANT;
    }

    /** What the code does is such a run. */
    method Run(steps: seq<Step>) returns (ghost trace: seq<Snap>)
      requires Valid()
      modifies this, state, left
      ensures Valid() && IsRun(trace, steps) && trace[0] == old(View()) && trace[|steps|] == View()
    {
      hide Follows, Good;
      trace := [View()];
      for n := 0 to |steps|
        invariant Valid() && IsRun(trace, steps[..n]) && trace[0] == old(View()) && trace[n] == View()
      {
        Do(steps[n]);
        MoreRun(trace, steps[..n], steps[n], View());
        assert steps[..n + 1] == steps[..n] + [steps[n]];
        trace := trace + [View()];
      }
      assert steps[..|steps|] == steps;
    }

    method Do(a: Step)
      requires Valid()
      modifies this, state, left
      ensures Valid() && Follows(old(View()), a, View())
    {
      match a {
        case Tick => var yielded := Timer();
        case DoSleep(k) => SysSleep(k);
        case DoKill => SysKill(cur);
        case DoFork(child) => if child < NR_TASKS && state[child] == Free { Create(child); }
      }
    }
  }

  lemma MoreRun(trace: seq<Snap>, steps: seq<Step>, a: Step, s: Snap)
    requires IsRun(trace, steps) && Moves(trace[|steps|], a, s)
    ensures IsRun(trace + [s], steps + [a])
  {
    hide Moves;
    var trace', steps' := trace + [s], steps + [a];
    forall i: nat | i < |steps'|
      ensures Moves(trace'[i], steps'[i], trace'[i + 1])
    {
      assert i < |steps| ==> Moves(trace[i], steps[i], trace[i + 1]);
    }
  }

  lemma Closer(from: nat, mid: nat, to: nat)
    requires from < NR_TASKS && mid < NR_TASKS && to < NR_TASKS && mid != to && from != mid
    requires Dist(from, mid) <= Dist(from, to)
    ensures Dist(mid, to) <= Dist(from, to) - 1
  {
    if Dist(from, mid) == Dist(from, to) { DistOne(from, mid, to); }
    DistBetween(from, mid, to);
  }
}
