/**
  sleep_on and wake_up of kernel/sched.c.  A wait queue is one pointer; each sleeper keeps the
  previous head in a local variable `tmp` on its own kernel stack, and wakes it when it resumes.
  The links are therefore spread over the stacks of tasks that are not running.

  The reference is a machine with an explicit stack of sleepers per queue and, for every wake_up
  still being passed on, the list of tasks it has yet to reach (a wave).
 */
module WaitQueue {
  import opened Common

  /** A task outside sleep_on, or inside: its queue, its `tmp`, and whether its state is back to 0. */
  datatype Phase = Awake | Sleeping(queue: nat, tmp: Option<nat>, woken: bool)

  datatype Sys = Sys(head: seq<Option<nat>>, task: seq<Phase>)

  datatype Step = SleepOn(t: nat, q: nat) | WakeUp(q: nat) | Resume(t: nat)

  predicate Enabled(s: Sys, a: Step) {
    match a
    case SleepOn(t, q) => 0 < t < |s.task| && q < |s.head| && s.task[t].Awake?
    case WakeUp(q) => q < |s.head|
    case Resume(t) => t < |s.task| && s.task[t].Sleeping? && s.task[t].woken
  }

  /** `task->state = 0`: it matters only to a task that is inside sleep_on. */
  function SetRunning(task: seq<Phase>, t: nat): seq<Phase> {
    if t < |task| && task[t].Sleeping? then task[t := task[t].(woken := true)] else task
  }

  function Do(s: Sys, a: Step): Sys
    requires Enabled(s, a)
  {
    match a
    case SleepOn(t, q) =>
      Sys(s.head[q := Some(t)], s.task[t := Sleeping(q, s.head[q], false)])
    case WakeUp(q) =>
      if s.head[q].None? then s else Sys(s.head[q := None], SetRunning(s.task, s.head[q].value))
    case Resume(t) =>
      var tmp := s.task[t].tmp;
      var task := s.task[t := Awake];
      s.(task := if tmp.None? then task else SetRunning(task, tmp.value))
  }

  // ---------------------------------------------------------------- the reference machine

  datatype Waits = Waits(queue: seq<seq<nat>>, waves: seq<seq<nat>>)

  function FindWave(waves: seq<seq<nat>>, t: nat): nat {
    if waves == [] || (waves[0] != [] && waves[0][0] == t) then 0 else 1 + FindWave(waves[1..], t)
  }

  /** The reference steps: push on a stack; detach the stack as a wave; shorten a wave by its head. */
  function Ref(w: Waits, a: Step): Waits {
    match a
    case SleepOn(t, q) => if q < |w.queue| then w.(queue := w.queue[q := [t] + w.queue[q]]) else w
    case WakeUp(q) =>
      if q < |w.queue| && w.queue[q] != [] then Waits(w.queue[q := []], w.waves + [w.queue[q]]) else w
    case Resume(t) =>
      var i := FindWave(w.waves, t);
      if i >= |w.waves| || w.waves[i] == [] then w
      else w.(waves := w.waves[i := w.waves[i][1..]])
  }

  // ---------------------------------------------------------------- what the links spell

  ghost predicate Link(s: Sys, c: seq<nat>, q: nat, i: nat, wave: bool) {
    && i < |c| && c[i] < |s.task|
    && s.task[c[i]] == Sleeping(q, if i + 1 < |c| then Some(c[i + 1]) else None, wave && i == 0)
  }

  /** `c` is a chain of sleepers on queue `q`; only its head may be awake, if it is a wave. */
  ghost predicate Chain(s: Sys, c: seq<nat>, q: nat, wave: bool) {
    forall i: nat :: i < |c| ==> Link(s, c, q, i, wave)
  }

  ghost predicate Wave(s: Sys, c: seq<nat>) {
    exists q: nat :: Chain(s, c, q, true)
  }

  ghost predicate Lists(s: Sys, w: Waits) {
    && |w.queue| == |s.head|
    && (forall q: nat :: q < |w.queue| ==> Chain(s, w.queue[q], q, false))
    && (forall q: nat :: q < |w.queue| ==> s.head[q] == if w.queue[q] == [] then None else Some(w.queue[q][0]))
    && (forall v: nat :: v < |w.waves| ==> Wave(s, w.waves[v]))
  }

  /** Where a task is in the reference machine. */
  datatype Place = InQueue(q: nat, i: nat) | InWave(v: nat, i: nat)

  predicate At(w: Waits, p: Place, t: nat) {
    match p
    case InQueue(q, i) => q < |w.queue| && i < |w.queue[q]| && w.queue[q][i] == t
    case InWave(v, i) => v < |w.waves| && i < |w.waves[v]| && w.waves[v][i] == t
  }

  /** Chains never share a task, and no task is twice in one. */
  ghost predicate Apart(w: Waits) {
    forall p, r, t :: At(w, p, t) && At(w, r, t) ==> p == r
  }

  /** No sleeper is lost: each is somewhere in the reference machine. */
  ghost predicate Found(s: Sys, w: Waits) {
    forall t: nat :: t < |s.task| && s.task[t].Sleeping? ==> exists p :: At(w, p, t)
  }

  ghost predicate Refines(s: Sys, w: Waits) {
    Lists(s, w) && Apart(w) && Found(s, w)
  }

  // ---------------------------------------------------------------- each step is a reference step

  lemma ListedSleeps(s: Sys, w: Waits, p: Place, t: nat)
    requires Lists(s, w) && At(w, p, t)
    ensures t < |s.task| && s.task[t].Sleeping?
    ensures s.task[t].woken <==> p.InWave? && p.i == 0
    ensures p.InQueue? ==> s.task[t].queue == p.q
  {
    match p
    case InQueue(q, i) => assert Link(s, w.queue[q], q, i, false);
    case InWave(v, i) =>
      assert Wave(s, w.waves[v]);
      var q: nat :| Chain(s, w.waves[v], q, true);
      assert Link(s, w.waves[v], q, i, true);
  }

  /** A chain none of whose tasks changed is still a chain. */
  lemma ChainKept(s: Sys, s': Sys, c: seq<nat>, q: nat, wave: bool)
    requires Chain(s, c, q, wave) && |s'.task| == |s.task|
    requires forall i :: 0 <= i < |c| && c[i] < |s.task| ==> s'.task[c[i]] == s.task[c[i]]
    ensures Chain(s', c, q, wave)
  {
    forall i: nat | i < |c|
      ensures Link(s', c, q, i, wave)
    {
      assert Link(s, c, q, i, wave);
    }
  }

  lemma WaveKept(s: Sys, s': Sys, w: Waits, v: nat)
    requires Lists(s, w) && v < |w.waves| && |s'.task| == |s.task|
    requires forall i :: 0 <= i < |w.waves[v]| && w.waves[v][i] < |s.task| ==>
      s'.task[w.waves[v][i]] == s.task[w.waves[v][i]]
    ensures Wave(s', w.waves[v])
  {
    assert Wave(s, w.waves[v]);
    var q: nat :| Chain(s, w.waves[v], q, true);
    ChainKept(s, s', w.waves[v], q, true);
  }

  lemma SleepRefines(s: Sys, w: Waits, t: nat, q: nat)
    requires Refines(s, w) && Enabled(s, SleepOn(t, q))
    ensures Refines(Do(s, SleepOn(t, q)), Ref(w, SleepOn(t, q)))
  {
    hide Chain, Wave;
    var s', w' := Do(s, SleepOn(t, q)), Ref(w, SleepOn(t, q));
    forall p | At(w, p, t) ensures false { ListedSleeps(s, w, p, t); }
    assert forall r: nat, i :: r < |w.queue| && 0 <= i < |w.queue[r]| ==> At(w, InQueue(r, i), w.queue[r][i]);
    assert forall v: nat, i :: v < |w.waves| && 0 <= i < |w.waves[v]| ==> At(w, InWave(v, i), w.waves[v][i]);
    forall r: nat | r < |w'.queue|
      ensures Chain(s', w'.queue[r], r, false)
    {
      ChainKept(s, s', w.queue[r], r, false);
      if r == q { PushChain(s', t, w.queue[q], q); }
    }
    forall v: nat | v < |w'.waves|
      ensures Wave(s', w'.waves[v])
    {
      WaveKept(s, s', w, v);
    }
    PushPlaces(w, w', t, q);
    forall u: nat | u < |s'.task| && s'.task[u].Sleeping?
      ensures exists p :: At(w', p, u)
    {
      if u == t {
        assert At(w', InQueue(q, 0), t);
      } else {
        var p :| At(w, p, u);
        assert At(w', Pushed(p, q), u);
      }
    }
  }

  lemma PushChain(s: Sys, t: nat, c: seq<nat>, q: nat)
    requires Chain(s, c, q, false) && t < |s.task|
    requires s.task[t] == Sleeping(q, if c == [] then None else Some(c[0]), false)
    ensures Chain(s, [t] + c, q, false)
  {
    var d := [t] + c;
    forall i: nat | i < |d|
      ensures Link(s, d, q, i, false)
    {
      if i > 0 { assert Link(s, c, q, i - 1, false); }
    }
  }

  function Pushed(p: Place, q: nat): Place {
    if p.InQueue? && p.q == q then InQueue(q, p.i + 1) else p
  }

  lemma PushPlaces(w: Waits, w': Waits, t: nat, q: nat)
    requires Apart(w) && q < |w.queue| && w' == w.(queue := w.queue[q := [t] + w.queue[q]])
    requires forall p :: !At(w, p, t)
    ensures Apart(w')
    ensures forall p, u :: At(w, p, u) ==> At(w', Pushed(p, q), u)
  {
    forall p, r, u | At(w', p, u) && At(w', r, u)
      ensures p == r
    {
      PushedFrom(w, w', t, q, p, u);
      PushedFrom(w, w', t, q, r, u);
    }
  }

  lemma PushedFrom(w: Waits, w': Waits, t: nat, q: nat, p: Place, u: nat)
    requires q < |w.queue| && w' == w.(queue := w.queue[q := [t] + w.queue[q]]) && At(w', p, u)
    ensures (p == InQueue(q, 0) && u == t) || exists o :: At(w, o, u) && p == Pushed(o, q)
  {
    if p != InQueue(q, 0) {
      var o := if p.InQueue? && p.q == q then InQueue(q, p.i - 1) else p;
      assert At(w, o, u) && p == Pushed(o, q);
    }
  }

  lemma WakeRefines(s: Sys, w: Waits, q: nat)
    requires Refines(s, w) && Enabled(s, WakeUp(q)) && w.queue[q] != []
    ensures Refines(Do(s, WakeUp(q)), Ref(w, WakeUp(q)))
  {
    var s', w' := Do(s, WakeUp(q)), Ref(w, WakeUp(q));
    var c := w.queue[q];
    assert At(w, InQueue(q, 0), c[0]);
    ListedSleeps(s, w, InQueue(q, 0), c[0]);
    assert s'.task == s.task[c[0] := s.task[c[0]].(woken := true)];
    assert forall r: nat, i :: r < |w.queue| && 0 <= i < |w.queue[r]| ==> At(w, InQueue(r, i), w.queue[r][i]);
    assert forall v: nat, i :: v < |w.waves| && 0 <= i < |w.waves[v]| ==> At(w, InWave(v, i), w.waves[v][i]);
    forall r: nat | r < |w'.queue|
      ensures Chain(s', w'.queue[r], r, false)
    {
      if r != q { ChainKept(s, s', w.queue[r], r, false); }
    }
    assert Wave(s', c) by { WakeChain(s, s', c, q); }
    forall v: nat | v < |w'.waves|
      ensures Wave(s', w'.waves[v])
    {
      if v < |w.waves| { WaveKept(s, s', w, v); }
    }
    MovePlaces(w, w', q);
    forall u: nat | u < |s'.task| && s'.task[u].Sleeping?
      ensures exists p :: At(w', p, u)
    {
      var p :| At(w, p, u);
      assert At(w', Moved(w, p, q), u);
    }
  }

  lemma WakeChain(s: Sys, s': Sys, c: seq<nat>, q: nat)
    requires Chain(s, c, q, false) && c != [] && c[0] < |s.task| && s.task[c[0]].Sleeping?
    requires s'.task == s.task[c[0] := s.task[c[0]].(woken := true)]
    requires forall i :: 1 <= i < |c| ==> c[i] != c[0]
    ensures Chain(s', c, q, true)
  {
    forall i: nat | i < |c|
      ensures Link(s', c, q, i, true)
    {
      assert Link(s, c, q, i, false);
    }
  }

  function Moved(w: Waits, p: Place, q: nat): Place {
    if p.InQueue? && p.q == q then InWave(|w.waves|, p.i) else p
  }

  lemma MovePlaces(w: Waits, w': Waits, q: nat)
    requires Apart(w) && q < |w.queue| && w' == Waits(w.queue[q := []], w.waves + [w.queue[q]])
    ensures Apart(w')
    ensures forall p, u :: At(w, p, u) ==> At(w', Moved(w, p, q), u)
  {
    forall p, r, u | At(w', p, u) && At(w', r, u)
      ensures p == r
    {
      MovedFrom(w, w', q, p, u);
      MovedFrom(w, w', q, r, u);
    }
  }

  lemma MovedFrom(w: Waits, w': Waits, q: nat, p: Place, u: nat)
    requires q < |w.queue| && w' == Waits(w.queue[q := []], w.waves + [w.queue[q]]) && At(w', p, u)
    ensures exists o :: At(w, o, u) && p == Moved(w, o, q)
  {
    var o := if p.InWave? && p.v == |w.waves| then InQueue(q, p.i) else p;
    assert At(w, o, u) && p == Moved(w, o, q);
  }

  lemma FindWaveIs(waves: seq<seq<nat>>, t: nat, v: nat)
    requires v < |waves| && waves[v] != [] && waves[v][0] == t
    requires forall x: nat :: x < |waves| && x != v && waves[x] != [] ==> waves[x][0] != t
    ensures FindWave(waves, t) == v
  {
    if v > 0 {
      assert waves[0] != [] ==> waves[0][0] != t;
      FindWaveIs(waves[1..], t, v - 1);
    }
  }

  /** A woken sleeper is the head of a wave, and of one only. */
  lemma WokenHeadsWave(s: Sys, w: Waits, t: nat)
    requires Refines(s, w) && Enabled(s, Resume(t))
    ensures var v := FindWave(w.waves, t);
      v < |w.waves| && w.waves[v] != [] && w.waves[v][0] == t
  {
    var p :| At(w, p, t);
    ListedSleeps(s, w, p, t);
    forall x: nat | x < |w.waves| && x != p.v && w.waves[x] != []
      ensures w.waves[x][0] != t
    {
      assert At(w, InWave(x, 0), w.waves[x][0]);
    }
    FindWaveIs(w.waves, t, p.v);
  }

  lemma ResumeRefines(s: Sys, w: Waits, t: nat)
    requires Refines(s, w) && Enabled(s, Resume(t))
    ensures Refines(Do(s, Resume(t)), Ref(w, Resume(t)))
  {
    hide FindWave, Lists;
    WokenHeadsWave(s, w, t);
    var s', w' := Do(s, Resume(t)), Ref(w, Resume(t));
    var v := FindWave(w.waves, t);
    ResumeLists(s, w, t, v);
    ShortenPlaces(w, w', v);
    forall u: nat | u < |s'.task| && s'.task[u].Sleeping?
      ensures exists p :: At(w', p, u)
    {
      var p :| At(w, p, u);
      assert At(w', Shortened(p, v), u);
    }
  }

  lemma ResumeLists(s: Sys, w: Waits, t: nat, v: nat)
    requires Lists(s, w) && Apart(w) && Enabled(s, Resume(t)) && v < |w.waves| && w.waves[v] != [] && w.waves[v][0] == t
    ensures Lists(Do(s, Resume(t)), w.(waves := w.waves[v := w.waves[v][1..]]))
  {
    var s', w' := Do(s, Resume(t)), w.(waves := w.waves[v := w.waves[v][1..]]);
    var c := w.waves[v];
    assert Wave(s, c);
    var q: nat :| Chain(s, c, q, true);
    assert Link(s, c, q, 0, true);
    assert |c| > 1 ==> Link(s, c, q, 1, true);
    assert forall r: nat, i :: r < |w.queue| && 0 <= i < |w.queue[r]| ==> At(w, InQueue(r, i), w.queue[r][i]);
    assert forall x: nat, i :: x < |w.waves| && 0 <= i < |w.waves[x]| ==> At(w, InWave(x, i), w.waves[x][i]);
    forall r: nat | r < |w'.queue|
      ensures Chain(s', w'.queue[r], r, false)
    {
      ChainKept(s, s', w.queue[r], r, false);
    }
    assert Wave(s', c[1..]) by { ShortenChain(s, s', c, q); }
    forall x: nat | x < |w'.waves|
      ensures Wave(s', w'.waves[x])
    {
      if x != v { WaveKept(s, s', w, x); }
    }
  }

  lemma ShortenChain(s: Sys, s': Sys, c: seq<nat>, q: nat)
    requires Chain(s, c, q, true) && c != [] && |s'.task| == |s.task|
    requires |c| > 1 ==> c[1] < |s.task| && s.task[c[1]].Sleeping? && s'.task[c[1]] == s.task[c[1]].(woken := true)
    requires forall i :: 2 <= i < |c| && c[i] < |s.task| ==> s'.task[c[i]] == s.task[c[i]]
    ensures Chain(s', c[1..], q, true)
  {
    var d := c[1..];
    forall i: nat | i < |d|
      ensures Link(s', d, q, i, true)
    {
      assert Link(s, c, q, i + 1, true);
    }
  }

  function Shortened(p: Place, v: nat): Place {
    if p.InWave? && p.v == v && p.i > 0 then InWave(v, p.i - 1) else p
  }

  lemma ShortenPlaces(w: Waits, w': Waits, v: nat)
    requires Apart(w) && v < |w.waves| && w.waves[v] != [] && w' == w.(waves := w.waves[v := w.waves[v][1..]])
    ensures Apart(w')
    ensures forall p, u :: At(w, p, u) && p != InWave(v, 0) ==> At(w', Shortened(p, v), u)
  {
    forall p, r, u | At(w', p, u) && At(w', r, u)
      ensures p == r
    {
      ShortenedFrom(w, w', v, p, u);
      ShortenedFrom(w, w', v, r, u);
    }
  }

  lemma ShortenedFrom(w: Waits, w': Waits, v: nat, p: Place, u: nat)
    requires v < |w.waves| && w.waves[v] != [] && w' == w.(waves := w.waves[v := w.waves[v][1..]]) && At(w', p, u)
    ensures exists o :: At(w, o, u) && o != InWave(v, 0) && p == Shortened(o, v)
  {
    var o := if p.InWave? && p.v == v then InWave(v, p.i + 1) else p;
    assert At(w, o, u) && p == Shortened(o, v);
  }

  lemma StepRefines(s: Sys, w: Waits, a: Step)
    requires Refines(s, w) && Enabled(s, a)
    ensures Refines(Do(s, a), Ref(w, a))
  {
    match a
    case SleepOn(t, q) => SleepRefines(s, w, t, q);
    case WakeUp(q) => if w.queue[q] != [] { WakeRefines(s, w, q); }
    case Resume(t) => ResumeRefines(s, w, t);
  }

  // ---------------------------------------------------------------- runs

  /** A run of the kernel beside the reference machine; steps that are not enabled are skipped. */
  ghost function Run(s: Sys, w: Waits, steps: seq<Step>): (r: (Sys, Waits))
    requires Refines(s, w)
    ensures Refines(r.0, r.1)
    decreases |steps|
  {
    if steps == [] then (s, w)
    else if Enabled(s, steps[0]) then
      StepRefines(s, w, steps[0]);
      Run(Do(s, steps[0]), Ref(w, steps[0]), steps[1..])
    else Run(s, w, steps[1..])
  }

  /** Nobody asleep: where every run starts. */
  lemma AllAwake(queues: nat, tasks: nat)
    ensures Refines(Sys(seq(queues, _ => None), seq(tasks, _ => Awake)), Waits(seq(queues, _ => []), []))
  {
  }

  /** `u` is reached from `t` along saved `tmp` links, in `n` hops. */
  ghost predicate Reaches(s: Sys, t: nat, n: nat, u: nat)
    decreases n
  {
    if n == 0 then t == u
    else t < |s.task| && s.task[t].Sleeping? && s.task[t].tmp.Some? && Reaches(s, s.task[t].tmp.value, n - 1, u)
  }

  lemma ChainReaches(s: Sys, c: seq<nat>, q: nat, wave: bool, i: nat, j: nat)
    requires Chain(s, c, q, wave) && i <= j < |c|
    ensures Reaches(s, c[i], j - i, c[j])
    decreases j - i
  {
    if i < j {
      assert Link(s, c, q, i, wave);
      ChainReaches(s, c, q, wave, i + 1, j);
    }
  }

  /**
    No lost wake-up.  In every reachable state a sleeper is reached along saved links either from
    the head of its own queue or from a task that has been woken and has not resumed yet.
   */
  lemma NoLostWakeup(s: Sys, w: Waits, steps: seq<Step>, t: nat)
    requires Refines(s, w) && var r := Run(s, w, steps).0; t < |r.task| && r.task[t].Sleeping?
    ensures var r := Run(s, w, steps).0;
      exists u: nat, n: nat :: Reaches(r, u, n, t) && u < |r.task| && r.task[u].Sleeping? &&
        (r.task[u].woken || (r.task[t].queue < |r.head| && r.head[r.task[t].queue] == Some(u)))
  {
    var (r, z) := Run(s, w, steps);
    var p :| At(z, p, t);
    ListedSleeps(r, z, p, t);
    match p
    case InQueue(q, i) =>
      ChainReaches(r, z.queue[q], q, false, 0, i);
      assert At(z, InQueue(q, 0), z.queue[q][0]);
      ListedSleeps(r, z, InQueue(q, 0), z.queue[q][0]);
    case InWave(v, i) =>
      assert Wave(r, z.waves[v]);
      var q: nat :| Chain(r, z.waves[v], q, true);
      ChainReaches(r, z.waves[v], q, true, 0, i);
      assert At(z, InWave(v, 0), z.waves[v][0]);
      ListedSleeps(r, z, InWave(v, 0), z.waves[v][0]);
  }

  /** How a task in a wave moves in one step: up one place when the head resumes, else not at all. */
  lemma WaveStep(s: Sys, w: Waits, a: Step, t: nat, v: nat, i: nat)
    requires Refines(s, w) && Enabled(s, a) && At(w, InWave(v, i), t) && a != Resume(t)
    ensures At(Ref(w, a), InWave(v, if a == Resume(w.waves[v][0]) then i - 1 else i), t)
    ensures a == Resume(w.waves[v][0]) ==> i > 0
  {
    if a.Resume? {
      WokenHeadsWave(s, w, a.t);
      var x := FindWave(w.waves, a.t);
      assert At(w, InWave(x, 0), a.t);
      assert At(w, InWave(v, 0), w.waves[v][0]);
    }
  }

  /** Resumptions, in this run, of the tasks that stand before `t` in wave `v`. */
  ghost function Ahead(s: Sys, w: Waits, steps: seq<Step>, v: nat): nat
    requires Refines(s, w)
    decreases |steps|
  {
    if steps == [] then 0
    else if Enabled(s, steps[0]) then
      StepRefines(s, w, steps[0]);
      (if v < |w.waves| && w.waves[v] != [] && steps[0] == Resume(w.waves[v][0]) then 1 else 0)
      + Ahead(Do(s, steps[0]), Ref(w, steps[0]), steps[1..], v)
    else Ahead(s, w, steps[1..], v)
  }

  /**
    A task that a wake_up has yet to reach is woken as soon as the tasks before it have resumed,
    whatever other sleeps and wake-ups are mixed in: after `k` of them it stands at place `i - k`,
    and at place 0 it is woken.
   */
  lemma {:induction false} WaveAdvances(s: Sys, w: Waits, steps: seq<Step>, t: nat, v: nat, i: nat)
    requires Refines(s, w) && At(w, InWave(v, i), t) && Resume(t) !in steps
    ensures Ahead(s, w, steps, v) <= i
    ensures At(Run(s, w, steps).1, InWave(v, i - Ahead(s, w, steps, v)), t)
    ensures Ahead(s, w, steps, v) == i ==> Enabled(Run(s, w, steps).0, Resume(t))
    decreases |steps|
  {
    if steps == [] {
      ListedSleeps(s, w, InWave(v, i), t);
    } else if Enabled(s, steps[0]) {
      StepRefines(s, w, steps[0]);
      WaveStep(s, w, steps[0], t, v, i);
      var i' := if steps[0] == Resume(w.waves[v][0]) then i - 1 else i;
      WaveAdvances(Do(s, steps[0]), Ref(w, steps[0]), steps[1..], t, v, i');
    } else {
      WaveAdvances(s, w, steps[1..], t, v, i);
    }
  }

  /** The resumptions of a list of tasks, in order. */
  function ResumeAll(c: seq<nat>): seq<Step> {
    if c == [] then [] else [Resume(c[0])] + ResumeAll(c[1..])
  }

  /** With nobody else in the way, n resumptions empty a wave of n tasks: all are awake. */
  lemma {:induction false} WaveDrains(s: Sys, w: Waits, v: nat, c: seq<nat>)
    requires Refines(s, w) && v < |w.waves| && w.waves[v] == c
    ensures |ResumeAll(c)| == |c|
    ensures forall i :: 0 <= i < |c| ==> var r := Run(s, w, ResumeAll(c)).0; c[i] < |r.task| && r.task[c[i]].Awake?
    ensures var r := Run(s, w, ResumeAll(c)).0;
      |r.task| == |s.task| && r.head == s.head && forall t :: 0 <= t < |s.task| && t !in c ==> r.task[t] == s.task[t]
    decreases |c|
  {
    if c != [] {
      assert At(w, InWave(v, 0), c[0]);
      ListedSleeps(s, w, InWave(v, 0), c[0]);
      var a := Resume(c[0]);
      StepRefines(s, w, a);
      WokenHeadsWave(s, w, c[0]);
      assert At(w, InWave(FindWave(w.waves, c[0]), 0), c[0]);
      var s', w' := Do(s, a), Ref(w, a);
      assert w'.waves[v] == c[1..];
      WaveDrains(s', w', v, c[1..]);
      assert ResumeAll(c)[1..] == ResumeAll(c[1..]);
      ResumeTouches(s, w, v, c);
      forall j | 1 <= j < |c| ensures c[j] != c[0] {
        assert At(w, InWave(v, j), c[j]);
      }
      forall t | 0 <= t < |s.task| && t !in c ensures s'.task[t] == s.task[t] { }
    }
  }

  lemma ResumeTouches(s: Sys, w: Waits, v: nat, c: seq<nat>)
    requires Refines(s, w) && v < |w.waves| && w.waves[v] == c && c != [] && Enabled(s, Resume(c[0]))
    ensures var s' := Do(s, Resume(c[0]));
      && |s'.task| == |s.task| && s'.head == s.head && s'.task[c[0]].Awake?
      && forall t :: 0 <= t < |s.task| && t !in c ==> s'.task[t] == s.task[t]
  {
    assert Wave(s, c);
    var q: nat :| Chain(s, c, q, true);
    assert Link(s, c, q, 0, true);
    assert |c| > 1 ==> c[1] != c[0] by {
      if |c| > 1 { assert At(w, InWave(v, 0), c[0]) && At(w, InWave(v, 1), c[1]); }
    }
  }

  // ---------------------------------------------------------------- wake_up, by the links alone

  predicate Saves(s: Sys, c: seq<nat>, i: nat) {
    && i < |c| && c[i] < |s.task| && s.task[c[i]].Sleeping?
    && s.task[c[i]].tmp == if i + 1 < |c| then Some(c[i + 1]) else None
  }

  /** The queue's pointer and the pointers that sleepers have saved lead through the tasks `c`, and end there. */
  ghost predicate Spells(s: Sys, q: nat, c: seq<nat>) {
    && q < |s.head| && s.head[q] == (if c == [] then None else Some(c[0]))
    && forall i: nat :: i < |c| ==> Saves(s, c, i)
  }

  lemma RefinesSpells(s: Sys, w: Waits, q: nat)
    requires Refines(s, w) && q < |s.head|
    ensures Spells(s, q, w.queue[q])
  {
    forall i: nat | i < |w.queue[q]|
      ensures Saves(s, w.queue[q], i)
    {
      assert Link(s, w.queue[q], q, i, false);
    }
  }

  /** Pointers that end somewhere do not pass a task twice. */
  lemma {:induction false} NoLoop(s: Sys, c: seq<nat>, i: nat, j: nat)
    requires i < j < |c| && forall k: nat :: k < |c| ==> Saves(s, c, k)
    ensures c[i] != c[j]
    decreases |c| - j
  {
    assert Saves(s, c, i) && Saves(s, c, j);
    if j + 1 < |c| { NoLoop(s, c, i + 1, j + 1); }
  }

  /** The steps one after the other, if each is possible. */
  function Steps(s: Sys, steps: seq<Step>): Option<Sys>
    decreases |steps|
  {
    if steps == [] then Some(s) else if Enabled(s, steps[0]) then Steps(Do(s, steps[0]), steps[1..]) else None
  }

  function AwakeIn(task: seq<Phase>, c: seq<nat>): seq<Phase> {
    seq(|task|, i requires 0 <= i < |task| => if i in c then Awake else task[i])
  }

  lemma {:induction false} Drains(s: Sys, c: seq<nat>)
    requires forall i: nat :: i < |c| ==> Saves(s, c, i)
    requires c != [] ==> c[0] < |s.task| && s.task[c[0]].Sleeping? && s.task[c[0]].woken
    ensures Steps(s, ResumeAll(c)) == Some(s.(task := AwakeIn(s.task, c)))
    decreases |c|
  {
    if c == [] {
      assert AwakeIn(s.task, c) == s.task;
    } else {
      HeadResumes(s, c);
      hide Saves, AwakeIn, Do;
      Drains(Do(s, Resume(c[0])), c[1..]);
      assert ResumeAll(c)[1..] == ResumeAll(c[1..]);
    }
  }

  lemma HeadResumes(s: Sys, c: seq<nat>)
    requires c != [] && forall i: nat :: i < |c| ==> Saves(s, c, i)
    requires c[0] < |s.task| && s.task[c[0]].Sleeping? && s.task[c[0]].woken
    ensures var s', d := Do(s, Resume(c[0])), c[1..];
      && (forall i: nat :: i < |d| ==> Saves(s', d, i)) && s'.head == s.head
      && (d != [] ==> d[0] < |s'.task| && s'.task[d[0]].Sleeping? && s'.task[d[0]].woken)
      && AwakeIn(s'.task, d) == AwakeIn(s.task, c)
  {
    var s', d := Do(s, Resume(c[0])), c[1..];
    assert Saves(s, c, 0);
    if d != [] { assert Saves(s, c, 1); NoLoop(s, c, 0, 1); }
    forall i: nat | i < |d|
      ensures Saves(s', d, i)
    {
      NoLoop(s, c, 0, i + 1);
      assert Saves(s, c, i + 1);
    }
    assert forall t :: 0 <= t < |s.task| && t !in c ==> s'.task[t] == s.task[t];
  }

  /**
    wake_up clears the queue and wakes its head; and when the tasks that the saved pointers lead to
    resume one after the other, each can, in the end all of them are awake, and no other has changed.
   */
  lemma WakeUpReachesAll(s: Sys, q: nat, c: seq<nat>)
    requires Spells(s, q, c)
    ensures var s' := Do(s, WakeUp(q));
      && s'.head == s.head[q := None] && |s'.task| == |s.task|
      && (c != [] ==> c[0] < |s.task| && s'.task[c[0]].Sleeping? && s'.task[c[0]].woken)
      && Steps(s', ResumeAll(c)) == Some(Sys(s.head[q := None], AwakeIn(s.task, c)))
  {
    var s' := Do(s, WakeUp(q));
    if c == [] {
      assert s.head[q := None] == s.head && AwakeIn(s.task, c) == s.task;
    } else {
      assert Saves(s, c, 0);
      forall i: nat | i < |c| ensures Saves(s', c, i) { assert Saves(s, c, i); }
      Drains(s', c);
      assert AwakeIn(s'.task, c) == AwakeIn(s.task, c);
    }
  }

  /** sleep_on puts the task in front and disturbs no other queue. */
  lemma SleepOnSpells(s: Sys, t: nat, q: nat, c: seq<nat>, r: nat, d: seq<nat>)
    requires Enabled(s, SleepOn(t, q)) && Spells(s, q, c) && Spells(s, r, d) && r != q
    ensures Spells(Do(s, SleepOn(t, q)), q, [t] + c) && Spells(Do(s, SleepOn(t, q)), r, d)
  {
    var s' := Do(s, SleepOn(t, q));
    forall i: nat | i < |c| + 1
      ensures Saves(s', [t] + c, i)
    {
      if i > 0 { assert Saves(s, c, i - 1); }
    }
    forall i: nat | i < |d| ensures Saves(s', d, i) { assert Saves(s, d, i); }
  }

  /**
    So no sleeper is forgotten by wake_up: a task that stands at place `i` of a queue is woken as soon
    as the `i` tasks before it have resumed after the wake_up, whatever else happens in between.
   */
  lemma WakeUpIsPassedOn(s: Sys, w: Waits, q: nat, t: nat, i: nat, steps: seq<Step>)
    requires Refines(s, w) && At(w, InQueue(q, i), t) && Resume(t) !in steps
    ensures Enabled(s, WakeUp(q)) && Refines(Do(s, WakeUp(q)), Ref(w, WakeUp(q)))
    ensures var s', w', v := Do(s, WakeUp(q)), Ref(w, WakeUp(q)), |w.waves|;
      Ahead(s', w', steps, v) <= i && (Ahead(s', w', steps, v) == i ==> Enabled(Run(s', w', steps).0, Resume(t)))
  {
    StepRefines(s, w, WakeUp(q));
    WaveAdvances(Do(s, WakeUp(q)), Ref(w, WakeUp(q)), steps, t, |w.waves|, i);
  }

  // ---------------------------------------------------------------- the code

  /** The wait queues and the tasks' `state` and `tmp`, changed in place; `waits` is ghost. */
  class Kernel {
    const head: array<Option<nat>>
    const task: array<Phase>
    ghost var waits: Waits

    ghost function View(): Sys
      reads head, task
    {
      Sys(head[..], task[..])
    }

    ghost predicate Valid()
      reads this, head, task
    {
      head as object != task && Refines(View(), waits)
    }

    constructor (queues: nat, tasks: nat)
      ensures Valid() && fresh(head) && fresh(task) && head.Length == queues && task.Length == tasks
      ensures forall t :: 0 <= t < tasks ==> task[t].Awake?
    {
      head := new Option<nat>[queues](_ => None);
      task := new Phase[tasks](_ => Awake);
      waits := Waits(seq(queues, _ => []), []);
      new;
      AllAwake(queues, tasks);
      assert head[..] == seq(queues, _ => None);
      assert task[..] == seq(tasks, _ => Awake);
    }

    /** sleep_on up to its call of schedule. */
    method SleepOnEnter(current: nat, q: nat)
      requires Valid() && Enabled(View(), SleepOn(current, q))
      modifies this, head, task
      ensures Valid() && View() == Do(old(View()), SleepOn(current, q)) && waits == Ref(old(waits), SleepOn(current, q))
    {
      StepRefines(View(), waits, SleepOn(current, q));
      var tmp := head[q];
      head[q] := Some(current);
      task[current] := Sleeping(q, tmp, false);
      waits := Ref(waits, SleepOn(current, q));
    }

    /** sleep_on after schedule has come back to it. */
    method SleepOnExit(current: nat)
      requires Valid() && Enabled(View(), Resume(current))
      modifies this, task
      ensures Valid() && View() == Do(old(View()), Resume(current)) && waits == Ref(old(waits), Resume(current))
    {
      StepRefines(View(), waits, Resume(current));
      var tmp := task[current].tmp;
      task[current] := Awake;
      if tmp.Some? { WakeTask(tmp.value); }
      waits := Ref(waits, Resume(current));
    }

    method WakeTask(t: nat)
      requires head as object != task
      modifies task
      ensures task[..] == SetRunning(old(task[..]), t)
    {
      if t < task.Length && task[t].Sleeping? {
        task[t] := task[t].(woken := true);
      }
    }

    method WakeUp(q: nat)
      requires Valid() && q < head.Length
      modifies this, head, task
      ensures Valid() && View() == Do(old(View()), Step.WakeUp(q)) && waits == Ref(old(waits), Step.WakeUp(q))
      ensures head[..] == old(head[..])[q := None]
      ensures old(head[q]).Some? ==>
        old(head[q]).value < task.Length && task[old(head[q]).value].Sleeping? && task[old(head[q]).value].woken
    {
      RefinesSpells(View(), waits, q);
      WakeUpReachesAll(View(), q, waits.queue[q]);
      StepRefines(View(), waits, Step.WakeUp(q));
      if head[q].Some? {
        WakeTask(head[q].value);
        head[q] := None;
      }
      waits := Ref(waits, Step.WakeUp(q));
    }
  }
}
