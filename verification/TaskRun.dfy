/**
  Runs of task_create, sys_fork and task_free of nctuos, in any order and with any number of tasks
  alive at once: no page is lost, none is given out twice, and what a task took comes back when it is
  freed, whatever happened in between.
 */
module TaskRun {
  import opened Common
  import opened PageModel
  import opened PageTables
  import opened TaskMemory

  /** No other mapping that holds a reference names the page at `v`. */
  ghost predicate Solo(m: Mem, d: nat, v: nat) {
    forall x :: x in m.counted && Translate(m, x.0, x.1).page == Translate(m, d, v).page ==> x == (d, v)
  }

  /** A task's directory: its references are its stack pages, and each is its own. */
  ghost predicate IsTask(m: Mem, d: nat) {
    && (forall v: nat :: (d, v) in m.counted <==> InStack(v))
    && (forall v: nat :: InStack(v) ==> Solo(m, d, v))
  }

  ghost predicate TakenBySome(m: Mem, f: nat) {
    exists d: nat :: d in m.dirs && Taken(m, d, f)
  }

  /** The pages of `all` are the free ones and those that some task has taken. */
  ghost predicate Housed(m: Mem, all: set<nat>) {
    && Inv(m) && (forall d: nat :: d in m.dirs ==> IsTask(m, d))
    && (forall f: nat :: f in all <==> f in m.free || TakenBySome(m, f))
  }

  lemma BootHoused(m: Mem, all: set<nat>)
    requires Inv(m) && m.dirs == {} && forall f: nat :: f in all <==> f in m.free
    ensures Housed(m, all)
  {
  }

  // ---------------------------------------------------------------- pages have one use

  lemma StackPage(m: Mem, d: nat, f: nat) returns (v: nat)
    requires Inv(m) && StackOf(m, d, f)
    ensures (d, v) in m.counted && Translate(m, d, v).page == f && d in m.dirs && v < VPAGES && Ordinary(m, f)
    ensures f !in m.free
  {
    v :| (d, v) in m.counted && Translate(m, d, v).page == f;
    assert (d, v).0 in m.dirs && (d, v).1 < VPAGES;
    CountedPage(m, d, v);
  }

  /** No page is free and taken. */
  lemma TakenNotFree(m: Mem, d: nat, f: nat)
    requires Inv(m) && d in m.dirs && Taken(m, d, f)
    ensures f !in m.free
  {
    if StackOf(m, d, f) { var v := StackPage(m, d, f); }
    if TableOf(m, d, f) { var i: nat :| IsTable(m, d, i, f); }
  }

  /** No page is taken by two tasks. */
  lemma TakenApart(m: Mem, all: set<nat>, d: nat, e: nat, f: nat)
    requires Housed(m, all) && d in m.dirs && e in m.dirs && Taken(m, d, f) && Taken(m, e, f)
    ensures d == e
  {
    if StackOf(m, d, f) {
      var v := StackPage(m, d, f);
      OrdinaryTables(m, f);
      var u := StackPage(m, e, f);
      assert IsTask(m, d) && Solo(m, d, v);
    } else if TableOf(m, d, f) {
      TablesApart(m, d, e, f);
    } else {
      TablesApart(m, e, d, f);
    }
  }

  lemma TablesApart(m: Mem, d: nat, e: nat, f: nat)
    requires Inv(m) && e in m.dirs && Taken(m, e, f) && (TableOf(m, d, f) || (f == d && d in m.dirs))
    ensures d == e
  {
    OrdinaryTables(m, f);
    if StackOf(m, e, f) { var u := StackPage(m, e, f); }
    if TableOf(m, d, f) {
      var i: nat :| IsTable(m, d, i, f);
      if TableOf(m, e, f) { var j: nat :| IsTable(m, e, j, f); }
    }
  }

  // ---------------------------------------------------------------- what one step keeps

  datatype Event = Made(d: nat) | Gone(d: nat) | Nothing

  /** A new task out of free pages, or a task's pages free again. */
  ghost predicate Next(m: Mem, e: Event, m': Mem) {
    match e
    case Made(d) => Inv(m') && exists regions :: Child(m, m', d, regions, true)
    case Gone(d) => Inv(m') && d in m.dirs && Freed(m, m', d)
    case Nothing => m' == m
  }

  /** The other tasks have the pages they had. */
  lemma TakenKept(m: Mem, e: Event, m': Mem, c: nat, f: nat)
    requires Inv(m) && Next(m, e, m') && c in m.dirs && e != Gone(c)
    ensures c in m'.dirs && (Taken(m', c, f) <==> Taken(m, c, f))
  {
    hide Inv, Translate;
    OthersStand(m, e, m', c);
    if StackOf(m, c, f) {
      var v := StackPage(m, c, f);
      assert (c, v) in m'.counted;
    }
    if StackOf(m', c, f) {
      var v := StackPage(m', c, f);
      assert (c, v) in m.counted;
    }
  }

  lemma OthersStand(m: Mem, e: Event, m': Mem, c: nat)
    requires Inv(m) && Next(m, e, m') && c in m.dirs && e != Gone(c)
    ensures Inv(m') && c in m'.dirs && forall f: nat :: TableOf(m', c, f) <==> TableOf(m, c, f)
    ensures forall v: nat :: (c, v) in m'.counted <==> (c, v) in m.counted
    ensures forall v: nat :: v < VPAGES ==> Translate(m', c, v) == Translate(m, c, v)
  {
    match e
    case Made(d) =>
      var regions :| Child(m, m', d, regions, true);
    case Gone(d) =>
    case Nothing =>
  }

  lemma MadeTask(m: Mem, m': Mem, d: nat, regions: seq<Region>)
    requires Inv(m) && Inv(m') && Child(m, m', d, regions, true)
    ensures IsTask(m', d)
    ensures forall v: nat :: InStack(v) ==> Translate(m', d, v).page in m.free
  {
    ChildCounted(m, m', d, regions, true);
    forall v: nat | InStack(v)
      ensures Solo(m', d, v) && Translate(m', d, v).page in m.free
    {
      assert OwnPage(m', d, v) && (d, v) in m'.counted;
      assert Taken(m', d, Translate(m', d, v).page);
      forall x | x in m'.counted && Translate(m', x.0, x.1).page == Translate(m', d, v).page
        ensures x == (d, v)
      {
        SoleMapping(m', (d, v), x);
      }
    }
  }

  lemma MadeTasks(m: Mem, m': Mem, d: nat, regions: seq<Region>, c: nat)
    requires Inv(m) && Inv(m') && Child(m, m', d, regions, true) && c in m.dirs && IsTask(m, c)
    ensures IsTask(m', c)
  {
    hide Translate;
    MadeTask(m, m', d, regions);
    forall v: nat | InStack(v)
      ensures Solo(m', c, v)
    {
      assert Solo(m, c, v) && (c, v) in m.counted;
      CountedPage(m, c, v);
      forall x | x in m'.counted && Translate(m', x.0, x.1).page == Translate(m', c, v).page
        ensures x == (c, v)
      {
        CountedIn(m, m', d, regions, x);
      }
    }
  }

  lemma CountedIn(m: Mem, m': Mem, d: nat, regions: seq<Region>, x: (nat, nat))
    requires Inv(m) && Inv(m') && Child(m, m', d, regions, true) && x in m'.counted
    ensures if x in m.counted then Translate(m', x.0, x.1) == Translate(m, x.0, x.1) else x == (d, x.1) && InStack(x.1)
  {
  }

  lemma MadeHoused(m: Mem, m': Mem, d: nat, regions: seq<Region>, all: set<nat>)
    requires Housed(m, all) && Inv(m') && Child(m, m', d, regions, true)
    ensures Housed(m', all)
  {
    hide Inv, Child;
    MadeTask(m, m', d, regions);
    MadeDirs(m, m', d, regions);
    assert Next(m, Made(d), m');
    forall c: nat | c in m'.dirs
      ensures IsTask(m', c)
    {
      if c != d { MadeTasks(m, m', d, regions, c); }
    }
    forall f: nat
      ensures f in all <==> f in m'.free || TakenBySome(m', f)
    {
      forall c: nat | c in m.dirs
        ensures Taken(m', c, f) <==> Taken(m, c, f)
      {
        TakenKept(m, Made(d), m', c, f);
      }
    }
  }

  lemma MadeDirs(m: Mem, m': Mem, d: nat, regions: seq<Region>)
    requires Child(m, m', d, regions, true)
    ensures d !in m.dirs && m'.dirs == m.dirs + {d} && Balance(m, m', d)
  {
  }

  lemma GoneHoused(m: Mem, m': Mem, d: nat, all: set<nat>)
    requires Housed(m, all) && Inv(m') && d in m.dirs && Freed(m, m', d)
    ensures Housed(m', all) && forall f: nat :: f in m'.free <==> f in m.free || Taken(m, d, f)
  {
    hide Inv, Freed;
    assert Next(m, Gone(d), m');
    GoneFree(m, m', d, all);
    forall c: nat | c in m'.dirs
      ensures IsTask(m', c)
    {
      GoneTasks(m, m', d, c);
    }
    forall f: nat
      ensures f in all <==> f in m'.free || TakenBySome(m', f)
    {
      forall c: nat | c in m.dirs && c != d
        ensures Taken(m', c, f) <==> Taken(m, c, f)
      {
        TakenKept(m, Gone(d), m', c, f);
      }
    }
  }

  lemma GoneTasks(m: Mem, m': Mem, d: nat, c: nat)
    requires Inv(m) && Freed(m, m', d) && c in m'.dirs && IsTask(m, c)
    ensures IsTask(m', c) && c in m.dirs && c != d
  {
    hide Translate;
    forall v: nat | InStack(v)
      ensures Solo(m', c, v)
    {
      assert Solo(m, c, v) && (c, v) in m.counted;
      forall x | x in m'.counted && Translate(m', x.0, x.1).page == Translate(m', c, v).page
        ensures x == (c, v)
      {
        assert x in m.counted && x.0 in m.dirs && x.1 < VPAGES;
      }
    }
  }

  lemma GoneFree(m: Mem, m': Mem, d: nat, all: set<nat>)
    requires Housed(m, all) && d in m.dirs && Freed(m, m', d)
    ensures m'.dirs == m.dirs - {d} && forall f: nat :: f in m'.free <==> f in m.free || Taken(m, d, f)
  {
    forall f: nat | StackOf(m, d, f)
      ensures OnlyHolder(m, d, f)
    {
      var v := StackPage(m, d, f);
      assert IsTask(m, d) && Solo(m, d, v);
    }
  }

  lemma NextHoused(m: Mem, e: Event, m': Mem, all: set<nat>)
    requires Housed(m, all) && Next(m, e, m')
    ensures Housed(m', all)
  {
    hide Inv, Child, Freed, Housed;
    match e
    case Made(d) =>
      var regions :| Child(m, m', d, regions, true);
      MadeHoused(m, m', d, regions, all);
    case Gone(d) => GoneHoused(m, m', d, all);
    case Nothing =>
  }

  // ---------------------------------------------------------------- runs

  ghost predicate IsRun(states: seq<Mem>, events: seq<Event>) {
    |states| == |events| + 1 && forall i :: 0 <= i < |events| ==> Next(states[i], events[i], states[i + 1])
  }

  /** In every state of every run the free pages and those of the live tasks are the same pages as at the start. */
  lemma {:induction false} RunHoused(states: seq<Mem>, events: seq<Event>, all: set<nat>, n: nat)
    requires IsRun(states, events) && Housed(states[0], all) && n < |states|
    ensures Housed(states[n], all)
  {
    hide Next, Housed;
    if n > 0 {
      RunHoused(states, events, all, n - 1);
      NextHoused(states[n - 1], events[n - 1], states[n], all);
    }
  }

  /** Between two points of a run a task that is not freed keeps exactly its pages. */
  lemma {:induction false} RunTaken(states: seq<Mem>, events: seq<Event>, all: set<nat>, i: nat, j: nat, c: nat, f: nat)
    requires IsRun(states, events) && Housed(states[0], all) && i <= j < |states| && c in states[i].dirs
    requires forall k :: i <= k < j ==> events[k] != Gone(c)
    ensures c in states[j].dirs && (Taken(states[j], c, f) <==> Taken(states[i], c, f))
  {
    hide Next, Housed, Taken;
    if i < j {
      RunTaken(states, events, all, i, j - 1, c, f);
      RunHoused(states, events, all, j - 1);
      HousedInv(states[j - 1], all);
      TakenKept(states[j - 1], events[j - 1], states[j], c, f);
    }
  }

  lemma HousedInv(m: Mem, all: set<nat>)
    requires Housed(m, all)
    ensures Inv(m)
  {
  }

  /**
    A fork and a later task_free of its child, with any other forks and frees in between: the pages
    that become free are exactly those that the fork took.
   */
  lemma FreeUndoesFork(states: seq<Mem>, events: seq<Event>, all: set<nat>, i: nat, j: nat, d: nat, f: nat)
    requires IsRun(states, events) && Housed(states[0], all) && i < j < |events|
    requires events[i] == Made(d) && events[j] == Gone(d) && forall k :: i < k < j ==> events[k] != Gone(d)
    ensures (f in states[j + 1].free && f !in states[j].free) <==> (f in states[i].free && f !in states[i + 1].free)
    ensures f in states[j].free ==> f in states[j + 1].free
    ensures f in states[i + 1].free ==> f in states[i].free
  {
    hide Inv, Child, Freed, Housed, Taken;
    RunHoused(states, events, all, i);
    RunHoused(states, events, all, i + 1);
    RunHoused(states, events, all, j);
    RunHoused(states, events, all, j + 1);
    HousedInv(states[j], all);
    HousedInv(states[i + 1], all);
    assert Next(states[i], events[i], states[i + 1]) && Next(states[j], events[j], states[j + 1]);
    var regions :| Child(states[i], states[i + 1], d, regions, true);
    MadeDirs(states[i], states[i + 1], d, regions);
    RunTaken(states, events, all, i + 1, j, d, f);
    GoneHoused(states[j], states[j + 1], d, all);
    if Taken(states[j], d, f) {
      TakenNotFree(states[j], d, f);
      TakenNotFree(states[i + 1], d, f);
    }
  }

  /** When every task made in a run has been freed and none of the first ones has, all is as at the start. */
  lemma RunRestores(states: seq<Mem>, events: seq<Event>, all: set<nat>)
    requires IsRun(states, events) && Housed(states[0], all) && states[|events|].dirs == states[0].dirs
    requires forall k :: 0 <= k < |events| ==> !(events[k].Gone? && events[k].d in states[0].dirs)
    ensures forall f: nat :: f in states[|events|].free <==> f in states[0].free
    ensures |states[|events|].free| == |states[0].free|
  {
    hide Next, Taken;
    var m, m' := states[0], states[|events|];
    RunHoused(states, events, all, |events|);
    forall f: nat
      ensures f in m'.free <==> f in m.free
    {
      forall c: nat | c in m.dirs
        ensures Taken(m', c, f) <==> Taken(m, c, f)
      {
        RunTaken(states, events, all, 0, |events|, c, f);
      }
      forall c: nat | c in m.dirs && Taken(m, c, f)
        ensures f !in m.free && f !in m'.free
      {
        TakenNotFree(m, c, f);
        TakenNotFree(m', c, f);
      }
    }
    SameLength(m'.free, m.free);
  }

  datatype Step = Start | Fork(parent: nat) | Kill(task: nat)

  /** A task of a run can be forked and freed. */
  lemma TaskReady(m: Mem, all: set<nat>, d: nat)
    requires Housed(m, all) && d in m.dirs
    ensures StackOnly(m, d) && forall v: nat :: InStack(v) ==> (d, v) in m.counted
  {
    assert IsTask(m, d);
  }

  lemma MadeIsNext(m: Mem, m': Mem, d: nat, regions: seq<Region>)
    requires Inv(m') && Child(m, m', d, regions, true)
    ensures Next(m, Made(d), m') && m'.dirs == m.dirs + {d}
  {
  }

  lemma GoneIsNext(m: Mem, m': Mem, d: nat)
    requires Inv(m') && d in m.dirs && Freed(m, m', d)
    ensures Next(m, Gone(d), m') && m'.dirs == m.dirs - {d}
  {
  }

  /** What a step comes to: a first task, a fork, a freed task, or nothing if there is no such task. */
  ghost predicate Does(m: Mem, a: Step, kernel: seq<Region>, user: seq<Region>, e: Event, m': Mem) {
    match a
    case Start => e.Made? && Child(m, m', e.d, kernel + user, true) && |m'.free| == |m.free| - Needs(kernel + user)
    case Fork(p) =>
      if p in m.dirs then e.Made? && Forked(m, m', p, e.d, kernel, user) && |m'.free| == |m.free| - Needs(kernel + user)
      else e == Nothing
    case Kill(d) => e == if d in m.dirs then Gone(d) else Nothing
  }

  /** A new task is asked for and there are fewer free pages than it takes. */
  ghost predicate TooFew(m: Mem, a: Step, kernel: seq<Region>, user: seq<Region>) {
    (a.Start? || (a.Fork? && a.parent in m.dirs)) && |m.free| < Needs(kernel + user)
  }

  /** task_create and setupvm for a first task, sys_fork, or task_free; `stuck` when there are too few pages. */
  method Do(mm: Memory, ghost all: set<nat>, live: set<nat>, kernel: seq<Region>, user: seq<Region>, a: Step)
    returns (stuck: bool, live': set<nat>, ghost e: Event)
    requires mm.Valid() && Housed(mm.View(), all) && live == mm.dirs
    requires forall i :: 0 <= i < |kernel| ==> GoodRegion(kernel[i])
    requires forall i :: 0 <= i < |user| ==> GoodRegion(user[i])
    modifies mm, mm.link, mm.phys, mm.ref
    ensures stuck <==> TooFew(old(mm.View()), a, kernel, user)
    ensures !stuck ==> mm.Valid() && live' == mm.dirs && Next(old(mm.View()), e, mm.View())
    ensures !stuck ==> Does(old(mm.View()), a, kernel, user, e, mm.View())
  {
    hide Inv, Housed, Child, Forked, Freed, StackOnly, Next, Needs, Present, DirsOf, StackDirs, Spends, Short;
    ghost var m := mm.View();
    NothingIsNext(m);
    stuck, live', e := false, live, Nothing;
    match a {
      case Start =>
        NeedsMore(kernel, user);
        var ok, d := TaskCreate(mm, kernel);
        if ok {
          ghost var m1 := mm.View();
          ok := SetupUser(mm, m, d, kernel, user);
          UserNeeds(m1, mm.View(), d, kernel, user, ok, |m.free|);
        }
        if !ok { return true, live, e; }
        MadeIsNext(m, mm.View(), d, kernel + user);
        live', e := live + {d}, Made(d);
      case Fork(p) =>
        if p !in live { return; }
        TaskReady(m, all, p);
        var ok, d := SysFork(mm, p, kernel, user);
        if !ok { return true, live, e; }
        ForkIsChild(m, mm.View(), p, d, kernel, user);
        MadeIsNext(m, mm.View(), d, kernel + user);
        live', e := live + {d}, Made(d);
      case Kill(d) =>
        if d !in live { return; }
        TaskReady(m, all, d);
        TaskFree(mm, d);
        GoneIsNext(m, mm.View(), d);
        live', e := live - {d}, Gone(d);
    }
  }

  lemma NothingIsNext(m: Mem)
    ensures Next(m, Nothing, m)
  {
  }

  lemma ForkIsChild(m: Mem, m': Mem, p: nat, d: nat, kernel: seq<Region>, user: seq<Region>)
    requires Forked(m, m', p, d, kernel, user)
    ensures Child(m, m', d, kernel + user, true)
  {
  }

  /** What the code does to the pages of a machine that has just booted is such a run, one event for each step. */
  method Run(mm: Memory, kernel: seq<Region>, user: seq<Region>, steps: seq<Step>)
    returns (stuck: bool, ghost states: seq<Mem>, ghost events: seq<Event>)
    requires mm.Valid() && mm.dirs == {}
    requires forall i :: 0 <= i < |kernel| ==> GoodRegion(kernel[i])
    requires forall i :: 0 <= i < |user| ==> GoodRegion(user[i])
    modifies mm, mm.link, mm.phys, mm.ref
    ensures IsRun(states, events) && states[0] == old(mm.View()) && Housed(states[0], Elements(old(mm.free)))
    ensures |events| <= |steps| && Done(states, steps, kernel, user, events)
    ensures !stuck ==> mm.Valid() && |events| == |steps| && states[|events|] == mm.View() && mm.numFree == |mm.free|
    ensures stuck ==> |events| < |steps| && TooFew(states[|events|], steps[|events|], kernel, user)
  {
    hide Inv, Housed, Next, Does;
    stuck, states, events := false, [mm.View()], [];
    ghost var all := Elements(mm.free);
    BootHoused(mm.View(), all);
    var live: set<nat> := {};
    for n := 0 to |steps|
      invariant mm.Valid() && live == mm.dirs && Housed(mm.View(), all) && |events| == n
      invariant IsRun(states, events) && states[0] == old(mm.View()) && states[n] == mm.View()
      invariant Done(states, steps, kernel, user, events)
    {
      ghost var m := mm.View();
      ghost var e;
      stuck, live, e := Do(mm, all, live, kernel, user, steps[n]);
      if stuck { return; }
      NextHoused(m, e, mm.View(), all);
      RunMore(states, steps, kernel, user, events, e, mm.View());
      states, events := states + [mm.View()], events + [e];
    }
  }

  // ---------------------------------------------------------------- how many pages, and how many tasks

  /** The pages that `d` has taken. */
  ghost function Took(m: Mem, all: set<nat>, d: nat): set<nat> {
    set f | f in all && Taken(m, d, f)
  }

  ghost predicate AllTook(m: Mem, all: set<nat>, n: nat) {
    forall d: nat :: d in m.dirs ==> |Took(m, all, d)| == n
  }

  lemma TookKept(m: Mem, e: Event, m': Mem, all: set<nat>, c: nat)
    requires Inv(m) && Next(m, e, m') && c in m.dirs && e != Gone(c)
    ensures Took(m', all, c) == Took(m, all, c)
  {
    hide Inv, Next, Taken;
    forall f: nat ensures Taken(m', c, f) <==> Taken(m, c, f) { TakenKept(m, e, m', c, f); }
  }

  /** What `less` lacks of `more` is what `d` has taken. */
  lemma TookCount(m: Mem, all: set<nat>, d: nat, more: seq<nat>, less: seq<nat>)
    requires NoDups(more) && NoDups(less) && forall f: nat :: f in more <==> f in less || Taken(m, d, f)
    requires forall f: nat :: Taken(m, d, f) ==> f in all && f !in less
    ensures |more| == |less| + |Took(m, all, d)|
  {
    hide Taken;
    ElementCount(more);
    ElementCount(less);
    assert Elements(more) == Elements(less) + Took(m, all, d);
    assert Elements(less) !! Took(m, all, d);
  }

  lemma MadeTook(m: Mem, m': Mem, d: nat, regions: seq<Region>, all: set<nat>)
    requires Housed(m, all) && Housed(m', all) && Child(m, m', d, regions, true)
    ensures d in m'.dirs && |m.free| == |m'.free| + |Took(m', all, d)|
  {
    hide Taken;
    forall f: nat | Taken(m', d, f) ensures f in all && f !in m'.free { TakenNotFree(m', d, f); }
    TookCount(m', all, d, m.free, m'.free);
  }

  lemma GoneTook(m: Mem, m': Mem, d: nat, all: set<nat>)
    requires Housed(m, all) && Housed(m', all) && d in m.dirs && Freed(m, m', d)
    ensures |m'.free| == |m.free| + |Took(m, all, d)|
  {
    hide Taken;
    GoneFree(m, m', d, all);
    forall f: nat | Taken(m, d, f) ensures f in all && f !in m.free { TakenNotFree(m, d, f); }
    TookCount(m, all, d, m'.free, m.free);
  }

  /** One step: a task more for so many pages less, or the other way round. */
  lemma StepCounts(m: Mem, a: Step, kernel: seq<Region>, user: seq<Region>, e: Event, m': Mem, all: set<nat>)
    requires Housed(m, all) && Housed(m', all) && Next(m, e, m') && Does(m, a, kernel, user, e, m')
    requires AllTook(m, all, Needs(kernel + user))
    ensures AllTook(m', all, Needs(kernel + user))
    ensures |m'.free| + Needs(kernel + user) * |m'.dirs| == |m.free| + Needs(kernel + user) * |m.dirs|
  {
    hide Inv, Child, Forked, Freed, Taken, Needs, Housed, Took;
    HousedInv(m, all);
    match e
    case Made(d) =>
      if a.Fork? { ForkIsChild(m, m', a.parent, d, kernel, user); }
      MadeCounts(m, m', d, kernel + user, all);
    case Gone(d) => GoneCounts(m, m', d, Needs(kernel + user), all);
    case Nothing =>
  }

  lemma MadeCounts(m: Mem, m': Mem, d: nat, regions: seq<Region>, all: set<nat>)
    requires Housed(m, all) && Housed(m', all) && Inv(m) && Next(m, Made(d), m') && Child(m, m', d, regions, true)
    requires AllTook(m, all, Needs(regions)) && |m'.free| == |m.free| - Needs(regions)
    ensures AllTook(m', all, Needs(regions))
    ensures |m'.free| + Needs(regions) * |m'.dirs| == |m.free| + Needs(regions) * |m.dirs|
  {
    hide Inv, Child, Taken, Needs, Housed, Took, Next;
    var n := Needs(regions);
    MadeDirs(m, m', d, regions);
    MadeTook(m, m', d, regions, all);
    forall c: nat | c in m.dirs ensures |Took(m', all, c)| == n { TookKept(m, Made(d), m', all, c); }
    assert n * |m'.dirs| == n * (|m.dirs| + 1);
  }

  lemma GoneCounts(m: Mem, m': Mem, d: nat, n: nat, all: set<nat>)
    requires Housed(m, all) && Housed(m', all) && Inv(m) && Inv(m') && d in m.dirs && Freed(m, m', d)
    requires AllTook(m, all, n)
    ensures AllTook(m', all, n) && |m'.free| + n * |m'.dirs| == |m.free| + n * |m.dirs|
  {
    hide Inv, Freed, Taken, Housed, Took, Next;
    GoneTook(m, m', d, all);
    GoneIsNext(m, m', d);
    forall c: nat | c in m'.dirs ensures |Took(m', all, c)| == n { TookKept(m, Gone(d), m', all, c); }
    assert |m.dirs| == |m'.dirs| + 1;
    assert n * |m.dirs| == n * (|m'.dirs| + 1);
  }

  /**
    Over every run from boot each live task has the same number of pages, and the rest are free.  So the
    free pages are decided by how many tasks there are.
   */
  lemma {:induction false} RunCounts(states: seq<Mem>, steps: seq<Step>, kernel: seq<Region>, user: seq<Region>,
          events: seq<Event>, n: nat)
    requires IsRun(states, events) && Done(states, steps, kernel, user, events) && n < |states|
    requires Housed(states[0], Elements(states[0].free)) && states[0].dirs == {}
    ensures AllTook(states[n], Elements(states[0].free), Needs(kernel + user))
    ensures |states[n].free| + Needs(kernel + user) * |states[n].dirs| == |states[0].free|
  {
    hide Next, Does, Housed, Needs, Took;
    if n > 0 {
      var all := Elements(states[0].free);
      RunCounts(states, steps, kernel, user, events, n - 1);
      RunHoused(states, events, all, n - 1);
      RunHoused(states, events, all, n);
      StepCounts(states[n - 1], steps[n - 1], kernel, user, events[n - 1], states[n], all);
    }
  }

  /**
    With nctuos' own regions: with k tasks alive 79 * k pages are taken, and the next one can be made
    exactly if 79 * (k + 1) pages were free at boot.
   */
  lemma TasksPossible(states: seq<Mem>, steps: seq<Step>, kernel: seq<Region>, user: seq<Region>,
          events: seq<Event>, n: nat)
    requires IsRun(states, events) && Done(states, steps, kernel, user, events) && n < |states|
    requires Housed(states[0], Elements(states[0].free)) && states[0].dirs == {}
    requires IsKernel(kernel) && InKernel(user)
    ensures |states[n].free| == |states[0].free| - 79 * |states[n].dirs|
    ensures TooFew(states[n], Start, kernel, user) <==> 79 * (|states[n].dirs| + 1) > |states[0].free|
  {
    hide Next, Does, Housed, Needs, IsKernel, InKernel, IsRun, Done;
    RunCounts(states, steps, kernel, user, events, n);
    KernelNeeds(kernel, user);
  }

  ghost predicate Done(states: seq<Mem>, steps: seq<Step>, kernel: seq<Region>, user: seq<Region>, events: seq<Event>) {
    && |events| <= |steps| && |states| == |events| + 1
    && forall i :: 0 <= i < |events| ==>
         && !TooFew(states[i], steps[i], kernel, user)
         && Does(states[i], steps[i], kernel, user, events[i], states[i + 1])
  }

  lemma RunMore(states: seq<Mem>, steps: seq<Step>, kernel: seq<Region>, user: seq<Region>, events: seq<Event>,
          e: Event, m: Mem)
    requires IsRun(states, events) && Done(states, steps, kernel, user, events) && |events| < |steps|
    requires var n := |events|; Next(states[n], e, m) && Does(states[n], steps[n], kernel, user, e, m)
    requires !TooFew(states[|events|], steps[|events|], kernel, user)
    ensures IsRun(states + [m], events + [e]) && Done(states + [m], steps, kernel, user, events + [e])
  {
    hide Next, Does;
    var s, v := states + [m], events + [e];
    forall i | 0 <= i < |v|
      ensures Next(s[i], v[i], s[i + 1]) && Does(s[i], steps[i], kernel, user, v[i], s[i + 1])
    {
      assert i < |events| ==> Next(states[i], events[i], states[i + 1]);
    }
  }
}
