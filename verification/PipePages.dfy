/**
  The pages of pipes over whole runs: a page belongs to one pipe from the step that makes it until the
  last descriptor of both ends is closed, and then it is free again.
 */
module PipePages {
  import opened Common
  import opened FileTable

  /** The pages that pipes own. */
  ghost function Owned(s: Sys): set<nat> {
    set i: nat | i < |s.inodes| && s.inodes[i].pipe :: s.inodes[i].page
  }

  ghost function AllPages(s: Sys): set<nat> {
    s.pool + Owned(s)
  }

  /** The step turns inode `i` into a pipe. */
  predicate Makes(s: Sys, a: Step, i: nat) {
    a.Binding? && a.i == i && a.inode.pipe && i < |s.inodes| && !s.inodes[i].pipe
  }

  /** The step closes the last descriptor of the pipe `i`. */
  ghost predicate Frees(s: Sys, a: Step, i: nat) {
    a.Closing? && i < |s.inodes| && s.inodes[i].pipe && LastOne(s, a.t, a.fd, i)
  }

  /** A step makes a pipe, or ends one, or leaves every pipe with its page. */
  lemma StepPipe(s: Sys, a: Step, i: nat)
    requires Inv(s) && Enabled(s, a) && i < |s.inodes|
    ensures var s' := Do(s, a);
      && |s'.inodes| == |s.inodes|
      && (s'.inodes[i].pipe <==> Makes(s, a, i) || (s.inodes[i].pipe && !Frees(s, a, i)))
      && (s.inodes[i].pipe && s'.inodes[i].pipe ==> s'.inodes[i].page == s.inodes[i].page)
      && (Makes(s, a, i) ==> s'.inodes[i].page == a.inode.page)
  {
    hide LastOne;
    if a.Closing? { CloseStep(s, a.t, a.fd, i); }
  }

  lemma SizeKept(s: Sys, a: Step)
    requires Inv(s) && Enabled(s, a)
    ensures |Do(s, a).inodes| == |s.inodes|
  {
    if a.Closing? { PoolSet(s, a.t, a.fd); }
  }

  lemma CloseStep(s: Sys, t: nat, fd: nat, i: nat)
    requires Inv(s) && Enabled(s, Closing(t, fd)) && i < |s.inodes|
    ensures var s' := Do(s, Closing(t, fd));
      && |s'.inodes| == |s.inodes|
      && (s'.inodes[i].pipe <==> s.inodes[i].pipe && !LastOne(s, t, fd, i))
      && s'.inodes[i].page == s.inodes[i].page
  {
    hide LastOne;
    var f := s.filp[t][fd].value;
    CloseReady(s, t, fd, f);
    if s.inodes[i].pipe {
      PageFreed(s, t, fd, f, i);
      assert PipeOk(s, i);
    }
  }

  /** The step takes page `p` for a new pipe. */
  predicate TakesPage(s: Sys, a: Step, p: nat) {
    a.Binding? && Makes(s, a, a.i) && a.inode.page == p
  }

  ghost predicate FreesPage(s: Sys, a: Step, p: nat) {
    exists i: nat :: Frees(s, a, i) && s.inodes[i].page == p
  }

  /** A page leaves the pool when a pipe is made of it and comes back when that pipe ends; no page is made or lost. */
  lemma StepPool(s: Sys, a: Step, p: nat)
    requires Inv(s) && Enabled(s, a)
    ensures p in Do(s, a).pool <==> FreesPage(s, a, p) || (p in s.pool && !TakesPage(s, a, p))
    ensures (TakesPage(s, a, p) ==> p in s.pool) && (FreesPage(s, a, p) ==> p !in s.pool)
    ensures p in AllPages(Do(s, a)) <==> p in AllPages(s)
  {
    hide LastOne, Enabled;
    forall i: nat | i < |s.inodes|
      ensures s.inodes[i].pipe ==> s.inodes[i].page !in s.pool
    {
      assert s.inodes[i].pipe ==> PipeOk(s, i);
    }
    PoolAfter(s, a);
    var s' := Do(s, a);
    SizeKept(s, a);
    forall i: nat | i < |s.inodes| { StepPipe(s, a, i); }
    if p in Owned(s) {
      var i: nat :| i < |s.inodes| && s.inodes[i].pipe && s.inodes[i].page == p;
      assert s'.inodes[i].pipe ==> p in Owned(s');
      assert !s'.inodes[i].pipe ==> Frees(s, a, i);
    }
    if p in Owned(s') {
      var i: nat :| i < |s.inodes| && s'.inodes[i].pipe && s'.inodes[i].page == p;
      assert s.inodes[i].pipe ==> p in Owned(s);
    }
    if TakesPage(s, a, p) { assert p in Owned(s'); }
  }

  lemma PoolAfter(s: Sys, a: Step)
    requires Inv(s) && Enabled(s, a)
    ensures !a.Closing? ==> forall p: nat :: p in Do(s, a).pool <==> p in s.pool && !TakesPage(s, a, p)
    ensures a.Closing? ==> forall p: nat :: p in Do(s, a).pool <==> p in s.pool || FreesPage(s, a, p)
    ensures forall p: nat :: TakesPage(s, a, p) ==> p in s.pool
  {
    hide LastOne;
    if a.Binding? && s.inodes[a.i].pipe { assert PipeOk(s, a.i); }
    if a.Closing? { PoolGrows(s, a.t, a.fd); }
  }

  lemma PoolSet(s: Sys, t: nat, fd: nat)
    requires Inv(s) && Enabled(s, Closing(t, fd))
    ensures var s' := Do(s, Closing(t, fd));
      && |s'.inodes| == |s.inodes|
      && s'.pool == s.pool + (set j: nat | j < |s.inodes| && s.inodes[j].pipe && !s'.inodes[j].pipe :: s.inodes[j].page)
  {
    CloseReady(s, t, fd, s.filp[t][fd].value);
  }

  lemma PoolGrows(s: Sys, t: nat, fd: nat)
    requires Inv(s) && Enabled(s, Closing(t, fd))
    ensures forall p: nat :: p in Do(s, Closing(t, fd)).pool <==> p in s.pool || FreesPage(s, Closing(t, fd), p)
  {
    hide LastOne, Inv, Enabled, Do;
    var a, s' := Closing(t, fd), Do(s, Closing(t, fd));
    SizeKept(s, a);
    forall i: nat | i < |s.inodes|
      ensures Frees(s, a, i) <==> s.inodes[i].pipe && !s'.inodes[i].pipe
    {
      CloseStep(s, t, fd, i);
    }
    PoolSet(s, t, fd);
  }

  // ---------------------------------------------------------------- runs

  /** Over any run the free pages and the pages of pipes are the same pages, and none is both. */
  lemma {:induction false} RunPages(states: seq<Sys>, steps: seq<Step>, n: nat)
    requires IsRun(states, steps) && Inv(states[0]) && n < |states|
    ensures AllPages(states[n]) == AllPages(states[0]) && states[n].pool !! Owned(states[n])
  {
    hide Inv, Do, Enabled, AllPages;
    RunKeeps(states, steps, n);
    Apart(states[n]);
    if n > 0 {
      RunPages(states, steps, n - 1);
      StepOf(states, steps, n - 1);
      forall p: nat
        ensures p in AllPages(states[n]) <==> p in AllPages(states[n - 1])
      {
        StepPool(states[n - 1], steps[n - 1], p);
      }
    }
  }

  lemma Apart(s: Sys)
    requires Inv(s)
    ensures s.pool !! Owned(s)
  {
    assert forall i: nat :: i < |s.inodes| && s.inodes[i].pipe ==> PipeOk(s, i);
  }

  lemma StepOf(states: seq<Sys>, steps: seq<Step>, k: nat)
    requires IsRun(states, steps) && Inv(states[0]) && k < |steps|
    ensures Inv(states[k]) && Enabled(states[k], steps[k]) && states[k + 1] == Do(states[k], steps[k])
  {
    RunKeeps(states, steps, k);
    assert Takes(states[k], steps[k], states[k + 1]);
  }

  /**
    From the step that makes a pipe its page is that inode's and not free, until the one step that closes
    the last descriptor of both ends: that one frees it.
   */
  lemma {:induction false} PipeLife(states: seq<Sys>, steps: seq<Step>, i: nat, m: nat, n: nat)
    requires IsRun(states, steps) && Inv(states[0]) && m < n < |states| && Makes(states[m], steps[m], i)
    requires forall k :: m < k < n ==> !Frees(states[k], steps[k], i)
    ensures var page := steps[m].inode.page;
      && page in states[m].pool && page !in states[n].pool
      && i < |states[n].inodes| && states[n].inodes[i].pipe && states[n].inodes[i].page == page
      && (n < |steps| && Frees(states[n], steps[n], i) ==>
            page in states[n + 1].pool && i < |states[n + 1].inodes| && !states[n + 1].inodes[i].pipe)
  {
    hide Inv, Do, Enabled, Frees;
    StepOf(states, steps, m);
    StepPool(states[m], steps[m], steps[m].inode.page);
    StepOf(states, steps, n - 1);
    if n - 1 > m { PipeLife(states, steps, i, m, n - 1); }
    StepPipe(states[n - 1], steps[n - 1], i);
    RunKeeps(states, steps, n);
    PipePage(states[n], i);
    if n < |steps| && Frees(states[n], steps[n], i) {
      StepOf(states, steps, n);
      StepPipe(states[n], steps[n], i);
      StepPool(states[n], steps[n], steps[m].inode.page);
    }
  }

  lemma PipePage(s: Sys, i: nat)
    requires Inv(s) && i < |s.inodes| && s.inodes[i].pipe
    ensures s.inodes[i].page !in s.pool
  {
    assert PipeOk(s, i);
  }

  /** How often page `p` has been taken for a pipe, and freed, in the first `n` steps. */
  function TimesTaken(states: seq<Sys>, steps: seq<Step>, p: nat, n: nat): nat
    requires n <= |steps| <= |states|
  {
    if n == 0 then 0 else TimesTaken(states, steps, p, n - 1) + Bit(TakesPage(states[n - 1], steps[n - 1], p))
  }

  ghost function TimesFreed(states: seq<Sys>, steps: seq<Step>, p: nat, n: nat): nat
    requires n <= |steps| <= |states|
  {
    if n == 0 then 0 else TimesFreed(states, steps, p, n - 1) + Bit(FreesPage(states[n - 1], steps[n - 1], p))
  }

  /** Every page is freed once for each time it is taken, or once less while it is in use. */
  lemma {:induction false} FreedOnce(states: seq<Sys>, steps: seq<Step>, p: nat, n: nat)
    requires IsRun(states, steps) && Inv(states[0]) && n < |states|
    ensures TimesFreed(states, steps, p, n) + Bit(p in states[0].pool) ==
            TimesTaken(states, steps, p, n) + Bit(p in states[n].pool)
  {
    hide Inv, Do, Enabled, FreesPage, TakesPage;
    if n > 0 {
      FreedOnce(states, steps, p, n - 1);
      StepOf(states, steps, n - 1);
      StepPool(states[n - 1], steps[n - 1], p);
    }
  }

  /** In every state of every run a page is free exactly when no descriptor is left of a pipe that has it. */
  lemma FreeIffUnused(states: seq<Sys>, steps: seq<Step>, n: nat, p: nat)
    requires IsRun(states, steps) && Inv(states[0]) && n < |states| && p in AllPages(states[0])
    ensures p in states[n].pool <==>
      forall t: nat, fd: nat, i: nat :: Refers(states[n], t, fd, i) ==> !HasPage(states[n], i, p)
  {
    hide Inv, Refers;
    RunPages(states, steps, n);
    RunKeeps(states, steps, n);
    var s := states[n];
    if p in Owned(s) {
      var i: nat :| i < |s.inodes| && s.inodes[i].pipe && s.inodes[i].page == p;
      var t, fd := PipeInUse(s, i);
      assert Refers(s, t, fd, i) && HasPage(s, i, p);
    }
    forall i: nat | HasPage(s, i, p) ensures p in Owned(s) {}
  }

  predicate HasPage(s: Sys, i: nat, p: nat) {
    i < |s.inodes| && s.inodes[i].pipe && s.inodes[i].page == p
  }

  // ---------------------------------------------------------------- exit

  /** No other task has a descriptor of the pipe. */
  ghost predicate OnlyOf(s: Sys, t: nat, i: nat) {
    forall u: nat, d: nat :: Refers(s, u, d, i) ==> u == t
  }

  /** Closing a descriptor takes that one and no other. */
  lemma CloseRefers(s: Sys, t: nat, fd: nat, u: nat, d: nat, i: nat)
    requires Inv(s) && Enabled(s, Closing(t, fd))
    ensures Refers(Do(s, Closing(t, fd)), u, d, i) <==> Refers(s, u, d, i) && !(u == t && d == fd)
  {
    var s', f := Do(s, Closing(t, fd)), s.filp[t][fd].value;
    CloseReady(s, t, fd, f);
    SlotDropped(s, s', t, fd, f);
    NamedCounts(s, t, fd, f);
    forall g: nat
      ensures Names(s', u, d, g) && IsEnd(s', g, i) <==> Names(s, u, d, g) && IsEnd(s, g, i) && !(u == t && d == fd)
    {
      assert Names(s', u, d, g) <==> Names(s, u, d, g) && !(u == t && d == fd);
      assert g != f || s.files[f].count > 1 ==> (IsEnd(s', g, i) <==> IsEnd(s, g, i));
    }
  }

  /** What descriptor `d` of task `u` refers to after a step: every step is one update of that table. */
  ghost predicate RefersAfter(s: Sys, a: Step, u: nat, d: nat, i: nat) {
    match a
    case Binding(t, fd, j, _, _) => if u == t && d == fd then i == j else Refers(s, u, d, i)
    case Sharing(t, fd, x, e) => if u == x && d == e then Refers(s, t, fd, i) else Refers(s, u, d, i)
    case Closing(t, fd) => !(u == t && d == fd) && Refers(s, u, d, i)
    case _ => Refers(s, u, d, i)
  }

  lemma StepRefers(s: Sys, a: Step, u: nat, d: nat, i: nat)
    requires Inv(s) && Enabled(s, a)
    ensures Refers(Do(s, a), u, d, i) <==> RefersAfter(s, a, u, d, i)
  {
    match a
    case Claiming(t, fd, f, c) => ClaimRefers(s, t, fd, f, c, u, d, i);
    case Unclaiming(t, fd, c) => UnclaimRefers(s, t, fd, c, u, d, i);
    case Binding(t, fd, j, inode, c) => BindRefers(s, t, fd, j, inode, c, u, d, i);
    case Sharing(t, fd, x, e) => ShareRefers(s, t, fd, x, e, u, d, i);
    case Closing(t, fd) => CloseRefers(s, t, fd, u, d, i);
    case OthersTo(j, others) => SameFiles(s, Do(s, a), u, d, i);
  }

  lemma SameFiles(s: Sys, s': Sys, u: nat, d: nat, i: nat)
    requires s'.filp == s.filp && s'.files == s.files
    ensures Refers(s', u, d, i) <==> Refers(s, u, d, i)
  {
    forall g: nat ensures Names(s', u, d, g) && IsEnd(s', g, i) <==> Names(s, u, d, g) && IsEnd(s, g, i) {}
  }

  lemma ClaimRefers(s: Sys, t: nat, fd: nat, f: nat, c: Call, u: nat, d: nat, i: nat)
    requires Inv(s) && Enabled(s, Claiming(t, fd, f, c))
    ensures Refers(Claim(s, t, fd, f, c), u, d, i) <==> Refers(s, u, d, i)
  {
    var s' := Claim(s, t, fd, f, c);
    SlotAdded(s, s', t, fd, f);
    forall g: nat
      ensures Names(s', u, d, g) && IsEnd(s', g, i) <==> Names(s, u, d, g) && IsEnd(s, g, i)
    {
      if Names(s, u, d, g) { NamedCounts(s, u, d, g); }
    }
  }

  lemma UnclaimRefers(s: Sys, t: nat, fd: nat, c: Call, u: nat, d: nat, i: nat)
    requires Inv(s) && Enabled(s, Unclaiming(t, fd, c))
    ensures Refers(Do(s, Unclaiming(t, fd, c)), u, d, i) <==> Refers(s, u, d, i)
  {
    assert Taken(s, t, fd);
    var s', f := Do(s, Unclaiming(t, fd, c)), s.filp[t][fd].value;
    assert Names(s, t, fd, f);
    SlotDropped(s, s', t, fd, f);
    NamedCounts(s, t, fd, f);
    forall g: nat
      ensures Names(s', u, d, g) && IsEnd(s', g, i) <==> Names(s, u, d, g) && IsEnd(s, g, i)
    {
    }
  }

  lemma BindRefers(s: Sys, t: nat, fd: nat, j: nat, inode: Inode, c: Call, u: nat, d: nat, i: nat)
    requires Inv(s) && Enabled(s, Binding(t, fd, j, inode, c))
    ensures Refers(Do(s, Binding(t, fd, j, inode, c)), u, d, i) <==>
      if u == t && d == fd then i == j else Refers(s, u, d, i)
  {
    assert Taken(s, t, fd);
    var s', f := Do(s, Binding(t, fd, j, inode, c)), s.filp[t][fd].value;
    assert Names(s, t, fd, f);
    NamedCounts(s, t, fd, f);
    forall g: nat
      ensures Names(s', u, d, g) <==> Names(s, u, d, g)
      ensures g != f ==> (IsEnd(s', g, i) <==> IsEnd(s, g, i))
    {
    }
    assert IsEnd(s', f, i) <==> i == j;
    assert Names(s', t, fd, f);
  }

  lemma ShareRefers(s: Sys, t: nat, fd: nat, x: nat, e: nat, u: nat, d: nat, i: nat)
    requires Inv(s) && Enabled(s, Sharing(t, fd, x, e))
    ensures Refers(Do(s, Sharing(t, fd, x, e)), u, d, i) <==>
      if u == x && d == e then Refers(s, t, fd, i) else Refers(s, u, d, i)
  {
    var s', f := Do(s, Sharing(t, fd, x, e)), s.filp[t][fd].value;
    assert Names(s, t, fd, f);
    NamedCounts(s, t, fd, f);
    SlotAdded(s, s', x, e, f);
    forall g: nat
      ensures IsEnd(s', g, i) <==> IsEnd(s, g, i)
      ensures Names(s', u, d, g) <==> if u == x && d == e then Names(s, t, fd, g) else Names(s, u, d, g)
    {
    }
  }

  /** What becomes of the pipe `i` while task `t` closes descriptors. */
  ghost predicate PipeNow(s: Sys, s': Sys, t: nat, i: nat)
    requires i < |s.inodes|
  {
    && |s'.inodes| == |s.inodes|
    && (forall u: nat, d: nat :: Refers(s', u, d, i) ==> Refers(s, u, d, i))
    && (forall u: nat, d: nat :: u != t && Refers(s, u, d, i) ==> Refers(s', u, d, i))
    && if s'.inodes[i].pipe then s'.inodes[i].page == s.inodes[i].page
       else s.inodes[i].page in s'.pool && forall u: nat, d: nat :: !Refers(s', u, d, i)
  }

  lemma PipeNext(s: Sys, m: Sys, t: nat, fd: nat, i: nat)
    requires i < |s.inodes| && s.inodes[i].pipe && PipeNow(s, m, t, i) && Inv(m) && Enabled(m, Closing(t, fd))
    ensures PipeNow(s, Do(m, Closing(t, fd)), t, i)
  {
    hide Inv, Enabled, Do, Refers;
    var a := Closing(t, fd);
    StepPipe(m, a, i);
    StepPool(m, a, s.inodes[i].page);
    forall u: nat, d: nat
      ensures Refers(Do(m, a), u, d, i) <==> Refers(m, u, d, i) && !(u == t && d == fd)
    {
      CloseRefers(m, t, fd, u, d, i);
    }
  }

  lemma {:induction false} PipeAfter(states: seq<Sys>, steps: seq<Step>, t: nat, i: nat, n: nat)
    requires IsRun(states, steps) && Inv(states[0]) && n < |states|
    requires i < |states[0].inodes| && states[0].inodes[i].pipe
    requires forall k :: 0 <= k < |steps| ==> steps[k].Closing? && steps[k].t == t
    ensures PipeNow(states[0], states[n], t, i)
  {
    hide Inv, Enabled, Do, PipeNow;
    if n == 0 {
      NoChange(states[0], t, i);
    } else {
      PipeAfter(states, steps, t, i, n - 1);
      StepOf(states, steps, n - 1);
      PipeNext(states[0], states[n - 1], t, steps[n - 1].fd, i);
    }
  }

  lemma NoChange(s: Sys, t: nat, i: nat)
    requires i < |s.inodes| && s.inodes[i].pipe
    ensures PipeNow(s, s, t, i)
  {
  }

  lemma {:induction false} ClosingsClose(t: nat, row: seq<Option<nat>>)
    ensures forall k :: 0 <= k < |Closings(t, row)| ==> Closings(t, row)[k].Closing? && Closings(t, row)[k].t == t
  {
    if row != [] { ClosingsClose(t, row[..|row| - 1]); }
  }

  /** A task that exits frees exactly the pages of the pipes that no other task has a descriptor of. */
  lemma ExitFrees(s: Sys, row: seq<Option<nat>>, s': Sys, t: nat, i: nat)
    requires Inv(s) && Leads(s, Closings(t, row), s') && (forall d: nat :: !Taken(s', t, d))
    requires i < |s.inodes| && s.inodes[i].pipe
    ensures s.inodes[i].page in s'.pool <==> OnlyOf(s, t, i)
  {
    hide Inv, Closings;
    var steps := Closings(t, row);
    ClosingsClose(t, row);
    var states :| IsRun(states, steps) && states[0] == s && states[|steps|] == s';
    RunKeeps(states, steps, |steps|);
    PipeAfter(states, steps, t, i, |steps|);
    if s'.inodes[i].pipe {
      PipePage(s', i);
      var u, d := PipeInUse(s', i);
      assert Taken(s', u, d) && Refers(s, u, d, i);
    }
  }
}
