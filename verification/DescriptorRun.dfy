/**
  Runs of system calls of all tasks in any order over the descriptor tables.  Every run is a run of the
  steps that the calls stand for, so what holds for those runs holds for the tables.
 */
module DescriptorRun {
  import opened Common
  import opened FileTable
  import opened PipePages
  import opened Descriptors

  /** A call, or the half of one that follows its sleep; `Elsewhere` is the rest of the kernel. */
  datatype SysCall =
    | Open(t: nat)
    | Opened(t: nat, given: Option<nat>)
    | Close(t: nat, fd: nat)
    | Dup(t: nat, fd: nat, arg: nat)
    | Dup2(t: nat, fd: nat, newfd: nat)
    | Pipe(t: nat)
    | Piped(t: nat, i: nat)
    | Fork(t: nat, u: nat)
    | Exit(t: nat)
    | Elsewhere(i: nat, grab: bool)

  predicate IsIdle(s: Sys, t: nat) {
    t < |s.filp| == |s.pending| && s.pending[t] == Idle
  }

  /** The slot that open and dup take: the first empty one. */
  ghost predicate FirstSlot(s: Sys, t: nat, from: nat, d: nat) {
    from <= d && Empty(s, t, d) && forall e: nat :: from <= e < d ==> !Empty(s, t, e)
  }

  /** open_namei can give inode `i`: it holds a reference to it, and it is no pipe. */
  predicate Givable(s: Sys, i: nat) {
    i < |s.inodes| && !s.inodes[i].pipe && s.inodes[i].others > 0
  }

  predicate NoFiles(s: Sys, u: nat) {
    u < |s.filp| && forall d: nat :: d < |s.filp[u]| ==> s.filp[u][d] == None
  }

  /** The steps a call takes in state `s`; none when it fails or the task is asleep. */
  ghost predicate Expands(s: Sys, c: SysCall, steps: seq<Step>) {
    match c
    case Open(t) =>
      if IsIdle(s, t) && (exists d: nat :: Empty(s, t, d)) && exists f: nat :: Unused(s, f)
      then exists d: nat, f: nat ::
        FirstSlot(s, t, 0, d) && FirstUnused(s, f) && steps == [Claiming(t, d, f, Opening(d))]
      else steps == []
    case Opened(t, given) =>
      if t < |s.pending| && s.pending[t].Opening? && (given.None? || Givable(s, given.value))
      then steps == [OpenStep(s, t, given)]
      else steps == []
    case Close(t, fd) => steps == if IsIdle(s, t) && Taken(s, t, fd) then [Closing(t, fd)] else []
    case Dup(t, fd, arg) =>
      if IsIdle(s, t) && Taken(s, t, fd) && exists d: nat :: arg <= d && Empty(s, t, d)
      then exists d: nat :: FirstSlot(s, t, arg, d) && steps == [Sharing(t, fd, t, d)]
      else steps == []
    case Dup2(t, fd, newfd) =>
      steps == if IsIdle(s, t) then Dup2Steps(s, t, fd, newfd) else []
    case Pipe(t) =>
      if IsIdle(s, t) && TwoEntries(s) && TwoSlots(s, t)
      then exists d: nat, e: nat, f: nat, g: nat :: PipeOpens(s, t, d, e, f, g, steps)
      else steps == []
    case Piped(t, i) =>
      if t < |s.pending| && s.pending[t].Piping? && s.pending[t].fd0 != s.pending[t].fd1 &&
         i < |s.inodes| && s.inodes[i].count == 0
      then PipeEnds(s, t, s.pending[t].fd0, s.pending[t].fd1, i, steps)
      else steps == []
    case Fork(t, u) =>
      steps == if IsIdle(s, t) && IsIdle(s, u) && t != u && NoFiles(s, u) then Sharings(t, u, s.filp[t]) else []
    case Exit(t) => steps == if IsIdle(s, t) then Closings(t, s.filp[t]) else []
    case Elsewhere(i, grab) =>
      steps == if i < |s.inodes| && !s.inodes[i].pipe && (grab || s.inodes[i].others > 0)
               then [OthersTo(i, s.inodes[i].others + if grab then 1 else -1)] else []
  }

  function OpenStep(s: Sys, t: nat, given: Option<nat>): Step
    requires t < |s.pending| && s.pending[t].Opening? && (given.None? || Givable(s, given.value))
  {
    if given.None? then Unclaiming(t, s.pending[t].fd, Idle)
    else
      var n := s.inodes[given.value];
      Binding(t, s.pending[t].fd, given.value, n.(others := n.others - 1), Idle)
  }

  /** dup2 closes first, and then it duplicates whatever is still open. */
  function Dup2Steps(s: Sys, t: nat, fd: nat, newfd: nat): seq<Step> {
    (if Taken(s, t, newfd) then [Closing(t, newfd)] else []) +
    (if Taken(s, t, fd) && newfd < NR_OPEN && fd != newfd then [Sharing(t, fd, t, newfd)] else [])
  }

  predicate PipeOpens(s: Sys, t: nat, d: nat, e: nat, f: nat, g: nat, steps: seq<Step>) {
    && FirstEmpties(s, t, d, e) && FirstTwo(s, f, g)
    && steps == [Claiming(t, d, f, Opening(d)), Claiming(t, e, g, Piping(d, e))]
  }

  ghost predicate PipeEnds(s: Sys, t: nat, fd0: nat, fd1: nat, i: nat, steps: seq<Step>) {
    if s.pool == {} then steps == [Unclaiming(t, fd0, Opening(fd1)), Unclaiming(t, fd1, Idle)]
    else exists page: nat :: page in s.pool && steps == PipeSteps(t, fd0, fd1, i, page)
  }

  /** The state decides what a call does, but for the free page that a new pipe gets. */
  lemma OneExpansion(s: Sys, c: SysCall, a: seq<Step>, b: seq<Step>)
    requires Expands(s, c, a) && Expands(s, c, b) && !c.Piped?
    ensures a == b
  {
    hide Closings, Sharings, TwoEntries, TwoSlots;
    match c
    case Pipe(t) =>
      if a != [] && b != [] {
        var d: nat, e: nat, f: nat, g: nat :| PipeOpens(s, t, d, e, f, g, a);
        var d', e', f', g' :| PipeOpens(s, t, d', e', f', g', b);
        SamePair(s, t, d, e, f, g, d', e', f', g');
      }
    case _ =>
  }

  lemma SamePair(s: Sys, t: nat, d: nat, e: nat, f: nat, g: nat, d': nat, e': nat, f': nat, g': nat)
    requires FirstEmpties(s, t, d, e) && FirstTwo(s, f, g) && FirstEmpties(s, t, d', e') && FirstTwo(s, f', g')
    ensures d == d' && e == e' && f == f' && g == g'
  {
  }

  method DoOpen(x: Tables, t: nat) returns (ghost steps: seq<Step>)
    requires x.Valid()
    modifies x, x.filp, x.files
    ensures x.Valid() && Expands(old(x.View()), Open(t), steps) && Leads(old(x.View()), steps, x.View())
  {
    hide Inv, Leads;
    ghost var s := x.View();
    LeadsNowhere(s);
    if !(t < x.filp.Length == |x.pending| && x.pending[t] == Idle) { return []; }
    RowLength(s, t);
    var r := x.OpenStart(t);
    if r < 0 { return []; }
    ghost var f: nat :| FirstUnused(s, f) && Leads(s, [Claiming(t, r, f, Opening(r))], x.View());
    assert FirstSlot(s, t, 0, r) && Unused(s, f);
    steps := [Claiming(t, r, f, Opening(r))];
  }

  method DoOpened(x: Tables, t: nat, given: Option<nat>) returns (ghost steps: seq<Step>)
    requires x.Valid()
    modifies x, x.filp, x.files, x.inodes
    ensures x.Valid() && Expands(old(x.View()), Opened(t, given), steps) && Leads(old(x.View()), steps, x.View())
  {
    hide Inv, Leads;
    ghost var s := x.View();
    LeadsNowhere(s);
    Sizes(s);
    if !(t < |x.pending| && x.pending[t].Opening?) { return []; }
    if given.Some? {
      var i := given.value;
      if !(i < x.inodes.Length && !x.inodes[i].pipe && x.inodes[i].others > 0) { return []; }
    }
    x.OpenEnd(t, x.pending[t].fd, given);
    steps := [OpenStep(s, t, given)];
  }

  method DoDup(x: Tables, t: nat, fd: nat, arg: nat) returns (ghost steps: seq<Step>)
    requires x.Valid()
    modifies x, x.filp, x.files
    ensures x.Valid() && Expands(old(x.View()), Dup(t, fd, arg), steps) && Leads(old(x.View()), steps, x.View())
  {
    hide Inv, Leads;
    ghost var s := x.View();
    LeadsNowhere(s);
    if !(t < x.filp.Length == |x.pending| && x.pending[t] == Idle) { return []; }
    RowLength(s, t);
    var r := x.DupFd(t, fd, arg);
    if r < 0 { return []; }
    assert FirstSlot(s, t, arg, r);
    steps := [Sharing(t, fd, t, r)];
  }

  method DoPipe(x: Tables, t: nat) returns (ghost steps: seq<Step>)
    requires x.Valid()
    modifies x, x.filp, x.files
    ensures x.Valid() && Expands(old(x.View()), Pipe(t), steps) && Leads(old(x.View()), steps, x.View())
  {
    hide Inv, Leads, TwoEntries, TwoSlots;
    ghost var s := x.View();
    LeadsNowhere(s);
    if !(t < x.filp.Length == |x.pending| && x.pending[t] == Idle) { return []; }
    var r := x.PipeStart(t);
    if r == None { return []; }
    ghost var d, e := r.value.0, r.value.1;
    ghost var f: nat, g: nat :| PipeClaimed(s, x.View(), t, d, e, f, g);
    steps := [Claiming(t, d, f, Opening(d)), Claiming(t, e, g, Piping(d, e))];
    assert PipeOpens(s, t, d, e, f, g, steps);
  }

  method DoPiped(x: Tables, t: nat, i: nat) returns (ghost steps: seq<Step>)
    requires x.Valid()
    modifies x, x.filp, x.files, x.inodes
    ensures x.Valid() && Expands(old(x.View()), Piped(t, i), steps) && Leads(old(x.View()), steps, x.View())
  {
    hide Inv, Leads, PipeSteps;
    ghost var s := x.View();
    LeadsNowhere(s);
    Sizes(s);
    if !(t < |x.pending| && x.pending[t].Piping? && x.pending[t].fd0 != x.pending[t].fd1) { return []; }
    if !(i < x.inodes.Length && x.inodes[i].count == 0) { return []; }
    var fd0, fd1 := x.pending[t].fd0, x.pending[t].fd1;
    var ok := x.PipeEnd(t, fd0, fd1, i);
    steps := if ok then PipeSteps(t, fd0, fd1, i, x.inodes[i].page)
             else [Unclaiming(t, fd0, Opening(fd1)), Unclaiming(t, fd1, Idle)];
  }

  method DoCall(x: Tables, c: SysCall) returns (ghost steps: seq<Step>)
    requires x.Valid()
    modifies x, x.filp, x.files, x.inodes
    ensures x.Valid() && Expands(old(x.View()), c, steps) && Leads(old(x.View()), steps, x.View())
  {
    hide Inv, Leads, Closings, Sharings, LastOne, OnlyOf;
    ghost var s := x.View();
    LeadsNowhere(s);
    Sizes(s);
    steps := [];
    match c {
      case Open(t) => steps := DoOpen(x, t);
      case Opened(t, given) => steps := DoOpened(x, t, given);
      case Close(t, fd) =>
        if t < |x.pending| && x.pending[t] == Idle {
          var r := x.CloseFd(t, fd);
          steps := if r == 0 then [Closing(t, fd)] else [];
        }
      case Dup(t, fd, arg) => steps := DoDup(x, t, fd, arg);
      case Dup2(t, fd, newfd) =>
        if t < |x.pending| && x.pending[t] == Idle {
          var r := x.Dup2(t, fd, newfd);
          steps := Dup2Steps(s, t, fd, newfd);
        }
      case Pipe(t) => steps := DoPipe(x, t);
      case Piped(t, i) => steps := DoPiped(x, t, i);
      case Fork(t, u) =>
        if t < |x.pending| && u < |x.pending| && x.pending[t] == Idle && x.pending[u] == Idle && t != u {
          var row := x.filp[u];
          if forall d: nat :: d < |row| ==> row[d] == None {
            x.ForkFiles(t, u);
            steps := Sharings(t, u, s.filp[t]);
          }
        }
      case Exit(t) =>
        if t < |x.pending| && x.pending[t] == Idle {
          x.ExitFiles(t);
          steps := Closings(t, s.filp[t]);
        }
      case Elsewhere(i, grab) =>
        if i < x.inodes.Length && !x.inodes[i].pipe && (grab || x.inodes[i].others > 0) {
          x.Elsewhere(i, grab);
          steps := [OthersTo(i, s.inodes[i].others + if grab then 1 else -1)];
        }
    }
  }

  lemma Sizes(s: Sys)
    requires Inv(s)
    ensures |s.pending| == |s.filp|
  {
  }

  // ---------------------------------------------------------------- whole runs

  function Concat(parts: seq<seq<Step>>): seq<Step> {
    if parts == [] then [] else Concat(parts[..|parts| - 1]) + parts[|parts| - 1]
  }

  /** Each call takes its steps in the state that the calls before it left. */
  ghost predicate IsHistory(calls: seq<SysCall>, parts: seq<seq<Step>>, states: seq<Sys>) {
    |parts| == |calls| && |states| == |calls| + 1 && forall k: nat :: k < |calls| ==> Serves(calls, parts, states, k)
  }

  ghost predicate Serves(calls: seq<SysCall>, parts: seq<seq<Step>>, states: seq<Sys>, k: nat) {
    k < |calls| == |parts| == |states| - 1 && Expands(states[k], calls[k], parts[k]) &&
    Leads(states[k], parts[k], states[k + 1])
  }

  lemma MoreHistory(calls: seq<SysCall>, parts: seq<seq<Step>>, states: seq<Sys>, part: seq<Step>, s: Sys)
    requires |calls| == |parts| + 1 && IsHistory(calls[..|parts|], parts, states)
    requires Expands(states[|parts|], calls[|parts|], part) && Leads(states[|parts|], part, s)
    requires Leads(states[0], Concat(parts), states[|parts|])
    ensures IsHistory(calls, parts + [part], states + [s]) && Leads(states[0], Concat(parts + [part]), s)
  {
    hide Expands, Leads;
    var parts', states' := parts + [part], states + [s];
    forall k: nat | k < |calls|
      ensures Serves(calls, parts', states', k)
    {
      assert k < |parts| ==> Serves(calls[..|parts|], parts, states, k);
    }
    LeadsBoth(states[0], Concat(parts), states[|parts|], part, s);
    assert parts'[..|parts|] == parts;
  }

  /** What a run keeps: the pages of all pipes and the free ones, and a page is free when nobody has its pipe open. */
  lemma LeadsPages(s: Sys, steps: seq<Step>, s': Sys)
    requires Inv(s) && Leads(s, steps, s')
    ensures AllPages(s') == AllPages(s)
    ensures forall p: nat :: p in AllPages(s) ==> (p in s'.pool <==> !InUse(s', p))
  {
    hide Inv, AllPages, Refers, HasPage;
    var states :| IsRun(states, steps) && states[0] == s && states[|steps|] == s';
    RunPages(states, steps, |steps|);
    forall p: nat | p in AllPages(s)
      ensures p in s'.pool <==> !InUse(s', p)
    {
      FreeIffUnused(states, steps, |steps|, p);
    }
  }

  /** Some task has a descriptor of the pipe with page `p`. */
  ghost predicate InUse(s: Sys, p: nat) {
    exists t: nat, fd: nat, i: nat :: Refers(s, t, fd, i) && HasPage(s, i, p)
  }

  /** Any calls of any tasks in any order. */
  method Run(x: Tables, calls: seq<SysCall>) returns (ghost parts: seq<seq<Step>>, ghost states: seq<Sys>)
    requires x.Valid()
    modifies x, x.filp, x.files, x.inodes
    ensures x.Valid() && IsHistory(calls, parts, states)
    ensures states[0] == old(x.View()) && states[|calls|] == x.View()
    ensures Leads(old(x.View()), Concat(parts), x.View())
    ensures AllPages(x.View()) == AllPages(old(x.View()))
    ensures forall p: nat :: p in AllPages(old(x.View())) ==> (p in x.pool <==> !InUse(x.View(), p))
  {
    hide Inv, Leads, Expands, Serves, AllPages, InUse;
    ghost var s := x.View();
    parts, states := [], [s];
    LeadsNowhere(s);
    for k := 0 to |calls|
      invariant x.Valid() && |parts| == k && IsHistory(calls[..k], parts, states)
      invariant states[0] == s && states[k] == x.View() && Leads(s, Concat(parts), x.View())
    {
      assert calls[..k + 1][..k] == calls[..k];
      ghost var part := DoCall(x, calls[k]);
      MoreHistory(calls[..k + 1], parts, states, part, x.View());
      parts, states := parts + [part], states + [x.View()];
    }
    assert calls[..|calls|] == calls;
    LeadsPages(s, Concat(parts), x.View());
  }
}
