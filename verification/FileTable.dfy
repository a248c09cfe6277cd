/**
  Descriptors, the file table and pipe inodes of fs/open.c, fs/fcntl.c, fs/pipe.c and fs/inode.c, as
  a value.  A system call is cut where it can sleep: open and pipe hold their slots while they wait
  for an inode.

  `bound` says that an entry's inode has been filled in, `others` counts the references to an inode
  that do not come from the file table, and `pending` is the call a task sleeps in.
 */
module FileTable {
  import opened Common

  const NR_OPEN: nat := 20

  datatype File = File(count: nat, inode: nat, bound: bool)

  datatype Inode = Inode(count: nat, pipe: bool, page: nat, others: nat)

  datatype Call = Idle | Opening(fd: nat) | Piping(fd0: nat, fd1: nat)

  datatype Sys = Sys(
    filp: seq<seq<Option<nat>>>,
    files: seq<File>,
    inodes: seq<Inode>,
    pool: set<nat>,
    pending: seq<Call>)

  // ---------------------------------------------------------------- the invariant

  predicate Names(s: Sys, t: nat, fd: nat, f: nat) {
    t < |s.filp| && fd < |s.filp[t]| && s.filp[t][fd] == Some(f)
  }

  /** The descriptor slots, over all tasks, that name entry `f`. */
  ghost function Slots(s: Sys, f: nat): set<(nat, nat)> {
    set t: nat, fd: nat | t < |s.filp| && fd < |s.filp[t]| && Names(s, t, fd, f) :: (t, fd)
  }

  predicate IsEnd(s: Sys, f: nat, i: nat) {
    f < |s.files| && s.files[f].count > 0 && s.files[f].bound && s.files[f].inode == i
  }

  /** The entries in use that refer to inode `i`. */
  ghost function Ends(s: Sys, i: nat): set<nat> {
    set f: nat | f < |s.files| && IsEnd(s, f, i)
  }

  ghost predicate Shape(s: Sys) {
    && |s.pending| == |s.filp| && (forall t :: 0 <= t < |s.filp| ==> |s.filp[t]| == NR_OPEN)
    && (forall t: nat, fd: nat, f: nat :: Names(s, t, fd, f) ==> f < |s.files|)
    && (forall f :: 0 <= f < |s.files| && s.files[f].bound ==> s.files[f].count > 0 && s.files[f].inode < |s.inodes|)
  }

  /** f_count is the number of descriptors. */
  ghost predicate CountsOk(s: Sys) {
    forall f: nat :: f < |s.files| ==> s.files[f].count == |Slots(s, f)|
  }

  ghost predicate EndsOk(s: Sys) {
    forall i: nat :: i < |s.inodes| ==> s.inodes[i].count == |Ends(s, i)| + s.inodes[i].others
  }

  /** A pipe in use has a page of its own, and only the file table refers to it. */
  ghost predicate PipesOk(s: Sys) {
    && (forall i: nat :: i < |s.inodes| && s.inodes[i].pipe ==> PipeOk(s, i))
    && (forall i: nat, j: nat :: i < j < |s.inodes| && s.inodes[i].pipe && s.inodes[j].pipe ==>
          s.inodes[i].page != s.inodes[j].page)
  }

  predicate PipeOk(s: Sys, i: nat)
    requires i < |s.inodes|
  {
    s.inodes[i].count > 0 && s.inodes[i].others == 0 && s.inodes[i].page !in s.pool
  }

  predicate Holds(c: Call, fd: nat) {
    match c
    case Idle => false
    case Opening(a) => fd == a
    case Piping(a, b) => fd == a || fd == b
  }

  /** An entry without an inode belongs to one slot, of a task that sleeps in open or pipe. */
  ghost predicate PendingOk(s: Sys) {
    forall t: nat, fd: nat, f: nat :: Names(s, t, fd, f) && t < |s.pending| && f < |s.files| ==>
      (Holds(s.pending[t], fd) <==> !s.files[f].bound) && (!s.files[f].bound ==> s.files[f].count == 1)
  }

  ghost predicate HeldOk(s: Sys) {
    forall t: nat, fd: nat :: t < |s.pending| && Holds(s.pending[t], fd) ==> Taken(s, t, fd)
  }

  predicate Taken(s: Sys, t: nat, fd: nat) {
    t < |s.filp| && fd < |s.filp[t]| && s.filp[t][fd].Some?
  }

  ghost predicate Inv(s: Sys) {
    Shape(s) && CountsOk(s) && EndsOk(s) && PipesOk(s) && PendingOk(s) && HeldOk(s)
  }

  // ---------------------------------------------------------------- one slot more, one slot less

  function SetSlot(s: Sys, t: nat, fd: nat, v: Option<nat>): Sys
    requires t < |s.filp| && fd < |s.filp[t]|
  {
    s.(filp := s.filp[t := s.filp[t][fd := v]])
  }

  lemma SlotAdded(s: Sys, s': Sys, t: nat, fd: nat, f: nat)
    requires t < |s.filp| && fd < |s.filp[t]| && s.filp[t][fd] == None && s'.filp == SetSlot(s, t, fd, Some(f)).filp
    ensures forall u: nat, d: nat, g: nat :: Names(s', u, d, g) <==> Names(s, u, d, g) || (u == t && d == fd && g == f)
    ensures forall g: nat :: |Slots(s', g)| == |Slots(s, g)| + if g == f then 1 else 0
  {
    forall u: nat, d: nat, g: nat
      ensures Names(s', u, d, g) <==> Names(s, u, d, g) || (u == t && d == fd && g == f)
    {
    }
    forall g: nat
      ensures |Slots(s', g)| == |Slots(s, g)| + if g == f then 1 else 0
    {
      assert (t, fd) !in Slots(s, g);
      assert Slots(s', g) == if g == f then Slots(s, g) + {(t, fd)} else Slots(s, g);
    }
  }

  lemma SlotDropped(s: Sys, s': Sys, t: nat, fd: nat, f: nat)
    requires Names(s, t, fd, f) && s'.filp == SetSlot(s, t, fd, None).filp
    ensures forall u: nat, d: nat, g: nat :: Names(s', u, d, g) <==> Names(s, u, d, g) && !(u == t && d == fd)
    ensures forall g: nat :: |Slots(s', g)| == |Slots(s, g)| - if g == f then 1 else 0
  {
    forall u: nat, d: nat, g: nat
      ensures Names(s', u, d, g) <==> Names(s, u, d, g) && !(u == t && d == fd)
    {
    }
    forall g: nat
      ensures |Slots(s', g)| == |Slots(s, g)| - if g == f then 1 else 0
    {
      assert (t, fd) in Slots(s, g) <==> g == f;
      assert Slots(s', g) == if g == f then Slots(s, g) - {(t, fd)} else Slots(s, g);
    }
  }

  function Bit(b: bool): nat { if b then 1 else 0 }

  lemma EndChanged(s: Sys, s': Sys, f: nat)
    requires f < |s.files| == |s'.files| && s'.files == s.files[f := s'.files[f]]
    ensures forall i: nat :: |Ends(s', i)| == |Ends(s, i)| - Bit(IsEnd(s, f, i)) + Bit(IsEnd(s', f, i))
  {
    forall i: nat
      ensures |Ends(s', i)| == |Ends(s, i)| - Bit(IsEnd(s, f, i)) + Bit(IsEnd(s', f, i))
    {
      var a, b := Ends(s, i), Ends(s', i);
      assert forall g: nat :: g != f ==> (IsEnd(s', g, i) <==> IsEnd(s, g, i));
      assert a - {f} == b - {f};
      assert |a| == |a - {f}| + Bit(f in a);
      assert |b| == |b - {f}| + Bit(f in b);
    }
  }

  // ---------------------------------------------------------------- the steps

  /** An unused entry is put into an empty slot, before its inode is known. */
  function Claim(s: Sys, t: nat, fd: nat, f: nat, c: Call): Sys
    requires t < |s.filp| == |s.pending| && fd < |s.filp[t]| && f < |s.files|
  {
    SetSlot(s, t, fd, Some(f)).(files := s.files[f := File(1, s.files[f].inode, false)], pending := s.pending[t := c])
  }

  /** The slot and the entry are given up again. */
  function Unclaim(s: Sys, t: nat, fd: nat, c: Call): Sys
    requires t < |s.filp| == |s.pending| && fd < |s.filp[t]| && s.filp[t][fd].Some? && s.filp[t][fd].value < |s.files|
  {
    var f := s.filp[t][fd].value;
    SetSlot(s, t, fd, None).(files := s.files[f := s.files[f].(count := 0)], pending := s.pending[t := c])
  }

  /** The entry gets inode `i`, which then stands as `inode`. */
  function Bind(s: Sys, t: nat, fd: nat, i: nat, inode: Inode, c: Call): Sys
    requires t < |s.filp| == |s.pending| && fd < |s.filp[t]| && s.filp[t][fd].Some? && s.filp[t][fd].value < |s.files|
    requires i < |s.inodes|
  {
    var f := s.filp[t][fd].value;
    s.(files := s.files[f := File(s.files[f].count, i, true)], inodes := s.inodes[i := inode],
       pending := s.pending[t := c],
       pool := if inode.pipe then s.pool - {inode.page} else s.pool)
  }

  /** One more descriptor for an entry, as dup and fork make them. */
  function Share(s: Sys, f: nat, u: nat, d: nat): Sys
    requires u < |s.filp| && d < |s.filp[u]| && f < |s.files|
  {
    SetSlot(s, u, d, Some(f)).(files := s.files[f := s.files[f].(count := s.files[f].count + 1)])
  }

  /** iput, as far as counts and pipe pages go. */
  function Iput(s: Sys, i: nat): Sys
    requires i < |s.inodes| && s.inodes[i].count > 0
  {
    var n := s.inodes[i];
    if n.pipe && n.count == 1 then s.(inodes := s.inodes[i := n.(count := 0, pipe := false)], pool := s.pool + {n.page})
    else s.(inodes := s.inodes[i := n.(count := n.count - 1)])
  }

  /** sys_close of a slot that is in use. */
  function Close(s: Sys, t: nat, fd: nat): Sys
    requires t < |s.filp| && fd < |s.filp[t]| && s.filp[t][fd].Some? && s.filp[t][fd].value < |s.files|
    requires var f := s.files[s.filp[t][fd].value];
      f.count > 0 && (f.count == 1 ==> f.inode < |s.inodes| && s.inodes[f.inode].count > 0)
  {
    var f := s.filp[t][fd].value;
    var file := s.files[f].(count := s.files[f].count - 1, bound := s.files[f].count > 1);
    var s1 := SetSlot(s, t, fd, None).(files := s.files[f := file]);
    if s.files[f].count > 1 then s1 else Iput(s1, s.files[f].inode)
  }

  // ---------------------------------------------------------------- each step keeps the invariant

  lemma ClaimKeeps(s: Sys, t: nat, fd: nat, f: nat, c: Call)
    requires Inv(s) && t < |s.filp| && fd < NR_OPEN && s.filp[t][fd] == None && f < |s.files| && s.files[f].count == 0
    requires forall d: nat :: Holds(c, d) <==> Holds(s.pending[t], d) || d == fd
    ensures Inv(Claim(s, t, fd, f, c))
  {
    var s' := Claim(s, t, fd, f, c);
    SlotAdded(s, s', t, fd, f);
    EndChanged(s, s', f);
    forall u: nat, d: nat, g: nat | Names(s', u, d, g)
      ensures (Holds(s'.pending[u], d) <==> !s'.files[g].bound) && (!s'.files[g].bound ==> s'.files[g].count == 1)
    {
      if u != t || d != fd {
        assert Names(s, u, d, g);
        assert g != f by { NamedCounts(s, u, d, g); }
      }
    }
    forall u: nat, d: nat | u < |s'.pending| && Holds(s'.pending[u], d)
      ensures Taken(s', u, d)
    {
      assert u != t || d != fd ==> Holds(s.pending[u], d) && Taken(s, u, d);
    }
  }

  /** A descriptor's entry is in use. */
  lemma NamedCounts(s: Sys, t: nat, fd: nat, f: nat)
    requires Shape(s) && CountsOk(s) && Names(s, t, fd, f)
    ensures f < |s.files| && s.files[f].count > 0
    ensures s.files[f].count == 1 ==> forall u: nat, d: nat :: Names(s, u, d, f) ==> u == t && d == fd
  {
    assert (t, fd) in Slots(s, f);
    if s.files[f].count == 1 {
      forall u: nat, d: nat | Names(s, u, d, f)
        ensures u == t && d == fd
      {
        assert (u, d) in Slots(s, f);
        OneElement(Slots(s, f), (t, fd), (u, d));
      }
    }
  }

  lemma UnclaimKeeps(s: Sys, t: nat, fd: nat, c: Call)
    requires Inv(s) && t < |s.filp| && Holds(s.pending[t], fd)
    requires forall d: nat :: Holds(c, d) <==> Holds(s.pending[t], d) && d != fd
    ensures Taken(s, t, fd) && s.filp[t][fd].value < |s.files| && Inv(Unclaim(s, t, fd, c))
  {
    assert Taken(s, t, fd);
    var f := s.filp[t][fd].value;
    assert Names(s, t, fd, f);
    var s' := Unclaim(s, t, fd, c);
    SlotDropped(s, s', t, fd, f);
    EndChanged(s, s', f);
    NamedCounts(s, t, fd, f);
    forall u: nat, d: nat, g: nat | Names(s', u, d, g)
      ensures (Holds(s'.pending[u], d) <==> !s'.files[g].bound) && (!s'.files[g].bound ==> s'.files[g].count == 1)
    {
      assert Names(s, u, d, g) && g != f;
    }
    forall u: nat, d: nat | u < |s'.pending| && Holds(s'.pending[u], d)
      ensures Taken(s', u, d)
    {
      assert Holds(s.pending[u], d) && Taken(s, u, d);
    }
  }

  lemma BindKeeps(s: Sys, t: nat, fd: nat, i: nat, inode: Inode, c: Call)
    requires Inv(s) && t < |s.filp| && Holds(s.pending[t], fd) && i < |s.inodes|
    requires forall d: nat :: Holds(c, d) <==> Holds(s.pending[t], d) && d != fd
    requires inode.count == |Ends(s, i)| + 1 + inode.others
    requires inode.pipe ==>
      && inode.others == 0
      && forall j: nat :: j < |s.inodes| && j != i && s.inodes[j].pipe ==> s.inodes[j].page != inode.page
    ensures Taken(s, t, fd) && s.filp[t][fd].value < |s.files| && Inv(Bind(s, t, fd, i, inode, c))
  {
    hide Ends;
    assert Taken(s, t, fd);
    var f := s.filp[t][fd].value;
    assert Names(s, t, fd, f);
    var s' := Bind(s, t, fd, i, inode, c);
    assert forall u: nat, d: nat, g: nat :: Names(s', u, d, g) <==> Names(s, u, d, g);
    assert forall g: nat :: Slots(s', g) == Slots(s, g);
    EndChanged(s, s', f);
    NamedCounts(s, t, fd, f);
    forall u: nat, d: nat, g: nat | Names(s', u, d, g)
      ensures (Holds(s'.pending[u], d) <==> !s'.files[g].bound) && (!s'.files[g].bound ==> s'.files[g].count == 1)
    {
      assert Names(s, u, d, g);
    }
    forall u: nat, d: nat | u < |s'.pending| && Holds(s'.pending[u], d)
      ensures Taken(s', u, d)
    {
      assert Holds(s.pending[u], d) && Taken(s, u, d);
    }
  }

  lemma ShareKeeps(s: Sys, t: nat, fd: nat, f: nat, u: nat, d: nat)
    requires Inv(s) && Names(s, t, fd, f) && s.pending[t] == Idle && u < |s.filp| && d < NR_OPEN && s.filp[u][d] == None
    ensures f < |s.files| && s.files[f].count > 0 && Inv(Share(s, f, u, d))
  {
    var s' := Share(s, f, u, d);
    SlotAdded(s, s', u, d, f);
    EndChanged(s, s', f);
    NamedCounts(s, t, fd, f);
    assert s.files[f].bound;
    assert Holds(s.pending[u], d) ==> Taken(s, u, d);
    forall v: nat, e: nat, g: nat | Names(s', v, e, g)
      ensures (Holds(s'.pending[v], e) <==> !s'.files[g].bound) && (!s'.files[g].bound ==> s'.files[g].count == 1)
    {
      assert v != u || e != d ==> Names(s, v, e, g);
    }
    forall v: nat, e: nat | v < |s'.pending| && Holds(s'.pending[v], e)
      ensures Taken(s', v, e)
    {
      assert Holds(s.pending[v], e) && Taken(s, v, e);
    }
  }

  /** The two panics on the way of sys_close cannot happen. */
  lemma CloseReady(s: Sys, t: nat, fd: nat, f: nat)
    requires Inv(s) && Names(s, t, fd, f) && s.pending[t] == Idle
    ensures f < |s.files| && s.files[f].count > 0 && s.files[f].bound
    ensures s.files[f].inode < |s.inodes| && s.inodes[s.files[f].inode].count > 0
  {
    NamedCounts(s, t, fd, f);
    assert s.files[f].bound;
    assert f in Ends(s, s.files[f].inode);
  }

  lemma CloseKeeps(s: Sys, t: nat, fd: nat, f: nat)
    requires Inv(s) && Names(s, t, fd, f) && s.pending[t] == Idle
    requires f < |s.files| && s.files[f].count > 0 && s.files[f].inode < |s.inodes|
    requires s.inodes[s.files[f].inode].count > 0
    ensures Inv(Close(s, t, fd))
  {
    var s' := Close(s, t, fd);
    CloseReady(s, t, fd, f);
    CloseEnds(s, t, fd, f);
    SlotDropped(s, s', t, fd, f);
    NamedCounts(s, t, fd, f);
    forall u: nat, d: nat, g: nat | Names(s', u, d, g)
      ensures (Holds(s'.pending[u], d) <==> !s'.files[g].bound) && (!s'.files[g].bound ==> s'.files[g].count == 1)
    {
      assert Names(s, u, d, g);
    }
    forall u: nat, d: nat | u < |s'.pending| && Holds(s'.pending[u], d)
      ensures Taken(s', u, d)
    {
      assert Holds(s.pending[u], d) && Taken(s, u, d);
    }
  }

  lemma CloseEnds(s: Sys, t: nat, fd: nat, f: nat)
    requires Inv(s) && Names(s, t, fd, f) && f < |s.files| && s.files[f].bound && s.files[f].count > 0
    requires s.files[f].inode < |s.inodes| && s.inodes[s.files[f].inode].count > 0
    ensures EndsOk(Close(s, t, fd)) && PipesOk(Close(s, t, fd))
  {
    var s' := Close(s, t, fd);
    var i := s.files[f].inode;
    EndChanged(s, s', f);
    assert IsEnd(s, f, i);
    forall j: nat | j < |s'.inodes| && s'.inodes[j].pipe
      ensures PipeOk(s', j)
    {
      assert PipeOk(s, j) && (s.inodes[i].pipe ==> PipeOk(s, i));
    }
  }

  /** The references to an inode from elsewhere change; nobody else holds a pipe. */
  lemma OthersKeep(s: Sys, i: nat, others: nat)
    requires Inv(s) && i < |s.inodes| && !s.inodes[i].pipe
    ensures Inv(s.(inodes := s.inodes[i := s.inodes[i].(count := |Ends(s, i)| + others, others := others)]))
  {
    var s' := s.(inodes := s.inodes[i := s.inodes[i].(count := |Ends(s, i)| + others, others := others)]);
    assert forall u: nat, d: nat, g: nat :: Names(s', u, d, g) <==> Names(s, u, d, g);
    assert forall g: nat :: Slots(s', g) == Slots(s, g);
    assert forall j: nat :: Ends(s', j) == Ends(s, j);
    assert forall u: nat, d: nat :: Taken(s', u, d) <==> Taken(s, u, d);
  }

  // ---------------------------------------------------------------- runs

  /** The atomic steps of open, close, dup, pipe, fork and exit; `OthersTo` is the rest of the kernel. */
  datatype Step =
    | Claiming(t: nat, fd: nat, f: nat, next: Call)
    | Unclaiming(t: nat, fd: nat, next: Call)
    | Binding(t: nat, fd: nat, i: nat, inode: Inode, next: Call)
    | Sharing(t: nat, fd: nat, u: nat, d: nat)
    | Closing(t: nat, fd: nat)
    | OthersTo(i: nat, others: nat)

  /** What the code has made sure of before it takes a step. */
  ghost predicate Enabled(s: Sys, a: Step) {
    match a
    case Claiming(t, fd, f, c) =>
      && t < |s.filp| == |s.pending| && fd < |s.filp[t]| && s.filp[t][fd] == None && f < |s.files|
      && s.files[f].count == 0
      && forall d: nat :: Holds(c, d) <==> Holds(s.pending[t], d) || d == fd
    case Unclaiming(t, fd, c) =>
      && t < |s.filp| == |s.pending| && Holds(s.pending[t], fd)
      && forall d: nat :: Holds(c, d) <==> Holds(s.pending[t], d) && d != fd
    case Binding(t, fd, i, inode, c) =>
      && t < |s.filp| == |s.pending| && Holds(s.pending[t], fd) && i < |s.inodes|
      && (forall d: nat :: Holds(c, d) <==> Holds(s.pending[t], d) && d != fd)
      && inode.count == |Ends(s, i)| + 1 + inode.others
      && (inode.pipe ==> inode.others == 0 && (s.inodes[i].pipe || inode.page in s.pool))
      && (s.inodes[i].pipe ==> inode.pipe && inode.page == s.inodes[i].page)
    case Sharing(t, fd, u, d) =>
      && Taken(s, t, fd) && t < |s.pending| && s.pending[t] == Idle
      && u < |s.filp| && d < |s.filp[u]| && s.filp[u][d] == None
    case Closing(t, fd) => Taken(s, t, fd) && t < |s.pending| && s.pending[t] == Idle
    case OthersTo(i, others) => i < |s.inodes| && !s.inodes[i].pipe
  }

  /** A free page, or the one that inode `i` has, is no other pipe's. */
  lemma OwnPage(s: Sys, i: nat, inode: Inode)
    requires Inv(s) && i < |s.inodes| && (inode.pipe ==> s.inodes[i].pipe || inode.page in s.pool)
    requires s.inodes[i].pipe ==> inode.page == s.inodes[i].page
    ensures inode.pipe ==>
      forall j: nat :: j < |s.inodes| && j != i && s.inodes[j].pipe ==> s.inodes[j].page != inode.page
  {
    assert forall j: nat :: j < |s.inodes| && s.inodes[j].pipe ==> PipeOk(s, j);
  }

  ghost function Do(s: Sys, a: Step): Sys
    requires Inv(s) && Enabled(s, a)
  {
    match a
    case Claiming(t, fd, f, c) => Claim(s, t, fd, f, c)
    case Unclaiming(t, fd, c) => UnclaimKeeps(s, t, fd, c); Unclaim(s, t, fd, c)
    case Binding(t, fd, i, inode, c) =>
      OwnPage(s, i, inode);
      BindKeeps(s, t, fd, i, inode, c);
      Bind(s, t, fd, i, inode, c)
    case Sharing(t, fd, u, d) =>
      var f := s.filp[t][fd].value;
      assert Names(s, t, fd, f);
      Share(s, f, u, d)
    case Closing(t, fd) =>
      var f := s.filp[t][fd].value;
      assert Names(s, t, fd, f);
      CloseReady(s, t, fd, f);
      Close(s, t, fd)
    case OthersTo(i, others) =>
      s.(inodes := s.inodes[i := s.inodes[i].(count := |Ends(s, i)| + others, others := others)])
  }

  lemma StepKeeps(s: Sys, a: Step)
    requires Inv(s) && Enabled(s, a)
    ensures Inv(Do(s, a))
  {
    hide Inv;
    match a
    case Claiming(t, fd, f, c) => RowIs(s, t); ClaimKeeps(s, t, fd, f, c);
    case Unclaiming(t, fd, c) => UnclaimKeeps(s, t, fd, c);
    case Binding(t, fd, i, inode, c) => OwnPage(s, i, inode); BindKeeps(s, t, fd, i, inode, c);
    case Sharing(t, fd, u, d) => RowIs(s, u); ShareKeeps(s, t, fd, s.filp[t][fd].value, u, d);
    case Closing(t, fd) => CloseReady(s, t, fd, s.filp[t][fd].value); CloseKeeps(s, t, fd, s.filp[t][fd].value);
    case OthersTo(i, others) => OthersKeep(s, i, others);
  }

  lemma RowIs(s: Sys, t: nat)
    requires Inv(s) && t < |s.filp|
    ensures |s.filp[t]| == NR_OPEN
  {
  }

  /** A run of any tasks in any order: each state comes from the one before by a step that was possible. */
  ghost predicate IsRun(states: seq<Sys>, steps: seq<Step>) {
    |states| == |steps| + 1 && forall i :: 0 <= i < |steps| ==> Takes(states[i], steps[i], states[i + 1])
  }

  ghost predicate Takes(s: Sys, a: Step, s': Sys) {
    Inv(s) ==> Enabled(s, a) && s' == Do(s, a)
  }

  /** In every state of every run f_count is the number of descriptors, and so for the rest of `Inv`. */
  lemma {:induction false} RunKeeps(states: seq<Sys>, steps: seq<Step>, n: nat)
    requires IsRun(states, steps) && Inv(states[0]) && n < |states|
    ensures Inv(states[n])
  {
    if n > 0 {
      RunKeeps(states, steps, n - 1);
      assert Takes(states[n - 1], steps[n - 1], states[n]);
      StepKeeps(states[n - 1], steps[n - 1]);
    }
  }

  /** A run of these steps, one after the other, goes from `s` to `s'`. */
  ghost predicate Leads(s: Sys, steps: seq<Step>, s': Sys) {
    exists states :: IsRun(states, steps) && states[0] == s && states[|steps|] == s'
  }

  lemma LeadsNowhere(s: Sys)
    ensures Leads(s, [], s)
  {
    assert IsRun([s], []);
  }

  lemma LeadsOn(s: Sys, steps: seq<Step>, m: Sys, a: Step)
    requires Leads(s, steps, m) && Inv(m) && Enabled(m, a)
    ensures Leads(s, steps + [a], Do(m, a)) && Inv(Do(m, a))
  {
    hide Inv, Enabled, Do;
    StepKeeps(m, a);
    var states :| IsRun(states, steps) && states[0] == s && states[|steps|] == m;
    var states', steps' := states + [Do(m, a)], steps + [a];
    forall i | 0 <= i < |steps'|
      ensures Takes(states'[i], steps'[i], states'[i + 1])
    {
      assert i < |steps| ==> Takes(states[i], steps[i], states[i + 1]);
    }
    assert IsRun(states', steps');
  }

  lemma LeadsOne(s: Sys, a: Step)
    requires Inv(s) && Enabled(s, a)
    ensures Leads(s, [a], Do(s, a))
  {
    LeadsNowhere(s);
    LeadsOn(s, [], s, a);
    assert [] + [a] == [a];
  }

  lemma LeadsBoth(s: Sys, x: seq<Step>, m: Sys, y: seq<Step>, s': Sys)
    requires Leads(s, x, m) && Leads(m, y, s')
    ensures Leads(s, x + y, s')
  {
    hide Takes;
    var a :| IsRun(a, x) && a[0] == s && a[|x|] == m;
    var b :| IsRun(b, y) && b[0] == m && b[|y|] == s';
    var states, steps := a + b[1..], x + y;
    forall i | 0 <= i < |steps|
      ensures Takes(states[i], steps[i], states[i + 1])
    {
      if i < |x| {
        assert Takes(a[i], x[i], a[i + 1]);
      } else {
        assert Takes(b[i - |x|], y[i - |x|], b[i - |x| + 1]);
      }
    }
    assert IsRun(states, steps);
  }

  /** The steps decide where they lead. */
  lemma {:induction false} LeadsOnce(s: Sys, steps: seq<Step>, s': Sys, s'': Sys)
    requires Inv(s) && Leads(s, steps, s') && Leads(s, steps, s'')
    ensures s' == s'' && Inv(s')
  {
    hide Inv, Enabled, Do;
    var a :| IsRun(a, steps) && a[0] == s && a[|steps|] == s';
    var b :| IsRun(b, steps) && b[0] == s && b[|steps|] == s'';
    SameRun(a, b, steps, |steps|);
    RunKeeps(a, steps, |steps|);
  }

  lemma {:induction false} SameRun(a: seq<Sys>, b: seq<Sys>, steps: seq<Step>, n: nat)
    requires IsRun(a, steps) && IsRun(b, steps) && Inv(a[0]) && b[0] == a[0] && n <= |steps|
    ensures a[n] == b[n]
  {
    hide Inv, Enabled, Do;
    if n > 0 {
      SameRun(a, b, steps, n - 1);
      RunKeeps(a, steps, n - 1);
      assert Takes(a[n - 1], steps[n - 1], a[n]) && Takes(b[n - 1], steps[n - 1], b[n]);
    }
  }

  /** What do_exit does to the descriptors of a task: it closes the open ones, in order. */
  function Closings(t: nat, row: seq<Option<nat>>): seq<Step> {
    if row == [] then []
    else
      var d := |row| - 1;
      Closings(t, row[..d]) + if row[d].Some? then [Closing(t, d)] else []
  }

  /** What fork does: the child gets the open ones. */
  function Sharings(t: nat, u: nat, row: seq<Option<nat>>): seq<Step> {
    if row == [] then []
    else
      var d := |row| - 1;
      Sharings(t, u, row[..d]) + if row[d].Some? then [Sharing(t, d, u, d)] else []
  }

  lemma ClosingsNext(t: nat, row: seq<Option<nat>>, d: nat)
    requires d < |row|
    ensures Closings(t, row[..0]) == []
    ensures Closings(t, row[..d + 1]) ==
      if row[d].Some? then Closings(t, row[..d]) + [Closing(t, d)] else Closings(t, row[..d])
  {
    assert row[..d + 1][..d] == row[..d];
  }

  lemma SharingsNext(t: nat, u: nat, row: seq<Option<nat>>, d: nat)
    requires d < |row|
    ensures Sharings(t, u, row[..0]) == []
    ensures Sharings(t, u, row[..d + 1]) ==
      if row[d].Some? then Sharings(t, u, row[..d]) + [Sharing(t, d, u, d)] else Sharings(t, u, row[..d])
  {
    assert row[..d + 1][..d] == row[..d];
  }

  // ---------------------------------------------------------------- pipes

  /** Descriptor `fd` of task `t` is an end of the pipe `i`. */
  ghost predicate Refers(s: Sys, t: nat, fd: nat, i: nat) {
    exists f: nat :: Names(s, t, fd, f) && IsEnd(s, f, i)
  }

  lemma EndNamed(s: Sys, f: nat, i: nat) returns (t: nat, fd: nat)
    requires Inv(s) && IsEnd(s, f, i)
    ensures Names(s, t, fd, f) && Refers(s, t, fd, i)
  {
    assert Slots(s, f) != {};
    var x :| x in Slots(s, f);
    t, fd := x.0, x.1;
  }

  /** A pipe that still has its page has a descriptor. */
  lemma PipeInUse(s: Sys, i: nat) returns (t: nat, fd: nat)
    requires Inv(s) && i < |s.inodes| && s.inodes[i].pipe
    ensures Refers(s, t, fd, i)
  {
    assert PipeOk(s, i) && Ends(s, i) != {};
    var f :| f in Ends(s, i);
    t, fd := EndNamed(s, f, i);
  }

  ghost predicate LastOne(s: Sys, t: nat, fd: nat, i: nat) {
    forall u: nat, d: nat :: Refers(s, u, d, i) ==> u == t && d == fd
  }

  /** sys_close frees the page of a pipe exactly when it closes the last descriptor of both ends. */
  lemma PageFreed(s: Sys, t: nat, fd: nat, f: nat, i: nat)
    requires Inv(s) && Names(s, t, fd, f) && s.pending[t] == Idle && i < |s.inodes| && s.inodes[i].pipe
    requires f < |s.files| && s.files[f].count > 0 && s.files[f].inode < |s.inodes|
    requires s.inodes[s.files[f].inode].count > 0
    ensures s.inodes[i].page in Close(s, t, fd).pool <==> LastOne(s, t, fd, i)
  {
    if LastOne(s, t, fd, i) { LastFrees(s, t, fd, f, i); } else { OthersHold(s, t, fd, f, i); }
  }

  lemma LastFrees(s: Sys, t: nat, fd: nat, f: nat, i: nat)
    requires Inv(s) && Names(s, t, fd, f) && s.pending[t] == Idle && i < |s.inodes| && s.inodes[i].pipe
    requires LastOne(s, t, fd, i)
    ensures IsEnd(s, f, i) && s.files[f].count == 1 && s.inodes[i].count == 1
  {
    var u, d := PipeInUse(s, i);
    forall g: nat | IsEnd(s, g, i)
      ensures g == f
    {
      var v, e := EndNamed(s, g, i);
    }
    assert Ends(s, i) == {f};
    forall x | x in Slots(s, f)
      ensures x == (t, fd)
    {
      assert Refers(s, x.0, x.1, i);
    }
    assert (t, fd) in Slots(s, f);
    assert Slots(s, f) == {(t, fd)};
    assert PipeOk(s, i);
  }

  lemma OthersHold(s: Sys, t: nat, fd: nat, f: nat, i: nat)
    requires Inv(s) && Names(s, t, fd, f) && s.pending[t] == Idle && i < |s.inodes| && s.inodes[i].pipe
    requires !LastOne(s, t, fd, i)
    requires f < |s.files| && s.files[f].count > 0 && s.files[f].inode < |s.inodes|
    requires s.inodes[s.files[f].inode].count > 0
    ensures s.inodes[i].page !in Close(s, t, fd).pool
  {
    var u: nat, d: nat :| Refers(s, u, d, i) && !(u == t && d == fd);
    var g: nat :| Names(s, u, d, g) && IsEnd(s, g, i);
    assert PipeOk(s, i);
    if s.files[f].inode == i && s.files[f].count == 1 {
      NamedCounts(s, t, fd, f);
      CloseReady(s, t, fd, f);
      assert g != f && g in Ends(s, i) && f in Ends(s, i);
      if s.inodes[i].count == 1 { OneElement(Ends(s, i), f, g); }
    }
  }
}
