/**
  open, close, dup, pipe, fork and exit over the descriptor tables, the file table and the inode
  table, changed in place.  An error is the source's negative code; -EINVAL is -22, -EBADF -9 and
  -EMFILE -24.
 */
module Descriptors {
  import opened Common
  import opened FileTable
  import opened PipePages

  class Tables {
    const filp: array<seq<Option<nat>>>
    const files: array<File>
    const inodes: array<Inode>
    var pool: set<nat>
    var pending: seq<Call>

    ghost function View(): Sys
      reads this, filp, files, inodes
    {
      Sys(filp[..], files[..], inodes[..], pool, pending)
    }

    ghost predicate Valid()
      reads this, filp, files, inodes
    {
      Inv(View())
    }

    predicate Ready(t: nat)
      reads this, filp
    {
      t < filp.Length == |pending| && pending[t] == Idle
    }

    constructor (tasks: nat, entries: nat, inodeCount: nat, pages: set<nat>)
      ensures Valid() && fresh(filp) && fresh(files) && fresh(inodes)
      ensures filp.Length == tasks && files.Length == entries && inodes.Length == inodeCount && pool == pages
      ensures forall t: nat :: t < tasks ==> pending[t] == Idle && filp[t] == seq(NR_OPEN, _ => None)
    {
      filp := new seq<Option<nat>>[tasks](_ => seq(NR_OPEN, _ => None));
      files := new File[entries](_ => File(0, 0, false));
      inodes := new Inode[inodeCount](_ => Inode(0, false, 0, 0));
      pool, pending := pages, seq(tasks, _ => Idle);
      new;
      NothingOpen(View());
    }

    // -------------------------------------------------------------- searches

    /** The first empty slot from `from` on, NR_OPEN if there is none. */
    method FreeSlot(t: nat, from: nat) returns (fd: nat)
      requires t < filp.Length && |filp[t]| == NR_OPEN && from <= NR_OPEN
      ensures from <= fd <= NR_OPEN && (fd < NR_OPEN ==> filp[t][fd] == None)
      ensures forall d :: from <= d < fd ==> filp[t][d] != None
    {
      fd := from;
      while fd < NR_OPEN && filp[t][fd] != None
        invariant from <= fd <= NR_OPEN && forall d :: from <= d < fd ==> filp[t][d] != None
      {
        fd := fd + 1;
      }
    }

    /** The first unused entry from `from` on. */
    method FreeEntry(from: nat) returns (f: nat)
      requires from <= files.Length
      ensures from <= f <= files.Length && (f < files.Length ==> files[f].count == 0)
      ensures forall g :: from <= g < f ==> files[g].count > 0
    {
      f := from;
      while f < files.Length && files[f].count != 0
        invariant from <= f <= files.Length && forall g :: from <= g < f ==> files[g].count > 0
      {
        f := f + 1;
      }
    }

    // -------------------------------------------------------------- sys_open

    /** sys_open up to open_namei, where it may sleep. */
    method OpenStart(t: nat) returns (r: int)
      requires Valid() && Ready(t)
      modifies this, filp, files
      ensures Valid() && r >= -22
      ensures r < 0 ==> r == -22 && View() == old(View())
      ensures r < 0 <==>
        || old(forall d :: 0 <= d < NR_OPEN ==> filp[t][d] != None)
        || old(forall f :: 0 <= f < files.Length ==> files[f].count > 0)
      ensures r >= 0 ==> r < NR_OPEN && old(filp[t][r] == None && forall d :: 0 <= d < r ==> filp[t][d] != None)
      ensures r >= 0 ==>
        exists f: nat ::
          && FirstUnused(old(View()), f) && View() == Claim(old(View()), t, r, f, Opening(r))
          && Leads(old(View()), [Claiming(t, r, f, Opening(r))], View())
    {
      hide Inv, Leads;
      RowLength(View(), t);
      var fd := FreeSlot(t, 0);
      if fd >= NR_OPEN { return -22; }
      var f := FreeEntry(0);
      if f >= files.Length { return -22; }
      ghost var s := View();
      ClaimKeeps(s, t, fd, f, Opening(fd));
      LeadsOne(s, Claiming(t, fd, f, Opening(fd)));
      filp[t] := filp[t][fd := Some(f)];
      files[f] := File(files[f].count + 1, files[f].inode, false);
      pending := pending[t := Opening(fd)];
      assert View() == Claim(s, t, fd, f, Opening(fd)) && FirstUnused(s, f);
      return fd;
    }

    /** The rest of sys_open: open_namei gave inode `i` with a reference, or failed. */
    method OpenEnd(t: nat, fd: nat, i: Option<nat>)
      requires Valid() && t < filp.Length == |pending| && pending[t] == Opening(fd)
      requires i.Some? ==> i.value < inodes.Length && !inodes[i.value].pipe && inodes[i.value].others > 0
      modifies this, filp, files, inodes
      ensures Valid() && Ready(t) && pool == old(pool)
      ensures old(Taken(View(), t, fd) && filp[t][fd].value < files.Length)
      ensures i == None ==>
        View() == Unclaim(old(View()), t, fd, Idle) && Leads(old(View()), [Unclaiming(t, fd, Idle)], View())
      ensures i.Some? ==>
        var inode := old(inodes[i.value]).(others := old(inodes[i.value].others) - 1);
        && View() == Bind(old(View()), t, fd, i.value, inode, Idle)
        && Leads(old(View()), [Binding(t, fd, i.value, inode, Idle)], View())
    {
      hide Inv, Leads;
      ghost var s := View();
      HeldEntry(s, t, fd);
      var f := filp[t][fd].value;
      if i == None {
        UnclaimKeeps(s, t, fd, Idle);
        LeadsOne(s, Unclaiming(t, fd, Idle));
        filp[t] := filp[t][fd := None];
        files[f] := files[f].(count := 0);
        pending := pending[t := Idle];
        assert View() == Unclaim(s, t, fd, Idle);
      } else {
        var n := inodes[i.value];
        EndsAt(s, i.value);
        BindKeeps(s, t, fd, i.value, n.(others := n.others - 1), Idle);
        LeadsOne(s, Binding(t, fd, i.value, n.(others := n.others - 1), Idle));
        files[f] := File(1, i.value, true);
        inodes[i.value] := n.(others := n.others - 1);
        pending := pending[t := Idle];
        assert View() == Bind(s, t, fd, i.value, n.(others := n.others - 1), Idle);
      }
    }

    // -------------------------------------------------------------- sys_close, dup

    /** sys_close; neither of its panics is reached. */
    method CloseFd(t: nat, fd: nat) returns (r: int)
      requires Valid() && Ready(t)
      modifies this, filp, files, inodes
      ensures Valid() && pending == old(pending)
      ensures r == if old(Taken(View(), t, fd)) then 0 else -22
      ensures r < 0 ==> View() == old(View())
      ensures r == 0 ==> Closable(old(View()), t, fd) && View() == Close(old(View()), t, fd)
      ensures forall i: nat :: i < inodes.Length && old(inodes[i].pipe) ==>
        (old(inodes[i].page) in pool <==> LastOne(old(View()), t, fd, i))
      ensures Leads(old(View()), if r == 0 then [Closing(t, fd)] else [], View())
    {
      hide Inv, LastOne, Leads;
      ghost var s := View();
      RowLength(s, t);
      LeadsNowhere(s);
      if fd >= NR_OPEN { NotLast(s, t, fd); return -22; }
      if filp[t][fd] == None { NotLast(s, t, fd); return -22; }
      var f := filp[t][fd].value;
      CloseReady(s, t, fd, f);
      LeadsOne(s, Closing(t, fd));
      CloseKeeps(s, t, fd, f);
      forall i: nat | i < inodes.Length && inodes[i].pipe
        ensures inodes[i].page in Close(s, t, fd).pool <==> LastOne(s, t, fd, i)
      {
        PageFreed(s, t, fd, f, i);
      }
      filp[t] := filp[t][fd := None];
      files[f] := files[f].(count := files[f].count - 1, bound := files[f].count > 1);
      if files[f].count == 0 {
        Iput(files[f].inode);
      }
      assert View() == Close(s, t, fd);
      return 0;
    }

    /** iput, without its disk half. */
    method Iput(i: nat)
      requires i < inodes.Length && inodes[i].count > 0
      modifies this`pool, inodes
      ensures View() == FileTable.Iput(old(View()), i)
    {
      if inodes[i].pipe {
        inodes[i] := inodes[i].(count := inodes[i].count - 1);
        if inodes[i].count == 0 {
          pool := pool + {inodes[i].page};
          inodes[i] := inodes[i].(pipe := false);
        }
      } else {
        inodes[i] := inodes[i].(count := inodes[i].count - 1);
      }
    }

    /** dupfd: the first free descriptor from `arg` on becomes a second name of `fd`. */
    method DupFd(t: nat, fd: nat, arg: nat) returns (r: int)
      requires Valid() && Ready(t)
      modifies filp, files
      ensures Valid()
      ensures r == -9 <==> !old(Taken(View(), t, fd))
      ensures r == -22 <==> old(Taken(View(), t, fd)) && arg >= NR_OPEN
      ensures r == -24 <==>
        old(Taken(View(), t, fd) && arg < NR_OPEN && forall d :: arg <= d < NR_OPEN ==> filp[t][d] != None)
      ensures r < 0 ==> View() == old(View()) && r in {-9, -22, -24}
      ensures r >= 0 ==>
        arg <= r < NR_OPEN && old(filp[t][r] == None && forall d :: arg <= d < r ==> filp[t][d] != None)
      ensures r >= 0 ==>
        old(filp[t][fd].value) < files.Length && View() == Share(old(View()), old(filp[t][fd].value), t, r)
      ensures Leads(old(View()), if r >= 0 then [Sharing(t, fd, t, r)] else [], View())
    {
      hide Inv, Leads;
      ghost var s := View();
      RowLength(s, t);
      LeadsNowhere(s);
      if fd >= NR_OPEN { return -9; }
      if filp[t][fd] == None { return -9; }
      if arg >= NR_OPEN { return -22; }
      var d := FreeSlot(t, arg);
      if d >= NR_OPEN { return -24; }
      var f := filp[t][fd].value;
      ShareKeeps(s, t, fd, f, t, d);
      LeadsOne(s, Sharing(t, fd, t, d));
      filp[t] := filp[t][d := Some(f)];
      files[f] := files[f].(count := files[f].count + 1);
      assert View() == Share(s, f, t, d);
      return d;
    }

    /** sys_dup2: the new descriptor is closed first, whether or not the old one is open. */
    method Dup2(t: nat, fd: nat, newfd: nat) returns (r: int)
      requires Valid() && Ready(t)
      modifies this, filp, files, inodes
      ensures Valid() && pending == old(pending)
      ensures r >= 0 <==> old(Taken(View(), t, fd)) && newfd < NR_OPEN && fd != newfd
      ensures r >= 0 ==> r == newfd && filp[..] == old(filp[..])[t := old(filp[t])[newfd := old(filp[t][fd])]]
      ensures fd == newfd ==> r < 0 && !Taken(View(), t, fd)
      ensures Leads(old(View()),
                    (if old(Taken(View(), t, newfd)) then [Closing(t, newfd)] else []) +
                    (if r >= 0 then [Sharing(t, fd, t, newfd)] else []),
                    View())
      ensures forall i: nat :: i < inodes.Length && old(inodes[i].pipe) ==>
        (old(inodes[i].page) in pool <==> LastOne(old(View()), t, newfd, i))
    {
      hide Inv, LastOne, Leads;
      ghost var s := View();
      RowLength(s, t);
      var c := CloseFd(t, newfd);
      ghost var steps := if Taken(s, t, newfd) then [Closing(t, newfd)] else [];
      ghost var m := View();
      RowLength(View(), t);
      assert newfd < NR_OPEN ==> filp[t][newfd] == None;
      r := DupFd(t, fd, newfd);
      if r >= 0 {
        assert filp[t] == old(filp[t])[newfd := old(filp[t][fd])];
        assert filp[..] == old(filp[..])[t := filp[t]];
      }
      LeadsBoth(s, steps, m, if r >= 0 then [Sharing(t, fd, t, newfd)] else [], View());
    }

    // -------------------------------------------------------------- sys_pipe

    /** sys_pipe up to get_pipe_inode: two entries and two slots, or nothing. */
    method PipeStart(t: nat) returns (r: Option<(nat, nat)>)
      requires Valid() && Ready(t)
      modifies this, filp, files
      ensures Valid() && (r == None ==> View() == old(View()))
      ensures r.Some? <==> TwoEntries(old(View())) && TwoSlots(old(View()), t)
      ensures r.Some? ==> exists f0: nat, f1: nat :: PipeClaimed(old(View()), View(), t, r.value.0, r.value.1, f0, f1)
    {
      hide Inv, TwoEntries, TwoSlots, Leads;
      ghost var s := View();
      RowLength(s, t);
      var ok, f0, f1 := TakeEntries();
      if !ok { return None; }
      var fd0, fd1;
      SlotsSame(s, View(), t);
      ok, fd0, fd1 := TakeSlots(t, f0, f1);
      if !ok {
        files[f0] := files[f0].(count := 0);
        files[f1] := files[f1].(count := 0);
        assert View() == s;
        return None;
      }
      pending := pending[t := Piping(fd0, fd1)];
      UnusedEntry(s, f0);
      UnusedEntry(s, f1);
      ClaimTwo(s, t, fd0, fd1, f0, f1);
      ghost var s1 := Claim(s, t, fd0, f0, Opening(fd0));
      assert View() == Claim(s1, t, fd1, f1, Piping(fd0, fd1));
      assert PipeClaimed(s, View(), t, fd0, fd1, f0, f1);
      return Some((fd0, fd1));
    }

    /** Two unused entries are counted up, or none. */
    method TakeEntries() returns (ok: bool, f0: nat, f1: nat)
      modifies files
      ensures ok <==> TwoEntries(old(View()))
      ensures !ok ==> files[..] == old(files[..])
      ensures ok ==> f0 < f1 < files.Length && old(files[f0].count == 0 && files[f1].count == 0)
      ensures ok ==> FirstTwo(old(View()), f0, f1)
      ensures ok ==> files[..] == old(files[..])[f0 := old(files[f0]).(count := 1)][f1 := old(files[f1]).(count := 1)]
    {
      f0 := FreeEntry(0);
      f1 := 0;
      ghost var s := View();
      if f0 >= files.Length { OneEntry(s, f0); return false, f0, f1; }
      files[f0] := files[f0].(count := 1);
      f1 := FreeEntry(f0 + 1);
      assert forall f: nat :: f < f1 && f != f0 ==> s.files[f] == files[f] && s.files[f].count > 0;
      if f1 >= files.Length {
        files[f0] := files[f0].(count := 0);
        OneEntry(s, f0);
        return false, f0, f1;
      }
      files[f1] := files[f1].(count := 1);
      assert Unused(s, f0) && Unused(s, f1);
      return true, f0, f1;
    }

    /** Two empty slots are filled, or none. */
    method TakeSlots(t: nat, f0: nat, f1: nat) returns (ok: bool, fd0: nat, fd1: nat)
      requires t < filp.Length && |filp[t]| == NR_OPEN
      modifies filp
      ensures ok <==> TwoSlots(old(View()), t)
      ensures !ok ==> filp[..] == old(filp[..])
      ensures ok ==> fd0 < fd1 < NR_OPEN && old(filp[t][fd0] == None && filp[t][fd1] == None)
      ensures ok ==> FirstEmpties(old(View()), t, fd0, fd1)
      ensures ok ==> filp[..] == old(filp[..])[t := old(filp[t])[fd0 := Some(f0)][fd1 := Some(f1)]]
    {
      fd0 := FreeSlot(t, 0);
      fd1 := 0;
      ghost var s := View();
      if fd0 >= NR_OPEN { OneSlot(s, t, fd0); return false, fd0, fd1; }
      filp[t] := filp[t][fd0 := Some(f0)];
      fd1 := FreeSlot(t, fd0 + 1);
      assert forall d: nat :: d < fd1 && d != fd0 ==> s.filp[t][d] == filp[t][d] && s.filp[t][d] != None;
      if fd1 >= NR_OPEN {
        filp[t] := filp[t][fd0 := None];
        assert filp[t] == s.filp[t];
        OneSlot(s, t, fd0);
        return false, fd0, fd1;
      }
      filp[t] := filp[t][fd1 := Some(f1)];
      assert Empty(s, t, fd0) && Empty(s, t, fd1);
      return true, fd0, fd1;
    }

    /** The rest of sys_pipe: get_empty_inode found `i`; there may be no page for it. */
    method PipeEnd(t: nat, fd0: nat, fd1: nat, i: nat) returns (ok: bool)
      requires Valid() && t < filp.Length == |pending| && pending[t] == Piping(fd0, fd1) && fd0 != fd1
      requires i < inodes.Length && inodes[i].count == 0
      modifies this, filp, files, inodes
      ensures Valid() && Ready(t) && ok == (old(pool) != {})
      ensures old(Taken(View(), t, fd0) && filp[t][fd0].value < files.Length)
      ensures old(Taken(View(), t, fd1) && filp[t][fd1].value < files.Length)
      ensures ok ==>
        && inodes[i].page in old(pool)
        && View() == PipeMade(old(View()), t, old(filp[t][fd0].value), old(filp[t][fd1].value), i, inodes[i].page)
        && Leads(old(View()), PipeSteps(t, fd0, fd1, i, inodes[i].page), View())
      ensures !ok ==>
        && View() == PipeUndone(old(View()), t, fd0, fd1)
        && Leads(old(View()), [Unclaiming(t, fd0, Opening(fd1)), Unclaiming(t, fd1, Idle)], View())
    {
      hide Inv, Leads;
      ghost var s := View();
      HeldEntry(s, t, fd0);
      HeldEntry(s, t, fd1);
      DifferentEntries(s, t, fd0, fd1);
      var f0, f1 := filp[t][fd0].value, filp[t][fd1].value;
      if pool == {} {
        UnclaimTwo(s, t, fd0, fd1);
        filp[t] := filp[t][fd0 := None][fd1 := None];
        files[f0] := files[f0].(count := 0);
        files[f1] := files[f1].(count := 0);
        pending := pending[t := Idle];
        return false;
      }
      var page :| page in pool;
      BindTwo(s, t, fd0, fd1, i, page);
      pool := pool - {page};
      inodes[i] := Inode(2, true, page, 0);
      files[f0] := File(1, i, true);
      files[f1] := File(1, i, true);
      pending := pending[t := Idle];
      return true;
    }

    // -------------------------------------------------------------- fork and exit

    /** The descriptor half of copy_process: the child gets every descriptor of its parent. */
    method ForkFiles(t: nat, u: nat)
      requires Valid() && Ready(t) && Ready(u) && t != u && forall d :: 0 <= d < |filp[u]| ==> filp[u][d] == None
      modifies filp, files
      ensures Valid() && filp[..] == old(filp[..])[u := old(filp[t])]
      ensures forall f :: 0 <= f < files.Length ==> files[f].(count := 0) == old(files[f]).(count := 0)
      ensures Leads(old(View()), Sharings(t, u, old(filp[t])), View())
    {
      hide Inv, Share, Leads, Sharings;
      ghost var s := View();
      LeadsNowhere(s);
      RowLength(s, t);
      RowLength(s, u);
      SharingsNext(t, u, filp[t], 0);
      var row := filp[t];
      filp[u] := row;
      ghost var g := s;
      var i := 0;
      while i < NR_OPEN
        invariant i <= NR_OPEN && Inv(g) && g == s.(filp := g.filp, files := files[..])
        invariant Leads(s, Sharings(t, u, row[..i]), g)
        invariant View() == s.(filp := s.filp[u := row], files := files[..])
        invariant |g.filp| == |s.filp| && g.filp == s.filp[u := g.filp[u]] && |g.filp[u]| == NR_OPEN
        invariant forall d :: 0 <= d < NR_OPEN ==> g.filp[u][d] == if d < i then row[d] else None
        invariant forall f :: 0 <= f < files.Length ==> files[f].(count := 0) == old(files[f]).(count := 0)
      {
        SharingsNext(t, u, row, i);
        if row[i].Some? {
          var f := row[i].value;
          assert Names(g, t, i, f);
          LeadsOn(s, Sharings(t, u, row[..i]), g, Sharing(t, i, u, i));
          ShareKeeps(g, t, i, f, u, i);
          files[f] := files[f].(count := files[f].count + 1);
          ShareIs(g, f, u, i);
          g := Share(g, f, u, i);
        }
        i := i + 1;
      }
      assert row[..NR_OPEN] == row;
      assert g.filp[u] == row;
      assert View() == g;
    }

    /** The descriptor half of do_exit. */
    method ExitFiles(t: nat)
      requires Valid() && Ready(t)
      modifies this, filp, files, inodes
      ensures Valid() && pending == old(pending)
      ensures filp[..] == old(filp[..])[t := filp[t]] && forall d :: 0 <= d < |filp[t]| ==> filp[t][d] == None
      ensures Leads(old(View()), Closings(t, old(filp[t])), View())
      ensures forall i: nat :: i < inodes.Length && old(inodes[i].pipe) ==>
        (old(inodes[i].page) in pool <==> OnlyOf(old(View()), t, i))
    {
      hide Inv, LastOne, Leads, OnlyOf, Closings;
      ghost var s, row := View(), filp[t];
      RowLength(s, t);
      LeadsNowhere(s);
      ClosingsNext(t, row, 0);
      var i := 0;
      while i < NR_OPEN
        invariant i <= NR_OPEN && Valid() && Ready(t) && pending == old(pending)
        invariant filp[..] == old(filp[..])[t := filp[t]] && |filp[t]| == NR_OPEN
        invariant forall d :: 0 <= d < NR_OPEN ==> filp[t][d] == if d < i then None else row[d]
        invariant Leads(s, Closings(t, row[..i]), View())
      {
        ClosingsNext(t, row, i);
        if filp[t][i] != None {
          ghost var m := View();
          var r := CloseFd(t, i);
          LeadsBoth(s, Closings(t, row[..i]), m, [Closing(t, i)], View());
        }
        i := i + 1;
      }
      assert row[..NR_OPEN] == row;
      forall j: nat | j < |s.inodes| && s.inodes[j].pipe
        ensures s.inodes[j].page in pool <==> OnlyOf(s, t, j)
      {
        ExitFrees(s, row, View(), t, j);
      }
    }

    // -------------------------------------------------------------- the rest of the system

    /** Another part of the kernel takes a reference to an inode that is no pipe, or drops one of its own. */
    method Elsewhere(i: nat, grab: bool)
      requires Valid() && i < inodes.Length && !inodes[i].pipe && (grab || inodes[i].others > 0)
      modifies inodes
      ensures Valid()
      ensures var n, d := old(inodes[i]), if grab then 1 else -1;
        && inodes[..] == old(inodes[..])[i := n.(count := n.count + d, others := n.others + d)]
        && Leads(old(View()), [OthersTo(i, n.others + d)], View())
    {
      hide Inv, Leads;
      ghost var s := View();
      var n := inodes[i];
      var d := if grab then 1 else -1;
      EndsAt(s, i);
      OthersKeep(s, i, n.others + d);
      LeadsOne(s, OthersTo(i, n.others + d));
      inodes[i] := n.(count := n.count + d, others := n.others + d);
      assert View() == s.(inodes := s.inodes[i := n.(count := |Ends(s, i)| + n.others + d, others := n.others + d)]);
    }
  }

  lemma NothingOpen(s: Sys)
    requires |s.pending| == |s.filp| && forall t :: 0 <= t < |s.filp| ==> s.pending[t] == Idle && |s.filp[t]| == NR_OPEN
    requires forall t: nat, fd: nat, f: nat :: !Names(s, t, fd, f)
    requires forall f :: 0 <= f < |s.files| ==> s.files[f] == File(0, 0, false)
    requires forall i :: 0 <= i < |s.inodes| ==> s.inodes[i] == Inode(0, false, 0, 0)
    ensures Inv(s)
  {
    assert forall f: nat :: Slots(s, f) == {};
    assert forall i: nat :: Ends(s, i) == {};
  }

  predicate Closable(s: Sys, t: nat, fd: nat) {
    && Taken(s, t, fd) && s.filp[t][fd].value < |s.files|
    && var f := s.files[s.filp[t][fd].value];
       f.count > 0 && (f.count == 1 ==> f.inode < |s.inodes| && s.inodes[f.inode].count > 0)
  }

  lemma NotLast(s: Sys, t: nat, fd: nat)
    requires Inv(s) && !Taken(s, t, fd)
    ensures forall i: nat :: i < |s.inodes| && s.inodes[i].pipe ==> s.inodes[i].page !in s.pool && !LastOne(s, t, fd, i)
  {
    hide Inv;
    forall i: nat | i < |s.inodes| && s.inodes[i].pipe
      ensures s.inodes[i].page !in s.pool && !LastOne(s, t, fd, i)
    {
      PipePage(s, i);
      var u, d := PipeInUse(s, i);
      assert Taken(s, u, d);
    }
  }

  lemma RowLength(s: Sys, t: nat)
    requires Inv(s) && t < |s.filp|
    ensures |s.filp[t]| == NR_OPEN && |s.pending| == |s.filp|
    ensures forall d: nat, f: nat :: Names(s, t, d, f) ==> f < |s.files|
  {
  }

  lemma HeldEntry(s: Sys, t: nat, fd: nat)
    requires Inv(s) && t < |s.pending| && Holds(s.pending[t], fd)
    ensures Taken(s, t, fd) && s.filp[t][fd].value < |s.files| && s.files[s.filp[t][fd].value].count == 1
  {
    assert Taken(s, t, fd);
    assert Names(s, t, fd, s.filp[t][fd].value);
  }

  lemma EndsAt(s: Sys, i: nat)
    requires Inv(s) && i < |s.inodes|
    ensures s.inodes[i].count == |Ends(s, i)| + s.inodes[i].others
  {
  }

  lemma ShareIs(s: Sys, f: nat, u: nat, d: nat)
    requires u < |s.filp| && d < |s.filp[u]| && f < |s.files|
    ensures var s' := Share(s, f, u, d);
      s' == s.(filp := s.filp[u := s.filp[u][d := Some(f)]],
               files := s.files[f := s.files[f].(count := s.files[f].count + 1)])
  {
  }

  // ---------------------------------------------------------------- sys_pipe

  predicate Unused(s: Sys, f: nat) {
    f < |s.files| && s.files[f].count == 0
  }

  predicate Empty(s: Sys, t: nat, d: nat) {
    t < |s.filp| && d < |s.filp[t]| && s.filp[t][d] == None
  }

  ghost predicate TwoEntries(s: Sys) {
    exists f: nat, g: nat :: Unused(s, f) && Unused(s, g) && f != g
  }

  ghost predicate TwoSlots(s: Sys, t: nat) {
    exists d: nat, e: nat :: Empty(s, t, d) && Empty(s, t, e) && d != e
  }

  predicate FirstUnused(s: Sys, f: nat) {
    Unused(s, f) && forall g: nat :: g < f ==> !Unused(s, g)
  }

  predicate FirstTwo(s: Sys, f0: nat, f1: nat) {
    Unused(s, f0) && Unused(s, f1) && f0 < f1 && forall g: nat :: g < f1 && g != f0 ==> !Unused(s, g)
  }

  predicate FirstEmpties(s: Sys, t: nat, d: nat, e: nat) {
    Empty(s, t, d) && Empty(s, t, e) && d < e && forall c: nat :: c < e && c != d ==> !Empty(s, t, c)
  }

  ghost predicate PipeClaimed(s: Sys, s': Sys, t: nat, fd0: nat, fd1: nat, f0: nat, f1: nat) {
    && |s.pending| == |s.filp| && FirstEmpties(s, t, fd0, fd1) && FirstTwo(s, f0, f1)
    && s' == Claim(Claim(s, t, fd0, f0, Opening(fd0)), t, fd1, f1, Piping(fd0, fd1))
    && Leads(s, [Claiming(t, fd0, f0, Opening(fd0)), Claiming(t, fd1, f1, Piping(fd0, fd1))], s')
  }

  lemma ClaimTwo(s: Sys, t: nat, fd0: nat, fd1: nat, f0: nat, f1: nat)
    requires Inv(s) && t < |s.filp| && s.pending[t] == Idle && fd0 < NR_OPEN && fd1 < NR_OPEN && fd0 != fd1
    requires Empty(s, t, fd0) && Empty(s, t, fd1) && Unused(s, f0) && Unused(s, f1) && f0 != f1
    ensures var s2 := Claim(Claim(s, t, fd0, f0, Opening(fd0)), t, fd1, f1, Piping(fd0, fd1));
      && Inv(s2)
      && Leads(s, [Claiming(t, fd0, f0, Opening(fd0)), Claiming(t, fd1, f1, Piping(fd0, fd1))], s2)
  {
    hide Inv, Leads;
    RowLength(s, t);
    var a, b := Claiming(t, fd0, f0, Opening(fd0)), Claiming(t, fd1, f1, Piping(fd0, fd1));
    LeadsOne(s, a);
    StepKeeps(s, a);
    LeadsOn(s, [a], Do(s, a), b);
    assert [a] + [b] == [a, b];
  }

  lemma OneEntry(s: Sys, f: nat)
    requires forall g :: 0 <= g < |s.files| && g != f ==> s.files[g].count > 0
    ensures !TwoEntries(s)
  {
  }

  lemma OneSlot(s: Sys, t: nat, fd: nat)
    requires t < |s.filp| && forall d :: 0 <= d < |s.filp[t]| && d != fd ==> s.filp[t][d] != None
    ensures !TwoSlots(s, t)
  {
  }

  lemma SlotsSame(s: Sys, s': Sys, t: nat)
    requires s'.filp == s.filp
    ensures TwoSlots(s', t) <==> TwoSlots(s, t)
    ensures forall d: nat, e: nat :: FirstEmpties(s', t, d, e) ==> FirstEmpties(s, t, d, e)
  {
    assert forall d: nat :: Empty(s', t, d) <==> Empty(s, t, d);
  }

  lemma UnusedEntry(s: Sys, f: nat)
    requires Inv(s) && f < |s.files| && s.files[f].count == 0
    ensures !s.files[f].bound
  {
  }

  lemma DifferentEntries(s: Sys, t: nat, d: nat, e: nat)
    requires Inv(s) && Taken(s, t, d) && Taken(s, t, e) && d != e && s.filp[t][d].value < |s.files|
    requires s.files[s.filp[t][d].value].count == 1
    ensures s.filp[t][d] != s.filp[t][e]
  {
    NamedCounts(s, t, d, s.filp[t][d].value);
    assert Names(s, t, e, s.filp[t][e].value);
  }

  lemma EmptyInode(s: Sys, i: nat)
    requires Inv(s) && i < |s.inodes| && s.inodes[i].count == 0
    ensures |Ends(s, i)| == 0 && s.inodes[i].others == 0 && !s.inodes[i].pipe
  {
    assert s.inodes[i].pipe ==> PipeOk(s, i);
  }

  lemma PoolPage(s: Sys, i: nat, p: nat)
    requires Inv(s) && p in s.pool
    ensures forall j: nat :: j < |s.inodes| && j != i && s.inodes[j].pipe ==> s.inodes[j].page != p
  {
    assert forall j: nat :: j < |s.inodes| && s.inodes[j].pipe ==> PipeOk(s, j);
  }

  lemma OtherPipes(s: Sys, i: nat)
    requires Inv(s) && i < |s.inodes| && s.inodes[i].pipe
    ensures forall j: nat :: j < |s.inodes| && j != i && s.inodes[j].pipe ==> s.inodes[j].page != s.inodes[i].page
  {
  }

  lemma UnclaimIs(s: Sys, t: nat, fd: nat, c: Call)
    requires t < |s.filp| == |s.pending| && fd < |s.filp[t]| && s.filp[t][fd].Some? && s.filp[t][fd].value < |s.files|
    ensures var f := s.filp[t][fd].value;
      Unclaim(s, t, fd, c) ==
      s.(filp := s.filp[t := s.filp[t][fd := None]], files := s.files[f := s.files[f].(count := 0)],
         pending := s.pending[t := c])
  {
  }

  lemma BindIs(s: Sys, t: nat, fd: nat, i: nat, inode: Inode, c: Call)
    requires t < |s.filp| == |s.pending| && fd < |s.filp[t]| && s.filp[t][fd].Some? && s.filp[t][fd].value < |s.files|
    requires i < |s.inodes|
    requires inode.pipe
    ensures var f := s.filp[t][fd].value;
      Bind(s, t, fd, i, inode, c) ==
      s.(files := s.files[f := File(s.files[f].count, i, true)], inodes := s.inodes[i := inode],
         pending := s.pending[t := c], pool := s.pool - {inode.page})
  {
  }

  /** Both ends refer to inode `i`, which counts them and owns the page. */
  function PipeMade(s: Sys, t: nat, f0: nat, f1: nat, i: nat, page: nat): Sys
    requires t < |s.pending| && f0 < |s.files| && f1 < |s.files| && i < |s.inodes|
  {
    s.(files := s.files[f0 := File(1, i, true)][f1 := File(1, i, true)],
       inodes := s.inodes[i := Inode(2, true, page, 0)],
       pool := s.pool - {page}, pending := s.pending[t := Idle])
  }

  /** Each end is bound in turn; the first makes the pipe. */
  function PipeSteps(t: nat, fd0: nat, fd1: nat, i: nat, page: nat): seq<Step> {
    [Binding(t, fd0, i, Inode(1, true, page, 0), Opening(fd1)), Binding(t, fd1, i, Inode(2, true, page, 0), Idle)]
  }

  function PipeUndone(s: Sys, t: nat, fd0: nat, fd1: nat): Sys
    requires t < |s.pending| && Taken(s, t, fd0) && Taken(s, t, fd1) && s.filp[t][fd0].value < |s.files|
    requires s.filp[t][fd1].value < |s.files|
  {
    var f0, f1 := s.filp[t][fd0].value, s.filp[t][fd1].value;
    s.(filp := s.filp[t := s.filp[t][fd0 := None][fd1 := None]],
       files := s.files[f0 := s.files[f0].(count := 0)][f1 := s.files[f1].(count := 0)],
       pending := s.pending[t := Idle])
  }

  lemma UnclaimTwo(s: Sys, t: nat, fd0: nat, fd1: nat)
    requires Inv(s) && t < |s.filp| && s.pending[t] == Piping(fd0, fd1) && fd0 != fd1
    requires Taken(s, t, fd0) && Taken(s, t, fd1) && s.filp[t][fd0] != s.filp[t][fd1]
    requires s.filp[t][fd0].value < |s.files| && s.filp[t][fd1].value < |s.files|
    ensures var s' := PipeUndone(s, t, fd0, fd1);
      Inv(s') && Leads(s, [Unclaiming(t, fd0, Opening(fd1)), Unclaiming(t, fd1, Idle)], s')
  {
    hide Inv, Leads, Unclaim;
    RowLength(s, t);
    var f0, f1 := s.filp[t][fd0].value, s.filp[t][fd1].value;
    var a, b := Unclaiming(t, fd0, Opening(fd1)), Unclaiming(t, fd1, Idle);
    LeadsOne(s, a);
    UnclaimKeeps(s, t, fd0, Opening(fd1));
    UnclaimIs(s, t, fd0, Opening(fd1));
    var s1 := Unclaim(s, t, fd0, Opening(fd1));
    LeadsOn(s, [a], s1, b);
    assert [a] + [b] == [a, b];
    UnclaimKeeps(s1, t, fd1, Idle);
    UnclaimIs(s1, t, fd1, Idle);
    assert Unclaim(s1, t, fd1, Idle) == PipeUndone(s, t, fd0, fd1);
  }

  lemma BindTwo(s: Sys, t: nat, fd0: nat, fd1: nat, i: nat, page: nat)
    requires Inv(s) && t < |s.filp| && s.pending[t] == Piping(fd0, fd1) && fd0 != fd1 && i < |s.inodes|
    requires s.inodes[i].count == 0
    requires Taken(s, t, fd0) && Taken(s, t, fd1) && s.filp[t][fd0] != s.filp[t][fd1] && page in s.pool
    requires s.filp[t][fd0].value < |s.files| && s.filp[t][fd1].value < |s.files|
    requires s.files[s.filp[t][fd0].value].count == 1 && s.files[s.filp[t][fd1].value].count == 1
    ensures var s' := PipeMade(s, t, s.filp[t][fd0].value, s.filp[t][fd1].value, i, page);
      Inv(s') && Leads(s, PipeSteps(t, fd0, fd1, i, page), s')
  {
    hide Inv, Leads, Bind;
    RowLength(s, t);
    var f0, f1 := s.filp[t][fd0].value, s.filp[t][fd1].value;
    EmptyInode(s, i);
    PoolPage(s, i, page);
    var a, b := PipeSteps(t, fd0, fd1, i, page)[0], PipeSteps(t, fd0, fd1, i, page)[1];
    LeadsOne(s, a);
    BindKeeps(s, t, fd0, i, Inode(1, true, page, 0), Opening(fd1));
    BindIs(s, t, fd0, i, Inode(1, true, page, 0), Opening(fd1));
    var s1 := Bind(s, t, fd0, i, Inode(1, true, page, 0), Opening(fd1));
    EndsAt(s1, i);
    OtherPipes(s1, i);
    LeadsOn(s, [a], s1, b);
    assert [a] + [b] == [a, b];
    BindKeeps(s1, t, fd1, i, Inode(2, true, page, 0), Idle);
    BindIs(s1, t, fd1, i, Inode(2, true, page, 0), Idle);
    assert Bind(s1, t, fd1, i, Inode(2, true, page, 0), Idle) == PipeMade(s, t, f0, f1, i, page);
  }
}
