/**
  mm/memory.c and the memory half of kernel/fork.c: mem_map, the page directory and the page
  tables, changed in place.  Every method says what it does to the user's view of memory
  (`Abs`) and keeps the invariant of CowModel.
 */
module CowMemory {
  import opened CowModel

  class MemoryManager {
    const memMap: array<nat>
    const pgDir: array<Word>
    const phys: array<seq<Word>>
    const high: nat
    ghost var held: seq<nat>

    ghost predicate Distinct() {
      memMap as object != pgDir && memMap as object != phys && pgDir as object != phys
    }

    ghost function View(): Mem
      reads this, memMap, pgDir, phys
    {
      Mem(memMap[..], pgDir[..], phys[..], held, high)
    }

    ghost predicate Valid()
      reads this, memMap, pgDir, phys
    {
      Distinct() && Shape(View()) && Inv(View())
    }

    /**
      mem_init on the machine that head.s left behind: slot 0 maps memory to itself through tables
      in the frames after the directory, everything from `start` to `end` is free.
     */
    constructor (start: nat, end: nat)
      requires LOW <= start <= end <= LOW + PAGING_PAGES
      ensures Valid() && Abs(View()) == map[] && fresh(memMap) && fresh(pgDir) && fresh(phys) && high == end
      ensures held == memMap[..]
      ensures forall f: nat :: Counted(View(), f) ==> Count(View(), f) == if start <= f < end then 0 else USED
      ensures forall d :: SLOT_DIRS <= d < ENTRIES ==> !pgDir[d].present
    {
      high := end;
      memMap := new nat[PAGING_PAGES];
      pgDir := new Word[ENTRIES](d => if d < 4 then Full(d + 1) else ZERO);
      phys := new seq<Word>[LOW + PAGING_PAGES](f => if 1 <= f <= 4 then IdentityTable(f - 1) else Zeros());
      new;
      var k := 0;
      while k < PAGING_PAGES
        invariant k <= PAGING_PAGES
        invariant forall j :: 0 <= j < k ==> memMap[j] == USED
        invariant forall f :: 0 <= f < LOW + PAGING_PAGES ==>
          phys[f] == if 1 <= f <= 4 then IdentityTable(f - 1) else Zeros()
        invariant forall d :: 0 <= d < ENTRIES ==> pgDir[d] == if d < 4 then Full(d + 1) else ZERO
      {
        memMap[k] := USED;
        k := k + 1;
      }
      k := start - LOW;
      while k < end - LOW
        invariant start - LOW <= k <= end - LOW
        invariant forall j :: 0 <= j < PAGING_PAGES ==> memMap[j] == if start - LOW <= j < k then 0 else USED
        invariant forall f :: 0 <= f < LOW + PAGING_PAGES ==>
          phys[f] == if 1 <= f <= 4 then IdentityTable(f - 1) else Zeros()
        invariant forall d :: 0 <= d < ENTRIES ==> pgDir[d] == if d < 4 then Full(d + 1) else ZERO
      {
        memMap[k] := 0;
        k := k + 1;
      }
      held := memMap[..];
      BootInv(View());
    }

    // -------------------------------------------------------------- single stores

    method WriteEntry(t: nat, i: nat, w: Word)
      requires Distinct() && t < phys.Length && i < |phys[t]|
      modifies phys
      ensures View() == old(View()).(phys := old(View()).phys[t := old(phys[t])[i := w]])
    {
      phys[t] := phys[t][i := w];
    }

    method WriteDir(d: nat, w: Word)
      requires Distinct() && d < pgDir.Length
      modifies pgDir
      ensures View() == old(View()).(dir := old(View()).dir[d := w])
    {
      pgDir[d] := w;
    }

    /** get_free_page: the highest frame with count 0, zeroed; 0 when there is none. */
    method GetFreePage() returns (f: nat)
      requires Valid()
      modifies this`held, memMap, phys
      ensures Valid()
      ensures f == 0 ==> View() == old(View())
      ensures f == 0 <==> old(FreeCount(View())) == 0
      ensures f != 0 ==> FreeCount(View()) == old(FreeCount(View())) - 1
      ensures f != 0 ==> Counted(old(View()), f) && Count(old(View()), f) == 0 && View() == Alloc(old(View()), f)
      ensures f != 0 ==> Fresh(View(), f) && View().phys[f] == Zeros() && Abs(View()) == old(Abs(View()))
      ensures f != 0 ==> old(held)[f - LOW] == 0
      ensures f != 0 ==> forall g :: f < g && Counted(old(View()), g) ==> Count(old(View()), g) != 0
    {
      var n := memMap.Length;
      while n > 0 && memMap[n - 1] != 0
        invariant 0 <= n <= memMap.Length
        invariant forall k :: n <= k < memMap.Length ==> memMap[k] != 0
        invariant View() == old(View())
      {
        n := n - 1;
      }
      if n == 0 {
        NoneFree(View());
        return 0;
      }
      f := n - 1 + LOW;
      AllocKeeps(View(), f);
      assert Count(View(), f) == 0 && Held(View(), f) == 0;
      memMap[n - 1] := 1;
      phys[f] := Zeros();
      held := held[n - 1 := 1];
      assert View() == Alloc(old(View()), f);
      FreeAfter(old(View()), View(), n - 1, 1);
    }

    /** free_page; its two panics are the callers' obligations. */
    method FreePage(f: nat)
      requires Distinct() && Shape(View())
      requires f >= LOW ==> f < high && Count(View(), f) > 0
      modifies memMap
      ensures View() == if f < LOW then old(View()) else SetCount(old(View()), f, old(Count(View(), f)) - 1)
    {
      if f < LOW { return; }
      memMap[f - LOW] := memMap[f - LOW] - 1;
    }

    /** One turn of the inner loop of free_page_tables. */
    method ClearEntry(d: nat, j: nat)
      requires Valid() && HasTable(View(), d) && j < ENTRIES
      modifies memMap, phys
      ensures Valid() && held == old(held)
      ensures DropStep(old(View()), View(), d, j)
    {
      DropIsStep(View(), d, j);
      var t := pgDir[d].page;
      if phys[t][j].present {
        FreePage(phys[t][j].page);
      }
      WriteEntry(t, j, ZERO);
      assert View() == Drop(old(View()), Lin(d, j));
    }

    /** The last two statements of the outer loop of free_page_tables. */
    method ReleaseTable(d: nat)
      requires Valid() && HasTable(View(), d) && EmptyTable(View(), d)
      modifies memMap, pgDir
      ensures Valid() && held == old(held)
      ensures DropTableStep(old(View()), View(), d)
    {
      DropTableKeeps(View(), d);
      FreePage(pgDir[d].page);
      WriteDir(d, ZERO);
      assert View() == DropTable(old(View()), d);
    }

    /** free_page_tables over `n` directory entries from `first`. */
    method FreePageTables(first: nat, n: nat)
      requires Valid() && SLOT_DIRS <= first && first + n <= ENTRIES
      modifies memMap, pgDir, phys
      ensures Valid() && held == old(held)
      ensures FreedUpTo(old(View()), View(), first, n, 0)
    {
      hide Inv, FreedUpTo;
      ghost var m0 := View();
      var k := 0;
      NothingFreed(m0, first);
      while k < n
        invariant k <= n && Valid() && held == m0.held
        invariant FreedUpTo(m0, View(), first, k, 0)
      {
        if pgDir[first + k].present {
          var j := 0;
          while j < ENTRIES
            invariant j <= ENTRIES && Valid() && held == m0.held && HasTable(View(), first + k)
            invariant FreedUpTo(m0, View(), first, k, j)
          {
            ghost var m1 := View();
            ClearEntry(first + k, j);
            FreedEntry(m0, m1, View(), first, k, j);
            j := j + 1;
          }
          ghost var m2 := View();
          TableEmptied(m0, m2, first, k);
          ReleaseTable(first + k);
          FreedTable(m0, m2, View(), first, k);
        } else {
          FreedNothing(m0, View(), first, k);
        }
        k := k + 1;
      }
    }

    /** get_free_page for a page table, and the directory entry that names it. */
    method NewTable(d: nat) returns (ok: bool)
      requires Valid() && SLOT_DIRS <= d < ENTRIES && !pgDir[d].present
      modifies this`held, memMap, pgDir, phys
      ensures Valid() && held == old(held)
      ensures ok ==> NewTableStep(old(View()), View(), d) && HasTable(View(), d)
      ensures !ok ==> View() == old(View())
      ensures ok <==> old(FreeCount(View())) > 0
      ensures ok ==> FreeCount(View()) == old(FreeCount(View())) - 1
    {
      ghost var m0 := View();
      var f := GetFreePage();
      if f == 0 { return false; }
      ghost var m1 := View();
      NewTableIsStep(m0, f, d);
      WriteDir(d, Full(f));
      held := held[f - LOW := 0];
      assert View() == InstallTable(m1, d, f);
      return true;
    }

    /** The stores of one turn of the inner loop of copy_page_tables. */
    method ShareStores(s: nat, d: nat, j: nat)
      requires Distinct() && Shape(View()) && s < ENTRIES && SLOT_DIRS <= d < ENTRIES && j < ENTRIES
      requires pgDir[s].page < phys.Length && pgDir[d].page < phys.Length && pgDir[s].page != pgDir[d].page
      requires pgDir[s].present && pgDir[d].present
      requires phys[pgDir[s].page][j].page >= LOW ==>
        Counted(View(), phys[pgDir[s].page][j].page) && Count(View(), phys[pgDir[s].page][j].page) < 255
      modifies memMap, phys
      ensures View() == CopiedEntry(old(View()), s, d, j)
    {
      ghost var m0 := View();
      var sTable, dTable := pgDir[s].page, pgDir[d].page;
      var page := phys[sTable][j].(writable := false);
      WriteEntry(dTable, j, page);
      if page.page >= LOW {
        WriteEntry(sTable, j, page);
        memMap[page.page - LOW] := (memMap[page.page - LOW] + 1) % 256;
        StoresCommute(m0.phys, sTable, dTable, j, page);
      }
    }

    /** One turn of the inner loop of copy_page_tables: entry `j` of tables `s` (from) and `d` (to). */
    method CopyEntry(s: nat, d: nat, j: nat)
      requires Valid() && HasTable(View(), d) && j < ENTRIES && !Mapped(View(), Lin(d, j)) && CanCopy(View(), s, d, j)
      modifies memMap, phys
      ensures Valid() && held == old(held)
      ensures CopyStep(old(View()), View(), Lin(s, j), Lin(d, j)) && pgDir[..] == old(pgDir[..])
      ensures FreeCount(View()) == old(FreeCount(View()))
    {
      assert pgDir[s].present && pgDir[s].page < phys.Length;
      if !phys[pgDir[s].page][j].present {
        assert !Entry(View(), Lin(s, j)).present;
        return;
      }
      CopyIsStep(View(), s, d, j);
      ShareStores(s, d, j);
    }

    /** The inner loop of copy_page_tables, for directory entry `k` of a copy that began in state `m0`. */
    method CopyTable(from: nat, to: nat, k: nat, ghost m0: Mem, ghost n: nat)
      requires Valid() && Inv(m0) && CanFork(m0, from, to, n) && k < n && m0.dir[from + k].present
      requires CopiedUpTo(m0, View(), from, to, n, k + 1, k, 0) && HasTable(View(), to + k)
      modifies memMap, phys
      ensures Valid() && held == old(held) && FreeCount(View()) == old(FreeCount(View()))
      ensures CopiedUpTo(m0, View(), from, to, n, k + 1, k, if from == 0 then KERNEL_PAGES else ENTRIES)
    {
      hide Inv, CopiedUpTo, CopyStep, CanCopy, FreeCount;
      var nr := if from == 0 then KERNEL_PAGES else ENTRIES;
      var j := 0;
      while j < nr
        invariant j <= nr && Valid() && held == old(held) && FreeCount(View()) == old(FreeCount(View()))
        invariant CopiedUpTo(m0, View(), from, to, n, k + 1, k, j) && HasTable(View(), to + k)
      {
        ghost var m := View();
        CopySourceReady(m0, m, from, to, n, k, j);
        CopyEntry(from + k, to + k, j);
        CopiedNext(m0, m, View(), from, to, n, k, j);
        j := j + 1;
      }
    }

    /**
      copy_page_tables over `n` directory entries.  From slot 0 it copies only the first 640 kB.
      False means memory ran out with the copy half done, which is so exactly when there are fewer free
      frames than page tables to copy.
     */
    method CopyPageTables(from: nat, to: nat, n: nat) returns (ok: bool)
      requires Valid() && from + n <= pgDir.Length && CanFork(View(), from, to, n)
      modifies this`held, memMap, pgDir, phys
      ensures Valid() && held == old(held)
      ensures ok ==> CopiedUpTo(old(View()), View(), from, to, n, n, EndDirs(from, n), EndEntries(from))
      ensures !ok ==> exists k: nat :: k < n && CopiedUpTo(old(View()), View(), from, to, n, n, k, 0)
      ensures ok <==> old(FreeCount(View())) >= Tables(old(pgDir[..]), from, n)
    {
      hide Inv, CopiedUpTo, NewTableStep, CopyStep, CanCopy, FreeCount;
      ghost var m0 := View();
      var k := 0;
      NothingCopied(m0, from, to, n);
      InvKernel(m0);
      while k < n
        invariant k <= n && Valid() && held == m0.held
        invariant CopiedUpTo(m0, View(), from, to, n, k, if from == 0 && k == 1 then 0 else k,
                             if k == 1 then EndEntries(from) else 0)
        invariant FreeCount(View()) == FreeCount(m0) - Tables(m0.dir, from, k)
      {
        ghost var m1 := View();
        DirsLeft(m0, m1, from, to, n, k);
        if pgDir[from + k].present {
          var got := NewTable(to + k);
          if !got {
            TablesGrow(m0.dir, from, k + 1, n);
            MoreDirs(m0, m1, from, to, n, k, k);
            return false;
          }
          CopiedNewTable(m0, m1, View(), from, to, n, k);
          CopyTable(from, to, k, m0, n);
          if from != 0 {
            CopiedWhole(m0, View(), from, to, n, k);
          }
        } else {
          CopiedNone(m0, View(), from, to, n, k);
        }
        k := k + 1;
      }
      return true;
    }

    /**
      copy_mem: an eager copy in the user's eyes, or, when there are fewer free frames than page tables
      to copy, a roll-back that puts every frame count back.
     */
    method CopyMem(from: nat, to: nat, n: nat) returns (ok: bool)
      requires Valid() && from + n <= pgDir.Length && CanFork(View(), from, to, n)
      modifies this`held, memMap, pgDir, phys
      ensures Valid() && held == old(held)
      ensures TablesOutside(old(View()), View(), to, n) && LowSame(old(View()), View())
      ensures ok ==> Abs(View()) == old(Abs(View())) + Copied(old(View()), from, to, EndDirs(from, n), EndEntries(from))
      ensures !ok ==> Abs(View()) == old(Abs(View())) && memMap[..] == old(memMap[..])
      ensures !ok ==> forall d :: to <= d < to + n ==> !pgDir[d].present
      ensures ok <==> old(FreeCount(View())) >= Tables(old(pgDir[..]), from, n)
    {
      hide Inv, CopiedUpTo, FreedUpTo, Abs, CanFork, TablesOutside, LowSame, FreeCount;
      ghost var m0 := View();
      ok := CopyPageTables(from, to, n);
      ghost var m1 := View();
      if !ok {
        CanForkRange(m0, from, to, n);
        ghost var k: nat :| k < n && CopiedUpTo(m0, m1, from, to, n, n, k, 0);
        FreePageTables(to, n);
        RolledBack(m0, m1, View(), from, to, n, k);
      } else {
        CopyIsEager(m0, m1, from, to, n);
      }
    }

    /** put_page: false when a page table was needed and there was no memory for it. */
    method PutPage(f: nat, d: nat, i: nat) returns (ok: bool)
      requires Valid() && Fresh(View(), f) && IsUser(Lin(d, i)) && !Mapped(View(), Lin(d, i))
      modifies this`held, memMap, pgDir, phys
      ensures Valid()
      ensures TablesOutside(old(View()), View(), d, 1) && LowSame(old(View()), View())
      ensures ok ==> Abs(View()) == old(Abs(View()))[Lin(d, i) := old(phys[f])] && held == old(held)[f - LOW := 0]
      ensures !ok ==> View() == old(View())
      ensures ok <==> old(HasTable(View(), d) || FreeCount(View()) > 0)
    {
      hide Inv, Abs, FreeCount;
      ghost var m0 := View();
      if !pgDir[d].present {
        ok := NewTable(d);
        if !ok { return; }
        NewTableKeepsFresh(m0, View(), d, f);
      } else {
        ok := true;
      }
      ghost var m1 := View();
      assert !Mapped(m1, Lin(d, i));
      TablePrivate(m1, d);
      InstallPageKeeps(m1, Lin(d, i), f);
      WriteEntry(pgDir[d].page, i, Full(f));
      held := held[f - LOW := 0];
      assert View() == InstallPage(m1, Lin(d, i), f);
    }

    /** The stores of the copying half of un_wp_page. */
    method CopyOut(d: nat, i: nat, newPage: nat)
      requires Distinct() && Shape(View()) && d < ENTRIES && i < ENTRIES && Counted(View(), newPage)
      requires pgDir[d].present && pgDir[d].page < phys.Length
      requires var e := phys[pgDir[d].page][i].page;
        && e < phys.Length && e != newPage && e != pgDir[d].page && newPage != pgDir[d].page
        && (e >= LOW ==> Count(View(), e) > 0)
      modifies this`held, memMap, phys
      ensures View() == CopyPage(old(View()), Lin(d, i), newPage)
    {
      var t := pgDir[d].page;
      var oldPage := phys[t][i].page;
      if oldPage >= LOW {
        memMap[oldPage - LOW] := memMap[oldPage - LOW] - 1;
      }
      WriteEntry(t, i, Full(newPage));
      phys[newPage] := phys[oldPage];
      held := held[newPage - LOW := 0];
    }

    method Present(d: nat, i: nat) returns (present: bool)
      requires Valid() && IsUser(Lin(d, i))
      ensures present == Mapped(View(), Lin(d, i)) && (present ==> HasTable(View(), d))
    {
      if !pgDir[d].present { return false; }
      TablePrivate(View(), d);
      return phys[pgDir[d].page][i].present;
    }

    /** un_wp_page: afterwards the entry is writable and nobody reads anything different. */
    method UnWpPage(d: nat, i: nat) returns (ok: bool)
      requires Valid() && Mapped(View(), Lin(d, i)) && HasTable(View(), d)
      modifies this`held, memMap, phys
      ensures Valid() && held == old(held) && LowSame(old(View()), View())
      ensures Abs(View()) == old(Abs(View()))
      ensures ok ==> Mapped(View(), Lin(d, i)) && Entry(View(), Lin(d, i)).writable
      ensures !ok ==> View() == old(View())
      ensures ok <==> old(!Shared(View(), Lin(d, i)) || FreeCount(View()) > 0)
    {
      hide Inv, Abs, FreeCount;
      ghost var m0, a := View(), Lin(d, i);
      MappedFrame(m0, a);
      var t := pgDir[d].page;
      var oldPage := phys[t][i].page;
      if oldPage >= LOW && memMap[oldPage - LOW] == 1 {
        RetagEntryKeeps(m0, a, Entry(m0, a).(writable := true));
        WriteEntry(t, i, phys[t][i].(writable := true));
        return true;
      }
      ok := CopyShared(d, i);
    }

    /** The copying half of un_wp_page. */
    method CopyShared(d: nat, i: nat) returns (ok: bool)
      requires Valid() && Mapped(View(), Lin(d, i)) && HasTable(View(), d) && Shared(View(), Lin(d, i))
      modifies this`held, memMap, phys
      ensures Valid() && held == old(held) && LowSame(old(View()), View())
      ensures Abs(View()) == old(Abs(View()))
      ensures ok ==> Mapped(View(), Lin(d, i)) && Entry(View(), Lin(d, i)).writable
      ensures !ok ==> View() == old(View())
      ensures ok <==> old(FreeCount(View())) > 0
    {
      hide Inv, Abs, FreeCount;
      ghost var m0, a := View(), Lin(d, i);
      MappedFrame(m0, a);
      var newPage := GetFreePage();
      if newPage == 0 { return false; }
      ghost var m1 := View();
      AllocKeeps(m0, newPage);
      FreshHasNoRefs(m1, newPage);
      CopyPageKeeps(m1, a, newPage);
      CopyOut(d, i, newPage);
      return true;
    }

    /** A store by a user task: the paging unit faults on a read-only page, then retries. */
    method UserStore(d: nat, i: nat, off: nat, w: Word) returns (ok: bool)
      requires Valid() && Mapped(View(), Lin(d, i)) && HasTable(View(), d) && off < ENTRIES
      modifies this`held, memMap, phys
      ensures Valid() && held == old(held) && LowSame(old(View()), View()) && pgDir[..] == old(pgDir[..])
      ensures Lin(d, i) in old(Abs(View())) && |old(Abs(View()))[Lin(d, i)]| == ENTRIES
      ensures Abs(View()) ==
        if ok then old(Abs(View()))[Lin(d, i) := old(Abs(View()))[Lin(d, i)][off := w]] else old(Abs(View()))
      ensures ok <==> !old(NeedsCopy(View(), Lin(d, i))) || old(FreeCount(View())) > 0
    {
      hide Inv, Abs, FreeCount;
      ghost var a := Lin(d, i);
      MappedFrame(View(), a);
      var t := pgDir[d].page;
      ok := true;
      if !phys[t][i].writable {
        ok := UnWpPage(d, i);
        if !ok { return; }
      }
      ghost var m1 := View();
      MappedFrame(m1, a);
      StoreKeeps(m1, a, off, w);
      var f := phys[t][i].page;
      WriteEntry(t, i, phys[t][i].(dirty := true));
      WriteEntry(f, off, w);
      assert View() == Store(m1, a, off, w);
    }

    /** free_page on a frame that only the kernel holds. */
    method GiveBack(f: nat)
      requires Valid() && Fresh(View(), f)
      modifies this`held, memMap
      ensures Valid() && View() == Release(old(View()), f) && Abs(View()) == old(Abs(View())) && Count(View(), f) == 0
    {
      hide Inv, Abs;
      ghost var m := View();
      ReleaseKeeps(m, f);
      FreePage(f);
      held := held[f - LOW := 0];
      assert View() == Release(m, f);
    }

    /** The kernel writes a page that only it holds. */
    method Fill(f: nat, page: seq<Word>)
      requires Valid() && Fresh(View(), f) && |page| == ENTRIES
      modifies phys
      ensures Valid() && View() == old(View()).(phys := old(phys[..])[f := page]) && Abs(View()) == old(Abs(View()))
      ensures SameEntries(old(View()), View())
    {
      hide Inv, Abs;
      ghost var m := View();
      FillKeeps(m, f, page);
      phys[f] := page;
      assert View() == m.(phys := m.phys[f := page]);
    }

    /** do_no_page with a fresh page holding `page`: get_empty_page when that is all zero. */
    method AddPage(d: nat, i: nat, page: seq<Word>) returns (ok: bool)
      requires Valid() && IsUser(Lin(d, i)) && !Mapped(View(), Lin(d, i)) && |page| == ENTRIES
      modifies this`held, memMap, pgDir, phys
      ensures Valid() && held == old(held) && LowSame(old(View()), View())
      ensures TablesOutside(old(View()), View(), d, 1)
      ensures Abs(View()) == if ok then old(Abs(View()))[Lin(d, i) := page] else old(Abs(View()))
      ensures ok <==> old(FreeCount(View())) >= FramesFor(old(View()), d)
    {
      hide Inv, Abs, FreeCount;
      ghost var m0 := View();
      var f := GetFreePage();
      if f == 0 { return false; }
      ghost var m1 := View();
      AllocKeeps(m0, f);
      Fill(f, page);
      ghost var m2 := View();
      SameFree(m1, m2);
      assert HasTable(m2, d) <==> HasTable(m0, d);
      ok := PutPage(f, d, i);
      if !ok {
        GiveBack(f);
      }
    }

    /** try_to_share: the page at (p, i) is mapped at (c, i) too, when it is present, clean and counted. */
    method TryToShare(p: nat, c: nat, i: nat) returns (shared: bool, oom: bool)
      requires Valid() && SLOT_DIRS <= p < ENTRIES && SLOT_DIRS <= c < ENTRIES && i < ENTRIES && p != c
      requires SameOffset(Lin(p, i), Lin(c, i)) && !Mapped(View(), Lin(c, i))
      modifies this`held, memMap, pgDir, phys
      ensures Valid() && held == old(held) && LowSame(old(View()), View())
      ensures TablesOutside(old(View()), View(), c, 1) && !(shared && oom)
      ensures shared ==> Lin(p, i) in old(Abs(View()))
      ensures Abs(View()) ==
        if shared then old(Abs(View()))[Lin(c, i) := old(Abs(View()))[Lin(p, i)]] else old(Abs(View()))
      ensures shared || oom <==> old(Sharable(View(), Lin(p, i)))
      ensures oom <==> old(Sharable(View(), Lin(p, i)) && !HasTable(View(), c) && FreeCount(View()) == 0)
    {
      hide Inv, Abs, NewTableStep, CopyStep, FreeCount;
      ghost var m0 := View();
      shared, oom := false, false;
      if !pgDir[p].present { return; }
      TablePrivate(m0, p);
      var e := phys[pgDir[p].page][i];
      if !(e.present && !e.dirty) { return; }
      if e.page < LOW || e.page >= high { return; }
      if !pgDir[c].present {
        var ok := NewTable(c);
        if !ok { oom := true; return; }
        NewTableShares(m0, View(), p, c, i);
      }
      ghost var m1 := View();
      CopyEntry(p, c, i);
      SharesPage(m1, View(), p, c, i);
      shared := true;
    }
  }

  /** un_wp_page cannot just set the write bit: others map the frame too, or it is not counted. */
  predicate Shared(m: Mem, a: Lin) {
    var f := Entry(m, a).page;
    !(Counted(m, f) && Count(m, f) == 1)
  }

  /** A store at `a` needs a frame of its own. */
  predicate NeedsCopy(m: Mem, a: Lin) {
    !Entry(m, a).writable && Shared(m, a)
  }

  /** Some other page of any task has the same frame. */
  ghost predicate MappedTwice(m: Mem, a: Lin) {
    exists b :: b != a && Mapped(m, b) && Entry(m, b).page == Entry(m, a).page
  }

  /** A store copies a page only if it has to: the frame is low memory, or another page has it too. */
  lemma CopiesOnlyShared(m: Mem, a: Lin)
    requires Inv(m) && Mapped(m, a)
    ensures NeedsCopy(m, a) <==> !Entry(m, a).writable && (Entry(m, a).page < LOW || MappedTwice(m, a))
  {
    var f := Entry(m, a).page;
    if f >= LOW {
      if Count(m, f) == 1 { SoleMapping(m, a); }
      if !MappedTwice(m, a) {
        forall d | d in DirRefs(m, f) ensures false { TablePrivate(m, d); }
        assert PteRefs(m, f) == {a};
        assert Count(m, f) == |DirRefs(m, f)| + |PteRefs(m, f)| + Held(m, f);
      }
    }
  }

  /** The frames that a new page in directory entry `d` takes: itself, and a table if there is none. */
  function FramesFor(m: Mem, d: nat): nat {
    if HasTable(m, d) then 1 else 2
  }

  /** What try_to_share looks for in the other task. */
  predicate Sharable(m: Mem, a: Lin) {
    Mapped(m, a) && !Entry(m, a).dirty && LOW <= Entry(m, a).page < m.high
  }

  /** The page read at `a` is the same in both states. */
  ghost predicate SameAt(m: Mem, m': Mem, a: Lin) {
    Entry(m', a) == Entry(m, a) && (Mapped(m, a) ==> Content(m', a) == Content(m, a))
  }

  ghost predicate DropStep(m: Mem, m': Mem, d: nat, j: nat) {
    && m'.dir == m.dir && !Mapped(m', Lin(d, j)) && LowSame(m, m')
    && forall a :: IsUser(a) && a != Lin(d, j) ==> SameAt(m, m', a)
  }

  lemma DropIsStep(m: Mem, d: nat, j: nat)
    requires Inv(m) && HasTable(m, d) && j < ENTRIES
    ensures var w := m.phys[m.dir[d].page][j];
      w.present && w.page >= LOW ==> w.page < m.high && Counted(m, w.page) && Count(m, w.page) > 0
    ensures Inv(Drop(m, Lin(d, j))) && DropStep(m, Drop(m, Lin(d, j)), d, j)
  {
    var a := Lin(d, j);
    assert Entry(m, a) == m.phys[m.dir[d].page][j];
    DropKeeps(m, a);
    TablePrivate(m, d);
    var m' := Drop(m, a);
    hide Inv, Abs, Entry, Content;
    InvViews(m);
    InvViews(m');
    forall b | Mapped(m, b) && b != a
      ensures Content(m', b) == Content(m, b)
    {
      ReadAt(m, b);
      ReadAt(m', b);
    }
  }

  ghost predicate DropTableStep(m: Mem, m': Mem, d: nat) {
    && d < |m.dir| && m'.dir == m.dir[d := ZERO] && LowSame(m, m')
    && (forall a :: IsUser(a) && a.d != d ==> SameAt(m, m', a))
    && (forall a :: IsUser(a) && a.d == d ==> !Mapped(m', a))
  }

  ghost predicate LowSame(m: Mem, m': Mem) {
    |m'.phys| == |m.phys| && forall f :: 0 <= f < LOW && f < |m.phys| ==> m'.phys[f] == m.phys[f]
  }

  /** How far a walk of free_page_tables has come: `k` directories and `j` entries of the next. */
  ghost predicate FreedUpTo(m0: Mem, m: Mem, first: nat, k: nat, j: nat) {
    && LowSame(m0, m) && |m.dir| == |m0.dir|
    && (forall d :: 0 <= d < |m.dir| && !(first <= d < first + k) ==> m.dir[d] == m0.dir[d])
    && (forall d :: first <= d < first + k && d < |m.dir| ==> !m.dir[d].present)
    && (forall a :: IsUser(a) && !Passed(a, first, k, j) ==> SameAt(m0, m, a))
    && (forall a :: IsUser(a) && Passed(a, first, k, j) ==> !Mapped(m, a))
  }

  lemma NothingFreed(m: Mem, first: nat)
    ensures FreedUpTo(m, m, first, 0, 0)
  {
  }

  lemma TableEmptied(m0: Mem, m: Mem, first: nat, k: nat)
    requires FreedUpTo(m0, m, first, k, ENTRIES) && SLOT_DIRS <= first && first + k < ENTRIES
    ensures EmptyTable(m, first + k)
  {
    assert forall a :: IsUser(a) && a.d == first + k ==> Passed(a, first, k, ENTRIES);
  }

  lemma FreedEntry(m0: Mem, m: Mem, m': Mem, first: nat, k: nat, j: nat)
    requires FreedUpTo(m0, m, first, k, j) && j < ENTRIES
    requires SLOT_DIRS <= first && first + k < ENTRIES && DropStep(m, m', first + k, j)
    ensures FreedUpTo(m0, m', first, k, j + 1)
  {
    PassedNext(first, k, j);
  }

  lemma FreedTable(m0: Mem, m: Mem, m': Mem, first: nat, k: nat)
    requires FreedUpTo(m0, m, first, k, ENTRIES)
    requires SLOT_DIRS <= first && first + k < ENTRIES && DropTableStep(m, m', first + k)
    ensures FreedUpTo(m0, m', first, k + 1, 0)
  {
    assert forall a :: IsUser(a) ==> (Passed(a, first, k + 1, 0) <==> Passed(a, first, k, ENTRIES));
  }

  lemma FreedNothing(m0: Mem, m: Mem, first: nat, k: nat)
    requires FreedUpTo(m0, m, first, k, 0)
    requires SLOT_DIRS <= first && first + k < ENTRIES && !HasTable(m, first + k)
    ensures FreedUpTo(m0, m, first, k + 1, 0)
  {
    assert forall a :: IsUser(a) ==> (Passed(a, first, k + 1, 0) <==> Passed(a, first, k, 0) || a.d == first + k);
  }

  // ---------------------------------------------------------------- copying

  ghost predicate NewTableStep(m: Mem, m': Mem, d: nat) {
    && d < |m.dir| == |m'.dir| && HasTable(m', d) && LowSame(m, m')
    && (forall e :: 0 <= e < |m.dir| && e != d ==> m'.dir[e] == m.dir[e])
    && (forall a :: IsUser(a) ==> SameAt(m, m', a))
    && (forall f :: 0 <= f < |m.phys| && Counted(m, f) && Count(m, f) != 0 ==> m'.phys[f] == m.phys[f])
  }

  lemma NewTableIsStep(m: Mem, f: nat, d: nat)
    requires Inv(m) && Counted(m, f) && Count(m, f) == 0 && SLOT_DIRS <= d < ENTRIES && !HasTable(m, d)
    ensures var m' := InstallTable(Alloc(m, f), d, f);
      Inv(m') && NewTableStep(m, m', d) && m'.held == m.held
  {
    AllocKeeps(m, f);
    var m1 := Alloc(m, f);
    InstallTableKeeps(m1, d, f);
    var m' := InstallTable(m1, d, f);
    hide Inv, Abs, Entry, Content;
    InvViews(m);
    InvViews(m');
    forall a | Mapped(m, a)
      ensures Content(m', a) == Content(m, a)
    {
      ReadAt(m, a);
      ReadAt(m', a);
    }
  }

  /** Entry `a` still names the same page with the same contents; it may have lost its write bit. */
  ghost predicate KeptAt(m: Mem, m': Mem, a: Lin) {
    && (Entry(m', a) == Entry(m, a) || Entry(m', a) == Entry(m, a).(writable := false))
    && (Mapped(m, a) ==> Content(m', a) == Content(m, a))
  }

  ghost predicate SharedAt(m: Mem, src: Lin, m': Mem, dst: Lin) {
    if Entry(m, src).present
    then Mapped(m', dst) && Entry(m', dst).page == Entry(m, src).page && Content(m', dst) == Content(m, src)
    else !Mapped(m', dst)
  }

  ghost predicate CopyStep(m: Mem, m': Mem, src: Lin, dst: Lin) {
    && m'.dir == m.dir && LowSame(m, m') && SharedAt(m, src, m', dst)
    && (forall a :: IsUser(a) && a != dst ==> KeptAt(m, m', a))
  }

  /** The source table is another task's at the same offset, or the kernel's (first 640 kB). */
  ghost predicate CanCopy(m: Mem, s: nat, d: nat, j: nat) {
    if s == 0 then |m.dir| > 0 && m.dir[0].present && j < KERNEL_PAGES
    else HasTable(m, s) && SameOffset(Lin(s, j), Lin(d, j)) && s != d
  }

  lemma StoresCommute(phys: seq<seq<Word>>, s: nat, d: nat, j: nat, w: Word)
    requires s < |phys| && d < |phys| && s != d && j < |phys[s]| && j < |phys[d]|
    ensures phys[d := phys[d][j := w]][s := phys[s][j := w]] == phys[s := phys[s][j := w]][d := phys[d][j := w]]
  {
  }

  /** The state after one entry has been shared. */
  ghost function CopiedEntry(m: Mem, s: nat, d: nat, j: nat): Mem
    requires Shape(m) && s < ENTRIES && HasTable(m, d) && j < ENTRIES
    requires m.dir[s].page < |m.phys| && m.dir[d].page < |m.phys|
    requires Entry(m, Lin(s, j)).page >= LOW ==> Counted(m, Entry(m, Lin(s, j)).page)
  {
    var w := Entry(m, Lin(s, j)).(writable := false);
    if w.page >= LOW then Duplicate(SetEntry(m, Lin(s, j), w), Lin(d, j), w) else Duplicate(m, Lin(d, j), w)
  }

  lemma CopyIsStep(m: Mem, s: nat, d: nat, j: nat)
    requires Inv(m) && HasTable(m, d) && j < ENTRIES && !Mapped(m, Lin(d, j))
    requires CanCopy(m, s, d, j)
    requires Entry(m, Lin(s, j)).present
    ensures m.dir[s].page != m.dir[d].page && m.dir[s].page < |m.phys|
    ensures var f := Entry(m, Lin(s, j)).page; f >= LOW ==> Counted(m, f) && Count(m, f) < 255
    ensures var m' := CopiedEntry(m, s, d, j);
      Inv(m') && CopyStep(m, m', Lin(s, j), Lin(d, j)) && FreeCount(m') == FreeCount(m)
  {
    hide FreeCount;
    TablePrivate(m, d);
    CopyTakesNone(m, s, d, j);
    if s == 0 || Entry(m, Lin(s, j)).page < LOW {
      CopyLowIsStep(m, s, d, j);
    } else {
      CopyUserIsStep(m, s, d, j);
      CountBound(m, Entry(m, Lin(s, j)).page);
    }
  }

  lemma InUse(m: Mem, a: Lin)
    requires Inv(m) && Mapped(m, a) && Entry(m, a).page >= LOW
    ensures Counted(m, Entry(m, a).page) && Count(m, Entry(m, a).page) > 0
  {
    assert a in PteRefs(m, Entry(m, a).page);
  }

  /** Sharing an entry only raises the count of a frame in use. */
  lemma CopyTakesNone(m: Mem, s: nat, d: nat, j: nat)
    requires Inv(m) && HasTable(m, d) && j < ENTRIES && CanCopy(m, s, d, j) && Entry(m, Lin(s, j)).present
    requires m.dir[s].page < |m.phys|
    ensures var f := Entry(m, Lin(s, j)).page; f >= LOW ==> Counted(m, f)
    ensures FreeCount(CopiedEntry(m, s, d, j)) == FreeCount(m)
  {
    hide FreeCount, CopiedEntry, Entry;
    var f := Entry(m, Lin(s, j)).page;
    if f >= LOW {
      assert s != 0 by { KernelLow(m, j); }
      InUse(m, Lin(s, j));
      CopiedCount(m, s, d, j);
      FreeAfter(m, CopiedEntry(m, s, d, j), f - LOW, Count(m, f) + 1);
    } else {
      CopiedCount(m, s, d, j);
      SameFree(m, CopiedEntry(m, s, d, j));
    }
  }

  lemma KernelLow(m: Mem, j: nat)
    requires Inv(m)
    ensures j < KERNEL_PAGES && Entry(m, Lin(0, j)).present ==> Entry(m, Lin(0, j)).page < LOW
  {
  }

  lemma CopiedCount(m: Mem, s: nat, d: nat, j: nat)
    requires Shape(m) && s < ENTRIES && HasTable(m, d) && j < ENTRIES
    requires m.dir[s].page < |m.phys| && m.dir[d].page < |m.phys|
    requires Entry(m, Lin(s, j)).page >= LOW ==> Counted(m, Entry(m, Lin(s, j)).page)
    ensures var f := Entry(m, Lin(s, j)).page;
      CopiedEntry(m, s, d, j).count == if f < LOW then m.count else m.count[f - LOW := Count(m, f) + 1]
  {
    hide Entry;
  }

  lemma CopyLowIsStep(m: Mem, s: nat, d: nat, j: nat)
    requires Inv(m) && HasTable(m, d) && j < ENTRIES && s < ENTRIES && !Mapped(m, Lin(d, j))
    requires Entry(m, Lin(s, j)).present && Entry(m, Lin(s, j)).page < LOW
    ensures m.dir[s].page < |m.phys|
    ensures var m' := CopiedEntry(m, s, d, j);
      Inv(m') && CopyStep(m, m', Lin(s, j), Lin(d, j))
  {
    hide Inv, Abs;
    InvViews(m);
    TablePrivate(m, d);
    var src, dst := Lin(s, j), Lin(d, j);
    var w := Entry(m, src).(writable := false);
    MapLowKeeps(m, dst, w);
    var m' := CopiedEntry(m, s, d, j);
    InvViews(m');
    OthersSame(m, m', dst, m.phys[w.page]);
  }

  lemma CopyUserIsStep(m: Mem, s: nat, d: nat, j: nat)
    requires Inv(m) && HasTable(m, d) && j < ENTRIES && HasTable(m, s) && s != d
    requires SameOffset(Lin(s, j), Lin(d, j)) && !Mapped(m, Lin(d, j)) && Entry(m, Lin(s, j)).present
    requires Entry(m, Lin(s, j)).page >= LOW
    ensures Counted(m, Entry(m, Lin(s, j)).page)
    ensures var m' := CopiedEntry(m, s, d, j);
      Inv(m') && CopyStep(m, m', Lin(s, j), Lin(d, j))
  {
    var src, dst := Lin(s, j), Lin(d, j);
    ProtectIsStep(m, src);
    var m1 := SetEntry(m, src, Entry(m, src).(writable := false));
    DuplicateIsStep(m1, src, dst);
    var m' := CopiedEntry(m, s, d, j);
    assert CopyStep(m, m', src, dst) by { ProtectThenDuplicate(m, m1, m', src, dst); }
  }

  lemma ProtectIsStep(m: Mem, a: Lin)
    requires Inv(m) && Mapped(m, a) && HasTable(m, a.d)
    ensures var m' := SetEntry(m, a, Entry(m, a).(writable := false));
      && Inv(m') && m'.dir == m.dir && LowSame(m, m') && m'.count == m.count && m'.held == m.held
      && Entry(m', a) == Entry(m, a).(writable := false) && Content(m', a) == Content(m, a)
      && forall b :: IsUser(b) && b != a ==> SameAt(m, m', b)
  {
    RetagEntryKeeps(m, a, Entry(m, a).(writable := false));
    var m' := SetEntry(m, a, Entry(m, a).(writable := false));
    forall b | Mapped(m, b)
      ensures Content(m', b) == Content(m, b)
    {
      assert b in Abs(m') && Abs(m')[b] == Abs(m)[b];
    }
  }

  lemma DuplicateIsStep(m: Mem, src: Lin, dst: Lin)
    requires Inv(m) && Mapped(m, src) && !Entry(m, src).writable && Entry(m, src).page >= LOW
    requires IsUser(dst) && HasTable(m, dst.d) && !Mapped(m, dst) && SameOffset(src, dst)
    ensures Counted(m, Entry(m, src).page)
    ensures var m' := Duplicate(m, dst, Entry(m, src));
      && Inv(m') && m'.dir == m.dir && LowSame(m, m') && SharedAt(m, src, m', dst)
      && forall b :: IsUser(b) && b != dst ==> SameAt(m, m', b)
  {
    DuplicateKeeps(m, src, dst);
    var m' := Duplicate(m, dst, Entry(m, src));
    assert LowSame(m, m');
    OthersSame(m, m', dst, Abs(m)[src]);
  }

  /** The view with one page added, read entry by entry. */
  lemma OthersSame(m: Mem, m': Mem, x: Lin, page: seq<Word>)
    requires Shape(m) && Shape(m') && EntriesOk(m) && EntriesOk(m') && OneEntry(m, m', x)
    requires Abs(m') == Abs(m)[x := page]
    ensures Mapped(m', x) && Content(m', x) == page
    ensures forall b :: IsUser(b) && b != x ==> SameAt(m, m', b)
  {
    assert x in Abs(m') && Abs(m')[x] == page;
    forall b | Mapped(m, b) && b != x
      ensures Content(m', b) == Content(m, b)
    {
      assert b in Abs(m') && Abs(m')[b] == Abs(m)[b];
    }
  }

  lemma ProtectThenDuplicate(m: Mem, m1: Mem, m': Mem, src: Lin, dst: Lin)
    requires IsUser(src) && IsUser(dst) && src != dst && Entry(m, src).present
    requires m1.dir == m.dir && LowSame(m, m1)
    requires Entry(m1, src) == Entry(m, src).(writable := false) && Content(m1, src) == Content(m, src)
    requires forall b :: IsUser(b) && b != src ==> SameAt(m, m1, b)
    requires m'.dir == m1.dir && LowSame(m1, m') && SharedAt(m1, src, m', dst)
    requires forall b :: IsUser(b) && b != dst ==> SameAt(m1, m', b)
    ensures CopyStep(m, m', src, dst)
  {
  }

  // ---------------------------------------------------------------- a whole copy

  /** What fork asks of the two slots: aligned, apart, the child's still without page tables. */
  ghost predicate CanFork(m: Mem, from: nat, to: nat, n: nat) {
    && |m.dir| == ENTRIES && from % SLOT_DIRS == 0 && to % SLOT_DIRS == 0 && from != to && SLOT_DIRS <= to
    && n <= SLOT_DIRS && from + n <= ENTRIES && to + n <= ENTRIES && (from == 0 ==> n == 1)
    && forall d :: to <= d < to + n ==> !m.dir[d].present
  }

  function EndDirs(from: nat, n: nat): nat {
    if from == 0 then 0 else n
  }

  function EndEntries(from: nat): nat {
    if from == 0 then KERNEL_PAGES else 0
  }

  /** How far a copy has come; the tables of the first `t` directories of the child may exist. */
  ghost predicate CopiedUpTo(m0: Mem, m: Mem, from: nat, to: nat, n: nat, t: nat, k: nat, j: nat) {
    && LowSame(m0, m) && |m.dir| == |m0.dir|
    && (forall d :: 0 <= d < |m.dir| && !(to <= d < to + t) ==> m.dir[d] == m0.dir[d])
    && (forall a :: IsUser(a) && !InRange(a, to, n) ==> KeptAt(m0, m, a))
    && (forall b :: IsUser(b) && Passed(b, to, k, j) ==> SharedAt(m0, Source(b, from, to), m, b))
    && (forall b :: IsUser(b) && InRange(b, to, n) && !Passed(b, to, k, j) ==> !Mapped(m, b))
  }

  lemma NothingCopied(m: Mem, from: nat, to: nat, n: nat)
    requires CanFork(m, from, to, n)
    ensures CopiedUpTo(m, m, from, to, n, 0, 0, 0)
  {
  }

  lemma DirsLeft(m0: Mem, m: Mem, from: nat, to: nat, n: nat, k: nat)
    requires CanFork(m0, from, to, n) && CopiedUpTo(m0, m, from, to, n, k, k, 0) && k < n
    ensures |m.dir| == ENTRIES && m.dir[from + k] == m0.dir[from + k] && !m.dir[to + k].present
  {
  }

  lemma MoreDirs(m0: Mem, m: Mem, from: nat, to: nat, n: nat, t: nat, k: nat)
    requires CopiedUpTo(m0, m, from, to, n, t, k, 0) && t <= n
    ensures CopiedUpTo(m0, m, from, to, n, n, k, 0)
  {
  }

  lemma CopiedNewTable(m0: Mem, m: Mem, m': Mem, from: nat, to: nat, n: nat, k: nat)
    requires CopiedUpTo(m0, m, from, to, n, k, k, 0) && NewTableStep(m, m', to + k)
    ensures CopiedUpTo(m0, m', from, to, n, k + 1, k, 0)
  {
  }

  lemma CopiedNext(m0: Mem, m: Mem, m': Mem, from: nat, to: nat, n: nat, k: nat, j: nat)
    requires CanFork(m0, from, to, n) && CopiedUpTo(m0, m, from, to, n, k + 1, k, j) && k < n && j < ENTRIES
    requires CopyStep(m, m', Lin(from + k, j), Lin(to + k, j))
    requires Entry(m, Lin(from + k, j)).present == Entry(m0, Lin(from + k, j)).present
    requires Entry(m, Lin(from + k, j)).page == Entry(m0, Lin(from + k, j)).page
    requires Entry(m, Lin(from + k, j)).present ==> Content(m, Lin(from + k, j)) == Content(m0, Lin(from + k, j))
    ensures CopiedUpTo(m0, m', from, to, n, k + 1, k, j + 1)
  {
    hide Entry, Content;
    PassedNext(to, k, j);
  }

  lemma InvKernel(m: Mem)
    requires Inv(m)
    ensures Shape(m) && KernelOk(m)
  {
  }

  lemma CopySourceReady(m0: Mem, m: Mem, from: nat, to: nat, n: nat, k: nat, j: nat)
    requires Inv(m0) && Inv(m) && CanFork(m0, from, to, n) && k < n && m0.dir[from + k].present
    requires CopiedUpTo(m0, m, from, to, n, k + 1, k, j) && HasTable(m, to + k)
    requires j < if from == 0 then KERNEL_PAGES else ENTRIES
    ensures !Mapped(m, Lin(to + k, j)) && CanCopy(m, from + k, to + k, j)
    ensures Entry(m, Lin(from + k, j)).present == Entry(m0, Lin(from + k, j)).present
    ensures Entry(m, Lin(from + k, j)).page == Entry(m0, Lin(from + k, j)).page
    ensures Entry(m, Lin(from + k, j)).present ==> Content(m, Lin(from + k, j)) == Content(m0, Lin(from + k, j))
  {
    hide Inv, Entry, Content, SharedAt, KeptAt, SameOffset;
    InvKernel(m0);
    InvKernel(m);
    var src := Lin(from + k, j);
    assert m.dir[from + k] == m0.dir[from + k];
    assert !Passed(Lin(to + k, j), to, k, j);
    if from == 0 {
      KernelSame(m0, m, j);
    } else {
      SlotsApart(from, to, n, k, j);
      assert IsUser(src) && !InRange(src, to, n);
      KeptReads(m0, m, src);
    }
  }

  lemma SlotsApart(from: nat, to: nat, n: nat, k: nat, j: nat)
    requires from % SLOT_DIRS == 0 && to % SLOT_DIRS == 0 && from != to && k < n <= SLOT_DIRS
    ensures !(to <= from + k < to + n) && SameOffset(Lin(from + k, j), Lin(to + k, j))
    ensures from != 0 ==> from >= SLOT_DIRS
  {
  }

  lemma KeptReads(m0: Mem, m: Mem, a: Lin)
    requires KeptAt(m0, m, a) && IsUser(a)
    ensures Entry(m, a).present == Entry(m0, a).present && Entry(m, a).page == Entry(m0, a).page
    ensures Entry(m, a).present ==> Content(m, a) == Content(m0, a)
  {
  }

  /** What task 0 hands on lies in low memory. */
  lemma KernelSame(m0: Mem, m: Mem, j: nat)
    requires Shape(m0) && Shape(m) && KernelOk(m0) && LowSame(m0, m) && m.dir[0] == m0.dir[0] && j < KERNEL_PAGES
    ensures Entry(m, Lin(0, j)) == Entry(m0, Lin(0, j))
    ensures Entry(m, Lin(0, j)).present ==> Content(m, Lin(0, j)) == Content(m0, Lin(0, j))
  {
  }

  lemma CopiedWhole(m0: Mem, m: Mem, from: nat, to: nat, n: nat, k: nat)
    requires CopiedUpTo(m0, m, from, to, n, k + 1, k, ENTRIES)
    ensures CopiedUpTo(m0, m, from, to, n, k + 1, k + 1, 0)
  {
    assert forall a :: IsUser(a) ==> (Passed(a, to, k + 1, 0) <==> Passed(a, to, k, ENTRIES));
  }

  lemma CopiedNone(m0: Mem, m: Mem, from: nat, to: nat, n: nat, k: nat)
    requires Inv(m0) && CanFork(m0, from, to, n) && CopiedUpTo(m0, m, from, to, n, k, k, 0)
    requires k < n && !m.dir[from + k].present
    ensures CopiedUpTo(m0, m, from, to, n, k + 1, k + 1, 0)
  {
    hide Inv, Entry, Content, KeptAt, SharedAt;
    forall b | IsUser(b) && Passed(b, to, k + 1, 0) && !Passed(b, to, k, 0)
      ensures b.d == to + k && SharedAt(m0, Source(b, from, to), m, b)
    {
      NoneToShare(m0, m, Source(b, from, to), b);
    }
  }

  lemma NoneToShare(m0: Mem, m: Mem, src: Lin, dst: Lin)
    requires src.d < |m0.dir| && !m0.dir[src.d].present && !Mapped(m, dst)
    ensures SharedAt(m0, src, m, dst)
  {
  }

  // ---------------------------------------------------------------- what fork amounts to

  /** No directory entry outside the given range has changed. */
  ghost predicate TablesOutside(m: Mem, m': Mem, first: nat, n: nat) {
    |m'.dir| == |m.dir| && forall d :: 0 <= d < |m.dir| && !(first <= d < first + n) ==> m'.dir[d] == m.dir[d]
  }

  lemma CanForkRange(m: Mem, from: nat, to: nat, n: nat)
    requires CanFork(m, from, to, n)
    ensures SLOT_DIRS <= to && to + n <= ENTRIES
  {
  }

  lemma CopyIsEager(m0: Mem, m: Mem, from: nat, to: nat, n: nat)
    requires Inv(m0) && Inv(m) && CanFork(m0, from, to, n)
    requires CopiedUpTo(m0, m, from, to, n, n, EndDirs(from, n), EndEntries(from))
    ensures Abs(m) == Abs(m0) + Copied(m0, from, to, EndDirs(from, n), EndEntries(from))
    ensures TablesOutside(m0, m, to, n) && LowSame(m0, m)
  {
    hide Inv;
    InvViews(m0);
    InvViews(m);
    var c := Copied(m0, from, to, EndDirs(from, n), EndEntries(from));
    NothingInChild(m0, from, to, n);
    forall a | IsUser(a)
      ensures a in Abs(m) <==> a in Abs(m0) + c
      ensures a in Abs(m) ==> Abs(m)[a] == (Abs(m0) + c)[a]
    {
      if InRange(a, to, n) {
        assert a !in Abs(m0);
      } else {
        assert KeptAt(m0, m, a);
        assert a !in c;
      }
    }
  }

  lemma InvViews(m: Mem)
    requires Inv(m)
    ensures Shape(m) && EntriesOk(m)
  {
  }

  lemma NothingInChild(m: Mem, from: nat, to: nat, n: nat)
    requires CanFork(m, from, to, n)
    ensures forall a :: IsUser(a) && InRange(a, to, n) ==> !Mapped(m, a)
  {
  }

  lemma RolledBack(m0: Mem, m1: Mem, m2: Mem, from: nat, to: nat, n: nat, k: nat)
    requires Inv(m0) && Inv(m1) && Inv(m2) && CanFork(m0, from, to, n) && m2.held == m0.held
    requires k < n && CopiedUpTo(m0, m1, from, to, n, n, k, 0) && FreedUpTo(m1, m2, to, n, 0)
    ensures Abs(m2) == Abs(m0) && m2.count == m0.count
    ensures TablesOutside(m0, m2, to, n) && LowSame(m0, m2)
    ensures forall d :: to <= d < to + n ==> !m2.dir[d].present
  {
    hide Inv;
    InvViews(m0);
    InvViews(m1);
    InvViews(m2);
    forall a | IsUser(a)
      ensures Entry(m2, a).present == Entry(m0, a).present && Entry(m2, a).page == Entry(m0, a).page
      ensures Mapped(m0, a) ==> Content(m2, a) == Content(m0, a)
    {
      if InRange(a, to, n) {
        assert !m0.dir[a.d].present && !m2.dir[a.d].present;
      } else {
        assert KeptAt(m0, m1, a) && SameAt(m1, m2, a);
      }
    }
    CountsDetermined(m0, m2);
    assert Abs(m2) == Abs(m0);
  }

  lemma NewTableKeepsFresh(m: Mem, m': Mem, d: nat, f: nat)
    requires Inv(m) && Inv(m') && NewTableStep(m, m', d) && m'.held == m.held && m'.high == m.high && Fresh(m, f)
    ensures Abs(m') == Abs(m) && Fresh(m', f) && m'.phys[f] == m.phys[f]
  {
    FreshHasNoRefs(m, f);
  }

  // ---------------------------------------------------------------- faults

  lemma MappedFrame(m: Mem, a: Lin)
    requires Inv(m) && Mapped(m, a) && HasTable(m, a.d)
    ensures LOW <= m.dir[a.d].page < |m.phys| && Entry(m, a) == m.phys[m.dir[a.d].page][a.i]
    ensures Entry(m, a).page < |m.phys| && Entry(m, a).page != m.dir[a.d].page
    ensures Entry(m, a).writable ==> Entry(m, a).page >= LOW
    ensures a in Abs(m) && |Abs(m)[a]| == ENTRIES
  {
    TablePrivate(m, a.d);
  }

  lemma NewTableShares(m: Mem, m': Mem, p: nat, c: nat, i: nat)
    requires Inv(m) && Inv(m') && NewTableStep(m, m', c) && p != c && i < ENTRIES
    requires HasTable(m, p) && !Mapped(m, Lin(c, i)) && IsUser(Lin(c, i))
    ensures Abs(m') == Abs(m) && HasTable(m', p) && Entry(m', Lin(p, i)) == Entry(m, Lin(p, i))
    ensures !Mapped(m', Lin(c, i)) && TablesOutside(m, m', c, 1) && LowSame(m, m')
  {
    hide Inv, Entry, Content, LowSame;
    InvViews(m);
    InvViews(m');
    assert SameAt(m, m', Lin(p, i)) && SameAt(m, m', Lin(c, i));
    forall a: Lin
      ensures a in Abs(m) <==> a in Abs(m')
      ensures a in Abs(m) ==> Abs(m')[a] == Abs(m)[a]
    {
      ReadAt(m, a);
      ReadAt(m', a);
      assert IsUser(a) ==> SameAt(m, m', a);
    }
  }

  lemma SharesPage(m: Mem, m': Mem, p: nat, c: nat, i: nat)
    requires Inv(m) && Inv(m') && CopyStep(m, m', Lin(p, i), Lin(c, i)) && p != c
    requires Mapped(m, Lin(p, i)) && IsUser(Lin(c, i)) && !Mapped(m, Lin(c, i))
    ensures Lin(p, i) in Abs(m) && Abs(m') == Abs(m)[Lin(c, i) := Abs(m)[Lin(p, i)]]
    ensures LowSame(m, m')
  {
    hide Inv, Abs;
    InvViews(m);
    InvViews(m');
    ReadAt(m, Lin(p, i));
    ReadAt(m', Lin(c, i));
    forall a: Lin
      ensures a in Abs(m) ==> IsUser(a)
      ensures a in Abs(m') ==> IsUser(a)
      ensures IsUser(a) && a != Lin(c, i) ==> (a in Abs(m') <==> a in Abs(m))
      ensures IsUser(a) && a != Lin(c, i) && a in Abs(m) ==> Abs(m')[a] == Abs(m)[a]
    {
      ReadAt(m, a);
      ReadAt(m', a);
      assert IsUser(a) && a != Lin(c, i) ==> KeptAt(m, m', a);
    }
  }

  /** The view at one page. */
  lemma ReadAt(m: Mem, a: Lin)
    requires Shape(m) && EntriesOk(m)
    ensures a in Abs(m) <==> Mapped(m, a)
    ensures a in Abs(m) ==> Abs(m)[a] == Content(m, a)
  {
  }

  // ---------------------------------------------------------------- boot

  const PAGING_PAGES: nat := 3840

  /** Page table `k` of the kernel's map of memory onto itself. */
  function IdentityTable(k: nat): (t: seq<Word>)
    ensures |t| == ENTRIES && forall i :: 0 <= i < ENTRIES ==> t[i] == Full(k * ENTRIES + i)
  {
    seq(ENTRIES, i => Full(k * ENTRIES + (if i >= 0 then i else 0)))
  }

  lemma BootInv(m: Mem)
    requires Shape(m) && m.held == m.count
    requires m.dir[0] == Full(1) && m.phys[1] == IdentityTable(0)
    requires forall d :: SLOT_DIRS <= d < ENTRIES ==> !m.dir[d].present
    requires forall k :: m.high - LOW <= k < |m.held| ==> m.held[k] > 0
    ensures Inv(m) && Abs(m) == map[]
  {
    assert forall a :: !Mapped(m, a);
    forall f | Counted(m, f)
      ensures Count(m, f) == |DirRefs(m, f)| + |PteRefs(m, f)| + Held(m, f)
    {
      assert DirRefs(m, f) == {} && PteRefs(m, f) == {};
    }
  }
}
