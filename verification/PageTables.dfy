/**
  lab5/nctuos/kernel/mem.c and the memory half of task.c: the page free list, reference counts and
  page tables, changed in place.  Every method says what it does to the flat map of each directory
  (`Translate`), to pp_ref and to the set of free pages.
 */
module PageTables {
  import opened Common
  import opened PageModel

  const EXT_PAGE: nat := 256                 // EXTPHYSMEM / PGSIZE
  const STACK_TOP: nat := 0xeebfe            // USTACKTOP >> 12
  const STACK_PAGES: nat := 10               // USR_STACK_SIZE / PGSIZE

  ghost predicate LinkAt(free: seq<nat>, link: seq<Option<nat>>, i: nat) {
    i < |free| && free[i] < |link| && link[free[i]] == if i + 1 < |free| then Some(free[i + 1]) else None
  }

  /** pp_link spells the free list, and is null on every other page. */
  ghost predicate Listed(free: seq<nat>, link: seq<Option<nat>>, head: Option<nat>) {
    && head == (if free == [] then None else Some(free[0]))
    && (forall i: nat :: i < |free| ==> LinkAt(free, link, i))
    && (forall f :: 0 <= f < |link| && f !in free ==> link[f] == None)
  }

  lemma ListedPop(free: seq<nat>, link: seq<Option<nat>>)
    requires free != [] && NoDups(free) && Listed(free, link, Some(free[0])) && free[0] < |link|
    ensures Listed(free[1..], link[free[0] := None], link[free[0]])
  {
    assert LinkAt(free, link, 0);
    var rest, link' := free[1..], link[free[0] := None];
    forall i: nat | i < |rest|
      ensures LinkAt(rest, link', i)
    {
      assert LinkAt(free, link, i + 1);
      assert rest[i] == free[i + 1] != free[0];
    }
    forall f | 0 <= f < |link'| && f !in rest
      ensures link'[f] == None
    {
      if f != free[0] {
        assert f !in free by { assert forall k :: 0 <= k < |free| && k > 0 ==> free[k] == rest[k - 1]; }
      }
    }
  }

  lemma ListedPush(free: seq<nat>, link: seq<Option<nat>>, head: Option<nat>, f: nat)
    requires Listed(free, link, head) && f < |link| && f !in free
    ensures Listed([f] + free, link[f := head], Some(f))
  {
    var all, link' := [f] + free, link[f := head];
    forall i: nat | i < |all|
      ensures LinkAt(all, link', i)
    {
      if i > 0 {
        assert LinkAt(free, link, i - 1);
        assert all[i] == free[i - 1] && all[i] in free;
      }
    }
  }

  /** The pages that page_init puts on the free list. */
  predicate Handed(f: nat, base: nat, kernelEnd: nat, n: nat) {
    1 <= f < base || kernelEnd <= f < n
  }

  class Memory {
    const ref: array<nat>
    const link: array<Option<nat>>
    const phys: array<seq<Pte>>
    var freeList: Option<nat>
    var numFree: nat
    ghost const usable: set<nat>
    ghost var free: seq<nat>
    ghost var dirs: set<nat>
    ghost var counted: set<(nat, nat)>

    ghost function View(): Mem
      reads this, ref, phys
    {
      Mem(ref[..], free, phys[..], dirs, counted)
    }

    ghost predicate Valid()
      reads this, ref, link, phys
    {
      && ref as object != link && ref as object != phys && link as object != phys && link.Length == ref.Length
      && Shape(View()) && Inv(View()) && Listed(free, link[..], freeList) && numFree == |free|
      && Within(View(), usable)
    }

    // -------------------------------------------------------------- the free list

    /**
      mem_init and page_init on `n` pages: page 0, the hole between base and extended memory, and the
      pages below `kernelEnd` that hold the kernel are never handed out.
     */
    constructor (n: nat, base: nat, kernelEnd: nat)
      requires 1 <= base <= EXT_PAGE <= kernelEnd <= n
      ensures Valid() && fresh(ref) && fresh(link) && fresh(phys) && ref.Length == n && dirs == {} && counted == {}
      ensures forall f: nat :: f in usable <==> Handed(f, base, kernelEnd, n)
      ensures forall f: nat :: f in free <==> f in usable
      ensures numFree == base - 1 + n - kernelEnd
    {
      ref := new nat[n](_ => 0);
      link := new Option<nat>[n](_ => None);
      phys := new seq<Pte>[n](_ => EmptyTable());
      freeList, numFree, free, dirs, counted := None, 0, [], {}, {};
      usable := set f: nat | f < n && Handed(f, base, kernelEnd, n);
      new;
      FreeRange(1, base);
      FreeRange(kernelEnd, n);
      BootIsOk(View(), usable);
    }

    /** The loop of page_init over a range of pages that may be handed out. */
    method FreeRange(lo: nat, hi: nat)
      requires ListValid() && lo <= hi <= ref.Length && NoDups(free)
      requires forall f: nat :: f in free ==> f < lo && ref[f] == 0
      modifies this`freeList, this`numFree, this`free, link, ref
      ensures ListValid() && NoDups(free) && numFree == old(numFree) + hi - lo
      ensures forall f: nat :: f in free <==> f in old(free) || lo <= f < hi
      ensures forall f: nat :: f < ref.Length ==> ref[f] == if lo <= f < hi then 0 else old(ref[f])
    {
      var i := lo;
      while i < hi
        invariant lo <= i <= hi && ListValid() && NoDups(free) && numFree == old(numFree) + i - lo
        invariant forall f: nat :: f in free <==> f in old(free) || lo <= f < i
        invariant forall f: nat :: f < ref.Length ==> ref[f] == if lo <= f < i then 0 else old(ref[f])
      {
        ref[i] := 0;
        PageFree(i);
        i := i + 1;
      }
    }

    /** page_alloc(ALLOC_ZERO). */
    method PageAlloc() returns (r: Option<nat>)
      requires Valid()
      modifies this, link, phys
      ensures Valid() && (r == None <==> old(free) == [])
      ensures r == None ==> View() == old(View())
      ensures r.Some? ==>
        && r.value == old(free)[0] && View() == Alloc(old(View())) && SameMaps(old(View()), View()) && r.value in usable
        && r.value < ref.Length && Ordinary(View(), r.value) && r.value !in free && ref[r.value] == 0
        && PagesKept(old(View()), View())
    {
      hide Inv, SameMaps, Listed, PagesKept;
      if freeList == None {
        ListedHead(free, link[..], freeList);
        return None;
      }
      ghost var m := View();
      ListedHead(free, link[..], freeList);
      var f := freeList.value;
      AllocIsOk(m, usable);
      ListedPop(free, link[..]);
      freeList := link[f];
      link[f] := None;
      phys[f] := EmptyTable();
      numFree := numFree - 1;
      free := free[1..];
      assert View() == Alloc(m);
      return Some(f);
    }

    ghost predicate ListValid()
      reads this, link
    {
      && ref as object != link && ref as object != phys && link as object != phys
      && link.Length == ref.Length == phys.Length && Listed(free, link[..], freeList) && numFree == |free|
    }

    /** page_free; that pp_ref and pp_link are zero is what it panics about otherwise. */
    method PageFree(f: nat)
      requires ListValid() && f < ref.Length && ref[f] == 0 && f !in free
      modifies this`freeList, this`numFree, this`free, link
      ensures ListValid() && free == [f] + old(free)
    {
      ListedPush(free, link[..], freeList, f);
      assert link[f] == None;
      link[f] := freeList;
      freeList := Some(f);
      numFree := numFree + 1;
      free := [f] + free;
    }

    method PageDecref(f: nat)
      requires ListValid() && f < ref.Length && ref[f] > 0 && f !in free
      modifies this`freeList, this`numFree, this`free, link, ref
      ensures ListValid() && ref[..] == old(ref[..])[f := old(ref[f]) - 1]
      ensures free == if old(ref[f]) == 1 then [f] + old(free) else old(free)
    {
      ref[f] := ref[f] - 1;
      if ref[f] == 0 {
        PageFree(f);
      }
    }

    // -------------------------------------------------------------- page tables

    /** pgdir_walk: the table that holds the entry for `vp`; None when there is none and none can be made. */
    method PgdirWalk(d: nat, vp: nat, create: bool) returns (t: Option<nat>)
      requires Valid() && d in dirs && vp < VPAGES
      modifies this, link, phys, ref
      ensures Valid() && dirs == old(dirs) && counted == old(counted)
      ensures t == None ==> View() == old(View()) && !Pde(View(), d, Pdx(vp)).present && (create ==> free == [])
      ensures t.Some? ==> HasTable(View(), d, vp) && t.value == Pde(View(), d, Pdx(vp)).page && t.value < phys.Length
      ensures t.Some? ==> t.value == Pde(View(), d, vp / 1024).page
      ensures t.Some? && !old(Pde(View(), d, vp / 1024).present) ==>
        Pde(View(), d, vp / 1024) == Pte(t.value, 2 + 4, true)
      ensures old(Pde(View(), d, Pdx(vp)).present) ==> View() == old(View())
      ensures Grown(old(View()), View(), d) && PagesKept(old(View()), View())
      ensures t.Some? ==> Spends(old(View()), View(), d, {Pdx(vp)}, 0)
    {
      hide Inv, Grown, Listed, Within, PagesKept, Spends;
      ghost var m := View();
      DirInRange(m, d);
      GrownRefl(m, d);
      PagesRefl(m);
      var e := phys[d][Pdx(vp)];
      if e.present {
        TableInRange(m, d, Pdx(vp));
        SpendsNothing(m, d, Pdx(vp));
        return Some(e.page);
      }
      if !create { return None; }
      var r := PageAlloc();
      if r == None { return None; }
      AddTableIsOk(m, d, Pdx(vp), usable);
      var f := r.value;
      ref[f] := ref[f] + 1;
      phys[d] := phys[d][Pdx(vp) := Pte(f, PTE_W + PTE_U, true)];
      assert View() == AddTable(m, d, Pdx(vp));
      SpendsTable(m, d, Pdx(vp));
      return Some(f);
    }

    /** One turn of boot_map_region; `mid` is the state after pgdir_walk. */
    method MapFixed(d: nat, vp: nat, e: Pte) returns (ok: bool, ghost mid: Mem)
      requires Valid() && d in dirs && vp < VPAGES && (d, vp) !in counted
      modifies this, link, phys, ref
      ensures Valid() && dirs == old(dirs) && counted == old(counted)
      ensures !ok ==> View() == old(View()) && free == [] && !Pde(View(), d, Pdx(vp)).present
      ensures ok ==> Grown(old(View()), mid, d) && OneUpdate(mid, View(), d, vp, e) && View() == mid.(phys := phys[..])
      ensures ok ==> PagesKept(old(View()), View()) && Spends(old(View()), View(), d, {Pdx(vp)}, 0)
    {
      hide Inv, Listed, Within, Grown, OneUpdate, PagesKept, Spends;
      ghost var m := View();
      var t := PgdirWalk(d, vp, true);
      mid := View();
      if t == None { return false, mid; }
      MapFixedIsOk(mid, d, vp, e, usable);
      phys[t.value] := phys[t.value][Ptx(vp) := e];
      assert View() == SetPte(mid, d, vp, e);
      SpendsEntry(mid, View(), d, vp, e);
      SpendsFree(m, mid, View(), d, Pdx(vp));
      SetPtePages(mid, View(), d, vp, e);
      PagesTrans(m, mid, View());
      return true, mid;
    }

    /**
      boot_map_region over `n` pages; false where the source would store through a null pointer, which
      is when there are not enough free pages for the tables it needs.
     */
    method BootMapRegion(d: nat, vp: nat, n: nat, pa: nat, perm: nat) returns (ok: bool)
      requires Valid() && d in dirs && vp + n <= VPAGES
      requires forall v: nat :: vp <= v < vp + n ==> (d, v) !in counted
      modifies this, link, phys, ref
      ensures Valid() && dirs == old(dirs) && counted == old(counted)
      ensures ok ==> GrownTables(old(View()), View(), d) && RangeUpdate(old(View()), View(), d, vp, n, pa, perm)
      ensures ok ==> PagesKept(old(View()), View())
      ensures if ok then Spends(old(View()), View(), d, Touched(vp, n), 0) else Short(old(View()), d, Touched(vp, n), 0)
    {
      hide Inv, Listed, Within, Grown, GrownTables, RangeUpdate, OneUpdate, PagesKept, Spends, Short, Touched;
      ghost var m := View();
      EmptyRange(m, d, vp, pa, perm);
      PagesRefl(m);
      SpendsNone(m, d, vp);
      var k := 0;
      while k < n
        invariant k <= n && Valid() && dirs == m.dirs && counted == m.counted
        invariant GrownTables(m, View(), d) && RangeUpdate(m, View(), d, vp, k, pa, perm) && PagesKept(m, View())
        invariant Spends(m, View(), d, Touched(vp, k), 0)
      {
        ghost var m1 := View();
        TouchedMore(vp, k, n);
        var mapped, m2 := MapFixed(d, vp + k, Pte(pa + k, perm, true));
        if !mapped {
          RunsShort(m, m1, d, Touched(vp, k), Pdx(vp + k), Touched(vp, n), 0, 0);
          return false;
        }
        RangeMore(m, m1, m2, View(), d, vp, k, pa, perm);
        SpendsBoth(m, m1, View(), d, Touched(vp, k), {Pdx(vp + k)}, 0, 0);
        PagesTrans(m, m1, View());
        k := k + 1;
      }
      return true;
    }

    /** page_lookup; `stored` is the entry whose address it leaves in *pte_store, which it does only if `store`. */
    method PageLookup(d: nat, vp: nat, store: bool) returns (r: Option<nat>, stored: Option<(nat, nat)>)
      requires Valid() && d in dirs && vp < VPAGES
      ensures r == if Translate(View(), d, vp).present then Some(Translate(View(), d, vp).page) else None
      ensures stored == if r.Some? && store then Some((Pde(View(), d, Pdx(vp)).page, Ptx(vp))) else None
    {
      DirInRange(View(), d);
      var e := phys[d][Pdx(vp)];
      if !e.present { return None, None; }
      TableInRange(View(), d, Pdx(vp));
      var pte := phys[e.page][Ptx(vp)];
      if !pte.present { return None, None; }
      return Some(pte.page), if store then Some((e.page, Ptx(vp))) else None;
    }

    /**
      page_remove.  It passes the address of its own uninitialised local to page_lookup, which stores
      the entry's address there only if the local happens to be nonzero (`stale`).  If not, the
      reference is dropped but the entry stays, and the zero meant for it goes through a null pointer:
      `throughNull` says so, and that store is not made here.
     */
    method PageRemove(d: nat, vp: nat, stale: bool) returns (throughNull: bool)
      requires Valid() && d in dirs && vp < VPAGES && (Translate(View(), d, vp).present ==> (d, vp) in counted)
      modifies this, link, phys, ref
      ensures throughNull <==> old(Translate(View(), d, vp).present) && !stale
      ensures !old(Translate(View(), d, vp).present) ==> View() == old(View()) && Valid()
      ensures old(Translate(View(), d, vp).present) && stale ==>
        && Valid() && Removed(old(View()), View(), d, vp)
        && Removable(old(View()), d, vp) && View() == Remove(old(View()), d, vp)
      ensures throughNull ==>
        ListValid() && Removable(old(View()), d, vp) && View() == Dangling(old(View()), d, vp) && !Inv(View())
    {
      hide Inv, Within, Listed, Removed;
      ghost var m := View();
      var r, pte := PageLookup(d, vp, stale);
      if r == None { return false; }
      TableOfMapped(m, d, vp);
      RemoveIsOk(m, d, vp, usable);
      PageDecref(r.value);
      if pte == None {
        DanglingBreaks(m, View(), d, vp);
        return true;
      }
      var (t, i) := pte.value;
      phys[t] := phys[t][i := NONE];
      counted := counted - {(d, vp)};
      assert View() == Remove(m, d, vp);
      return false;
    }

    /** The stores at the end of page_insert; `t` is the table that holds the entry. */
    method Enter(d: nat, f: nat, vp: nat, perm: nat, t: nat)
      requires ref as object != phys && f < ref.Length && t == Pde(View(), d, Pdx(vp)).page
      requires t < phys.Length && Ptx(vp) < |phys[t]|
      modifies this`counted, phys, ref
      ensures View() == Insert(old(View()), d, vp, f, perm)
    {
      ref[f] := ref[f] + 1;
      phys[t] := phys[t][Ptx(vp) := Pte(f, perm, true)];
      counted := counted + {(d, vp)};
    }

    /**
      page_insert: one update of the flat map, or nothing at all when there is no memory for a table.
      The entry is overwritten in any case, so what page_remove leaves behind does no harm here, apart
      from its store through a null pointer.
     */
    method PageInsert(d: nat, f: nat, vp: nat, perm: nat, stale: bool) returns (ok: bool, throughNull: bool)
      requires Valid() && d in dirs && vp < VPAGES && (Translate(View(), d, vp).present ==> (d, vp) in counted)
      requires f < ref.Length && f !in free && f in usable && Ordinary(View(), f)
      modifies this, link, phys, ref
      ensures Valid() && (!ok ==> View() == old(View()) && free == [])
      ensures ok ==> Inserted(old(View()), View(), d, f, vp, perm)
      ensures ok && !old(Translate(View(), d, vp).present) ==>
        GrownFree(old(View()), View(), d) && PagesKept(old(View()), View())
      ensures ok && !old(Translate(View(), d, vp).present) ==> Spends(old(View()), View(), d, {Pdx(vp)}, 0)
      ensures !ok ==> !Pde(View(), d, Pdx(vp)).present
      ensures throughNull <==> ok && !stale && Replaces(old(View()), d, vp, f)
    {
      hide Inv, Within, Listed, Grown, Removed, Inserted, Ordinary, PagesKept, OneUpdate, Spends, GrownFree;
      ghost var m := View();
      AbsentUncounted(m, d, vp);
      var t := PgdirWalk(d, vp, true);
      if t == None { return false, false; }
      ghost var m1 := View();
      GrownOrdinary(m, m1, d, f);
      WalkedEntry(m, m1, d, vp);
      var pte := phys[t.value][Ptx(vp)];
      throughNull := false;
      ghost var m2 := m1;
      if pte.present {
        if pte.page == f {
          RepermIsOk(m1, d, vp, perm, usable);
          phys[t.value] := phys[t.value][Ptx(vp) := Pte(f, perm, true)];
          assert View() == SetPte(m1, d, vp, Pte(f, perm, true));
          ReinsertDone(m, View(), d, f, vp, perm);
          return true, false;
        }
        RemoveIsOk(m1, d, vp, usable);
        m2 := Remove(m1, d, vp);
        throughNull := PageRemove(d, vp, stale);
        RemovedKeepsTable(m1, m2, d, vp, f);
      }
      InsertIsOk(m2, d, vp, f, perm, usable);
      if pte.present { InsertOverDangling(m1, d, vp, f, perm); }
      Enter(d, f, vp, perm, t.value);
      InsertDone(m, m1, m2, View(), d, f, vp, perm);
      if !pte.present {
        SetPtePages(m2, View(), d, vp, Pte(f, perm, true));
        PagesTrans(m, m1, View());
        SpendsEntry(m1, View(), d, vp, Pte(f, perm, true));
        SpendsFree(m, m1, View(), d, Pdx(vp));
      }
      return true, throughNull;
    }

    /** memcpy from one page to another that is in use and is no directory or table. */
    method Memcpy(dst: nat, src: nat)
      requires Valid() && dst < ref.Length && src < ref.Length && Ordinary(View(), dst)
      modifies phys
      ensures Valid() && View() == old(View()).(phys := old(phys[..])[dst := old(phys[src])])
      ensures SameMaps(old(View()), View()) && forall g: nat :: Ordinary(View(), g) <==> Ordinary(old(View()), g)
    {
      hide Inv, Within, Listed;
      ghost var m := View();
      FillIsOk(m, dst, phys[src], usable);
      phys[dst] := phys[src];
      assert View() == m.(phys := m.phys[dst := m.phys[src]]);
    }

    /** A page from page_alloc becomes a page directory. */
    ghost method BecomeDirectory(d: nat)
      requires Valid() && d < ref.Length && d !in free && Ordinary(View(), d) && ref[d] == 0 && phys[d] == EmptyTable()
      requires d in usable
      modifies this`dirs
      ensures Valid() && dirs == old(dirs) + {d} && View() == old(View()).(dirs := dirs)
      ensures forall vp: nat :: vp < VPAGES ==> Translate(View(), d, vp) == NONE
      ensures forall c: nat, f: nat :: TableOf(View(), c, f) <==> TableOf(old(View()), c, f)
    {
      hide Inv, Within, Listed;
      DirIsOk(View(), d, usable);
      dirs := dirs + {d};
    }

    // -------------------------------------------------------------- whole address spaces

    /** ptable_remove and pgdir_remove: the page tables and the directory go back to the free list. */
    method DropDirectory(d: nat)
      requires Valid() && d in dirs && forall x :: x in counted ==> x.0 != d
      modifies this, link, ref
      ensures Valid() && Dropped(old(View()), View(), d)
    {
      hide Inv, Within, Listed, Unlinked;
      ghost var m := View();
      DirInRange(m, d);
      NothingUnlinked(m, d);
      var i := 0;
      while i < ENTRIES
        invariant i <= ENTRIES && ListValid() && Unlinked(m, View(), d, i)
      {
        ghost var before := View();
        DirUnlinked(m, before, d, i);
        if phys[d][i].present {
          TableLinked(m, before, d, i);
          PageDecref(phys[d][i].page);
        }
        UnlinkedNext(m, before, View(), d, i);
        i := i + 1;
      }
      ghost var u := View();
      AllUnlinked(m, u, d);
      DirUnlinked(m, u, d, ENTRIES);
      PageFree(d);
      dirs := dirs - {d};
      DropDone(m, u, View(), d, usable);
    }
  }

  /** Only pages that page_init handed over are ever free, tables, directories or counted. */
  ghost predicate Within(m: Mem, usable: set<nat>) {
    && (forall f :: f in m.free ==> f in usable)
    && m.dirs <= usable
    && (forall d: nat, i: nat, t: nat :: IsTable(m, d, i, t) ==> t in usable)
    && (forall x :: x in m.counted ==> Translate(m, x.0, x.1).page in usable)
  }

  /** A page in use that is no directory or table stays so, with its contents. */
  ghost predicate PagesKept(m: Mem, m': Mem) {
    |m'.phys| == |m.phys| && forall g: nat :: g < |m.phys| && g < |m'.phys| && Ordinary(m, g) && g !in m.free ==>
      Ordinary(m', g) && g !in m'.free && m'.phys[g] == m.phys[g]
  }

  lemma BootIsOk(m: Mem, usable: set<nat>)
    requires Shape(m) && m.dirs == {} && m.counted == {} && NoDups(m.free)
    requires forall f: nat :: f in m.free <==> f in usable
    requires forall f: nat :: f in usable ==> f < |m.ref|
    requires forall f: nat :: f < |m.ref| ==> m.ref[f] == 0
    ensures Inv(m) && Within(m, usable)
  {
    assert forall i :: 0 <= i < |m.free| ==> m.free[i] in m.free;
    assert forall f: nat :: Refs(m, f) == {};
  }

  lemma ListedHead(free: seq<nat>, link: seq<Option<nat>>, head: Option<nat>)
    requires Listed(free, link, head)
    ensures head == None <==> free == []
    ensures head.Some? ==> head.value == free[0] && head.value < |link|
  {
    if free != [] { assert LinkAt(free, link, 0); }
  }

  lemma AllocIsOk(m: Mem, usable: set<nat>)
    requires Inv(m) && m.free != [] && Within(m, usable)
    ensures m.free[0] < |m.phys| && NoDups(m.free)
    ensures Inv(Alloc(m)) && SameMaps(m, Alloc(m)) && Within(Alloc(m), usable) && PagesKept(m, Alloc(m))
    ensures m.free[0] !in Alloc(m).free && Ordinary(Alloc(m), m.free[0]) && m.ref[m.free[0]] == 0 && m.free[0] in usable
  {
    assert m.free[0] in m.free;
    FreeIsOrdinary(m, m.free[0]);
    AllocKeeps(m);
    var m' := Alloc(m);
    SameMapsCounts(m, m');
    assert forall d: nat, i: nat, t: nat :: IsTable(m', d, i, t) <==> IsTable(m, d, i, t);
  }

  lemma DirInRange(m: Mem, d: nat)
    requires Inv(m) && d in m.dirs
    ensures d < |m.phys| && |m.phys[d]| == ENTRIES
  {
  }

  lemma TableInRange(m: Mem, d: nat, i: nat)
    requires Inv(m) && d in m.dirs && i < ENTRIES && Pde(m, d, i).present
    ensures Pde(m, d, i).page < |m.phys| && |m.phys[Pde(m, d, i).page]| == ENTRIES
  {
    assert IsTable(m, d, i, Pde(m, d, i).page);
  }

  /** Directory `d` may have gained page tables, taken from the free pages; its tables are all there. */
  ghost predicate GrownFree(m: Mem, m': Mem, d: nat) {
    && m'.dirs == m.dirs && |m'.ref| == |m.ref|
    && (forall f: nat :: f in m.free <==> f in m'.free || (TableOf(m', d, f) && !TableOf(m, d, f)))
    && (forall f: nat :: TableOf(m, d, f) ==> TableOf(m', d, f))
    && (forall c: nat, f: nat :: c != d ==> (TableOf(m', c, f) <==> TableOf(m, c, f)))
  }

  ghost predicate GrownTables(m: Mem, m': Mem, d: nat) {
    && GrownFree(m, m', d) && m'.counted == m.counted
    && (forall f: nat :: f < |m.ref| && f !in m.free && f < |m'.ref| ==> m'.ref[f] == m.ref[f])
  }

  /** The same, with every translation unchanged. */
  ghost predicate Grown(m: Mem, m': Mem, d: nat) {
    && GrownTables(m, m', d)
    && (forall c: nat, v: nat :: c in m.dirs && v < VPAGES ==> Translate(m', c, v) == Translate(m, c, v))
  }

  lemma GrownRefl(m: Mem, d: nat)
    ensures Grown(m, m, d)
  {
  }

  lemma AddTableIsOk(m: Mem, d: nat, i: nat, usable: set<nat>)
    requires Inv(m) && m.free != [] && d in m.dirs && i < ENTRIES && !Pde(m, d, i).present && Within(m, usable)
    ensures m.free[0] < |m.phys| && m.free[0] < |m.ref| && d < |m.phys| && Shape(m) && m.free[0] != d
    ensures var m' := AddTable(m, d, i);
      && Inv(m') && m'.dirs == m.dirs && m'.counted == m.counted && Within(m', usable) && Grown(m, m', d)
      && IsTable(m', d, i, m.free[0]) && PagesKept(m, m')
  {
    assert m.free[0] in m.free;
    AddTableKeeps(m, d, i);
    var m' := AddTable(m, d, i);
    var t := m.free[0];
    FreeIsOrdinary(m, t);
    forall c: nat, f: nat
      ensures TableOf(m', c, f) <==> TableOf(m, c, f) || (c == d && f == t)
    {
      if TableOf(m, c, f) {
        var j: nat :| IsTable(m, c, j, f);
        assert IsTable(m', c, j, f);
      }
      if c == d && f == t { assert IsTable(m', d, i, t); }
    }
    forall f: nat
      ensures f in m.free <==> f in m'.free || f == t
    {
      assert m.free == [t] + m'.free;
    }
    forall g: nat | g < |m.phys| && Ordinary(m, g) && g !in m.free
      ensures Ordinary(m', g)
    {
      assert forall c: nat, j: nat :: IsTable(m', c, j, g) ==> IsTable(m, c, j, g);
    }
  }

  // ---------------------------------------------------------------- how many pages it takes

  /** The entries of directory `d` that are in use. */
  ghost function Present(m: Mem, d: nat): set<nat> {
    set i: nat | i < ENTRIES && Pde(m, d, i).present
  }

  /** The directory entries that `n` linear pages need. */
  ghost function Touched(vp: nat, n: nat): set<nat> {
    set v: nat | vp <= v < vp + n :: Pdx(v)
  }

  /** That is one for each 4 MB that the pages reach into. */
  lemma {:induction false} TouchedCount(vp: nat, n: nat)
    requires n > 0
    ensures |Touched(vp, n)| == (vp + n - 1) / 1024 - vp / 1024 + 1
    ensures forall i: nat :: i in Touched(vp, n) <==> vp / 1024 <= i <= (vp + n - 1) / 1024
  {
    var first, last := vp / 1024, (vp + n - 1) / 1024;
    forall i: nat
      ensures i in Touched(vp, n) <==> first <= i <= last
    {
      if first <= i <= last {
        var v := if i == first then vp else i * 1024;
        assert vp <= v < vp + n && Pdx(v) == i;
      }
      if i in Touched(vp, n) {
        var v: nat :| vp <= v < vp + n && i == Pdx(v);
        assert vp / 1024 <= v / 1024 <= (vp + n - 1) / 1024;
      }
    }
    assert Touched(vp, n) == Span(first, last);
  }

  /** The numbers from `lo` to `hi`. */
  ghost function Span(lo: nat, hi: nat): (s: set<nat>)
    requires lo <= hi
    ensures |s| == hi - lo + 1 && forall i: nat :: i in s <==> lo <= i <= hi
    decreases hi - lo
  {
    if lo == hi then {lo} else Span(lo, hi - 1) + {hi}
  }

  /** Neighbouring pages in the same 4 MB are neighbouring entries of one table. */
  lemma Neighbours(m: Mem, d: nat, vp: nat)
    requires vp + 1 < VPAGES && (vp + 1) % 1024 != 0 && HasTable(m, d, vp)
    ensures var t := Pde(m, d, vp / 1024).page;
      t < |m.phys| && |m.phys[t]| == 1024 ==>
        Translate(m, d, vp) == m.phys[t][vp % 1024] && Translate(m, d, vp + 1) == m.phys[t][vp % 1024 + 1]
  {
    assert (vp + 1) / 1024 == vp / 1024 && (vp + 1) % 1024 == vp % 1024 + 1;
  }

  /** Free pages have become the tables for the entries in `more`, and `n` of them something else. */
  ghost predicate Spends(m: Mem, m': Mem, d: nat, more: set<nat>, n: nat) {
    && Present(m', d) == Present(m, d) + more
    && |m'.free| + |Present(m', d)| + n == |m.free| + |Present(m, d)|
  }

  /** There are fewer free pages than that takes. */
  ghost predicate Short(m: Mem, d: nat, more: set<nat>, n: nat) {
    |m.free| + |Present(m, d)| < |Present(m, d) + more| + n
  }

  /** Where entry `i` needs a table and no page is free, there were too few. */
  lemma RunsShort(m: Mem, m1: Mem, d: nat, done: set<nat>, i: nat, all: set<nat>, k: nat, n: nat)
    requires Spends(m, m1, d, done, k) && m1.free == [] && done <= all && k <= n
    requires k < n || (i in all && i < ENTRIES && !Pde(m1, d, i).present)
    ensures Short(m, d, all, n)
  {
    var before, after := Present(m1, d), Present(m, d) + all;
    SubsetSize(before, after);
    if k == n {
      assert i !in before;
      SubsetSize(before + {i}, after);
    }
  }

  lemma SpendsNothing(m: Mem, d: nat, i: nat)
    requires i < ENTRIES && Pde(m, d, i).present
    ensures Spends(m, m, d, {i}, 0)
  {
    assert Present(m, d) + {i} == Present(m, d);
  }

  lemma SpendsNone(m: Mem, d: nat, vp: nat)
    ensures Spends(m, m, d, Touched(vp, 0), 0)
  {
    assert Present(m, d) + Touched(vp, 0) == Present(m, d);
  }

  lemma TouchedMore(vp: nat, k: nat, n: nat)
    requires k < n
    ensures Touched(vp, k + 1) == Touched(vp, k) + {Pdx(vp + k)} && Touched(vp, k + 1) <= Touched(vp, n)
  {
    forall i: nat | i in Touched(vp, k + 1)
      ensures i in Touched(vp, k) + {Pdx(vp + k)} && i in Touched(vp, n)
    {
      var v: nat :| vp <= v < vp + (k + 1) && i == Pdx(v);
      assert v < vp + n && (v < vp + k || v == vp + k);
    }
    forall i: nat | i in Touched(vp, k)
      ensures i in Touched(vp, k + 1)
    {
      var v: nat :| vp <= v < vp + k && i == Pdx(v);
      assert v < vp + (k + 1);
    }
  }

  lemma SpendsTable(m: Mem, d: nat, i: nat)
    requires Inv(m) && m.free != [] && d in m.dirs && i < ENTRIES && !Pde(m, d, i).present
    requires m.free[0] < |m.phys| && m.free[0] < |m.ref| && d < |m.phys| && m.free[0] != d
    ensures Spends(m, AddTable(m, d, i), d, {i}, 0)
  {
    var m' := AddTable(m, d, i);
    assert Pde(m', d, i).present && forall j: nat :: j < ENTRIES && j != i ==> Pde(m', d, j) == Pde(m, d, j);
    assert Present(m', d) == Present(m, d) + {i} && i !in Present(m, d);
  }

  /** Writing a table entry makes no table. */
  lemma SpendsEntry(m: Mem, m': Mem, d: nat, vp: nat, e: Pte)
    requires Inv(m) && HasTable(m, d, vp) && m'.free == m.free
    requires Pde(m, d, Pdx(vp)).page < |m.phys| && Ptx(vp) < |m.phys[Pde(m, d, Pdx(vp)).page]|
    requires m'.phys == SetPte(m, d, vp, e).phys
    ensures Present(m', d) == Present(m, d) && m'.free == m.free
  {
    assert IsTable(m, d, Pdx(vp), Pde(m, d, Pdx(vp)).page);
    assert forall j: nat :: Pde(m', d, j) == Pde(m, d, j);
  }

  lemma SpendsFree(m: Mem, m1: Mem, m2: Mem, d: nat, i: nat)
    requires Spends(m, m1, d, {i}, 0) && Present(m2, d) == Present(m1, d) && m2.free == m1.free
    ensures Spends(m, m2, d, {i}, 0)
  {
  }

  lemma SpendsBoth(m: Mem, m1: Mem, m2: Mem, d: nat, a: set<nat>, b: set<nat>, k: nat, n: nat)
    requires Spends(m, m1, d, a, k) && Spends(m1, m2, d, b, n)
    ensures Spends(m, m2, d, a + b, k + n)
  {
  }

  ghost predicate RangeUpdate(m: Mem, m': Mem, d: nat, vp: nat, n: nat, pa: nat, perm: nat) {
    forall c: nat, v: nat :: c in m.dirs && v < VPAGES ==>
      Translate(m', c, v) == if c == d && vp <= v < vp + n then Pte(pa + (v - vp), perm, true) else Translate(m, c, v)
  }

  lemma EmptyRange(m: Mem, d: nat, vp: nat, pa: nat, perm: nat)
    ensures RangeUpdate(m, m, d, vp, 0, pa, perm) && GrownTables(m, m, d)
  {
  }

  lemma MapFixedIsOk(m: Mem, d: nat, vp: nat, e: Pte, usable: set<nat>)
    requires Inv(m) && HasTable(m, d, vp) && (d, vp) !in m.counted && Within(m, usable)
    ensures Pde(m, d, Pdx(vp)).page < |m.phys|
    ensures var m' := SetPte(m, d, vp, e);
      Inv(m') && OneUpdate(m, m', d, vp, e) && Within(m', usable)
  {
    MapFixedKeeps(m, d, vp, e);
    var m' := SetPte(m, d, vp, e);
    UpdateTables(m, m', d, vp, e);
    forall x | x in m'.counted
      ensures Translate(m', x.0, x.1).page in usable
    {
      assert x.0 != d || x.1 != vp;
    }
  }

  lemma RangeMore(m: Mem, m1: Mem, m2: Mem, m3: Mem, d: nat, vp: nat, k: nat, pa: nat, perm: nat)
    requires GrownTables(m, m1, d) && RangeUpdate(m, m1, d, vp, k, pa, perm) && Grown(m1, m2, d)
    requires OneUpdate(m2, m3, d, vp + k, Pte(pa + k, perm, true)) && m3 == m2.(phys := m3.phys) && vp + k < VPAGES
    ensures GrownTables(m, m3, d) && RangeUpdate(m, m3, d, vp, k + 1, pa, perm)
  {
    UpdateTables(m2, m3, d, vp + k, Pte(pa + k, perm, true));
    forall c: nat, f: nat
      ensures TableOf(m3, c, f) <==> TableOf(m2, c, f)
    {
      if TableOf(m2, c, f) { var j: nat :| IsTable(m2, c, j, f); assert IsTable(m3, c, j, f); }
      if TableOf(m3, c, f) { var j: nat :| IsTable(m3, c, j, f); assert IsTable(m2, c, j, f); }
    }
    GrownTrans(m, m1, m2, m3, d);
  }

  lemma GrownTrans(m: Mem, m1: Mem, m2: Mem, m3: Mem, d: nat)
    requires GrownTables(m, m1, d) && GrownTables(m1, m2, d) && m3 == m2.(phys := m3.phys)
    requires forall c: nat, f: nat :: TableOf(m3, c, f) <==> TableOf(m2, c, f)
    ensures GrownTables(m, m3, d)
  {
  }

  /** page_remove took exactly this mapping, and freed the page if it was the last. */
  ghost predicate Removed(m: Mem, m': Mem, d: nat, vp: nat) {
    && OneUpdate(m, m', d, vp, NONE) && m'.counted == m.counted - {(d, vp)} && |m'.ref| == |m.ref|
    && var f := Translate(m, d, vp).page;
    && f < |m.ref| && m.ref[f] > 0 && m'.ref == m.ref[f := m.ref[f] - 1]
    && m'.free == (if m.ref[f] == 1 then [f] + m.free else m.free)
    && SameContents(m, m')
  }

  /** Only directories and tables have been written. */
  ghost predicate SameContents(m: Mem, m': Mem) {
    && |m'.phys| == |m.phys|
    && forall g: nat :: g < |m.phys| && g < |m'.phys| && Ordinary(m, g) ==> m'.phys[g] == m.phys[g]
  }

  lemma SetPteContents(m: Mem, m': Mem, d: nat, vp: nat)
    requires HasTable(m, d, vp) && Pde(m, d, Pdx(vp)).page < |m.phys| == |m'.phys|
    requires m'.phys == m.phys[Pde(m, d, Pdx(vp)).page := m'.phys[Pde(m, d, Pdx(vp)).page]]
    ensures SameContents(m, m')
  {
    assert IsTable(m, d, Pdx(vp), Pde(m, d, Pdx(vp)).page);
  }

  lemma TableOfMapped(m: Mem, d: nat, vp: nat)
    requires Inv(m) && d in m.dirs && vp < VPAGES && Translate(m, d, vp).present
    ensures HasTable(m, d, vp) && d < |m.phys| && |m.phys[d]| == ENTRIES
    ensures var t := m.phys[d][Pdx(vp)].page; t < |m.phys| && |m.phys[t]| == ENTRIES
  {
    TableInRange(m, d, Pdx(vp));
  }

  lemma RemoveIsOk(m: Mem, d: nat, vp: nat, usable: set<nat>)
    requires Inv(m) && HasTable(m, d, vp) && (d, vp) in m.counted && Within(m, usable)
    ensures Pde(m, d, Pdx(vp)).page < |m.phys|
    ensures Translate(m, d, vp).page < |m.ref| && m.ref[Translate(m, d, vp).page] > 0
    ensures Translate(m, d, vp).page !in m.free
    ensures var m' := Remove(m, d, vp);
      Inv(m') && Removed(m, m', d, vp) && Within(m', usable) && Shape(m')
  {
    RemoveKeeps(m, d, vp);
    var m' := Remove(m, d, vp);
    UpdateTables(m, m', d, vp, NONE);
    SetPteContents(m, m', d, vp);
    forall x | x in m'.counted
      ensures Translate(m', x.0, x.1).page in usable
    {
      assert x.0 != d || x.1 != vp;
    }
  }

  /** A mapping that Remove can take: there is an entry, and a reference to drop. */
  predicate Removable(m: Mem, d: nat, vp: nat) {
    && Pde(m, d, Pdx(vp)).page < |m.phys| && Ptx(vp) < |m.phys[Pde(m, d, Pdx(vp)).page]|
    && Translate(m, d, vp).page < |m.ref| && m.ref[Translate(m, d, vp).page] > 0
  }

  /** What page_remove leaves when it does not learn where the entry is. */
  function Dangling(m: Mem, d: nat, vp: nat): Mem
    requires Removable(m, d, vp)
  {
    Remove(m, d, vp).(phys := m.phys, counted := m.counted)
  }

  /** Writing the entry afterwards makes good that it was not cleared. */
  lemma InsertOverDangling(m: Mem, d: nat, vp: nat, f: nat, perm: nat)
    requires Removable(m, d, vp) && (d, vp) in m.counted && f < |m.ref|
    requires Pde(Remove(m, d, vp), d, Pdx(vp)) == Pde(m, d, Pdx(vp))
    ensures Insert(Dangling(m, d, vp), d, vp, f, perm) == Insert(Remove(m, d, vp), d, vp, f, perm)
  {
    var x, y := Insert(Dangling(m, d, vp), d, vp, f, perm), Insert(Remove(m, d, vp), d, vp, f, perm);
    var t := Pde(m, d, Pdx(vp)).page;
    assert x.counted == y.counted;
    assert x.phys[t] == y.phys[t];
    assert x.phys == y.phys;
  }

  predicate Replaces(m: Mem, d: nat, vp: nat, f: nat) {
    Translate(m, d, vp).present && Translate(m, d, vp).page != f
  }

  /** Dropping the reference and keeping the entry leaves a count that is too small. */
  lemma DanglingBreaks(m: Mem, m': Mem, d: nat, vp: nat)
    requires Inv(m) && d in m.dirs && vp < VPAGES && (d, vp) in m.counted
    requires m'.phys == m.phys && m'.dirs == m.dirs && m'.counted == m.counted
    requires var f := Translate(m, d, vp).page; f < |m.ref| && m.ref[f] > 0 && m'.ref == m.ref[f := m.ref[f] - 1]
    ensures !Inv(m')
  {
    var f := Translate(m, d, vp).page;
    assert Refs(m', f) == Refs(m, f);
    assert Ordinary(m, f);
    assert forall c: nat, i: nat :: IsTable(m', c, i, f) <==> IsTable(m, c, i, f);
  }

  /** The directory in page 1 has one table, page 2, which maps linear page 0 to page 3; page 0 is not for use. */
  function OneMapping(): Mem {
    var none := EmptyTable();
    Mem([0, 0, 1, 1], [], [none, none[0 := Pte(2, PTE_W + PTE_U, true)], none[0 := Pte(3, PTE_W, true)], none],
        {1}, {(1, 0)})
  }

  /** There page_remove with a zero local leaves page 3 both free and mapped. */
  lemma DanglingExample()
    ensures Inv(OneMapping()) && Within(OneMapping(), {1, 2, 3}) && Removable(OneMapping(), 1, 0)
    ensures var m := Dangling(OneMapping(), 1, 0);
      !Inv(m) && m.free == [3] && Translate(m, 1, 0) == Pte(3, PTE_W, true)
  {
    var m := OneMapping();
    OneMappingOk();
    DanglingBreaks(m, Dangling(m, 1, 0), 1, 0);
  }

  lemma OneMappingOk()
    ensures Inv(OneMapping()) && Within(OneMapping(), {1, 2, 3}) && Translate(OneMapping(), 1, 0) == Pte(3, PTE_W, true)
  {
    var m := OneMapping();
    assert forall d: nat, i: nat, t: nat :: IsTable(m, d, i, t) ==> d == 1 && i == 0 && t == 2;
    assert IsTable(m, 1, 0, 2) && Refs(m, 3) == {(1, 0)} && Refs(m, 0) == {};
  }

  // ---------------------------------------------------------------- page_insert

  /** The flat map after page_insert, and every pp_ref of a page that was not free. */
  ghost predicate Inserted(m: Mem, m': Mem, d: nat, f: nat, vp: nat, perm: nat) {
    && m'.dirs == m.dirs && m'.counted == m.counted + {(d, vp)} && |m'.ref| == |m.ref|
    && (forall c: nat, v: nat :: c in m.dirs && v < VPAGES ==>
          Translate(m', c, v) == if c == d && v == vp then Pte(f, perm, true) else Translate(m, c, v))
    && (forall g: nat :: g < |m.ref| && g !in m.free && g < |m'.ref| ==>
          var lost := if Translate(m, d, vp).present then Translate(m, d, vp).page else -1;
          m'.ref[g] == m.ref[g] + Gained(f, g) - Gained(lost, g))
  }

  function Gained(f: int, g: nat): nat {
    if f == g then 1 else 0
  }

  lemma AbsentUncounted(m: Mem, d: nat, vp: nat)
    requires Inv(m)
    ensures (d, vp) in m.counted ==> Translate(m, d, vp).present
  {
  }

  lemma GrownOrdinary(m: Mem, m1: Mem, d: nat, f: nat)
    requires Inv(m) && Inv(m1) && Grown(m, m1, d) && Ordinary(m, f) && f !in m.free
    ensures Ordinary(m1, f) && f !in m1.free
  {
    forall c: nat, i: nat
      ensures !IsTable(m1, c, i, f)
    {
      assert !TableOf(m, c, f);
      assert IsTable(m1, c, i, f) ==> TableOf(m1, c, f);
    }
  }

  lemma WalkedEntry(m: Mem, m1: Mem, d: nat, vp: nat)
    requires Inv(m1) && Grown(m, m1, d) && HasTable(m1, d, vp) && d in m.dirs
    ensures Translate(m1, d, vp) == Translate(m, d, vp)
    ensures var t := Pde(m1, d, Pdx(vp)).page;
      t < |m1.phys| && |m1.phys[t]| == ENTRIES && m1.phys[t][Ptx(vp)] == Translate(m, d, vp)
  {
    TableInRange(m1, d, Pdx(vp));
  }

  lemma RepermIsOk(m: Mem, d: nat, vp: nat, perm: nat, usable: set<nat>)
    requires Inv(m) && HasTable(m, d, vp) && (d, vp) in m.counted && Within(m, usable)
    ensures Pde(m, d, Pdx(vp)).page < |m.phys|
    ensures var e := Pte(Translate(m, d, vp).page, perm, true);
      var m' := SetPte(m, d, vp, e);
      Inv(m') && OneUpdate(m, m', d, vp, e) && Within(m', usable) && Shape(m')
  {
    RepermKeeps(m, d, vp, perm);
    var e := Pte(Translate(m, d, vp).page, perm, true);
    var m' := SetPte(m, d, vp, e);
    UpdateTables(m, m', d, vp, e);
  }

  lemma ReinsertDone(m: Mem, m': Mem, d: nat, f: nat, vp: nat, perm: nat)
    requires OneUpdate(m, m', d, vp, Pte(f, perm, true)) && m' == m.(phys := m'.phys) && (d, vp) in m.counted
    requires Translate(m, d, vp).present && Translate(m, d, vp).page == f
    ensures Inserted(m, m', d, f, vp, perm)
  {
  }

  lemma RemovedKeepsTable(m: Mem, m': Mem, d: nat, vp: nat, f: nat)
    requires Inv(m) && Inv(m') && Removed(m, m', d, vp) && HasTable(m, d, vp) && Ordinary(m, f) && f !in m.free
    requires Translate(m, d, vp).page != f
    ensures HasTable(m', d, vp) && Pde(m', d, Pdx(vp)) == Pde(m, d, Pdx(vp)) && Ordinary(m', f) && f !in m'.free
    ensures (d, vp) !in m'.counted
  {
    UpdateTables(m, m', d, vp, NONE);
  }

  lemma InsertIsOk(m: Mem, d: nat, vp: nat, f: nat, perm: nat, usable: set<nat>)
    requires Inv(m) && HasTable(m, d, vp) && (d, vp) !in m.counted && f < |m.ref| && f !in m.free && Ordinary(m, f)
    requires Within(m, usable) && f in usable
    ensures Pde(m, d, Pdx(vp)).page < |m.phys| && Pde(m, d, Pdx(vp)).page != f
    ensures var m' := Insert(m, d, vp, f, perm);
      Inv(m') && OneUpdate(m, m', d, vp, Pte(f, perm, true)) && Within(m', usable) && Shape(m')
  {
    InsertKeeps(m, d, vp, f, perm);
    assert IsTable(m, d, Pdx(vp), Pde(m, d, Pdx(vp)).page);
    var m' := Insert(m, d, vp, f, perm);
    UpdateTables(m, m', d, vp, Pte(f, perm, true));
    forall x | x in m'.counted
      ensures Translate(m', x.0, x.1).page in usable
    {
      if x.0 != d || x.1 != vp { assert x in m.counted; }
    }
  }

  lemma SameTableOf(m: Mem, m': Mem, d: nat, vp: nat, e: Pte)
    requires OneUpdate(m, m', d, vp, e)
    ensures forall c: nat, f: nat :: TableOf(m', c, f) <==> TableOf(m, c, f)
  {
    UpdateTables(m, m', d, vp, e);
    forall c: nat, f: nat
      ensures TableOf(m', c, f) <==> TableOf(m, c, f)
    {
      if TableOf(m, c, f) { var j: nat :| IsTable(m, c, j, f); assert IsTable(m', c, j, f); }
      if TableOf(m', c, f) { var j: nat :| IsTable(m', c, j, f); assert IsTable(m, c, j, f); }
    }
  }

  lemma InsertDone(m: Mem, m1: Mem, m2: Mem, m3: Mem, d: nat, f: nat, vp: nat, perm: nat)
    requires Grown(m, m1, d) && d in m.dirs && vp < VPAGES
    requires if Translate(m, d, vp).present then m1 == m && Translate(m, d, vp).page != f && Removed(m, m2, d, vp)
      else m2 == m1
    requires (d, vp) in m.counted <==> Translate(m, d, vp).present
    requires f < |m.ref| && f !in m.free && |m2.ref| == |m.ref|
    requires OneUpdate(m2, m3, d, vp, Pte(f, perm, true)) && m3.ref == m2.ref[f := m2.ref[f] + 1] && m3.free == m2.free
    requires m3.counted == m2.counted + {(d, vp)}
    ensures Inserted(m, m3, d, f, vp, perm)
    ensures !Translate(m, d, vp).present ==> GrownFree(m, m3, d)
  {
    SameTableOf(m2, m3, d, vp, Pte(f, perm, true));
    if Translate(m, d, vp).present {
      assert m3.counted == m.counted + {(d, vp)};
    }
  }

  // ---------------------------------------------------------------- dropping a directory

  ghost predicate TableBelow(m: Mem, d: nat, i: nat, t: nat) {
    exists j: nat :: j < i && IsTable(m, d, j, t)
  }

  /** ptable_remove has passed `i` directory entries. */
  ghost predicate Unlinked(m: Mem, m': Mem, d: nat, i: nat) {
    && Inv(m) && d in m.dirs && m'.phys == m.phys && m'.dirs == m.dirs && m'.counted == m.counted && |m'.ref| == |m.ref|
    && (forall f: nat :: f < |m.ref| && f < |m'.ref| ==> m'.ref[f] == if TableBelow(m, d, i, f) then 0 else m.ref[f])
    && NoDups(m'.free) && (forall f: nat :: f in m'.free <==> f in m.free || TableBelow(m, d, i, f))
  }

  lemma NothingUnlinked(m: Mem, d: nat)
    requires Inv(m) && d in m.dirs
    ensures Unlinked(m, m, d, 0)
  {
  }

  lemma DirUnlinked(m: Mem, m': Mem, d: nat, i: nat)
    requires Unlinked(m, m', d, i)
    ensures d < |m'.phys| && |m'.phys[d]| == ENTRIES && m'.phys == m.phys && m'.dirs == m.dirs
    ensures m'.counted == m.counted
  {
  }

  lemma TableLinked(m: Mem, m': Mem, d: nat, i: nat)
    requires Unlinked(m, m', d, i) && i < ENTRIES && Pde(m, d, i).present
    ensures var t := Pde(m, d, i).page; t < |m'.ref| && m'.ref[t] == 1 && t !in m'.free
  {
    var t := Pde(m, d, i).page;
    assert IsTable(m, d, i, t);
    assert !TableBelow(m, d, i, t);
  }

  lemma UnlinkedNext(m: Mem, m1: Mem, m2: Mem, d: nat, i: nat)
    requires Unlinked(m, m1, d, i) && i < ENTRIES && m2.phys == m.phys && m2.dirs == m.dirs && m2.counted == m.counted
    requires if Pde(m, d, i).present
      then var t := Pde(m, d, i).page;
        && t < |m1.ref| && m1.ref[t] == 1 && t !in m1.free
        && m2.ref == m1.ref[t := 0] && m2.free == [t] + m1.free
      else m2.ref == m1.ref && m2.free == m1.free
    ensures Unlinked(m, m2, d, i + 1)
  {
    hide Inv;
    forall f: nat
      ensures TableBelow(m, d, i + 1, f) <==> TableBelow(m, d, i, f) || IsTable(m, d, i, f)
    {
      if TableBelow(m, d, i + 1, f) { var j: nat :| j < i + 1 && IsTable(m, d, j, f); }
    }
    assert forall f: nat :: IsTable(m, d, i, f) <==> Pde(m, d, i).present && Pde(m, d, i).page == f;
  }

  lemma AllUnlinked(m: Mem, m': Mem, d: nat)
    requires Unlinked(m, m', d, ENTRIES)
    ensures d < |m'.ref| && m'.ref[d] == 0 && d !in m'.free
    ensures forall f: nat :: TableBelow(m, d, ENTRIES, f) <==> TableOf(m, d, f)
  {
    forall f: nat
      ensures TableBelow(m, d, ENTRIES, f) <==> TableOf(m, d, f)
    {
      if TableOf(m, d, f) { var j: nat :| IsTable(m, d, j, f); assert j < ENTRIES; }
    }
  }

  lemma DropDone(m: Mem, u: Mem, m': Mem, d: nat, usable: set<nat>)
    requires Inv(m) && d in m.dirs && Within(m, usable) && (forall x :: x in m.counted ==> x.0 != d)
    requires Unlinked(m, u, d, ENTRIES) && m' == u.(dirs := u.dirs - {d}, free := [d] + u.free)
    ensures Shape(m') && Inv(m') && Within(m', usable) && Dropped(m, m', d)
  {
    AllUnlinked(m, u, d);
    assert Dropped(m, m', d);
    DroppedKeeps(m, m', d);
    forall f | f in m'.free
      ensures f in usable
    {
      if TableOf(m, d, f) { var j: nat :| IsTable(m, d, j, f); }
    }
    assert forall c: nat, i: nat, t: nat :: IsTable(m', c, i, t) ==> IsTable(m, c, i, t);
    assert forall c: nat, v: nat :: Translate(m', c, v) == Translate(m, c, v);
  }

  // ---------------------------------------------------------------- page contents

  lemma PagesRefl(m: Mem)
    ensures PagesKept(m, m)
  {
  }

  lemma PagesTrans(a: Mem, b: Mem, c: Mem)
    requires PagesKept(a, b) && PagesKept(b, c)
    ensures PagesKept(a, c)
  {
  }

  lemma SetPtePages(m: Mem, m': Mem, d: nat, vp: nat, e: Pte)
    requires Inv(m) && HasTable(m, d, vp) && OneUpdate(m, m', d, vp, e) && m'.free == m.free
    requires Pde(m, d, Pdx(vp)).page < |m.phys| && Ptx(vp) < |m.phys[Pde(m, d, Pdx(vp)).page]|
    requires m'.phys == SetPte(m, d, vp, e).phys
    ensures PagesKept(m, m')
  {
    UpdateTables(m, m', d, vp, e);
    assert IsTable(m, d, Pdx(vp), Pde(m, d, Pdx(vp)).page);
  }

  lemma FillIsOk(m: Mem, f: nat, page: seq<Pte>, usable: set<nat>)
    requires Inv(m) && Within(m, usable) && f < |m.ref| && Ordinary(m, f) && |page| == ENTRIES
    ensures f < |m.phys|
    ensures var m' := m.(phys := m.phys[f := page]);
      && Inv(m') && Shape(m') && Within(m', usable) && SameMaps(m, m')
      && forall g: nat :: Ordinary(m', g) <==> Ordinary(m, g)
  {
    FillKeeps(m, f, page);
    var m' := m.(phys := m.phys[f := page]);
    assert forall d: nat, i: nat, t: nat :: IsTable(m', d, i, t) <==> IsTable(m, d, i, t);
  }

  lemma DirIsOk(m: Mem, d: nat, usable: set<nat>)
    requires Inv(m) && Within(m, usable) && d in usable
    requires d < |m.ref| && d !in m.free && Ordinary(m, d) && m.ref[d] == 0 && d < |m.phys| && m.phys[d] == EmptyTable()
    ensures var m' := m.(dirs := m.dirs + {d});
      && Inv(m') && Shape(m') && Within(m', usable) && (forall vp: nat :: vp < VPAGES ==> Translate(m', d, vp) == NONE)
      && (forall c: nat, f: nat :: TableOf(m', c, f) <==> TableOf(m, c, f))
  {
    AddDirKeeps(m, d);
    var m' := m.(dirs := m.dirs + {d});
    forall c: nat, f: nat
      ensures TableOf(m', c, f) <==> TableOf(m, c, f)
    {
      if TableOf(m, c, f) { var j: nat :| IsTable(m, c, j, f); assert IsTable(m', c, j, f); }
      if TableOf(m', c, f) { var j: nat :| IsTable(m', c, j, f); assert IsTable(m, c, j, f); }
    }
    assert forall x :: x in m.counted ==> Translate(m', x.0, x.1) == Translate(m, x.0, x.1);
  }
}
