/**
  lab5/nctuos/kernel/task.c: the address spaces of tasks.  Creating a task takes pages for its
  directory, its page tables and its stack; freeing it gives exactly these back.
 */
module TaskMemory {
  import opened Common
  import opened PageModel
  import opened PageTables

  /** One call of boot_map_region, in pages. */
  datatype Region = Region(vp: nat, n: nat, pa: nat, perm: nat)

  predicate InStack(vp: nat) {
    STACK_TOP - STACK_PAGES <= vp < STACK_TOP
  }

  /** Inside the address space and clear of the user stack. */
  predicate GoodRegion(r: Region) {
    r.vp + r.n <= VPAGES && (r.vp + r.n <= STACK_TOP - STACK_PAGES || STACK_TOP <= r.vp)
  }

  /** setupkvm's regions: page descriptors, kernel stack, all of memory, the I/O hole. */
  function KernelRegions(npages: nat, pagesPa: nat, stackPa: nat): seq<Region> {
    [Region(0xef000, (npages * 8 + 4095) / 4096, pagesPa, PTE_U),
     Region(0xefff8, 8, stackPa, PTE_W),
     Region(0xf0000, 0x10000, 0, PTE_W),
     Region(0xa0, 96, 0xa0, PTE_W)]
  }

  ghost predicate StackOf(m: Mem, d: nat, f: nat) {
    exists v: nat :: (d, v) in m.counted && Translate(m, d, v).page == f
  }

  /** The pages a directory stands on. */
  ghost predicate Taken(m: Mem, d: nat, f: nat) {
    f == d || TableOf(m, d, f) || StackOf(m, d, f)
  }

  /** The free pages of `m0` are those of `m` and the ones `d` has taken. */
  ghost predicate Balance(m0: Mem, m: Mem, d: nat) {
    forall f: nat :: f in m0.free <==> f in m.free || Taken(m, d, f)
  }

  /** Only stack pages of `d` hold references, and its stack is mapped by nothing else. */
  ghost predicate StackOnly(m: Mem, d: nat) {
    && (forall v: nat :: (d, v) in m.counted ==> InStack(v))
    && (forall v: nat :: InStack(v) && Translate(m, d, v).present ==> (d, v) in m.counted)
  }

  ghost predicate OnlyHolder(m: Mem, d: nat, f: nat) {
    forall x :: x in m.counted && Translate(m, x.0, x.1).page == f ==> x.0 == d
  }

  // ---------------------------------------------------------------- task_free

  /** The stack pages down to `STACK_TOP - k` have been removed. */
  ghost predicate Stripped(m: Mem, m': Mem, d: nat, k: nat) {
    && m'.dirs == m.dirs && |m'.ref| == |m.ref|
    && Uncounted(m, m', d, k) && MapsLeft(m, m', d, k)
    && (forall c: nat, f: nat :: TableOf(m', c, f) <==> TableOf(m, c, f))
    && StackFreed(m, m', d) && SameContents(m, m')
  }

  ghost predicate Uncounted(m: Mem, m': Mem, d: nat, k: nat) {
    forall x :: x in m'.counted <==> x in m.counted && !(x.0 == d && STACK_TOP - k <= x.1 < STACK_TOP)
  }

  ghost predicate MapsLeft(m: Mem, m': Mem, d: nat, k: nat) {
    forall c: nat, v: nat :: c in m.dirs && v < VPAGES && !(c == d && STACK_TOP - k <= v < STACK_TOP) ==>
      Translate(m', c, v) == Translate(m, c, v)
  }

  ghost predicate StackFreed(m: Mem, m': Mem, d: nat) {
    forall f: nat :: f in m'.free <==> f in m.free || (StackOf(m, d, f) && Refs(m', f) == {})
  }

  lemma NothingStripped(m: Mem, d: nat)
    requires Inv(m)
    ensures Stripped(m, m, d, 0)
  {
    forall f: nat | StackOf(m, d, f)
      ensures Refs(m, f) != {}
    {
      var v: nat :| (d, v) in m.counted && Translate(m, d, v).page == f;
      assert (d, v) in Refs(m, f);
    }
  }

  lemma StripAbsent(m: Mem, m1: Mem, d: nat, k: nat)
    requires Inv(m1) && Stripped(m, m1, d, k) && k < STACK_PAGES && !Translate(m1, d, STACK_TOP - 1 - k).present
    ensures Stripped(m, m1, d, k + 1)
  {
    hide Inv;
    AbsentUncounted(m1, d, STACK_TOP - 1 - k);
  }

  /** One page_remove: only the page of that mapping can have become free. */
  lemma StripOne(m: Mem, m1: Mem, m2: Mem, d: nat, k: nat)
    requires Inv(m1) && Inv(m2) && d in m.dirs && Stripped(m, m1, d, k) && k < STACK_PAGES
    requires var vp := STACK_TOP - 1 - k; (d, vp) in m1.counted && Removed(m1, m2, d, vp)
    ensures Stripped(m, m2, d, k + 1)
  {
    hide Inv, Translate, SameContents, TableOf, StackOf, Uncounted, MapsLeft, StackFreed, Refs;
    var vp := STACK_TOP - 1 - k;
    StripCounted(m, m1, m2, d, k);
    StripMaps(m, m1, m2, d, k);
    InStackOf(m, d, vp);
    SameTableOf(m1, m2, d, vp, NONE);
    StripContents(m, m1, m2, d, k);
    forall f: nat
      ensures Refs(m2, f) == Refs(m1, f) - {(d, vp)}
    {
      StripRefs(m1, m2, d, vp, f);
    }
    StripFree(m, m1, m2, d, vp, Translate(m1, d, vp).page);
  }

  lemma StripCounted(m: Mem, m1: Mem, m2: Mem, d: nat, k: nat)
    requires Uncounted(m, m1, d, k) && k < STACK_PAGES
    requires var vp := STACK_TOP - 1 - k; (d, vp) in m1.counted && m2.counted == m1.counted - {(d, vp)}
    ensures Uncounted(m, m2, d, k + 1) && (d, STACK_TOP - 1 - k) in m.counted
  {
  }

  lemma StripMaps(m: Mem, m1: Mem, m2: Mem, d: nat, k: nat)
    requires MapsLeft(m, m1, d, k) && m1.dirs == m.dirs && d in m.dirs && k < STACK_PAGES
    requires OneUpdate(m1, m2, d, STACK_TOP - 1 - k, NONE)
    ensures MapsLeft(m, m2, d, k + 1)
    ensures Translate(m, d, STACK_TOP - 1 - k) == Translate(m1, d, STACK_TOP - 1 - k)
  {
    hide Translate;
  }

  lemma InStackOf(m: Mem, d: nat, vp: nat)
    requires (d, vp) in m.counted
    ensures StackOf(m, d, Translate(m, d, vp).page)
  {
  }

  lemma StripContents(m: Mem, m1: Mem, m2: Mem, d: nat, k: nat)
    requires Stripped(m, m1, d, k) && SameContents(m1, m2)
    ensures SameContents(m, m2)
  {
    forall g: nat | Ordinary(m, g)
      ensures Ordinary(m1, g)
    {
      OrdinaryTables(m, g);
      OrdinaryTables(m1, g);
    }
  }

  /** A page is ordinary when it is no directory and nobody's table. */
  lemma OrdinaryTables(m: Mem, g: nat)
    ensures Ordinary(m, g) <==> g !in m.dirs && forall c: nat :: !TableOf(m, c, g)
  {
    if Ordinary(m, g) {
      assert forall c: nat, i: nat :: !IsTable(m, c, i, g);
    } else if g !in m.dirs {
      var c: nat, i: nat :| IsTable(m, c, i, g);
      assert TableOf(m, c, g);
    }
  }

  lemma StripRefs(m1: Mem, m2: Mem, d: nat, vp: nat, f: nat)
    requires Inv(m1) && Removed(m1, m2, d, vp)
    ensures Refs(m2, f) == Refs(m1, f) - {(d, vp)}
  {
    forall x | x in m1.counted && x != (d, vp)
      ensures Translate(m2, x.0, x.1) == Translate(m1, x.0, x.1)
    {
      assert x.0 != d || x.1 != vp;
    }
  }

  lemma StripFree(m: Mem, m1: Mem, m2: Mem, d: nat, vp: nat, p: nat)
    requires Inv(m1) && Inv(m2) && Removed(m1, m2, d, vp) && (d, vp) in m1.counted && p == Translate(m1, d, vp).page
    requires StackOf(m, d, p)
    requires forall f: nat :: Refs(m2, f) == Refs(m1, f) - {(d, vp)}
    requires StackFreed(m, m1, d)
    ensures StackFreed(m, m2, d)
  {
    hide Inv, Translate, Refs, StackOf, OneUpdate, SameContents;
    LastRef(m1, d, vp);
    forall f: nat
      ensures f in m2.free <==> f in m.free || (StackOf(m, d, f) && Refs(m2, f) == {})
    {
      assert f != p ==> Refs(m2, f) == Refs(m1, f);
      assert |Refs(m2, p)| == m1.ref[p] - 1;
    }
  }

  /** pp_ref counts this mapping, so the page is not free, and no other page has this reference. */
  lemma LastRef(m: Mem, d: nat, vp: nat)
    requires Inv(m) && (d, vp) in m.counted
    ensures var p := Translate(m, d, vp).page;
      && p < |m.ref| && m.ref[p] == |Refs(m, p)| && p !in m.free && (d, vp) in Refs(m, p)
      && forall f: nat :: f != p ==> (d, vp) !in Refs(m, f)
  {
    var p := Translate(m, d, vp).page;
    assert Ordinary(m, p) && (d, vp) in Refs(m, p);
    if p in m.free { FreeIsOrdinary(m, p); }
  }

  /** The pages of `d` that nobody else holds are free again; the other address spaces are as before. */
  ghost predicate Freed(m: Mem, m': Mem, d: nat) {
    && m'.dirs == m.dirs - {d} && NoDups(m'.free)
    && (forall f: nat :: f in m'.free <==>
          f in m.free || f == d || TableOf(m, d, f) || (StackOf(m, d, f) && OnlyHolder(m, d, f)))
    && (forall x :: x in m'.counted <==> x in m.counted && x.0 != d)
    && (forall c: nat, v: nat :: c in m'.dirs && v < VPAGES ==> Translate(m', c, v) == Translate(m, c, v))
    && TablesKept(m, m', d) && SameContents(m, m')
  }

  /** Every directory but `d` has the page tables it had. */
  ghost predicate TablesKept(m: Mem, m': Mem, d: nat) {
    forall c: nat, f: nat :: c in m.dirs && c != d ==> (TableOf(m', c, f) <==> TableOf(m, c, f))
  }

  /**
    task_free: the directory, its page tables and the stack pages nobody else holds are free again;
    no other page is, and no page twice.
   */
  method TaskFree(mm: Memory, d: nat)
    requires mm.Valid() && d in mm.dirs && StackOnly(mm.View(), d)
    modifies mm, mm.link, mm.phys, mm.ref
    ensures mm.Valid() && Freed(old(mm.View()), mm.View(), d)
  {
    hide Inv, Stripped, Removed, Within, Listed, Dropped, StackOnly, Freed;
    ghost var m := mm.View();
    NothingStripped(m, d);
    var k := 0;
    while k < STACK_PAGES
      invariant k <= STACK_PAGES && mm.Valid() && Stripped(m, mm.View(), d, k) && mm.dirs == m.dirs
    {
      ghost var m1 := mm.View();
      var vp := STACK_TOP - 1 - k;
      StripReady(m, m1, d, k);
      var _ := mm.PageRemove(d, vp, true);
      if Translate(m1, d, vp).present {
        StripOne(m, m1, mm.View(), d, k);
        RemovedDirs(m1, mm.View(), d, vp);
      } else {
        StripAbsent(m, m1, d, k);
      }
      k := k + 1;
    }
    ghost var m2 := mm.View();
    StackGone(m, m2, d);
    mm.DropDirectory(d);
    TaskFreed(m, m2, mm.View(), d);
  }

  lemma RemovedDirs(m: Mem, m': Mem, d: nat, vp: nat)
    requires Removed(m, m', d, vp)
    ensures m'.dirs == m.dirs
  {
  }

  lemma StripReady(m: Mem, m1: Mem, d: nat, k: nat)
    requires Stripped(m, m1, d, k) && StackOnly(m, d) && d in m.dirs && k < STACK_PAGES
    ensures var vp := STACK_TOP - 1 - k; vp < VPAGES && (Translate(m1, d, vp).present ==> (d, vp) in m1.counted)
  {
    var vp := STACK_TOP - 1 - k;
    assert InStack(vp);
    assert Translate(m1, d, vp) == Translate(m, d, vp);
  }

  lemma StackGone(m: Mem, m2: Mem, d: nat)
    requires Inv(m) && Stripped(m, m2, d, STACK_PAGES) && StackOnly(m, d)
    ensures forall x :: x in m2.counted ==> x.0 != d
  {
    forall x | x in m2.counted
      ensures x.0 != d
    {
      assert x == (x.0, x.1);
    }
  }

  lemma TaskFreed(m: Mem, m2: Mem, m3: Mem, d: nat)
    requires Inv(m) && Inv(m2) && Stripped(m, m2, d, STACK_PAGES) && StackOnly(m, d) && d in m.dirs
    requires Shape(m2) && Shape(m3) && Dropped(m2, m3, d)
    ensures Freed(m, m3, d)
  {
    StackGone(m, m2, d);
    forall f: nat
      ensures Refs(m2, f) == {} <==> OnlyHolder(m, d, f)
    {
      HoldersLeft(m, m2, d, f);
    }
    assert forall c: nat, v: nat :: Translate(m3, c, v) == Translate(m2, c, v);
    DroppedTables(m2, m3, d);
  }

  lemma DroppedTables(m: Mem, m': Mem, d: nat)
    requires m'.phys == m.phys && m'.dirs == m.dirs - {d}
    ensures TablesKept(m, m', d)
  {
    forall c: nat, f: nat | c in m.dirs && c != d
      ensures TableOf(m', c, f) <==> TableOf(m, c, f)
    {
      assert forall i: nat :: IsTable(m', c, i, f) <==> IsTable(m, c, i, f);
    }
  }

  lemma HoldersLeft(m: Mem, m2: Mem, d: nat, f: nat)
    requires Inv(m) && Stripped(m, m2, d, STACK_PAGES) && StackOnly(m, d)
    requires forall x :: x in m2.counted ==> x.0 != d
    ensures Refs(m2, f) == {} <==> OnlyHolder(m, d, f)
  {
    forall x | x in m.counted && x.0 != d
      ensures x in m2.counted && Translate(m2, x.0, x.1) == Translate(m, x.0, x.1)
    {
    }
    if !OnlyHolder(m, d, f) {
      var x :| x in m.counted && Translate(m, x.0, x.1).page == f && x.0 != d;
      assert x in Refs(m2, f);
    }
  }

  // ---------------------------------------------------------------- setupkvm and setupvm

  predicate Covers(r: Region, v: nat) {
    r.vp <= v < r.vp + r.n
  }

  /** The flat map after a list of regions: the last one that covers a page counts. */
  function Overlaid(m: Mem, d: nat, regions: seq<Region>, v: nat): Pte {
    if regions == [] then Translate(m, d, v)
    else
      var r := regions[|regions| - 1];
      if Covers(r, v) then Pte(r.pa + (v - r.vp), r.perm, true) else Overlaid(m, d, regions[..|regions| - 1], v)
  }

  ghost predicate RegionsMapped(m: Mem, m': Mem, d: nat, regions: seq<Region>) {
    && GrownTables(m, m', d) && PagesKept(m, m')
    && forall c: nat, v: nat :: c in m.dirs && v < VPAGES ==>
         Translate(m', c, v) == if c == d then Overlaid(m, d, regions, v) else Translate(m, c, v)
  }

  lemma NoRegions(m: Mem, d: nat)
    ensures RegionsMapped(m, m, d, []) && Spends(m, m, d, DirsOf([]), 0)
  {
    assert Present(m, d) + DirsOf([]) == Present(m, d);
  }

  /** The directory entries that a list of regions needs. */
  ghost function DirsOf(regions: seq<Region>): set<nat> {
    if regions == [] then {}
    else
      var r := regions[|regions| - 1];
      DirsOf(regions[..|regions| - 1]) + Touched(r.vp, r.n)
  }

  lemma {:induction false} DirsAppend(a: seq<Region>, b: seq<Region>)
    ensures DirsOf(a + b) == DirsOf(a) + DirsOf(b)
  {
    if b == [] {
      assert a + b == a;
    } else {
      DirsAppend(a, b[..|b| - 1]);
      assert (a + b)[..|a + b| - 1] == a + b[..|b| - 1];
    }
  }

  lemma DirsLast(a: seq<Region>, r: Region)
    ensures DirsOf(a + [r]) == DirsOf(a) + Touched(r.vp, r.n)
  {
    hide Touched;
    assert (a + [r])[..|a|] == a;
  }

  lemma DirsMore(regions: seq<Region>, k: nat)
    requires k < |regions|
    ensures DirsOf(regions[..k + 1]) == DirsOf(regions[..k]) + Touched(regions[k].vp, regions[k].n)
    ensures DirsOf(regions[..k + 1]) <= DirsOf(regions)
  {
    hide Touched, DirsOf;
    assert regions[..k + 1] == regions[..k] + [regions[k]];
    DirsLast(regions[..k], regions[k]);
    assert regions == regions[..k + 1] + regions[k + 1..];
    DirsAppend(regions[..k + 1], regions[k + 1..]);
  }

  /** Too few pages for the rest are too few for the whole. */
  lemma ShortLater(m: Mem, m1: Mem, d: nat, a: set<nat>, b: set<nat>, all: set<nat>, k: nat, n: nat)
    requires Spends(m, m1, d, a, k) && Short(m1, d, b, n) && a + b <= all
    ensures Short(m, d, all, k + n)
  {
    SubsetSize(Present(m1, d) + b, Present(m, d) + all);
  }

  lemma OneRegion(m: Mem, m1: Mem, m2: Mem, d: nat, regions: seq<Region>, k: nat)
    requires k < |regions| && RegionsMapped(m, m1, d, regions[..k])
    requires GrownTables(m1, m2, d) && PagesKept(m1, m2)
    requires var r := regions[k]; RangeUpdate(m1, m2, d, r.vp, r.n, r.pa, r.perm)
    ensures RegionsMapped(m, m2, d, regions[..k + 1])
  {
    PagesTrans(m, m1, m2);
    GrownTrans(m, m1, m2, m2, d);
    assert regions[..k + 1][..k] == regions[..k];
  }

  /** The calls of boot_map_region in setupkvm, and those that setupvm adds. */
  method MapRegions(mm: Memory, d: nat, regions: seq<Region>) returns (ok: bool)
    requires mm.Valid() && d in mm.dirs && forall i :: 0 <= i < |regions| ==> GoodRegion(regions[i])
    requires forall v: nat :: (d, v) in mm.counted ==> InStack(v)
    modifies mm, mm.link, mm.phys, mm.ref
    ensures mm.Valid() && mm.dirs == old(mm.dirs) && mm.counted == old(mm.counted)
    ensures ok ==> RegionsMapped(old(mm.View()), mm.View(), d, regions)
    ensures if ok then Spends(old(mm.View()), mm.View(), d, DirsOf(regions), 0)
      else Short(old(mm.View()), d, DirsOf(regions), 0)
  {
    hide Inv, Within, Listed, RegionsMapped, GrownTables, RangeUpdate, PagesKept, Spends, Short, DirsOf;
    ghost var m := mm.View();
    NoRegions(m, d);
    var k := 0;
    assert regions[..0] == [];
    while k < |regions|
      invariant k <= |regions| && mm.Valid() && mm.dirs == m.dirs && mm.counted == m.counted
      invariant RegionsMapped(m, mm.View(), d, regions[..k]) && Spends(m, mm.View(), d, DirsOf(regions[..k]), 0)
    {
      ghost var m1 := mm.View();
      var r := regions[k];
      assert GoodRegion(r);
      ok := mm.BootMapRegion(d, r.vp, r.n, r.pa, r.perm);
      DirsMore(regions, k);
      if !ok {
        ShortLater(m, m1, d, DirsOf(regions[..k]), Touched(r.vp, r.n), DirsOf(regions), 0, 0);
        return false;
      }
      SpendsBoth(m, m1, mm.View(), d, DirsOf(regions[..k]), Touched(r.vp, r.n), 0, 0);
      OneRegion(m, m1, mm.View(), d, regions, k);
      k := k + 1;
    }
    assert regions[..k] == regions;
    return true;
  }

  lemma StackUncovered(m: Mem, d: nat, regions: seq<Region>, v: nat)
    requires (forall i :: 0 <= i < |regions| ==> GoodRegion(regions[i])) && InStack(v)
    ensures Overlaid(m, d, regions, v) == Translate(m, d, v)
  {
    if regions != [] {
      assert GoodRegion(regions[|regions| - 1]);
      StackUncovered(m, d, regions[..|regions| - 1], v);
    }
  }

  lemma BalanceRegions(m0: Mem, m: Mem, m': Mem, d: nat, regions: seq<Region>)
    requires Balance(m0, m, d) && RegionsMapped(m, m', d, regions) && d in m.dirs
    requires forall i :: 0 <= i < |regions| ==> GoodRegion(regions[i])
    requires forall v: nat :: (d, v) in m.counted ==> InStack(v)
    ensures Balance(m0, m', d)
    ensures forall v: nat :: InStack(v) ==> Translate(m', d, v) == Translate(m, d, v)
  {
    forall v: nat | InStack(v)
      ensures Translate(m', d, v) == Translate(m, d, v)
    {
      StackUncovered(m, d, regions, v);
    }
    forall f: nat
      ensures StackOf(m', d, f) <==> StackOf(m, d, f)
    {
      if StackOf(m, d, f) {
        var v: nat :| (d, v) in m.counted && Translate(m, d, v).page == f;
        assert (d, v) in m'.counted && Translate(m', d, v).page == f;
      }
      if StackOf(m', d, f) {
        var v: nat :| (d, v) in m'.counted && Translate(m', d, v).page == f;
        assert (d, v) in m.counted && Translate(m, d, v).page == f;
      }
    }
  }

  // ---------------------------------------------------------------- the user stack

  /** The top `k` stack pages of `d` are mapped, each to a page of its own. */
  ghost predicate Stacked(m: Mem, m': Mem, d: nat, k: nat) {
    && m'.dirs == m.dirs && |m'.ref| == |m.ref| && PagesKept(m, m')
    && (forall x :: x in m'.counted <==> x in m.counted || (x.0 == d && STACK_TOP - k <= x.1 < STACK_TOP))
    && (forall c: nat, v: nat :: c in m.dirs && v < VPAGES && !(c == d && STACK_TOP - k <= v < STACK_TOP) ==>
          Translate(m', c, v) == Translate(m, c, v))
    && (forall v: nat :: STACK_TOP - k <= v < STACK_TOP ==> OwnPage(m', d, v))
    && TablesKept(m, m', d)
  }

  ghost predicate OwnPage(m: Mem, d: nat, v: nat) {
    var e := Translate(m, d, v);
    e.present && e.perm == PTE_W + PTE_U && e.page < |m.ref| && e.page !in m.free && m.ref[e.page] == 1
  }

  lemma NothingStacked(m: Mem, d: nat)
    ensures Stacked(m, m, d, 0) && Spends(m, m, d, StackDirs(0), 0)
  {
    assert Present(m, d) + StackDirs(0) == Present(m, d);
  }

  /** The directory entries that the top `k` stack pages need. */
  ghost function StackDirs(k: nat): set<nat> {
    set v: nat | STACK_TOP - k <= v < STACK_TOP :: Pdx(v)
  }

  lemma StackDirsMore(k: nat)
    requires k < STACK_PAGES
    ensures StackDirs(k + 1) == StackDirs(k) + {Pdx(STACK_TOP - 1 - k)}
    ensures StackDirs(k + 1) <= StackDirs(STACK_PAGES) && Pdx(STACK_TOP - 1 - k) in StackDirs(STACK_PAGES)
  {
    forall i: nat | i in StackDirs(k + 1)
      ensures i in StackDirs(k) + {Pdx(STACK_TOP - 1 - k)} && i in StackDirs(STACK_PAGES)
    {
      var v: nat :| STACK_TOP - (k + 1) <= v < STACK_TOP && i == Pdx(v);
      assert v >= STACK_TOP - STACK_PAGES && (v >= STACK_TOP - k || v == STACK_TOP - 1 - k);
    }
    forall i: nat | i in StackDirs(k)
      ensures i in StackDirs(k + 1)
    {
      var v: nat :| STACK_TOP - k <= v < STACK_TOP && i == Pdx(v);
      assert v >= STACK_TOP - (k + 1);
    }
  }

  lemma SpendsPage(m: Mem, m1: Mem, ma: Mem, d: nat, done: set<nat>, k: nat)
    requires Spends(m, m1, d, done, k) && m1.free != [] && ma.free == m1.free[1..] && SameMaps(m1, ma) && d in m1.dirs
    ensures Spends(m, ma, d, done, k + 1)
  {
    assert Present(ma, d) == Present(m1, d);
  }

  lemma StackOne(m: Mem, m1: Mem, ma: Mem, mb: Mem, d: nat, k: nat, f: nat)
    requires Stacked(m, m1, d, k) && k < STACK_PAGES && d in m.dirs && f < |m.ref|
    requires m1.free != [] && f == m1.free[0] && ma.free == m1.free[1..] && ma.ref == m1.ref && SameMaps(m1, ma)
    requires PagesKept(m1, ma)
    requires ma.ref[f] == 0 && f !in ma.free
    requires Inserted(ma, mb, d, f, STACK_TOP - 1 - k, PTE_W + PTE_U) && PagesKept(ma, mb) && GrownFree(ma, mb, d)
    requires !Translate(m1, d, STACK_TOP - 1 - k).present
    ensures Stacked(m, mb, d, k + 1)
  {
    hide Translate, PagesKept;
    PagesTrans(m, m1, ma);
    PagesTrans(m, ma, mb);
    AllTablesSame(m1, ma);
    var vp := STACK_TOP - 1 - k;
    forall v: nat | STACK_TOP - (k + 1) <= v < STACK_TOP
      ensures OwnPage(mb, d, v)
    {
      if v != vp {
        assert OwnPage(m1, d, v);
        var g := Translate(m1, d, v).page;
        assert Translate(mb, d, v) == Translate(m1, d, v);
        assert m1.free == [f] + ma.free;
        assert g !in m1.free && g != f;
      }
    }
  }

  lemma BalanceStack(m0: Mem, m1: Mem, ma: Mem, mb: Mem, d: nat, vp: nat, f: nat, perm: nat)
    requires Inv(m1) && Balance(m0, m1, d) && d in m1.dirs && vp < VPAGES
    requires m1.free != [] && f == m1.free[0] && ma.free == m1.free[1..] && SameMaps(m1, ma)
    requires Inserted(ma, mb, d, f, vp, perm) && GrownFree(ma, mb, d) && (d, vp) !in m1.counted
    ensures Balance(m0, mb, d)
  {
    forall c: nat, g: nat
      ensures TableOf(ma, c, g) <==> TableOf(m1, c, g)
    {
      if TableOf(m1, c, g) { var j: nat :| IsTable(m1, c, j, g); assert IsTable(ma, c, j, g); }
      if TableOf(ma, c, g) { var j: nat :| IsTable(ma, c, j, g); assert IsTable(m1, c, j, g); }
    }
    forall g: nat
      ensures StackOf(mb, d, g) <==> StackOf(m1, d, g) || g == f
    {
      StackOfInsert(m1, ma, mb, d, vp, f, perm, g);
    }
    assert m1.free == [f] + ma.free;
  }

  lemma StackOfInsert(m1: Mem, ma: Mem, mb: Mem, d: nat, vp: nat, f: nat, perm: nat, g: nat)
    requires Inv(m1) && d in m1.dirs && vp < VPAGES && SameMaps(m1, ma)
    requires Inserted(ma, mb, d, f, vp, perm) && (d, vp) !in m1.counted
    ensures StackOf(mb, d, g) <==> StackOf(m1, d, g) || g == f
  {
    if StackOf(m1, d, g) {
      var v: nat :| (d, v) in m1.counted && Translate(m1, d, v).page == g;
      assert (d, v).1 < VPAGES;
      assert (d, v) in mb.counted && Translate(mb, d, v).page == g;
    }
    if g == f { assert (d, vp) in mb.counted && Translate(mb, d, vp).page == f; }
    if StackOf(mb, d, g) {
      var v: nat :| (d, v) in mb.counted && Translate(mb, d, v).page == g;
      if v != vp {
        assert (d, v) in m1.counted && (d, v).1 < VPAGES;
        assert Translate(m1, d, v).page == g;
      }
    }
  }

  /** The stack loop of task_create. */
  method AddStack(mm: Memory, d: nat, ghost m0: Mem) returns (ok: bool)
    requires mm.Valid() && d in mm.dirs && Balance(m0, mm.View(), d) && forall v: nat :: (d, v) !in mm.counted
    requires forall v: nat :: InStack(v) ==> !Translate(mm.View(), d, v).present
    modifies mm, mm.link, mm.phys, mm.ref
    ensures mm.Valid()
    ensures ok ==> Stacked(old(mm.View()), mm.View(), d, STACK_PAGES) && Balance(m0, mm.View(), d)
    ensures if ok then Spends(old(mm.View()), mm.View(), d, StackDirs(STACK_PAGES), STACK_PAGES)
      else Short(old(mm.View()), d, StackDirs(STACK_PAGES), STACK_PAGES)
  {
    hide Inv, Within, Listed, Stacked, Balance, PagesKept, SameMaps, Inserted, GrownFree, Ordinary, Spends, Short;
    hide StackDirs;
    ghost var m := mm.View();
    NothingStacked(m, d);
    var k := 0;
    while k < STACK_PAGES
      invariant k <= STACK_PAGES && mm.Valid() && Stacked(m, mm.View(), d, k) && Balance(m0, mm.View(), d)
      invariant Spends(m, mm.View(), d, StackDirs(k), k)
    {
      ghost var m1 := mm.View();
      var vp := STACK_TOP - 1 - k;
      StackFree(m, m1, d, k);
      StackDirsMore(k);
      var r := mm.PageAlloc();
      if r == None {
        RunsShort(m, m1, d, StackDirs(k), Pdx(vp), StackDirs(STACK_PAGES), k, STACK_PAGES);
        return false;
      }
      ghost var ma := mm.View();
      AllocAbsent(m1, ma, d, vp);
      SpendsPage(m, m1, ma, d, StackDirs(k), k);
      var inserted, _ := mm.PageInsert(d, r.value, vp, PTE_W + PTE_U, false);
      if !inserted {
        RunsShort(m, ma, d, StackDirs(k), Pdx(vp), StackDirs(STACK_PAGES), k + 1, STACK_PAGES);
        return false;
      }
      SpendsBoth(m, ma, mm.View(), d, StackDirs(k), {Pdx(vp)}, k + 1, 0);
      StackOne(m, m1, ma, mm.View(), d, k, r.value);
      BalanceStack(m0, m1, ma, mm.View(), d, vp, r.value, PTE_W + PTE_U);
      k := k + 1;
    }
    return true;
  }

  lemma StackFree(m: Mem, m1: Mem, d: nat, k: nat)
    requires Stacked(m, m1, d, k) && d in m.dirs && k < STACK_PAGES && (forall v: nat :: (d, v) !in m.counted)
    requires forall v: nat :: InStack(v) ==> !Translate(m, d, v).present
    ensures var vp := STACK_TOP - 1 - k;
      d in m1.dirs && vp < VPAGES && !Translate(m1, d, vp).present && (d, vp) !in m1.counted && |m1.ref| == |m.ref|
  {
    var vp := STACK_TOP - 1 - k;
    assert InStack(vp);
    assert Translate(m1, d, vp) == Translate(m, d, vp);
  }

  lemma AllocAbsent(m1: Mem, ma: Mem, d: nat, vp: nat)
    requires SameMaps(m1, ma) && d in m1.dirs && vp < VPAGES && !Translate(m1, d, vp).present
    ensures d in ma.dirs && !Translate(ma, d, vp).present
  {
  }

  // ---------------------------------------------------------------- sys_fork

  /** A page with one reference has one mapping. */
  lemma SoleMapping(m: Mem, x: (nat, nat), y: (nat, nat))
    requires Inv(m) && x in m.counted && y in m.counted
    requires var f := Translate(m, x.0, x.1).page; f < |m.ref| && m.ref[f] == 1 && Translate(m, y.0, y.1).page == f
    ensures x == y
  {
    var f := Translate(m, x.0, x.1).page;
    assert {x, y} <= Refs(m, f);
    assert Refs(m, f) == {x, y} + (Refs(m, f) - {x, y});
  }

  /** The stack of `p` and the stack of `d` are mapped with references, that of `d` to pages of its own. */
  ghost predicate TwoStacks(m: Mem, p: nat, d: nat) {
    && p in m.dirs && d in m.dirs && p != d
    && (forall v: nat :: InStack(v) ==> (p, v) in m.counted && (d, v) in m.counted && OwnPage(m, d, v))
  }

  lemma StackPages(m: Mem, p: nat, d: nat, v: nat)
    requires Inv(m) && TwoStacks(m, p, d) && InStack(v)
    ensures Translate(m, p, v).present && Translate(m, p, v).page < |m.ref|
    ensures Translate(m, d, v).present && Translate(m, d, v).page < |m.ref| && Ordinary(m, Translate(m, d, v).page)
    ensures forall u: nat :: InStack(u) ==> Translate(m, p, u).page != Translate(m, d, v).page
    ensures forall u: nat :: InStack(u) && u != v ==> Translate(m, d, u).page != Translate(m, d, v).page
  {
    assert (p, v) in m.counted && (d, v) in m.counted && OwnPage(m, d, v);
    forall u: nat | InStack(u)
      ensures Translate(m, p, u).page != Translate(m, d, v).page
      ensures u != v ==> Translate(m, d, u).page != Translate(m, d, v).page
    {
      if Translate(m, p, u).page == Translate(m, d, v).page { SoleMapping(m, (d, v), (p, u)); }
      if Translate(m, d, u).page == Translate(m, d, v).page { SoleMapping(m, (d, v), (d, u)); }
    }
  }

  /** The child's stack page at `v` holds what the parent's did, and still does. */
  ghost predicate Copied(m: Mem, m': Mem, p: nat, d: nat, v: nat) {
    var src, dst := Translate(m', p, v).page, Translate(m', d, v).page;
    src < |m.phys| && dst < |m'.phys| && src < |m'.phys| && m'.phys[dst] == m.phys[src] == m'.phys[src]
  }

  /** The top `k` stack pages have been copied; the maps and the parent's pages are as before. */
  ghost predicate CopiedTop(m: Mem, m': Mem, p: nat, d: nat, k: nat) {
    && m' == m.(phys := m'.phys) && |m'.phys| == |m.phys| && SameMaps(m, m')
    && (forall v: nat :: STACK_TOP - k <= v < STACK_TOP ==> Copied(m, m', p, d, v))
    && (forall v: nat :: InStack(v) ==> SameSource(m, m', p, v))
    && (forall g: nat :: g < |m.phys| && g < |m'.phys| && !StackOf(m, d, g) ==> m'.phys[g] == m.phys[g])
  }

  ghost predicate SameSource(m: Mem, m': Mem, p: nat, v: nat) {
    var f := Translate(m, p, v).page;
    f < |m.phys| && f < |m'.phys| && m'.phys[f] == m.phys[f]
  }

  lemma NothingCopied(m: Mem, p: nat, d: nat)
    requires Inv(m) && TwoStacks(m, p, d)
    ensures CopiedTop(m, m, p, d, 0)
  {
    forall v: nat | InStack(v)
      ensures SameSource(m, m, p, v)
    {
      StackPages(m, p, d, v);
    }
  }

  lemma CopyReady(m: Mem, m1: Mem, p: nat, d: nat, k: nat)
    requires Inv(m1) && CopiedTop(m, m1, p, d, k) && TwoStacks(m, p, d) && k < STACK_PAGES
    ensures var v := STACK_TOP - 1 - k;
      && p in m1.dirs && d in m1.dirs && v < VPAGES
      && Translate(m1, p, v).present && Translate(m1, p, v).page < |m1.ref|
      && Translate(m1, d, v).present && Translate(m1, d, v).page < |m1.ref| && Ordinary(m1, Translate(m1, d, v).page)
  {
    hide Inv, Translate, Copied, SameSource, TwoStacks, Ordinary;
    SameStacks(m, m1, p, d);
    assert InStack(STACK_TOP - 1 - k);
    StackPages(m1, p, d, STACK_TOP - 1 - k);
  }

  lemma CopyOne(m: Mem, m1: Mem, m2: Mem, p: nat, d: nat, k: nat)
    requires k < STACK_PAGES
    requires var v := STACK_TOP - 1 - k; var src, dst := Translate(m1, p, v).page, Translate(m1, d, v).page;
      src < |m1.phys| && dst < |m1.phys| && m2 == m1.(phys := m1.phys[dst := m1.phys[src]])
    requires Inv(m) && TwoStacks(m, p, d) && CopiedTop(m, m1, p, d, k) && SameMaps(m1, m2)
    ensures CopiedTop(m, m2, p, d, k + 1)
  {
    hide Inv, Translate;
    var v := STACK_TOP - 1 - k;
    assert InStack(v);
    StackPages(m, p, d, v);
    assert SameSource(m, m1, p, v);
    assert Translate(m1, p, v) == Translate(m, p, v) && Translate(m1, d, v) == Translate(m, d, v);
    assert (d, v) in m.counted && StackOf(m, d, Translate(m, d, v).page);
    forall u: nat | InStack(u)
      ensures SameSource(m, m2, p, u)
    {
      assert SameSource(m, m1, p, u);
    }
    forall u: nat | STACK_TOP - (k + 1) <= u < STACK_TOP
      ensures Copied(m, m2, p, d, u)
    {
      assert InStack(u) && SameSource(m, m2, p, u);
      if u != v { assert Copied(m, m1, p, d, u); }
    }
  }

  /** memcpy of the parent's stack, page by page. */
  method CopyStack(mm: Memory, p: nat, d: nat)
    requires mm.Valid() && TwoStacks(mm.View(), p, d)
    modifies mm.phys
    ensures mm.Valid() && CopiedTop(old(mm.View()), mm.View(), p, d, STACK_PAGES)
  {
    hide Inv, Within, Listed, TwoStacks, Ordinary, CopiedTop, SameMaps;
    ghost var m := mm.View();
    NothingCopied(m, p, d);
    var k := 0;
    while k < STACK_PAGES
      invariant k <= STACK_PAGES && mm.Valid() && CopiedTop(m, mm.View(), p, d, k)
    {
      ghost var m1 := mm.View();
      CopyReady(m, m1, p, d, k);
      var src, _ := mm.PageLookup(p, STACK_TOP - 1 - k, false);
      var dst, _ := mm.PageLookup(d, STACK_TOP - 1 - k, false);
      mm.Memcpy(dst.value, src.value);
      CopyOne(m, m1, mm.View(), p, d, k);
      k := k + 1;
    }
  }

  lemma SameStacks(m: Mem, m1: Mem, p: nat, d: nat)
    requires TwoStacks(m, p, d) && SameMaps(m, m1) && m1 == m.(phys := m1.phys)
    ensures TwoStacks(m1, p, d) && p in m1.dirs && d in m1.dirs
  {
    forall v: nat | InStack(v)
      ensures OwnPage(m1, d, v)
    {
      assert OwnPage(m, d, v);
    }
  }

  lemma AllTablesSame(m: Mem, m': Mem)
    requires SameMaps(m, m')
    ensures forall c: nat, f: nat :: TableOf(m', c, f) <==> TableOf(m, c, f)
  {
    forall c: nat, f: nat
      ensures TableOf(m', c, f) <==> TableOf(m, c, f)
    {
      SameTables(m, m', c);
    }
  }

  lemma SameTables(m: Mem, m': Mem, d: nat)
    requires SameMaps(m, m')
    ensures forall g: nat :: TableOf(m', d, g) <==> TableOf(m, d, g)
  {
    forall g: nat
      ensures TableOf(m', d, g) <==> TableOf(m, d, g)
    {
      if TableOf(m, d, g) { var j: nat :| IsTable(m, d, j, g); assert IsTable(m', d, j, g); }
      if TableOf(m', d, g) { var j: nat :| IsTable(m', d, j, g); assert IsTable(m, d, j, g); }
    }
  }

  /** The regions on an empty directory. */
  function Laid(regions: seq<Region>, v: nat): Pte {
    if regions == [] then NONE
    else
      var r := regions[|regions| - 1];
      if Covers(r, v) then Pte(r.pa + (v - r.vp), r.perm, true) else Laid(regions[..|regions| - 1], v)
  }

  /**
    The kernel's regions stay clear of the user stack, and map the page descriptors, the kernel stack, all
    of memory at KERNBASE and the I/O hole.
   */
  lemma KernelMap(npages: nat, pagesPa: nat, stackPa: nat, v: nat)
    requires npages <= VPAGES
    ensures var k := KernelRegions(npages, pagesPa, stackPa);
      && (forall i :: 0 <= i < |k| ==> GoodRegion(k[i]))
      && (0xf0000 <= v < VPAGES ==> Laid(k, v) == Pte(v - 0xf0000, PTE_W, true))
      && (0xa0 <= v < 0x100 ==> Laid(k, v) == Pte(v, PTE_W, true))
      && (0xefff8 <= v < 0xf0000 ==> Laid(k, v) == Pte(stackPa + (v - 0xefff8), PTE_W, true))
      && (0xef000 <= v < 0xefff8 && (v - 0xef000) * 4096 < npages * 8 ==>
            Laid(k, v) == Pte(pagesPa + (v - 0xef000), PTE_U, true))
  {
    var k := KernelRegions(npages, pagesPa, stackPa);
    assert k[..3] == [k[0], k[1], k[2]] && k[..3][..2] == [k[0], k[1]] && k[..3][..2][..1] == [k[0]];
    assert Covers(k[0], v) ==> Laid([k[0]], v) == Pte(pagesPa + (v - 0xef000), PTE_U, true);
    assert Laid([k[0], k[1]], v) ==
        if Covers(k[1], v) then Pte(stackPa + (v - 0xefff8), PTE_W, true) else Laid([k[0]], v);
    assert Laid(k[..3], v) == if Covers(k[2], v) then Pte(v - 0xf0000, PTE_W, true) else Laid([k[0], k[1]], v);
  }

  lemma OverlaidIsLaid(m: Mem, d: nat, base: seq<Region>, regions: seq<Region>, v: nat)
    requires Translate(m, d, v) == Laid(base, v)
    ensures Overlaid(m, d, regions, v) == Laid(base + regions, v)
  {
    if regions == [] {
      assert base + regions == base;
    } else {
      var n := |regions| - 1;
      OverlaidIsLaid(m, d, base, regions[..n], v);
      assert (base + regions)[..|base + regions| - 1] == base + regions[..n];
    }
  }

  /** The child so far: nothing of the other address spaces or of the pages in use has changed. */
  ghost predicate Child(m0: Mem, m: Mem, d: nat, regions: seq<Region>, stack: bool) {
    && d !in m0.dirs && m.dirs == m0.dirs + {d} && Balance(m0, m, d) && PagesKept(m0, m)
    && (forall x :: x in m.counted <==> x in m0.counted || (stack && x.0 == d && InStack(x.1)))
    && (forall c: nat, v: nat :: c in m0.dirs && v < VPAGES ==> Translate(m, c, v) == Translate(m0, c, v))
    && (forall v: nat :: v < VPAGES && !InStack(v) ==> Translate(m, d, v) == Laid(regions, v))
    && (forall v: nat :: InStack(v) ==> if stack then OwnPage(m, d, v) else !Translate(m, d, v).present)
    && TablesKept(m0, m, d)
  }

  /** Every byte of the 40 kB below USTACKTOP is in a writable page of the task's own. */
  lemma StackPlace(m0: Mem, m: Mem, d: nat, regions: seq<Region>, va: nat)
    requires Child(m0, m, d, regions, true) && 0xeebfe000 - 40 * 1024 <= va < 0xeebfe000
    ensures OwnPage(m, d, va / 4096) && Walk(m, d, va) == Translate(m, d, va / 4096)
  {
    assert va == va / 4096 * 4096 + va % 4096;
    WalkAgrees(m, d, va / 4096, va % 4096);
  }

  /** What a successful fork leaves behind: a new task, and in its stack a copy of its parent's. */
  ghost predicate Forked(m0: Mem, m: Mem, p: nat, d: nat, kernel: seq<Region>, user: seq<Region>) {
    Child(m0, m, d, kernel + user, true) && forall v: nat :: InStack(v) ==> Copied(m0, m, p, d, v)
  }

  lemma ChildStarts(m0: Mem, ma: Mem, mb: Mem, d: nat)
    requires Inv(m0) && m0.free != [] && d == m0.free[0] && ma.free == m0.free[1..] && SameMaps(m0, ma)
    requires PagesKept(m0, ma) && d !in ma.free
    requires mb == ma.(dirs := ma.dirs + {d}) && (forall v: nat :: v < VPAGES ==> Translate(mb, d, v) == NONE)
    requires forall c: nat, f: nat :: TableOf(mb, c, f) <==> TableOf(ma, c, f)
    ensures Child(m0, mb, d, [], false) && d in mb.dirs && forall v: nat :: (d, v) !in mb.counted
  {
    assert d in m0.free;
    assert m0.free == [d] + ma.free;
    forall v: nat ensures (d, v) !in m0.counted { assert (d, v) in m0.counted ==> (d, v).0 in m0.dirs; }
    assert forall f: nat :: !StackOf(mb, d, f);
    assert forall f: nat :: !TableOf(ma, d, f);
    AllTablesSame(m0, ma);
    assert PagesKept(m0, mb) by {
      forall g: nat | g < |m0.phys| && Ordinary(m0, g) && g !in m0.free
        ensures Ordinary(mb, g)
      {
        assert Ordinary(ma, g);
        assert forall c: nat, i: nat :: IsTable(mb, c, i, g) ==> TableOf(mb, c, g);
        assert forall c: nat :: !TableOf(ma, c, g);
      }
    }
  }

  lemma ChildMapped(m0: Mem, m: Mem, m': Mem, d: nat, base: seq<Region>, regions: seq<Region>, stack: bool)
    requires Inv(m) && Child(m0, m, d, base, stack) && RegionsMapped(m, m', d, regions)
    requires forall i :: 0 <= i < |regions| ==> GoodRegion(regions[i])
    requires forall v: nat :: (d, v) in m.counted ==> InStack(v)
    ensures Child(m0, m', d, base + regions, stack)
  {
    hide Inv;
    BalanceRegions(m0, m, m', d, regions);
    PagesTrans(m0, m, m');
    forall v: nat | v < VPAGES && !InStack(v)
      ensures Translate(m', d, v) == Laid(base + regions, v)
    {
      OverlaidIsLaid(m, d, base, regions, v);
    }
    forall v: nat | InStack(v) && stack
      ensures OwnPage(m', d, v)
    {
      assert OwnPage(m, d, v);
      assert Translate(m', d, v) == Translate(m, d, v);
    }
  }

  lemma ChildStacked(m0: Mem, m: Mem, m': Mem, d: nat, regions: seq<Region>)
    requires Child(m0, m, d, regions, false) && Stacked(m, m', d, STACK_PAGES) && Balance(m0, m', d)
    ensures Child(m0, m', d, regions, true)
  {
    PagesTrans(m0, m, m');
  }

  lemma ChildCopied(m0: Mem, m: Mem, m': Mem, p: nat, d: nat, regions: seq<Region>)
    requires Inv(m0) && Inv(m) && Inv(m') && Child(m0, m, d, regions, true)
    requires CopiedTop(m, m', p, d, STACK_PAGES) && TwoStacks(m, p, d)
    ensures Child(m0, m', d, regions, true) && forall v: nat :: InStack(v) ==> Copied(m, m', p, d, v)
  {
    hide Inv, Translate;
    AllTablesSame(m, m');
    forall f: nat
      ensures StackOf(m', d, f) <==> StackOf(m, d, f)
    {
      SameStackOf(m, m', d, f);
    }
    forall v: nat | InStack(v)
      ensures OwnPage(m', d, v)
    {
      assert OwnPage(m, d, v);
    }
    assert PagesKept(m0, m') by {
      forall g: nat | g < |m0.phys| && Ordinary(m0, g) && g !in m0.free
        ensures Ordinary(m', g) && !StackOf(m, d, g)
      {
        assert StackOf(m, d, g) ==> Taken(m, d, g);
        OrdinaryTables(m, g);
        OrdinaryTables(m', g);
      }
    }
  }

  lemma SameStackOf(m: Mem, m': Mem, d: nat, f: nat)
    requires Inv(m) && SameMaps(m, m')
    ensures StackOf(m', d, f) <==> StackOf(m, d, f)
  {
    if StackOf(m, d, f) {
      var v: nat :| (d, v) in m.counted && Translate(m, d, v).page == f;
      assert (d, v).0 in m.dirs && (d, v).1 < VPAGES;
      assert (d, v) in m'.counted && Translate(m', d, v).page == f;
    }
    if StackOf(m', d, f) {
      var v: nat :| (d, v) in m'.counted && Translate(m', d, v).page == f;
      assert (d, v) in m.counted && (d, v).0 in m.dirs && (d, v).1 < VPAGES;
      assert Translate(m, d, v).page == f;
    }
  }

  lemma ForkDone(m0: Mem, md: Mem, me: Mem, mf: Mem, p: nat, d: nat, kernel: seq<Region>, user: seq<Region>)
    requires Inv(m0) && Inv(me) && p in m0.dirs && PagesKept(m0, md) && TwoStacks(md, p, d)
    requires forall v: nat :: InStack(v) ==> (p, v) in m0.counted
    requires (forall v: nat :: InStack(v) ==> Copied(md, me, p, d, v)) && Child(m0, me, d, kernel, true)
    requires RegionsMapped(me, mf, d, user) && Child(m0, mf, d, kernel + user, true)
    requires forall i :: 0 <= i < |user| ==> GoodRegion(user[i])
    ensures Forked(m0, mf, p, d, kernel, user)
  {
    hide Inv;
    forall v: nat | InStack(v)
      ensures Copied(m0, mf, p, d, v)
    {
      StackUncovered(me, d, user, v);
      ForkedPage(m0, md, me, mf, p, d, v);
    }
  }

  lemma ForkedPage(m0: Mem, md: Mem, me: Mem, mf: Mem, p: nat, d: nat, v: nat)
    requires Inv(m0) && Inv(me) && PagesKept(m0, md) && PagesKept(me, mf) && InStack(v) && (p, v) in m0.counted
    requires (p, v) in me.counted && (d, v) in me.counted && Copied(md, me, p, d, v)
    requires Translate(me, p, v) == Translate(m0, p, v) && Translate(mf, p, v) == Translate(me, p, v)
    requires Translate(mf, d, v) == Translate(me, d, v)
    ensures Copied(m0, mf, p, d, v)
  {
    CountedPage(m0, p, v);
    CountedPage(me, p, v);
    CountedPage(me, d, v);
  }

  lemma CountedPage(m: Mem, d: nat, v: nat)
    requires Inv(m) && (d, v) in m.counted
    ensures var f := Translate(m, d, v).page; f < |m.phys| && Ordinary(m, f) && f !in m.free
  {
    var f := Translate(m, d, v).page;
    assert (d, v) in Refs(m, f);
    if f in m.free { FreeIsOrdinary(m, f); }
  }

  lemma ChildStacks(m0: Mem, m: Mem, p: nat, d: nat, regions: seq<Region>)
    requires Child(m0, m, d, regions, true) && p in m0.dirs && forall v: nat :: InStack(v) ==> (p, v) in m0.counted
    ensures TwoStacks(m, p, d) && PagesKept(m0, m)
  {
  }

  lemma ChildCounted(m0: Mem, m: Mem, d: nat, regions: seq<Region>, stack: bool)
    requires Inv(m0) && Child(m0, m, d, regions, stack)
    ensures d in m.dirs && Balance(m0, m, d) && (forall v: nat :: (d, v) in m.counted <==> InStack(v) && stack)
    ensures !stack ==> forall v: nat :: InStack(v) ==> !Translate(m, d, v).present
  {
    forall v: nat
      ensures (d, v) !in m0.counted
    {
      assert (d, v) in m0.counted ==> (d, v).0 in m0.dirs;
    }
  }

  /**
    task_create: a directory with the kernel's regions and a stack of its own.  It fails exactly when
    there are fewer free pages than that takes.
   */
  method TaskCreate(mm: Memory, kernel: seq<Region>) returns (ok: bool, d: nat)
    requires mm.Valid() && forall i :: 0 <= i < |kernel| ==> GoodRegion(kernel[i])
    modifies mm, mm.link, mm.phys, mm.ref
    ensures mm.Valid() && (ok ==> Child(old(mm.View()), mm.View(), d, kernel, true))
    ensures ok <==> |old(mm.free)| >= Needs(kernel)
    ensures ok ==> Present(mm.View(), d) == DirsOf(kernel) + StackDirs(STACK_PAGES)
    ensures ok ==> |mm.free| == |old(mm.free)| - Needs(kernel)
    ensures IsKernel(kernel) ==> (ok <==> |old(mm.free)| >= 79)
  {
    hide Inv, Within, Listed, Child, RegionsMapped, Stacked, SameMaps, PagesKept, Balance, Ordinary, StackDirs, DirsOf;
    hide Spends, Short, Present, IsKernel;
    KernelAlone(kernel);
    ghost var m0 := mm.View();
    var r := mm.PageAlloc();
    if r == None { return false, 0; }
    d := r.value;
    ghost var ma := mm.View();
    mm.BecomeDirectory(d);
    ghost var mb := mm.View();
    ChildStarts(m0, ma, mb, d);
    NoTables(mb, d);
    ok := MapRegions(mm, d, kernel);
    if !ok {
      ShortOfRegions(mb, d, kernel);
      return;
    }
    ghost var mc := mm.View();
    ChildMapped(m0, mb, mc, d, [], kernel, false);
    assert [] + kernel == kernel;
    ChildCounted(m0, mc, d, kernel, false);
    ok := AddStack(mm, d, m0);
    if !ok {
      ghost var stack := StackDirs(STACK_PAGES);
      ShortLater(mb, mc, d, DirsOf(kernel), stack, DirsOf(kernel) + stack, 0, STACK_PAGES);
      ShortOfAll(mb, d, kernel);
      return;
    }
    SpendsBoth(mb, mc, mm.View(), d, DirsOf(kernel), StackDirs(STACK_PAGES), 0, STACK_PAGES);
    AllSpent(mb, mm.View(), d, kernel);
    ChildStacked(m0, mc, mm.View(), d, kernel);
  }

  /** The pages that a task takes: its directory, its stack, and the page tables of both and of its regions. */
  ghost function Needs(regions: seq<Region>): nat {
    1 + STACK_PAGES + |DirsOf(regions) + StackDirs(STACK_PAGES)|
  }

  /** What setupkvm maps, with up to 2 GB of memory. */
  ghost predicate IsKernel(kernel: seq<Region>) {
    exists npages: nat, a: nat, b: nat :: 0 < npages <= 0x80000 && kernel == KernelRegions(npages, a, b)
  }

  /** The user program is linked into the kernel, so its sections lie above KERNBASE. */
  predicate InKernel(user: seq<Region>) {
    forall i :: 0 <= i < |user| ==> 0xf0000 <= user[i].vp && user[i].vp + user[i].n <= VPAGES
  }

  /** A task takes 79 pages: a directory, ten pages of stack and 68 page tables, 64 of them for memory at KERNBASE. */
  lemma KernelNeeds(kernel: seq<Region>, user: seq<Region>)
    requires IsKernel(kernel) && InKernel(user)
    ensures Needs(kernel + user) == 79
  {
    hide DirsOf, StackDirs, KernelRegions, InKernel;
    var npages: nat, a: nat, b: nat :| 0 < npages <= 0x80000 && kernel == KernelRegions(npages, a, b);
    var all := DirsOf(kernel + user) + StackDirs(STACK_PAGES);
    DirsAppend(kernel, user);
    forall i: nat
      ensures i in DirsOf(kernel) <==> i in {0, 956, 959} || 960 <= i <= 1023
      ensures i in StackDirs(STACK_PAGES) <==> i == 954
      ensures i in DirsOf(user) ==> 960 <= i <= 1023
    {
      KernelDirs(npages, a, b, i);
      StackDir(i);
      if i in DirsOf(user) { UserDirs(user, i); }
    }
    SixtyEight(all);
  }

  lemma SixtyEight(all: set<nat>)
    requires forall i: nat :: i in all <==> i in {0, 954, 956, 959} || 960 <= i <= 1023
    ensures |all| == 68
  {
    hide Span;
    var high, low: set<nat> := Span(960, 1023), {0, 954, 956, 959};
    assert all == high + low;
    assert high !! low;
    assert |low| == 4;
  }

  lemma KernelAlone(kernel: seq<Region>)
    ensures IsKernel(kernel) ==> Needs(kernel) == 79
  {
    if IsKernel(kernel) {
      hide IsKernel, Needs;
      KernelNeeds(kernel, []);
      assert kernel + [] == kernel;
    }
  }

  lemma KernelDirs(npages: nat, a: nat, b: nat, i: nat)
    requires 0 < npages <= 0x80000
    ensures i in DirsOf(KernelRegions(npages, a, b)) <==> i in {0, 956, 959} || 960 <= i <= 1023
  {
    hide Touched, DirsOf;
    var k := KernelRegions(npages, a, b);
    FourRegions(k);
    TouchedCount(k[0].vp, k[0].n);
    TouchedCount(k[1].vp, k[1].n);
    TouchedCount(k[2].vp, k[2].n);
    TouchedCount(k[3].vp, k[3].n);
  }

  lemma FourRegions(k: seq<Region>)
    requires |k| == 4
    ensures DirsOf(k) ==
      Touched(k[0].vp, k[0].n) + Touched(k[1].vp, k[1].n) + Touched(k[2].vp, k[2].n) + Touched(k[3].vp, k[3].n)
  {
    hide Touched, DirsOf;
    NoDirs();
    assert k[..4] == k && k[..0] == [];
    DirsMore(k, 3);
    DirsMore(k, 2);
    DirsMore(k, 1);
    DirsMore(k, 0);
  }

  lemma NoDirs()
    ensures DirsOf([]) == {}
  {
  }

  lemma StackDir(i: nat)
    ensures i in StackDirs(STACK_PAGES) <==> i == 954
  {
    if i == 954 { assert Pdx(STACK_TOP - 1) == 954; }
  }

  lemma {:induction false} UserDirs(user: seq<Region>, i: nat)
    requires InKernel(user) && i in DirsOf(user)
    ensures 960 <= i <= 1023
  {
    var last := |user| - 1;
    var r := user[last];
    if i in DirsOf(user[..last]) {
      UserDirs(user[..last], i);
    } else {
      var v: nat :| r.vp <= v < r.vp + r.n && i == Pdx(v);
    }
  }

  lemma NoTables(m: Mem, d: nat)
    requires d < |m.phys| && m.phys[d] == EmptyTable()
    ensures Present(m, d) == {}
  {
  }

  lemma ShortOfRegions(m: Mem, d: nat, regions: seq<Region>)
    requires Present(m, d) == {} && Short(m, d, DirsOf(regions), 0)
    ensures |m.free| + 1 < Needs(regions)
  {
    SubsetSize({} + DirsOf(regions), DirsOf(regions) + StackDirs(STACK_PAGES));
  }

  lemma ShortOfAll(m: Mem, d: nat, regions: seq<Region>)
    requires Present(m, d) == {} && Short(m, d, DirsOf(regions) + StackDirs(STACK_PAGES), STACK_PAGES)
    ensures |m.free| + 1 < Needs(regions)
  {
    assert {} + (DirsOf(regions) + StackDirs(STACK_PAGES)) == DirsOf(regions) + StackDirs(STACK_PAGES);
  }

  lemma AllSpent(m: Mem, m': Mem, d: nat, regions: seq<Region>)
    requires Present(m, d) == {} && Spends(m, m', d, DirsOf(regions) + StackDirs(STACK_PAGES), STACK_PAGES)
    ensures Present(m', d) == DirsOf(regions) + StackDirs(STACK_PAGES)
    ensures |m'.free| == |m.free| + 1 - Needs(regions)
  {
  }

  /** setupvm on a new task, as task_init and sys_fork call it. */
  method SetupUser(mm: Memory, ghost m0: Mem, d: nat, ghost kernel: seq<Region>, user: seq<Region>) returns (ok: bool)
    requires mm.Valid() && Inv(m0) && Child(m0, mm.View(), d, kernel, true)
    requires forall i :: 0 <= i < |user| ==> GoodRegion(user[i])
    modifies mm, mm.link, mm.phys, mm.ref
    ensures mm.Valid()
    ensures ok ==> RegionsMapped(old(mm.View()), mm.View(), d, user) && Child(m0, mm.View(), d, kernel + user, true)
    ensures if ok then Spends(old(mm.View()), mm.View(), d, DirsOf(user), 0)
      else Short(old(mm.View()), d, DirsOf(user), 0)
  {
    hide Inv, Within, Listed, Child, RegionsMapped, Spends, Short;
    ghost var m := mm.View();
    ChildCounted(m0, m, d, kernel, true);
    ok := MapRegions(mm, d, user);
    if ok { ChildMapped(m0, m, mm.View(), d, kernel, user, true); }
  }

  /**
    sys_fork.  It fails exactly when there are fewer free pages than a task takes.  If not, the child has
    the kernel's and the user program's regions and its own copy of the stack; every page it takes was
    free; no other address space changes.
   */
  method SysFork(mm: Memory, p: nat, kernel: seq<Region>, user: seq<Region>) returns (ok: bool, d: nat)
    requires mm.Valid() && p in mm.dirs && forall v: nat :: InStack(v) ==> (p, v) in mm.counted
    requires forall i :: 0 <= i < |kernel| ==> GoodRegion(kernel[i])
    requires forall i :: 0 <= i < |user| ==> GoodRegion(user[i])
    modifies mm, mm.link, mm.phys, mm.ref
    ensures mm.Valid() && (ok ==> Forked(old(mm.View()), mm.View(), p, d, kernel, user))
    ensures ok <==> |old(mm.free)| >= Needs(kernel + user)
    ensures ok ==> |mm.free| == |old(mm.free)| - Needs(kernel + user)
    ensures IsKernel(kernel) && InKernel(user) ==> (ok <==> |old(mm.free)| >= 79)
  {
    hide IsKernel, InKernel;
    if IsKernel(kernel) && InKernel(user) { KernelNeeds(kernel, user); }
    hide Inv, Within, Listed, Child, Forked, RegionsMapped, CopiedTop, TwoStacks, PagesKept, Balance, Spends, Short;
    hide Needs, Present, DirsOf, StackDirs;
    ghost var m0 := mm.View();
    NeedsMore(kernel, user);
    ok, d := TaskCreate(mm, kernel);
    if !ok { return; }
    ghost var md := mm.View();
    ChildStacks(m0, md, p, d, kernel);
    CopyStack(mm, p, d);
    ghost var me := mm.View();
    ChildCopied(m0, md, me, p, d, kernel);
    CopiedPresent(md, me, p, d);
    ok := SetupUser(mm, m0, d, kernel, user);
    UserNeeds(me, mm.View(), d, kernel, user, ok, |m0.free|);
    if !ok { return; }
    ForkDone(m0, md, me, mm.View(), p, d, kernel, user);
  }

  lemma NeedsMore(kernel: seq<Region>, user: seq<Region>)
    ensures Needs(kernel) <= Needs(kernel + user)
  {
    DirsAppend(kernel, user);
    SubsetSize(DirsOf(kernel) + StackDirs(STACK_PAGES), DirsOf(kernel + user) + StackDirs(STACK_PAGES));
  }

  lemma CopiedPresent(m: Mem, m': Mem, p: nat, d: nat)
    requires CopiedTop(m, m', p, d, STACK_PAGES) && TwoStacks(m, p, d)
    ensures Present(m', d) == Present(m, d) && m'.free == m.free
  {
  }

  /** Whether the user's regions can be mapped on top of the kernel's decides whether all of it fits. */
  lemma UserNeeds(m: Mem, m': Mem, d: nat, kernel: seq<Region>, user: seq<Region>, ok: bool, free: nat)
    requires Present(m, d) == DirsOf(kernel) + StackDirs(STACK_PAGES) && |m.free| == free - Needs(kernel)
    requires if ok then Spends(m, m', d, DirsOf(user), 0) else Short(m, d, DirsOf(user), 0)
    ensures ok <==> free >= Needs(kernel + user)
    ensures ok ==> |m'.free| == free - Needs(kernel + user)
  {
    DirsAppend(kernel, user);
    assert Present(m, d) + DirsOf(user) == DirsOf(kernel + user) + StackDirs(STACK_PAGES);
  }
}
