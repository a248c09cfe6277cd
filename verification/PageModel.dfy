/**
  Page frames and two-level page tables of nctuos (lab5), as a value.  A linear page is its page
  number; its upper and lower ten bits select the directory and the table entry (32-bit paging,
  section 4.3 of the Intel 64 and IA-32 SDM, Volume 3A).

  `dirs` are the page directories of tasks.  `counted` are the mappings that hold a reference:
  those made by page_insert, not those of boot_map_region.
 */
module PageModel {
  import opened Common

  const ENTRIES: nat := 1024
  const VPAGES: nat := 1024 * 1024

  datatype Pte = Pte(page: nat, perm: nat, present: bool)

  const NONE := Pte(0, 0, false)

  const PTE_W: nat := 2
  const PTE_U: nat := 4

  datatype Mem = Mem(ref: seq<nat>, free: seq<nat>, phys: seq<seq<Pte>>, dirs: set<nat>, counted: set<(nat, nat)>)

  function EmptyTable(): (t: seq<Pte>)
    ensures |t| == ENTRIES && forall i :: 0 <= i < ENTRIES ==> t[i] == NONE
  {
    seq(ENTRIES, _ => NONE)
  }

  function Pdx(vp: nat): nat { vp / ENTRIES }

  function Ptx(vp: nat): nat { vp % ENTRIES }

  /** The directory entry for a page. */
  function Pde(m: Mem, d: nat, i: nat): Pte {
    if d < |m.phys| && i < |m.phys[d]| then m.phys[d][i] else NONE
  }

  /** The flat map that the tables of directory `d` stand for. */
  function Translate(m: Mem, d: nat, vp: nat): Pte {
    var e := Pde(m, d, Pdx(vp));
    if e.present && e.page < |m.phys| && Ptx(vp) < |m.phys[e.page]| then m.phys[e.page][Ptx(vp)] else NONE
  }

  /** The processor's walk: the upper ten bits of an address select in the directory, the next ten in the table. */
  function Walk(m: Mem, d: nat, va: nat): Pte {
    var i, j := va / 0x400000, va / 0x1000 % 0x400;
    if d < |m.phys| && i < |m.phys[d]| && m.phys[d][i].present && m.phys[d][i].page < |m.phys| &&
       j < |m.phys[m.phys[d][i].page]|
    then m.phys[m.phys[d][i].page][j] else NONE
  }

  /** The flat map is what the processor sees, at every byte of a page. */
  lemma WalkAgrees(m: Mem, d: nat, vp: nat, offset: nat)
    requires vp < VPAGES && offset < 0x1000
    ensures Walk(m, d, vp * 0x1000 + offset) == Translate(m, d, vp)
  {
    var va := vp * 0x1000 + offset;
    assert va / 0x1000 == vp;
    assert va / 0x400000 == vp / 0x400 by { assert vp == vp / 0x400 * 0x400 + vp % 0x400; }
  }

  ghost predicate Shape(m: Mem) {
    |m.phys| == |m.ref| && forall f :: 0 <= f < |m.phys| ==> |m.phys[f]| == ENTRIES
  }

  ghost predicate FreeOk(m: Mem)
    requires Shape(m)
  {
    NoDups(m.free) && forall i :: 0 <= i < |m.free| ==> m.free[i] < |m.ref| && m.ref[m.free[i]] == 0
  }

  predicate IsTable(m: Mem, d: nat, i: nat, t: nat) {
    d in m.dirs && i < ENTRIES && Pde(m, d, i).present && Pde(m, d, i).page == t
  }

  /** Directories and tables are private: not free, not each other's, not mapped with a reference. */
  ghost predicate TablesOk(m: Mem)
    requires Shape(m)
  {
    && (forall d :: d in m.dirs ==> d < |m.ref| && d !in m.free && m.ref[d] == 0)
    && (forall d: nat, i: nat, t: nat :: IsTable(m, d, i, t) ==>
          t < |m.ref| && t !in m.free && t !in m.dirs && m.ref[t] == 1)
    && (forall d: nat, i: nat, e: nat, j: nat, t: nat :: IsTable(m, d, i, t) && IsTable(m, e, j, t) ==>
          d == e && i == j)
  }

  ghost function Refs(m: Mem, f: nat): set<(nat, nat)> {
    set x | x in m.counted && Translate(m, x.0, x.1).page == f
  }

  /** A counted mapping is present, its page is nobody's table, and pp_ref counts exactly these. */
  ghost predicate CountsOk(m: Mem)
    requires Shape(m)
  {
    && (forall x :: x in m.counted ==>
          && x.0 in m.dirs && x.1 < VPAGES && Translate(m, x.0, x.1).present && Translate(m, x.0, x.1).page < |m.ref|
          && Ordinary(m, Translate(m, x.0, x.1).page))
    && (forall f: nat :: f < |m.ref| && Ordinary(m, f) ==> m.ref[f] == |Refs(m, f)|)
  }

  ghost predicate Ordinary(m: Mem, f: nat) {
    f !in m.dirs && forall d: nat, i: nat :: !IsTable(m, d, i, f)
  }

  ghost predicate Inv(m: Mem) {
    Shape(m) && FreeOk(m) && TablesOk(m) && CountsOk(m)
  }

  /** The same directories, tables and translations. */
  ghost predicate SameMaps(m: Mem, m': Mem) {
    && m'.dirs == m.dirs && m'.counted == m.counted
    && (forall d: nat, i: nat :: d in m.dirs && i < ENTRIES ==> Pde(m', d, i) == Pde(m, d, i))
    && (forall d: nat, vp: nat :: d in m.dirs && vp < VPAGES ==> Translate(m', d, vp) == Translate(m, d, vp))
  }

  lemma SameMapsCounts(m: Mem, m': Mem)
    requires Inv(m) && Shape(m') && SameMaps(m, m') && m'.ref == m.ref
    ensures CountsOk(m')
    ensures forall f: nat :: Ordinary(m', f) <==> Ordinary(m, f)
  {
    forall f: nat
      ensures Refs(m', f) == Refs(m, f)
      ensures Ordinary(m', f) <==> Ordinary(m, f)
    {
      assert forall d: nat, i: nat :: IsTable(m', d, i, f) <==> IsTable(m, d, i, f);
    }
  }

  lemma FreeIsOrdinary(m: Mem, f: nat)
    requires Inv(m) && f in m.free
    ensures f < |m.ref| && Ordinary(m, f) && Refs(m, f) == {}
    ensures forall x :: x in m.counted ==> Translate(m, x.0, x.1).page != f
  {
    forall x | x in m.counted
      ensures Translate(m, x.0, x.1).page != f
    {
      assert Translate(m, x.0, x.1).page == f ==> x in Refs(m, f);
    }
  }

  // ---------------------------------------------------------------- page_alloc and page_free

  /** page_alloc(ALLOC_ZERO). */
  function Alloc(m: Mem): Mem
    requires m.free != [] && m.free[0] < |m.phys|
  {
    m.(free := m.free[1..], phys := m.phys[m.free[0] := EmptyTable()])
  }

  lemma AllocKeeps(m: Mem)
    requires Inv(m) && m.free != []
    ensures Inv(Alloc(m)) && SameMaps(m, Alloc(m)) && m.free[0] !in Alloc(m).free
  {
    var f := m.free[0];
    var m' := Alloc(m);
    assert f in m.free;
    FreeIsOrdinary(m, f);
    assert f !in m'.free by { assert forall j :: 0 <= j < |m'.free| ==> m'.free[j] == m.free[j + 1]; }
    AllocMaps(m, m', f);
    SameMapsCounts(m, m');
    assert forall d: nat, i: nat, t: nat :: IsTable(m', d, i, t) <==> IsTable(m, d, i, t);
  }

  lemma AllocMaps(m: Mem, m': Mem, f: nat)
    requires Inv(m) && f < |m.phys| && Ordinary(m, f) && m'.phys == m.phys[f := EmptyTable()] && m'.dirs == m.dirs
    requires m'.counted == m.counted
    ensures SameMaps(m, m')
  {
    forall d: nat, vp: nat | d in m.dirs && vp < VPAGES
      ensures Translate(m', d, vp) == Translate(m, d, vp)
    {
      if Pde(m, d, Pdx(vp)).present { assert IsTable(m, d, Pdx(vp), Pde(m, d, Pdx(vp)).page); }
    }
  }

  // ---------------------------------------------------------------- pgdir_walk

  /** The part of pgdir_walk that adds a page table. */
  function AddTable(m: Mem, d: nat, i: nat): Mem
    requires m.free != [] && m.free[0] < |m.phys| && m.free[0] < |m.ref| && d < |m.phys| && i < ENTRIES
    requires forall f :: 0 <= f < |m.phys| ==> |m.phys[f]| == ENTRIES
  {
    var t := m.free[0];
    var m1 := Alloc(m);
    m1.(ref := m1.ref[t := 1], phys := m1.phys[d := m1.phys[d][i := Pte(t, PTE_W + PTE_U, true)]])
  }

  lemma AddTableKeeps(m: Mem, d: nat, i: nat)
    requires Inv(m) && m.free != [] && d in m.dirs && i < ENTRIES && !Pde(m, d, i).present
    ensures var m' := AddTable(m, d, i);
      && Inv(m') && m'.dirs == m.dirs && m'.counted == m.counted && IsTable(m', d, i, m.free[0])
      && (forall e: nat, vp: nat :: e in m.dirs && vp < VPAGES ==> Translate(m', e, vp) == Translate(m, e, vp))
      && (forall e: nat, j: nat, t: nat :: IsTable(m', e, j, t) <==>
            IsTable(m, e, j, t) || (e == d && j == i && t == m.free[0]))
  {
    AllocKeeps(m);
    var m1 := Alloc(m);
    var t := m.free[0];
    assert t in m.free;
    FreeIsOrdinary(m, t);
    assert SameMaps(m, m1) && Ordinary(m1, t) && t !in m1.free by { SameMapsCounts(m, m1); }
    LinkTable(m1, d, i, t);
  }

  lemma LinkTable(m: Mem, d: nat, i: nat, t: nat)
    requires Inv(m) && d in m.dirs && i < ENTRIES && !Pde(m, d, i).present
    requires t < |m.ref| && t !in m.free && Ordinary(m, t) && m.ref[t] == 0 && m.phys[t] == EmptyTable()
    ensures var m' := m.(ref := m.ref[t := 1], phys := m.phys[d := m.phys[d][i := Pte(t, PTE_W + PTE_U, true)]]);
      && Inv(m')
      && (forall e: nat, vp: nat :: e in m.dirs && vp < VPAGES ==> Translate(m', e, vp) == Translate(m, e, vp))
      && (forall e: nat, j: nat, u: nat :: IsTable(m', e, j, u) <==>
            IsTable(m, e, j, u) || (e == d && j == i && u == t))
  {
    var m' := m.(ref := m.ref[t := 1], phys := m.phys[d := m.phys[d][i := Pte(t, PTE_W + PTE_U, true)]]);
    LinkMaps(m, m', d, i, t);
    assert FreeOk(m');
    assert TablesOk(m') by { LinkTables(m, m', d, i, t); }
    LinkCounts(m, m', d, i, t);
  }

  ghost predicate Linked(m: Mem, m': Mem, d: nat, i: nat, t: nat) {
    && (forall e: nat, vp: nat :: e in m.dirs && vp < VPAGES ==> Translate(m', e, vp) == Translate(m, e, vp))
    && (forall e: nat, j: nat, u: nat :: IsTable(m', e, j, u) <==> IsTable(m, e, j, u) || (e == d && j == i && u == t))
  }

  lemma LinkMaps(m: Mem, m': Mem, d: nat, i: nat, t: nat)
    requires Inv(m) && d in m.dirs && i < ENTRIES && !Pde(m, d, i).present && t < |m.phys| && t !in m.dirs
    requires m.phys[t] == EmptyTable()
    requires m'.dirs == m.dirs && m'.phys == m.phys[d := m.phys[d][i := Pte(t, PTE_W + PTE_U, true)]]
    ensures Linked(m, m', d, i, t)
  {
    forall e: nat, vp: nat | e in m.dirs && vp < VPAGES
      ensures Translate(m', e, vp) == Translate(m, e, vp)
    {
      if Pde(m, e, Pdx(vp)).present { assert IsTable(m, e, Pdx(vp), Pde(m, e, Pdx(vp)).page); }
    }
  }

  lemma LinkTables(m: Mem, m': Mem, d: nat, i: nat, t: nat)
    requires Shape(m) && Shape(m') && TablesOk(m) && Linked(m, m', d, i, t) && d in m.dirs && i < ENTRIES
    requires t < |m.ref| && t !in m.free && Ordinary(m, t) && m'.ref == m.ref[t := 1] && m'.free == m.free
    requires m'.dirs == m.dirs
    ensures TablesOk(m')
  {
  }

  lemma LinkCounts(m: Mem, m': Mem, d: nat, i: nat, t: nat)
    requires Inv(m) && Shape(m') && Linked(m, m', d, i, t) && Ordinary(m, t) && t < |m.ref| && m.ref[t] == 0
    requires m'.ref == m.ref[t := 1] && m'.dirs == m.dirs && m'.counted == m.counted && d in m.dirs && i < ENTRIES
    ensures CountsOk(m')
  {
    assert Refs(m, t) == {};
    forall x | x in m.counted
      ensures Translate(m, x.0, x.1).page != t
    {
      assert Translate(m, x.0, x.1).page == t ==> x in Refs(m, t);
    }
    assert IsTable(m', d, i, t);
    forall f: nat
      ensures Refs(m', f) == Refs(m, f)
      ensures Ordinary(m', f) <==> Ordinary(m, f) && f != t
    {
      if f != t { assert forall e: nat, j: nat :: IsTable(m', e, j, f) <==> IsTable(m, e, j, f); }
    }
  }

  // ---------------------------------------------------------------- one entry changes

  function SetPte(m: Mem, d: nat, vp: nat, e: Pte): Mem
    requires Pde(m, d, Pdx(vp)).page < |m.phys| && Ptx(vp) < |m.phys[Pde(m, d, Pdx(vp)).page]|
  {
    var t := Pde(m, d, Pdx(vp)).page;
    m.(phys := m.phys[t := m.phys[t][Ptx(vp) := e]])
  }

  predicate HasTable(m: Mem, d: nat, vp: nat) {
    d in m.dirs && vp < VPAGES && Pde(m, d, Pdx(vp)).present
  }

  /** The flat map changes at one page of one directory. */
  ghost predicate OneUpdate(m: Mem, m': Mem, d: nat, vp: nat, e: Pte) {
    && m'.dirs == m.dirs
    && (forall c: nat, i: nat :: c in m.dirs && i < ENTRIES ==> Pde(m', c, i) == Pde(m, c, i))
    && (forall c: nat, v: nat :: c in m.dirs && v < VPAGES ==>
          Translate(m', c, v) == if c == d && v == vp then e else Translate(m, c, v))
  }

  lemma SetPteUpdates(m: Mem, d: nat, vp: nat, e: Pte)
    requires Inv(m) && HasTable(m, d, vp)
    ensures Pde(m, d, Pdx(vp)).page < |m.phys|
    ensures Shape(SetPte(m, d, vp, e)) && OneUpdate(m, SetPte(m, d, vp, e), d, vp, e)
  {
    var t := Pde(m, d, Pdx(vp)).page;
    assert IsTable(m, d, Pdx(vp), t);
    var m' := SetPte(m, d, vp, e);
    forall c: nat, v: nat | c in m.dirs && v < VPAGES
      ensures Translate(m', c, v) == if c == d && v == vp then e else Translate(m, c, v)
    {
      if Pde(m, c, Pdx(v)).present {
        assert IsTable(m, c, Pdx(v), Pde(m, c, Pdx(v)).page);
      }
    }
  }

  lemma UpdateTables(m: Mem, m': Mem, d: nat, vp: nat, e: Pte)
    requires OneUpdate(m, m', d, vp, e)
    ensures forall c: nat, i: nat, t: nat :: IsTable(m', c, i, t) <==> IsTable(m, c, i, t)
    ensures forall f: nat :: Ordinary(m', f) <==> Ordinary(m, f)
  {
    forall f: nat
      ensures Ordinary(m', f) <==> Ordinary(m, f)
    {
      assert forall c: nat, i: nat :: IsTable(m', c, i, f) <==> IsTable(m, c, i, f);
    }
  }

  ghost function Names(m: Mem, d: nat, vp: nat, f: nat): nat {
    if (d, vp) in m.counted && Translate(m, d, vp).page == f then 1 else 0
  }

  lemma UpdateRefs(m: Mem, m': Mem, d: nat, vp: nat, e: Pte, f: nat)
    requires OneUpdate(m, m', d, vp, e) && d in m.dirs && vp < VPAGES
    requires forall x :: x in m.counted ==> x.0 in m.dirs && x.1 < VPAGES
    requires forall x :: x != (d, vp) ==> (x in m'.counted <==> x in m.counted)
    ensures |Refs(m', f)| == |Refs(m, f)| - Names(m, d, vp, f) + Names(m', d, vp, f)
  {
    var others := Refs(m, f) - {(d, vp)};
    assert Refs(m, f) == if Names(m, d, vp, f) == 1 then others + {(d, vp)} else others;
    forall x | x != (d, vp)
      ensures x in Refs(m', f) <==> x in Refs(m, f)
    {
      if x in m.counted { assert x.0 != d || x.1 != vp; }
    }
    assert Refs(m', f) - {(d, vp)} == others;
    assert Refs(m', f) == if Names(m', d, vp, f) == 1 then others + {(d, vp)} else others;
  }

  /** When pp_ref follows the one mapping that changed, every count is still right. */
  lemma UpdateCounts(m: Mem, m': Mem, d: nat, vp: nat, e: Pte)
    requires Inv(m) && Shape(m') && |m'.ref| == |m.ref| && OneUpdate(m, m', d, vp, e) && d in m.dirs && vp < VPAGES
    requires forall x :: x != (d, vp) ==> (x in m'.counted <==> x in m.counted)
    requires (d, vp) in m'.counted ==> e.present && e.page < |m.ref| && Ordinary(m, e.page)
    requires forall f: nat :: f < |m.ref| && Ordinary(m, f) ==>
      m'.ref[f] == m.ref[f] - Names(m, d, vp, f) + Names(m', d, vp, f)
    ensures CountsOk(m')
  {
    UpdateTables(m, m', d, vp, e);
    forall x | x in m'.counted
      ensures x.0 in m'.dirs && x.1 < VPAGES && Translate(m', x.0, x.1).present
      ensures Translate(m', x.0, x.1).page < |m'.ref|
        && Ordinary(m', Translate(m', x.0, x.1).page)
    {
      if x != (d, vp) { assert x in m.counted && (x.0 != d || x.1 != vp); }
    }
    forall f: nat | f < |m'.ref| && Ordinary(m', f)
      ensures m'.ref[f] == |Refs(m', f)|
    {
      UpdateRefs(m, m', d, vp, e, f);
    }
  }

  /** boot_map_region writes an entry that holds no reference. */
  lemma MapFixedKeeps(m: Mem, d: nat, vp: nat, e: Pte)
    requires Inv(m) && HasTable(m, d, vp) && (d, vp) !in m.counted
    ensures Pde(m, d, Pdx(vp)).page < |m.phys|
    ensures Inv(SetPte(m, d, vp, e)) && OneUpdate(m, SetPte(m, d, vp, e), d, vp, e)
  {
    SetPteUpdates(m, d, vp, e);
    var m' := SetPte(m, d, vp, e);
    UpdateTables(m, m', d, vp, e);
    UpdateCounts(m, m', d, vp, e);
  }

  /** page_insert on an empty entry. */
  function Insert(m: Mem, d: nat, vp: nat, f: nat, perm: nat): Mem
    requires Pde(m, d, Pdx(vp)).page < |m.phys| && Ptx(vp) < |m.phys[Pde(m, d, Pdx(vp)).page]| && f < |m.ref|
  {
    SetPte(m, d, vp, Pte(f, perm, true)).(ref := m.ref[f := m.ref[f] + 1], counted := m.counted + {(d, vp)})
  }

  lemma InsertKeeps(m: Mem, d: nat, vp: nat, f: nat, perm: nat)
    requires Inv(m) && HasTable(m, d, vp) && (d, vp) !in m.counted && f < |m.ref| && f !in m.free && Ordinary(m, f)
    ensures Pde(m, d, Pdx(vp)).page < |m.phys|
    ensures Inv(Insert(m, d, vp, f, perm)) && OneUpdate(m, Insert(m, d, vp, f, perm), d, vp, Pte(f, perm, true))
  {
    var e := Pte(f, perm, true);
    SetPteUpdates(m, d, vp, e);
    var m' := Insert(m, d, vp, f, perm);
    assert OneUpdate(m, m', d, vp, e) by { AssertUpdate(m, SetPte(m, d, vp, e), m', d, vp, e); }
    UpdateTables(m, m', d, vp, e);
    UpdateCounts(m, m', d, vp, e);
  }

  lemma AssertUpdate(m: Mem, m1: Mem, m': Mem, d: nat, vp: nat, e: Pte)
    requires OneUpdate(m, m1, d, vp, e) && m'.phys == m1.phys && m'.dirs == m1.dirs
    ensures OneUpdate(m, m', d, vp, e)
  {
    forall c: nat, v: nat
      ensures Translate(m', c, v) == Translate(m1, c, v)
    {
    }
  }

  /** page_insert of the page that is already there: only the permissions change. */
  lemma RepermKeeps(m: Mem, d: nat, vp: nat, perm: nat)
    requires Inv(m) && HasTable(m, d, vp) && (d, vp) in m.counted
    ensures Pde(m, d, Pdx(vp)).page < |m.phys|
    ensures var e := Pte(Translate(m, d, vp).page, perm, true);
      Inv(SetPte(m, d, vp, e)) && OneUpdate(m, SetPte(m, d, vp, e), d, vp, e)
  {
    var e := Pte(Translate(m, d, vp).page, perm, true);
    SetPteUpdates(m, d, vp, e);
    var m' := SetPte(m, d, vp, e);
    UpdateTables(m, m', d, vp, e);
    UpdateCounts(m, m', d, vp, e);
  }

  /** page_remove: the mapping goes, and with the last one the page. */
  function Remove(m: Mem, d: nat, vp: nat): Mem
    requires Pde(m, d, Pdx(vp)).page < |m.phys| && Ptx(vp) < |m.phys[Pde(m, d, Pdx(vp)).page]|
    requires Translate(m, d, vp).page < |m.ref| && m.ref[Translate(m, d, vp).page] > 0
  {
    var f := Translate(m, d, vp).page;
    SetPte(m, d, vp, NONE).(ref := m.ref[f := m.ref[f] - 1], counted := m.counted - {(d, vp)},
                            free := if m.ref[f] == 1 then [f] + m.free else m.free)
  }

  /** A reference less on an ordinary page, which is freed with the last one. */
  lemma DecrefKeeps(m: Mem, m': Mem, f: nat)
    requires Inv(m) && Shape(m') && f < |m.ref| && Ordinary(m, f) && f !in m.free && m.ref[f] > 0
    requires m'.ref == m.ref[f := m.ref[f] - 1] && m'.dirs == m.dirs
    requires m'.free == if m.ref[f] == 1 then [f] + m.free else m.free
    requires forall c: nat, i: nat, t: nat :: IsTable(m', c, i, t) <==> IsTable(m, c, i, t)
    ensures FreeOk(m') && TablesOk(m')
  {
    hide CountsOk, IsTable;
    assert forall g: nat :: g in m'.free ==> g in m.free || g == f;
    assert forall i :: 0 <= i < |m.free| ==> m.free[i] in m.free;
  }

  lemma RemoveKeeps(m: Mem, d: nat, vp: nat)
    requires Inv(m) && HasTable(m, d, vp) && (d, vp) in m.counted
    ensures Pde(m, d, Pdx(vp)).page < |m.phys| && Translate(m, d, vp).page < |m.ref|
    ensures m.ref[Translate(m, d, vp).page] > 0
    ensures Translate(m, d, vp).page !in m.free
    ensures Inv(Remove(m, d, vp)) && OneUpdate(m, Remove(m, d, vp), d, vp, NONE)
  {
    var f := Translate(m, d, vp).page;
    assert (d, vp) in Refs(m, f);
    SetPteUpdates(m, d, vp, NONE);
    var m' := Remove(m, d, vp);
    assert OneUpdate(m, m', d, vp, NONE) by { AssertUpdate(m, SetPte(m, d, vp, NONE), m', d, vp, NONE); }
    UpdateTables(m, m', d, vp, NONE);
    assert Ordinary(m, f);
    if f in m.free { FreeIsOrdinary(m, f); }
    DecrefKeeps(m, m', f);
    UpdateCounts(m, m', d, vp, NONE);
  }

  // ---------------------------------------------------------------- whole directories

  /** A fresh zeroed page becomes a page directory. */
  lemma AddDirKeeps(m: Mem, d: nat)
    requires Inv(m) && d < |m.ref| && d !in m.free && Ordinary(m, d) && m.ref[d] == 0 && m.phys[d] == EmptyTable()
    ensures var m' := m.(dirs := m.dirs + {d});
      && Inv(m') && (forall vp: nat :: vp < VPAGES ==> Translate(m', d, vp) == NONE)
      && (forall c: nat, i: nat, t: nat :: IsTable(m', c, i, t) <==> IsTable(m, c, i, t))
  {
    var m' := m.(dirs := m.dirs + {d});
    assert forall c: nat, i: nat, t: nat :: IsTable(m', c, i, t) <==> IsTable(m, c, i, t);
    assert Refs(m, d) == {};
    forall x | x in m.counted
      ensures Translate(m, x.0, x.1).page != d
    {
      assert Translate(m, x.0, x.1).page == d ==> x in Refs(m, d);
    }
    forall f: nat
      ensures Refs(m', f) == Refs(m, f)
      ensures Ordinary(m', f) <==> Ordinary(m, f) && f != d
    {
      assert forall x :: x in m.counted ==> Translate(m', x.0, x.1) == Translate(m, x.0, x.1);
    }
  }

  /** Contents of a page that is neither a directory nor a table. */
  lemma FillKeeps(m: Mem, f: nat, page: seq<Pte>)
    requires Inv(m) && f < |m.ref| && Ordinary(m, f) && |page| == ENTRIES
    ensures var m' := m.(phys := m.phys[f := page]);
      Inv(m') && SameMaps(m, m') && forall g: nat :: Ordinary(m', g) <==> Ordinary(m, g)
  {
    var m' := m.(phys := m.phys[f := page]);
    forall d: nat, vp: nat | d in m.dirs && vp < VPAGES
      ensures Translate(m', d, vp) == Translate(m, d, vp)
    {
      if Pde(m, d, Pdx(vp)).present { assert IsTable(m, d, Pdx(vp), Pde(m, d, Pdx(vp)).page); }
    }
    SameMapsCounts(m, m');
    assert forall d: nat, i: nat, t: nat :: IsTable(m', d, i, t) <==> IsTable(m, d, i, t);
  }

  ghost predicate TableOf(m: Mem, d: nat, t: nat) {
    exists i: nat :: IsTable(m, d, i, t)
  }

  /** ptable_remove and pgdir_remove: the directory and its tables are free pages again. */
  ghost predicate Dropped(m: Mem, m': Mem, d: nat)
    requires Shape(m) && Shape(m')
  {
    && |m'.ref| == |m.ref| && m'.phys == m.phys && m'.dirs == m.dirs - {d} && m'.counted == m.counted
    && (forall f: nat :: f < |m.ref| ==> m'.ref[f] == if TableOf(m, d, f) then 0 else m.ref[f])
    && NoDups(m'.free) && (forall f: nat :: f in m'.free <==> f in m.free || f == d || TableOf(m, d, f))
  }

  lemma DroppedKeeps(m: Mem, m': Mem, d: nat)
    requires Inv(m) && Shape(m') && Dropped(m, m', d) && d in m.dirs
    requires forall x :: x in m.counted ==> x.0 != d
    ensures Inv(m')
    ensures forall c: nat, vp: nat :: c in m'.dirs && vp < VPAGES ==> Translate(m', c, vp) == Translate(m, c, vp)
  {
    assert forall c: nat, i: nat, t: nat :: IsTable(m', c, i, t) <==> IsTable(m, c, i, t) && c != d;
    DroppedFree(m, m', d);
    DroppedCounts(m, m', d);
    forall c: nat, i: nat, t: nat | IsTable(m', c, i, t)
      ensures t < |m'.ref| && t !in m'.free && t !in m'.dirs && m'.ref[t] == 1
    {
      assert IsTable(m, c, i, t);
    }
  }

  lemma DroppedFree(m: Mem, m': Mem, d: nat)
    requires Inv(m) && Shape(m') && Dropped(m, m', d) && d in m.dirs
    ensures FreeOk(m')
  {
    forall i | 0 <= i < |m'.free|
      ensures m'.free[i] < |m'.ref| && m'.ref[m'.free[i]] == 0
    {
      var f := m'.free[i];
      assert f in m'.free;
      if f in m.free {
        FreeIsOrdinary(m, f);
      } else if TableOf(m, d, f) {
        var j: nat :| IsTable(m, d, j, f);
      }
    }
  }

  lemma DroppedCounts(m: Mem, m': Mem, d: nat)
    requires Inv(m) && Shape(m') && Dropped(m, m', d) && d in m.dirs
    requires forall x :: x in m.counted ==> x.0 != d
    requires forall c: nat, i: nat, t: nat :: IsTable(m', c, i, t) <==> IsTable(m, c, i, t) && c != d
    ensures CountsOk(m')
  {
    assert forall c: nat, v: nat :: Translate(m', c, v) == Translate(m, c, v);
    forall f: nat
      ensures Refs(m', f) == Refs(m, f)
      ensures Ordinary(m, f) ==> Ordinary(m', f)
    {
    }
    forall f: nat | f < |m'.ref| && Ordinary(m', f)
      ensures m'.ref[f] == |Refs(m', f)|
    {
      if Ordinary(m, f) {
        assert !TableOf(m, d, f);
      } else {
        NotOrdinary(m, m', d, f);
      }
    }
  }

  lemma NotOrdinary(m: Mem, m': Mem, d: nat, f: nat)
    requires Inv(m) && Shape(m') && Dropped(m, m', d) && d in m.dirs && f < |m.ref| && !Ordinary(m, f)
    requires Ordinary(m', f)
    requires forall c: nat, i: nat, t: nat :: IsTable(m', c, i, t) <==> IsTable(m, c, i, t) && c != d
    ensures m'.ref[f] == 0 && Refs(m, f) == {}
  {
    assert f == d || TableOf(m, d, f) by {
      if f !in m.dirs {
        var c: nat, i: nat :| IsTable(m, c, i, f);
        assert c == d;
      }
    }
    assert forall x :: x in m.counted ==> Ordinary(m, Translate(m, x.0, x.1).page);
  }
}
