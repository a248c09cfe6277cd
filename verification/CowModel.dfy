/**
  Physical memory, page tables and frame counts of the Linux 0.11 memory manager, as a value.

  A frame is 1024 words, and a page table is just a frame whose words are read as entries, so
  nothing in the types keeps a user page from being a page table: that is proved.
  A linear page is the pair (directory index, table index).
 */
module CowModel {
  import opened Common

  const LOW: nat := 256          // frames below LOW_MEM, which mem_map does not count
  const ENTRIES: nat := 1024     // words in a frame, entries in a table
  const SLOT_DIRS: nat := 16     // directory entries of one 64 MB task slot
  const NR_TASKS: nat := 64
  const KERNEL_PAGES: nat := 160 // pages of slot 0 that the first fork copies
  const USED: nat := 100         // mem_map value of a frame that is not for allocation

  /** A 32-bit word, cut where the paging unit cuts it. */
  datatype Word = Word(page: nat, present: bool, writable: bool, dirty: bool, rest: nat)

  const ZERO := Word(0, false, false, false, 0)

  function Zeros(): (p: seq<Word>)
    ensures |p| == ENTRIES && forall i :: 0 <= i < ENTRIES ==> p[i] == ZERO
  {
    seq(ENTRIES, _ => ZERO)
  }

  /** The word `page | 7`. */
  function Full(page: nat): Word {
    Word(page, true, true, false, 1)
  }

  datatype Lin = Lin(d: nat, i: nat)

  /**
    `count` is mem_map and `held` says how many of each count belong to the kernel itself
    (task structures, pages not yet mapped, reserved frames).
   */
  datatype Mem = Mem(count: seq<nat>, dir: seq<Word>, phys: seq<seq<Word>>, held: seq<nat>, high: nat)

  ghost predicate Shape(m: Mem) {
    && |m.dir| == ENTRIES
    && |m.held| == |m.count|
    && |m.phys| == LOW + |m.count|
    && LOW <= m.high <= |m.phys|
    && forall f :: 0 <= f < |m.phys| ==> |m.phys[f]| == ENTRIES
  }

  predicate Counted(m: Mem, f: nat) {
    LOW <= f < LOW + |m.count| && |m.held| == |m.count|
  }

  function Count(m: Mem, f: nat): nat
    requires Counted(m, f)
  {
    m.count[f - LOW]
  }

  function Held(m: Mem, f: nat): nat
    requires Counted(m, f)
  {
    m.held[f - LOW]
  }

  /** Directory entries 16 and up belong to the task slots 1..63; slot 0 is the kernel's own map. */
  predicate IsUser(a: Lin) {
    SLOT_DIRS <= a.d < ENTRIES && a.i < ENTRIES
  }

  predicate HasTable(m: Mem, d: int) {
    SLOT_DIRS <= d < ENTRIES && d < |m.dir| && m.dir[d].present
  }

  function Entry(m: Mem, a: Lin): Word {
    if a.d < |m.dir| && m.dir[a.d].present && m.dir[a.d].page < |m.phys| && a.i < |m.phys[m.dir[a.d].page]|
    then m.phys[m.dir[a.d].page][a.i]
    else ZERO
  }

  predicate Mapped(m: Mem, a: Lin) {
    IsUser(a) && Entry(m, a).present
  }

  predicate SameOffset(a: Lin, b: Lin) {
    a.d % SLOT_DIRS == b.d % SLOT_DIRS && a.i == b.i
  }

  ghost function UserLins(): (s: set<Lin>)
    ensures forall a: Lin :: a in s <==> IsUser(a)
  {
    set d, i | SLOT_DIRS <= d < ENTRIES && 0 <= i < ENTRIES :: Lin(d, i)
  }

  ghost function DirRefs(m: Mem, f: nat): set<int> {
    set d | SLOT_DIRS <= d < ENTRIES && HasTable(m, d) && m.dir[d].page == f
  }

  ghost function PteRefs(m: Mem, f: nat): set<Lin> {
    set a | a in UserLins() && Mapped(m, a) && Entry(m, a).page == f
  }

  ghost predicate TablesOk(m: Mem)
    requires Shape(m)
  {
    forall d :: HasTable(m, d) ==> LOW <= m.dir[d].page < m.high && Count(m, m.dir[d].page) == 1
  }

  ghost predicate EntriesOk(m: Mem)
    requires Shape(m)
  {
    forall a :: Mapped(m, a) ==>
      && Entry(m, a).page < m.high
      && (Entry(m, a).page < LOW ==> !Entry(m, a).writable)
      && (Entry(m, a).page >= LOW ==>
            && Held(m, Entry(m, a).page) == 0
            && (Entry(m, a).writable ==> Count(m, Entry(m, a).page) == 1))
  }

  /** The count of a frame is exactly the number of places that name it. */
  ghost predicate CountsOk(m: Mem)
    requires Shape(m)
  {
    forall f :: Counted(m, f) ==> Count(m, f) == |DirRefs(m, f)| + |PteRefs(m, f)| + Held(m, f)
  }

  /** Slot 0 is mapped by a table in low memory, and its first 640 kB are low frames. */
  ghost predicate KernelOk(m: Mem)
    requires Shape(m)
  {
    && m.dir[0].present && m.dir[0].page < LOW
    && forall i :: 0 <= i < KERNEL_PAGES && m.phys[m.dir[0].page][i].present ==> m.phys[m.dir[0].page][i].page < LOW
  }

  ghost predicate OffsetsOk(m: Mem) {
    forall a, b :: Mapped(m, a) && Mapped(m, b) && Entry(m, a).page == Entry(m, b).page >= LOW ==> SameOffset(a, b)
  }

  ghost predicate Inv(m: Mem) {
    && Shape(m)
    && TablesOk(m)
    && EntriesOk(m)
    && CountsOk(m)
    && OffsetsOk(m)
    && KernelOk(m)
    && (forall k :: m.high - LOW <= k < |m.held| ==> m.held[k] > 0)
  }

  /** What the user tasks can read: the contents of every mapped linear page. */
  ghost function Abs(m: Mem): (v: map<Lin, seq<Word>>)
    requires Shape(m) && EntriesOk(m)
  {
    map a | a in UserLins() && Mapped(m, a) :: m.phys[Entry(m, a).page]
  }

  // ---------------------------------------------------------------- consequences of the counts

  lemma NoRefs(m: Mem, f: nat)
    requires Inv(m) && Counted(m, f) && Count(m, f) == Held(m, f)
    ensures DirRefs(m, f) == {} && PteRefs(m, f) == {}
    ensures forall d :: HasTable(m, d) ==> m.dir[d].page != f
    ensures forall a :: Mapped(m, a) ==> Entry(m, a).page != f
  {
    assert forall d :: HasTable(m, d) && m.dir[d].page == f ==> d in DirRefs(m, f);
    assert forall a :: Mapped(m, a) && Entry(m, a).page == f ==> a in PteRefs(m, f);
  }

  /** A page table is named by its own directory entry and by nothing else. */
  lemma TablePrivate(m: Mem, d: nat)
    requires Inv(m) && HasTable(m, d)
    ensures Counted(m, m.dir[d].page) && Held(m, m.dir[d].page) == 0
    ensures forall e :: HasTable(m, e) && e != d ==> m.dir[e].page != m.dir[d].page
    ensures forall a :: Mapped(m, a) ==> Entry(m, a).page != m.dir[d].page
  {
    var f := m.dir[d].page;
    assert d in DirRefs(m, f);
    forall e | HasTable(m, e) && m.dir[e].page == f
      ensures e == d
    {
      assert e in DirRefs(m, f);
      assert {d, e} <= DirRefs(m, f);
      SubsetSize({d, e}, DirRefs(m, f));
    }
    forall a | Mapped(m, a)
      ensures Entry(m, a).page != f
    {
      assert Entry(m, a).page == f ==> a in PteRefs(m, f);
    }
  }

  /** A frame mapped with count 1 is mapped in one place only. */
  lemma SoleMapping(m: Mem, a: Lin)
    requires Inv(m) && Mapped(m, a) && Entry(m, a).page >= LOW && Count(m, Entry(m, a).page) == 1
    ensures forall b :: Mapped(m, b) && Entry(m, b).page == Entry(m, a).page ==> b == a
  {
    var f := Entry(m, a).page;
    assert a in PteRefs(m, f);
    forall b | Mapped(m, b) && Entry(m, b).page == f
      ensures b == a
    {
      assert {a, b} <= PteRefs(m, f);
      SubsetSize({a, b}, PteRefs(m, f));
    }
  }

  // ---------------------------------------------------------------- atomic changes

  function SetEntry(m: Mem, a: Lin, w: Word): Mem
    requires a.d < |m.dir| && m.dir[a.d].page < |m.phys| && a.i < |m.phys[m.dir[a.d].page]|
  {
    var t := m.dir[a.d].page;
    m.(phys := m.phys[t := m.phys[t][a.i := w]])
  }

  function SetCount(m: Mem, f: nat, n: nat): Mem
    requires Counted(m, f)
  {
    m.(count := m.count[f - LOW := n])
  }

  function SetHeld(m: Mem, f: nat, n: nat): Mem
    requires Counted(m, f)
  {
    m.(held := m.held[f - LOW := n])
  }

  /** Writing one entry changes that entry, no other, and no user page. */
  lemma SetEntryEffect(m: Mem, a: Lin, w: Word)
    requires Inv(m) && IsUser(a) && HasTable(m, a.d)
    ensures var m' := SetEntry(m, a, w);
      && Shape(m')
      && Entry(m', a) == w
      && (forall b :: IsUser(b) && b != a ==> Entry(m', b) == Entry(m, b))
      && (forall b :: Mapped(m, b) ==> m'.phys[Entry(m, b).page] == m.phys[Entry(m, b).page])
  {
    TablePrivate(m, a.d);
  }

  /** get_free_page: the frame is counted once, filled with zero, and the kernel's. */
  function Alloc(m: Mem, f: nat): Mem
    requires Counted(m, f) && |m.phys| == LOW + |m.count|
  {
    SetHeld(SetCount(m.(phys := m.phys[f := Zeros()]), f, 1), f, 1)
  }

  /** The places of mem_map that get_free_page could take. */
  ghost function FreeFrames(count: seq<nat>): set<int> {
    set k | 0 <= k < |count| && count[k] == 0
  }

  /** How often get_free_page would find something. */
  ghost function FreeCount(m: Mem): nat {
    |FreeFrames(m.count)|
  }

  lemma NoneFree(m: Mem)
    requires forall k :: 0 <= k < |m.count| ==> m.count[k] != 0
    ensures FreeCount(m) == 0
  {
    assert FreeFrames(m.count) == {};
  }

  lemma SameFree(m: Mem, m': Mem)
    requires m'.count == m.count
    ensures FreeCount(m') == FreeCount(m)
  {
  }

  /** A frame that is taken is one less; a frame in use can change its count. */
  lemma FreeAfter(m: Mem, m': Mem, k: nat, n: nat)
    requires k < |m.count| && m'.count == m.count[k := n] && n > 0
    ensures FreeCount(m') == FreeCount(m) - if m.count[k] == 0 then 1 else 0
  {
    assert FreeFrames(m'.count) == FreeFrames(m.count) - {k as int};
    assert k as int in FreeFrames(m.count) <==> m.count[k] == 0;
  }

  /** The page tables among the `n` directory entries from `first`. */
  function Tables(dir: seq<Word>, first: nat, n: nat): nat
    requires first + n <= |dir|
  {
    if n == 0 then 0 else Tables(dir, first, n - 1) + if dir[first + n - 1].present then 1 else 0
  }

  lemma {:induction false} TablesGrow(dir: seq<Word>, first: nat, k: nat, n: nat)
    requires k <= n && first + n <= |dir|
    ensures Tables(dir, first, k) <= Tables(dir, first, n)
  {
    if k < n { TablesGrow(dir, first, k, n - 1); }
  }

  /** Two states with the same directory and the same entries name the same frames. */
  ghost predicate SameEntries(m: Mem, m': Mem) {
    m'.dir == m.dir && forall a :: IsUser(a) ==> Entry(m', a) == Entry(m, a)
  }

  lemma SameRefs(m: Mem, m': Mem, f: nat)
    requires SameEntries(m, m')
    ensures DirRefs(m', f) == DirRefs(m, f)
    ensures PteRefs(m', f) == PteRefs(m, f)
  {
  }

  /** Only page contents differ. */
  lemma SameEntriesKeeps(m: Mem, m': Mem)
    requires Inv(m) && Shape(m') && SameEntries(m, m')
    requires m'.count == m.count && m'.held == m.held && m'.high == m.high
    requires forall f :: 0 <= f < LOW ==> m'.phys[f] == m.phys[f]
    ensures Inv(m')
  {
    SameEntriesCounts(m, m');
    assert TablesOk(m');
    assert EntriesOk(m');
    assert OffsetsOk(m');
  }

  lemma AllocKeeps(m: Mem, f: nat)
    requires Inv(m) && Counted(m, f) && Count(m, f) == 0
    ensures var m' := Alloc(m, f);
      && Inv(m') && Abs(m') == Abs(m) && f < m.high && SameEntries(m, m')
  {
    NoRefs(m, f);
    var m' := Alloc(m, f);
    assert SameEntries(m, m');
    SameEntriesCounts(m, m');
    assert TablesOk(m');
    assert EntriesOk(m');
  }

  lemma SameEntriesCounts(m: Mem, m': Mem)
    requires Inv(m) && Shape(m') && SameEntries(m, m') && |m'.count| == |m.count|
    requires forall f :: Counted(m, f) ==> Count(m', f) - Held(m', f) == Count(m, f) - Held(m, f)
    ensures CountsOk(m') && OffsetsOk(m')
  {
    forall g | Counted(m', g)
      ensures Count(m', g) == |DirRefs(m', g)| + |PteRefs(m', g)| + Held(m', g)
    {
      SameRefs(m, m', g);
      assert Counted(m, g);
    }
  }

  /** free_page on a frame the kernel itself holds. */
  function Release(m: Mem, f: nat): Mem
    requires Counted(m, f) && Count(m, f) > 0 && Held(m, f) > 0
  {
    SetHeld(SetCount(m, f, Count(m, f) - 1), f, Held(m, f) - 1)
  }

  /** A frame that the kernel holds once and may hand out. */
  predicate Fresh(m: Mem, f: nat) {
    Counted(m, f) && f < m.high && f < |m.phys| && Held(m, f) == 1
  }

  lemma FreshHasNoRefs(m: Mem, f: nat)
    requires Inv(m) && Fresh(m, f)
    ensures Count(m, f) == 1
    ensures forall d :: HasTable(m, d) ==> m.dir[d].page != f
    ensures forall a :: Mapped(m, a) ==> Entry(m, a).page != f
  {
    assert PteRefs(m, f) == {} by {
      assert forall a :: a in PteRefs(m, f) ==> Mapped(m, a);
    }
    assert DirRefs(m, f) == {} by {
      forall d | d in DirRefs(m, f) ensures false { TablePrivate(m, d); }
    }
    NoRefs(m, f);
  }

  lemma ReleaseKeeps(m: Mem, f: nat)
    requires Inv(m) && Fresh(m, f)
    ensures Count(m, f) == 1
    ensures Inv(Release(m, f)) && Abs(Release(m, f)) == Abs(m)
  {
    FreshHasNoRefs(m, f);
    var m' := Release(m, f);
    assert SameEntries(m, m');
    SameEntriesCounts(m, m');
    assert TablesOk(m');
    assert EntriesOk(m');
  }

  /** A zeroed page of the kernel becomes the page table of directory entry `d`. */
  function InstallTable(m: Mem, d: nat, f: nat): Mem
    requires d < |m.dir| && Counted(m, f)
  {
    SetHeld(m.(dir := m.dir[d := Full(f)]), f, 0)
  }

  lemma InstallTableKeeps(m: Mem, d: nat, f: nat)
    requires Inv(m) && Fresh(m, f) && SLOT_DIRS <= d < ENTRIES && !HasTable(m, d) && m.phys[f] == Zeros()
    ensures var m' := InstallTable(m, d, f);
      && Inv(m') && Abs(m') == Abs(m) && HasTable(m', d)
      && (forall a :: IsUser(a) ==> Entry(m', a) == Entry(m, a))
  {
    FreshHasNoRefs(m, f);
    var m' := InstallTable(m, d, f);
    assert forall a :: IsUser(a) ==> Entry(m', a) == Entry(m, a);
    forall g | Counted(m', g)
      ensures Count(m', g) == |DirRefs(m', g)| + |PteRefs(m', g)| + Held(m', g)
    {
      NewTableRefs(m, m', d, f, g);
      assert Counted(m, g);
    }
    assert TablesOk(m');
    assert EntriesOk(m');
    assert OffsetsOk(m');
  }

  lemma NewTableRefs(m: Mem, m': Mem, d: nat, f: nat, g: nat)
    requires SLOT_DIRS <= d < |m.dir| == ENTRIES && !HasTable(m, d) && m'.dir == m.dir[d := Full(f)]
    requires forall a :: IsUser(a) ==> Entry(m', a) == Entry(m, a)
    ensures |DirRefs(m', g)| == |DirRefs(m, g)| + (if g == f then 1 else 0)
    ensures PteRefs(m', g) == PteRefs(m, g)
  {
    assert d !in DirRefs(m, g);
    assert DirRefs(m', g) == if g == f then DirRefs(m, g) + {d} else DirRefs(m, g);
  }

  /** What happens to the references when exactly one entry changes. */
  ghost predicate OneEntry(m: Mem, m': Mem, a: Lin) {
    IsUser(a) && m'.dir == m.dir && forall b :: IsUser(b) && b != a ==> Entry(m', b) == Entry(m, b)
  }

  ghost function Names(m: Mem, a: Lin, f: nat): nat {
    if Mapped(m, a) && Entry(m, a).page == f then 1 else 0
  }

  lemma OneEntryRefs(m: Mem, m': Mem, a: Lin, f: nat)
    requires OneEntry(m, m', a)
    ensures DirRefs(m', f) == DirRefs(m, f)
    ensures |PteRefs(m', f)| == |PteRefs(m, f)| - Names(m, a, f) + Names(m', a, f)
  {
    var others := PteRefs(m, f) - {a};
    assert PteRefs(m, f) == if Names(m, a, f) == 1 then others + {a} else others;
    assert PteRefs(m', f) == if Names(m', a, f) == 1 then others + {a} else others;
  }

  /** If the count follows the one entry that changed, every count is still right. */
  lemma OneEntryCounts(m: Mem, m': Mem, a: Lin)
    requires Inv(m) && Shape(m') && OneEntry(m, m', a) && |m'.count| == |m.count|
    requires forall f :: Counted(m, f) ==>
      Count(m', f) - Held(m', f) == Count(m, f) - Held(m, f) - Names(m, a, f) + Names(m', a, f)
    ensures CountsOk(m')
  {
    forall g | Counted(m', g)
      ensures Count(m', g) == |DirRefs(m', g)| + |PteRefs(m', g)| + Held(m', g)
    {
      OneEntryRefs(m, m', a, g);
      assert Counted(m, g);
    }
  }

  lemma OneEntryAbs(m: Mem, m': Mem, a: Lin)
    requires Shape(m) && Shape(m') && EntriesOk(m) && EntriesOk(m') && OneEntry(m, m', a) && |m'.phys| == |m.phys|
    requires forall b :: Mapped(m, b) ==> m'.phys[Entry(m, b).page] == m.phys[Entry(m, b).page]
    ensures Abs(m') == if Mapped(m', a) then Abs(m)[a := m'.phys[Entry(m', a).page]] else Abs(m) - {a}
  {
    hide Entry;
    forall b: Lin | b != a
      ensures b in Abs(m') <==> b in Abs(m)
      ensures b in Abs(m) ==> Abs(m')[b] == Abs(m)[b]
    {
      assert IsUser(b) ==> Entry(m', b) == Entry(m, b);
    }
    assert a in Abs(m') <==> Mapped(m', a);
  }

  /** put_page: a page of the kernel is mapped, writable, at `a`. */
  function InstallPage(m: Mem, a: Lin, f: nat): Mem
    requires a.d < |m.dir| && m.dir[a.d].page < |m.phys| && a.i < |m.phys[m.dir[a.d].page]| && Counted(m, f)
  {
    SetHeld(SetEntry(m, a, Full(f)), f, 0)
  }

  lemma InstallPageKeeps(m: Mem, a: Lin, f: nat)
    requires Inv(m) && Fresh(m, f) && IsUser(a) && HasTable(m, a.d) && !Mapped(m, a)
    ensures var m' := InstallPage(m, a, f);
      Inv(m') && Abs(m') == Abs(m)[a := m.phys[f]] && OneEntry(m, m', a) && Entry(m', a) == Full(f)
  {
    FreshHasNoRefs(m, f);
    SetEntryEffect(m, a, Full(f));
    var m' := InstallPage(m, a, f);
    assert OneEntry(m, m', a) && Entry(m', a) == Full(f);
    OneEntryCounts(m, m', a);
    InstallOthers(m, m', a, f);
    OneEntryAbs(m, m', a);
  }

  lemma InstallOthers(m: Mem, m': Mem, a: Lin, f: nat)
    requires Inv(m) && Fresh(m, f) && Count(m, f) == 1 && OneEntry(m, m', a) && Entry(m', a) == Full(f) && Shape(m')
    requires m'.high == m.high
    requires m'.count == m.count && m'.held == m.held[f - LOW := 0]
    requires forall b :: Mapped(m, b) ==> Entry(m, b).page != f
    ensures EntriesOk(m') && OffsetsOk(m')
  {
    hide Entry;
    forall b | IsUser(b) && b != a
      ensures Entry(m', b) == Entry(m, b)
    {
    }
  }

  /** Clearing the write bit, setting the dirty bit: the frame named stays the same. */
  lemma RetagEntryKeeps(m: Mem, a: Lin, w: Word)
    requires Inv(m) && Mapped(m, a) && HasTable(m, a.d)
    requires w.present && w.page == Entry(m, a).page && (w.writable ==> w.page >= LOW && Count(m, w.page) == 1)
    ensures var m' := SetEntry(m, a, w);
      Inv(m') && Abs(m') == Abs(m) && OneEntry(m, m', a) && Entry(m', a) == w
  {
    hide Entry, Abs, DirRefs, PteRefs;
    SetEntryEffect(m, a, w);
    var m' := SetEntry(m, a, w);
    assert OneEntry(m, m', a);
    RetagOthers(m, m', a, w);
    OneEntryCounts(m, m', a);
    assert Abs(m') == Abs(m) by {
      OneEntryAbs(m, m', a);
      RetagAbs(m, a);
    }
  }

  lemma RetagAbs(m: Mem, a: Lin)
    requires Shape(m) && EntriesOk(m) && Mapped(m, a)
    ensures a in Abs(m) && Abs(m)[a := m.phys[Entry(m, a).page]] == Abs(m)
  {
  }

  lemma RetagOthers(m: Mem, m': Mem, a: Lin, w: Word)
    requires Inv(m) && Mapped(m, a) && OneEntry(m, m', a) && Entry(m', a) == w && Shape(m') && m'.high == m.high
    requires w.present && w.page == Entry(m, a).page && (w.writable ==> w.page >= LOW && Count(m, w.page) == 1)
    requires m'.count == m.count && m'.held == m.held
    ensures EntriesOk(m') && OffsetsOk(m')
  {
    forall b | IsUser(b)
      ensures Mapped(m', b) == Mapped(m, b) && Entry(m', b).page == Entry(m, b).page
    {
      assert b != a ==> Entry(m', b) == Entry(m, b);
    }
  }

  /** A second mapping of a frame, write protected, at the same offset of another slot. */
  function Duplicate(m: Mem, to: Lin, w: Word): Mem
    requires to.d < |m.dir| && m.dir[to.d].page < |m.phys| && to.i < |m.phys[m.dir[to.d].page]|
    requires w.page >= LOW ==> Counted(m, w.page)
  {
    var m1 := SetEntry(m, to, w);
    if w.page >= LOW then SetCount(m1, w.page, Count(m, w.page) + 1) else m1
  }

  lemma DuplicateKeeps(m: Mem, from: Lin, to: Lin)
    requires Inv(m) && Mapped(m, from) && !Entry(m, from).writable
    requires IsUser(to) && HasTable(m, to.d) && !Mapped(m, to) && SameOffset(from, to)
    ensures Entry(m, from).page >= LOW ==> Counted(m, Entry(m, from).page)
    ensures var m' := Duplicate(m, to, Entry(m, from));
      && Inv(m') && Abs(m') == Abs(m)[to := Abs(m)[from]]
      && OneEntry(m, m', to) && Entry(m', to) == Entry(m, from)
  {
    var w := Entry(m, from);
    SetEntryEffect(m, to, w);
    var m' := Duplicate(m, to, w);
    assert OneEntry(m, m', to) && Entry(m', to) == w;
    OneEntryCounts(m, m', to);
    DuplicateOthers(m, m', from, to);
    DuplicateOffsets(m, m', from, to);
    OneEntryAbs(m, m', to);
  }

  lemma DuplicateOthers(m: Mem, m': Mem, from: Lin, to: Lin)
    requires Inv(m) && Mapped(m, from) && !Entry(m, from).writable
    requires IsUser(to) && HasTable(m, to.d) && !Mapped(m, to) && SameOffset(from, to)
    requires m' == Duplicate(m, to, Entry(m, from)) && Shape(m')
    requires OneEntry(m, m', to) && Entry(m', to) == Entry(m, from)
    ensures TablesOk(m') && EntriesOk(m') && KernelOk(m')
  {
    forall d | HasTable(m', d)
      ensures LOW <= m'.dir[d].page < m'.high && Count(m', m'.dir[d].page) == 1
    {
      TablePrivate(m, d);
    }
    forall b | Mapped(m, b) && Entry(m, b).page == Entry(m, from).page
      ensures !Entry(m, b).writable
    {
      if Entry(m, b).writable {
        SoleMapping(m, b);
      }
    }
  }

  lemma DuplicateOffsets(m: Mem, m': Mem, from: Lin, to: Lin)
    requires OffsetsOk(m) && Mapped(m, from) && SameOffset(from, to)
    requires OneEntry(m, m', to) && Entry(m', to) == Entry(m, from)
    ensures OffsetsOk(m')
  {
    forall a, b | Mapped(m', a) && Mapped(m', b) && Entry(m', a).page == Entry(m', b).page >= LOW
      ensures SameOffset(a, b)
    {
      var a0 := if a == to then from else a;
      var b0 := if b == to then from else b;
      assert Mapped(m, a0) && Mapped(m, b0);
    }
  }

  /** The first fork maps the kernel's low pages, uncounted and write protected. */
  lemma MapLowKeeps(m: Mem, to: Lin, w: Word)
    requires Inv(m) && w.present && !w.writable && w.page < LOW
    requires IsUser(to) && HasTable(m, to.d) && !Mapped(m, to)
    ensures var m' := Duplicate(m, to, w);
      && Inv(m') && Abs(m') == Abs(m)[to := m.phys[w.page]]
      && OneEntry(m, m', to) && Entry(m', to) == w
  {
    SetEntryEffect(m, to, w);
    var m' := Duplicate(m, to, w);
    assert OneEntry(m, m', to) && Entry(m', to) == w;
    OneEntryCounts(m, m', to);
    assert EntriesOk(m');
    assert OffsetsOk(m');
    TablePrivate(m, to.d);
    OneEntryAbs(m, m', to);
  }

  /** free_page on the frame an entry names (if any), then clearing the entry. */
  function Drop(m: Mem, a: Lin): Mem
    requires a.d < |m.dir| && m.dir[a.d].page < |m.phys| && a.i < |m.phys[m.dir[a.d].page]|
    requires Mapped(m, a) && Entry(m, a).page >= LOW ==> Counted(m, Entry(m, a).page) && Count(m, Entry(m, a).page) > 0
  {
    var w := Entry(m, a);
    var m1 := SetEntry(m, a, ZERO);
    if Mapped(m, a) && w.page >= LOW then SetCount(m1, w.page, Count(m, w.page) - 1) else m1
  }

  lemma DropKeeps(m: Mem, a: Lin)
    requires Inv(m) && IsUser(a) && HasTable(m, a.d)
    ensures Mapped(m, a) && Entry(m, a).page >= LOW ==> Counted(m, Entry(m, a).page) && Count(m, Entry(m, a).page) > 0
    ensures var m' := Drop(m, a);
      Inv(m') && Abs(m') == Abs(m) - {a} && OneEntry(m, m', a) && Entry(m', a) == ZERO
  {
    if Mapped(m, a) && Entry(m, a).page >= LOW {
      assert a in PteRefs(m, Entry(m, a).page);
    }
    SetEntryEffect(m, a, ZERO);
    var m' := Drop(m, a);
    assert OneEntry(m, m', a) && Entry(m', a) == ZERO && Shape(m');
    hide Entry, Abs, DirRefs, PteRefs;
    assert CountsOk(m') by { DropCounts(m, m', a); }
    assert TablesOk(m') && EntriesOk(m') && KernelOk(m') by { DropOthers(m, m', a); }
    assert OffsetsOk(m');
    assert Abs(m') == Abs(m) - {a} by { OneEntryAbs(m, m', a); }
  }

  lemma DropCounts(m: Mem, m': Mem, a: Lin)
    requires Inv(m) && IsUser(a) && HasTable(m, a.d)
    requires Mapped(m, a) && Entry(m, a).page >= LOW ==> Counted(m, Entry(m, a).page) && Count(m, Entry(m, a).page) > 0
    requires m' == Drop(m, a) && Shape(m') && OneEntry(m, m', a) && Entry(m', a) == ZERO
    ensures CountsOk(m')
  {
    OneEntryCounts(m, m', a);
  }

  lemma DropOthers(m: Mem, m': Mem, a: Lin)
    requires Inv(m) && IsUser(a) && HasTable(m, a.d)
    requires Mapped(m, a) && Entry(m, a).page >= LOW ==> Counted(m, Entry(m, a).page) && Count(m, Entry(m, a).page) > 0
    requires m' == Drop(m, a) && Shape(m') && OneEntry(m, m', a) && Entry(m', a) == ZERO
    ensures TablesOk(m') && EntriesOk(m') && KernelOk(m')
  {
    forall d | HasTable(m', d)
      ensures LOW <= m'.dir[d].page < m'.high && Count(m', m'.dir[d].page) == 1
    {
      TablePrivate(m, d);
    }
    forall b | Mapped(m, b) && b != a && Entry(m, b).page == Entry(m, a).page
      ensures !(Mapped(m, a) && Entry(m, b).writable)
    {
      if Mapped(m, a) && Entry(m, b).writable {
        SoleMapping(m, b);
      }
    }
  }

  /** free_page on an emptied page table, and clearing its directory entry. */
  function DropTable(m: Mem, d: nat): Mem
    requires d < |m.dir| && Counted(m, m.dir[d].page) && Count(m, m.dir[d].page) > 0
  {
    var f := m.dir[d].page;
    SetCount(m, f, Count(m, f) - 1).(dir := m.dir[d := ZERO])
  }

  ghost predicate EmptyTable(m: Mem, d: nat) {
    forall a :: IsUser(a) && a.d == d ==> !Mapped(m, a)
  }

  lemma DropTableKeeps(m: Mem, d: nat)
    requires Inv(m) && HasTable(m, d) && EmptyTable(m, d)
    ensures Counted(m, m.dir[d].page) && Count(m, m.dir[d].page) == 1
    ensures var m' := DropTable(m, d);
      && Inv(m') && Abs(m') == Abs(m) && !HasTable(m', d)
      && (forall a :: IsUser(a) && a.d != d ==> Entry(m', a) == Entry(m, a))
      && (forall a :: IsUser(a) && a.d == d ==> !Mapped(m', a))
  {
    TablePrivate(m, d);
    var m' := DropTable(m, d);
    GoneTableCounts(m, m', d);
    assert TablesOk(m');
    assert EntriesOk(m');
    assert OffsetsOk(m');
  }

  lemma GoneTableCounts(m: Mem, m': Mem, d: nat)
    requires Inv(m) && HasTable(m, d) && Counted(m, m.dir[d].page) && Count(m, m.dir[d].page) == 1
    requires m' == DropTable(m, d) && Shape(m')
    requires forall a :: IsUser(a) && a.d != d ==> Entry(m', a) == Entry(m, a)
    requires forall a :: IsUser(a) && a.d == d ==> !Mapped(m', a) && !Mapped(m, a)
    ensures CountsOk(m')
  {
    forall g | Counted(m', g)
      ensures Count(m', g) == |DirRefs(m', g)| + |PteRefs(m', g)| + Held(m', g)
    {
      GoneTableRefs(m, m', d, g);
      assert Counted(m, g);
    }
  }

  lemma GoneTableRefs(m: Mem, m': Mem, d: nat, g: nat)
    requires HasTable(m, d) && |m.dir| == ENTRIES && m'.dir == m.dir[d := ZERO]
    requires forall a :: IsUser(a) && a.d != d ==> Entry(m', a) == Entry(m, a)
    requires forall a :: IsUser(a) && a.d == d ==> !Mapped(m', a) && !Mapped(m, a)
    ensures |DirRefs(m', g)| == |DirRefs(m, g)| - (if g == m.dir[d].page then 1 else 0)
    ensures PteRefs(m', g) == PteRefs(m, g)
  {
    assert g == m.dir[d].page ==> d in DirRefs(m, g);
    assert DirRefs(m', g) == DirRefs(m, g) - {d};
  }

  /** Filling a page nobody else can see. */
  lemma FillKeeps(m: Mem, f: nat, page: seq<Word>)
    requires Inv(m) && Fresh(m, f) && |page| == ENTRIES
    ensures var m' := m.(phys := m.phys[f := page]);
      Inv(m') && Abs(m') == Abs(m) && Fresh(m', f) && SameEntries(m, m')
  {
    FreshHasNoRefs(m, f);
    var m' := m.(phys := m.phys[f := page]);
    SameEntriesKeeps(m, m');
  }

  lemma Reinsert<K, V>(m: map<K, V>, k: K)
    requires k in m
    ensures (m - {k})[k := m[k]] == m
  {
  }

  /** The copying half of un_wp_page: `a` gets its own copy of the page, in the fresh frame `f`. */
  function CopyPage(m: Mem, a: Lin, f: nat): Mem
    requires a.d < |m.dir| && m.dir[a.d].page < |m.phys| && a.i < |m.phys[m.dir[a.d].page]|
    requires Counted(m, f) && f < |m.phys| && Entry(m, a).page < |m.phys|
    requires Entry(m, a).page >= LOW ==> Counted(m, Entry(m, a).page) && Count(m, Entry(m, a).page) > 0
  {
    var t := m.dir[a.d].page;
    var old_page := Entry(m, a).page;
    m.(phys := m.phys[t := m.phys[t][a.i := Full(f)]][f := m.phys[old_page]],
       held := m.held[f - LOW := 0],
       count := if old_page >= LOW then m.count[old_page - LOW := m.count[old_page - LOW] - 1] else m.count)
  }

  lemma CopyPageKeeps(m: Mem, a: Lin, f: nat)
    requires Inv(m) && Fresh(m, f) && Mapped(m, a) && HasTable(m, a.d)
    ensures Entry(m, a).page >= LOW ==> Counted(m, Entry(m, a).page) && Count(m, Entry(m, a).page) > 0
    ensures var m' := CopyPage(m, a, f);
      Inv(m') && Abs(m') == Abs(m) && Entry(m', a) == Full(f)
  {
    var page := m.phys[Entry(m, a).page];
    FreshHasNoRefs(m, f);
    DropKeeps(m, a);
    var m1 := m.(phys := m.phys[f := page]);
    FillKeeps(m, f, page);
    CopyPageSteps(m, a, f);
    DropInstall(m1, a, f);
  }

  lemma DropInstall(m: Mem, a: Lin, f: nat)
    requires Inv(m) && Fresh(m, f) && Mapped(m, a) && HasTable(m, a.d) && m.phys[f] == m.phys[Entry(m, a).page]
    ensures Entry(m, a).page >= LOW ==> Counted(m, Entry(m, a).page) && Count(m, Entry(m, a).page) > 0
    ensures var m2 := Drop(m, a);
      && Counted(m2, f)
      && var m' := InstallPage(m2, a, f);
      Inv(m') && Abs(m') == Abs(m) && Entry(m', a) == Full(f)
  {
    var page := m.phys[f];
    assert Abs(m)[a] == page;
    FreshHasNoRefs(m, f);
    DropKeeps(m, a);
    var m2 := Drop(m, a);
    assert m2.phys[f] == page && Fresh(m2, f) && !Mapped(m2, a);
    InstallPageKeeps(m2, a, f);
    Reinsert(Abs(m), a);
  }

  lemma CopyPageSteps(m: Mem, a: Lin, f: nat)
    requires a.d < |m.dir| && m.dir[a.d].present && m.dir[a.d].page < |m.phys| && a.i < |m.phys[m.dir[a.d].page]|
    requires Counted(m, f) && f < |m.phys| && Mapped(m, a) && Entry(m, a).page < |m.phys|
    requires Entry(m, a).page >= LOW ==> Counted(m, Entry(m, a).page) && Count(m, Entry(m, a).page) > 0
    requires m.dir[a.d].page != f
    ensures var m1 := m.(phys := m.phys[f := m.phys[Entry(m, a).page]]);
      CopyPage(m, a, f) == InstallPage(Drop(m1, a), a, f)
  {
    CopyCommutes(m.phys, m.dir[a.d].page, a.i, f, m.phys[Entry(m, a).page], ZERO, Full(f));
  }

  lemma CopyCommutes(phys: seq<seq<Word>>, t: nat, i: nat, f: nat, page: seq<Word>, z: Word, w: Word)
    requires t < |phys| && f < |phys| && t != f && i < |phys[t]|
    ensures var p := phys[f := page];
      var q := p[t := p[t][i := z]];
      phys[t := phys[t][i := w]][f := page] == q[t := q[t][i := w]]
  {
    assert phys[t][i := z][i := w] == phys[t][i := w];
  }

  /** A store by a user task through a writable mapping; the paging unit sets the dirty bit. */
  function Store(m: Mem, a: Lin, off: nat, w: Word): Mem
    requires Mapped(m, a) && Entry(m, a).page < |m.phys| && off < |m.phys[Entry(m, a).page]|
  {
    var m1 := SetEntry(m, a, Entry(m, a).(dirty := true));
    m1.(phys := m1.phys[Entry(m, a).page := m.phys[Entry(m, a).page][off := w]])
  }

  lemma StoreKeeps(m: Mem, a: Lin, off: nat, w: Word)
    requires Inv(m) && Mapped(m, a) && Entry(m, a).writable && off < ENTRIES
    ensures var m' := Store(m, a, off, w);
      Inv(m') && Abs(m') == Abs(m)[a := Abs(m)[a][off := w]]
  {
    RetagEntryKeeps(m, a, Entry(m, a).(dirty := true));
    var m1 := SetEntry(m, a, Entry(m, a).(dirty := true));
    TablePrivate(m, a.d);
    assert m1.phys[Entry(m, a).page] == m.phys[Entry(m, a).page];
    StoreWordKeeps(m1, a, off, w);
  }

  lemma StoreWordKeeps(m: Mem, a: Lin, off: nat, w: Word)
    requires Inv(m) && Mapped(m, a) && Entry(m, a).writable && off < ENTRIES
    ensures var f := Entry(m, a).page;
      var m' := m.(phys := m.phys[f := m.phys[f][off := w]]);
      Inv(m') && Abs(m') == Abs(m)[a := Abs(m)[a][off := w]]
  {
    var f := Entry(m, a).page;
    var m' := m.(phys := m.phys[f := m.phys[f][off := w]]);
    forall d | HasTable(m, d)
      ensures m.dir[d].page != f
    {
      TablePrivate(m, d);
    }
    SameEntriesKeeps(m, m');
    SoleMapping(m, a);
    StoreWordAbs(m, m', a, off, w);
  }

  lemma StoreWordAbs(m: Mem, m': Mem, a: Lin, off: nat, w: Word)
    requires Shape(m) && Shape(m') && EntriesOk(m) && EntriesOk(m') && SameEntries(m, m') && off < ENTRIES
    requires Mapped(m, a) && m'.phys == m.phys[Entry(m, a).page := m.phys[Entry(m, a).page][off := w]]
    requires forall b :: Mapped(m, b) && Entry(m, b).page == Entry(m, a).page ==> b == a
    ensures Abs(m') == Abs(m)[a := Abs(m)[a][off := w]]
  {
  }

  // ---------------------------------------------------------------- the byte never overflows

  function SlotOf(a: Lin): nat { a.d / SLOT_DIRS }

  ghost function InSlots(refs: set<Lin>, slot: nat): set<Lin> {
    set a | a in refs && SlotOf(a) == slot
  }

  lemma OnePerSlot(a: Lin, b: Lin)
    requires SameOffset(a, b) && SlotOf(a) == SlotOf(b)
    ensures a == b
  {
    assert a == Lin(a.d, a.i) && b == Lin(b.d, b.i);
  }

  lemma {:induction false} SlotsBound(refs: set<Lin>, bound: nat)
    requires forall a :: a in refs ==> 0 < SlotOf(a) <= bound
    requires forall a, b :: a in refs && b in refs ==> SameOffset(a, b)
    ensures |refs| <= bound
  {
    hide SlotOf, SameOffset;
    if bound == 0 {
      assert forall a :: a !in refs;
    } else {
      var top := InSlots(refs, bound);
      SlotsBound(refs - top, bound - 1);
      assert |refs| == |refs - top| + |top| by { assert refs == (refs - top) + top; }
      if a :| a in top {
        forall b | b in top
          ensures b == a
        {
          OnePerSlot(a, b);
        }
        assert top == {a};
      }
    }
  }

  /** A frame is mapped at most once per task, so its count stays far below 255. */
  lemma CountBound(m: Mem, f: nat)
    requires Inv(m) && Counted(m, f) && Held(m, f) == 0
    ensures Count(m, f) < NR_TASKS
  {
    if d :| d in DirRefs(m, f) {
    } else {
      assert DirRefs(m, f) == {};
      forall a | a in PteRefs(m, f)
        ensures 0 < SlotOf(a) <= NR_TASKS - 1
      {
        assert IsUser(a);
      }
      SlotsBound(PteRefs(m, f), NR_TASKS - 1);
    }
  }

  /** Counts are a function of what is mapped: same mappings, same counts. */
  lemma CountsDetermined(m: Mem, m': Mem)
    requires Inv(m) && Inv(m') && |m'.count| == |m.count| && m'.held == m.held
    requires forall d :: SLOT_DIRS <= d < ENTRIES ==>
      m'.dir[d].present == m.dir[d].present && (m.dir[d].present ==> m'.dir[d].page == m.dir[d].page)
    requires forall a :: IsUser(a) ==>
      Entry(m', a).present == Entry(m, a).present && Entry(m', a).page == Entry(m, a).page
    ensures m'.count == m.count
  {
    forall f | Counted(m, f)
      ensures Count(m', f) == Count(m, f)
    {
      assert DirRefs(m', f) == DirRefs(m, f);
      assert PteRefs(m', f) == PteRefs(m, f);
      assert Counted(m', f);
    }
    forall k | 0 <= k < |m.count|
      ensures m'.count[k] == m.count[k]
    {
      assert Counted(m, k + LOW) && Count(m', k + LOW) == Count(m, k + LOW);
    }
  }

  // ---------------------------------------------------------------- the eager reference

  predicate InRange(a: Lin, first: nat, n: nat) {
    first <= a.d < first + n
  }

  /** Entries already passed by a copy that has done `k` directories and `j` entries of the next. */
  predicate Passed(a: Lin, to: nat, k: nat, j: nat) {
    to <= a.d && (a.d < to + k || (a.d == to + k && a.i < j))
  }

  lemma PassedNext(to: nat, k: nat, j: nat)
    ensures forall a :: Passed(a, to, k, j + 1) <==> Passed(a, to, k, j) || a == Lin(to + k, j)
  {
    forall a: Lin
      ensures Passed(a, to, k, j + 1) <==> Passed(a, to, k, j) || a == Lin(to + k, j)
    {
      assert a == Lin(a.d, a.i);
    }
  }

  function Content(m: Mem, a: Lin): seq<Word> {
    if Entry(m, a).page < |m.phys| then m.phys[Entry(m, a).page] else []
  }

  /** Where the page copied to `b` comes from. */
  function Source(b: Lin, from: nat, to: nat): Lin {
    if to <= b.d then Lin(b.d - to + from, b.i) else b
  }

  /** The pages an eager fork would have copied by then. */
  ghost function Copied(m: Mem, from: nat, to: nat, k: nat, j: nat): map<Lin, seq<Word>> {
    map b | b in UserLins() && Passed(b, to, k, j) && Entry(m, Source(b, from, to)).present ::
      Content(m, Source(b, from, to))
  }
}
