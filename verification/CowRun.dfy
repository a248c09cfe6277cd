/**
  Runs of the memory system: forks, stores with their write faults, demand loading, sharing,
  exits.  The reference is a machine whose fork copies every page at once; whatever the order of
  steps, and wherever memory runs out, the user reads the same.
 */
module CowRun {
  import opened Common
  import opened CowModel
  import opened CowMemory

  /** A task slot: the frame of its task structure and how many directory entries its limit covers. */
  datatype Slot = Empty | Live(page: nat, dirs: nat) | Zombie(page: nat)

  datatype Step =
    | Fork(parent: nat)
    | Write(slot: nat, k: nat, i: nat, off: nat, word: Word)
    | Touch(slot: nat, k: nat, i: nat, page: seq<Word>)
    | Share(slot: nat, other: nat, k: nat, i: nat)
    | Exec(slot: nat)
    | Exit(slot: nat)
    | Reap(slot: nat)

  /** What a step did, as the eager reference machine is told. */
  datatype Event =
    | Nothing
    | FirstFork(child: nat, pages: map<Lin, seq<Word>>)
    | Forked(parent: nat, child: nat, dirs: nat)
    | Wrote(at: Lin, off: nat, word: Word)
    | Added(at: Lin, page: seq<Word>)
    | CopiedFrom(at: Lin, source: Lin)
    | Dropped(slot: nat)

  function Base(s: nat): nat {
    s * SLOT_DIRS
  }

  predicate InSlot(a: Lin, s: nat) {
    InRange(a, Base(s), SLOT_DIRS)
  }

  /** Every page of the first `n` directory entries from `from`, copied to `to`. */
  ghost function EagerCopy(v: map<Lin, seq<Word>>, from: nat, to: nat, n: nat): map<Lin, seq<Word>> {
    map b | b in UserLins() && InRange(b, to, n) && Source(b, from, to) in v :: v[Source(b, from, to)]
  }

  /** One step of the eager reference machine. */
  ghost function Apply(v: map<Lin, seq<Word>>, e: Event): map<Lin, seq<Word>> {
    match e
    case Nothing => v
    case FirstFork(child, pages) => v + pages
    case Forked(p, c, n) => v + EagerCopy(v, Base(p), Base(c), n)
    case Wrote(a, off, w) => if a in v && off < |v[a]| then v[a := v[a][off := w]] else v
    case Added(a, page) => v[a := page]
    case CopiedFrom(a, b) => if b in v then v[a := v[b]] else v
    case Dropped(s) => map a | a in v && !InSlot(a, s) :: v[a]
  }

  ghost function Replay(v: map<Lin, seq<Word>>, log: seq<Event>): map<Lin, seq<Word>> {
    if log == [] then v else Apply(Replay(v, log[..|log| - 1]), log[|log| - 1])
  }

  /** The step names a live task and a page inside its limit. */
  predicate Aims(slots: seq<Slot>, s: nat, k: nat, i: nat) {
    1 <= s < |slots| && slots[s].Live? && k < slots[s].dirs && i < ENTRIES
  }

  predicate Alive(slots: seq<Slot>, s: nat) {
    1 <= s < |slots| && slots[s].Live?
  }

  /** The slot find_empty_process gives, 0 if there is none. */
  ghost predicate FirstEmpty(slots: seq<Slot>, nr: nat) {
    && (nr != 0 ==> nr < |slots| && slots[nr].Empty?)
    && forall t :: 1 <= t < |slots| && (nr == 0 || t < nr) ==> !slots[t].Empty?
  }

  /**
    The event that a step turns into, in the state before it.  A step that cannot be taken does
    nothing; running out of memory makes a fork fail and kills a task that takes a fault.
   */
  ghost predicate Explains(slots: seq<Slot>, m: Mem, s: Step, e: Event) {
    match s
    case Fork(p) => if p < |slots| && slots[p].Live? then ForkGives(slots, m, p, e) else e == Nothing
    case Write(s, k, i, off, w) =>
      if Aims(slots, s, k, i) && off < ENTRIES && Mapped(m, Lin(Base(s) + k, i))
      then e == if NeedsCopy(m, Lin(Base(s) + k, i)) && FreeCount(m) == 0 then Dropped(s)
                else Wrote(Lin(Base(s) + k, i), off, w)
      else e == Nothing
    case Touch(s, k, i, page) =>
      if Aims(slots, s, k, i) && |page| == ENTRIES && !Mapped(m, Lin(Base(s) + k, i))
      then e == if FreeCount(m) < FramesFor(m, Base(s) + k) then Dropped(s) else Added(Lin(Base(s) + k, i), page)
      else e == Nothing
    case Share(s, p, k, i) =>
      if && Aims(slots, s, k, i) && Aims(slots, p, k, i) && p != s
         && !Mapped(m, Lin(Base(s) + k, i)) && Sharable(m, Lin(Base(p) + k, i))
      then e == if !HasTable(m, Base(s) + k) && FreeCount(m) == 0 then Dropped(s)
                else CopiedFrom(Lin(Base(s) + k, i), Lin(Base(p) + k, i))
      else e == Nothing
    case Exec(s) => e == if Alive(slots, s) then Dropped(s) else Nothing
    case Exit(s) => e == if Alive(slots, s) then Dropped(s) else Nothing
    case Reap(s) => e == Nothing
  }

  /** The task table after a step: a child, a zombie, a task with its whole slot, a reaped slot, or as before. */
  ghost predicate NextSlots(slots: seq<Slot>, s: Step, e: Event, slots': seq<Slot>) {
    match e
    case FirstFork(c, _) => Filled(slots, c, 1, slots')
    case Forked(_, c, n) => Filled(slots, c, n, slots')
    case Dropped(t) =>
      && t < |slots| && slots[t].Live?
      && slots' == slots[t := if s.Exec? then Live(slots[t].page, SLOT_DIRS) else Zombie(slots[t].page)]
    case _ => slots' == if s.Reap? && s.slot < |slots| && Reapable(slots, s.slot) then slots[s.slot := Empty] else slots
  }

  predicate Filled(slots: seq<Slot>, c: nat, n: nat, slots': seq<Slot>) {
    && c < |slots| == |slots'| && slots[c].Empty? && slots'[c].Live? && slots'[c].dirs == n
    && slots' == slots[c := slots'[c]]
  }

  predicate Reapable(slots: seq<Slot>, s: nat) {
    1 <= s < |slots| && slots[s].Zombie?
  }

  /** There are frames for the child's task page and for a copy of every page table of its parent. */
  ghost predicate RoomToFork(slots: seq<Slot>, m: Mem, p: nat)
    requires p < |slots| && slots[p].Live?
  {
    Base(p) + slots[p].dirs <= |m.dir| && FreeCount(m) >= 1 + Tables(m.dir, Base(p), slots[p].dirs)
  }

  /** A fork goes to the first empty slot; it fails exactly for want of a slot or of frames. */
  ghost predicate ForkGives(slots: seq<Slot>, m: Mem, p: nat, e: Event)
    requires p < |slots| && slots[p].Live?
  {
    if FirstEmpty(slots, 0) || !RoomToFork(slots, m, p) then e == Nothing
    else
      match e
      case FirstFork(c, pages) =>
        p == 0 && c != 0 && FirstEmpty(slots, c) && pages == Copied(m, 0, Base(c), 0, KERNEL_PAGES)
      case Forked(q, c, n) => p != 0 && q == p && c != 0 && FirstEmpty(slots, c) && n == slots[p].dirs
      case _ => false
  }

  /** The state before a step decides its event: no step may fail for any other reason. */
  lemma OneEvent(slots: seq<Slot>, m: Mem, s: Step, e: Event, e': Event)
    requires Explains(slots, m, s, e) && Explains(slots, m, s, e')
    ensures e == e'
  {
    hide Copied, FreeCount, NeedsCopy, FramesFor, Sharable, Mapped, RoomToFork;
  }

  /** A store, with whatever fault it takes, changes no page of any other task. */
  lemma WriteIsPrivate(slots: seq<Slot>, m: Mem, v: map<Lin, seq<Word>>, s: nat, k: nat, i: nat, off: nat, w: Word,
          e: Event, a: Lin)
    requires k < SLOT_DIRS && Explains(slots, m, Write(s, k, i, off, w), e) && !InSlot(a, s)
    ensures a in Apply(v, e) <==> a in v
    ensures a in v ==> Apply(v, e)[a] == v[a]
  {
  }

  // ---------------------------------------------------------------- what the events mean, by address

  /** The page of a linear address: ten bits for the directory entry, ten for the table entry. */
  function PageAt(addr: nat): Lin {
    Lin(addr / 0x400000, addr / 0x1000 % 0x400)
  }

  lemma SlotAddress(s: nat, off: nat)
    requires off < 0x4000000
    ensures var a := PageAt(s * 0x4000000 + off);
      InSlot(a, s) && a.d == Base(s) + off / 0x400000 && a.i == off / 0x1000 % 0x400
      && (s > 0 && s < NR_TASKS ==> IsUser(a))
  {
    var addr, q, g := s * 0x4000000 + off, off / 0x400000, off / 0x1000;
    Quotient(addr, 0x400000, 16 * s + q, off % 0x400000);
    Quotient(addr, 0x1000, 0x4000 * s + g, off % 0x1000);
    Quotient(0x4000 * s + g, 0x400, 16 * s + g / 0x400, g % 0x400);
  }

  /** After a fork the child reads at every address what its parent reads there, and nobody else sees a change. */
  lemma ForkReads(v: map<Lin, seq<Word>>, p: nat, c: nat, n: nat, off: nat, other: Lin)
    requires 0 < p < NR_TASKS && 0 < c < NR_TASKS && n <= SLOT_DIRS && off < n * 0x400000
    requires (forall a :: a in v ==> !InSlot(a, c)) && !InSlot(other, c)
    ensures var v' := Apply(v, Forked(p, c, n));
      var parent, child := PageAt(p * 0x4000000 + off), PageAt(c * 0x4000000 + off);
      && (child in v' <==> parent in v) && (parent in v ==> v'[child] == v[parent])
      && (other in v' <==> other in v) && (other in v ==> v'[other] == v[other])
  {
    SlotAddress(p, off);
    SlotAddress(c, off);
    var parent, child := PageAt(p * 0x4000000 + off), PageAt(c * 0x4000000 + off);
    assert Source(child, Base(p), Base(c)) == parent;
  }

  /** The first task's child reads the first 640 kB of memory that task 0 maps. */
  lemma FirstForkReads(m: Mem, c: nat, i: nat)
    requires Shape(m) && KernelOk(m) && 0 < c < NR_TASKS && i < 160
    ensures var pages, e := Copied(m, 0, Base(c), 0, KERNEL_PAGES), m.phys[m.dir[0].page][i];
      var child := PageAt(c * 0x4000000 + i * 0x1000);
      (child in pages <==> e.present) && (e.present ==> pages[child] == m.phys[e.page])
  {
    SlotAddress(c, i * 0x1000);
    var child := PageAt(c * 0x4000000 + i * 0x1000);
    assert child == Lin(Base(c), i) && Source(child, 0, Base(c)) == Lin(0, i);
  }

  /** A task that has gone leaves nothing behind, and takes nothing else with it. */
  lemma DropReads(v: map<Lin, seq<Word>>, s: nat, off: nat, other: Lin)
    requires off < 0x4000000 && !InSlot(other, s)
    ensures var v' := Apply(v, Dropped(s));
      PageAt(s * 0x4000000 + off) !in v' && (other in v' <==> other in v) && (other in v ==> v'[other] == v[other])
  {
    SlotAddress(s, off);
  }

  /** A clean page of another task, in main memory, is shared; only want of a frame for the table prevents it. */
  lemma SharesCleanPages(slots: seq<Slot>, m: Mem, s: nat, p: nat, k: nat, i: nat, e: Event)
    requires Explains(slots, m, Share(s, p, k, i), e) && Aims(slots, s, k, i) && Aims(slots, p, k, i) && p != s
    requires IsUser(Lin(Base(s) + k, i)) && IsUser(Lin(Base(p) + k, i))
    requires !Entry(m, Lin(Base(s) + k, i)).present
    requires var w := Entry(m, Lin(Base(p) + k, i)); w.present && !w.dirty && 0x100 <= w.page < m.high
    ensures e == CopiedFrom(Lin(Base(s) + k, i), Lin(Base(p) + k, i)) ||
      (e == Dropped(s) && !HasTable(m, Base(s) + k) && FreeCount(m) == 0)
  {
    hide FreeCount;
  }

  /** Page tables exist only inside the limits of live tasks, and each task structure has its own frame. */
  ghost predicate SlotsOk(slots: seq<Slot>, m: Mem) {
    && |slots| == NR_TASKS && |m.dir| == ENTRIES && slots[0] == Live(0, 1)
    && (forall s :: 0 <= s < NR_TASKS && slots[s].Live? ==> slots[s].dirs <= SLOT_DIRS)
    && (forall d :: SLOT_DIRS <= d < ENTRIES && m.dir[d].present ==>
          slots[d / SLOT_DIRS].Live? && d % SLOT_DIRS < slots[d / SLOT_DIRS].dirs)
    && (forall s :: 1 <= s < NR_TASKS && !slots[s].Empty? ==> Fresh(m, slots[s].page))
    && (forall s, t :: 1 <= s < t < NR_TASKS && !slots[s].Empty? && !slots[t].Empty? ==> slots[s].page != slots[t].page)
  }

  /** A frame that holds a task structure. */
  ghost predicate TaskPage(slots: seq<Slot>, f: nat) {
    exists s :: 1 <= s < |slots| && !slots[s].Empty? && slots[s].page == f
  }

  /** The kernel holds what it reserved at boot and one frame for each task structure, and no more. */
  ghost predicate HeldOk(slots: seq<Slot>, held: seq<nat>, reserved: seq<nat>) {
    && |held| == |reserved|
    && forall k: nat :: k < |held| ==> held[k] == reserved[k] + if TaskPage(slots, k + LOW) then 1 else 0
  }

  /** No frame is lost: one that was not reserved at boot is free exactly when no table, page or task uses it. */
  lemma FreeOrUsed(slots: seq<Slot>, m: Mem, reserved: seq<nat>, f: nat)
    requires Inv(m) && HeldOk(slots, m.held, reserved) && Counted(m, f) && reserved[f - LOW] == 0
    ensures Count(m, f) == |DirRefs(m, f)| + |PteRefs(m, f)| + if TaskPage(slots, f) then 1 else 0
    ensures Count(m, f) == 0 <==>
      && (forall d :: HasTable(m, d) ==> m.dir[d].page != f)
      && (forall a :: Mapped(m, a) ==> Entry(m, a).page != f)
      && !TaskPage(slots, f)
  {
    hide TaskPage, TablesOk, EntriesOk, OffsetsOk, KernelOk;
    assert (f - LOW) + LOW == f;
    forall d | HasTable(m, d)
      ensures d in DirRefs(m, f) <==> m.dir[d].page == f
    {
    }
    forall a | Mapped(m, a)
      ensures a in PteRefs(m, f) <==> Entry(m, a).page == f
    {
    }
  }

  lemma CopiedIsEager(m: Mem, from: nat, to: nat, n: nat)
    requires Shape(m) && EntriesOk(m) && SLOT_DIRS <= from && from + n <= ENTRIES && to + n <= ENTRIES
    ensures Copied(m, from, to, n, 0) == EagerCopy(Abs(m), from, to, n)
  {
    forall b | IsUser(b)
      ensures Passed(b, to, n, 0) <==> InRange(b, to, n)
      ensures InRange(b, to, n) ==> IsUser(Source(b, from, to))
    {
    }
    forall b: Lin
      ensures InRange(b, to, n) && IsUser(b) ==>
        (Source(b, from, to) in Abs(m) <==> Entry(m, Source(b, from, to)).present)
    {
      ReadAt(m, Source(b, from, to));
    }
  }

  /** Freeing the tables a task has frees its whole slot. */
  lemma FreedSlot(slots: seq<Slot>, m0: Mem, m: Mem, s: nat)
    requires Inv(m0) && Inv(m) && SlotsOk(slots, m0) && 1 <= s < NR_TASKS && slots[s].Live?
    requires FreedUpTo(m0, m, Base(s), slots[s].dirs, 0)
    ensures Abs(m) == Apply(Abs(m0), Dropped(s))
    ensures forall d :: Base(s) <= d < Base(s) + SLOT_DIRS ==> !m.dir[d].present
    ensures TablesOutside(m0, m, Base(s), SLOT_DIRS)
  {
    hide Inv, Abs;
    InvViews(m0);
    InvViews(m);
    var n := slots[s].dirs;
    forall d | Base(s) <= d < Base(s) + SLOT_DIRS
      ensures !m.dir[d].present
    {
      assert d / SLOT_DIRS == s && d % SLOT_DIRS == d - Base(s);
    }
    forall a: Lin
      ensures a in Abs(m) <==> a in Abs(m0) && !InSlot(a, s)
      ensures a in Abs(m) ==> Abs(m)[a] == Abs(m0)[a]
    {
      ReadAt(m0, a);
      ReadAt(m, a);
      if IsUser(a) && !InSlot(a, s) {
        assert SameAt(m0, m, a);
      }
    }
    assert Abs(m) == Apply(Abs(m0), Dropped(s));
  }

  /** SlotsOk reads only the directory and what the kernel holds. */
  lemma SlotsKept(slots: seq<Slot>, m: Mem, m': Mem, s: nat)
    requires SlotsOk(slots, m) && m'.held == m.held && m'.high == m.high && |m'.count| == |m.count|
    requires |m'.phys| == |m.phys|
    requires 1 <= s < NR_TASKS && slots[s].Live? && TablesOutside(m, m', Base(s), slots[s].dirs)
    ensures SlotsOk(slots, m')
  {
    forall d | SLOT_DIRS <= d < ENTRIES && m'.dir[d].present
      ensures slots[d / SLOT_DIRS].Live? && d % SLOT_DIRS < slots[d / SLOT_DIRS].dirs
    {
      if Base(s) <= d < Base(s) + slots[s].dirs {
        assert d / SLOT_DIRS == s;
      }
    }
  }

  lemma HeldSame(slots: seq<Slot>, held: seq<nat>, reserved: seq<nat>, s: nat, slot: Slot)
    requires HeldOk(slots, held, reserved)
    requires 1 <= s < |slots| && !slots[s].Empty? && !slot.Empty? && slot.page == slots[s].page
    ensures HeldOk(slots[s := slot], held, reserved)
  {
    forall f: nat
      ensures TaskPage(slots[s := slot], f) <==> TaskPage(slots, f)
    {
      if TaskPage(slots, f) {
        var t :| 1 <= t < |slots| && !slots[t].Empty? && slots[t].page == f;
        assert slots[s := slot][t].page == f;
      }
    }
  }

  lemma HeldMore(slots: seq<Slot>, m: Mem, reserved: seq<nat>, s: nat, slot: Slot)
    requires HeldOk(slots, m.held, reserved) && 1 <= s < |slots| && slots[s].Empty? && !slot.Empty?
    requires Counted(m, slot.page) && Held(m, slot.page) == 0
    ensures HeldOk(slots[s := slot], m.held[slot.page - LOW := 1], reserved)
  {
    var slots', k := slots[s := slot], slot.page - LOW;
    assert slots'[s].page == k + LOW;
    forall f: nat | f != slot.page
      ensures TaskPage(slots', f) <==> TaskPage(slots, f)
    {
      if TaskPage(slots, f) {
        var t :| 1 <= t < |slots| && !slots[t].Empty? && slots[t].page == f;
        assert slots'[t].page == f;
      }
    }
  }

  lemma HeldLess(slots: seq<Slot>, m: Mem, reserved: seq<nat>, s: nat)
    requires SlotsOk(slots, m) && HeldOk(slots, m.held, reserved) && 1 <= s < NR_TASKS && !slots[s].Empty?
    ensures Fresh(m, slots[s].page)
    ensures HeldOk(slots[s := Empty], m.held[slots[s].page - LOW := 0], reserved)
  {
    var slots', k := slots[s := Empty], slots[s].page - LOW;
    assert slots[s].page == k + LOW && TaskPage(slots, k + LOW);
    forall f: nat | f != slots[s].page
      ensures TaskPage(slots', f) <==> TaskPage(slots, f)
    {
      if TaskPage(slots, f) {
        var t :| 1 <= t < |slots| && !slots[t].Empty? && slots[t].page == f;
        assert slots'[t].page == f;
      }
    }
  }

  class Machine {
    const mm: MemoryManager
    const task: array<Slot>
    ghost const reserved: seq<nat>

    ghost predicate Valid()
      reads this, mm, mm.memMap, mm.pgDir, mm.phys, task
    {
      && task as object != mm && task as object != mm.memMap && task as object != mm.pgDir && task as object != mm.phys
      && task.Length == NR_TASKS && mm.Valid() && SlotsOk(task[..], mm.View())
      && HeldOk(task[..], mm.held, reserved)
    }

    /** Boot: only task 0 exists, and no user page is mapped. */
    constructor (start: nat, end: nat)
      requires LOW <= start <= end <= LOW + PAGING_PAGES
      ensures Valid() && View() == map[] && reserved == mm.memMap[..]
      ensures forall k: nat :: k < |reserved| ==> reserved[k] == if start <= k + LOW < end then 0 else USED
    {
      var m := new MemoryManager(start, end);
      mm := m;
      reserved := m.held;
      task := new Slot[NR_TASKS](s => if s == 0 then Live(0, 1) else Empty);
      new;
      assert forall k: nat :: k < |reserved| ==> reserved[k] == Count(mm.View(), k + LOW);
    }

    ghost function View(): map<Lin, seq<Word>>
      requires Valid()
      reads this, mm, mm.memMap, mm.pgDir, mm.phys, task
    {
      Abs(mm.View())
    }

    /** find_empty_process, without its pid counter: the first empty slot, 0 when all are taken. */
    method FindEmptyProcess() returns (nr: nat)
      requires Valid()
      ensures nr < NR_TASKS && FirstEmpty(task[..], nr)
    {
      nr := 1;
      while nr < NR_TASKS && !task[nr].Empty?
        invariant 1 <= nr <= NR_TASKS
        invariant forall t :: 1 <= t < nr ==> !task[t].Empty?
      {
        nr := nr + 1;
      }
      if nr == NR_TASKS { nr := 0; }
    }

    /** free_page_tables on a whole task, as exit and exec do. */
    method FreeSpace(s: nat)
      requires Valid() && 1 <= s < NR_TASKS && task[s].Live?
      modifies mm.memMap, mm.pgDir, mm.phys
      ensures Valid() && mm.held == old(mm.held) && task[..] == old(task[..])
      ensures View() == Apply(old(View()), Dropped(s))
      ensures forall d :: Base(s) <= d < Base(s) + SLOT_DIRS ==> !mm.pgDir[d].present
    {
      hide Inv, Abs, HeldOk, FreedUpTo, Apply;
      ghost var m0 := mm.View();
      mm.FreePageTables(Base(s), task[s].dirs);
      FreedTables(m0, mm.View(), Base(s), task[s].dirs);
      SlotsKept(task[..], m0, mm.View(), s);
      FreedSlot(task[..], m0, mm.View(), s);
    }

    /** do_exit (its memory half): the slot stays taken until it is waited for. */
    method DoExit(s: nat) returns (ghost e: Event)
      requires Valid() && 1 <= s < NR_TASKS && task[s].Live?
      modifies mm.memMap, mm.pgDir, mm.phys, task
      ensures Valid() && e == Dropped(s) && View() == Apply(old(View()), e)
      ensures task[..] == old(task[..])[s := Zombie(old(task[s].page))]
    {
      hide Inv, Abs, HeldOk, Apply;
      FreeSpace(s);
      HeldSame(task[..], mm.held, reserved, s, Zombie(task[s].page));
      task[s] := Zombie(task[s].page);
      e := Dropped(s);
    }

    /** do_execve (its memory half): the old space goes and the new limit is the whole slot. */
    method DoExec(s: nat) returns (ghost e: Event)
      requires Valid() && 1 <= s < NR_TASKS && task[s].Live?
      modifies mm.memMap, mm.pgDir, mm.phys, task
      ensures Valid() && e == Dropped(s) && View() == Apply(old(View()), e)
      ensures task[..] == old(task[..])[s := Live(old(task[s].page), SLOT_DIRS)]
    {
      hide Inv, Abs, HeldOk, Apply;
      FreeSpace(s);
      HeldSame(task[..], mm.held, reserved, s, Live(task[s].page, SLOT_DIRS));
      task[s] := Live(task[s].page, SLOT_DIRS);
      e := Dropped(s);
    }

    /** release: the task structure's frame goes back. */
    method Release(s: nat)
      requires Valid() && 1 <= s < NR_TASKS && task[s].Zombie?
      modifies mm`held, mm.memMap, task
      ensures Valid() && View() == old(View()) && task[..] == old(task[..])[s := Empty]
      ensures Counted(mm.View(), old(task[s].page)) && Count(mm.View(), old(task[s].page)) == 0
    {
      hide Inv, Abs, HeldOk;
      ghost var m0 := mm.View();
      HeldLess(task[..], m0, reserved, s);
      mm.GiveBack(task[s].page);
      task[s] := Empty;
    }

    /** The task page and the address space of a child in slot `nr`; 0 when memory runs out. */
    method CopyTask(p: nat, nr: nat) returns (page: nat)
      requires Valid() && p < NR_TASKS && task[p].Live? && 1 <= nr < NR_TASKS && FirstEmpty(task[..], nr)
      modifies mm`held, mm.memMap, mm.pgDir, mm.phys, task
      ensures Valid()
      ensures page == 0 ==> View() == old(View()) && task[..] == old(task[..]) && mm.memMap[..] == old(mm.memMap[..])
      ensures page != 0 <==> RoomToFork(old(task[..]), old(mm.View()), p)
      ensures page != 0 ==> task[..] == old(task[..])[nr := Live(page, old(task[p].dirs))]
      ensures page != 0 && p == 0 ==> View() == old(View()) + Copied(old(mm.View()), 0, Base(nr), 0, KERNEL_PAGES)
      ensures page != 0 && p != 0 ==>
        View() == old(View()) + EagerCopy(old(View()), Base(p), Base(nr), old(task[p].dirs))
    {
      hide Inv, Abs, Copied, EagerCopy, SlotsOk, HeldOk, CanFork, LowSame, FreeCount, TablesOutside, Tables;
      ghost var m0 := mm.View();
      var n := task[p].dirs;
      page := mm.GetFreePage();
      if page == 0 { return; }
      ghost var m1 := mm.View();
      AllocKeeps(m0, page);
      SlotDirsOk(task[..], m0, p);
      ForkReady(task[..], m0, m1, p, nr, page);
      var ok := mm.CopyMem(Base(p), Base(nr), n);
      ghost var m2 := mm.View();
      SameOutside(m0, m1, m2, Base(nr), n);
      if !ok {
        mm.GiveBack(page);
        SameDirs(m0, m2, mm.View(), Base(nr), n);
        NotForked(task[..], m0, mm.View(), nr, n);
        return 0;
      }
      ForkedSlots(task[..], m0, m2, p, nr, page);
      HeldMore(task[..], m0, reserved, nr, Live(page, n));
      task[nr] := Live(page, n);
      InvViews(m1);
      if p == 0 { LowCopied(m0, page, Base(nr)); } else { CopiedIsEager(m1, Base(p), Base(nr), n); }
    }

    /** copy_process (its memory half). */
    method CopyProcess(p: nat) returns (ghost e: Event)
      requires Valid() && p < NR_TASKS && task[p].Live?
      modifies mm`held, mm.memMap, mm.pgDir, mm.phys, task
      ensures Valid() && ForkGives(old(task[..]), old(mm.View()), p, e) && View() == Apply(old(View()), e)
      ensures NextSlots(old(task[..]), Fork(p), e, task[..]) && (e == Nothing ==> mm.memMap[..] == old(mm.memMap[..]))
    {
      hide Inv, Abs, Copied, EagerCopy, SlotsOk, HeldOk, RoomToFork;
      SlotDirsOk(task[..], mm.View(), p);
      var nr := FindEmptyProcess();
      if nr == 0 { return Nothing; }
      ghost var n := task[p].dirs;
      ghost var pages := Copied(mm.View(), 0, Base(nr), 0, KERNEL_PAGES);
      var page := CopyTask(p, nr);
      if page == 0 { return Nothing; }
      e := if p == 0 then FirstFork(nr, pages) else Forked(p, nr, n);
    }

    /** A store; a write fault that finds no memory kills the task. */
    method DoWrite(s: nat, k: nat, i: nat, off: nat, w: Word) returns (ghost e: Event)
      requires Valid()
      modifies mm`held, mm.memMap, mm.pgDir, mm.phys, task
      ensures Valid() && Explains(old(task[..]), old(mm.View()), Write(s, k, i, off, w), e)
      ensures View() == Apply(old(View()), e)
      ensures NextSlots(old(task[..]), Write(s, k, i, off, w), e, task[..])
    {
      hide Inv, Abs, SlotsOk, HeldOk, FreeCount, Mapped;
      if !(1 <= s < NR_TASKS && task[s].Live? && k < task[s].dirs && i < ENTRIES && off < ENTRIES) { return Nothing; }
      SlotDirsOk(task[..], mm.View(), s);
      var present := mm.Present(Base(s) + k, i);
      if !present { return Nothing; }
      ghost var m0 := mm.View();
      var ok := mm.UserStore(Base(s) + k, i, off, w);
      SlotsKept(task[..], m0, mm.View(), s);
      if ok {
        e := Wrote(Lin(Base(s) + k, i), off, w);
      } else {
        e := DoExit(s);
      }
    }

    /** A fault on a page that is not there: `page` is what do_no_page fills it with. */
    method DoTouch(s: nat, k: nat, i: nat, page: seq<Word>) returns (ghost e: Event)
      requires Valid()
      modifies mm`held, mm.memMap, mm.pgDir, mm.phys, task
      ensures Valid() && Explains(old(task[..]), old(mm.View()), Touch(s, k, i, page), e)
      ensures View() == Apply(old(View()), e)
      ensures NextSlots(old(task[..]), Touch(s, k, i, page), e, task[..])
    {
      hide Inv, Abs, SlotsOk, HeldOk, FreeCount, Mapped;
      if !(1 <= s < NR_TASKS && task[s].Live? && k < task[s].dirs && i < ENTRIES && |page| == ENTRIES) {
        return Nothing;
      }
      SlotDirsOk(task[..], mm.View(), s);
      var present := mm.Present(Base(s) + k, i);
      if present { return Nothing; }
      ghost var m0 := mm.View();
      var ok := mm.AddPage(Base(s) + k, i, page);
      SlotsKept(task[..], m0, mm.View(), s);
      if ok {
        e := Added(Lin(Base(s) + k, i), page);
      } else {
        e := DoExit(s);
      }
    }

    /** share_page with one other task. */
    method DoShare(s: nat, p: nat, k: nat, i: nat) returns (ghost e: Event)
      requires Valid()
      modifies mm`held, mm.memMap, mm.pgDir, mm.phys, task
      ensures Valid() && Explains(old(task[..]), old(mm.View()), Share(s, p, k, i), e)
      ensures View() == Apply(old(View()), e)
      ensures NextSlots(old(task[..]), Share(s, p, k, i), e, task[..])
    {
      hide Inv, Abs, SlotsOk, HeldOk, FreeCount, Mapped, Sharable, LowSame;
      if !(1 <= s < NR_TASKS && task[s].Live? && k < task[s].dirs && i < ENTRIES) { return Nothing; }
      if !(1 <= p < NR_TASKS && task[p].Live? && k < task[p].dirs && p != s) { return Nothing; }
      SlotDirsOk(task[..], mm.View(), s);
      SlotDirsOk(task[..], mm.View(), p);
      var present := mm.Present(Base(s) + k, i);
      if present { return Nothing; }
      ghost var m0 := mm.View();
      var shared, oom := mm.TryToShare(Base(p) + k, Base(s) + k, i);
      SlotsKept(task[..], m0, mm.View(), s);
      if shared {
        e := CopiedFrom(Lin(Base(s) + k, i), Lin(Base(p) + k, i));
      } else if oom {
        e := DoExit(s);
      } else {
        e := Nothing;
      }
    }

    method DoStep(s: Step) returns (ghost e: Event)
      requires Valid()
      modifies mm`held, mm.memMap, mm.pgDir, mm.phys, task
      ensures Valid() && Explains(old(task[..]), old(mm.View()), s, e) && View() == Apply(old(View()), e)
      ensures NextSlots(old(task[..]), s, e, task[..])
    {
      hide Inv, Abs, SlotsOk, HeldOk, FreeCount, Mapped;
      e := Nothing;
      match s
      case Fork(p) => if p < NR_TASKS && task[p].Live? { e := CopyProcess(p); }
      case Write(s, k, i, off, w) => e := DoWrite(s, k, i, off, w);
      case Touch(s, k, i, page) => e := DoTouch(s, k, i, page);
      case Share(s, p, k, i) => e := DoShare(s, p, k, i);
      case Exec(s) => if 1 <= s < NR_TASKS && task[s].Live? { e := DoExec(s); }
      case Exit(s) => if 1 <= s < NR_TASKS && task[s].Live? { e := DoExit(s); }
      case Reap(s) => if 1 <= s < NR_TASKS && task[s].Zombie? { Release(s); }
    }

    /**
      Copy-on-write cannot be told from eager copying: in every state of every run the user's view is
      what the reference machine has computed by then, the task table has followed its events, and
      the invariant holds (counts exact, a writable page in one place).
     */
    method Run(steps: seq<Step>) returns (ghost log: seq<Event>, ghost states: seq<(seq<Slot>, Mem)>)
      requires Valid()
      modifies mm`held, mm.memMap, mm.pgDir, mm.phys, task
      ensures Valid() && |log| == |steps|
      ensures IsRun(steps, log, states) && Mirrors(old(View()), reserved, log, states)
      ensures states[0] == (old(task[..]), old(mm.View())) && states[|steps|] == (task[..], mm.View())
    {
      hide Inv, Abs, SlotsOk, HeldOk, Apply, Explains, NextSlots;
      log, states := [], [(task[..], mm.View())];
      ghost var v0 := View();
      MirrorsStart(v0, reserved, states);
      for n := 0 to |steps|
        invariant Valid() && |log| == n && |states| == n + 1 && View() == Replay(v0, log)
        invariant states[0] == (old(task[..]), old(mm.View())) && states[n] == (task[..], mm.View())
        invariant IsRun(steps[..n], log, states) && Mirrors(v0, reserved, log, states)
      {
        assert steps[..n + 1][..n] == steps[..n];
        ghost var e := DoStep(steps[n]);
        MoreRun(steps[..n + 1], log, states, e, (task[..], mm.View()));
        MoreMirrors(v0, reserved, log, states, e, (task[..], mm.View()));
        log, states := log + [e], states + [(task[..], mm.View())];
      }
      assert steps[..|steps|] == steps;
    }
  }

  /** Each event is what its step turns into, and the task table follows. */
  ghost predicate IsRun(steps: seq<Step>, log: seq<Event>, states: seq<(seq<Slot>, Mem)>) {
    |log| == |steps| && |states| == |steps| + 1 && forall i: nat :: i < |steps| ==> Follows(steps, log, states, i)
  }

  ghost predicate Follows(steps: seq<Step>, log: seq<Event>, states: seq<(seq<Slot>, Mem)>, i: nat) {
    && i < |steps| == |log| == |states| - 1
    && Explains(states[i].0, states[i].1, steps[i], log[i]) && NextSlots(states[i].0, steps[i], log[i], states[i + 1].0)
  }

  /** Every state is sound and reads as the reference machine does after the same events. */
  ghost predicate Mirrors(v: map<Lin, seq<Word>>, reserved: seq<nat>, log: seq<Event>,
          states: seq<(seq<Slot>, Mem)>) {
    |states| == |log| + 1 && forall i: nat :: i < |states| ==> Mirror(states[i], reserved, Replay(v, log[..i]))
  }

  ghost predicate Mirror(state: (seq<Slot>, Mem), reserved: seq<nat>, v: map<Lin, seq<Word>>) {
    && Inv(state.1) && SlotsOk(state.0, state.1) && HeldOk(state.0, state.1.held, reserved)
    && Abs(state.1) == v
  }

  lemma MirrorsStart(v: map<Lin, seq<Word>>, reserved: seq<nat>, states: seq<(seq<Slot>, Mem)>)
    requires |states| == 1 && Mirror(states[0], reserved, v)
    ensures Mirrors(v, reserved, [], states) && IsRun([], [], states)
  {
  }

  lemma MoreRun(steps: seq<Step>, log: seq<Event>, states: seq<(seq<Slot>, Mem)>, e: Event, state: (seq<Slot>, Mem))
    requires |steps| == |log| + 1 && IsRun(steps[..|log|], log, states)
    requires Explains(states[|log|].0, states[|log|].1, steps[|log|], e)
    requires NextSlots(states[|log|].0, steps[|log|], e, state.0)
    ensures IsRun(steps, log + [e], states + [state])
  {
    hide Explains, NextSlots;
    var log', states' := log + [e], states + [state];
    forall i: nat | i < |steps|
      ensures Follows(steps, log', states', i)
    {
      assert i < |log| ==> Follows(steps[..|log|], log, states, i);
    }
  }

  lemma MoreMirrors(v: map<Lin, seq<Word>>, reserved: seq<nat>, log: seq<Event>, states: seq<(seq<Slot>, Mem)>,
          e: Event, state: (seq<Slot>, Mem))
    requires Mirrors(v, reserved, log, states) && Mirror(state, reserved, Apply(Replay(v, log), e))
    ensures Mirrors(v, reserved, log + [e], states + [state]) && Replay(v, log + [e]) == Apply(Replay(v, log), e)
  {
    hide Mirror, Apply;
    var log', states' := log + [e], states + [state];
    assert log'[..|log|] == log && log'[..|log'|] == log';
    forall i: nat | i < |states'|
      ensures Mirror(states'[i], reserved, Replay(v, log'[..i]))
    {
      assert i <= |log| ==> log'[..i] == log[..i];
    }
  }

  /** Taking a frame for the child's task page does not touch what task 0 hands on. */
  lemma LowCopied(m: Mem, f: nat, to: nat)
    requires Inv(m) && Counted(m, f) && |m.phys| == LOW + |m.count|
    ensures Copied(Alloc(m, f), 0, to, 0, KERNEL_PAGES) == Copied(m, 0, to, 0, KERNEL_PAGES)
  {
    var m' := Alloc(m, f);
    forall b: Lin | Passed(b, to, 0, KERNEL_PAGES)
      ensures Entry(m', Source(b, 0, to)) == Entry(m, Source(b, 0, to))
      ensures Entry(m, Source(b, 0, to)).present ==> Content(m', Source(b, 0, to)) == Content(m, Source(b, 0, to))
    {
      assert Source(b, 0, to) == Lin(0, b.i);
    }
  }

  lemma SameOutside(m: Mem, m1: Mem, m2: Mem, first: nat, n: nat)
    requires m1.dir == m.dir && TablesOutside(m1, m2, first, n)
    ensures TablesOutside(m, m2, first, n)
  {
  }

  lemma SameDirs(m: Mem, m1: Mem, m2: Mem, first: nat, n: nat)
    requires TablesOutside(m, m1, first, n) && m2.dir == m1.dir
    ensures TablesOutside(m, m2, first, n)
  {
  }

  lemma FreedTables(m0: Mem, m: Mem, first: nat, n: nat)
    requires FreedUpTo(m0, m, first, n, 0)
    ensures TablesOutside(m0, m, first, n)
  {
  }

  lemma SlotDirsOk(slots: seq<Slot>, m: Mem, p: nat)
    requires SlotsOk(slots, m) && p < NR_TASKS && slots[p].Live?
    ensures slots[p].dirs <= SLOT_DIRS && (p == 0 ==> slots[p].dirs == 1)
  {
  }

  lemma ForkReady(slots: seq<Slot>, m0: Mem, m1: Mem, p: nat, nr: nat, page: nat)
    requires SlotsOk(slots, m0) && p < NR_TASKS && slots[p].Live? && 1 <= nr < NR_TASKS && slots[nr].Empty?
    requires m1.dir == m0.dir
    ensures CanFork(m1, Base(p), Base(nr), slots[p].dirs)
  {
    forall d | Base(nr) <= d < Base(nr) + slots[p].dirs
      ensures !m1.dir[d].present
    {
      assert d / SLOT_DIRS == nr;
    }
  }

  lemma ForkedSlots(slots: seq<Slot>, m0: Mem, m2: Mem, p: nat, nr: nat, page: nat)
    requires SlotsOk(slots, m0) && p < NR_TASKS && slots[p].Live? && 1 <= nr < NR_TASKS && slots[nr].Empty?
    requires Counted(m0, page) && page < m0.high && page < |m0.phys| && Held(m0, page) == 0
    requires m2.held == m0.held[page - LOW := 1] && m2.high == m0.high && |m2.count| == |m0.count|
    requires |m2.phys| == |m0.phys|
    requires TablesOutside(m0, m2, Base(nr), slots[p].dirs)
    ensures SlotsOk(slots[nr := Live(page, slots[p].dirs)], m2)
  {
    forall d | SLOT_DIRS <= d < ENTRIES && m2.dir[d].present
      ensures var x := slots[nr := Live(page, slots[p].dirs)][d / SLOT_DIRS]; x.Live? && d % SLOT_DIRS < x.dirs
    {
      if Base(nr) <= d < Base(nr) + slots[p].dirs {
        assert d / SLOT_DIRS == nr && d % SLOT_DIRS == d - Base(nr);
      } else {
        assert m0.dir[d].present;
      }
    }
  }

  lemma NotForked(slots: seq<Slot>, m0: Mem, m: Mem, nr: nat, n: nat)
    requires SlotsOk(slots, m0) && 1 <= nr < NR_TASKS && n <= SLOT_DIRS
    requires m.held == m0.held && m.high == m0.high && |m.count| == |m0.count| && |m.phys| == |m0.phys|
    requires TablesOutside(m0, m, Base(nr), n) && forall d :: Base(nr) <= d < Base(nr) + n ==> !m.dir[d].present
    ensures SlotsOk(slots, m)
  {
  }
}
