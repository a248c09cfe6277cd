/**
  fs/exec.c: the strings of execve are copied backwards into up to 32 pages, the pages become the top
  of the new data segment, and the strings are parsed forwards there into the argv and envp tables.

  Memory holds byte values; pointers are little-endian 32-bit words.  A string is its bytes without
  the closing zero.
 */
module ExecArgs {
  import opened Common

  const PAGE: nat := 4096
  const MAX_ARG_PAGES: nat := 32
  const TOP: nat := 131072               // MAX_ARG_PAGES * PAGE
  const DATA_LIMIT: nat := 0x4000000
  const BASE: nat := 0x3FE0000           // DATA_LIMIT - TOP
  const LONGS: nat := 0x1_0000_0000

  // ---------------------------------------------------------------- strings in memory

  predicate GoodString(s: seq<nat>) {
    forall i :: 0 <= i < |s| ==> s[i] != 0
  }

  predicate GoodStrings(all: seq<seq<nat>>) {
    forall k :: 0 <= k < |all| ==> GoodString(all[k])
  }

  function Text(s: seq<nat>): seq<nat> { s + [0] }

  /** The strings one after the other, each with its closing zero. */
  function Flatten(all: seq<seq<nat>>): seq<nat> {
    if all == [] then [] else Text(all[0]) + Flatten(all[1..])
  }

  lemma {:induction false} FlattenAppend(a: seq<seq<nat>>, b: seq<seq<nat>>)
    ensures Flatten(a + b) == Flatten(a) + Flatten(b)
  {
    if a == [] {
      assert a + b == b;
    } else {
      FlattenAppend(a[1..], b);
      assert (a + b)[1..] == a[1..] + b;
    }
  }

  /** Where string `k` starts. */
  function Start(all: seq<seq<nat>>, k: nat): nat
    requires k <= |all|
  {
    |Flatten(all[..k])|
  }

  lemma StartNext(all: seq<seq<nat>>, k: nat)
    requires k < |all|
    ensures Start(all, k + 1) == Start(all, k) + |all[k]| + 1 <= |Flatten(all)|
    ensures Flatten(all)[Start(all, k)..Start(all, k + 1)] == Text(all[k])
  {
    assert all[..k + 1] == all[..k] + [all[k]];
    FlattenAppend(all[..k], [all[k]]);
    assert Flatten([all[k]]) == Text(all[k]);
    assert all == all[..k + 1] + all[k + 1..];
    FlattenAppend(all[..k + 1], all[k + 1..]);
  }

  /** Every string takes at least a byte. */
  lemma {:induction false} FlattenLong(all: seq<seq<nat>>)
    ensures |all| <= |Flatten(all)|
  {
    if all != [] { FlattenLong(all[1..]); }
  }

  /** The C string at an address. */
  ghost predicate CString(m: seq<nat>, a: nat, s: seq<nat>) {
    a + |s| < |m| && m[a..a + |s| + 1] == Text(s)
  }

  function Long(m: seq<nat>, a: nat): nat {
    if a + 4 <= |m| then m[a] + 0x100 * m[a + 1] + 0x10000 * m[a + 2] + 0x1000000 * m[a + 3] else 0
  }

  // ---------------------------------------------------------------- copy_strings

  function At(page: seq<Option<seq<nat>>>, x: nat): nat {
    if x / PAGE < |page| && page[x / PAGE].Some? && x % PAGE < |page[x / PAGE].value| then
      page[x / PAGE].value[x % PAGE]
    else 0
  }

  /** `bytes` lie at `p`. */
  ghost predicate Lies(page: seq<Option<seq<nat>>>, p: nat, bytes: seq<nat>) {
    forall x: nat :: p <= x < p + |bytes| ==> At(page, x) == bytes[x - p]
  }

  /** How many of the pages have been taken. */
  function Used(page: seq<Option<seq<nat>>>): nat {
    if page == [] then 0
    else Used(page[..|page| - 1]) + if page[|page| - 1].Some? then 1 else 0
  }

  lemma {:induction false} UsedSet(page: seq<Option<seq<nat>>>, i: nat, v: seq<nat>)
    requires i < |page|
    ensures Used(page[i := Some(v)]) == Used(page) + if page[i].Some? then 0 else 1
  {
    var n := |page| - 1;
    if i < n {
      UsedSet(page[..n], i, v);
      assert page[i := Some(v)][..n] == page[..n][i := Some(v)];
    } else {
      assert page[i := Some(v)][..n] == page[..n];
    }
  }

  lemma {:induction false} NoneUsed(page: seq<Option<seq<nat>>>)
    requires forall i :: 0 <= i < |page| ==> page[i] == None
    ensures Used(page) == 0
  {
    if page != [] { NoneUsed(page[..|page| - 1]); }
  }

  /** The pages that bytes `lo` to `hi` touch and that are not there yet. */
  ghost function Missing(page: seq<Option<seq<nat>>>, lo: nat, hi: nat): set<int> {
    set i | 0 <= i < |page| && Touches(lo, hi, i) && page[i].None?
  }

  predicate Touches(lo: nat, hi: nat, i: int) {
    lo < hi && lo < (i + 1) * PAGE && i * PAGE < hi
  }

  lemma TouchedTo(lo: nat, x: nat, i: int)
    requires lo <= x
    ensures Touches(lo, x + 1, i) <==> Touches(lo, x, i) || i == x / PAGE
  {
    assert i == x / PAGE <==> i * PAGE <= x < (i + 1) * PAGE;
  }

  /** The free pages that will be left when `lo` to `hi` is written; negative when they do not suffice. */
  ghost function Spare(page: seq<Option<seq<nat>>>, free: nat, lo: nat, hi: nat): int {
    free - |Missing(page, lo, hi)|
  }

  lemma MissingStep(page: seq<Option<seq<nat>>>, page': seq<Option<seq<nat>>>, lo: nat, x: nat)
    requires lo <= x && x / PAGE < |page| == |page'| && page'[x / PAGE].Some?
    requires page' == page[x / PAGE := page'[x / PAGE]]
    ensures |Missing(page, lo, x + 1)| == |Missing(page', lo, x)| + if page[x / PAGE].None? then 1 else 0
  {
    hide Touches;
    var i, was, left := x / PAGE, Missing(page, lo, x + 1), Missing(page', lo, x);
    forall j | 0 <= j < |page|
      ensures j in was <==> j in left || (j == i && page[i].None?)
    {
      TouchedTo(lo, x, j);
    }
    if page[i].None? { assert was == left + {i}; } else { assert was == left; }
  }

  class ArgPages {
    const page: array<Option<seq<nat>>>
    var free: nat

    ghost predicate Valid()
      reads this, page
    {
      page.Length == MAX_ARG_PAGES && forall i :: 0 <= i < page.Length && page[i].Some? ==> |page[i].value| == PAGE
    }

    /** The pages taken and the pages left. */
    ghost function Total(): nat
      reads this, page
    {
      free + Used(page[..])
    }

    /** `free` pages are left for get_free_page. */
    constructor (free: nat)
      ensures Valid() && fresh(page) && Total() == free && forall x: nat :: At(page[..], x) == 0
    {
      page := new Option<seq<nat>>[MAX_ARG_PAGES](_ => None);
      this.free := free;
      new;
      NoneUsed(page[..]);
    }

    /** The page for `p`, a new zeroed one if there is none yet; false if there is no memory. */
    method Reach(p: nat) returns (ok: bool)
      requires Valid() && p < TOP
      modifies this, page
      ensures Valid() && Total() == old(Total()) && (ok <==> old(page[p / PAGE]).Some? || old(free) > 0)
      ensures ok ==> page[p / PAGE].Some? && forall x: nat :: At(page[..], x) == At(old(page[..]), x)
      ensures page[..] == old(page[..])[p / PAGE := page[p / PAGE]]
      ensures ok ==> free == old(free) - if old(page[p / PAGE]).None? then 1 else 0
    {
      if page[p / PAGE] == None {
        if free == 0 { return false; }
        UsedSet(page[..], p / PAGE, seq(PAGE, _ => 0));
        free := free - 1;
        page[p / PAGE] := Some(seq(PAGE, _ => 0));
      }
      return true;
    }

    /** `offset` and `pag` remember the place of `p` while it stays inside one page. */
    ghost predicate Cached(p: nat, offset: nat, pag: nat)
      reads page
    {
      offset == 0 || (offset == p % PAGE && pag == p / PAGE && pag < page.Length && page[pag].Some?)
    }

    /** Copy one string with its closing zero, last byte first, to just below `p`. */
    method CopyText(text: seq<nat>, p: nat, offset: nat, pag: nat, ghost lo: nat)
      returns (ok: bool, p': nat, offset': nat, pag': nat)
      requires Valid() && lo + |text| <= p <= TOP && Cached(p, offset, pag)
      modifies this, page
      ensures Valid() && Total() == old(Total())
      ensures if ok then Spare(page[..], free, lo, p') == old(Spare(page[..], free, lo, p))
              else old(Spare(page[..], free, lo, p)) < 0
      ensures ok ==> p' == p - |text| && Cached(p', offset', pag') && Lies(page[..], p', text)
      ensures ok ==> forall x: nat :: !(p' <= x < p) ==> At(page[..], x) == At(old(page[..]), x)
    {
      hide Used;
      ok, p', offset', pag' := true, p, offset, pag;
      ghost var before := page[..];
      var len: nat := |text|;
      while len > 0
        invariant len <= |text| && p' == p - |text| + len && Valid() && Cached(p', offset', pag')
        invariant Total() == old(Total()) && Spare(page[..], free, lo, p') == old(Spare(page[..], free, lo, p))
        invariant Lies(page[..], p', text[len..])
        invariant forall x: nat :: !(p' <= x < p) ==> At(page[..], x) == At(before, x)
      {
        ghost var had := page[..];
        p', len := p' - 1, len - 1;
        if offset' > 0 {
          offset' := offset' - 1;
        } else {
          offset', pag' := p' % PAGE, p' / PAGE;
          ok := Reach(p');
          if !ok {
            assert pag' in Missing(had, lo, p' + 1);
            return;
          }
        }
        assert page[pag'].Some? && offset' == p' % PAGE && pag' == p' / PAGE;
        ghost var now := page[..];
        UsedSet(now, pag', now[pag'].value[offset' := text[len]]);
        page[pag'] := Some(page[pag'].value[offset' := text[len]]);
        OneByte(now, page[..], p', text[len]);
        MissingStep(had, page[..], lo, p');
      }
    }

    /**
      copy_strings: the strings end up one after the other in front of `p`, in order.  The source's
      test for too many strings compares an unsigned number with 0 and never fires, so that they fit
      is up to the caller.
     */
    method CopyStrings(argv: seq<seq<nat>>, p: nat, ghost lo: nat) returns (q: nat)
      requires Valid() && (p == 0 || lo + |Flatten(argv)| <= p <= TOP) && GoodStrings(argv)
      modifies this, page
      ensures Valid() && (p == 0 ==> q == 0 && free == old(free) && page[..] == old(page[..]))
      ensures Total() == old(Total())
      ensures q != 0 ==> Spare(page[..], free, lo, q) == old(Spare(page[..], free, lo, p))
      ensures p != 0 && q == 0 ==> old(Spare(page[..], free, lo, p)) < 0 || |Flatten(argv)| == p
      ensures q != 0 ==> q == p - |Flatten(argv)| && Lies(page[..], q, Flatten(argv))
      ensures q != 0 ==> forall x: nat :: !(q <= x < p) ==> At(page[..], x) == At(old(page[..]), x)
    {
      hide Flatten, Used, At, Spare;
      if p == 0 { return 0; }
      ghost var before := page[..];
      q := p;
      var argc, offset, pag := |argv|, 0, 0;
      assert argv[argc..] == [];
      NoStrings(before, p);
      while argc > 0
        invariant argc <= |argv| && Valid() && q == p - |Flatten(argv[argc..])| && Cached(q, offset, pag)
        invariant Total() == old(Total()) && Spare(page[..], free, lo, q) == old(Spare(page[..], free, lo, p))
        invariant Lies(page[..], q, Flatten(argv[argc..]))
        invariant forall x: nat :: !(q <= x < p) ==> At(page[..], x) == At(before, x)
      {
        argc := argc - 1;
        FlattenFrom(argv, argc);
        var text := Text(argv[argc]);
        var len := Length(text);
        var ok, at;
        ghost var now := page[..];
        ok, at, offset, pag := CopyText(text[..len], q, offset, pag, lo);
        if !ok { return 0; }
        LiesMore(now, page[..], at, text, Flatten(argv[argc + 1..]));
        q := at;
      }
      assert argv[0..] == argv;
    }

    /** change_ldt: the pages become the top of a data segment that reads as zero elsewhere. */
    method ChangeLdt(mem: array<nat>)
      requires Valid() && mem.Length == DATA_LIMIT && forall x :: 0 <= x < mem.Length ==> mem[x] == 0
      modifies mem
      ensures forall x: nat :: BASE <= x < DATA_LIMIT ==> mem[x] == At(page[..], x - BASE)
      ensures forall x: nat :: x < BASE ==> mem[x] == 0
    {
      var base, i := DATA_LIMIT, MAX_ARG_PAGES;
      while i > 0
        invariant 0 <= i <= MAX_ARG_PAGES && base == BASE + i * PAGE
        invariant forall x: nat :: base <= x < DATA_LIMIT ==> mem[x] == At(page[..], x - BASE)
        invariant forall x :: 0 <= x < base ==> mem[x] == 0
      {
        i := i - 1;
        base := base - PAGE;
        if page[i].Some? {
          forall j | 0 <= j < PAGE {
            mem[base + j] := page[i].value[j];
          }
        }
      }
    }
  }

  /** The bytes of a string up to and with its first zero. */
  method Length(text: seq<nat>) returns (len: nat)
    requires text != [] && text[|text| - 1] == 0
    ensures 0 < len <= |text| && text[len - 1] == 0 && GoodString(text[..len - 1])
  {
    len := 1;
    while text[len - 1] != 0
      invariant 0 < len <= |text| && GoodString(text[..len - 1])
      decreases |text| - len
    {
      len := len + 1;
      assert text[..len - 1] == text[..len - 2] + [text[len - 2]];
    }
  }

  lemma OneByte(page: seq<Option<seq<nat>>>, page': seq<Option<seq<nat>>>, p: nat, c: nat)
    requires p / PAGE < |page| && page[p / PAGE].Some? && |page[p / PAGE].value| == PAGE
    requires page' == page[p / PAGE := Some(page[p / PAGE].value[p % PAGE := c])]
    ensures At(page', p) == c && forall x: nat :: x != p ==> At(page', x) == At(page, x)
  {
    forall x: nat | x != p
      ensures At(page', x) == At(page, x)
    {
      assert x / PAGE == p / PAGE ==> x % PAGE != p % PAGE;
    }
  }

  lemma FlattenFrom(all: seq<seq<nat>>, k: nat)
    requires k < |all|
    ensures Flatten(all[k..]) == Text(all[k]) + Flatten(all[k + 1..]) && |Flatten(all[k..])| <= |Flatten(all)|
  {
    assert all[k..][1..] == all[k + 1..];
    assert all == all[..k] + all[k..];
    FlattenAppend(all[..k], all[k..]);
  }

  lemma NoStrings(page: seq<Option<seq<nat>>>, p: nat)
    ensures Flatten([]) == [] && Lies(page, p, [])
  {
  }

  lemma LiesMore(page: seq<Option<seq<nat>>>, page': seq<Option<seq<nat>>>, p: nat, text: seq<nat>, rest: seq<nat>)
    requires Lies(page', p, text) && Lies(page, p + |text|, rest)
    requires forall x: nat :: !(p <= x < p + |text|) ==> At(page', x) == At(page, x)
    ensures Lies(page', p, text + rest)
  {
  }

  // ---------------------------------------------------------------- create_tables

  /** Nothing but the bytes from `lo` to `hi` has changed. */
  ghost predicate Outside(m: seq<nat>, m': seq<nat>, lo: nat, hi: nat) {
    |m'| == |m| && forall x :: 0 <= x < |m| && !(lo <= x < hi) ==> m'[x] == m[x]
  }

  lemma OutsideBoth(a: seq<nat>, b: seq<nat>, c: seq<nat>, lo: nat, mid: nat, hi: nat)
    requires lo <= mid <= hi && Outside(a, b, lo, mid) && Outside(b, c, mid, hi)
    ensures Outside(a, c, lo, hi)
  {
  }

  /** put_fs_long. */
  method PutLong(mem: array<nat>, a: nat, v: nat)
    requires a + 4 <= mem.Length && v < LONGS
    modifies mem
    ensures Long(mem[..], a) == v && Outside(old(mem[..]), mem[..], a, a + 4)
    ensures v == mem[a] + 0x100 * (mem[a + 1] + 0x100 * (mem[a + 2] + 0x100 * mem[a + 3]))
  {
    mem[a] := v % 0x100;
    mem[a + 1] := v / 0x100 % 0x100;
    mem[a + 2] := v / 0x100 / 0x100 % 0x100;
    mem[a + 3] := v / 0x100 / 0x100 / 0x100;
    ghost var low := v / 0x100;
    assert v == v % 0x100 + 0x100 * low && low == low % 0x100 + 0x100 * (low / 0x100);
  }

  lemma LongKept(m: seq<nat>, m': seq<nat>, a: nat, lo: nat, hi: nat)
    requires Outside(m, m', lo, hi) && (a + 4 <= lo || hi <= a)
    ensures Long(m', a) == Long(m, a)
  {
  }

  /** The strings lie at `p`, in the memory that ends with `m`. */
  ghost predicate Packed(m: seq<nat>, p: nat, all: seq<seq<nat>>) {
    p + |Flatten(all)| <= |m| && m[p..p + |Flatten(all)|] == Flatten(all)
  }

  lemma PackedKept(m: seq<nat>, m': seq<nat>, p: nat, all: seq<seq<nat>>, lo: nat, hi: nat)
    requires Packed(m, p, all) && Outside(m, m', lo, hi) && hi <= p
    ensures Packed(m', p, all)
  {
    assert m'[p..p + |Flatten(all)|] == m[p..p + |Flatten(all)|];
  }

  lemma PackedString(m: seq<nat>, p: nat, all: seq<seq<nat>>, k: nat)
    requires Packed(m, p, all) && k < |all|
    ensures CString(m, p + Start(all, k), all[k])
  {
    hide Flatten, Start;
    StartNext(all, k);
    Slices(m, p, p + |Flatten(all)|, Start(all, k), Start(all, k + 1));
  }

  lemma Slices(m: seq<nat>, lo: nat, hi: nat, a: nat, b: nat)
    requires lo <= hi <= |m| && a <= b <= hi - lo
    ensures m[lo..hi][a..b] == m[lo + a..lo + b]
  {
    var s, t := m[lo..hi][a..b], m[lo + a..lo + b];
    forall i | 0 <= i < b - a
      ensures s[i] == t[i]
    {
      assert s[i] == m[lo + a + i];
    }
  }

  /** Entries `..k` of a pointer table hold the addresses of the strings from `from` on. */
  ghost predicate Filled(m: seq<nat>, table: nat, k: nat, p: nat, all: seq<seq<nat>>, from: nat) {
    from + k <= |all| && forall j: nat :: j < k ==> Entry(m, table, j, p, all, from)
  }

  ghost predicate Entry(m: seq<nat>, table: nat, j: nat, p: nat, all: seq<seq<nat>>, from: nat) {
    from + j <= |all| && table + 4 * j + 4 <= |m| && Long(m, table + 4 * j) == p + Start(all, from + j)
  }

  lemma FilledKept(m: seq<nat>, m': seq<nat>, table: nat, k: nat, p: nat, all: seq<seq<nat>>, from: nat, lo: nat,
          hi: nat)
    requires Filled(m, table, k, p, all, from) && Outside(m, m', lo, hi) && table + 4 * k <= lo
    ensures Filled(m', table, k, p, all, from)
  {
    hide Long, Start, Outside;
    SameSize(m, m', lo, hi);
    forall j: nat | j < k
      ensures Entry(m', table, j, p, all, from)
    {
      assert Entry(m, table, j, p, all, from);
      LongKept(m, m', table + 4 * j, lo, hi);
    }
  }

  lemma SameSize(m: seq<nat>, m': seq<nat>, lo: nat, hi: nat)
    requires Outside(m, m', lo, hi)
    ensures |m'| == |m|
  {
  }

  lemma FilledMore(m: seq<nat>, table: nat, k: nat, p: nat, all: seq<seq<nat>>, from: nat)
    requires Filled(m, table, k, p, all, from) && Entry(m, table, k, p, all, from) && from + k < |all|
    ensures Filled(m, table, k + 1, p, all, from)
  {
  }

  /** One of the two loops of create_tables, with the null pointer at its end. */
  method FillTable(mem: array<nat>, table: nat, count: nat, at: nat, ghost p: nat, ghost all: seq<seq<nat>>,
          ghost from: nat)
    returns (at': nat)
    requires Packed(mem[..], p, all) && GoodStrings(all) && from + count <= |all| && at == p + Start(all, from)
    requires table + 4 * count + 4 <= p && mem.Length < LONGS
    modifies mem
    ensures Filled(mem[..], table, count, p, all, from) && Long(mem[..], table + 4 * count) == 0
    ensures at' == p + Start(all, from + count) && Packed(mem[..], p, all)
    ensures Outside(old(mem[..]), mem[..], table, table + 4 * count + 4)
  {
    hide Filled, Packed, Start, Long, Outside, GoodStrings;
    at' := at;
    var k := 0;
    ghost var before := mem[..];
    NothingFilled(before, table, p, all, from);
    PackedEnd(before, p, all);
    while k < count
      invariant k <= count && at' == p + Start(all, from + k) && Filled(mem[..], table, k, p, all, from)
      invariant Outside(before, mem[..], table, table + 4 * k) && Packed(mem[..], p, all)
    {
      StartNext(all, from + k);
      ghost var m := mem[..];
      PutLong(mem, table + 4 * k, at');
      FilledKept(m, mem[..], table, k, p, all, from, table + 4 * k, table + 4 * k + 4);
      FilledMore(mem[..], table, k, p, all, from);
      PackedKept(m, mem[..], p, all, table + 4 * k, table + 4 * k + 4);
      OutsideBoth(before, m, mem[..], table, table + 4 * k, table + 4 * k + 4);
      at' := Skip(mem, at', p, all, from + k);
      k := k + 1;
    }
    ghost var m := mem[..];
    PutLong(mem, table + 4 * count, 0);
    FilledKept(m, mem[..], table, count, p, all, from, table + 4 * count, table + 4 * count + 4);
    PackedKept(m, mem[..], p, all, table + 4 * count, table + 4 * count + 4);
    OutsideBoth(before, m, mem[..], table, table + 4 * count, table + 4 * count + 4);
  }

  lemma NothingFilled(m: seq<nat>, table: nat, p: nat, all: seq<seq<nat>>, from: nat)
    requires from <= |all|
    ensures Filled(m, table, 0, p, all, from) && Outside(m, m, table, table)
  {
  }

  lemma PackedEnd(m: seq<nat>, p: nat, all: seq<seq<nat>>)
    requires Packed(m, p, all)
    ensures p + |Flatten(all)| <= |m|
  {
  }

  /** Past the closing zero of a string. */
  method Skip(mem: array<nat>, at: nat, ghost p: nat, ghost all: seq<seq<nat>>, ghost k: nat) returns (at': nat)
    requires Packed(mem[..], p, all) && GoodStrings(all) && k < |all| && at == p + Start(all, k)
    ensures at' == p + Start(all, k + 1)
  {
    StartNext(all, k);
    PackedString(mem[..], p, all, k);
    assert forall x :: at <= x <= at + |all[k]| ==> mem[x] == Text(all[k])[x - at] by {
      assert forall x :: at <= x <= at + |all[k]| ==> mem[x] == mem[..][at..at + |all[k]| + 1][x - at];
    }
    at' := at;
    while mem[at'] != 0
      invariant at <= at' <= at + |all[k]|
      decreases at + |all[k]| - at'
    {
      at' := at' + 1;
    }
    at' := at' + 1;
  }

  /** What the new program finds on its stack: argc, argv, envp, the tables, and above them the strings. */
  ghost predicate Laid(m: seq<nat>, sp: nat, p: nat, argv: seq<seq<nat>>, envp: seq<seq<nat>>) {
    var av, ev := Long(m, sp + 4), Long(m, sp + 8);
    && Long(m, sp) == |argv| && av == sp + 12 && ev == av + 4 * (|argv| + 1) && ev + 4 * (|envp| + 1) <= p
    && Points(m, av, argv, p) && Points(m, ev, envp, p)
  }

  /** A null-ended table of pointers to copies of the strings, all at `p` or above. */
  ghost predicate Points(m: seq<nat>, table: nat, strings: seq<seq<nat>>, p: nat) {
    && (forall k: nat :: k < |strings| ==> Pointer(m, table, k, strings, p))
    && Long(m, table + 4 * |strings|) == 0
  }

  ghost predicate Pointer(m: seq<nat>, table: nat, k: nat, strings: seq<seq<nat>>, p: nat) {
    k < |strings| && Long(m, table + 4 * k) >= p && CString(m, Long(m, table + 4 * k), strings[k])
  }

  lemma FilledPoints(m: seq<nat>, table: nat, k: nat, p: nat, all: seq<seq<nat>>, from: nat)
    requires Filled(m, table, k, p, all, from) && Packed(m, p, all) && Long(m, table + 4 * k) == 0
    ensures Points(m, table, all[from..from + k], p)
  {
    var strings := all[from..from + k];
    forall j: nat | j < k
      ensures Pointer(m, table, j, strings, p)
    {
      assert Entry(m, table, j, p, all, from);
      PackedString(m, p, all, from + j);
    }
  }

  /** create_tables: the first `argc` strings are the arguments, the next `envc` the environment. */
  method CreateTables(mem: array<nat>, p: nat, argc: nat, envc: nat, ghost all: seq<seq<nat>>) returns (sp: nat)
    requires Packed(mem[..], p, all) && GoodStrings(all) && argc + envc <= |all|
    requires mem.Length < LONGS && 4 * (argc + envc) + 23 <= p
    modifies mem
    ensures sp <= p && Laid(mem[..], sp, p, all[..argc], all[argc..argc + envc])
    ensures Packed(mem[..], p, all)
  {
    hide Filled, Packed, Start, Long, Outside, GoodStrings, Laid;
    PackedEnd(mem[..], p, all);
    sp := p - p % 4 - 4 * (envc + 1);
    var envp := sp;
    sp := sp - 4 * (argc + 1);
    var argv := sp;
    sp := sp - 12;
    PutHeader(mem, sp, argc, argv, envp);
    ghost var m3 := mem[..];
    PackedKept(old(mem[..]), m3, p, all, sp, argv);
    assert Start(all, 0) == 0 by { FirstStart(all); }
    var at := FillTable(mem, argv, argc, p, p, all, 0);
    ghost var m4 := mem[..];
    at := FillTable(mem, envp, envc, at, p, all, argc);
    TablesLaid(m3, m4, mem[..], sp, p, argc, envc, all);
  }

  lemma FirstStart(all: seq<seq<nat>>)
    ensures Start(all, 0) == 0
  {
  }

  /** The three stretches of memory that create_tables fills, one behind the other. */
  lemma TablesLaid(m3: seq<nat>, m4: seq<nat>, m: seq<nat>, sp: nat, p: nat, argc: nat, envc: nat, all: seq<seq<nat>>)
    requires argc + envc <= |all| && sp + 20 + 4 * (argc + envc) <= p && Packed(m, p, all)
    requires var argv := sp + 12; var envp := argv + 4 * (argc + 1);
      && Long(m3, sp) == argc && Long(m3, sp + 4) == argv && Long(m3, sp + 8) == envp
      && Outside(m3, m4, argv, envp) && Filled(m4, argv, argc, p, all, 0) && Long(m4, argv + 4 * argc) == 0
      && Outside(m4, m, envp, envp + 4 * (envc + 1)) && Filled(m, envp, envc, p, all, argc)
      && Long(m, envp + 4 * envc) == 0
    ensures Laid(m, sp, p, all[..argc], all[argc..argc + envc])
  {
    hide Filled, Packed, Long, Outside, Points;
    var argv, envp := sp + 12, sp + 16 + 4 * argc;
    var end := envp + 4 * (envc + 1);
    FilledKept(m4, m, argv, argc, p, all, 0, envp, end);
    LongKept(m4, m, argv + 4 * argc, envp, end);
    HeaderKept(m3, m4, sp, argv, envp);
    HeaderKept(m4, m, sp, envp, end);
    FilledPoints(m, argv, argc, p, all, 0);
    FilledPoints(m, envp, envc, p, all, argc);
    assert all[0..0 + argc] == all[..argc];
  }

  /** The three words the new program's entry code pops. */
  method PutHeader(mem: array<nat>, sp: nat, argc: nat, argv: nat, envp: nat)
    requires sp + 12 <= mem.Length && argc < LONGS && argv < LONGS && envp < LONGS
    modifies mem
    ensures Long(mem[..], sp) == argc && Long(mem[..], sp + 4) == argv && Long(mem[..], sp + 8) == envp
    ensures Outside(old(mem[..]), mem[..], sp, sp + 12)
  {
    hide Long;
    PutLong(mem, sp + 8, envp);
    ghost var m1 := mem[..];
    PutLong(mem, sp + 4, argv);
    ghost var m2 := mem[..];
    LongKept(m1, m2, sp + 8, sp + 4, sp + 8);
    PutLong(mem, sp, argc);
    LongKept(m2, mem[..], sp + 8, sp, sp + 4);
    LongKept(m2, mem[..], sp + 4, sp, sp + 4);
  }

  lemma HeaderKept(m: seq<nat>, m': seq<nat>, sp: nat, lo: nat, hi: nat)
    requires Outside(m, m', lo, hi) && sp + 12 <= lo
    ensures Long(m', sp) == Long(m, sp) && Long(m', sp + 4) == Long(m, sp + 4) && Long(m', sp + 8) == Long(m, sp + 8)
  {
    LongKept(m, m', sp, lo, hi);
    LongKept(m, m', sp + 4, lo, hi);
    LongKept(m, m', sp + 8, lo, hi);
  }

  // ---------------------------------------------------------------- programs and scripts

  /** A program, or a script with its interpreter's name, an argument for it, and the script's own name. */
  datatype Image = Program | Script(name: seq<nat>, arg: Option<seq<nat>>, file: seq<nat>)

  function Splice(image: Image): seq<seq<nat>>
    requires image.Script?
  {
    [image.name] + (if image.arg.Some? then [image.arg.value] else []) + [image.file]
  }

  // ---------------------------------------------------------------- the first line of a script

  const BLOCK_SIZE: nat := 1024
  const NEWLINE: nat := 10
  const SLASH: nat := 47

  predicate Blank(c: nat) { c == 32 || c == 9 }

  /** The first line of the file, behind "#!"; it ends inside the block and has no zero byte. */
  ghost predicate Line(block: seq<nat>, line: seq<nat>) {
    && 2 + |line| < |block| && block[2..2 + |line|] == line && block[2 + |line|] == NEWLINE
    && GoodString(line) && NEWLINE !in line
  }

  predicate Blanks(line: seq<nat>, lo: nat, hi: nat)
    requires hi <= |line|
  {
    forall i :: lo <= i < hi ==> Blank(line[i])
  }

  predicate NoBlanks(line: seq<nat>, lo: nat, hi: nat)
    requires hi <= |line|
  {
    forall i :: lo <= i < hi ==> !Blank(line[i])
  }

  /** How do_execve reads a line: blanks, the interpreter's path, and behind one more blank an argument. */
  datatype Bang = Bang(indent: nat, interp: seq<nat>, name: seq<nat>, arg: Option<seq<nat>>)

  ghost predicate Reads(line: seq<nat>, b: Bang) {
    var end := b.indent + |b.interp|;
    && b.indent < end <= |line| && b.interp == line[b.indent..end]
    && Blanks(line, 0, b.indent) && NoBlanks(line, b.indent, end)
    && (if end == |line| then b.arg == None else Blank(line[end]) && b.arg == Some(line[end + 1..]))
    && LastPart(b.interp, b.name)
  }

  /** `name` is what follows the last slash of `path`. */
  ghost predicate LastPart(path: seq<nat>, name: seq<nat>) {
    var at := |path| - |name|;
    && 0 <= at && name == path[at..] && (at == 0 || path[at - 1] == SLASH)
    && forall i :: at <= i < |path| ==> path[i] != SLASH
  }

  /** There is only one way to read a line. */
  lemma ReadsOnce(line: seq<nat>, b: Bang, c: Bang)
    requires Reads(line, b) && Reads(line, c)
    ensures b == c
  {
    hide LastPart;
    assert b.indent == c.indent by { assert !Blank(line[b.indent]) && !Blank(line[c.indent]); }
    LastPartOnce(b.interp, b.name, c.name);
  }

  lemma LastPartOnce(path: seq<nat>, a: seq<nat>, b: seq<nat>)
    requires LastPart(path, a) && LastPart(path, b)
    ensures a == b
  {
  }

  lemma OneLine(block: seq<nat>, a: seq<nat>, b: seq<nat>)
    requires Line(block, a) && Line(block, b)
    ensures a == b
  {
  }

  /** strncpy and strchr: the line, or None when there is no newline before a zero or the end of the block. */
  method FirstLine(block: seq<nat>) returns (r: Option<seq<nat>>)
    requires |block| == BLOCK_SIZE
    ensures r.Some? ==> Line(block, r.value)
    ensures r.None? ==> forall line :: !Line(block, line)
  {
    var n := 2;
    while n < BLOCK_SIZE && block[n] != 0 && block[n] != NEWLINE
      invariant 2 <= n <= BLOCK_SIZE && forall i :: 2 <= i < n ==> block[i] != 0 && block[i] != NEWLINE
    {
      n := n + 1;
    }
    if n < BLOCK_SIZE && block[n] == NEWLINE { return Some(block[2..n]); }
    return None;
  }

  /** The interpreter, its name and its argument; None when the line is blank. */
  method ParseLine(line: seq<nat>) returns (r: Option<Bang>)
    ensures r.None? <==> Blanks(line, 0, |line|)
    ensures r.Some? ==> Reads(line, r.value)
  {
    var cp := 0;
    while cp < |line| && Blank(line[cp])
      invariant cp <= |line| && Blanks(line, 0, cp)
    {
      cp := cp + 1;
    }
    if cp == |line| { return None; }
    var interp, name := cp, cp;
    while cp < |line| && !Blank(line[cp])
      invariant interp <= name <= cp <= |line| && NoBlanks(line, interp, cp)
      invariant (name == interp || line[name - 1] == SLASH) && forall i :: name <= i < cp ==> line[i] != SLASH
    {
      if line[cp] == SLASH { name := cp + 1; }
      cp := cp + 1;
    }
    var arg := if cp < |line| then Some(line[cp + 1..]) else None;
    return Some(Bang(interp, line[interp..cp], line[name..cp], arg));
  }

  /**
    The "#!" test: anything else is taken for a program.  None (ENOEXEC) when the first line is blank
    or does not end.
   */
  method Interpret(block: seq<nat>, file: seq<nat>) returns (r: Option<Image>)
    requires |block| == BLOCK_SIZE && GoodString(file)
    ensures r == Some(Program) <==> block[0] != 35 || block[1] != 33
    ensures r.None? ==> forall line :: Line(block, line) ==> Blanks(line, 0, |line|)
    ensures r.Some? && r.value.Script? ==> r.value.file == file && GoodStrings(Splice(r.value))
    ensures r.Some? && r.value.Script? ==> exists line, b ::
      Line(block, line) && Reads(line, b) && r.value.name == b.name && r.value.arg == b.arg
  {
    if block[0] != 35 || block[1] != 33 { return Some(Program); }
    var line := FirstLine(block);
    if line == None { return None; }
    var b := ParseLine(line.value);
    if b == None {
      forall other | Line(block, other) ensures Blanks(other, 0, |other|) { OneLine(block, line.value, other); }
      return None;
    }
    GoodParts(line.value, b.value);
    return Some(Script(b.value.name, b.value.arg, file));
  }

  lemma GoodParts(line: seq<nat>, b: Bang)
    requires GoodString(line) && Reads(line, b)
    ensures GoodString(b.name) && (b.arg.Some? ==> GoodString(b.arg.value))
  {
    hide Blanks, NoBlanks, GoodString;
    var end := b.indent + |b.interp|;
    NameInLine(line, b.indent, end, b.name);
    GoodSlice(line, end - |b.name|, end);
    if b.arg.Some? {
      GoodSlice(line, end + 1, |line|);
      assert line[end + 1..|line|] == line[end + 1..];
    }
  }

  lemma NameInLine(line: seq<nat>, lo: nat, hi: nat, name: seq<nat>)
    requires lo <= hi <= |line| && LastPart(line[lo..hi], name)
    ensures |name| <= hi - lo && name == line[hi - |name|..hi]
  {
    Slices(line, lo, hi, hi - lo - |name|, hi - lo);
  }

  lemma GoodSlice(line: seq<nat>, lo: nat, hi: nat)
    requires GoodString(line) && lo <= hi <= |line|
    ensures GoodString(line[lo..hi])
  {
    assert forall i :: 0 <= i < hi - lo ==> line[lo..hi][i] == line[lo + i];
  }

  // ---------------------------------------------------------------- do_execve

  /** The arguments the new program should get. */
  function Arguments(image: Image, argv: seq<seq<nat>>): seq<seq<nat>> {
    if image.Program? then argv else Splice(image) + (if argv == [] then [] else argv[1..])
  }

  const START: nat := TOP - 4

  ghost predicate Fits(all: seq<seq<nat>>) {
    GoodStrings(all) && |Flatten(all)| <= START
  }

  lemma FitsTail(all: seq<seq<nat>>, k: nat, tail: seq<seq<nat>>)
    requires Fits(all) && k <= |all| && tail == all[k..]
    ensures Fits(tail) && |Flatten(tail)| <= |Flatten(all)|
  {
    assert all == all[..k] + tail;
    FlattenAppend(all[..k], tail);
  }

  /** The strings in `done` are in place, or there was no room for them (`p` is 0). */
  ghost predicate Placed(page: seq<Option<seq<nat>>>, free: nat, p: nat, done: seq<seq<nat>>, lo: nat, room: int) {
    && p <= START
    && (p != 0 ==>
          && p == START - |Flatten(done)| && Lies(page, p, Flatten(done))
          && Spare(page, free, lo, p) == room)
    && (p == 0 ==> room < 0 || |Flatten(done)| == START)
  }

  /** Copy `strings` in front of what is already there. */
  method Prepend(pages: ArgPages, strings: seq<seq<nat>>, p: nat, ghost done: seq<seq<nat>>, ghost lo: nat,
          ghost room: int) returns (q: nat)
    requires pages.Valid() && Placed(pages.page[..], pages.free, p, done, lo, room)
    requires Fits(strings + done) && lo + |Flatten(strings + done)| <= START
    modifies pages, pages.page
    ensures pages.Valid() && Placed(pages.page[..], pages.free, q, strings + done, lo, room)
    ensures pages.Total() == old(pages.Total())
  {
    hide Flatten, Lies, Spare;
    FlattenAppend(strings, done);
    assert GoodStrings(strings) by { GoodPrefix(strings, done); }
    ghost var before := pages.page[..];
    q := pages.CopyStrings(strings, p, lo);
    if p != 0 && q != 0 { LiesMore(before, pages.page[..], q, Flatten(strings), Flatten(done)); }
  }

  lemma GoodPrefix(a: seq<seq<nat>>, b: seq<seq<nat>>)
    requires GoodStrings(a + b)
    ensures GoodStrings(a)
  {
    assert forall k :: 0 <= k < |a| ==> a[k] == (a + b)[k];
  }

  /** The copies of do_execve, environment first, and the argument count it goes on with. */
  method CopyAll(pages: ArgPages, image: Image, argv: seq<seq<nat>>, envp: seq<seq<nat>>) returns (p: nat, argc: int)
    requires pages.Valid() && Fits(Arguments(image, argv) + envp)
    modifies pages, pages.page
    ensures var all := Arguments(image, argv) + envp;
      var lo := START - |Flatten(all)|;
      && pages.Valid()
      && Placed(pages.page[..], pages.free, p, all, lo, old(Spare(pages.page[..], pages.free, lo, START)))
    ensures pages.Total() == old(pages.Total())
    ensures argc == |Arguments(image, argv)| - if image.Script? && argv == [] then 1 else 0
  {
    hide Fits, Placed, Flatten, Used, Arguments, Splice, Spare;
    ghost var all := Arguments(image, argv) + envp;
    FitsTail(all, 0, all);
    ghost var lo: nat := START - |Flatten(all)|;
    ghost var room := Spare(pages.page[..], pages.free, lo, START);
    argc := |argv|;
    WhatToCopy(image, argv, envp);
    NothingPlaced(pages.page[..], pages.free, lo);
    FitsTail(all, |all| - |envp|, envp + []);
    p := Prepend(pages, envp, START, [], lo, room);
    assert envp + [] == envp;
    match image {
      case Program =>
        p := Prepend(pages, argv, p, envp, lo, room);
      case Script(name, arg, file) =>
        argc := argc - 1;
        var others := if argc > 0 then argv[1..] else [];
        FitsTail(all, |Splice(image)|, others + envp);
        p := Prepend(pages, others, p, envp, lo, room);
        var spliced;
        p, spliced := CopySplice(pages, image, p, others + envp, lo, room);
        argc := argc + spliced;
    }
  }

  lemma WhatToCopy(image: Image, argv: seq<seq<nat>>, envp: seq<seq<nat>>)
    ensures var all := Arguments(image, argv) + envp;
      && envp + [] == all[|all| - |envp|..] == envp
      && (image.Program? ==> Arguments(image, argv) == argv)
      && (image.Script? ==>
            var others := if |argv| > 1 then argv[1..] else [];
            && |Arguments(image, argv)| == |Splice(image)| + |others|
            && Splice(image) + (others + envp) == all && others + envp == all[|Splice(image)|..])
  {
    hide Splice;
  }

  /** The name of the script, the argument and the name of the interpreter, in front of the rest. */
  method CopySplice(pages: ArgPages, image: Image, p: nat, ghost rest: seq<seq<nat>>, ghost lo: nat, ghost room: int)
    returns (q: nat, n: nat)
    requires pages.Valid() && Placed(pages.page[..], pages.free, p, rest, lo, room)
    requires image.Script? && Fits(Splice(image) + rest) && lo + |Flatten(Splice(image) + rest)| <= START
    modifies pages, pages.page
    ensures pages.Valid() && Placed(pages.page[..], pages.free, q, Splice(image) + rest, lo, room)
    ensures pages.Total() == old(pages.Total()) && n == |Splice(image)|
  {
    hide Fits, Placed, Flatten, Used, Spare;
    ghost var all, done := Splice(image) + rest, [image.file] + rest;
    FitsTail(all, |Splice(image)| - 1, done);
    q := Prepend(pages, [image.file], p, rest, lo, room);
    n := 1;
    if image.arg.Some? {
      done := [image.arg.value] + done;
      FitsTail(all, 1, done);
      q := Prepend(pages, [image.arg.value], q, [image.file] + rest, lo, room);
      n := 2;
    }
    assert [image.name] + done == all;
    q := Prepend(pages, [image.name], q, done, lo, room);
    n := n + 1;
  }

  lemma NothingPlaced(page: seq<Option<seq<nat>>>, free: nat, lo: nat)
    ensures Placed(page, free, START, [], lo, Spare(page, free, lo, START))
  {
  }

  /** argv[k] of the new program points to the string. */
  ghost predicate Finds(m: seq<nat>, sp: nat, k: nat, s: seq<nat>) {
    CString(m, Long(m, Long(m, sp + 4) + 4 * k), s)
  }

  /** A script's interpreter finds its own name, its argument, the script, and the script's arguments. */
  ghost predicate ScriptFinds(m: seq<nat>, sp: nat, name: seq<nat>, arg: Option<seq<nat>>, file: seq<nat>,
          argv: seq<seq<nat>>) {
    && Finds(m, sp, 0, name)
    && if arg.Some? then
         && Finds(m, sp, 1, arg.value) && Finds(m, sp, 2, file) && Long(m, sp) == |argv| + 2
         && forall k: nat :: 1 <= k < |argv| ==> Finds(m, sp, k + 2, argv[k])
       else
         && Finds(m, sp, 1, file) && Long(m, sp) == |argv| + 1
         && forall k: nat :: 1 <= k < |argv| ==> Finds(m, sp, k + 1, argv[k])
  }

  lemma ScriptLaid(m: seq<nat>, sp: nat, p: nat, image: Image, argv: seq<seq<nat>>, envp: seq<seq<nat>>)
    requires image.Script? && argv != [] && Laid(m, sp, p, Arguments(image, argv), envp)
    ensures ScriptFinds(m, sp, image.name, image.arg, image.file, argv)
  {
    hide Long, CString;
    var all := Arguments(image, argv);
    forall k: nat | k < |all|
      ensures Finds(m, sp, k, all[k])
    {
      assert Pointer(m, Long(m, sp + 4), k, all, p);
    }
    assert all[0] == image.name && all[|Splice(image)| - 1] == image.file;
    if image.arg.Some? { assert all[1] == image.arg.value; }
    forall k: nat | 1 <= k < |argv|
      ensures Finds(m, sp, |Splice(image)| + k - 1, argv[k])
    {
      assert all[|Splice(image)| + k - 1] == argv[k];
    }
  }

  /**
    do_execve's arguments: the new program finds its arguments and environment on its stack exactly
    when it is not a script, or was called with at least one argument.  A script called with none
    is counted one argument short, because do_execve skips an argv[0] that is not there.
   */
  method Execve(pages: ArgPages, mem: array<nat>, image: Image, argv: seq<seq<nat>>, envp: seq<seq<nat>>)
    returns (ok: bool, sp: nat, p: nat)
    requires pages.Valid() && Fits(Arguments(image, argv) + envp)
    requires mem.Length == DATA_LIMIT && forall x :: 0 <= x < mem.Length ==> mem[x] == 0
    modifies pages, pages.page, mem
    ensures ok ==> (Laid(mem[..], sp, p, Arguments(image, argv), envp) <==> image.Program? || argv != [])
    ensures ok && image.Script? && argv != [] ==> ScriptFinds(mem[..], sp, image.name, image.arg, image.file, argv)
    ensures ok && image.Script? && argv == [] ==> Long(mem[..], sp) == |Arguments(image, argv)| - 1
    ensures var size := |Flatten(Arguments(image, argv) + envp)|;
      ok <==> size < START && old(|Missing(pages.page[..], START - size, START)|) <= old(pages.free)
  {
    hide Flatten, Lies, Packed, Arguments, Used, Laid, Long, At, ScriptFinds;
    var argc;
    ghost var all := Arguments(image, argv) + envp;
    p, argc := CopyAll(pages, image, argv, envp);
    NothingMissing(pages.page[..], p);
    if p == 0 { return false, 0, 0; }
    pages.ChangeLdt(mem);
    LiesPacked(pages.page[..], mem[..], p, all);
    p := p + BASE;
    FlattenLong(all);
    AtLeastOne(image, argv);
    sp := CreateTables(mem, p, argc, |envp|, all);
    ok := true;
    if image.Program? || argv != [] {
      assert all[..argc] == Arguments(image, argv) && all[argc..argc + |envp|] == envp;
      if image.Script? { ScriptLaid(mem[..], sp, p, image, argv, envp); }
    } else {
      Short(mem[..], sp, p, all[..argc], all[argc..argc + |envp|], Arguments(image, argv), envp);
    }
  }

  lemma NothingMissing(page: seq<Option<seq<nat>>>, p: nat)
    ensures |Missing(page, p, p)| == 0
  {
  }

  /** A script "f" for the interpreter "s", called with no argument at all, is given one argument and not two. */
  method NoArguments(pages: ArgPages, mem: array<nat>) returns (argc: nat)
    requires pages.Valid() && pages.free > 0
    requires mem.Length == DATA_LIMIT && forall x :: 0 <= x < mem.Length ==> mem[x] == 0
    modifies pages, pages.page, mem
    ensures argc == 1 && |Arguments(Script([115], None, [102]), [])| == 2
  {
    hide Laid;
    var image := Script([115], None, [102]);
    TwoArguments();
    OneMissing(pages.page[..]);
    var ok, sp, _ := Execve(pages, mem, image, [], []);
    argc := Long(mem[..], sp);
  }

  lemma OneMissing(page: seq<Option<seq<nat>>>)
    requires |page| == MAX_ARG_PAGES
    ensures |Missing(page, START - 4, START)| <= 1
  {
    var m, last := Missing(page, START - 4, START), {MAX_ARG_PAGES - 1};
    assert m <= last;
    assert |last - m| == |last| - |last * m|;
    assert last * m == m;
  }

  lemma TwoArguments()
    ensures Arguments(Script([115], None, [102]), []) == [[115], [102]]
    ensures Fits(Arguments(Script([115], None, [102]), []) + [])
    ensures |Flatten(Arguments(Script([115], None, [102]), []) + [])| == 4
  {
    var all: seq<seq<nat>>, rest: seq<seq<nat>> := Arguments(Script([115], None, [102]), []) + [], [[102]];
    assert all == [[115]] + rest && all[1..] == rest && rest[1..] == [];
    assert |Flatten(rest)| == 2 && |Flatten(all)| == 4;
  }

  lemma AtLeastOne(image: Image, argv: seq<seq<nat>>)
    ensures image.Script? ==> |Arguments(image, argv)| >= 1
  {
  }

  lemma Short(m: seq<nat>, sp: nat, p: nat, argv: seq<seq<nat>>, envp: seq<seq<nat>>, argv': seq<seq<nat>>,
          envp': seq<seq<nat>>)
    requires Laid(m, sp, p, argv, envp) && |argv| != |argv'|
    ensures !Laid(m, sp, p, argv', envp') && Long(m, sp) == |argv|
  {
  }

  lemma LiesPacked(page: seq<Option<seq<nat>>>, m: seq<nat>, p: nat, all: seq<seq<nat>>)
    requires |m| == DATA_LIMIT && forall x: nat :: BASE <= x < DATA_LIMIT ==> m[x] == At(page, x - BASE)
    requires Lies(page, p, Flatten(all)) && p + |Flatten(all)| <= TOP
    ensures Packed(m, BASE + p, all)
  {
    var n, q := |Flatten(all)|, BASE + p;
    assert m[q..q + n] == Flatten(all) by {
      forall i | 0 <= i < n
        ensures m[q..q + n][i] == Flatten(all)[i]
      {
        assert m[q + i] == At(page, p + i);
      }
    }
  }
}
