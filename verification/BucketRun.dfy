/**
  Runs of lib/malloc.c.  The reference is a plain map of separate objects, together with the number of
  pages there are and the number that hold descriptors: that is enough to say what every call gives
  and when the kernel has to panic.
 */
module BucketRun {
  import opened Common
  import opened BucketModel
  import opened BucketAllocator

  datatype Call = DoMalloc(len: nat) | DoFree(obj: nat, size: int) | DoStore(obj: nat, offset: nat, v: nat)

  datatype Event = Got(a: nat, bytes: seq<nat>) | Gone(a: nat) | Wrote(a: nat, offset: nat, v: nat) | Nothing

  /** The memory of an object. */
  ghost function Bytes(h: Heap, a: nat): seq<nat> {
    if a + Extent(h, a) <= |h.word| then h.word[a..a + Extent(h, a)] else []
  }

  ghost function Objects(h: Heap): map<nat, seq<nat>> {
    map a | a in h.live :: Bytes(h, a)
  }

  /** The allocator users have in mind: separate objects, each with its own memory. */
  ghost function Apply(m: map<nat, seq<nat>>, e: Event): map<nat, seq<nat>> {
    match e
    case Got(a, bytes) => m[a := bytes]
    case Gone(a) => m - {a}
    case Wrote(a, offset, v) =>
      if a in m && offset < |m[a]| then var bytes: seq<nat> := m[a][offset := v]; m[a := bytes] else m
    case Nothing => m
  }

  /** A new object shares no address with any that is live. */
  ghost predicate Fits(m: map<nat, seq<nat>>, a: nat, n: nat) {
    a !in m && forall c: nat :: c in m ==> a + n <= c || c + |m[c]| <= a
  }

  /** What a call comes to; one on an object that is not there, or beyond its size, does nothing. */
  ghost predicate Answers(m: map<nat, seq<nat>>, c: Call, e: Event) {
    match c
    case DoMalloc(len) => e.Got? && len <= PAGE && |e.bytes| == Size(BucketFor(len)) && Fits(m, e.a, |e.bytes|)
    case DoFree(obj, size) => e == if obj in m && size <= |m[obj]| then Gone(obj) else Nothing
    case DoStore(obj, offset, v) => e == if obj in m && offset < |m[obj]| then Wrote(obj, offset, v) else Nothing
  }

  /** The size of what malloc gives for a request. */
  function SizeFor(len: nat): nat
    requires len <= PAGE
  {
    Size(BucketFor(len))
  }

  // ---------------------------------------------------------------- what memory is left

  /** The pages that hold objects. */
  ghost function PagesOf(m: map<nat, seq<nat>>): set<nat> {
    set a | a in m :: a / PAGE
  }

  /** No page with objects of this size has room for one more. */
  ghost predicate Crammed(m: map<nat, seq<nat>>, size: nat) {
    forall a: nat, x: nat :: a in m && |m[a]| == size && IsSlot(a / PAGE, size, x) ==> x in m
  }

  /** The objects, how many pages hold descriptors, and how many pages there are in all. */
  datatype Ref = Ref(objects: map<nat, seq<nat>>, descs: nat, pages: nat)

  /** Every descriptor, 256 to a page, stands for a page of objects. */
  ghost predicate AllUsed(s: Ref) {
    |PagesOf(s.objects)| == PER_PAGE * s.descs
  }

  /** There is no place for a new object of this size, nor a page for it. */
  ghost predicate Exhausted(s: Ref, size: nat) {
    Crammed(s.objects, size) && s.pages - s.descs - |PagesOf(s.objects)| < if AllUsed(s) then 2 else 1
  }

  /** The kernel has to panic: the request is too large or there is no memory for it. */
  ghost predicate Refuses(s: Ref, c: Call) {
    c.DoMalloc? && (c.len > PAGE || Exhausted(s, SizeFor(c.len)))
  }

  /** A page of descriptors is made when a new page of objects finds none left. */
  ghost function After(s: Ref, c: Call, e: Event): Ref {
    var more := c.DoMalloc? && c.len <= PAGE && Crammed(s.objects, SizeFor(c.len)) && AllUsed(s);
    s.(objects := Apply(s.objects, e), descs := s.descs + if more then 1 else 0)
  }

  ghost function Replay(s: Ref, calls: seq<Call>, log: seq<Event>): Ref
    requires |log| <= |calls|
  {
    if log == [] then s
    else
      var i := |log| - 1;
      After(Replay(s, calls, log[..i]), calls[i], log[i])
  }

  /** Each call so far could be served and was. */
  ghost predicate AllAnswer(s: Ref, calls: seq<Call>, log: seq<Event>) {
    |log| <= |calls| && forall i :: 0 <= i < |log| ==> Served(Replay(s, calls, log[..i]), calls[i], log[i])
  }

  ghost predicate Served(s: Ref, c: Call, e: Event) {
    !Refuses(s, c) && Answers(s.objects, c, e)
  }

  lemma AnswerMore(s: Ref, calls: seq<Call>, log: seq<Event>, e: Event)
    requires AllAnswer(s, calls, log) && |log| < |calls| && Served(Replay(s, calls, log), calls[|log|], e)
    ensures AllAnswer(s, calls, log + [e])
    ensures Replay(s, calls, log + [e]) == After(Replay(s, calls, log), calls[|log|], e)
  {
    hide Served, After;
    var more := log + [e];
    assert more[..|log|] == log;
    forall i | 0 <= i < |more|
      ensures Served(Replay(s, calls, more[..i]), calls[i], more[i])
    {
      assert more[..i] == if i < |log| then log[..i] else log;
    }
  }

  /** What a heap stands for. */
  ghost function Abstract(h: Heap): Ref {
    Ref(Objects(h), |h.descPages|, |Pages(h)|)
  }

  /** The pages in use are those with objects. */
  lemma UsedPages(h: Heap)
    requires Inv(h)
    ensures h.bucketPages.Keys == PagesOf(Objects(h))
  {
    hide BucketOk, ListsOk, DescsOk;
    forall p: nat | p in h.bucketPages
      ensures p in PagesOf(Objects(h))
    {
      var b := h.bucketPages[p];
      assert Held(h, p, b);
      var k: nat :| Chained(h, k, b);
      var a := InBucket(h, k, b);
    }
  }

  lemma InBucket(h: Heap, k: nat, b: nat) returns (a: nat)
    requires Inv(h) && Chained(h, k, b)
    ensures b < |h.desc| && a in h.live && a / PAGE == h.desc[b].page && Home(h, a) == b && Extent(h, a) == Size(k)
    ensures a in Objects(h) && |Objects(h)[a]| == Size(k)
  {
    BucketIs(h, k, b);
    var live := LiveIn(h.desc[b].page, h.live);
    assert |live| > 0;
    a :| a in live;
    ByteCount(h, a);
  }

  lemma FullIsCrammed(h: Heap, k: nat)
    requires Inv(h) && k < BUCKETS
    ensures Full(h, k) <==> Crammed(Objects(h), Size(k))
  {
    hide Inv, Bytes;
    if Full(h, k) {
      forall a: nat, x: nat | a in h.live && |Objects(h)[a]| == Size(k) && IsSlot(a / PAGE, Size(k), x)
        ensures x in h.live
      {
        ByteCount(h, a);
        FullPage(h, k, a, x);
      }
    }
    if Crammed(Objects(h), Size(k)) {
      forall b: nat | Chained(h, k, b) && b < |h.slots|
        ensures h.slots[b] == []
      {
        NoneFree(h, k, b);
      }
    }
  }

  lemma FullPage(h: Heap, k: nat, a: nat, x: nat)
    requires Inv(h) && k < BUCKETS && Full(h, k) && a in h.live && Extent(h, a) == Size(k)
    requires IsSlot(a / PAGE, Size(k), x)
    ensures x in h.live
  {
    hide Inv;
    var j := HomeOf(h, a);
    InvSound(h);
    BucketIs(h, j, Home(h, a));
    LivePage(h, a);
    assert j == k;
  }

  lemma NoneFree(h: Heap, k: nat, b: nat)
    requires Inv(h) && Chained(h, k, b) && b < |h.slots| && Crammed(Objects(h), Size(k))
    ensures h.slots[b] == []
  {
    hide Inv, Bytes;
    var a := InBucket(h, k, b);
    if h.slots[b] != [] {
      var x := FreeSlot(h, k, b);
      assert false;
    }
  }

  lemma FreeSlot(h: Heap, k: nat, b: nat) returns (x: nat)
    requires Inv(h) && Chained(h, k, b) && b < |h.slots| && h.slots[b] != []
    ensures b < |h.desc| && IsSlot(h.desc[b].page, Size(k), x) && x !in h.live
  {
    BucketIs(h, k, b);
    x := h.slots[b][0];
    assert x in h.slots[b];
  }

  lemma InvSound(h: Heap)
    requires Inv(h)
    ensures Sound(h) && Shape(h)
  {
  }

  lemma PoolSize(h: Heap)
    requires Inv(h)
    ensures |h.pool| == |Pages(h)| - |h.descPages| - |h.bucketPages.Keys|
  {
    assert h.pool !! h.descPages && (h.pool + h.descPages) !! h.bucketPages.Keys;
  }

  /** The descriptors in some pages. */
  ghost function DescsIn(pages: set<nat>): set<nat> {
    set p, b | p in pages && b in Ids(p) :: b
  }

  lemma {:induction false} DescCount(pages: set<nat>)
    ensures |DescsIn(pages)| == PER_PAGE * |pages|
  {
    if pages == {} {
      assert DescsIn(pages) == {};
    } else {
      var p :| p in pages;
      DescCount(pages - {p});
      IdsMembers(p);
      ElementCount(Ids(p));
      assert Elements(Ids(p)) !! DescsIn(pages - {p}) by {
        forall q: nat | q in pages - {p} ensures Elements(Ids(p)) !! Elements(Ids(q)) { IdsMembers(q); }
      }
      assert DescsIn(pages) == DescsIn(pages - {p}) + Elements(Ids(p));
    }
  }

  lemma DescMember(pages: set<nat>, b: nat)
    ensures b in DescsIn(pages) <==> b / PER_PAGE in pages
  {
    IdsMembers(b / PER_PAGE);
    assert b in Ids(b / PER_PAGE);
    if b in DescsIn(pages) {
      var p :| p in pages && b in Ids(p);
      IdsMembers(p);
    }
  }

  lemma {:induction false} ImageSize(m: map<nat, nat>)
    requires forall p: nat, q: nat :: p in m && q in m && m[p] == m[q] ==> p == q
    ensures |m.Values| == |m.Keys|
  {
    if m.Keys != {} {
      var p :| p in m;
      var rest := m - {p};
      ImageSize(rest);
      assert m.Keys == rest.Keys + {p};
      ImageLess(m, p);
    }
  }

  lemma ImageLess(m: map<nat, nat>, p: nat)
    requires p in m && forall q: nat :: q in m && m[q] == m[p] ==> q == p
    ensures (m - {p}).Values == m.Values - {m[p]}
  {
    forall v: nat
      ensures v in (m - {p}).Values <==> v in m.Values && v != m[p]
    {
      if v in m.Values && v != m[p] {
        var q :| q in m && m[q] == v;
        assert q in m - {p};
      }
    }
  }

  /** The free list is empty exactly when there are as many pages of objects as descriptors. */
  lemma FreeDescs(h: Heap)
    requires Inv(h)
    ensures h.lists[FREE] == [] <==> |h.bucketPages.Keys| == PER_PAGE * |h.descPages|
  {
    hide Inv, DescsIn;
    var all, used := DescsIn(h.descPages), h.bucketPages.Values;
    DescCount(h.descPages);
    OnePageEach(h);
    ImageSize(h.bucketPages);
    UsedDescs(h);
    InvSound(h);
    SubsetSize(used, all);
    if h.lists[FREE] == [] {
      assert used == all;
    } else {
      var b := h.lists[FREE][0];
      assert Listed(h, FREE, b);
      FreeDesc(h, b);
      SubsetSize(used, all - {b});
    }
  }

  lemma OnePageEach(h: Heap)
    requires Inv(h)
    ensures forall p: nat, q: nat ::
      p in h.bucketPages && q in h.bucketPages && h.bucketPages[p] == h.bucketPages[q] ==> p == q
  {
    forall p: nat, q: nat | p in h.bucketPages && q in h.bucketPages && h.bucketPages[p] == h.bucketPages[q]
      ensures p == q
    {
      assert Held(h, p, h.bucketPages[p]) && Held(h, q, h.bucketPages[q]);
    }
  }

  lemma FreeDesc(h: Heap, b: nat)
    requires Inv(h) && Listed(h, FREE, b)
    ensures b in DescsIn(h.descPages)
  {
    DescMember(h.descPages, b);
  }

  lemma UsedDescs(h: Heap)
    requires Inv(h)
    ensures forall b: nat :: b in DescsIn(h.descPages) <==> b / PER_PAGE in h.descPages
    ensures forall b: nat :: b in h.bucketPages.Values ==> b in DescsIn(h.descPages) && !Listed(h, FREE, b)
    ensures forall b: nat :: b in DescsIn(h.descPages) ==> b in h.bucketPages.Values || Listed(h, FREE, b)
  {
    hide DescsIn;
    forall b: nat
      ensures b in DescsIn(h.descPages) <==> b / PER_PAGE in h.descPages
    {
      DescMember(h.descPages, b);
    }
    forall b: nat | b in h.bucketPages.Values
      ensures b / PER_PAGE in h.descPages && !Listed(h, FREE, b)
    {
      var p :| p in h.bucketPages && h.bucketPages[p] == b;
      assert Held(h, p, b);
      var k: nat :| Chained(h, k, b);
      assert Listed(h, k, b);
    }
    forall b: nat | b / PER_PAGE in h.descPages && !Listed(h, FREE, b)
      ensures b in h.bucketPages.Values
    {
      assert SomeList(h, b);
      var k: nat :| Listed(h, k, b);
      assert Chained(h, k, b) && HasPage(h, b);
    }
  }

  /** malloc fails exactly when the objects and the number of pages say so. */
  lemma MemoryLeft(h: Heap, len: nat)
    requires Inv(h) && len <= PAGE
    ensures Shape(h)
    ensures NoRoom(h, BucketFor(len)) <==> Exhausted(Abstract(h), SizeFor(len))
    ensures NoDesc(h, BucketFor(len)) <==> Crammed(Objects(h), SizeFor(len)) && AllUsed(Abstract(h))
  {
    hide Inv, Full, Crammed, Objects, Pages;
    InvSound(h);
    FullIsCrammed(h, BucketFor(len));
    UsedPages(h);
    PoolSize(h);
    FreeDescs(h);
  }

  // ---------------------------------------------------------------- each call

  lemma GotFits(h: Heap, h': Heap, a: nat)
    requires Inv(h) && Inv(h') && Kept(h, h') && a !in h.live && h'.live == h.live + {a}
    ensures Objects(h') == Apply(Objects(h), Got(a, Bytes(h', a))) && Fits(Objects(h), a, |Bytes(h', a)|)
    ensures |Bytes(h', a)| == Extent(h', a)
  {
    hide Inv;
    ByteCount(h', a);
    forall c: nat | c in h.live
      ensures Bytes(h', c) == Bytes(h, c)
      ensures a + |Bytes(h', a)| <= c || c + |Bytes(h, c)| <= a
    {
      SameBytes(h, h', c);
      ByteCount(h', c);
      Disjoint(h', a, c);
    }
  }

  lemma ByteCount(h: Heap, a: nat)
    requires Inv(h) && a in h.live
    ensures |Bytes(h, a)| == Extent(h, a)
  {
    var k, b := ExtentOf(h, a);
  }

  /** LiveApart, said of the ranges. */
  lemma Disjoint(h: Heap, a: nat, c: nat)
    requires Inv(h) && a in h.live && c in h.live && a != c
    ensures a + Extent(h, a) <= c || c + Extent(h, c) <= a
  {
    if Within(h, a, c) && c + Extent(h, c) > a { Positive(h, c); LiveApart(h, a, c, c); }
    if Within(h, c, a) { Positive(h, a); LiveApart(h, a, c, a); }
  }

  lemma Positive(h: Heap, a: nat)
    requires Inv(h) && a in h.live
    ensures Within(h, a, a)
  {
    var k, b := ExtentOf(h, a);
    SizeCases(Extent(h, a));
  }

  lemma SameBytes(h: Heap, h': Heap, a: nat)
    requires SameObject(h, h', a) && |h'.word| == |h.word|
    ensures Bytes(h', a) == Bytes(h, a)
  {
    assert forall x: nat :: a <= x < a + Extent(h, a) ==> Within(h, a, x);
  }

  lemma GoneObjects(h: Heap, h': Heap, a: nat)
    requires Kept(h, h') && h'.live == h.live - {a}
    ensures Objects(h') == Apply(Objects(h), Gone(a))
  {
    forall c: nat | c in h'.live
      ensures Bytes(h', c) == Bytes(h, c)
    {
      SameBytes(h, h', c);
    }
  }

  lemma WroteObjects(h: Heap, h': Heap, a: nat, offset: nat, v: nat)
    requires Inv(h) && a in h.live && offset < Extent(h, a) && a + offset < |h.word|
    requires h' == h.(word := h.word[a + offset := v])
    requires forall c: nat :: c in h.live && c != a ==> SameObject(h, h', c)
    ensures Objects(h') == Apply(Objects(h), Wrote(a, offset, v))
  {
    var k, b := ExtentOf(h, a);
    assert Bytes(h', a) == Bytes(h, a)[offset := v];
    forall c: nat | c in h.live && c != a
      ensures Bytes(h', c) == Bytes(h, c)
    {
      SameBytes(h, h', c);
    }
  }

  /** What a user knows: the objects it holds, and the size of each. */
  ghost predicate Holding(h: Heap, held: map<nat, nat>) {
    held.Keys == h.live && forall a: nat :: a in held ==> held[a] == Extent(h, a) == |Bytes(h, a)|
  }

  lemma HoldingGot(h: Heap, h': Heap, held: map<nat, nat>, a: nat)
    requires Inv(h') && Holding(h, held) && Kept(h, h') && a !in h.live && h'.live == h.live + {a}
    ensures Holding(h', held[a := Extent(h', a)])
  {
    hide Inv;
    forall c: nat | c in h'.live
      ensures |Bytes(h', c)| == Extent(h', c)
    {
      ByteCount(h', c);
    }
    assert forall c: nat :: c in h.live ==> SameObject(h, h', c);
  }

  lemma HoldingGone(h: Heap, h': Heap, held: map<nat, nat>, a: nat)
    requires Inv(h') && Holding(h, held) && Kept(h, h') && h'.live == h.live - {a}
    ensures Holding(h', held - {a})
  {
    hide Inv;
    forall c: nat | c in h'.live
      ensures |Bytes(h', c)| == Extent(h', c)
    {
      ByteCount(h', c);
    }
    assert forall c: nat :: c in h'.live ==> SameObject(h, h', c);
  }

  lemma HoldingStore(h: Heap, h': Heap, held: map<nat, nat>)
    requires Inv(h') && Holding(h, held) && h' == h.(word := h'.word)
    ensures Holding(h', held)
  {
    hide Inv;
    forall c: nat | c in h'.live
      ensures |Bytes(h', c)| == Extent(h', c)
    {
      ByteCount(h', c);
    }
    assert forall a: nat :: Extent(h', a) == Extent(h, a);
  }

  lemma HeldObject(h: Heap, held: map<nat, nat>, a: nat)
    requires Holding(h, held)
    ensures a in held <==> a in h.live
    ensures a in held <==> a in Objects(h)
    ensures a in held ==> held[a] == Extent(h, a) == |Objects(h)[a]|
  {
  }

  /** One call by a user. */
  method Serve(m: Allocator, held: map<nat, nat>, c: Call)
    returns (panicked: bool, held': map<nat, nat>, ghost e: Event)
    requires m.Valid() && Holding(m.View(), held)
    modifies m, m.heads, m.next, m.desc, m.word
    ensures panicked <==> Refuses(Abstract(old(m.View())), c)
    ensures !panicked ==> m.Valid() && Holding(m.View(), held')
    ensures !panicked ==> Served(Abstract(old(m.View())), c, e)
    ensures !panicked ==> Abstract(m.View()) == After(Abstract(old(m.View())), c, e)
    ensures !panicked ==>
      forall a: nat :: a in old(m.live) && !(c.DoFree? && c.obj == a) ==> Spares(old(m.View()), m.View(), a)
  {
    hide Inv, Objects, Holding, Fits, Spares, SameObject, Exhausted, Crammed, AllUsed, NoRoom, NoDesc;
    ghost var h := m.View();
    if c.DoMalloc? && c.len <= PAGE { MemoryLeft(h, c.len); }
    SparesAll(h);
    panicked, held', e := false, held, Nothing;
    match c {
      case DoMalloc(len) =>
        var r := m.Malloc(len);
        if r == None { return true, held, Nothing; }
        var a, size := r.value, SizeFor(len);
        GotFits(h, m.View(), a);
        HoldingGot(h, m.View(), held, a);
        SparesMost(h, m.View());
        held' := held[a := size];
        e := Got(a, Bytes(m.View(), a));
      case DoFree(obj, size) =>
        HeldObject(h, held, obj);
        if obj !in held || held[obj] < size { return; }
        var ok := m.FreeS(obj, size);
        GoneObjects(h, m.View(), obj);
        HoldingGone(h, m.View(), held, obj);
        SparesMost(h, m.View());
        held' := held - {obj};
        e := Gone(obj);
      case DoStore(obj, offset, v) =>
        HeldObject(h, held, obj);
        if obj !in held || held[obj] <= offset { return; }
        m.Store(obj, offset, v);
        WroteObjects(h, m.View(), obj, offset, v);
        HoldingStore(h, m.View(), held);
        SparesStore(h, m.View());
        e := Wrote(obj, offset, v);
    }
  }

  lemma SparesAll(h: Heap)
    ensures forall a: nat :: a in h.live ==> Spares(h, h, a)
  {
  }

  lemma SparesMost(h: Heap, h': Heap)
    requires Kept(h, h')
    ensures forall a: nat :: a in h.live && a in h'.live ==> Spares(h, h', a)
  {
    forall a: nat | a in h.live && a in h'.live
      ensures Spares(h, h', a)
    {
      KeptSpares(h, h', a);
    }
  }

  lemma SparesStore(h: Heap, h': Heap)
    requires h' == h.(word := h'.word)
    ensures forall a: nat :: a in h.live ==> Spares(h, h', a)
  {
  }

  /**
    Any run of calls: the objects are what a plain map of separate objects would hold, every new object
    is apart from all that are live, and the kernel panics exactly when the request is too large or the
    objects leave no place and no page for it.
   */
  method Run(m: Allocator, held: map<nat, nat>, calls: seq<Call>) returns (panicked: bool, ghost log: seq<Event>)
    requires m.Valid() && Holding(m.View(), held)
    modifies m, m.heads, m.next, m.desc, m.word
    ensures AllAnswer(Abstract(old(m.View())), calls, log)
    ensures panicked <==> |log| < |calls|
    ensures panicked ==> Refuses(Replay(Abstract(old(m.View())), calls, log), calls[|log|])
    ensures !panicked ==> m.Valid() && Abstract(m.View()) == Replay(Abstract(old(m.View())), calls, log)
  {
    hide Inv, Abstract, Holding, Served, Refuses, AllAnswer, After;
    ghost var s := Abstract(m.View());
    panicked, log := false, [];
    var held' := held;
    NoAnswers(s, calls);
    for i := 0 to |calls|
      invariant !panicked && m.Valid() && Holding(m.View(), held') && |log| == i
      invariant Abstract(m.View()) == Replay(s, calls, log) && AllAnswer(s, calls, log)
    {
      ghost var e;
      panicked, held', e := Serve(m, held', calls[i]);
      if panicked { return; }
      AnswerMore(s, calls, log, e);
      log := log + [e];
    }
  }

  lemma NoAnswers(s: Ref, calls: seq<Call>)
    ensures AllAnswer(s, calls, []) && Replay(s, calls, []) == s
  {
  }

  /**
    free_s with any calls of others coming in after its search: they are answered as they would be
    alone, and then exactly this object goes.
   */
  method FreeInterrupted(m: Allocator, held: map<nat, nat>, obj: nat, size: int, calls: seq<Call>)
    returns (panicked: bool, ghost log: seq<Event>)
    requires m.Valid() && Holding(m.View(), held) && obj in held && size <= held[obj]
    requires forall i :: 0 <= i < |calls| ==> !(calls[i].DoFree? && calls[i].obj == obj)
    modifies m, m.heads, m.next, m.desc, m.word
    ensures AllAnswer(Abstract(old(m.View())), calls, log)
    ensures panicked <==> |log| < |calls|
    ensures panicked ==> Refuses(Replay(Abstract(old(m.View())), calls, log), calls[|log|])
    ensures !panicked ==> m.Valid()
    ensures !panicked ==> var s := Replay(Abstract(old(m.View())), calls, log);
      Abstract(m.View()) == After(s, DoFree(obj, size), Gone(obj))
  {
    hide Inv, Objects, Pages, Holding, Served, Refuses, AllAnswer, Spares, Located, Apply, Crammed, AllUsed, SameObject;
    ghost var s := Abstract(m.View());
    panicked, log := false, [];
    NoAnswers(s, calls);
    HeldObject(m.View(), held, obj);
    LivePage(m.View(), obj);
    var r := m.Find(obj, size);
    var (k, b, prev) := r.value;
    var held' := held;
    ghost var heaps := [m.View()];
    for i := 0 to |calls|
      invariant !panicked && m.Valid() && Holding(m.View(), held') && |log| == i && obj in m.live
      invariant Abstract(m.View()) == Replay(s, calls, log) && AllAnswer(s, calls, log)
      invariant |heaps| == i + 1 && heaps[i] == m.View() && Located(heaps[0], obj, k, b, prev) && AllSpare(heaps, obj)
    {
      ghost var e;
      panicked, held', e := Serve(m, held', calls[i]);
      if panicked { return; }
      MoreSpare(heaps, m.View(), obj);
      heaps := heaps + [m.View()];
      AnswerMore(s, calls, log, e);
      log := log + [e];
    }
    StillFound(heaps, obj, k, b, prev);
    ghost var h := m.View();
    m.Finish(obj, k, b, prev);
    GoneObjects(h, m.View(), obj);
  }

  /** The states of calls that all leave `obj` alone. */
  ghost predicate AllSpare(heaps: seq<Heap>, obj: nat) {
    && (forall i :: 0 <= i < |heaps| ==> Inv(heaps[i]))
    && (forall i :: 0 <= i < |heaps| - 1 ==> Spares(heaps[i], heaps[i + 1], obj))
  }

  lemma MoreSpare(heaps: seq<Heap>, h: Heap, obj: nat)
    requires AllSpare(heaps, obj) && Inv(h) && heaps != [] && Spares(heaps[|heaps| - 1], h, obj)
    ensures AllSpare(heaps + [h], obj) && obj in h.live
  {
    hide Inv;
  }
}
