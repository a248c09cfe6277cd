/**
  The bucket allocator of lib/malloc.c as a value.  A descriptor is numbered by its place in memory
  (256 of them to a page), an object by its address; 0 is the null pointer in both.

  `lists[k]` is the chain of bucket `k`, `lists[FREE]` the free descriptors; `slots[b]` is the list
  of free objects that runs through the page of descriptor `b`; `live` are the objects handed out;
  `bucketPages` gives the descriptor of each page that is a bucket.
 */
module BucketModel {
  import opened Common

  const BUCKETS: nat := 9
  const FREE: nat := 9
  const PAGE: nat := 4096
  const PER_PAGE: nat := 256

  datatype Desc = Desc(page: nat, freeptr: nat, refcnt: nat, size: nat)

  datatype Heap = Heap(heads: seq<nat>, next: seq<nat>, desc: seq<Desc>, word: seq<nat>,
                       pool: set<nat>, descPages: set<nat>, bucketPages: map<nat, nat>,
                       lists: seq<seq<nat>>, slots: seq<seq<nat>>, live: set<nat>)

  /** bucket_dir. */
  function Size(k: nat): nat
    requires k < BUCKETS
  {
    [16, 32, 64, 128, 256, 512, 1024, 2048, 4096][k]
  }

  predicate GoodSize(size: nat) {
    exists k: nat :: k < BUCKETS && size == Size(k)
  }

  lemma SizeCases(size: nat)
    requires GoodSize(size)
    ensures size in {16, 32, 64, 128, 256, 512, 1024, 2048, 4096}
  {
  }

  // ---------------------------------------------------------------- lists threaded through memory

  ghost predicate Hop(q: seq<nat>, next: seq<nat>, i: nat) {
    i < |q| && 0 < q[i] < |next| && next[q[i]] == if i + 1 < |q| then q[i + 1] else 0
  }

  /** Following `next` from `head` visits exactly `q`. */
  ghost predicate Spells(q: seq<nat>, head: nat, next: seq<nat>) {
    && head == (if q == [] then 0 else q[0]) && NoDups(q)
    && forall i: nat :: i < |q| ==> Hop(q, next, i)
  }

  lemma SpellsFrame(q: seq<nat>, head: nat, next: seq<nat>, next': seq<nat>)
    requires Spells(q, head, next) && |next'| == |next|
    requires forall x: nat :: x in q && x < |next| ==> next'[x] == next[x]
    ensures Spells(q, head, next')
  {
    forall i: nat | i < |q|
      ensures Hop(q, next', i)
    {
      assert Hop(q, next, i) && q[i] in q;
    }
  }

  lemma SpellsHead(q: seq<nat>, head: nat, next: seq<nat>)
    requires Spells(q, head, next)
    ensures head == 0 <==> q == []
    ensures q != [] ==> 0 < head < |next| && head == q[0] && Spells(q[1..], next[head], next) && head !in q[1..]
  {
    if q != [] {
      assert Hop(q, next, 0);
      var rest := q[1..];
      forall i: nat | i < |rest|
        ensures Hop(rest, next, i)
      {
        assert Hop(q, next, i + 1);
      }
    }
  }

  lemma SpellsPush(q: seq<nat>, head: nat, next: seq<nat>, x: nat)
    requires Spells(q, head, next) && 0 < x < |next| && x !in q
    ensures Spells([x] + q, x, next[x := head])
  {
    var all, next' := [x] + q, next[x := head];
    forall i: nat | i < |all|
      ensures Hop(all, next', i)
    {
      if i > 0 { assert Hop(q, next, i - 1) && all[i] == q[i - 1] && all[i] in q; }
    }
  }

  function Without(q: seq<nat>, i: nat): seq<nat>
    requires i < |q|
  {
    q[..i] + q[i + 1..]
  }

  lemma WithoutMembers(q: seq<nat>, i: nat)
    requires i < |q| && NoDups(q)
    ensures forall x: nat :: x in Without(q, i) <==> x in q && x != q[i]
  {
    forall x: nat | x in q && x != q[i]
      ensures x in Without(q, i)
    {
      var j :| 0 <= j < |q| && q[j] == x;
      assert Without(q, i)[if j < i then j else j - 1] == x;
    }
  }

  lemma SpellsCut(q: seq<nat>, head: nat, next: seq<nat>, i: nat)
    requires Spells(q, head, next) && 0 < i < |q| && q[i - 1] < |next| && q[i] < |next|
    ensures Spells(Without(q, i), head, next[q[i - 1] := next[q[i]]])
  {
    var cut, next' := Without(q, i), next[q[i - 1] := next[q[i]]];
    assert Hop(q, next, i) && Hop(q, next, i - 1);
    forall j: nat | j < |cut|
      ensures Hop(cut, next', j)
    {
      var at := if j < i then j else j + 1;
      assert Hop(q, next, at) && cut[j] == q[at];
      assert j + 1 < |cut| ==> cut[j + 1] == q[if j + 1 < i then j + 1 else j + 2];
    }
  }

  /** In a list, only the predecessor points at an element. */
  lemma OnlyPredecessor(q: seq<nat>, head: nat, next: seq<nat>, i: nat, j: nat)
    requires Spells(q, head, next) && i < |q| && j < |q| && q[j] < |next| && next[q[j]] == q[i]
    ensures j + 1 == i
  {
    assert Hop(q, next, j) && Hop(q, next, i);
  }

  // ---------------------------------------------------------------- one bucket page

  predicate IsSlot(page: nat, size: nat, a: nat) {
    size > 0 && a / PAGE == page && a % size == 0
  }

  ghost function LiveIn(page: nat, live: set<nat>): set<nat> {
    set a | a in live && a / PAGE == page
  }

  /** The free list and the live objects partition the page; refcnt counts the live ones. */
  ghost predicate BucketOk(d: Desc, fl: seq<nat>, word: seq<nat>, live: set<nat>) {
    && GoodSize(d.size) && 0 < d.page && (d.page + 1) * PAGE <= |word|
    && Spells(fl, d.freeptr, word)
    && (forall a: nat :: a in fl ==> IsSlot(d.page, d.size, a) && a !in live)
    && (forall a: nat :: IsSlot(d.page, d.size, a) ==> a in fl || a in live)
    && (forall a: nat :: a in live && a / PAGE == d.page ==> IsSlot(d.page, d.size, a))
    && d.refcnt == |LiveIn(d.page, live)|
  }

  lemma BucketFrame(d: Desc, fl: seq<nat>, word: seq<nat>, live: set<nat>, word': seq<nat>, live': set<nat>)
    requires BucketOk(d, fl, word, live) && |word'| == |word|
    requires forall a: nat :: a / PAGE == d.page && a < |word| ==> word'[a] == word[a]
    requires forall a: nat :: a / PAGE == d.page ==> (a in live' <==> a in live)
    ensures BucketOk(d, fl, word', live')
  {
    SpellsFrame(fl, d.freeptr, word, word');
    assert LiveIn(d.page, live') == LiveIn(d.page, live);
  }

  lemma TakeBucket(d: Desc, fl: seq<nat>, word: seq<nat>, live: set<nat>)
    requires BucketOk(d, fl, word, live) && fl != []
    ensures 0 < d.freeptr < |word| && d.freeptr == fl[0] && d.freeptr !in live && IsSlot(d.page, d.size, d.freeptr)
    ensures BucketOk(d.(freeptr := word[d.freeptr], refcnt := d.refcnt + 1), fl[1..], word, live + {d.freeptr})
  {
    SpellsHead(fl, d.freeptr, word);
    var a := d.freeptr;
    assert a in fl;
    assert LiveIn(d.page, live + {a}) == LiveIn(d.page, live) + {a};
    assert forall x: nat :: x in fl <==> x == a || x in fl[1..] by { assert fl == [fl[0]] + fl[1..]; }
  }

  lemma GiveBucket(d: Desc, fl: seq<nat>, word: seq<nat>, live: set<nat>, a: nat)
    requires BucketOk(d, fl, word, live) && a in live && a / PAGE == d.page
    ensures 0 < a < |word| && d.refcnt > 0
    ensures BucketOk(d.(freeptr := a, refcnt := d.refcnt - 1), [a] + fl, word[a := d.freeptr], live - {a})
  {
    assert a in LiveIn(d.page, live);
    assert LiveIn(d.page, live - {a}) == LiveIn(d.page, live) - {a};
    SpellsPush(fl, d.freeptr, word, a);
  }

  /** A page with no live object can be given back: nothing in it is in use. */
  lemma EmptyBucket(d: Desc, fl: seq<nat>, word: seq<nat>, live: set<nat>)
    requires BucketOk(d, fl, word, live) && d.refcnt == 0
    ensures forall a: nat :: a in live ==> a / PAGE != d.page
  {
    forall a: nat | a in live
      ensures a / PAGE != d.page
    {
      assert a / PAGE == d.page ==> a in LiveIn(d.page, live);
    }
  }

  lemma SlotGap(page: nat, size: nat, a: nat, b: nat)
    requires GoodSize(size) && IsSlot(page, size, a) && IsSlot(page, size, b) && a < b
    ensures a + size <= b
  {
    SlotBelow(size, a, b);
  }

  lemma SlotStep(page: nat, size: nat, a: nat)
    requires GoodSize(size) && IsSlot(page, size, a) && a + size < (page + 1) * PAGE
    ensures IsSlot(page, size, a + size)
  {
    NextMultiple(size, a);
  }

  lemma NextMultiple(size: nat, a: nat)
    requires size > 0 && a % size == 0
    ensures (a + size) % size == 0
  {
    var q, r := (a + size) / size, (a + size) % size;
    var n := a / size + 1 - q;
    assert a == size * (a / size) && a + size == size * q + r;
    assert size * n == r;
    assert n == 0;
  }

  lemma FirstSlot(page: nat, size: nat)
    requires GoodSize(size)
    ensures IsSlot(page, size, page * PAGE) && (PAGE / size) * size == PAGE && PAGE / size >= 1
  {
    SizeCases(size);
  }

  lemma SlotEnds(page: nat, size: nat, a: nat)
    requires GoodSize(size) && IsSlot(page, size, a)
    ensures page * PAGE <= a && a + size <= (page + 1) * PAGE
  {
    PageOfSlots(page, size);
    SlotBelow(size, a, (page + 1) * PAGE);
  }

  /** A page ends where a slot begins. */
  lemma PageOfSlots(page: nat, size: nat)
    requires GoodSize(size)
    ensures size > 0 && (page + 1) * PAGE % size == 0
  {
    SizeCases(size);
  }

  lemma SlotBelow(size: nat, a: nat, end: nat)
    requires size > 0 && a % size == 0 && end % size == 0 && a < end
    ensures a + size <= end
  {
    var i, j := a / size, end / size;
    assert a == size * i && end == size * j;
    assert j <= i ==> size * j <= size * i;
    assert size * (i + 1) <= size * j;
  }

  /** The slots of a fresh page up to `last`, in order, threaded by `word`. */
  ghost predicate Threaded(fl: seq<nat>, page: nat, size: nat, last: nat, word: seq<nat>) {
    && |fl| > 0 && fl[0] == page * PAGE && fl[|fl| - 1] == last && NoDups(fl)
    && (forall a: nat :: a in fl <==> IsSlot(page, size, a) && a <= last)
    && (forall i: nat :: i + 1 < |fl| ==> Linked(fl, word, i))
  }

  ghost predicate Linked(fl: seq<nat>, word: seq<nat>, i: nat) {
    i + 1 < |fl| && fl[i] < |word| && word[fl[i]] == fl[i + 1]
  }

  lemma ThreadStarts(page: nat, size: nat, word: seq<nat>)
    requires GoodSize(size)
    ensures Threaded([page * PAGE], page, size, page * PAGE, word)
  {
    FirstSlot(page, size);
  }

  lemma ThreadMore(fl: seq<nat>, page: nat, size: nat, last: nat, word: seq<nat>)
    requires GoodSize(size) && Threaded(fl, page, size, last, word) && last + size < (page + 1) * PAGE <= |word|
    ensures Threaded(fl + [last + size], page, size, last + size, word[last := last + size])
  {
    var fl', word' := fl + [last + size], word[last := last + size];
    assert IsSlot(page, size, last) by { assert last in fl; }
    SlotStep(page, size, last);
    forall a: nat
      ensures a in fl' <==> IsSlot(page, size, a) && a <= last + size
    {
      assert a in fl' <==> a in fl || a == last + size;
      if IsSlot(page, size, a) && last < a { SlotGap(page, size, last, a); }
    }
    forall i: nat | i + 1 < |fl'|
      ensures Linked(fl', word', i)
    {
      if i + 1 < |fl| { assert Linked(fl, word, i); }
    }
    assert forall i :: 0 <= i < |fl| ==> fl[i] in fl;
  }

  lemma ThreadDone(fl: seq<nat>, page: nat, size: nat, last: nat, word: seq<nat>, live: set<nat>)
    requires GoodSize(size) && 0 < page && Threaded(fl, page, size, last, word)
    requires last + size == (page + 1) * PAGE <= |word| && forall a: nat :: a in live ==> a / PAGE != page
    ensures BucketOk(Desc(page, page * PAGE, 0, size), fl, word[last := 0], live)
  {
    var word' := word[last := 0];
    forall a: nat
      ensures a in fl <==> IsSlot(page, size, a)
    {
      if IsSlot(page, size, a) && last < a { SlotGap(page, size, last, a); SlotEnds(page, size, a); }
    }
    forall i: nat | i < |fl|
      ensures Hop(fl, word', i)
    {
      assert fl[i] in fl;
      SlotEnds(page, size, fl[i]);
      if i + 1 < |fl| { assert Linked(fl, word, i); }
    }
    assert LiveIn(page, live) == {};
  }

  // ---------------------------------------------------------------- the whole allocator

  predicate Chained(h: Heap, k: nat, b: nat) {
    k < BUCKETS && k < |h.lists| && b in h.lists[k]
  }

  predicate Listed(h: Heap, k: nat, b: nat) {
    k < |h.lists| && b in h.lists[k]
  }

  ghost predicate Shape(h: Heap) {
    |h.heads| == |h.lists| == 10 && |h.next| == |h.desc| == |h.slots| && |h.word| == 16 * |h.next|
  }

  /** The nine chains and the free list are lists through `next` with no descriptor in common. */
  ghost predicate ListsOk(h: Heap) {
    && |h.heads| == |h.lists|
    && (forall k: nat :: k < |h.lists| ==> Spells(h.lists[k], h.heads[k], h.next))
    && (forall j: nat, k: nat, b: nat :: Listed(h, j, b) && Listed(h, k, b) ==> j == k)
  }

  /** Every descriptor ever made is on one of the lists, and nothing else is. */
  ghost predicate DescsOk(h: Heap) {
    && (forall k: nat, b: nat :: Listed(h, k, b) ==> b / PER_PAGE in h.descPages)
    && (forall b: nat :: b / PER_PAGE in h.descPages ==> SomeList(h, b))
  }

  ghost predicate SomeList(h: Heap, b: nat) {
    exists k: nat :: Listed(h, k, b)
  }

  predicate InRange(h: Heap, p: nat) {
    0 < p && (p + 1) * PER_PAGE <= |h.next|
  }

  /** The three uses of pages are disjoint, and two buckets never share one. */
  ghost predicate PagesOk(h: Heap)
    requires Shape(h) && ListsOk(h)
  {
    && h.pool !! h.descPages && h.pool !! h.bucketPages.Keys && h.descPages !! h.bucketPages.Keys
    && (forall p: nat :: p in h.pool || p in h.descPages || p in h.bucketPages ==> InRange(h, p))
    && (forall k: nat, b: nat :: Chained(h, k, b) ==> HasPage(h, b))
    && (forall p: nat :: p in h.bucketPages ==> Held(h, p, h.bucketPages[p]))
  }

  predicate HasPage(h: Heap, b: nat) {
    b < |h.desc| && h.desc[b].page in h.bucketPages && h.bucketPages[h.desc[b].page] == b
  }

  ghost predicate Held(h: Heap, p: nat, b: nat) {
    b < |h.desc| && h.desc[b].page == p && exists k: nat :: Chained(h, k, b)
  }

  ghost predicate BucketAt(h: Heap, k: nat, b: nat)
    requires k < BUCKETS
  {
    b < |h.desc| && b < |h.slots| && h.desc[b].size == Size(k) && BucketOk(h.desc[b], h.slots[b], h.word, h.live)
  }

  ghost predicate BucketsOk(h: Heap) {
    forall k: nat, b: nat :: Chained(h, k, b) ==> BucketAt(h, k, b)
  }

  ghost predicate LiveOk(h: Heap) {
    forall a: nat :: a in h.live ==> a / PAGE in h.bucketPages
  }

  /** No bucket is empty. */
  ghost predicate NoneEmpty(h: Heap) {
    forall k: nat, b: nat :: Chained(h, k, b) && b < |h.desc| ==> h.desc[b].refcnt > 0
  }

  /** No bucket but `e` is empty. */
  ghost predicate NoOtherEmpty(h: Heap, e: nat) {
    forall k: nat, b: nat :: Chained(h, k, b) && b < |h.desc| && b != e ==> h.desc[b].refcnt > 0
  }

  ghost predicate Sound(h: Heap) {
    Shape(h) && ListsOk(h) && DescsOk(h) && PagesOk(h) && BucketsOk(h) && LiveOk(h)
  }

  ghost predicate Inv(h: Heap) {
    Sound(h) && NoneEmpty(h)
  }

  lemma ListedInRange(h: Heap, k: nat, b: nat)
    requires Shape(h) && ListsOk(h) && Listed(h, k, b)
    ensures 0 < b < |h.next|
  {
    var i :| 0 <= i < |h.lists[k]| && h.lists[k][i] == b;
    assert Hop(h.lists[k], h.next, i);
  }

  /** The bucket whose page holds a live object. */
  lemma Owner(h: Heap, a: nat) returns (k: nat, b: nat)
    requires Sound(h) && a in h.live
    ensures Chained(h, k, b) && b < |h.desc| && h.desc[b].page == a / PAGE && h.desc[b].size == Size(k)
    ensures IsSlot(h.desc[b].page, h.desc[b].size, a) && a < |h.word|
  {
    b := h.bucketPages[a / PAGE];
    assert Held(h, a / PAGE, b);
    k :| Chained(h, k, b);
    assert BucketAt(h, k, b);
  }

  // ---------------------------------------------------------------- moving a descriptor between lists

  /** Descriptor `i` of list `j` becomes the first of list `k`. */
  function Move(h: Heap, j: nat, i: nat, k: nat): Heap
    requires |h.heads| == |h.lists| && j < |h.lists| && k < |h.lists| && i < |h.lists[j]| && h.lists[j][i] < |h.next|
    requires i > 0 ==> h.lists[j][i - 1] < |h.next|
  {
    var b := h.lists[j][i];
    var heads := if i == 0 then h.heads[j := h.next[b]] else h.heads;
    var next := if i == 0 then h.next else h.next[h.lists[j][i - 1] := h.next[b]];
    h.(heads := heads[k := b], next := next[b := h.heads[k]],
       lists := h.lists[j := Without(h.lists[j], i)][k := [b] + h.lists[k]])
  }

  lemma MoveReady(h: Heap, j: nat, i: nat)
    requires ListsOk(h) && j < |h.lists| && i < |h.lists[j]|
    ensures 0 < h.lists[j][i] < |h.next|
    ensures i > 0 ==> 0 < h.lists[j][i - 1] < |h.next| && h.next[h.lists[j][i - 1]] == h.lists[j][i]
    ensures i == 0 <==> h.heads[j] == h.lists[j][i]
  {
    assert Hop(h.lists[j], h.next, i);
    if i > 0 { assert Hop(h.lists[j], h.next, i - 1); }
  }

  lemma MoveMembers(h: Heap, j: nat, i: nat, k: nat)
    requires ListsOk(h) && j < |h.lists| && k < |h.lists| && j != k && i < |h.lists[j]| && h.lists[j][i] < |h.next|
    requires i > 0 ==> h.lists[j][i - 1] < |h.next|
    ensures forall l: nat, x: nat :: Listed(Move(h, j, i, k), l, x) <==>
      if x == h.lists[j][i] then l == k else Listed(h, l, x)
  {
    WithoutMembers(h.lists[j], i);
    var b, h' := h.lists[j][i], Move(h, j, i, k);
    forall l: nat, x: nat
      ensures Listed(h', l, x) <==> if x == b then l == k else Listed(h, l, x)
    {
      assert Listed(h, j, b) && (Listed(h, l, b) ==> l == j);
      if l == k {
        assert x in [b] + h.lists[k] <==> x == b || x in h.lists[k];
      } else if l < |h.lists| {
        assert h'.lists[l] == if l == j then Without(h.lists[j], i) else h.lists[l];
      }
    }
  }

  lemma MoveKeeps(h: Heap, j: nat, i: nat, k: nat)
    requires ListsOk(h) && j < |h.lists| && k < |h.lists| && j != k && i < |h.lists[j]| && h.lists[j][i] < |h.next|
    requires i > 0 ==> h.lists[j][i - 1] < |h.next|
    ensures ListsOk(Move(h, j, i, k))
    ensures forall l: nat, x: nat :: Listed(Move(h, j, i, k), l, x) <==>
      if x == h.lists[j][i] then l == k else Listed(h, l, x)
  {
    MoveReady(h, j, i);
    MoveMembers(h, j, i, k);
    var b, h' := h.lists[j][i], Move(h, j, i, k);
    var next := if i == 0 then h.next else h.next[h.lists[j][i - 1] := h.next[b]];
    forall l: nat | l < |h.lists|
      ensures Spells(h'.lists[l], h'.heads[l], h'.next)
    {
      MoveSpells(h, j, i, k, l, next);
    }
  }

  lemma CutSpells(q: seq<nat>, head: nat, next: seq<nat>, i: nat, next': seq<nat>)
    requires Spells(q, head, next) && i < |q| && q[i] < |next| && (i > 0 ==> q[i - 1] < |next|)
    requires next' == if i == 0 then next else next[q[i - 1] := next[q[i]]]
    ensures Spells(Without(q, i), if i == 0 then next[q[0]] else head, next')
  {
    if i == 0 {
      SpellsHead(q, head, next);
      assert Without(q, 0) == q[1..];
    } else {
      SpellsCut(q, head, next, i);
    }
  }

  lemma MoveSpells(h: Heap, j: nat, i: nat, k: nat, l: nat, next: seq<nat>)
    requires ListsOk(h) && j < |h.lists| && k < |h.lists| && l < |h.lists| && j != k && i < |h.lists[j]|
    requires 0 < h.lists[j][i] < |h.next|
    requires i > 0 ==> h.lists[j][i - 1] < |h.next|
    requires next == if i == 0 then h.next else h.next[h.lists[j][i - 1] := h.next[h.lists[j][i]]]
    ensures Spells(Move(h, j, i, k).lists[l], Move(h, j, i, k).heads[l], Move(h, j, i, k).next)
  {
    var b, h' := h.lists[j][i], Move(h, j, i, k);
    var q := h.lists[l];
    assert Spells(q, h.heads[l], h.next) && Listed(h, j, b);
    if l == j {
      CutSpells(q, h.heads[l], h.next, i, next);
      assert NoDups(q);
      WithoutMembers(q, i);
      hide Spells, Without;
      SpellsFrame(Without(q, i), h'.heads[l], next, h'.next);
    } else {
      hide Spells, Without;
      assert i > 0 ==> Listed(h, j, h.lists[j][i - 1]);
      assert forall x: nat :: x in q ==> Listed(h, l, x);
      SpellsFrame(q, h.heads[l], h.next, next);
      if l == k {
        SpellsPush(q, h.heads[l], next, b);
      } else {
        SpellsFrame(q, h.heads[l], next, h'.next);
      }
    }
  }

  // ---------------------------------------------------------------- init_bucket_desc

  function Ids(p: nat): (q: seq<nat>)
    ensures |q| == PER_PAGE && forall i :: 0 <= i < PER_PAGE ==> q[i] == p * PER_PAGE + i
  {
    seq(PER_PAGE, i requires 0 <= i < PER_PAGE => p * PER_PAGE + i)
  }

  /** The first `n` descriptors of page `p` each point to the next one in memory. */
  ghost predicate Laid(h: Heap, next: seq<nat>, p: nat, n: nat) {
    && |next| == |h.next|
    && (forall b: nat :: b < |next| && b < |h.next| && (b / PER_PAGE != p || b % PER_PAGE >= n) ==>
          next[b] == h.next[b])
    && (forall b: nat :: b < |next| && b / PER_PAGE == p && b % PER_PAGE < n ==> next[b] == b + 1)
  }

  /** A page of descriptors in front of the free list. */
  ghost predicate Grown(h: Heap, h': Heap, p: nat) {
    && InRange(h, p) && FREE < |h.heads| == |h.lists| && |h'.next| == |h.next|
    && h' == h.(heads := h.heads[FREE := p * PER_PAGE], next := h'.next, pool := h.pool - {p},
                descPages := h.descPages + {p}, lists := h.lists[FREE := Ids(p) + h.lists[FREE]])
    && (forall b: nat :: b < |h.next| && b < |h'.next| && b / PER_PAGE != p ==> h'.next[b] == h.next[b])
    && (forall b: nat :: b < |h'.next| && b / PER_PAGE == p ==>
          h'.next[b] == if b % PER_PAGE == PER_PAGE - 1 then h.heads[FREE] else b + 1)
  }

  lemma IdsMembers(p: nat)
    ensures forall b: nat :: b in Ids(p) <==> b / PER_PAGE == p
  {
    forall b: nat | b / PER_PAGE == p
      ensures b in Ids(p)
    {
      assert Ids(p)[b - p * PER_PAGE] == b;
    }
  }

  lemma GrowSpells(h: Heap, h': Heap, p: nat)
    requires Shape(h) && ListsOk(h) && Grown(h, h', p) && forall k: nat, b: nat :: Listed(h, k, b) ==> b / PER_PAGE != p
    ensures Spells(h'.lists[FREE], h'.heads[FREE], h'.next)
  {
    var q, rest := h'.lists[FREE], h.lists[FREE];
    IdsMembers(p);
    assert Spells(rest, h.heads[FREE], h.next);
    forall i: nat | i < |q|
      ensures Hop(q, h'.next, i)
    {
      if i >= PER_PAGE {
        assert Hop(rest, h.next, i - PER_PAGE) && Listed(h, FREE, rest[i - PER_PAGE]);
      } else {
        assert q[i] == p * PER_PAGE + i && q[i] / PER_PAGE == p && q[i] % PER_PAGE == i;
        assert i + 1 < |q| ==> q[i + 1] == if i + 1 < PER_PAGE then p * PER_PAGE + i + 1 else rest[0];
      }
    }
    forall i, j | 0 <= i < j < |q|
      ensures q[i] != q[j]
    {
      if j >= PER_PAGE { assert Listed(h, FREE, rest[j - PER_PAGE]); }
      if i < PER_PAGE { assert q[i] / PER_PAGE == p; }
    }
  }

  lemma GrowLists(h: Heap, h': Heap, p: nat)
    requires Shape(h) && ListsOk(h) && Grown(h, h', p) && forall k: nat, b: nat :: Listed(h, k, b) ==> b / PER_PAGE != p
    ensures ListsOk(h')
    ensures forall k: nat, b: nat :: Listed(h', k, b) <==> Listed(h, k, b) || (k == FREE && b / PER_PAGE == p)
  {
    IdsMembers(p);
    forall k: nat | k < |h'.lists|
      ensures Spells(h'.lists[k], h'.heads[k], h'.next)
    {
      if k == FREE {
        GrowSpells(h, h', p);
      } else {
        assert forall b: nat :: b in h.lists[k] ==> Listed(h, k, b);
        SpellsFrame(h.lists[k], h.heads[k], h.next, h'.next);
      }
    }
    forall k: nat, b: nat
      ensures Listed(h', k, b) <==> Listed(h, k, b) || (k == FREE && b / PER_PAGE == p)
    {
      assert k == FREE ==> (b in h'.lists[k] <==> b in Ids(p) || b in h.lists[FREE]);
    }
  }

  lemma GrowKeeps(h: Heap, h': Heap, p: nat)
    requires Inv(h) && Grown(h, h', p) && p in h.pool
    ensures Inv(h')
  {
    GrowLists(h, h', p);
    SameChains(h, h');
    forall b: nat | b / PER_PAGE in h'.descPages
      ensures SomeList(h', b)
    {
      if b / PER_PAGE == p {
        assert Listed(h', FREE, b);
      } else {
        assert SomeList(h, b);
        var k: nat :| Listed(h, k, b);
        assert Listed(h', k, b);
      }
    }
  }

  /** A change that leaves chains, buckets and objects alone. */
  lemma SameChains(h: Heap, h': Heap)
    requires Inv(h) && Shape(h') && ListsOk(h')
    requires forall k: nat, b: nat :: Chained(h', k, b) <==> Chained(h, k, b)
    requires h'.desc == h.desc && h'.slots == h.slots && h'.word == h.word && h'.live == h.live
    requires h'.bucketPages == h.bucketPages
    requires h'.pool + h'.descPages == h.pool + h.descPages && h'.pool !! h'.descPages
    ensures PagesOk(h') && BucketsOk(h') && LiveOk(h') && NoneEmpty(h')
  {
    assert PagesOk(h') by { SamePages(h, h'); }
    forall k: nat, b: nat | Chained(h', k, b)
      ensures BucketAt(h', k, b)
    {
      assert Chained(h, k, b) && BucketAt(h, k, b);
    }
  }

  lemma SamePages(h: Heap, h': Heap)
    requires Shape(h) && ListsOk(h) && PagesOk(h) && Shape(h') && ListsOk(h')
    requires forall k: nat, b: nat :: Chained(h', k, b) <==> Chained(h, k, b)
    requires h'.desc == h.desc && h'.bucketPages == h.bucketPages
    requires h'.pool + h'.descPages == h.pool + h.descPages && h'.pool !! h'.descPages
    ensures PagesOk(h')
  {
    assert forall p: nat :: p in h'.pool || p in h'.descPages <==> p in h.pool || p in h.descPages by {
      assert forall p: nat :: p in h'.pool || p in h'.descPages <==> p in h'.pool + h'.descPages;
    }
    assert forall p: nat :: InRange(h', p) <==> InRange(h, p);
    assert forall b: nat :: HasPage(h', b) <==> HasPage(h, b);
    forall p: nat | p in h'.bucketPages
      ensures Held(h', p, h'.bucketPages[p])
    {
      assert Held(h, p, h.bucketPages[p]);
    }
  }

  // ---------------------------------------------------------------- a new bucket

  /** A free descriptor heads chain `k` with page `p`, whose free list is `fl`. */
  ghost predicate Added(h: Heap, h': Heap, k: nat, p: nat, fl: seq<nat>) {
    && FREE < |h.heads| == |h.lists| && k < BUCKETS && h.lists[FREE] != []
    && h.lists[FREE][0] < |h.next| == |h.desc| == |h.slots|
    && var b := h.lists[FREE][0];
       && h' == Move(h, FREE, 0, k).(desc := h.desc[b := Desc(p, p * PAGE, 0, Size(k))], word := h'.word,
                                     slots := h.slots[b := fl], pool := h.pool - {p},
                                     bucketPages := h.bucketPages[p := b])
       && |h'.word| == |h.word|
       && (forall a: nat :: a < |h.word| && a < |h'.word| && a / PAGE != p ==> h'.word[a] == h.word[a])
       && BucketOk(h'.desc[b], fl, h'.word, h.live)
  }

  lemma AddMembers(h: Heap, h': Heap, k: nat, p: nat, fl: seq<nat>)
    requires Inv(h) && Added(h, h', k, p, fl) && p in h.pool
    ensures var b := h.lists[FREE][0];
      && ListsOk(h') && DescsOk(h') && h'.lists[k] == [b] + h.lists[k]
      && (forall l: nat, c: nat :: Chained(h', l, c) <==> Chained(h, l, c) || (l == k && c == b))
      && (forall l: nat :: !Chained(h, l, b))
  {
    var b := h.lists[FREE][0];
    MoveKeeps(h, FREE, 0, k);
    assert Listed(h, FREE, b);
    forall l: nat, c: nat
      ensures Chained(h', l, c) <==> Chained(h, l, c) || (l == k && c == b)
    {
      assert Listed(h', l, c) <==> Listed(Move(h, FREE, 0, k), l, c);
      assert Chained(h, l, c) <==> l < BUCKETS && Listed(h, l, c);
    }
    forall l: nat
      ensures !Chained(h, l, b)
    {
      assert Chained(h, l, b) ==> Listed(h, l, b);
    }
    assert SomeList(h, b);
    assert forall l: nat, c: nat :: Listed(h', l, c) <==> Listed(Move(h, FREE, 0, k), l, c);
    SameDescs(h, h', b, k);
  }

  lemma SameDescs(h: Heap, h': Heap, b: nat, k: nat)
    requires DescsOk(h) && h'.descPages == h.descPages && k < |h'.lists| && SomeList(h, b)
    requires forall l: nat, c: nat :: Listed(h', l, c) <==> if c == b then l == k else Listed(h, l, c)
    ensures DescsOk(h')
  {
    assert b / PER_PAGE in h.descPages by { var l: nat :| Listed(h, l, b); }
    forall c: nat | c / PER_PAGE in h'.descPages
      ensures SomeList(h', c)
    {
      assert SomeList(h, c);
      var l: nat :| Listed(h, l, c);
      assert Listed(h', if c == b then k else l, c);
    }
  }

  lemma AddKeeps(h: Heap, h': Heap, k: nat, p: nat, fl: seq<nat>)
    requires Inv(h) && Added(h, h', k, p, fl) && p in h.pool
    ensures Sound(h') && NoOtherEmpty(h', h.lists[FREE][0])
  {
    AddMembers(h, h', k, p, fl);
    assert PagesOk(h') by { AddPages(h, h', k, p, fl); }
    forall l: nat, c: nat | Chained(h', l, c)
      ensures BucketAt(h', l, c)
    {
      AddBuckets(h, h', k, p, fl, l, c);
    }
  }

  lemma AddBuckets(h: Heap, h': Heap, k: nat, p: nat, fl: seq<nat>, l: nat, c: nat)
    requires Inv(h) && Added(h, h', k, p, fl) && p in h.pool && l < BUCKETS
    requires if c == h.lists[FREE][0] then l == k else Chained(h, l, c)
    ensures BucketAt(h', l, c)
  {
    if c != h.lists[FREE][0] {
      assert BucketAt(h, l, c) && HasPage(h, c);
      BucketFrame(h.desc[c], h.slots[c], h.word, h.live, h'.word, h'.live);
    }
  }

  lemma AddPages(h: Heap, h': Heap, k: nat, p: nat, fl: seq<nat>)
    requires Inv(h) && Added(h, h', k, p, fl) && p in h.pool && ListsOk(h')
    requires forall l: nat, c: nat :: Chained(h', l, c) <==> Chained(h, l, c) || (l == k && c == h.lists[FREE][0])
    requires forall l: nat :: !Chained(h, l, h.lists[FREE][0])
    ensures PagesOk(h')
  {
    var b := h.lists[FREE][0];
    assert forall q: nat :: InRange(h', q) <==> InRange(h, q);
    forall q: nat | q in h'.bucketPages
      ensures Held(h', q, h'.bucketPages[q])
    {
      if q == p {
        assert Chained(h', k, b);
      } else {
        var c := h.bucketPages[q];
        assert Held(h, q, c);
        var l: nat :| Chained(h, l, c);
        assert Chained(h', l, c);
      }
    }
    forall l: nat, c: nat | Chained(h', l, c)
      ensures HasPage(h', c)
    {
      assert Chained(h, l, c) ==> HasPage(h, c);
    }
  }

  // ---------------------------------------------------------------- handing out and taking back

  function Take(h: Heap, b: nat): Heap
    requires b < |h.desc| == |h.slots| && h.desc[b].freeptr < |h.word| && h.slots[b] != []
  {
    var d := h.desc[b];
    h.(desc := h.desc[b := d.(freeptr := h.word[d.freeptr], refcnt := d.refcnt + 1)],
       slots := h.slots[b := h.slots[b][1..]], live := h.live + {d.freeptr})
  }

  function Give(h: Heap, b: nat, a: nat): Heap
    requires b < |h.desc| == |h.slots| && a < |h.word| && h.desc[b].refcnt > 0
  {
    var d := h.desc[b];
    h.(desc := h.desc[b := d.(freeptr := a, refcnt := d.refcnt - 1)], word := h.word[a := d.freeptr],
       slots := h.slots[b := [a] + h.slots[b]], live := h.live - {a})
  }

  lemma TakeKeeps(h: Heap, k: nat, b: nat)
    requires Sound(h) && Chained(h, k, b) && b < |h.slots| && h.slots[b] != [] && NoOtherEmpty(h, b)
    ensures 0 < h.desc[b].freeptr < |h.word| && h.desc[b].freeptr !in h.live
    ensures h.desc[b].size == Size(k) && IsSlot(h.desc[b].page, h.desc[b].size, h.desc[b].freeptr)
    ensures Inv(Take(h, b))
  {
    assert BucketAt(h, k, b);
    TakeBucket(h.desc[b], h.slots[b], h.word, h.live);
    OneBucket(h, Take(h, b), k, b);
    ListedInRange(h, k, b);
  }

  lemma GiveKeeps(h: Heap, k: nat, b: nat, a: nat)
    requires Inv(h) && Chained(h, k, b) && b < |h.desc| && a in h.live && a / PAGE == h.desc[b].page
    ensures 0 < a < |h.word| && h.desc[b].refcnt > 0 && b < |h.slots|
    ensures Sound(Give(h, b, a)) && NoOtherEmpty(Give(h, b, a), b)
  {
    assert BucketAt(h, k, b);
    GiveBucket(h.desc[b], h.slots[b], h.word, h.live, a);
    OneBucket(h, Give(h, b, a), k, b);
  }

  /** A change confined to one bucket. */
  lemma OneBucket(h: Heap, h': Heap, k: nat, b: nat)
    requires Sound(h) && Chained(h, k, b) && b < |h.desc| && NoOtherEmpty(h, b)
    requires |h'.desc| == |h.desc| && |h'.slots| == |h.slots| && |h'.word| == |h.word|
    requires h' == h.(desc := h'.desc, slots := h'.slots, word := h'.word, live := h'.live)
    requires forall c: nat :: c < |h.desc| && c < |h'.desc| && c < |h.slots| && c < |h'.slots| && c != b ==>
      h'.desc[c] == h.desc[c] && h'.slots[c] == h.slots[c]
    requires h'.desc[b].page == h.desc[b].page
    requires forall a: nat :: a / PAGE != h.desc[b].page && a < |h.word| && a < |h'.word| ==> h'.word[a] == h.word[a]
    requires forall a: nat :: a / PAGE != h.desc[b].page ==> (a in h'.live <==> a in h.live)
    requires BucketAt(h', k, b)
    ensures Sound(h') && NoOtherEmpty(h', b)
  {
    OneBucketPages(h, h');
    forall l: nat, c: nat | Chained(h', l, c)
      ensures BucketAt(h', l, c)
    {
      assert Chained(h, l, c) && BucketAt(h, l, c);
      if c == b {
        assert Listed(h, l, c) && Listed(h, k, b);
      } else {
        assert HasPage(h, c) && HasPage(h, b);
        BucketFrame(h.desc[c], h.slots[c], h.word, h.live, h'.word, h'.live);
      }
    }
    assert h.desc[b].page in h.bucketPages;
  }

  lemma OneBucketPages(h: Heap, h': Heap)
    requires Sound(h) && |h'.desc| == |h.desc| && |h'.slots| == |h.slots| && |h'.word| == |h.word|
    requires h' == h.(desc := h'.desc, slots := h'.slots, word := h'.word, live := h'.live)
    requires forall c: nat :: c < |h.desc| && c < |h'.desc| ==> h'.desc[c].page == h.desc[c].page
    ensures Shape(h') && ListsOk(h') && DescsOk(h') && PagesOk(h')
    ensures forall l: nat, c: nat :: Chained(h', l, c) <==> Chained(h, l, c)
  {
    assert forall l: nat, c: nat :: Listed(h', l, c) <==> Listed(h, l, c);
    assert forall c: nat :: SomeList(h', c) <==> SomeList(h, c);
    assert forall l: nat, c: nat :: Chained(h', l, c) <==> Chained(h, l, c);
    assert forall c: nat :: HasPage(h', c) <==> HasPage(h, c);
    assert forall q: nat, c: nat :: Held(h', q, c) <==> Held(h, q, c);
    assert forall q: nat :: InRange(h', q) <==> InRange(h, q);
  }

  // ---------------------------------------------------------------- an empty bucket goes

  function Retire(h: Heap, k: nat, i: nat): Heap
    requires FREE < |h.heads| == |h.lists| && k < |h.lists| && i < |h.lists[k]| && h.lists[k][i] < |h.next| == |h.desc|
    requires i > 0 ==> h.lists[k][i - 1] < |h.next|
  {
    var p := h.desc[h.lists[k][i]].page;
    Move(h, k, i, FREE).(pool := h.pool + {p}, bucketPages := h.bucketPages - {p})
  }

  lemma RetireKeeps(h: Heap, k: nat, i: nat)
    requires Sound(h) && k < BUCKETS && i < |h.lists[k]| && h.lists[k][i] < |h.next| && NoOtherEmpty(h, h.lists[k][i])
    requires i > 0 ==> h.lists[k][i - 1] < |h.next|
    requires h.desc[h.lists[k][i]].refcnt == 0
    ensures Inv(Retire(h, k, i))
  {
    hide BucketOk, ListsOk, DescsOk;
    var b, h' := h.lists[k][i], Retire(h, k, i);
    assert Chained(h, k, b) && BucketAt(h, k, b);
    RetireMembers(h, k, i);
    EmptyBucket(h.desc[b], h.slots[b], h.word, h.live);
    assert PagesOk(h') by { RetirePages(h, h', k, b); }
    forall l: nat, c: nat | Chained(h', l, c)
      ensures BucketAt(h', l, c)
    {
      assert Chained(h, l, c) && BucketAt(h, l, c);
    }
  }

  lemma RetireMembers(h: Heap, k: nat, i: nat)
    requires Sound(h) && k < BUCKETS && i < |h.lists[k]| && h.lists[k][i] < |h.next|
    requires i > 0 ==> h.lists[k][i - 1] < |h.next|
    ensures var h' := Retire(h, k, i);
      && ListsOk(h') && DescsOk(h')
      && forall l: nat, c: nat :: Chained(h', l, c) <==> Chained(h, l, c) && c != h.lists[k][i]
  {
    var b, h' := h.lists[k][i], Retire(h, k, i);
    assert Listed(h, k, b);
    MoveKeeps(h, k, i, FREE);
    forall l: nat, c: nat
      ensures Listed(h', l, c) <==> if c == b then l == FREE else Listed(h, l, c)
      ensures Chained(h', l, c) <==> Chained(h, l, c) && c != b
    {
      assert Listed(h', l, c) <==> Listed(Move(h, k, i, FREE), l, c);
      assert Chained(h, l, c) <==> l < BUCKETS && Listed(h, l, c);
      assert Chained(h', l, c) <==> l < BUCKETS && Listed(h', l, c);
    }
    assert SomeList(h, b);
    SameDescs(h, h', b, FREE);
  }

  lemma RetirePages(h: Heap, h': Heap, k: nat, b: nat)
    requires Sound(h) && Chained(h, k, b) && b < |h.desc| && Shape(h') && ListsOk(h') && h'.desc == h.desc
    requires h'.pool == h.pool + {h.desc[b].page} && h'.bucketPages == h.bucketPages - {h.desc[b].page}
    requires h'.descPages == h.descPages
    requires |h'.next| == |h.next| && forall l: nat, c: nat :: Chained(h', l, c) <==> Chained(h, l, c) && c != b
    ensures PagesOk(h')
  {
    assert forall q: nat :: InRange(h', q) <==> InRange(h, q);
    assert HasPage(h, b);
    forall q: nat | q in h'.bucketPages
      ensures Held(h', q, h'.bucketPages[q])
    {
      var c := h.bucketPages[q];
      assert Held(h, q, c);
      var l: nat :| Chained(h, l, c);
      assert Chained(h', l, c);
    }
    forall l: nat, c: nat | Chained(h', l, c)
      ensures HasPage(h', c)
    {
      assert Chained(h, l, c) && HasPage(h, c);
    }
  }

  // ---------------------------------------------------------------- what users of the allocator see

  /** The number of bytes that belong to an object. */
  ghost function Extent(h: Heap, a: nat): nat {
    var p := a / PAGE;
    if p in h.bucketPages && h.bucketPages[p] < |h.desc| then h.desc[h.bucketPages[p]].size else 0
  }

  ghost predicate Within(h: Heap, a: nat, x: nat) {
    a <= x < a + Extent(h, a)
  }

  lemma ExtentOf(h: Heap, a: nat) returns (k: nat, b: nat)
    requires Sound(h) && a in h.live
    ensures Chained(h, k, b) && b < |h.desc| && h.desc[b].page == a / PAGE && Extent(h, a) == h.desc[b].size == Size(k)
    ensures IsSlot(a / PAGE, Extent(h, a), a) && GoodSize(Extent(h, a)) && a + Extent(h, a) <= |h.word|
    ensures forall x: nat :: Within(h, a, x) ==> x / PAGE == a / PAGE
  {
    k, b := Owner(h, a);
    assert HasPage(h, b) && BucketAt(h, k, b);
    SlotEnds(a / PAGE, Extent(h, a), a);
  }

  /** No byte belongs to two live objects. */
  lemma LiveApart(h: Heap, a: nat, c: nat, x: nat)
    requires Sound(h) && a in h.live && c in h.live && Within(h, a, x) && Within(h, c, x)
    ensures a == c
  {
    var k, b := ExtentOf(h, a);
    var l, d := ExtentOf(h, c);
    if a < c { SlotGap(a / PAGE, Extent(h, a), a, c); }
    if c < a { SlotGap(a / PAGE, Extent(h, a), c, a); }
  }

  /** Nor to a live object and a free slot of a bucket. */
  lemma FreeApart(h: Heap, a: nat, k: nat, b: nat, s: nat)
    requires Sound(h) && a in h.live && Chained(h, k, b) && b < |h.slots| && s in h.slots[b]
    ensures !Within(h, a, s)
  {
    var j, c := ExtentOf(h, a);
    assert BucketAt(h, k, b) && HasPage(h, b) && HasPage(h, c);
    if Within(h, a, s) {
      assert b == c;
      if a < s { SlotGap(a / PAGE, Extent(h, a), a, s); }
    }
  }

  ghost function SlotsBelow(page: nat, size: nat, top: nat): set<nat> {
    set a: nat | a < top && IsSlot(page, size, a)
  }

  lemma {:induction false} NthSlot(page: nat, size: nat, n: nat)
    requires GoodSize(size) && n * size < PAGE
    ensures IsSlot(page, size, page * PAGE + n * size)
  {
    if n == 0 {
      FirstSlot(page, size);
    } else {
      assert n * size == (n - 1) * size + size;
      NthSlot(page, size, n - 1);
      SlotStep(page, size, page * PAGE + (n - 1) * size);
    }
  }

  lemma {:induction false} SlotCount(page: nat, size: nat, n: nat)
    requires GoodSize(size) && n * size <= PAGE
    ensures |SlotsBelow(page, size, page * PAGE + n * size)| == n
  {
    if n == 0 {
      assert SlotsBelow(page, size, page * PAGE) == {};
    } else {
      assert n * size == (n - 1) * size + size;
      SlotCount(page, size, n - 1);
      NthSlot(page, size, n - 1);
      OneSlotMore(page, size, page * PAGE + (n - 1) * size);
    }
  }

  lemma OneSlotMore(page: nat, size: nat, a: nat)
    requires GoodSize(size) && IsSlot(page, size, a)
    ensures |SlotsBelow(page, size, a + size)| == |SlotsBelow(page, size, a)| + 1
  {
    forall x: nat | IsSlot(page, size, x) && x < a + size
      ensures x <= a
    {
      if a < x { SlotGap(page, size, a, x); }
    }
    assert SlotsBelow(page, size, a + size) == SlotsBelow(page, size, a) + {a};
  }

  /** Free and live objects together are all the objects that fit in the page. */
  lemma BucketFull(d: Desc, fl: seq<nat>, word: seq<nat>, live: set<nat>)
    requires BucketOk(d, fl, word, live)
    ensures |fl| + d.refcnt == PAGE / d.size
  {
    FirstSlot(d.page, d.size);
    SlotCount(d.page, d.size, PAGE / d.size);
    ElementCount(fl);
    AllSlots(d, fl, word, live);
  }

  lemma AllSlots(d: Desc, fl: seq<nat>, word: seq<nat>, live: set<nat>)
    requires BucketOk(d, fl, word, live)
    ensures |SlotsBelow(d.page, d.size, d.page * PAGE + PAGE)| == |Elements(fl)| + d.refcnt
  {
    var all, used := SlotsBelow(d.page, d.size, d.page * PAGE + PAGE), LiveIn(d.page, live);
    forall a: nat
      ensures a in all <==> a in Elements(fl) || a in used
    {
      if IsSlot(d.page, d.size, a) { SlotEnds(d.page, d.size, a); }
    }
    assert all == Elements(fl) + used && Elements(fl) !! used;
  }
}
