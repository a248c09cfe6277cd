/**
  lib/malloc.c: malloc and free_s over descriptors and pages that are changed in place.

  `heads[k]` is the chain of bucket `k` and `heads[FREE]` is free_bucket_desc.  get_free_page takes
  any page of `pool`.  A panic is a failed result.
 */
module BucketAllocator {
  import opened Common
  import opened BucketModel

  /** All the pages, whatever they are used for. */
  ghost function Pages(h: Heap): set<nat> {
    h.pool + h.descPages + h.bucketPages.Keys
  }

  /** The descriptor of the page an address lies in. */
  ghost function Home(h: Heap, a: nat): nat {
    if a / PAGE in h.bucketPages then h.bucketPages[a / PAGE] else 0
  }

  ghost predicate SameObject(h: Heap, h': Heap, a: nat) {
    && Extent(h', a) == Extent(h, a) && Home(h', a) == Home(h, a)
    && (forall x: nat :: Within(h, a, x) && x < |h.word| && x < |h'.word| ==> h'.word[x] == h.word[x])
  }

  /** No page is lost, and no object that stays live is moved, resized or written. */
  ghost predicate Kept(h: Heap, h': Heap) {
    && Pages(h') == Pages(h) && |h'.word| == |h.word| && |h'.next| == |h.next|
    && h.descPages <= h'.descPages
    && (forall a: nat :: a in h.live && a in h'.live ==> SameObject(h, h', a))
  }

  lemma KeptTrans(h: Heap, h1: Heap, h2: Heap)
    requires Kept(h, h1) && Kept(h1, h2) && forall a: nat :: a in h.live && a in h2.live ==> a in h1.live
    ensures Kept(h, h2)
  {
    forall a: nat | a in h.live && a in h2.live
      ensures SameObject(h, h2, a)
    {
      assert SameObject(h, h1, a) && SameObject(h1, h2, a);
      assert forall x: nat :: Within(h, a, x) <==> Within(h1, a, x);
    }
  }

  lemma KeptGrow(h: Heap, h': Heap, p: nat)
    requires Inv(h) && Grown(h, h', p) && p in h.pool
    ensures Inv(h') && Kept(h, h') && h'.live == h.live
    ensures h'.lists[FREE] != [] && forall k: nat :: k < BUCKETS ==> h'.lists[k] == h.lists[k]
  {
    GrowKeeps(h, h', p);
  }

  lemma KeptAdd(h: Heap, h': Heap, k: nat, p: nat, fl: seq<nat>)
    requires Inv(h) && Added(h, h', k, p, fl) && p in h.pool
    ensures Kept(h, h') && h'.live == h.live
  {
    hide BucketOk, BucketsOk, DescsOk;
    var b := h.lists[FREE][0];
    assert Pages(h') == Pages(h);
    forall a: nat | a in h.live
      ensures SameObject(h, h', a)
    {
      assert a / PAGE in h.bucketPages;
      NotFree(h, a, b);
      InsidePage(h, a);
    }
  }

  lemma NotFree(h: Heap, a: nat, b: nat)
    requires Inv(h) && a in h.live && Listed(h, FREE, b)
    ensures a / PAGE in h.bucketPages && h.bucketPages[a / PAGE] != b
  {
    var k, c := Owner(h, a);
    assert HasPage(h, c) && Listed(h, k, c);
  }

  lemma InsidePage(h: Heap, a: nat)
    requires Sound(h) && a in h.live
    ensures forall x: nat :: Within(h, a, x) ==> x / PAGE == a / PAGE
  {
    var k, b := ExtentOf(h, a);
  }

  lemma KeptTake(h: Heap, b: nat)
    requires b < |h.desc| == |h.slots| && h.desc[b].freeptr < |h.word| && h.slots[b] != []
    ensures Kept(h, Take(h, b))
  {
  }

  lemma KeptGive(h: Heap, k: nat, b: nat, a: nat)
    requires Inv(h) && Chained(h, k, b) && b < |h.desc| == |h.slots| && a in h.live && a < |h.word|
    requires a / PAGE == h.desc[b].page
    requires h.desc[b].refcnt > 0
    ensures Kept(h, Give(h, b, a))
  {
    var h' := Give(h, b, a);
    forall c: nat | c in h.live && c in h'.live
      ensures SameObject(h, h', c)
    {
      var j, o := ExtentOf(h, a);
      assert Within(h, a, a);
      if Within(h, c, a) { LiveApart(h, a, c, a); }
    }
  }

  lemma BucketIs(h: Heap, k: nat, b: nat)
    requires Sound(h) && Chained(h, k, b)
    ensures BucketAt(h, k, b) && HasPage(h, b)
  {
  }

  lemma KeptRetire(h: Heap, k: nat, i: nat)
    requires Sound(h) && k < BUCKETS && i < |h.lists[k]| && h.lists[k][i] < |h.next|
    requires h.desc[h.lists[k][i]].refcnt == 0
    requires i > 0 ==> h.lists[k][i - 1] < |h.next|
    ensures Kept(h, Retire(h, k, i))
  {
    hide ListsOk, DescsOk, BucketsOk, BucketOk;
    var b, h' := h.lists[k][i], Retire(h, k, i);
    assert Chained(h, k, b);
    BucketIs(h, k, b);
    EmptyBucket(h.desc[b], h.slots[b], h.word, h.live);
    assert Pages(h') == Pages(h);
  }

  /** The smallest bucket that fits, BUCKETS if none does. */
  function BucketFor(len: nat): (k: nat)
    ensures k <= BUCKETS && (k < BUCKETS ==> Size(k) >= len) && forall j: nat :: j < k ==> Size(j) < len
    ensures k == BUCKETS <==> len > PAGE
  {
    if len <= 16 then 0 else if len <= 32 then 1 else if len <= 64 then 2 else if len <= 128 then 3
    else if len <= 256 then 4 else if len <= 512 then 5 else if len <= 1024 then 6 else if len <= 2048 then 7
    else if len <= 4096 then 8 else 9
  }

  /** Every bucket of chain `k` is full. */
  ghost predicate Full(h: Heap, k: nat) {
    forall b: nat :: Chained(h, k, b) && b < |h.slots| ==> h.slots[b] == []
  }

  /** Every bucket of chain `k` is full and there is no descriptor for a new one. */
  ghost predicate NoDesc(h: Heap, k: nat)
    requires Shape(h)
  {
    Full(h, k) && h.lists[FREE] == []
  }

  /** Every bucket of chain `k` is full and there are not enough pages for a new one. */
  ghost predicate NoRoom(h: Heap, k: nat)
    requires Shape(h)
  {
    Full(h, k) && |h.pool| < if h.lists[FREE] == [] then 2 else 1
  }

  /** The state after free_s of `a`, whose bucket is element `i` of chain `k`. */
  ghost predicate FreedAt(h: Heap, h': Heap, a: nat, k: nat, i: nat) {
    && Shape(h) && k < BUCKETS && i < |h.lists[k]| && a < |h.word| && h.lists[k][i] < |h.next|
    && (i > 0 ==> h.lists[k][i - 1] < |h.next|)
    && h.lists[k][i] == Home(h, a) && h.desc[h.lists[k][i]].refcnt > 0
    && var h1 := Give(h, h.lists[k][i], a);
       h' == if h1.desc[h.lists[k][i]].refcnt == 0 then BucketModel.Retire(h1, k, i) else h1
  }

  ghost predicate FreedTo(h: Heap, h': Heap, a: nat) {
    exists k: nat, i: nat :: FreedAt(h, h', a, k, i)
  }

  /** There is one such state: no size hint, and no stale predecessor, makes a difference to it. */
  lemma FreedOnce(h: Heap, h1: Heap, h2: Heap, a: nat)
    requires Inv(h) && FreedTo(h, h1, a) && FreedTo(h, h2, a)
    ensures h1 == h2
  {
    hide Give, BucketModel.Retire;
    var k: nat, i: nat :| FreedAt(h, h1, a, k, i);
    var l: nat, j: nat :| FreedAt(h, h2, a, l, j);
    assert Listed(h, k, Home(h, a)) && Listed(h, l, Home(h, a));
    assert NoDups(h.lists[k]) by { assert Spells(h.lists[k], h.heads[k], h.next); }
  }

  class Allocator {
    const heads: array<nat>
    const next: array<nat>
    const desc: array<Desc>
    const word: array<nat>
    var pool: set<nat>
    ghost var descPages: set<nat>
    ghost var bucketPages: map<nat, nat>
    ghost var lists: seq<seq<nat>>
    ghost var slots: seq<seq<nat>>
    ghost var live: set<nat>

    ghost function View(): Heap
      reads this, heads, next, desc, word
    {
      Heap(heads[..], next[..], desc[..], word[..], pool, descPages, bucketPages, lists, slots, live)
    }

    ghost predicate Apart() {
      heads != next && heads != word && next != word && desc as object !in {heads as object, next, word}
    }

    ghost predicate Valid()
      reads this, heads, next, desc, word
    {
      Apart() && Inv(View())
    }

    /** No objects and no descriptors; `free` are the pages get_free_page can find. */
    constructor (pages: nat, free: set<nat>)
      requires forall p: nat :: p in free ==> 0 < p < pages
      ensures Valid() && live == {} && descPages == {} && bucketPages == map[] && pool == free
      ensures fresh(heads) && fresh(next) && fresh(desc) && fresh(word)
    {
      heads := new nat[10](_ => 0);
      next := new nat[pages * 256](_ => 0);
      desc := new Desc[pages * 256](_ => Desc(0, 0, 0, 0));
      word := new nat[pages * 4096](_ => 0);
      pool := free;
      descPages, bucketPages, live := {}, map[], {};
      lists, slots := seq(10, _ => []), seq(pages * 256, _ => []);
    }

    /** init_bucket_desc: a page of descriptors, unless there is no page. */
    method InitBucketDesc() returns (ok: bool, ghost p: nat)
      requires Valid()
      modifies this, heads, next
      ensures Valid() && ok == (old(pool) != {}) && (!ok ==> View() == old(View()))
      ensures ok ==> p in old(pool) && Grown(old(View()), View(), p) && Kept(old(View()), View())
    {
      hide Inv, Kept;
      p := 0;
      if pool == {} { return false, p; }
      var first :| first in pool;
      p := first;
      ghost var h := View();
      PoolInRange(h, first);
      pool := pool - {first};
      var b, i := first * PER_PAGE, PER_PAGE;
      while i > 1
        invariant 1 <= i <= PER_PAGE && b == first * PER_PAGE + PER_PAGE - i
        invariant View() == h.(pool := h.pool - {first}, next := next[..]) && Laid(h, next[..], first, PER_PAGE - i)
      {
        next[b] := b + 1;
        b := b + 1;
        i := i - 1;
      }
      next[b] := heads[FREE];
      heads[FREE] := first * PER_PAGE;
      descPages := descPages + {first};
      lists := lists[FREE := Ids(first) + lists[FREE]];
      assert Grown(h, View(), first);
      KeptGrow(h, View(), first);
      return true, p;
    }

    /** The first bucket of chain `k` with a free object; 0 if all are full. */
    method SearchFree(k: nat) returns (b: nat)
      requires Valid() && k < BUCKETS
      ensures b == 0 <==> Full(View(), k)
      ensures b != 0 ==> Chained(View(), k, b) && b < |slots| && slots[b] != []
    {
      hide Inv;
      ghost var h := View();
      ghost var i := 0;
      ChainStart(h, k);
      b := heads[k];
      while b != 0
        invariant i <= |lists[k]| && b == (if i < |lists[k]| then lists[k][i] else 0) && (b != 0 <==> i < |lists[k]|)
        invariant forall j :: 0 <= j < i ==> lists[k][j] < |slots| && slots[lists[k][j]] == []
        decreases |lists[k]| - i
      {
        ChainAt(h, k, i);
        if desc[b].freeptr != 0 { return b; }
        b := next[b];
        i := i + 1;
      }
    }

    /** The chain of free objects in a new page. */
    method ThreadPage(page: nat, size: nat) returns (ghost fl: seq<nat>)
      requires GoodSize(size) && 0 < page && (page + 1) * PAGE <= word.Length
      requires forall a: nat :: a in live ==> a / PAGE != page
      modifies word
      ensures fl != [] && BucketOk(Desc(page, page * PAGE, 0, size), fl, word[..], live)
      ensures forall a: nat :: a < word.Length && a / PAGE != page ==> word[a] == old(word[a])
    {
      hide Threaded, BucketOk;
      var cp, i := page * PAGE, PAGE / size;
      fl := [cp];
      FirstSlot(page, size);
      ThreadStarts(page, size, word[..]);
      while i > 1
        invariant i >= 1 && cp + i * size == (page + 1) * PAGE && cp >= page * PAGE && fl != []
        invariant Threaded(fl, page, size, cp, word[..])
        invariant forall a: nat :: a < word.Length && a / PAGE != page ==> word[a] == old(word[a])
      {
        assert i * size == (i - 1) * size + size && (i - 1) * size >= size;
        ThreadMore(fl, page, size, cp, word[..]);
        word[cp] := cp + size;
        fl := fl + [cp + size];
        cp := cp + size;
        i := i - 1;
      }
      ThreadDone(fl, page, size, cp, word[..], live);
      word[cp] := 0;
    }

    /** A bucket for chain `k`, still without objects. */
    method NewBucket(k: nat) returns (b: nat)
      requires Valid() && k < BUCKETS
      modifies this, heads, next, desc, word
      ensures b == 0 <==> |old(pool)| < if old(lists[FREE]) == [] then 2 else 1
      ensures b != 0 ==>
        Sound(View()) && NoOtherEmpty(View(), b) && Chained(View(), k, b) && b < |slots| && slots[b] != []
      ensures b != 0 ==> Kept(old(View()), View()) && live == old(live)
      ensures b != 0 ==> |descPages| == |old(descPages)| + if old(lists[FREE]) == [] then 1 else 0
    {
      hide Inv, Kept, Sound, Grown;
      ghost var h0 := View();
      KeptRefl(h0);
      FreeHead(h0);
      if heads[FREE] == 0 {
        var ok, p := InitBucketDesc();
        if !ok { return 0; }
        GrownPool(h0, View(), p);
      }
      if pool == {} { return 0; }
      ghost var h := View();
      b := Attach(k);
      KeptTrans(h0, h, View());
    }

    /** The first free descriptor gets a page and heads chain `k`. */
    method Attach(k: nat) returns (b: nat)
      requires Valid() && k < BUCKETS && lists[FREE] != [] && pool != {}
      modifies this, heads, next, desc, word
      ensures b != 0 && Sound(View()) && NoOtherEmpty(View(), b) && Chained(View(), k, b) && b < |slots|
      ensures slots[b] != []
      ensures Kept(old(View()), View()) && live == old(live) && descPages == old(descPages)
    {
      hide Inv, Kept, Sound, BucketOk;
      ghost var h := View();
      FreeHead(h);
      b := heads[FREE];
      heads[FREE] := next[b];
      var page :| page in pool;
      PoolInRange(h, page);
      PoolUnused(h, page);
      pool := pool - {page};
      desc[b] := Desc(page, page * PAGE, 0, Size(k));
      ghost var fl := ThreadPage(page, Size(k));
      next[b] := heads[k];
      heads[k] := b;
      lists := lists[FREE := Without(lists[FREE], 0)][k := [b] + lists[k]];
      slots := slots[b := fl];
      bucketPages := bucketPages[page := b];
      assert Added(h, View(), k, page, fl);
      AddKeeps(h, View(), k, page, fl);
      KeptAdd(h, View(), k, page, fl);
      AddedHead(h, View(), k, page, fl);
    }

    /** The search of bucket_dir in malloc. */
    method PickBucket(len: nat) returns (k: nat)
      ensures k == BucketFor(len)
    {
      k := 0;
      while k < BUCKETS && Size(k) < len
        invariant k <= BUCKETS && forall j: nat :: j < k ==> Size(j) < len
      {
        k := k + 1;
      }
    }

    /** malloc: a new object of the smallest size that fits. */
    method Malloc(len: nat) returns (r: Option<nat>)
      requires Valid()
      modifies this, heads, next, desc, word
      ensures r == None <==> len > PAGE || old(NoRoom(View(), BucketFor(len)))
      ensures r.Some? ==> Valid() && Kept(old(View()), View())
      ensures r.Some? ==> |descPages| == |old(descPages)| + if old(NoDesc(View(), BucketFor(len))) then 1 else 0
      ensures r.Some? ==>
        r.value !in old(live) && live == old(live) + {r.value} && Extent(View(), r.value) == Size(BucketFor(len))
    {
      hide Inv, Kept, Sound;
      ghost var h0 := View();
      var k := PickBucket(len);
      if k == BUCKETS { return None; }
      ValidShape(h0);
      var b := SearchFree(k);
      if b == 0 {
        b := NewBucket(k);
        if b == 0 { return None; }
      } else {
        KeptRefl(h0);
        SearchSound(h0, b);
      }
      ghost var h := View();
      var a := TakeObject(k, b);
      KeptTrans(h0, h, View());
      return Some(a);
    }

    /** The first free object of a bucket is handed out. */
    method TakeObject(k: nat, b: nat) returns (a: nat)
      requires Apart() && Sound(View()) && NoOtherEmpty(View(), b) && Chained(View(), k, b) && b < |slots|
      requires slots[b] != []
      modifies this, desc
      ensures Valid() && Kept(old(View()), View()) && descPages == old(descPages)
      ensures a !in old(live) && live == old(live) + {a} && Extent(View(), a) == Size(k)
    {
      hide Inv, Kept, Sound;
      ghost var h := View();
      TakeKeeps(h, k, b);
      SoundShape(h);
      KeptTake(h, b);
      TakenExtent(h, k, b);
      a := desc[b].freeptr;
      desc[b] := desc[b].(freeptr := word[a], refcnt := desc[b].refcnt + 1);
      slots := slots[b := slots[b][1..]];
      live := live + {a};
      assert View() == Take(h, b);
    }

    /** The search of free_s: the bucket that holds the page of `obj`, its chain and its predecessor. */
    method Find(obj: nat, size: int) returns (r: Option<(nat, nat, nat)>)
      requires Valid()
      ensures r.Some? <==> obj / PAGE in bucketPages && size <= Extent(View(), obj)
      ensures r.Some? ==> var (k, b, prev) := r.value;
        Located(View(), obj, k, b, prev) && (prev != 0 ==> Chained(View(), k, prev))
    {
      hide Inv;
      ghost var h := View();
      var k := 0;
      while k < BUCKETS
        invariant k <= BUCKETS
        invariant forall j: nat, c: nat :: Chained(h, j, c) && j < k && c < |h.desc| && h.desc[c].page == obj / PAGE ==>
          Size(j) < size
      {
        var prev := 0;
        ChainStart(h, k);
        if size <= Size(k) {
          ghost var i := 0;
          var b := heads[k];
          while b != 0
            invariant i <= |lists[k]| && b == (if i < |lists[k]| then lists[k][i] else 0)
            invariant b != 0 <==> i < |lists[k]|
            invariant prev != 0 ==> Chained(h, k, prev)
            invariant forall j :: 0 <= j < i ==> lists[k][j] < |h.desc| && h.desc[lists[k][j]].page != obj / PAGE
            decreases |lists[k]| - i
          {
            ChainAt(h, k, i);
            if desc[b].page == obj / PAGE {
              Found(h, k, b, obj);
              if prev != 0 { ChainedDesc(h, k, prev); }
              return Some((k, b, prev));
            }
            prev := b;
            b := next[b];
            i := i + 1;
          }
        }
        k := k + 1;
      }
      NotFound(h, obj, size);
      return None;
    }

    /**
      The rest of free_s, with interrupts off.  `prev` was found before that, and other calls may have
      changed the chain in between: it may be any descriptor.
     */
    method Finish(obj: nat, k: nat, b: nat, prev: nat)
      requires Valid() && obj in live && Located(View(), obj, k, b, prev)
      modifies this, heads, next, desc, word
      ensures Valid() && Kept(old(View()), View()) && live == old(live) - {obj} && FreedTo(old(View()), View(), obj)
      ensures descPages == old(descPages)
    {
      hide Inv, Kept, Sound;
      ghost var h0 := View();
      ghost var i := Position(h0, k, b);
      LivePage(h0, obj);
      ObjectOf(h0, k, b, obj);
      GiveKeeps(h0, k, b, obj);
      KeptGive(h0, k, b, obj);
      word[obj] := desc[b].freeptr;
      desc[b] := desc[b].(freeptr := obj, refcnt := desc[b].refcnt - 1);
      slots := slots[b := [obj] + slots[b]];
      live := live - {obj};
      ghost var h := View();
      assert h == Give(h0, b, obj);
      RetireReady(h, k, i);
      if desc[b].refcnt == 0 {
        Retire(k, b, prev, i);
        KeptTrans(h0, h, View());
      } else {
        StillUsed(h, b);
      }
      assert FreedAt(h0, View(), obj, k, i);
    }

    /** Unlink an empty bucket, free its page and its descriptor. */
    method Retire(k: nat, b: nat, prev: nat, ghost i: nat)
      requires Apart() && Sound(View()) && NoOtherEmpty(View(), b) && Chained(View(), k, b) && b < desc.Length
      requires desc[b].refcnt == 0
      requires i < |lists[k]| && b == lists[k][i] && (i > 0 ==> lists[k][i - 1] < next.Length)
      requires prev != 0 ==> prev / PER_PAGE in descPages
      modifies this, heads, next
      ensures Valid() && Kept(old(View()), View()) && live == old(live) && descPages == old(descPages)
      ensures View() == BucketModel.Retire(old(View()), k, i)
    {
      hide Inv, Kept, Sound;
      ghost var h := View();
      var p := FindPrev(k, b, prev, i);
      RetireReady(h, k, i);
      if p != 0 {
        next[p] := next[b];
      } else {
        heads[k] := next[b];
      }
      pool := pool + {desc[b].page};
      bucketPages := bucketPages - {desc[b].page};
      next[b] := heads[FREE];
      heads[FREE] := b;
      lists := lists[k := Without(lists[k], i)][FREE := [b] + lists[FREE]];
      assert View() == BucketModel.Retire(h, k, i);
      RetireKeeps(h, k, i);
      KeptRetire(h, k, i);
    }

    /** The predecessor of a bucket in its chain, looked for again if `prev` is out of date; 0 for the head. */
    method FindPrev(k: nat, b: nat, prev: nat, ghost i: nat) returns (p: nat)
      requires Sound(View()) && k < BUCKETS && i < |lists[k]| && b == lists[k][i]
      requires prev != 0 ==> prev / PER_PAGE in descPages
      ensures p == if i == 0 then 0 else lists[k][i - 1]
    {
      hide Sound;
      ghost var h := View();
      RetireReady(h, k, i);
      p := prev;
      if p != 0 { PrevKnown(h, k, i, p); }
      if (p != 0 && next[p] != b) || (p == 0 && heads[k] != b) {
        ghost var j := 0;
        p := heads[k];
        WalkStart(h, k);
        while p != 0
          invariant j <= |lists[k]| && p == (if j < |lists[k]| then lists[k][j] else 0) && (p != 0 <==> j < |lists[k]|)
          invariant j < i || i == 0
          decreases |lists[k]| - j
        {
          WalkAt(h, k, j, i);
          if next[p] == b { return; }
          p := next[p];
          j := j + 1;
        }
      }
    }

    /**
      free_s.  It panics for an address in no bucket and for a size hint above the object's size; a
      valid hint changes nothing else.
     */
    method FreeS(obj: nat, size: int) returns (ok: bool)
      requires Valid() && (obj in live || obj / PAGE !in bucketPages)
      modifies this, heads, next, desc, word
      ensures ok <==> old(obj in live && size <= Extent(View(), obj))
      ensures if ok then FreedTo(old(View()), View(), obj) else View() == old(View())
      ensures Valid() && Kept(old(View()), View()) && live == if ok then old(live) - {obj} else old(live)
      ensures descPages == old(descPages)
    {
      hide Inv, Kept;
      KeptRefl(View());
      if obj in live { LivePage(View(), obj); }
      var r := Find(obj, size);
      if r == None { return false; }
      var (k, b, prev) := r.value;
      Finish(obj, k, b, prev);
      return true;
    }

    /** A user writes into its object. */
    method Store(a: nat, offset: nat, v: nat)
      requires Valid() && a in live && offset < Extent(View(), a)
      modifies word
      ensures Valid() && a + offset < word.Length && View() == old(View()).(word := old(word[..])[a + offset := v])
      ensures forall c: nat :: c in live && c != a ==> SameObject(old(View()), View(), c)
    {
      hide Inv;
      StoreKeeps(View(), a, a + offset, v);
      word[a + offset] := v;
    }
  }

  lemma ValidShape(h: Heap)
    requires Inv(h)
    ensures Shape(h)
  {
  }

  lemma SoundShape(h: Heap)
    requires Sound(h)
    ensures Shape(h)
  {
  }

  lemma SearchSound(h: Heap, b: nat)
    requires Inv(h)
    ensures Sound(h) && NoOtherEmpty(h, b)
  {
  }

  lemma TakenExtent(h: Heap, k: nat, b: nat)
    requires Sound(h) && Chained(h, k, b) && b < |h.desc| == |h.slots| && h.slots[b] != []
    requires h.desc[b].freeptr < |h.word| && IsSlot(h.desc[b].page, h.desc[b].size, h.desc[b].freeptr)
    requires h.desc[b].size == Size(k)
    ensures Extent(Take(h, b), h.desc[b].freeptr) == Size(k)
  {
    assert HasPage(h, b);
  }

  lemma Found(h: Heap, k: nat, b: nat, obj: nat)
    requires Inv(h) && Chained(h, k, b) && b < |h.desc| && h.desc[b].page == obj / PAGE
    ensures obj / PAGE in h.bucketPages && h.bucketPages[obj / PAGE] == b && Extent(h, obj) == Size(k)
  {
    assert HasPage(h, b) && BucketAt(h, k, b);
  }

  lemma NotFound(h: Heap, obj: nat, size: int)
    requires Inv(h)
    requires forall j: nat, c: nat ::
      Chained(h, j, c) && j < BUCKETS && c < |h.desc| && h.desc[c].page == obj / PAGE ==> Size(j) < size
    ensures obj / PAGE in h.bucketPages ==> Extent(h, obj) < size
  {
    if obj / PAGE in h.bucketPages {
      var b := h.bucketPages[obj / PAGE];
      assert Held(h, obj / PAGE, b);
      var k: nat :| Chained(h, k, b);
      Found(h, k, b, obj);
    }
  }

  lemma PoolInRange(h: Heap, p: nat)
    requires Inv(h) && p in h.pool
    ensures InRange(h, p) && |h.heads| == |h.lists| == 10 && |h.next| == |h.desc| == |h.slots|
    ensures (p + 1) * PAGE <= |h.word|
  {
  }

  lemma ChainStart(h: Heap, k: nat)
    requires Inv(h) && k < BUCKETS
    ensures |h.heads| == |h.lists| == 10 && |h.next| == |h.desc| == |h.slots|
    ensures h.heads[k] == (if h.lists[k] == [] then 0 else h.lists[k][0]) && (h.heads[k] == 0 <==> h.lists[k] == [])
  {
    SpellsHead(h.lists[k], h.heads[k], h.next);
  }

  lemma ChainAt(h: Heap, k: nat, i: nat)
    requires Inv(h) && k < BUCKETS && i < |h.lists[k]|
    ensures var b := h.lists[k][i]; 0 < b < |h.desc| == |h.next| == |h.slots| && Chained(h, k, b)
    ensures var b := h.lists[k][i]; h.next[b] == if i + 1 < |h.lists[k]| then h.lists[k][i + 1] else 0
    ensures i + 1 < |h.lists[k]| ==> h.lists[k][i + 1] != 0
    ensures var b := h.lists[k][i]; h.desc[b].freeptr == 0 <==> h.slots[b] == []
  {
    var b := h.lists[k][i];
    assert Chained(h, k, b) && BucketAt(h, k, b);
    assert Hop(h.lists[k], h.next, i);
    assert i + 1 < |h.lists[k]| ==> Hop(h.lists[k], h.next, i + 1);
    SpellsHead(h.slots[b], h.desc[b].freeptr, h.word);
  }

  lemma KeptRefl(h: Heap)
    ensures Kept(h, h)
  {
  }

  lemma FreeHead(h: Heap)
    requires Inv(h)
    ensures |h.heads| == |h.lists| == 10 && |h.next| == |h.desc| == |h.slots|
    ensures h.heads[FREE] == 0 <==> h.lists[FREE] == []
    ensures h.lists[FREE] != [] ==> h.heads[FREE] == h.lists[FREE][0] && 0 < h.heads[FREE] < |h.next|
  {
    SpellsHead(h.lists[FREE], h.heads[FREE], h.next);
  }

  lemma GrownPool(h: Heap, h': Heap, p: nat)
    requires Inv(h) && Grown(h, h', p) && p in h.pool
    ensures h'.live == h.live && h'.lists[FREE] != [] && (h'.pool == {} <==> |h.pool| < 2)
    ensures |h'.descPages| == |h.descPages| + 1
  {
    assert |h'.pool| == |h.pool| - 1;
    assert h'.lists[FREE][0] == Ids(p)[0];
  }

  lemma PoolUnused(h: Heap, p: nat)
    requires Inv(h) && p in h.pool
    ensures 0 < p && forall a: nat :: a in h.live ==> a / PAGE != p
  {
  }

  lemma AddedHead(h: Heap, h': Heap, k: nat, p: nat, fl: seq<nat>)
    requires Added(h, h', k, p, fl)
    ensures var b := h.lists[FREE][0]; Chained(h', k, b) && b < |h'.slots| && h'.slots[b] == fl
  {
    assert h'.lists[k][0] == h.lists[FREE][0];
  }

  // ---------------------------------------------------------------- free_s

  lemma ObjectOf(h: Heap, k: nat, b: nat, a: nat)
    requires Inv(h) && a in h.live && Chained(h, k, b) && a / PAGE in h.bucketPages && b == h.bucketPages[a / PAGE]
    ensures b < |h.desc| == |h.slots| && h.desc[b].page == a / PAGE && h.desc[b].refcnt > 0 && a < |h.word|
  {
    assert HasPage(h, b) && Held(h, a / PAGE, b);
    GiveKeeps(h, k, b, a);
  }

  lemma StillUsed(h: Heap, b: nat)
    requires Sound(h) && NoOtherEmpty(h, b) && b < |h.desc| && h.desc[b].refcnt > 0
    ensures Inv(h)
  {
  }

  lemma Position(h: Heap, k: nat, b: nat) returns (i: nat)
    requires Chained(h, k, b)
    ensures i < |h.lists[k]| && h.lists[k][i] == b
  {
    i :| i < |h.lists[k]| && h.lists[k][i] == b;
  }

  lemma RetireReady(h: Heap, k: nat, i: nat)
    requires Sound(h) && k < BUCKETS && i < |h.lists[k]|
    ensures Shape(h) && 0 < h.lists[k][i] < |h.next|
    ensures i > 0 ==>
      && 0 < h.lists[k][i - 1] < |h.next| && h.next[h.lists[k][i - 1]] == h.lists[k][i]
      && h.lists[k][i - 1] != h.lists[k][i]
    ensures i == 0 <==> h.heads[k] == h.lists[k][i]
  {
    MoveReady(h, k, i);
  }

  /** A descriptor that points at `b` is the one before it, whatever it has been used for since it was found. */
  lemma PrevKnown(h: Heap, k: nat, i: nat, prev: nat)
    requires Sound(h) && k < BUCKETS && i < |h.lists[k]| && prev != 0 && prev / PER_PAGE in h.descPages
    ensures prev < |h.next| && (h.next[prev] == h.lists[k][i] <==> i > 0 && prev == h.lists[k][i - 1])
  {
    var b := h.lists[k][i];
    MoveReady(h, k, i);
    assert SomeList(h, prev);
    var j: nat :| Listed(h, j, prev);
    ListedInRange(h, j, prev);
    if h.next[prev] == b {
      var m: nat :| m < |h.lists[j]| && h.lists[j][m] == prev;
      assert Hop(h.lists[j], h.next, m);
      assert Listed(h, j, b) && Listed(h, k, b);
      OnlyPredecessor(h.lists[k], h.heads[k], h.next, i, m);
    }
  }

  lemma WalkStart(h: Heap, k: nat)
    requires Sound(h) && k < BUCKETS
    ensures h.heads[k] == (if h.lists[k] == [] then 0 else h.lists[k][0]) && (h.heads[k] == 0 <==> h.lists[k] == [])
  {
    SpellsHead(h.lists[k], h.heads[k], h.next);
  }

  lemma WalkAt(h: Heap, k: nat, j: nat, i: nat)
    requires Sound(h) && k < BUCKETS && j < |h.lists[k]| && i < |h.lists[k]|
    ensures var p := h.lists[k][j];
      0 < p < |h.next| && h.next[p] == if j + 1 < |h.lists[k]| then h.lists[k][j + 1] else 0
    ensures j + 1 < |h.lists[k]| ==> h.lists[k][j + 1] != 0
    ensures h.next[h.lists[k][j]] == h.lists[k][i] <==> j + 1 == i
  {
    assert Hop(h.lists[k], h.next, j) && Hop(h.lists[k], h.next, i);
    assert j + 1 < |h.lists[k]| ==> Hop(h.lists[k], h.next, j + 1);
    if h.next[h.lists[k][j]] == h.lists[k][i] { OnlyPredecessor(h.lists[k], h.heads[k], h.next, i, j); }
  }

  lemma LivePage(h: Heap, a: nat)
    requires Inv(h) && a in h.live
    ensures a / PAGE in h.bucketPages
  {
  }

  lemma ChainedDesc(h: Heap, k: nat, b: nat)
    requires Inv(h) && Chained(h, k, b)
    ensures b / PER_PAGE in h.descPages
  {
    assert Listed(h, k, b);
  }

  lemma StoreKeeps(h: Heap, a: nat, x: nat, v: nat)
    requires Inv(h) && a in h.live && Within(h, a, x)
    ensures x < |h.word|
    ensures var h' := h.(word := h.word[x := v]);
      Inv(h') && forall c: nat :: c in h.live && c != a ==> SameObject(h, h', c)
  {
    var k, b := ExtentOf(h, a);
    var h' := h.(word := h.word[x := v]);
    assert forall l: nat, c: nat :: Chained(h', l, c) <==> Chained(h, l, c);
    forall l: nat, c: nat | Chained(h', l, c)
      ensures BucketAt(h', l, c)
    {
      StoreBucket(h, a, x, v, l, c);
    }
    StoreRest(h, h');
    forall c: nat | c in h.live && c != a
      ensures SameObject(h, h', c)
    {
      if Within(h, c, x) { LiveApart(h, a, c, x); }
    }
  }

  lemma StoreRest(h: Heap, h': Heap)
    requires Inv(h) && h' == h.(word := h'.word) && |h'.word| == |h.word| && BucketsOk(h')
    ensures Inv(h')
  {
    OneBucketPages(h, h');
  }

  lemma StoreBucket(h: Heap, a: nat, x: nat, v: nat, k: nat, b: nat)
    requires Inv(h) && a in h.live && Within(h, a, x) && x < |h.word| && Chained(h, k, b)
    ensures BucketAt(h.(word := h.word[x := v]), k, b)
  {
    assert BucketAt(h, k, b);
    if x in h.slots[b] { FreeApart(h, a, k, b, x); }
    SpellsFrame(h.slots[b], h.desc[b].freeptr, h.word, h.word[x := v]);
  }

  lemma HomeOf(h: Heap, a: nat) returns (k: nat)
    requires Inv(h) && a in h.live
    ensures Chained(h, k, Home(h, a)) && Size(k) == Extent(h, a)
    ensures forall l: nat :: Chained(h, l, Home(h, a)) ==> l == k
  {
    var b: nat;
    k, b := ExtentOf(h, a);
    assert HasPage(h, b);
    forall l: nat | Chained(h, l, b)
      ensures l == k
    {
      assert Listed(h, l, b) && Listed(h, k, b);
    }
  }

  /** A call that leaves `obj` alone: it stays live, in the same bucket, and no descriptor is unmade. */
  ghost predicate Spares(h: Heap, h': Heap, obj: nat) {
    && obj in h.live && obj in h'.live && h.descPages <= h'.descPages
    && Extent(h', obj) == Extent(h, obj) && Home(h', obj) == Home(h, obj)
  }

  lemma KeptSpares(h: Heap, h': Heap, obj: nat)
    requires Kept(h, h') && obj in h.live && obj in h'.live
    ensures Spares(h, h', obj)
  {
    assert SameObject(h, h', obj);
  }

  /** What the search of free_s found: the object's bucket and its chain, and some descriptor as predecessor. */
  ghost predicate Located(h: Heap, obj: nat, k: nat, b: nat, prev: nat) {
    Chained(h, k, b) && b == Home(h, obj) && (prev != 0 ==> prev / PER_PAGE in h.descPages)
  }

  lemma LocatedAfter(h: Heap, h': Heap, obj: nat, k: nat, b: nat, prev: nat)
    requires Inv(h) && Inv(h') && Spares(h, h', obj) && Located(h, obj, k, b, prev)
    ensures Located(h', obj, k, b, prev)
  {
    hide Inv;
    var j := HomeOf(h', obj);
    var l := HomeOf(h, obj);
    assert l == k && Size(j) == Size(k);
  }

  /** It stays good over any number of other calls that come in before free_s has interrupts off. */
  lemma {:induction false} StillFound(hs: seq<Heap>, obj: nat, k: nat, b: nat, prev: nat)
    requires hs != [] && (forall i :: 0 <= i < |hs| ==> Inv(hs[i])) && Located(hs[0], obj, k, b, prev)
    requires forall i :: 0 <= i < |hs| - 1 ==> Spares(hs[i], hs[i + 1], obj)
    ensures Located(hs[|hs| - 1], obj, k, b, prev)
  {
    hide Inv, Spares, Located;
    if |hs| > 1 {
      var n := |hs| - 1;
      StillFound(hs[..n], obj, k, b, prev);
      LocatedAfter(hs[n - 1], hs[n], obj, k, b, prev);
    }
  }
}
