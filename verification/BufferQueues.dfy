/**
  The linked structure under the buffer cache: doubly linked hash chains and a doubly linked free
  ring, relinked in place.  The lists `chains` and `ring` are ghost; the methods show that the
  pointers always spell exactly them.
 */
module BufferQueues {
  import opened Common
  import opened BufferCache

  /** What a link holds: the element at `i`, or -1 for NULL. */
  function At(c: seq<nat>, i: int): int {
    if 0 <= i < |c| then c[i] else -1
  }

  ghost predicate ChainLink(c: seq<nat>, next: seq<int>, prev: seq<int>, i: nat) {
    && i < |c| && c[i] < |next| && c[i] < |prev|
    && next[c[i]] == At(c, i + 1) && prev[c[i]] == At(c, i - 1)
  }

  ghost predicate LinkedChain(c: seq<nat>, next: seq<int>, prev: seq<int>) {
    forall i: nat :: i < |c| ==> ChainLink(c, next, prev, i)
  }

  function Succ(i: int, n: nat): int {
    if i + 1 == n then 0 else i + 1
  }

  function Pred(i: int, n: nat): int {
    if i == 0 then n - 1 else i - 1
  }

  ghost predicate RingLink(r: seq<nat>, next: seq<nat>, prev: seq<nat>, i: nat) {
    && i < |r| && r[i] < |next| && r[i] < |prev|
    && next[r[i]] == r[Succ(i, |r|)] && prev[r[i]] == r[Pred(i, |r|)]
  }

  ghost predicate LinkedRing(r: seq<nat>, next: seq<nat>, prev: seq<nat>) {
    forall i: nat :: i < |r| ==> RingLink(r, next, prev, i)
  }

  function Cut(q: seq<nat>, i: nat): (r: seq<nat>)
    requires i < |q|
    ensures |r| == |q| - 1 && forall j :: 0 <= j < |r| ==> r[j] == if j < i then q[j] else q[j + 1]
  {
    q[..i] + q[i + 1..]
  }

  lemma CutAt(q: seq<nat>, i: nat, j: int)
    requires i < |q| && 0 <= j < |q| - 1
    ensures Cut(q, i)[j] == if j < i then q[j] else q[j + 1]
  {
  }

  lemma {:induction false} WithoutIsCut(q: seq<nat>, i: nat)
    requires NoDups(q) && i < |q|
    ensures Without(q, q[i]) == Cut(q, i)
  {
    hide Cut;
    var t := q[1..];
    if i > 0 {
      WithoutIsCut(t, i - 1);
      assert q[0] != q[i];
      var c, d := Cut(t, i - 1), Cut(q, i);
      forall j | 0 <= j < |d|
        ensures ([q[0]] + c)[j] == d[j]
      {
        CutAt(q, i, j);
        if j > 0 { CutAt(t, i - 1, j - 1); }
      }
      assert [q[0]] + c == d;
    } else {
      WithoutAbsent(t, q[0]);
      assert Cut(q, 0) == t;
    }
  }

  lemma WithoutAbsent(q: seq<nat>, b: nat)
    requires b !in q
    ensures Without(q, b) == q
  {
  }

  /** remove_from_queues, hash half: the neighbours are joined over the gap. */
  lemma UnlinkChain(c: seq<nat>, i: nat, next: seq<int>, prev: seq<int>, next': seq<int>, prev': seq<int>)
    requires NoDups(c) && LinkedChain(c, next, prev) && i < |c|
    requires i > 0 ==> c[i - 1] < |next|
    requires i + 1 < |c| ==> c[i + 1] < |prev|
    requires next' == if i > 0 then next[c[i - 1] := At(c, i + 1)] else next
    requires prev' == if i + 1 < |c| then prev[c[i + 1] := At(c, i - 1)] else prev
    ensures LinkedChain(Cut(c, i), next', prev')
  {
    hide Cut;
    var d := Cut(c, i);
    forall j: nat | j < |d|
      ensures ChainLink(d, next', prev', j)
    {
      var k := if j < i then j else j + 1;
      assert ChainLink(c, next, prev, k);
      CutAt(c, i, j);
      if j > 0 { CutAt(c, i, j - 1); }
      if j + 1 < |d| { CutAt(c, i, j + 1); }
      assert i > 0 && k != i - 1 ==> c[k] != c[i - 1];
      assert i + 1 < |c| && k != i + 1 ==> c[k] != c[i + 1];
    }
  }

  lemma UnlinkRing(r: seq<nat>, i: nat, next: seq<nat>, prev: seq<nat>, next': seq<nat>, prev': seq<nat>)
    requires NoDups(r) && LinkedRing(r, next, prev) && i < |r| && |r| >= 2
    requires r[Pred(i, |r|)] < |next| && r[Succ(i, |r|)] < |prev|
    requires next' == next[r[Pred(i, |r|)] := r[Succ(i, |r|)]] && prev' == prev[r[Succ(i, |r|)] := r[Pred(i, |r|)]]
    ensures LinkedRing(Cut(r, i), next', prev')
  {
    hide Cut;
    var d := Cut(r, i);
    forall j: nat | j < |d|
      ensures RingLink(d, next', prev', j)
    {
      var k := if j < i then j else j + 1;
      assert RingLink(r, next, prev, k);
      CutAt(r, i, j);
      CutAt(r, i, Succ(j, |d|));
      CutAt(r, i, Pred(j, |d|));
      assert k != Pred(i, |r|) ==> r[k] != r[Pred(i, |r|)];
      assert k != Succ(i, |r|) ==> r[k] != r[Succ(i, |r|)];
    }
  }

  /** insert_into_queues, ring half: the buffer goes in before the head, that is, at the end. */
  lemma LinkRing(r: seq<nat>, b: nat, next: seq<nat>, prev: seq<nat>)
    requires NoDups(r) && LinkedRing(r, next, prev) && b !in r && r != [] && b < |next| && b < |prev|
    requires r[|r| - 1] < |next| && r[0] < |prev|
    ensures var last := r[|r| - 1];
      LinkedRing(r + [b], next[b := r[0]][last := b], prev[b := last][r[0] := b])
  {
    var d := r + [b];
    var last := r[|r| - 1];
    var next', prev' := next[b := r[0]][last := b], prev[b := last][r[0] := b];
    forall j: nat | j < |d|
      ensures RingLink(d, next', prev', j)
    {
      if j < |r| {
        assert RingLink(r, next, prev, j);
        assert d[j] == r[j] != b;
        assert j != 0 ==> r[j] != r[0];
        assert j != |r| - 1 ==> r[j] != last;
      }
    }
  }

  lemma LinkChain(c: seq<nat>, b: nat, next: seq<int>, prev: seq<int>, next': seq<int>, prev': seq<int>)
    requires NoDups(c) && LinkedChain(c, next, prev) && b !in c && b < |next| && b < |prev|
    requires c != [] ==> c[0] < |prev|
    requires next' == next[b := At(c, 0)]
    requires prev' == if c == [] then prev[b := -1] else prev[b := -1][c[0] := b]
    ensures LinkedChain([b] + c, next', prev')
  {
    var d := [b] + c;
    forall j: nat | j < |d|
      ensures ChainLink(d, next', prev', j)
    {
      if j > 0 {
        assert ChainLink(c, next, prev, j - 1);
        assert d[j] == c[j - 1] != b;
        assert j != 1 ==> c[j - 1] != c[0];
      }
    }
  }

  /** A chain none of whose members was touched is still linked. */
  lemma OtherChain(c: seq<nat>, next: seq<int>, prev: seq<int>, next': seq<int>, prev': seq<int>)
    requires LinkedChain(c, next, prev) && |next'| == |next| && |prev'| == |prev|
    requires forall x :: x in c && x < |next| && x < |prev| ==> next'[x] == next[x] && prev'[x] == prev[x]
    ensures LinkedChain(c, next', prev')
  {
    forall j: nat | j < |c|
      ensures ChainLink(c, next', prev', j)
    {
      assert ChainLink(c, next, prev, j);
      assert c[j] in c;
    }
  }

  /** The chains, read off their heads and links. */
  ghost predicate LinkedChains(chains: seq<seq<nat>>, head: seq<int>, next: seq<int>, prev: seq<int>) {
    && |head| == |chains|
    && forall h :: 0 <= h < |chains| ==> head[h] == At(chains[h], 0) && LinkedChain(chains[h], next, prev)
  }

  ghost predicate Apart(chains: seq<seq<nat>>) {
    && (forall h :: 0 <= h < |chains| ==> NoDups(chains[h]))
    && (forall g, h, x :: 0 <= g < |chains| && 0 <= h < |chains| && x in chains[g] && x in chains[h] ==> g == h)
  }

  ghost predicate InNoChain(chains: seq<seq<nat>>, b: nat) {
    forall h :: 0 <= h < |chains| ==> b !in chains[h]
  }

  lemma UnlinkChains(chains: seq<seq<nat>>, h: nat, i: nat, head: seq<int>, next: seq<int>, prev: seq<int>,
                     head': seq<int>, next': seq<int>, prev': seq<int>)
    requires LinkedChains(chains, head, next, prev) && Apart(chains) && h < |chains| && i < |chains[h]|
    requires i > 0 ==> chains[h][i - 1] < |next|
    requires i + 1 < |chains[h]| ==> chains[h][i + 1] < |prev|
    requires head' == if i == 0 then head[h := At(chains[h], 1)] else head
    requires next' == if i > 0 then next[chains[h][i - 1] := At(chains[h], i + 1)] else next
    requires prev' == if i + 1 < |chains[h]| then prev[chains[h][i + 1] := At(chains[h], i - 1)] else prev
    ensures LinkedChains(chains[h := Cut(chains[h], i)], head', next', prev')
  {
    hide Cut, NoDups;
    UnlinkChain(chains[h], i, next, prev, next', prev');
    if |chains[h]| > 1 { CutAt(chains[h], i, 0); }
    forall g | 0 <= g < |chains| && g != h
      ensures LinkedChain(chains[g], next', prev')
    {
      assert forall x :: x in chains[g] ==> x !in chains[h];
      OtherChain(chains[g], next, prev, next', prev');
    }
  }

  lemma LinkChains(chains: seq<seq<nat>>, h: nat, b: nat, head: seq<int>, next: seq<int>, prev: seq<int>,
                   head': seq<int>, next': seq<int>, prev': seq<int>)
    requires LinkedChains(chains, head, next, prev) && Apart(chains) && h < |chains| && InNoChain(chains, b)
    requires b < |next| && b < |prev| && head' == head[h := b] && (chains[h] != [] ==> chains[h][0] < |prev|)
    requires next' == next[b := At(chains[h], 0)]
    requires prev' == if chains[h] == [] then prev[b := -1] else prev[b := -1][chains[h][0] := b]
    ensures LinkedChains(chains[h := [b] + chains[h]], head', next', prev')
  {
    LinkChain(chains[h], b, next, prev, next', prev');
    forall g | 0 <= g < |chains| && g != h
      ensures LinkedChain(chains[g], next', prev')
    {
      assert forall x :: x in chains[g] ==> x !in chains[h];
      OtherChain(chains[g], next, prev, next', prev');
    }
  }

  lemma BootLinks(n: nat, hashes: nat, nextFree: seq<nat>, prevFree: seq<nat>, head: seq<int>, next: seq<int>,
          prev: seq<int>)
    requires n >= 2 && |nextFree| == n && |prevFree| == n && |head| == hashes
    requires forall i :: 0 <= i < n ==> nextFree[i] == (if i == n - 1 then 0 else i + 1)
    requires forall i :: 0 <= i < n ==> prevFree[i] == (if i == 0 then n - 1 else i - 1)
    requires forall h :: 0 <= h < hashes ==> head[h] == -1
    ensures LinkedRing(Boot(n, hashes, 0, map[]).ring, nextFree, prevFree)
    ensures LinkedChains(Boot(n, hashes, 0, map[]).chains, head, next, prev)
  {
    var r := Boot(n, hashes, 0, map[]).ring;
    forall i: nat | i < |r|
      ensures RingLink(r, nextFree, prevFree, i)
    {
      assert r[i] == i;
    }
  }

  lemma InvParts(s: Cache)
    requires Inv(s)
    ensures Shape(s) && ChainsOk(s) && RingOk(s)
  {
  }

  class Buffers {
    const bufs: array<Buf>
    const next: array<int>
    const prev: array<int>
    const head: array<int>
    const nextFree: array<nat>
    const prevFree: array<nat>
    var freeList: nat
    ghost var chains: seq<seq<nat>>
    ghost var ring: seq<nat>

    ghost predicate Separate() {
      && next != prev && next != head && prev != head && nextFree != prevFree
      && next.Length == prev.Length == nextFree.Length == prevFree.Length == bufs.Length
      && next as object != nextFree && next as object != prevFree && prev as object != nextFree
      && prev as object != prevFree
      && head as object != nextFree && head as object != prevFree && bufs as object != next && bufs as object != prev
      && bufs as object != head && bufs as object != nextFree && bufs as object != prevFree
    }

    ghost predicate Hashed()
      reads this, next, prev, head
    {
      LinkedChains(chains, head[..], next[..], prev[..])
    }

    ghost predicate Ringed()
      reads this, nextFree, prevFree
    {
      ring != [] && ring[0] == freeList && LinkedRing(ring, nextFree[..], prevFree[..])
    }

    ghost function View(): Cache
      reads this, bufs
    {
      Cache(bufs[..], chains, ring, [], map[], map[], {})
    }

    /** The pointers spell the chains and the ring, and these are what the cache's tags say they are. */
    ghost predicate Valid()
      reads this, bufs, next, prev, head, nextFree, prevFree
    {
      && Separate() && Hashed() && Ringed() && bufs.Length >= 2 && |chains| > 0
      && Shape(View()) && ChainsOk(View()) && RingOk(View())
      && forall b :: 0 <= b < bufs.Length && bufs[b].key.dev == 0 ==> next[b] == -1 && prev[b] == -1
    }

    /** buffer_init, for `n` buffers and `hashes` chains. */
    constructor (n: nat, hashes: nat)
      requires n >= 2 && hashes > 0
      ensures Valid() && View() == Boot(n, hashes, 0, map[])
      ensures fresh(bufs) && fresh(next) && fresh(prev) && fresh(head) && fresh(nextFree) && fresh(prevFree)
    {
      var boot := Boot(n, hashes, 0, map[]);
      bufs := new Buf[n](_ => Buf(Key(0, 0), false, false, 0, Unlocked, []));
      next := new int[n](_ => -1);
      prev := new int[n](_ => -1);
      head := new int[hashes](_ => -1);
      nextFree := new nat[n](i => if i < 0 then 0 else i + 1);
      prevFree := new nat[n](i => if i < 1 then 0 else i - 1);
      freeList := 0;
      chains, ring := boot.chains, boot.ring;
      new;
      hide Inv, LinkedChains, LinkedRing;
      prevFree[0] := n - 1;
      nextFree[n - 1] := 0;
      BootOk(n, hashes, 0, map[]);
      BootLinks(n, hashes, nextFree[..], prevFree[..], head[..], next[..], prev[..]);
      InvParts(boot);
      assert bufs[..] == boot.bufs;
    }

    /** remove_from_queues, hash half, for a buffer that is in chain `h`. */
    method Unhash(b: nat, h: nat, ghost i: nat)
      requires Separate() && Hashed() && Apart(chains) && h < |chains| && i < |chains[h]| && chains[h][i] == b
      requires b < bufs.Length && forall j :: 0 <= j < |chains[h]| ==> chains[h][j] < bufs.Length
      modifies next, prev, head, this`chains
      ensures Hashed() && chains == old(chains)[h := Cut(old(chains)[h], i)]
      ensures forall x :: 0 <= x < bufs.Length && x !in old(chains)[h] ==>
        next[x] == old(next[x]) && prev[x] == old(prev[x])
    {
      ghost var c := chains[h];
      ghost var head0, next0, prev0 := head[..], next[..], prev[..];
      assert ChainLink(c, next0, prev0, i);
      assert i + 1 < |c| ==> c[i + 1] < bufs.Length;
      assert i > 0 ==> c[i - 1] < bufs.Length;
      assert i > 0 <==> head[h] != b;
      if next[b] != -1 { prev[next[b]] := prev[b]; }
      if prev[b] != -1 { next[prev[b]] := next[b]; }
      if head[h] == b { head[h] := next[b]; }
      UnlinkChains(chains, h, i, head0, next0, prev0, head[..], next[..], prev[..]);
      chains := chains[h := Cut(c, i)];
    }

    /** remove_from_queues, ring half. */
    method Unring(b: nat, ghost i: nat)
      requires Separate() && Ringed() && NoDups(ring) && |ring| >= 2 && i < |ring| && ring[i] == b
      requires forall j :: 0 <= j < |ring| ==> ring[j] < bufs.Length
      modifies nextFree, prevFree, this`freeList, this`ring
      ensures Ringed() && ring == Cut(old(ring), i)
    {
      ghost var next0: seq<nat>, prev0: seq<nat> := nextFree[..], prevFree[..];
      assert RingLink(ring, next0, prev0, i);
      var p, n := prevFree[b], nextFree[b];
      nextFree[p] := n;
      prevFree[n] := p;
      if freeList == b { freeList := nextFree[b]; }
      UnlinkRing(ring, i, next0, prev0, nextFree[..], prevFree[..]);
      assert i == 0 <==> ring[0] == b;
      ring := Cut(ring, i);
    }

    /** insert_into_queues, ring half. */
    method Enring(b: nat)
      requires Separate() && Ringed() && NoDups(ring) && b !in ring && b < bufs.Length
      requires forall j :: 0 <= j < |ring| ==> ring[j] < bufs.Length
      modifies nextFree, prevFree, this`ring
      ensures Ringed() && ring == old(ring) + [b]
    {
      ghost var next0: seq<nat>, prev0: seq<nat> := nextFree[..], prevFree[..];
      assert RingLink(ring, next0, prev0, 0);
      nextFree[b] := freeList;
      prevFree[b] := prevFree[freeList];
      nextFree[prevFree[freeList]] := b;
      prevFree[freeList] := b;
      LinkRing(ring, b, next0, prev0);
      ghost var last := ring[|ring| - 1];
      assert nextFree[..] == next0[b := ring[0]][last := b];
      assert prevFree[..] == prev0[b := last][ring[0] := b];
      ring := ring + [b];
    }

    /**
      insert_into_queues, hash half.  The source stores through b_next without asking whether it is
      NULL; here that store is guarded, and `throughNull` says when the source's would go astray.
     */
    method Enhash(b: nat, h: nat) returns (throughNull: bool)
      requires Separate() && Hashed() && Apart(chains) && InNoChain(chains, b) && h < |chains| && b < bufs.Length
      requires forall j :: 0 <= j < |chains[h]| ==> chains[h][j] < bufs.Length
      modifies next, prev, head, this`chains
      ensures Hashed() && chains == old(chains)[h := [b] + old(chains)[h]]
      ensures throughNull <==> old(chains)[h] == []
      ensures forall x :: 0 <= x < bufs.Length && x != b && x !in old(chains)[h] ==>
        next[x] == old(next[x]) && prev[x] == old(prev[x])
    {
      ghost var head0, next0, prev0 := head[..], next[..], prev[..];
      prev[b] := -1;
      next[b] := head[h];
      head[h] := b;
      throughNull := next[b] == -1;
      if !throughNull {
        prev[next[b]] := b;
      }
      LinkChains(chains, h, b, head0, next0, prev0, head[..], next[..], prev[..]);
      chains := chains[h := [b] + chains[h]];
    }

    /** remove_from_queues on any buffer. */
    method RemoveFromQueues(b: nat)
      requires Valid() && b < bufs.Length
      modifies next, prev, head, nextFree, prevFree, this`chains, this`ring, this`freeList
      ensures Hashed() && Ringed() && Apart(chains) && InNoChain(chains, b)
      ensures var h := HashOf(bufs[b].key, |old(chains)|);
        chains == old(chains)[h := Without(old(chains)[h], b)]
      ensures ring == Without(old(ring), b)
      ensures forall x :: 0 <= x < bufs.Length && bufs[x].key.dev == 0 && x != b ==> next[x] == -1 && prev[x] == -1
    {
      hide ChainsOk, RingOk, Shape, LinkedRing, Apart, NoDups, Without, Cut, InNoChain;
      ghost var s := View();
      var h := HashOf(bufs[b].key, head.Length);
      ChainsApart(s);
      OwnChain(s, b);
      WithoutApart(s, b);
      if bufs[b].key.dev != 0 {
        ghost var i :| 0 <= i < |chains[h]| && chains[h][i] == b;
        WithoutIsCut(chains[h], i);
        Unhash(b, h, i);
      } else {
        NotHead(chains, b, h, head[..], next[..], prev[..]);
        WithoutAbsent(chains[h], b);
        assert next[b] == -1 && prev[b] == -1 && head[h] != b;
        assert chains == chains[h := Without(chains[h], b)];
      }
      ghost var j :| 0 <= j < |ring| && ring[j] == b;
      WithoutIsCut(ring, j);
      RingLength(s);
      Unring(b, j);
    }

    /** The end of getblk: the buffer takes the new block. */
    method Take(b: nat, k: Key)
      requires Valid() && b < bufs.Length && k.dev != 0
      modifies bufs, next, prev, head, nextFree, prevFree, this`chains, this`ring, this`freeList
      ensures Valid() && View() == Retag(old(View()), b, k)
    {
      ghost var s := View();
      RemoveFromQueues(b);
      bufs[b] := bufs[b].(key := k, count := 1, dirt := false, uptodate := false);
      RetagShape(s, b, k);
      RetagChains(s, b, k);
      RetagRing(s, b, k);
      WithoutNoDups(s.ring, b);
      WithoutBounds(s, b);
      Enring(b);
      var _ := Enhash(b, HashOf(k, head.Length));
    }

    /** find_buffer: it walks one chain by its pointers. */
    method FindBuffer(k: Key) returns (r: int)
      requires Valid()
      ensures r == if Find(View(), k).None? then -1 else Find(View(), k).value
    {
      ghost var c := chains[HashOf(k, |chains|)];
      var tmp := head[HashOf(k, head.Length)];
      ghost var i := 0;
      assert c[0..] == c;
      while tmp != -1
        invariant 0 <= i <= |c| && tmp == At(c, i)
        invariant FindIn(bufs[..], c[i..], k) == Find(View(), k)
        decreases |c| - i
      {
        assert ChainLink(c, next[..], prev[..], i);
        if bufs[tmp].key == k { return tmp; }
        assert c[i..][1..] == c[i + 1..];
        tmp := next[tmp];
        i := i + 1;
      }
      return -1;
    }

    /** The search loop of getblk, round the ring until it is back at the head. */
    method PickVictim() returns (best: int)
      requires Valid()
      ensures best == if Pick(bufs[..], ring, None).None? then -1 else Pick(bufs[..], ring, None).value
    {
      best := -1;
      var tmp := freeList;
      ghost var i := 0;
      assert ring[0..] == ring;
      while true
        invariant 0 <= i < |ring| && tmp == ring[i] && -1 <= best < bufs.Length
        invariant Pick(bufs[..], ring[i..], if best == -1 then None else Some(best)) == Pick(bufs[..], ring, None)
        decreases |ring| - i
      {
        assert ring[i..][1..] == ring[i + 1..];
        if bufs[tmp].count == 0 {
          if best == -1 || Badness(bufs[tmp]) < Badness(bufs[best]) {
            best := tmp;
            if Badness(bufs[tmp]) == 0 { break; }
          }
        }
        assert RingLink(ring, nextFree[..], prevFree[..], i);
        assert i + 1 < |ring| ==> ring[i + 1] != ring[0];
        tmp := nextFree[tmp];
        i := i + 1;
        if tmp == freeList { break; }
      }
    }
  }

  lemma ChainsApart(s: Cache)
    requires Shape(s) && ChainsOk(s)
    ensures Apart(s.chains)
    ensures forall h, j :: 0 <= h < |s.chains| && 0 <= j < |s.chains[h]| ==> s.chains[h][j] < |s.bufs|
  {
    forall g, h, x | 0 <= g < |s.chains| && 0 <= h < |s.chains| && x in s.chains[g] && x in s.chains[h]
      ensures g == h
    {
      var i :| 0 <= i < |s.chains[g]| && s.chains[g][i] == x;
      assert x < |s.bufs|;
      assert HashOf(s.bufs[x].key, |s.chains|) == g;
      assert HashOf(s.bufs[x].key, |s.chains|) == h;
    }
  }

  lemma OwnChain(s: Cache, b: nat)
    requires Shape(s) && ChainsOk(s) && RingOk(s) && b < |s.bufs|
    ensures s.bufs[b].key.dev != 0 ==> b in s.chains[HashOf(s.bufs[b].key, |s.chains|)]
    ensures s.bufs[b].key.dev == 0 ==> InNoChain(s.chains, b)
    ensures NoDups(s.chains[HashOf(s.bufs[b].key, |s.chains|)])
    ensures b in s.ring && NoDups(s.ring)
    ensures forall i :: 0 <= i < |s.ring| ==> s.ring[i] < |s.bufs|
    ensures forall x, h :: 0 <= x < |s.bufs| && 0 <= h < |s.chains| && s.bufs[x].key.dev == 0 ==> x !in s.chains[h]
  {
  }

  lemma NotHead(chains: seq<seq<nat>>, b: nat, h: nat, head: seq<int>, next: seq<int>, prev: seq<int>)
    requires LinkedChains(chains, head, next, prev) && InNoChain(chains, b) && h < |chains|
    ensures head[h] != b && b !in chains[h]
  {
  }

  lemma WithoutApart(s: Cache, b: nat)
    requires Shape(s) && ChainsOk(s) && Apart(s.chains) && b < |s.bufs|
    ensures var h := HashOf(s.bufs[b].key, |s.chains|);
      var c := s.chains[h := Without(s.chains[h], b)];
      Apart(c) && InNoChain(c, b)
  {
    var h := HashOf(s.bufs[b].key, |s.chains|);
    WithoutNoDups(s.chains[h], b);
  }

  lemma WithoutBounds(s: Cache, b: nat)
    requires Shape(s) && b < |s.bufs|
    ensures forall j :: 0 <= j < |Without(s.ring, b)| ==> Without(s.ring, b)[j] < |s.bufs|
    ensures var h := HashOf(s.bufs[b].key, |s.chains|);
      var c := s.chains[h := Without(s.chains[h], b)];
      forall g, j :: 0 <= g < |c| && 0 <= j < |c[g]| ==> c[g][j] < |s.bufs|
  {
    forall j | 0 <= j < |Without(s.ring, b)|
      ensures Without(s.ring, b)[j] < |s.bufs|
    {
      assert Without(s.ring, b)[j] in s.ring;
    }
    var h := HashOf(s.bufs[b].key, |s.chains|);
    var c := s.chains[h := Without(s.chains[h], b)];
    forall g, j | 0 <= g < |c| && 0 <= j < |c[g]|
      ensures c[g][j] < |s.bufs|
    {
      assert c[g][j] in s.chains[g];
    }
  }

  lemma RingLength(s: Cache)
    requires Shape(s) && RingOk(s) && |s.bufs| >= 2
    ensures |s.ring| >= 2
  {
    assert 0 in s.ring && 1 in s.ring;
  }
}
