/**
  The buffer cache of fs/buffer.c as a protocol.  Kernel code is not preempted, so a call is a
  series of atomic steps cut where it may sleep; between two steps any other client, the disk
  driver or a sync may run.  A client that uses several buffers counts as several clients.

  `truth` and `forgotten` are not kernel state.  `truth` records, block by block, the contents last
  written through the cache, which is what a reader should see.  `forgotten` records the blocks
  that invalidate_buffers has dropped, in use or not: what was written to them may be lost.
 */
module BufferCache {
  import opened Common

  /** Device and block number; device 0 marks a buffer that holds no block. */
  datatype Key = Key(dev: nat, block: nat)

  type Data = seq<nat>

  datatype Lock = Unlocked | Reading | Writing

  datatype Buf = Buf(key: Key, uptodate: bool, dirt: bool, count: nat, lock: Lock, data: Data)

  /** Where a client is inside getblk or bread; `Got` and `Have` are after the return. */
  datatype Client =
    | Idle
    | Looking(key: Key)
    | Hashed(key: Key, buf: nat)
    | NoBuffer(key: Key)
    | Victim(key: Key, buf: nat)
    | Syncing(key: Key, buf: nat)
    | Got(key: Key, buf: nat)
    | Fetching(key: Key, buf: nat)
    | Have(key: Key, buf: nat)

  datatype Cache = Cache(
    bufs: seq<Buf>,
    chains: seq<seq<nat>>,
    ring: seq<nat>,
    clients: seq<Client>,
    disk: map<Key, Data>,
    truth: map<Key, Data>,
    forgotten: set<Key>)

  function Read(d: map<Key, Data>, k: Key): Data {
    if k in d then d[k] else []
  }

  /** _hashfn: the exclusive or of device and block, reduced. */
  function HashOf(k: Key, n: nat): (h: nat)
    requires n > 0
    ensures h < n
  {
    Xor(k.dev, k.block) % n
  }

  function Xor(a: nat, b: nat): nat
    decreases a + b
  {
    if a == 0 then b else if b == 0 then a
    else (if a % 2 == b % 2 then 0 else 1) + 2 * Xor(a / 2, b / 2)
  }

  function BitAt(x: nat, i: nat): nat {
    if i == 0 then x % 2 else BitAt(x / 2, i - 1)
  }

  lemma {:induction false} ZeroBits(i: nat)
    ensures BitAt(0, i) == 0
  {
    if i > 0 { ZeroBits(i - 1); }
  }

  lemma {:induction false} XorBits(a: nat, b: nat, i: nat)
    ensures BitAt(Xor(a, b), i) == (BitAt(a, i) + BitAt(b, i)) % 2
  {
    ZeroBits(i);
    BitBound(a, i);
    BitBound(b, i);
    if a != 0 && b != 0 && i > 0 {
      XorBits(a / 2, b / 2, i - 1);
      assert Xor(a, b) / 2 == Xor(a / 2, b / 2);
    }
  }

  lemma {:induction false} BitBound(x: nat, i: nat)
    ensures BitAt(x, i) < 2
  {
    if i > 0 { BitBound(x / 2, i - 1); }
  }

  lemma {:induction false} SameBits(x: nat, y: nat)
    requires forall i: nat :: BitAt(x, i) == BitAt(y, i)
    ensures x == y
  {
    assert BitAt(x, 0) == BitAt(y, 0);
    if x != 0 || y != 0 {
      forall i: nat ensures BitAt(x / 2, i) == BitAt(y / 2, i) {
        assert BitAt(x, i + 1) == BitAt(y, i + 1);
      }
      SameBits(x / 2, y / 2);
    }
  }

  /** The chain of a block: its device and number, bit by bit, reduced by the number of chains. */
  lemma HashIsXor(k: Key, n: nat, x: nat)
    requires n > 0 && forall i: nat :: BitAt(x, i) == (BitAt(k.dev, i) + BitAt(k.block, i)) % 2
    ensures HashOf(k, n) == x % n
  {
    forall i: nat ensures BitAt(x, i) == BitAt(Xor(k.dev, k.block), i) { XorBits(k.dev, k.block, i); }
    SameBits(x, Xor(k.dev, k.block));
  }

  /** find_buffer: the first buffer of the chain that carries the key. */
  function FindIn(bufs: seq<Buf>, chain: seq<nat>, k: Key): Option<nat> {
    if chain == [] then None
    else if chain[0] < |bufs| && bufs[chain[0]].key == k then Some(chain[0])
    else FindIn(bufs, chain[1..], k)
  }

  function Find(s: Cache, k: Key): Option<nat>
    requires |s.chains| > 0
  {
    FindIn(s.bufs, s.chains[HashOf(k, |s.chains|)], k)
  }

  function Badness(b: Buf): nat {
    (if b.dirt then 2 else 0) + (if b.lock.Unlocked? then 0 else 1)
  }

  /** The do-while loop of getblk: the best unused buffer of the ring, `best` being the best so far. */
  function Pick(bufs: seq<Buf>, ring: seq<nat>, best: Option<nat>): Option<nat>
    requires forall i :: 0 <= i < |ring| ==> ring[i] < |bufs|
    requires best.Some? ==> best.value < |bufs|
  {
    if ring == [] then best
    else
      var b := ring[0];
      if bufs[b].count > 0 then Pick(bufs, ring[1..], best)
      else if best.None? || Badness(bufs[b]) < Badness(bufs[best.value]) then
        if Badness(bufs[b]) == 0 then Some(b) else Pick(bufs, ring[1..], Some(b))
      else Pick(bufs, ring[1..], best)
  }

  function Without(q: seq<nat>, b: nat): (r: seq<nat>)
    ensures forall x :: x in r <==> x in q && x != b
  {
    if q == [] then [] else if q[0] == b then Without(q[1..], b) else [q[0]] + Without(q[1..], b)
  }

  predicate Holds(c: Client, b: nat) {
    (c.Hashed? || c.Got? || c.Fetching? || c.Have?) && c.buf == b
  }

  function SetBuf(s: Cache, b: nat, x: Buf): Cache
    requires b < |s.bufs|
  {
    s.(bufs := s.bufs[b := x])
  }

  function SetClient(s: Cache, p: nat, c: Client): Cache
    requires p < |s.clients|
  {
    s.(clients := s.clients[p := c])
  }

  /** The last lines of getblk: the buffer changes its block, its hash chain and its place in the ring. */
  function Retag(s: Cache, b: nat, k: Key): Cache
    requires b < |s.bufs| && |s.chains| > 0
  {
    var n := |s.chains|;
    var h := HashOf(s.bufs[b].key, n);
    var c1 := s.chains[h := Without(s.chains[h], b)];
    var h' := HashOf(k, n);
    s.(bufs := s.bufs[b := s.bufs[b].(key := k, count := 1, dirt := false, uptodate := false)],
       chains := c1[h' := [b] + c1[h']],
       ring := Without(s.ring, b) + [b])
  }

  datatype Step =
    | Start(p: nat, key: Key)
    | Lookup(p: nat)
    | Retry(p: nat)
    | HashReady(p: nat)
    | VictimReady(p: nat)
    | SyncDone(p: nat)
    | IssueRead(p: nat)
    | ReadDone(p: nat)
    | Modify(p: nat, data: Data)
    | Release(p: nat)
    | StartWrite(b: nat)
    | Finish(b: nat, good: bool)
    | Forget(b: nat)

  ghost predicate Shape(s: Cache) {
    && |s.chains| > 0
    && (forall h, i :: 0 <= h < |s.chains| && 0 <= i < |s.chains[h]| ==> s.chains[h][i] < |s.bufs|)
    && (forall i :: 0 <= i < |s.ring| ==> s.ring[i] < |s.bufs|)
    && (forall p :: 0 <= p < |s.clients| && HasBuf(s.clients[p]) ==> s.clients[p].buf < |s.bufs|)
  }

  predicate HasBuf(c: Client) {
    c.Hashed? || c.Victim? || c.Syncing? || c.Got? || c.Fetching? || c.Have?
  }

  // ---------------------------------------------------------------- the steps

  /** getblk up to its first sleep: hash lookup, then the search for a victim. */
  function DoLookup(s: Cache, p: nat): Cache
    requires Shape(s) && p < |s.clients| && s.clients[p].Looking?
  {
    var k := s.clients[p].key;
    match Find(s, k)
    case Some(b) =>
      FindInRange(s.bufs, s.chains[HashOf(k, |s.chains|)], k);
      SetClient(SetBuf(s, b, s.bufs[b].(count := s.bufs[b].count + 1)), p, Hashed(k, b))
    case None =>
      match Pick(s.bufs, s.ring, None)
      case None => SetClient(s, p, NoBuffer(k))
      case Some(b) => SetClient(s, p, Victim(k, b))
  }

  lemma FindInRange(bufs: seq<Buf>, chain: seq<nat>, k: Key)
    ensures var r := FindIn(bufs, chain, k);
      r.Some? ==> r.value < |bufs| && r.value in chain && bufs[r.value].key == k
  {
  }

  /** get_hash_table after its wait: the tag is checked again. */
  function DoHashReady(s: Cache, p: nat): Cache
    requires Shape(s) && p < |s.clients| && s.clients[p].Hashed?
  {
    var k, b := s.clients[p].key, s.clients[p].buf;
    if s.bufs[b].key == k then SetClient(s, p, Got(k, b))
    else if s.bufs[b].count == 0 then s
    else SetClient(SetBuf(s, b, s.bufs[b].(count := s.bufs[b].count - 1)), p, Looking(k))
  }

  /** getblk after waiting for its victim: in use again, dirty again, or no longer needed; else taken. */
  function DoVictimReady(s: Cache, p: nat): Cache
    requires Shape(s) && p < |s.clients| && s.clients[p].Victim?
  {
    var k, b := s.clients[p].key, s.clients[p].buf;
    if s.bufs[b].count > 0 then SetClient(s, p, Looking(k))
    else if s.bufs[b].dirt then SetClient(s, p, Syncing(k, b))
    else if Find(s, k).Some? then SetClient(s, p, Looking(k))
    else SetClient(Retag(s, b, k), p, Got(k, b))
  }

  /** bread after getblk: an uptodate buffer is returned, any other is locked and read. */
  function DoIssueRead(s: Cache, p: nat): Cache
    requires Shape(s) && p < |s.clients| && s.clients[p].Got?
  {
    var k, b := s.clients[p].key, s.clients[p].buf;
    if s.bufs[b].uptodate then SetClient(s, p, Have(k, b))
    else SetClient(SetBuf(s, b, s.bufs[b].(lock := Reading, dirt := false)), p, Fetching(k, b))
  }

  function DropRef(s: Cache, p: nat, b: nat): Cache
    requires p < |s.clients| && b < |s.bufs|
  {
    if s.bufs[b].count == 0 then s
    else SetClient(SetBuf(s, b, s.bufs[b].(count := s.bufs[b].count - 1)), p, Idle)
  }

  /** bread after its wait: a buffer that is still not uptodate is released and the call fails. */
  function DoReadDone(s: Cache, p: nat): Cache
    requires Shape(s) && p < |s.clients| && s.clients[p].Fetching?
  {
    var k, b := s.clients[p].key, s.clients[p].buf;
    if s.bufs[b].uptodate then SetClient(s, p, Have(k, b)) else DropRef(s, p, b)
  }

  /**
    A holder changes the data and marks it dirty; one that has not read the block fills in all of it
    and marks it uptodate.
   */
  function DoModify(s: Cache, p: nat, data: Data): Cache
    requires Shape(s) && p < |s.clients| && HasBuf(s.clients[p])
  {
    var k, b := s.clients[p].key, s.clients[p].buf;
    var uptodate := s.bufs[b].uptodate || !s.clients[p].Have?;
    SetBuf(s, b, s.bufs[b].(data := data, dirt := true, uptodate := uptodate)).(truth := s.truth[k := data])
  }

  /** The driver finishes: a write always succeeds, a read may fail. */
  function DoFinish(s: Cache, b: nat, good: bool): Cache
    requires b < |s.bufs|
  {
    var x := s.bufs[b];
    if x.lock.Reading? then
      if good then SetBuf(s, b, x.(lock := Unlocked, uptodate := true, data := Read(s.disk, x.key)))
      else SetBuf(s, b, x.(lock := Unlocked))
    else SetBuf(s, b, x.(lock := Unlocked, uptodate := true)).(disk := s.disk[x.key := x.data])
  }

  predicate Enabled(s: Cache, t: Step) {
    match t
    case Start(p, k) => p < |s.clients| && s.clients[p].Idle? && k.dev != 0
    case Lookup(p) => p < |s.clients| && s.clients[p].Looking?
    case Retry(p) => p < |s.clients| && s.clients[p].NoBuffer?
    case HashReady(p) => p < |s.clients| && s.clients[p].Hashed? && Free(s, s.clients[p].buf)
    case VictimReady(p) => p < |s.clients| && s.clients[p].Victim? && Free(s, s.clients[p].buf)
    case SyncDone(p) => p < |s.clients| && s.clients[p].Syncing?
    case IssueRead(p) => p < |s.clients| && s.clients[p].Got? && Free(s, s.clients[p].buf)
    case ReadDone(p) => p < |s.clients| && s.clients[p].Fetching? && Free(s, s.clients[p].buf)
    case Modify(p, data) => p < |s.clients| && (s.clients[p].Have? || (s.clients[p].Got? && Free(s, s.clients[p].buf)))
    case Release(p) => p < |s.clients| && (s.clients[p].Got? || s.clients[p].Have?) && Free(s, s.clients[p].buf)
    case StartWrite(b) => Free(s, b) && s.bufs[b].dirt
    case Finish(b, good) => b < |s.bufs| && !s.bufs[b].lock.Unlocked?
    case Forget(b) => Free(s, b)
  }

  predicate Free(s: Cache, b: nat) {
    b < |s.bufs| && s.bufs[b].lock.Unlocked?
  }

  /** One atomic step of the system. */
  function Do(s: Cache, t: Step): Cache
    requires Shape(s) && Enabled(s, t)
  {
    match t
    case Start(p, k) => SetClient(s, p, Looking(k))
    case Lookup(p) => DoLookup(s, p)
    case Retry(p) => SetClient(s, p, Looking(s.clients[p].key))
    case HashReady(p) => DoHashReady(s, p)
    case VictimReady(p) => DoVictimReady(s, p)
    case SyncDone(p) => SetClient(s, p, Victim(s.clients[p].key, s.clients[p].buf))
    case IssueRead(p) => DoIssueRead(s, p)
    case ReadDone(p) => DoReadDone(s, p)
    case Modify(p, data) => DoModify(s, p, data)
    case Release(p) => DropRef(s, p, s.clients[p].buf)
    case StartWrite(b) => SetBuf(s, b, s.bufs[b].(lock := Writing, dirt := false))
    case Finish(b, good) => DoFinish(s, b, good)
    case Forget(b) =>
      SetBuf(s, b, s.bufs[b].(uptodate := false, dirt := false)).(forgotten := s.forgotten + {s.bufs[b].key})
  }

  // ---------------------------------------------------------------- invariants

  ghost function Holders(s: Cache, b: nat): set<int> {
    set p | 0 <= p < |s.clients| && Holds(s.clients[p], b)
  }

  /** No two buffers carry the same block. */
  ghost predicate Unique(s: Cache) {
    forall a, b :: 0 <= a < |s.bufs| && 0 <= b < |s.bufs| && s.bufs[a].key == s.bufs[b].key ==>
      a == b || s.bufs[a].key.dev == 0
  }

  /** Every buffer with a device is in its own chain, once, and in no other. */
  ghost predicate ChainsOk(s: Cache)
    requires |s.chains| > 0
  {
    && (forall h :: 0 <= h < |s.chains| ==> NoDups(s.chains[h]))
    && (forall h, b :: 0 <= h < |s.chains| && 0 <= b < |s.bufs| ==>
          (b in s.chains[h] <==> s.bufs[b].key.dev != 0 && HashOf(s.bufs[b].key, |s.chains|) == h))
  }

  /** Every buffer is in the ring, once. */
  ghost predicate RingOk(s: Cache) {
    NoDups(s.ring) && forall b :: 0 <= b < |s.bufs| ==> b in s.ring
  }

  /** b_count is the number of clients that hold the buffer, and a held buffer carries their block. */
  ghost predicate CountsOk(s: Cache) {
    && (forall b :: 0 <= b < |s.bufs| ==> s.bufs[b].count == |Holders(s, b)|)
    && (forall p :: 0 <= p < |s.clients| && !s.clients[p].Idle? ==> s.clients[p].key.dev != 0)
    && (forall p :: 0 <= p < |s.clients| && HasBuf(s.clients[p]) && Holds(s.clients[p], s.clients[p].buf) ==>
          s.clients[p].buf < |s.bufs| && s.bufs[s.clients[p].buf].key == s.clients[p].key)
  }

  /** What one buffer says about the disk and about the last contents written, unless its block is forgotten. */
  ghost predicate BufOk(x: Buf, disk: map<Key, Data>, truth: map<Key, Data>, forgotten: set<Key>) {
    && (x.key.dev == 0 ==> !x.uptodate && !x.dirt && x.lock.Unlocked?)
    && (x.key in forgotten || Fresh(x, disk, truth))
  }

  ghost predicate Fresh(x: Buf, disk: map<Key, Data>, truth: map<Key, Data>) {
    && (x.uptodate ==> x.data == Read(truth, x.key))
    && (!x.uptodate ==> !x.dirt && !x.lock.Writing? && Read(disk, x.key) == Read(truth, x.key))
    && (x.uptodate && !x.dirt && !x.lock.Writing? ==> Read(disk, x.key) == x.data)
    && (x.lock.Reading? ==> !x.uptodate)
  }

  ghost predicate Cached(s: Cache, k: Key) {
    exists b :: 0 <= b < |s.bufs| && s.bufs[b].key == k
  }

  ghost predicate Coherent(s: Cache) {
    && (forall b :: 0 <= b < |s.bufs| ==> BufOk(s.bufs[b], s.disk, s.truth, s.forgotten))
    && (forall k: Key :: !Cached(s, k) && k !in s.forgotten ==> Read(s.disk, k) == Read(s.truth, k))
    && (forall p :: 0 <= p < |s.clients| && s.clients[p].Have? && s.clients[p].buf < |s.bufs| ==>
          s.bufs[s.clients[p].buf].uptodate || s.bufs[s.clients[p].buf].key in s.forgotten)
  }

  ghost predicate Inv(s: Cache) {
    Shape(s) && Unique(s) && ChainsOk(s) && RingOk(s) && CountsOk(s) && Coherent(s)
  }

  // ---------------------------------------------------------------- lookup

  lemma FindInMisses(bufs: seq<Buf>, chain: seq<nat>, k: Key, b: nat)
    requires b in chain && b < |bufs| && bufs[b].key == k
    ensures FindIn(bufs, chain, k).Some?
  {
  }

  /** find_buffer looks at one chain and answers for the whole cache. */
  lemma FindAgrees(s: Cache, k: Key)
    requires Shape(s) && Unique(s) && ChainsOk(s) && k.dev != 0
    ensures Find(s, k).Some? <==> Cached(s, k)
    ensures forall b :: 0 <= b < |s.bufs| && s.bufs[b].key == k ==> Find(s, k) == Some(b)
  {
    var chain := s.chains[HashOf(k, |s.chains|)];
    FindInRange(s.bufs, chain, k);
    forall b | 0 <= b < |s.bufs| && s.bufs[b].key == k
      ensures Find(s, k) == Some(b)
    {
      assert b in chain;
      FindInMisses(s.bufs, chain, k, b);
    }
  }

  /** The victim is unused, and no unused buffer is better. */
  lemma {:induction false} PickIsBest(bufs: seq<Buf>, ring: seq<nat>, best: Option<nat>)
    requires forall i :: 0 <= i < |ring| ==> ring[i] < |bufs|
    requires best.Some? ==> best.value < |bufs| && bufs[best.value].count == 0
    ensures var r := Pick(bufs, ring, best);
      && (r.None? <==> best.None? && forall i :: 0 <= i < |ring| ==> bufs[ring[i]].count > 0)
      && (r.Some? ==> r.value < |bufs| && bufs[r.value].count == 0 && (r == best || r.value in ring))
      && (r.Some? && best.Some? ==> Badness(bufs[r.value]) <= Badness(bufs[best.value]))
      && (r.Some? ==> forall i :: 0 <= i < |ring| && bufs[ring[i]].count == 0 ==>
            Badness(bufs[r.value]) <= Badness(bufs[ring[i]]))
  {
    if ring != [] {
      var b := ring[0];
      if bufs[b].count > 0 {
        PickIsBest(bufs, ring[1..], best);
      } else if best.None? || Badness(bufs[b]) < Badness(bufs[best.value]) {
        if Badness(bufs[b]) != 0 {
          PickIsBest(bufs, ring[1..], Some(b));
        }
      } else {
        PickIsBest(bufs, ring[1..], best);
      }
    }
  }

  /** A clean, unlocked buffer is taken before any other, and a clean one before a dirty one. */
  lemma PickPrefers(bufs: seq<Buf>, ring: seq<nat>, i: nat)
    requires forall j :: 0 <= j < |ring| ==> ring[j] < |bufs|
    requires i < |ring| && bufs[ring[i]].count == 0 && !bufs[ring[i]].dirt
    ensures var r := Pick(bufs, ring, None);
      && r.Some? && r.value < |bufs| && !bufs[r.value].dirt && bufs[r.value].count == 0
      && (bufs[ring[i]].lock.Unlocked? ==> bufs[r.value].lock.Unlocked?)
  {
    PickIsBest(bufs, ring, None);
  }

  /** Among equals the first of the ring is taken. */
  lemma {:induction false} PickIsFirst(bufs: seq<Buf>, ring: seq<nat>, best: Option<nat>) returns (j: nat)
    requires forall i :: 0 <= i < |ring| ==> ring[i] < |bufs|
    requires best.Some? ==> best.value < |bufs|
    ensures var r := Pick(bufs, ring, best);
      r.Some? && r != best ==>
        && j < |ring| && ring[j] == r.value && (best.Some? ==> Badness(bufs[best.value]) > Badness(bufs[r.value]))
        && forall i :: 0 <= i < j && bufs[ring[i]].count == 0 ==> Badness(bufs[ring[i]]) > Badness(bufs[r.value])
    ensures var r := Pick(bufs, ring, best);
      r.Some? && r == best ==>
        forall i :: 0 <= i < |ring| && bufs[ring[i]].count == 0 ==> Badness(bufs[ring[i]]) >= Badness(bufs[r.value])
  {
    hide Badness;
    j := 0;
    if ring != [] {
      var b := ring[0];
      var k;
      if bufs[b].count > 0 {
        k := PickIsFirst(bufs, ring[1..], best);
        j := k + 1;
      } else if best.None? || Badness(bufs[b]) < Badness(bufs[best.value]) {
        if Badness(bufs[b]) != 0 {
          k := PickIsFirst(bufs, ring[1..], Some(b));
          j := if Pick(bufs, ring, best) == Some(b) then 0 else k + 1;
        }
      } else {
        k := PickIsFirst(bufs, ring[1..], best);
        j := k + 1;
      }
    }
  }

  // ---------------------------------------------------------------- counting holders

  /** Only client `p` has moved, between two places that do or do not hold `b`. */
  lemma HoldersMove(s: Cache, p: nat, c: Client, b: nat)
    requires p < |s.clients|
    ensures |Holders(SetClient(s, p, c), b)|
      == |Holders(s, b)| - (if Holds(s.clients[p], b) then 1 else 0) + (if Holds(c, b) then 1 else 0)
  {
    var s' := SetClient(s, p, c);
    var others := Holders(s, b) - {p as int};
    hide Holds;
    OthersHold(s, s', p, b);
    WithOne(Holders(s, b), p);
    WithOne(Holders(s', b), p);
  }

  lemma OthersHold(s: Cache, s': Cache, p: nat, b: nat)
    requires |s'.clients| == |s.clients| && forall q :: 0 <= q < |s.clients| && q != p ==> s'.clients[q] == s.clients[q]
    ensures Holders(s', b) - {p as int} == Holders(s, b) - {p as int}
  {
    hide Holds;
    forall q: int | q != p
      ensures q in Holders(s', b) <==> q in Holders(s, b)
    {
    }
  }

  lemma WithOne(a: set<int>, x: int)
    ensures |a| == |a - {x}| + if x in a then 1 else 0
  {
    assert x !in a ==> a - {x} == a;
  }

  lemma HolderCounts(s: Cache, p: nat, b: nat)
    requires CountsOk(s) && p < |s.clients| && b < |s.bufs| && Holds(s.clients[p], b)
    ensures s.bufs[b].count > 0
  {
    assert p as int in Holders(s, b);
  }

  // ---------------------------------------------------------------- each step keeps the invariant

  /** A client moves without gaining or losing a buffer. */
  lemma MoveKeeps(s: Cache, p: nat, c: Client)
    requires Inv(s) && p < |s.clients| && (!c.Idle? ==> c.key.dev != 0)
    requires HasBuf(c) ==> c.buf < |s.bufs|
    requires forall b: nat :: Holds(c, b) <==> Holds(s.clients[p], b)
    requires HasBuf(c) && Holds(c, c.buf) ==> c.key == s.bufs[c.buf].key
    requires c.Have? ==> s.bufs[c.buf].uptodate
    ensures Inv(SetClient(s, p, c))
  {
    var s' := SetClient(s, p, c);
    forall b | 0 <= b < |s'.bufs|
      ensures s'.bufs[b].count == |Holders(s', b)|
    {
      HoldersMove(s, p, c, b);
    }
    assert forall k: Key :: Cached(s', k) <==> Cached(s, k);
  }

  /** One buffer changes without changing its tag or its count. */
  lemma BufKeeps(s: Cache, b: nat, x: Buf, disk: map<Key, Data>, truth: map<Key, Data>)
    requires Inv(s) && b < |s.bufs| && x.key == s.bufs[b].key && x.count == s.bufs[b].count
    requires BufOk(x, disk, truth, s.forgotten)
    requires x.key.dev != 0 || (disk == s.disk && truth == s.truth)
    requires forall k :: k != x.key ==> Read(disk, k) == Read(s.disk, k) && Read(truth, k) == Read(s.truth, k)
    requires || x.uptodate || x.key in s.forgotten
             || forall p :: 0 <= p < |s.clients| && s.clients[p].Have? ==> s.clients[p].buf != b
    ensures Inv(SetBuf(s, b, x).(disk := disk, truth := truth))
  {
    var s' := SetBuf(s, b, x).(disk := disk, truth := truth);
    forall a | 0 <= a < |s'.bufs|
      ensures s'.bufs[a].count == |Holders(s', a)|
    {
      assert Holders(s', a) == Holders(s, a);
    }
    forall a | 0 <= a < |s'.bufs|
      ensures BufOk(s'.bufs[a], disk, truth, s.forgotten)
    {
      assert BufOk(s.bufs[a], s.disk, s.truth, s.forgotten);
    }
    forall k: Key
      ensures !Cached(s', k) && k !in s.forgotten ==> Read(disk, k) == Read(truth, k)
    {
      if !Cached(s', k) {
        assert s'.bufs[b].key != k;
        assert !Cached(s, k) by {
          assert forall a :: 0 <= a < |s.bufs| ==> s.bufs[a].key == s'.bufs[a].key;
        }
      }
    }
  }

  /** Client `p` takes or gives back a reference to `b`. */
  lemma RefKeeps(s: Cache, p: nat, c: Client, b: nat, n: nat)
    requires Inv(s) && p < |s.clients| && b < |s.bufs| && (!c.Idle? ==> c.key.dev != 0)
    requires HasBuf(c) ==> c.buf == b && Holds(c, b) && c.key == s.bufs[b].key
    requires HasBuf(s.clients[p]) ==> s.clients[p].buf == b
    requires n == s.bufs[b].count - (if Holds(s.clients[p], b) then 1 else 0) + (if Holds(c, b) then 1 else 0)
    requires !c.Have?
    ensures Inv(SetClient(SetBuf(s, b, s.bufs[b].(count := n)), p, c))
  {
    hide HashOf, Read, Holders;
    var s1 := SetBuf(s, b, s.bufs[b].(count := n));
    var s' := SetClient(s1, p, c);
    forall a | 0 <= a < |s'.bufs|
      ensures s'.bufs[a].count == |Holders(s', a)|
    {
      HoldersMove(s1, p, c, a);
      SameHolders(s, s1, a);
    }
    assert CountsOk(s');
    assert Coherent(s') by { RefCoherent(s, s', b, n); }
  }

  lemma SameHolders(s: Cache, s': Cache, b: nat)
    requires s'.clients == s.clients
    ensures Holders(s', b) == Holders(s, b)
  {
  }

  lemma RefCoherent(s: Cache, s': Cache, b: nat, n: nat)
    requires Coherent(s) && b < |s.bufs| && s'.bufs == s.bufs[b := s.bufs[b].(count := n)]
    requires s'.disk == s.disk && s'.truth == s.truth && s'.forgotten == s.forgotten
    requires forall p :: 0 <= p < |s'.clients| && s'.clients[p].Have? ==>
      p < |s.clients| && s.clients[p] == s'.clients[p]
    ensures Coherent(s')
  {
    hide Read;
    forall a | 0 <= a < |s'.bufs|
      ensures BufOk(s'.bufs[a], s.disk, s.truth, s.forgotten)
    {
      assert BufOk(s.bufs[a], s.disk, s.truth, s.forgotten);
    }
    forall k: Key
      ensures Cached(s', k) <==> Cached(s, k)
    {
      assert forall a :: 0 <= a < |s.bufs| ==> s.bufs[a].key == s'.bufs[a].key;
    }
  }

  lemma WithoutNoDups(q: seq<nat>, b: nat)
    requires NoDups(q)
    ensures NoDups(Without(q, b))
  {
    if q != [] {
      WithoutNoDups(q[1..], b);
      assert forall i :: 1 <= i < |q| ==> q[i] in q[1..];
      if q[0] != b {
        var r := Without(q[1..], b);
        forall i, j | 0 <= i < j < |[q[0]] + r|
          ensures ([q[0]] + r)[i] != ([q[0]] + r)[j]
        {
          if i == 0 {
            assert ([q[0]] + r)[j] == r[j - 1] && r[j - 1] in q[1..];
          }
        }
      }
    }
  }

  lemma NoDupsSnoc(q: seq<nat>, b: nat)
    requires NoDups(q) && b !in q
    ensures NoDups(q + [b]) && NoDups([b] + q)
  {
  }

  /** After retagging, the chains are again exactly the buffers of each hash value. */
  lemma RetagChains(s: Cache, b: nat, k: Key)
    requires Shape(s) && ChainsOk(s) && b < |s.bufs| && k.dev != 0
    ensures ChainsOk(Retag(s, b, k))
  {
    var s' := Retag(s, b, k);
    var n := |s.chains|;
    var h0, h1 := HashOf(s.bufs[b].key, n), HashOf(k, n);
    var c1 := s.chains[h0 := Without(s.chains[h0], b)];
    forall h | 0 <= h < n
      ensures b !in c1[h] && NoDups(c1[h])
    {
      WithoutNoDups(s.chains[h], b);
    }
    NoDupsSnoc(c1[h1], b);
    assert forall h :: 0 <= h < n ==> NoDups(s'.chains[h]);
    forall h, a | 0 <= h < n && 0 <= a < |s'.bufs|
      ensures a in s'.chains[h] <==> s'.bufs[a].key.dev != 0 && HashOf(s'.bufs[a].key, n) == h
    {
      assert s'.chains[h] == if h == h1 then [b] + c1[h1] else c1[h];
    }
  }

  lemma RetagRing(s: Cache, b: nat, k: Key)
    requires Shape(s) && RingOk(s) && b < |s.bufs|
    ensures RingOk(Retag(s, b, k))
  {
    WithoutNoDups(s.ring, b);
    NoDupsSnoc(Without(s.ring, b), b);
  }

  lemma RetagShape(s: Cache, b: nat, k: Key)
    requires Shape(s) && b < |s.bufs|
    ensures Shape(Retag(s, b, k))
  {
    var s' := Retag(s, b, k);
    var n := |s.chains|;
    var h0, h1 := HashOf(s.bufs[b].key, n), HashOf(k, n);
    forall h, i | 0 <= h < |s'.chains| && 0 <= i < |s'.chains[h]|
      ensures s'.chains[h][i] < |s'.bufs|
    {
      var x := s'.chains[h][i];
      assert x in s'.chains[h];
      assert x == b || x in s.chains[h];
    }
    forall i | 0 <= i < |s'.ring|
      ensures s'.ring[i] < |s'.bufs|
    {
      assert s'.ring[i] in s'.ring;
      assert s'.ring[i] == b || s'.ring[i] in s.ring;
    }
  }

  /** Retagging loses nothing: the block that leaves is on disk, and the new one was not cached. */
  lemma RetagCoherent(s: Cache, b: nat, k: Key)
    requires Shape(s) && Coherent(s) && b < |s.bufs| && k.dev != 0 && !Cached(s, k)
    requires s.bufs[b].count == 0 && !s.bufs[b].dirt && s.bufs[b].lock.Unlocked?
    requires forall p :: 0 <= p < |s.clients| ==> !Holds(s.clients[p], b)
    ensures Coherent(Retag(s, b, k))
  {
    var s' := Retag(s, b, k);
    assert BufOk(s.bufs[b], s.disk, s.truth, s.forgotten);
    forall a | 0 <= a < |s'.bufs|
      ensures BufOk(s'.bufs[a], s'.disk, s'.truth, s'.forgotten)
    {
      assert BufOk(s.bufs[a], s.disk, s.truth, s.forgotten);
    }
    forall j: Key | !Cached(s', j) && j !in s.forgotten
      ensures Read(s'.disk, j) == Read(s'.truth, j)
    {
      if Cached(s, j) {
        var a :| 0 <= a < |s.bufs| && s.bufs[a].key == j;
        assert s'.bufs[a].key != j;
        assert a == b;
      }
    }
  }

  /** getblk takes a buffer only when it is unused, unlocked and clean. */
  lemma RetagKeeps(s: Cache, p: nat, b: nat, k: Key)
    requires Inv(s) && p < |s.clients| && s.clients[p] == Victim(k, b) && !Cached(s, k)
    requires s.bufs[b].count == 0 && !s.bufs[b].dirt && s.bufs[b].lock.Unlocked?
    ensures Inv(SetClient(Retag(s, b, k), p, Got(k, b)))
  {
    hide HashOf, Without;
    var s1 := Retag(s, b, k);
    var s' := SetClient(s1, p, Got(k, b));
    RetagShape(s, b, k);
    RetagChains(s, b, k);
    RetagRing(s, b, k);
    forall q | 0 <= q < |s.clients|
      ensures !Holds(s.clients[q], b)
    {
      if Holds(s.clients[q], b) { HolderCounts(s, q, b); }
    }
    RetagCoherent(s, b, k);
    forall a | 0 <= a < |s'.bufs|
      ensures s'.bufs[a].count == |Holders(s', a)|
    {
      HoldersMove(s1, p, Got(k, b), a);
      assert Holders(s1, a) == Holders(s, a);
    }
    assert Unique(s') by {
      forall a | 0 <= a < |s.bufs| ensures s.bufs[a].key != k { assert !Cached(s, k); }
    }
    forall j: Key
      ensures Cached(s', j) <==> Cached(s1, j)
    {
    }
  }

  lemma LookupReady(s: Cache, p: nat)
    requires Inv(s) && p < |s.clients| && s.clients[p].Looking?
    ensures Shape(s) && Unique(s) && ChainsOk(s) && s.clients[p].key.dev != 0
  {
  }

  lemma LookupKeeps(s: Cache, p: nat)
    requires Inv(s) && Enabled(s, Lookup(p))
    ensures Inv(DoLookup(s, p))
  {
    hide Inv, HashOf, FindIn, Pick, Unique, ChainsOk;
    var k := s.clients[p].key;
    LookupReady(s, p);
    FindAgrees(s, k);
    FindInRange(s.bufs, s.chains[HashOf(k, |s.chains|)], k);
    match Find(s, k)
    case Some(b) =>
      RefKeeps(s, p, Hashed(k, b), b, s.bufs[b].count + 1);
    case None =>
      PickIsBest(s.bufs, s.ring, None);
      var r := Pick(s.bufs, s.ring, None);
      MoveKeeps(s, p, if r.None? then NoBuffer(k) else Victim(k, r.value));
  }

  /** The test at the end of get_hash_table never fails: a buffer with users is not retagged. */
  lemma HeldTagStays(s: Cache, p: nat)
    requires Inv(s) && p < |s.clients| && HasBuf(s.clients[p]) && Holds(s.clients[p], s.clients[p].buf)
    ensures s.bufs[s.clients[p].buf].key == s.clients[p].key && s.bufs[s.clients[p].buf].count > 0
  {
    HolderCounts(s, p, s.clients[p].buf);
  }

  lemma VictimReadyKeeps(s: Cache, p: nat)
    requires Inv(s) && Enabled(s, VictimReady(p))
    ensures Inv(DoVictimReady(s, p))
  {
    var k, b := s.clients[p].key, s.clients[p].buf;
    if s.bufs[b].count > 0 {
      MoveKeeps(s, p, Looking(k));
    } else if s.bufs[b].dirt {
      MoveKeeps(s, p, Syncing(k, b));
    } else {
      FindAgrees(s, k);
      if Find(s, k).Some? {
        MoveKeeps(s, p, Looking(k));
      } else {
        RetagKeeps(s, p, b, k);
      }
    }
  }

  lemma IssueReadKeeps(s: Cache, p: nat)
    requires Inv(s) && Enabled(s, IssueRead(p))
    ensures Inv(DoIssueRead(s, p))
  {
    var k, b := s.clients[p].key, s.clients[p].buf;
    var x := s.bufs[b];
    HeldTagStays(s, p);
    if x.uptodate {
      MoveKeeps(s, p, Have(k, b));
    } else {
      assert BufOk(x, s.disk, s.truth, s.forgotten);
      var y := x.(lock := Reading, dirt := false);
      BufKeeps(s, b, y, s.disk, s.truth);
      MoveKeeps(SetBuf(s, b, y), p, Fetching(k, b));
    }
  }

  lemma DropRefKeeps(s: Cache, p: nat)
    requires Inv(s) && p < |s.clients| && (s.clients[p].Got? || s.clients[p].Have? || s.clients[p].Fetching?)
    ensures Inv(DropRef(s, p, s.clients[p].buf))
  {
    hide Unique, ChainsOk, RingOk, Coherent, CountsOk;
    var b := s.clients[p].buf;
    HeldTagStays(s, p);
    RefKeeps(s, p, Idle, b, s.bufs[b].count - 1);
  }

  lemma ModifyKeeps(s: Cache, p: nat, data: Data)
    requires Inv(s) && Enabled(s, Modify(p, data))
    ensures Inv(DoModify(s, p, data))
  {
    var k, b := s.clients[p].key, s.clients[p].buf;
    HeldTagStays(s, p);
    assert BufOk(s.bufs[b], s.disk, s.truth, s.forgotten);
    var uptodate := s.bufs[b].uptodate || !s.clients[p].Have?;
    BufKeeps(s, b, s.bufs[b].(data := data, dirt := true, uptodate := uptodate), s.disk, s.truth[k := data]);
  }

  lemma FinishKeeps(s: Cache, b: nat, good: bool)
    requires Inv(s) && Enabled(s, Finish(b, good))
    ensures Inv(DoFinish(s, b, good))
  {
    var x := s.bufs[b];
    assert BufOk(x, s.disk, s.truth, s.forgotten);
    assert x.lock.Reading? && x.key !in s.forgotten ==>
        forall p :: 0 <= p < |s.clients| && s.clients[p].Have? ==> s.clients[p].buf != b;
    if x.lock.Reading? {
      if good {
        BufKeeps(s, b, x.(lock := Unlocked, uptodate := true, data := Read(s.disk, x.key)), s.disk, s.truth);
      } else {
        BufKeeps(s, b, x.(lock := Unlocked), s.disk, s.truth);
      }
    } else {
      BufKeeps(s, b, x.(lock := Unlocked, uptodate := true), s.disk[x.key := x.data], s.truth);
    }
  }

  lemma StartWriteKeeps(s: Cache, b: nat)
    requires Inv(s) && Enabled(s, StartWrite(b))
    ensures Inv(Do(s, StartWrite(b)))
  {
    var x := s.bufs[b];
    assert BufOk(x, s.disk, s.truth, s.forgotten);
    BufKeeps(s, b, x.(lock := Writing, dirt := false), s.disk, s.truth);
  }

  /** Once a block counts as forgotten, nothing is claimed of its buffer, so it may be dropped. */
  lemma ForgottenKeeps(s: Cache, k: Key)
    requires Inv(s)
    ensures Inv(s.(forgotten := s.forgotten + {k}))
  {
    var s' := s.(forgotten := s.forgotten + {k});
    assert forall b :: Holders(s', b) == Holders(s, b);
    assert forall k :: Cached(s', k) <==> Cached(s, k);
  }

  lemma ForgetKeeps(s: Cache, b: nat)
    requires Inv(s) && Enabled(s, Forget(b))
    ensures Inv(Do(s, Forget(b)))
  {
    var x := s.bufs[b];
    ForgottenKeeps(s, x.key);
    BufKeeps(s.(forgotten := s.forgotten + {x.key}), b, x.(uptodate := false, dirt := false), s.disk, s.truth);
  }

  /** Every atomic step keeps the invariant, whoever takes it. */
  lemma StepKeeps(s: Cache, t: Step)
    requires Inv(s) && Enabled(s, t)
    ensures Inv(Do(s, t))
  {
    hide Unique, ChainsOk, RingOk, Coherent;
    match t
    case Start(p, k) => MoveKeeps(s, p, Looking(k));
    case Lookup(p) => LookupKeeps(s, p);
    case Retry(p) => MoveKeeps(s, p, Looking(s.clients[p].key));
    case HashReady(p) => HeldTagStays(s, p); MoveKeeps(s, p, Got(s.clients[p].key, s.clients[p].buf));
    case VictimReady(p) => VictimReadyKeeps(s, p);
    case SyncDone(p) => MoveKeeps(s, p, Victim(s.clients[p].key, s.clients[p].buf));
    case IssueRead(p) => IssueReadKeeps(s, p);
    case ReadDone(p) =>
      if s.bufs[s.clients[p].buf].uptodate {
        HeldTagStays(s, p);
        MoveKeeps(s, p, Have(s.clients[p].key, s.clients[p].buf));
      } else {
        DropRefKeeps(s, p);
      }
    case Modify(p, data) => ModifyKeeps(s, p, data);
    case Release(p) => DropRefKeeps(s, p);
    case StartWrite(b) => StartWriteKeeps(s, b);
    case Finish(b, good) => FinishKeeps(s, b, good);
    case Forget(b) => ForgetKeeps(s, b);
  }

  // ---------------------------------------------------------------- runs

  /** buffer_init: no block cached, every chain empty, the ring in order. */
  function Boot(n: nat, hashes: nat, clients: nat, disk: map<Key, Data>): Cache {
    Cache(seq(n, _ => Buf(Key(0, 0), false, false, 0, Unlocked, [])), seq(hashes, _ => []),
          seq(n, i => if i < 0 then 0 else i), seq(clients, _ => Idle), disk, disk, {})
  }

  lemma BootOk(n: nat, hashes: nat, clients: nat, disk: map<Key, Data>)
    requires hashes > 0
    ensures Inv(Boot(n, hashes, clients, disk))
  {
    var s := Boot(n, hashes, clients, disk);
    forall b | 0 <= b < n
      ensures b in s.ring && |Holders(s, b)| == 0
    {
      assert s.ring[b] == b;
      assert Holders(s, b) == {};
    }
  }

  /** A run: steps that are not enabled are skipped, so every list of steps is a run. */
  ghost function Run(s: Cache, steps: seq<Step>): (s': Cache)
    requires Inv(s)
    ensures Inv(s')
  {
    if steps == [] then s
    else
      var s1 := Run(s, steps[..|steps| - 1]);
      var t := steps[|steps| - 1];
      if Enabled(s1, t) then
        StepKeeps(s1, t);
        Do(s1, t)
      else s1
  }

  predicate Writes(s: Cache, t: Step, k: Key) {
    t.Modify? && Enabled(s, t) && s.clients[t.p].key == k
  }

  predicate Forgets(s: Cache, t: Step, k: Key) {
    t.Forget? && Enabled(s, t) && s.bufs[t.b].key == k
  }

  /** The data of the last step of the run that wrote to block `k`. */
  ghost function LastWritten(s: Cache, steps: seq<Step>, k: Key): Data
    requires Inv(s)
  {
    if steps == [] then Read(s.truth, k)
    else
      var s1 := Run(s, steps[..|steps| - 1]);
      var t := steps[|steps| - 1];
      if Writes(s1, t, k) then t.data
      else LastWritten(s, steps[..|steps| - 1], k)
  }

  ghost predicate NeverForgotten(s: Cache, steps: seq<Step>, k: Key)
    requires Inv(s)
  {
    steps == [] ||
    (var s1 := Run(s, steps[..|steps| - 1]);
     var t := steps[|steps| - 1];
     && NeverForgotten(s, steps[..|steps| - 1], k)
     && !Forgets(s1, t, k))
  }

  lemma {:induction false} TruthIsLastWritten(s: Cache, steps: seq<Step>, k: Key)
    requires Inv(s)
    ensures Read(Run(s, steps).truth, k) == LastWritten(s, steps, k)
    ensures k in Run(s, steps).forgotten <==> k in s.forgotten || !NeverForgotten(s, steps, k)
  {
    hide Inv;
    if steps != [] {
      TruthIsLastWritten(s, steps[..|steps| - 1], k);
      var s1 := Run(s, steps[..|steps| - 1]);
      var t := steps[|steps| - 1];
      if Enabled(s1, t) {
        TruthAfter(s1, t, k);
      }
    }
  }

  /** Only a write changes what a reader should see. */
  lemma TruthAfter(s: Cache, t: Step, k: Key)
    requires Inv(s) && Enabled(s, t)
    ensures Read(Do(s, t).truth, k) == if Writes(s, t, k) then t.data else Read(s.truth, k)
    ensures k in Do(s, t).forgotten <==> k in s.forgotten || Forgets(s, t, k)
  {
    hide Inv, HashOf, Without, Find, FindIn, Pick, Holds, Badness, HasBuf;
  }

  /**
    bread returns the contents last written through the cache, whatever evictions, syncs and other
    clients came between, and whatever other blocks were dropped under their users' hands.
   */
  lemma BreadReturnsLastWritten(s: Cache, steps: seq<Step>, p: nat)
    requires Inv(s) && p < |Run(s, steps).clients| && Run(s, steps).clients[p].Have?
    requires var k := Run(s, steps).clients[p].key; k !in s.forgotten && NeverForgotten(s, steps, k)
    ensures var s' := Run(s, steps);
      var k, b := s'.clients[p].key, s'.clients[p].buf;
      b < |s'.bufs| && s'.bufs[b].key == k && s'.bufs[b].data == LastWritten(s, steps, k)
  {
    var s' := Run(s, steps);
    HeldTagStays(s', p);
    assert BufOk(s'.bufs[s'.clients[p].buf], s'.disk, s'.truth, s'.forgotten);
    TruthIsLastWritten(s, steps, s'.clients[p].key);
  }

  // ---------------------------------------------------------------- the ring is in order of age

  /** The step gives buffer `b` a new block. */
  ghost predicate Reuses(s: Cache, t: Step, b: nat) {
    Shape(s) && Enabled(s, t) && b < |s.bufs| && b < |Do(s, t).bufs| && Do(s, t).bufs[b].key != s.bufs[b].key
  }

  /** When buffer `b` last got a new block: the number of that step, 0 for none. */
  ghost function LastUse(s: Cache, steps: seq<Step>, b: nat): nat
    requires Inv(s)
  {
    if steps == [] then 0
    else
      var before, t := steps[..|steps| - 1], steps[|steps| - 1];
      if Reuses(Run(s, before), t, b) then |steps| else LastUse(s, before, b)
  }

  /** A buffer that gets a new block goes to the end of the ring, and the others keep their order. */
  lemma RingAfter(s: Cache, t: Step) returns (c: Option<nat>)
    requires Inv(s) && Enabled(s, t)
    ensures c.None? ==> Do(s, t).ring == s.ring && forall b: nat :: !Reuses(s, t, b)
    ensures c.Some? ==> Reuses(s, t, c.value) && forall b: nat :: b != c.value ==> !Reuses(s, t, b)
    ensures c.Some? ==> Do(s, t).ring == Without(s.ring, c.value) + [c.value]
  {
    assert Shape(s);
    c := None;
    if t.VictimReady? {
      VictimRing(s, t.p);
      hide *;
      var b := s.clients[t.p].buf;
      if Do(s, t).bufs[b].key != s.bufs[b].key { c := Some(b); }
    } else {
      hide Inv;
      SameRing(s, t);
    }
  }

  lemma SameRing(s: Cache, t: Step)
    requires Shape(s) && Enabled(s, t) && !t.VictimReady?
    ensures Do(s, t).ring == s.ring && |Do(s, t).bufs| == |s.bufs|
    ensures forall b :: 0 <= b < |s.bufs| ==> Do(s, t).bufs[b].key == s.bufs[b].key
  {
    hide HashOf, FindIn, Pick, Read;
    if t.Lookup? {
      var key := s.clients[t.p].key;
      FindInRange(s.bufs, s.chains[HashOf(key, |s.chains|)], key);
    }
  }

  lemma VictimRing(s: Cache, p: nat)
    requires Inv(s) && Enabled(s, VictimReady(p))
    ensures var s', b := Do(s, VictimReady(p)), s.clients[p].buf;
      && |s'.bufs| == |s.bufs| && (forall a :: 0 <= a < |s.bufs| && a != b ==> s'.bufs[a].key == s.bufs[a].key)
      && if s'.bufs[b].key == s.bufs[b].key then s'.ring == s.ring else s'.ring == Without(s.ring, b) + [b]
  {
    hide HashOf, Without;
    FindAgrees(s, s.clients[p].key);
  }

  lemma {:induction false} LastUseBound(s: Cache, steps: seq<Step>, b: nat)
    requires Inv(s)
    ensures LastUse(s, steps, b) <= |steps|
  {
    if steps != [] { LastUseBound(s, steps[..|steps| - 1], b); }
  }

  /** Over every run the ring is in order of age, so getblk takes, among equals, the one longest in use. */
  lemma {:induction false} RingByAge(s: Cache, steps: seq<Step>, i: nat, j: nat)
    requires Inv(s) && i < j < |Run(s, steps).ring|
    ensures LastUse(s, steps, Run(s, steps).ring[i]) <= LastUse(s, steps, Run(s, steps).ring[j])
  {
    hide Inv, Reuses, Without, Enabled, Do;
    if steps != [] {
      var before, t := steps[..|steps| - 1], steps[|steps| - 1];
      var m, r := Run(s, before), Run(s, steps);
      LastUseBound(s, before, r.ring[i]);
      var c := None;
      if Enabled(m, t) { c := RingAfter(m, t); } else { NotReused(m, t); }
      if c.None? {
        RingByAge(s, before, i, j);
      } else if j < |r.ring| - 1 {
        var i', j' := WithoutOrder(m.ring, c.value, i, j);
        RingByAge(s, before, i', j');
      }
    }
  }

  lemma NotReused(s: Cache, t: Step)
    requires !Enabled(s, t)
    ensures forall b: nat :: !Reuses(s, t, b)
  {
  }

  lemma {:induction false} WithoutOrder(q: seq<nat>, b: nat, i: nat, j: nat) returns (i': nat, j': nat)
    requires i < j < |Without(q, b)|
    ensures i' < j' < |q| && q[i'] == Without(q, b)[i] != b && q[j'] == Without(q, b)[j] != b
  {
    if q[0] == b {
      i', j' := WithoutOrder(q[1..], b, i, j);
      i', j' := i' + 1, j' + 1;
    } else if i > 0 {
      i', j' := WithoutOrder(q[1..], b, i - 1, j - 1);
      i', j' := i' + 1, j' + 1;
    } else {
      var x := Without(q[1..], b)[j - 1];
      assert x in Without(q[1..], b);
      var k :| 0 <= k < |q[1..]| && q[1..][k] == x;
      i', j' := 0, k + 1;
    }
  }

  // ---------------------------------------------------------------- bread succeeds

  /** A step that is possible. */
  ghost function Take(s: Cache, t: Step): (s': Cache)
    requires Inv(s) && Enabled(s, t)
    ensures Inv(s')
  {
    StepKeeps(s, t);
    Do(s, t)
  }

  /** The disk reports an error on buffer `b`, or its contents are dropped. */
  predicate Spoils(s: Cache, t: Step, b: nat) {
    Enabled(s, t) && (t == Finish(b, false) || t == Forget(b))
  }

  ghost predicate Spoiled(s: Cache, steps: seq<Step>, b: nat)
    requires Inv(s)
  {
    steps != [] &&
    (Spoiled(s, steps[..|steps| - 1], b) || Spoils(Run(s, steps[..|steps| - 1]), steps[|steps| - 1], b))
  }

  /** bread has its block, or waits for it and will get it. */
  predicate Promised(s: Cache, p: nat, k: Key, b: nat) {
    && p < |s.clients| && b < |s.bufs|
    && (s.clients[p] == Have(k, b) ||
        (s.clients[p] == Fetching(k, b) && (s.bufs[b].lock.Reading? || s.bufs[b].uptodate)))
  }

  /** bread has returned the buffer to client `p`. */
  predicate Returns(s: Cache, p: nat, k: Key, b: nat) {
    p < |s.clients| && s.clients[p] == Have(k, b)
  }

  lemma StaysPromised(s: Cache, t: Step, p: nat, k: Key, b: nat)
    requires Inv(s) && Enabled(s, t) && Promised(s, p, k, b) && t != Release(p) && !Spoils(s, t, b)
    ensures Promised(Take(s, t), p, k, b)
  {
    HeldTagStays(s, p);
    assert Shape(s);
    hide *;
    if t.Lookup? {
      PromisedLookup(s, t.p, p, k, b);
    } else if t.VictimReady? {
      PromisedVictim(s, t.p, p, k, b);
    } else {
      PromisedRest(s, t, p, k, b);
    }
  }

  lemma PromisedLookup(s: Cache, q: nat, p: nat, k: Key, b: nat)
    requires Shape(s) && Enabled(s, Lookup(q)) && Promised(s, p, k, b)
    ensures Promised(Do(s, Lookup(q)), p, k, b)
  {
    hide HashOf, Pick, FindIn;
    var key := s.clients[q].key;
    FindInRange(s.bufs, s.chains[HashOf(key, |s.chains|)], key);
  }

  lemma PromisedVictim(s: Cache, q: nat, p: nat, k: Key, b: nat)
    requires Shape(s) && Enabled(s, VictimReady(q)) && Promised(s, p, k, b) && s.bufs[b].count > 0
    ensures Promised(Do(s, VictimReady(q)), p, k, b)
  {
    hide HashOf, Without, Find;
  }

  lemma PromisedRest(s: Cache, t: Step, p: nat, k: Key, b: nat)
    requires Shape(s) && Enabled(s, t) && Promised(s, p, k, b) && t != Release(p) && !Spoils(s, t, b)
    requires !t.Lookup? && !t.VictimReady?
    ensures Promised(Do(s, t), p, k, b)
  {
    hide Read;
  }

  lemma {:induction false} RunPromised(s: Cache, steps: seq<Step>, p: nat, k: Key, b: nat)
    requires Inv(s) && Promised(s, p, k, b) && Release(p) !in steps && !Spoiled(s, steps, b)
    ensures Promised(Run(s, steps), p, k, b)
  {
    hide Inv, Promised, Spoils, Enabled, Do;
    if steps != [] {
      var before, t := steps[..|steps| - 1], steps[|steps| - 1];
      RunPromised(s, before, p, k, b);
      if Enabled(Run(s, before), t) { StaysPromised(Run(s, before), t, p, k, b); }
    }
  }

  /**
    bread fails only for a reason: from the moment it has its buffer, whatever other clients, the driver
    and syncs do, it returns the block unless the disk reported an error on that buffer or its contents
    were dropped since; and what it returns is what was last written.
   */
  lemma BreadSucceeds(s: Cache, p: nat, k: Key, b: nat, steps: seq<Step>)
    requires Inv(s) && Enabled(s, IssueRead(p)) && s.clients[p] == Got(k, b) && Release(p) !in steps
    ensures !Spoiled(Take(s, IssueRead(p)), steps, b) ==>
      var s1 := Take(s, IssueRead(p));
      var r := Run(s1, steps);
      && p < |r.clients| && b < |r.bufs| && r.bufs[b].key == k
      && (r.clients[p] == Have(k, b) ||
          (r.clients[p] == Fetching(k, b) && (Enabled(r, ReadDone(p)) ==> Returns(Take(r, ReadDone(p)), p, k, b))))
      && (r.clients[p] == Have(k, b) && k !in s.forgotten && NeverForgotten(s1, steps, k) ==>
            r.bufs[b].data == LastWritten(s1, steps, k))
  {
    hide Inv, Run, LastWritten, NeverForgotten, Take, Enabled, Spoiled, Promised;
    var s1 := Take(s, IssueRead(p));
    IssuePromises(s, p, k, b);
    if !Spoiled(s1, steps, b) {
      RunPromised(s1, steps, p, k, b);
      var r := Run(s1, steps);
      PromiseKept(r, p, k, b);
      if r.clients[p] == Have(k, b) && k !in s.forgotten && NeverForgotten(s1, steps, k) {
        BreadReturnsLastWritten(s1, steps, p);
      }
    }
  }

  lemma IssuePromises(s: Cache, p: nat, k: Key, b: nat)
    requires Inv(s) && Enabled(s, IssueRead(p)) && s.clients[p] == Got(k, b)
    ensures Promised(Take(s, IssueRead(p)), p, k, b) && Take(s, IssueRead(p)).forgotten == s.forgotten
  {
  }

  lemma PromiseKept(s: Cache, p: nat, k: Key, b: nat)
    requires Inv(s) && Promised(s, p, k, b)
    ensures p < |s.clients| && b < |s.bufs| && s.bufs[b].key == k
    ensures s.clients[p] == Have(k, b) || s.clients[p] == Fetching(k, b)
    ensures s.clients[p] == Fetching(k, b) && Enabled(s, ReadDone(p)) ==>
      Returns(Take(s, ReadDone(p)), p, k, b)
  {
    HeldTagStays(s, p);
  }

  /** The steps of client `p` in bread, and those of a disk that works on buffer `b`. */
  predicate ReadStep(t: Step, p: nat, b: nat) {
    match t
    case Start(q, _) => q == p
    case Retry(q) => q == p
    case Lookup(q) => q == p
    case HashReady(q) => q == p
    case VictimReady(q) => q == p
    case SyncDone(q) => q == p
    case IssueRead(q) => q == p
    case ReadDone(q) => q == p
    case StartWrite(c) => c == b
    case Finish(c, good) => c == b && good
    case _ => false
  }

  lemma RunOn(s: Cache, steps: seq<Step>, t: Step)
    requires Inv(s) && Enabled(Run(s, steps), t)
    ensures Run(s, steps + [t]) == Take(Run(s, steps), t)
  {
    hide Inv, Enabled, Do;
    assert (steps + [t])[..|steps + [t]| - 1] == steps;
  }

  /** A run that took the listed steps so far and is now in state `r`. */
  ghost predicate Reached(s: Cache, steps: seq<Step>, r: Cache, p: nat, b: nat)
    requires Inv(s)
  {
    r == Run(s, steps) && forall i :: 0 <= i < |steps| ==> ReadStep(steps[i], p, b)
  }

  lemma ReachedOn(s: Cache, steps: seq<Step>, r: Cache, t: Step, p: nat, b: nat)
    requires Inv(s) && Reached(s, steps, r, p, b) && Enabled(r, t) && ReadStep(t, p, b)
    ensures Inv(r) && Reached(s, steps + [t], Take(r, t), p, b)
  {
    hide Inv, Enabled, Take, ReadStep;
    RunOn(s, steps, t);
  }

  /** From a buffer that getblk returned to the block. */
  lemma ReadsBlock(s: Cache, steps: seq<Step>, r: Cache, p: nat, k: Key, b: nat) returns (steps': seq<Step>, r': Cache)
    requires Inv(s) && Reached(s, steps, r, p, b) && p < |r.clients| && r.clients[p] == Got(k, b) && Free(r, b)
    ensures Reached(s, steps', r', p, b) && p < |r'.clients| && r'.clients[p] == Have(k, b)
  {
    hide Inv, Reached;
    ReachedOn(s, steps, r, IssueRead(p), p, b);
    steps', r' := steps + [IssueRead(p)], Take(r, IssueRead(p));
    if r'.clients[p].Fetching? {
      ReachedOn(s, steps', r', Finish(b, true), p, b);
      steps', r' := steps' + [Finish(b, true)], Take(r', Finish(b, true));
      ReachedOn(s, steps', r', ReadDone(p), p, b);
      steps', r' := steps' + [ReadDone(p)], Take(r', ReadDone(p));
    }
  }

  /** getblk of a block that is not cached, once it has chosen a victim. */
  lemma TakesVictim(s: Cache, steps: seq<Step>, r: Cache, p: nat, k: Key, b: nat) returns (steps': seq<Step>, r': Cache)
    requires Inv(s) && Reached(s, steps, r, p, b) && Inv(r) && p < |r.clients| && r.clients[p] == Victim(k, b)
    requires Free(r, b) && r.bufs[b].count == 0 && !Cached(r, k)
    ensures Reached(s, steps', r', p, b) && p < |r'.clients| && r'.clients[p] == Got(k, b) && Free(r', b)
  {
    hide Inv, Reached, Cached, Find;
    steps', r' := steps, r;
    if r.bufs[b].dirt {
      ReachedOn(s, steps', r', VictimReady(p), p, b);
      steps', r' := steps' + [VictimReady(p)], Take(r', VictimReady(p));
      ReachedOn(s, steps', r', StartWrite(b), p, b);
      steps', r' := steps' + [StartWrite(b)], Take(r', StartWrite(b));
      ReachedOn(s, steps', r', Finish(b, true), p, b);
      steps', r' := steps' + [Finish(b, true)], Take(r', Finish(b, true));
      ReachedOn(s, steps', r', SyncDone(p), p, b);
      steps', r' := steps' + [SyncDone(p)], Take(r', SyncDone(p));
      SameKeys(r, r', k);
    }
    LookupFails(r', p, k);
    ReachedOn(s, steps', r', VictimReady(p), p, b);
    steps', r' := steps' + [VictimReady(p)], Take(r', VictimReady(p));
  }

  lemma SameKeys(s: Cache, s': Cache, k: Key)
    requires |s'.bufs| == |s.bufs| && forall b :: 0 <= b < |s.bufs| ==> s'.bufs[b].key == s.bufs[b].key
    ensures Cached(s', k) <==> Cached(s, k)
  {
  }

  lemma LookupFails(s: Cache, p: nat, k: Key)
    requires Inv(s) && p < |s.clients| && s.clients[p].Victim? && s.clients[p].key == k && !Cached(s, k)
    ensures |s.chains| > 0 && Find(s, k).None?
  {
    FindAgrees(s, k);
  }

  /**
    In a quiet system, with a disk that works, bread of any block returns it, unless the block is not
    cached and every buffer is in use; so does a call that has waited for a buffer, once there is one.
   */
  lemma QuietBread(s: Cache, p: nat, k: Key) returns (steps: seq<Step>, r: Cache, b: nat)
    requires Inv(s) && p < |s.clients| && (s.clients[p].Idle? || s.clients[p] == NoBuffer(k)) && k.dev != 0
    requires forall a :: 0 <= a < |s.bufs| ==> s.bufs[a].lock.Unlocked?
    requires Cached(s, k) || exists a :: 0 <= a < |s.bufs| && s.bufs[a].count == 0
    ensures Reached(s, steps, r, p, b) && p < |r.clients| && r.clients[p] == Have(k, b)
    ensures Cached(s, k) ==> b < |s.bufs| && s.bufs[b].key == k
  {
    hide Inv, Reached, Find, Pick;
    var first := if s.clients[p].Idle? then Start(p, k) else Retry(p);
    var s1 := Take(s, first);
    SameKeys(s, s1, k);
    b := Chosen(s1, p, k);
    steps, r := [], s;
    NoSteps(s, p, b);
    ReachedOn(s, steps, r, first, p, b);
    steps, r := steps + [first], Take(r, first);
    ReachedOn(s, steps, r, Lookup(p), p, b);
    steps, r := steps + [Lookup(p)], Take(r, Lookup(p));
    if Cached(s, k) {
      ReachedOn(s, steps, r, HashReady(p), p, b);
      steps, r := steps + [HashReady(p)], Take(r, HashReady(p));
    } else {
      SameKeys(s, r, k);
      steps, r := TakesVictim(s, steps, r, p, k, b);
    }
    steps, r := ReadsBlock(s, steps, r, p, k, b);
  }

  /** brelse: the client is done with the buffer, which counts one user less. */
  lemma ReleaseGives(s: Cache, p: nat)
    requires Inv(s) && Enabled(s, Release(p))
    ensures var s', b := Take(s, Release(p)), s.clients[p].buf;
      && p < |s'.clients| && s'.clients[p].Idle? && b < |s.bufs| == |s'.bufs|
      && s'.bufs[b].count == s.bufs[b].count - 1 && s'.bufs[b].data == s.bufs[b].data
      && s'.bufs[b].uptodate == s.bufs[b].uptodate && s'.bufs[b].dirt == s.bufs[b].dirt
  {
    HeldTagStays(s, p);
  }

  /** After invalidate_buffers a block is read again: bread returns what is on disk. */
  lemma ForgottenIsReread(s: Cache, p: nat, k: Key, b: nat) returns (s1: Cache, s2: Cache, s3: Cache, s4: Cache)
    requires Inv(s) && Enabled(s, Forget(b)) && p < |s.clients| && s.clients[p] == Got(k, b)
    ensures s1 == Take(s, Forget(b)) && Enabled(s1, IssueRead(p)) && s2 == Take(s1, IssueRead(p))
    ensures Enabled(s2, Finish(b, true)) && s3 == Take(s2, Finish(b, true))
    ensures Enabled(s3, ReadDone(p)) && s4 == Take(s3, ReadDone(p))
    ensures Returns(s4, p, k, b) && b < |s4.bufs| && s4.bufs[b].data == Read(s.disk, k)
  {
    hide Inv, Read, Take, Enabled;
    ForgetDrops(s, p, k, b);
    s1 := Take(s, Forget(b));
    IssuesRead(s1, p, k, b);
    s2 := Take(s1, IssueRead(p));
    s3 := ReadFinishes(s2, p, k, b);
    ReadReturns(s3, p, k, b);
    s4 := Take(s3, ReadDone(p));
  }

  lemma ForgetDrops(s: Cache, p: nat, k: Key, b: nat)
    requires Inv(s) && Enabled(s, Forget(b)) && p < |s.clients| && s.clients[p] == Got(k, b)
    ensures var s' := Take(s, Forget(b));
      && s'.clients == s.clients && Free(s', b) && !s'.bufs[b].uptodate && s'.bufs[b].key == k && s'.disk == s.disk
  {
    HeldTagStays(s, p);
    hide Inv;
  }

  lemma ReadReturns(s: Cache, p: nat, k: Key, b: nat)
    requires Inv(s) && p < |s.clients| && s.clients[p] == Fetching(k, b) && Free(s, b) && s.bufs[b].uptodate
    ensures Enabled(s, ReadDone(p)) && Returns(Take(s, ReadDone(p)), p, k, b)
    ensures Take(s, ReadDone(p)).bufs == s.bufs
  {
    hide Inv;
  }

  lemma IssuesRead(s: Cache, p: nat, k: Key, b: nat)
    requires Inv(s) && p < |s.clients| && s.clients[p] == Got(k, b) && Free(s, b) && !s.bufs[b].uptodate
    ensures Enabled(s, IssueRead(p))
    ensures var s' := Take(s, IssueRead(p));
      && p < |s'.clients| && s'.clients[p] == Fetching(k, b) && b < |s'.bufs| && s'.bufs[b].lock.Reading?
      && s'.bufs[b].key == s.bufs[b].key && s'.disk == s.disk
  {
    hide Inv;
  }

  lemma ReadFinishes(s: Cache, p: nat, k: Key, b: nat) returns (s': Cache)
    requires Inv(s) && p < |s.clients| && s.clients[p] == Fetching(k, b) && b < |s.bufs| && s.bufs[b].lock.Reading?
    ensures Enabled(s, Finish(b, true)) && s' == Take(s, Finish(b, true)) && s'.clients == s.clients
    ensures b < |s'.bufs| && Free(s', b) && s'.bufs[b].uptodate && s'.bufs[b].data == Read(s.disk, s.bufs[b].key)
  {
    hide Inv;
    s' := Take(s, Finish(b, true));
  }

  lemma NoSteps(s: Cache, p: nat, b: nat)
    requires Inv(s)
    ensures Reached(s, [], s, p, b)
  {
  }

  /** The buffer that getblk comes to. */
  lemma Chosen(s: Cache, p: nat, k: Key) returns (b: nat)
    requires Inv(s) && p < |s.clients| && s.clients[p] == Looking(k)
    requires Cached(s, k) || exists a :: 0 <= a < |s.bufs| && s.bufs[a].count == 0
    ensures b < |s.bufs| && Enabled(s, Lookup(p))
    ensures var s' := DoLookup(s, p);
      && |s'.clients| == |s.clients| && |s'.bufs| == |s.bufs|
      && (forall a :: 0 <= a < |s.bufs| ==> s'.bufs[a].key == s.bufs[a].key && s'.bufs[a].lock == s.bufs[a].lock)
      && if Cached(s, k) then s.bufs[b].key == k && s'.clients[p] == Hashed(k, b)
         else s'.clients[p] == Victim(k, b) && s'.bufs == s.bufs && s.bufs[b].count == 0
  {
    LookupReady(s, p);
    FindAgrees(s, k);
    if Cached(s, k) {
      b :| b < |s.bufs| && s.bufs[b].key == k;
    } else {
      PickIsBest(s.bufs, s.ring, None);
      var a :| 0 <= a < |s.bufs| && s.bufs[a].count == 0;
      assert a in s.ring;
      b := Pick(s.bufs, s.ring, None).value;
    }
  }

  /** A buffer changes its block only when unused, unlocked and clean, and its old block is then on disk. */
  lemma RetaggedOnlyWhenClean(s: Cache, t: Step, b: nat)
    requires Inv(s) && Enabled(s, t) && b < |s.bufs| && b < |Do(s, t).bufs| && Do(s, t).bufs[b].key != s.bufs[b].key
    ensures s.bufs[b].count == 0 && s.bufs[b].lock.Unlocked? && !s.bufs[b].dirt
    ensures s.bufs[b].key !in s.forgotten ==> Read(s.disk, s.bufs[b].key) == Read(s.truth, s.bufs[b].key)
  {
    hide Inv, HashOf, Without, Find, FindIn, Pick, Read, Holds, Badness;
    BufIsOk(s, b);
  }

  lemma BufIsOk(s: Cache, b: nat)
    requires Inv(s) && b < |s.bufs|
    ensures BufOk(s.bufs[b], s.disk, s.truth, s.forgotten)
  {
  }
}
