/**
  Files of the MINIX file system as Linux 0.11 keeps them: nine zone numbers in the inode, index
  blocks of 512 little-endian 16-bit numbers, and one bit per zone.  Block contents are those seen
  through the buffer cache.

  A zone number is found in a slot of an inode or of an index block.  `Ref` names the slots, so that
  direct, indirect and double-indirect blocks are one recursive definition.
 */
module FileModel {
  const BLOCK_SIZE: nat := 1024
  const SHORTS: nat := 512
  const DIRECT: nat := 7
  const MAX_BLOCKS: nat := 7 + 512 + 512 * 512

  datatype Inode = Inode(zone: seq<nat>, size: nat)

  datatype Ref = Top(ino: nat, i: nat) | Sub(parent: Ref, i: nat)

  /** `readable` is where bread would succeed; the environment decides it. */
  datatype Fs = Fs(bits: seq<bool>, blocks: seq<seq<nat>>, inodes: seq<Inode>, first: nat, readable: set<nat>)

  // ---------------------------------------------------------------- 16-bit numbers in a block

  function Short(b: seq<nat>, i: nat): nat {
    if 2 * i + 1 < |b| then b[2 * i] + 256 * b[2 * i + 1] else 0
  }

  function SetShort(b: seq<nat>, i: nat, v: nat): seq<nat>
    requires 2 * i + 1 < |b|
  {
    b[2 * i := v % 256][2 * i + 1 := v / 256]
  }

  lemma ShortAfterSet(b: seq<nat>, i: nat, v: nat, j: nat)
    requires 2 * i + 1 < |b|
    ensures Short(SetShort(b, i, v), j) == if j == i then v else Short(b, j)
  {
  }

  function ZeroBlock(): (b: seq<nat>)
    ensures |b| == BLOCK_SIZE && forall i :: 0 <= i < BLOCK_SIZE ==> b[i] == 0
  {
    seq(BLOCK_SIZE, _ => 0)
  }

  // ---------------------------------------------------------------- references

  predicate IsIndex(r: Ref) {
    match r
    case Top(_, i) => i == 7 || i == 8
    case Sub(Top(_, i), _) => i == 8
    case Sub(_, _) => false
  }

  predicate ValidRef(fs: Fs, r: Ref) {
    match r
    case Top(ino, i) => ino < |fs.inodes| && i < 9
    case Sub(p, i) => i < SHORTS && IsIndex(p) && ValidRef(fs, p)
  }

  /** The zone number in a slot; 0 when there is none, or when the index block is missing. */
  function Zone(fs: Fs, r: Ref): nat {
    match r
    case Top(ino, i) => if ino < |fs.inodes| && i < |fs.inodes[ino].zone| then fs.inodes[ino].zone[i] else 0
    case Sub(p, i) =>
      var z := Zone(fs, p);
      if z == 0 || z >= |fs.blocks| then 0 else Short(fs.blocks[z], i)
  }

  /** The slot of file block `b`: the shape of _bmap. */
  function DataRef(ino: nat, b: nat): Ref {
    if b < DIRECT then Top(ino, b)
    else if b < DIRECT + SHORTS then Sub(Top(ino, 7), b - DIRECT)
    else Sub(Sub(Top(ino, 8), (b - DIRECT - SHORTS) / SHORTS), (b - DIRECT - SHORTS) % SHORTS)
  }

  /** Entry `i` of index block `z`: two bytes, the low one first; 0 when there is no such block. */
  function IndexEntry(fs: Fs, z: nat, i: nat): nat {
    if z == 0 || z >= |fs.blocks| || 2 * i + 1 >= |fs.blocks[z]| then 0
    else fs.blocks[z][2 * i] + 256 * fs.blocks[z][2 * i + 1]
  }

  /** The zone of a file block as it stands on disk: seven in the inode, 512 in one index block, the rest two deep. */
  function OnDisk(fs: Fs, ino: nat, b: nat): nat
    requires ino < |fs.inodes| && |fs.inodes[ino].zone| == 9
  {
    var zone := fs.inodes[ino].zone;
    if b < 7 then zone[b]
    else if b < 519 then IndexEntry(fs, zone[7], b - 7)
    else IndexEntry(fs, IndexEntry(fs, zone[8], (b - 519) / 512), (b - 519) % 512)
  }

  lemma DataRefOnDisk(fs: Fs, ino: nat, b: nat)
    requires Shape(fs) && ino < |fs.inodes|
    ensures Zone(fs, DataRef(ino, b)) == OnDisk(fs, ino, b)
  {
    if b >= 519 {
      var i := (b - 519) / 512;
      assert Zone(fs, Sub(Top(ino, 8), i)) == IndexEntry(fs, fs.inodes[ino].zone[8], i);
    }
  }

  function Owner(r: Ref): nat {
    match r
    case Top(ino, _) => ino
    case Sub(p, _) => Owner(p)
  }

  predicate InData(fs: Fs, z: nat) {
    fs.first <= z < |fs.blocks|
  }

  /** new_block and free_block use inverse index arithmetic. */
  function BitOf(fs: Fs, z: nat): int {
    z - (fs.first - 1)
  }

  function ZoneOfBit(fs: Fs, j: nat): int {
    j + fs.first - 1
  }

  ghost predicate Shape(fs: Fs) {
    && 1 <= fs.first <= |fs.blocks| <= 65536
    && |fs.blocks| - fs.first < |fs.bits|
    && fs.bits[0]
    && (forall z :: 0 <= z < |fs.blocks| ==> |fs.blocks[z]| == BLOCK_SIZE)
    && (forall n :: 0 <= n < |fs.inodes| ==> |fs.inodes[n].zone| == 9)
  }

  ghost predicate SlotsOk(fs: Fs) {
    forall r :: ValidRef(fs, r) && Zone(fs, r) != 0 ==>
      InData(fs, Zone(fs, r)) && 0 <= BitOf(fs, Zone(fs, r)) < |fs.bits| && fs.bits[BitOf(fs, Zone(fs, r))]
  }

  /** No zone is in two slots. */
  ghost predicate Injective(fs: Fs) {
    forall q, r :: ValidRef(fs, q) && ValidRef(fs, r) && Zone(fs, q) == Zone(fs, r) != 0 ==> q == r
  }

  ghost predicate Owned(fs: Fs, z: nat) {
    exists r :: ValidRef(fs, r) && Zone(fs, r) == z
  }

  /** A data zone's bit is set exactly when some file owns the zone: nothing leaks. */
  ghost predicate NoLeak(fs: Fs) {
    forall z: nat :: InData(fs, z) && 0 <= BitOf(fs, z) < |fs.bits| && fs.bits[BitOf(fs, z)] ==> Owned(fs, z)
  }

  ghost predicate Wf(fs: Fs) {
    Shape(fs) && SlotsOk(fs) && Injective(fs) && NoLeak(fs)
  }

  /** Byte `pos` of a file; a hole reads as zero. */
  function Byte(fs: Fs, ino: nat, pos: nat): nat {
    var z := Zone(fs, DataRef(ino, pos / BLOCK_SIZE));
    if z == 0 || z >= |fs.blocks| || pos % BLOCK_SIZE >= |fs.blocks[z]| then 0 else fs.blocks[z][pos % BLOCK_SIZE]
  }

  /** The bytes of a file lie in its blocks one after the other. */
  lemma ByteOnDisk(fs: Fs, ino: nat, block: nat, offset: nat)
    requires Shape(fs) && ino < |fs.inodes| && offset < 1024
    ensures var z := OnDisk(fs, ino, block);
      Byte(fs, ino, 1024 * block + offset) == if 0 < z < |fs.blocks| then fs.blocks[z][offset] else 0
  {
    var pos := 1024 * block + offset;
    assert pos / BLOCK_SIZE == block && pos % BLOCK_SIZE == offset;
    DataRefOnDisk(fs, ino, block);
  }

  // ---------------------------------------------------------------- one allocation

  /** new_block and the store of its number in slot `r`. */
  function Grow(fs: Fs, r: Ref, z: nat): Fs
    requires Shape(fs) && ValidRef(fs, r) && InData(fs, z) && (r.Sub? ==> Zone(fs, r.parent) < |fs.blocks|)
  {
    var f1 := fs.(bits := fs.bits[BitOf(fs, z) := true], blocks := fs.blocks[z := ZeroBlock()],
                  readable := fs.readable + {z});
    match r
    case Top(ino, i) => f1.(inodes := f1.inodes[ino := f1.inodes[ino].(zone := f1.inodes[ino].zone[i := z])])
    case Sub(p, i) => f1.(blocks := f1.blocks[Zone(fs, p) := SetShort(f1.blocks[Zone(fs, p)], i, z)])
  }

  /** The slot is empty, its index block exists, and the zone is free. */
  ghost predicate CanGrow(fs: Fs, r: Ref, z: nat) {
    && Shape(fs) && Wf(fs) && ValidRef(fs, r) && Zone(fs, r) == 0 && (r.Sub? ==> 0 != Zone(fs, r.parent) < |fs.blocks|)
    && InData(fs, z) && !fs.bits[BitOf(fs, z)]
  }

  lemma FreeIsUnowned(fs: Fs, z: nat, q: Ref)
    requires Wf(fs) && InData(fs, z) && !fs.bits[BitOf(fs, z)] && ValidRef(fs, q)
    ensures Zone(fs, q) != z
  {
  }

  /** Only the slot that was filled has a new zone number. */
  lemma GrowZone(fs: Fs, r: Ref, z: nat, q: Ref)
    requires CanGrow(fs, r, z) && ValidRef(fs, q)
    ensures ValidRef(Grow(fs, r, z), q)
    ensures Zone(Grow(fs, r, z), q) == if q == r then z else Zone(fs, q)
  {
    hide Wf;
    var fs' := Grow(fs, r, z);
    match q
    case Top(ino, i) =>
    case Sub(p, i) =>
      GrowZone(fs, r, z, p);
      GrowShape(fs, r, z);
      FreeIsUnowned(fs, z, p);
      if p == r {
        assert Zone(fs, q) == 0 && fs'.blocks[z] == ZeroBlock() by { GrowBlock(fs, r, z); }
      } else if Zone(fs, p) != 0 {
        ZoneInData(fs, p);
        GrowIndex(fs, r, z, p, i);
      }
  }

  lemma ZoneInData(fs: Fs, p: Ref)
    requires Wf(fs) && ValidRef(fs, p) && Zone(fs, p) != 0
    ensures InData(fs, Zone(fs, p))
  {
  }

  lemma GrowShape(fs: Fs, r: Ref, z: nat)
    requires CanGrow(fs, r, z)
    ensures Shape(Grow(fs, r, z)) && |Grow(fs, r, z).blocks| == |fs.blocks| && |Grow(fs, r, z).inodes| == |fs.inodes|
  {
  }

  /** The new block is all zero: it is not its own index block. */
  lemma GrowBlock(fs: Fs, r: Ref, z: nat)
    requires CanGrow(fs, r, z)
    ensures Grow(fs, r, z).blocks[z] == ZeroBlock()
  {
    if r.Sub? { FreeIsUnowned(fs, z, r.parent); }
  }

  /** Entry `i` of another index block, or another entry of the same one, is as before. */
  lemma GrowIndex(fs: Fs, r: Ref, z: nat, p: Ref, i: nat)
    requires CanGrow(fs, r, z)
    requires ValidRef(fs, p) && InData(fs, Zone(fs, p)) && Zone(fs, p) != z
    ensures Short(Grow(fs, r, z).blocks[Zone(fs, p)], i) ==
      if r == Sub(p, i) then z else Short(fs.blocks[Zone(fs, p)], i)
  {
    if r.Sub? {
      FreeIsUnowned(fs, z, r.parent);
      if Zone(fs, r.parent) == Zone(fs, p) {
        assert r.parent == p;
        ShortAfterSet(fs.blocks[Zone(fs, p)], r.i, z, i);
      }
    }
  }

  lemma GrowWf(fs: Fs, r: Ref, z: nat)
    requires CanGrow(fs, r, z)
    ensures Wf(Grow(fs, r, z))
  {
    var fs' := Grow(fs, r, z);
    GrowShape(fs, r, z);
    forall q
      ensures ValidRef(fs', q) <==> ValidRef(fs, q)
      ensures ValidRef(fs, q) ==> Zone(fs', q) == if q == r then z else Zone(fs, q)
    {
      SameValid(fs, fs', q);
      if ValidRef(fs, q) { GrowZone(fs, r, z, q); }
    }
    GrowSlots(fs, fs', r, z);
    GrowInjective(fs, fs', r, z);
    GrowOwned(fs, fs', r, z);
  }

  lemma SameValid(fs: Fs, fs': Fs, q: Ref)
    requires |fs.inodes| == |fs'.inodes|
    ensures ValidRef(fs', q) <==> ValidRef(fs, q)
  {
  }

  lemma GrowSlots(fs: Fs, fs': Fs, r: Ref, z: nat)
    requires Wf(fs) && InData(fs, z) && !fs.bits[BitOf(fs, z)] && ValidRef(fs, r)
    requires Shape(fs') && fs'.first == fs.first && |fs'.blocks| == |fs.blocks|
    requires fs'.bits == fs.bits[BitOf(fs, z) := true]
    requires forall q :: ValidRef(fs', q) <==> ValidRef(fs, q)
    requires forall q :: ValidRef(fs, q) ==> Zone(fs', q) == if q == r then z else Zone(fs, q)
    ensures SlotsOk(fs')
  {
    hide NoLeak, Injective, Zone;
    forall q | ValidRef(fs', q) && Zone(fs', q) != 0
      ensures InData(fs', Zone(fs', q)) && 0 <= BitOf(fs', Zone(fs', q)) < |fs'.bits|
      ensures fs'.bits[BitOf(fs', Zone(fs', q))]
    {
      assert q != r ==> Zone(fs, q) == Zone(fs', q);
    }
  }

  lemma GrowInjective(fs: Fs, fs': Fs, r: Ref, z: nat)
    requires Wf(fs) && InData(fs, z) && !fs.bits[BitOf(fs, z)] && ValidRef(fs, r)
    requires Shape(fs') && fs'.first == fs.first && |fs'.blocks| == |fs.blocks|
    requires fs'.bits == fs.bits[BitOf(fs, z) := true]
    requires forall q :: ValidRef(fs', q) <==> ValidRef(fs, q)
    requires forall q :: ValidRef(fs, q) ==> Zone(fs', q) == if q == r then z else Zone(fs, q)
    ensures Injective(fs')
  {
    hide NoLeak;
    forall p, q | ValidRef(fs', p) && ValidRef(fs', q) && Zone(fs', p) == Zone(fs', q) != 0
      ensures p == q
    {
      FreeIsUnowned(fs, z, p);
      FreeIsUnowned(fs, z, q);
      assert p != r && q != r ==> Zone(fs, p) == Zone(fs, q);
    }
  }

  lemma GrowOwned(fs: Fs, fs': Fs, r: Ref, z: nat)
    requires Wf(fs) && InData(fs, z) && ValidRef(fs, r) && Zone(fs, r) == 0
    requires Shape(fs') && fs'.first == fs.first && |fs'.blocks| == |fs.blocks|
    requires fs'.bits == fs.bits[BitOf(fs, z) := true]
    requires forall q :: ValidRef(fs', q) <==> ValidRef(fs, q)
    requires forall q :: ValidRef(fs, q) ==> Zone(fs', q) == if q == r then z else Zone(fs, q)
    ensures NoLeak(fs')
  {
    hide Zone, SlotsOk, Injective;
    forall y: nat | InData(fs', y) && 0 <= BitOf(fs', y) < |fs'.bits| && fs'.bits[BitOf(fs', y)]
      ensures Owned(fs', y)
    {
      if y == z {
        assert ValidRef(fs', r) && Zone(fs', r) == z;
      } else {
        assert Owned(fs, y);
        var q :| ValidRef(fs, q) && Zone(fs, q) == y;
        assert ValidRef(fs', q) && Zone(fs', q) == y;
      }
    }
  }

  lemma DataRefValid(fs: Fs, ino: nat, b: nat)
    requires ino < |fs.inodes| && b < MAX_BLOCKS
    ensures ValidRef(fs, DataRef(ino, b)) && !IsIndex(DataRef(ino, b))
  {
  }

  lemma DataOwner(ino: nat, b: nat)
    ensures Owner(DataRef(ino, b)) == ino
  {
    assert Owner(Top(ino, 8)) == ino;
    assert forall i :: Owner(Sub(Top(ino, 8), i)) == ino;
  }

  /** Different blocks have different slots, through all three levels. */
  lemma DataRefInjective(ino: nat, b: nat, ino': nat, b': nat)
    requires DataRef(ino, b) == DataRef(ino', b')
    ensures ino == ino' && b == b'
  {
    DataOwner(ino, b);
    DataOwner(ino', b');
  }

  /** Two blocks of any two files never share a zone. */
  lemma ZonesDistinct(fs: Fs, ino: nat, b: nat, ino': nat, b': nat)
    requires Wf(fs) && ino < |fs.inodes| && ino' < |fs.inodes| && b < MAX_BLOCKS && b' < MAX_BLOCKS
    requires Zone(fs, DataRef(ino, b)) == Zone(fs, DataRef(ino', b')) != 0
    ensures ino == ino' && b == b'
  {
    DataRefValid(fs, ino, b);
    DataRefValid(fs, ino', b');
    DataRefInjective(ino, b, ino', b');
  }

  /** An allocation at any level changes no byte of any file. */
  lemma GrowBytes(fs: Fs, r: Ref, z: nat, ino: nat, pos: nat)
    requires CanGrow(fs, r, z) && ino < |fs.inodes| && pos / BLOCK_SIZE < MAX_BLOCKS
    ensures Byte(Grow(fs, r, z), ino, pos) == Byte(fs, ino, pos)
  {
    hide Wf;
    var q := DataRef(ino, pos / BLOCK_SIZE);
    DataRefValid(fs, ino, pos / BLOCK_SIZE);
    GrowZone(fs, r, z, q);
    GrowShape(fs, r, z);
    if q == r {
      GrowBlock(fs, r, z);
    } else if Zone(fs, q) != 0 {
      ZoneInData(fs, q);
      FreeIsUnowned(fs, z, q);
      if r.Sub? { OtherZone(fs, q, r.parent); }
    }
  }

  lemma OtherZone(fs: Fs, q: Ref, p: Ref)
    requires Wf(fs) && ValidRef(fs, q) && ValidRef(fs, p) && Zone(fs, q) != 0 && IsIndex(p) && !IsIndex(q)
    ensures Zone(fs, p) != Zone(fs, q)
  {
  }

  // ---------------------------------------------------------------- writing into a block

  /** Storing bytes in the data block of block `b` of file `ino`. */
  function Fill(fs: Fs, z: nat, c: nat, data: seq<nat>): Fs
    requires z < |fs.blocks| && c + |data| <= |fs.blocks[z]|
  {
    fs.(blocks := fs.blocks[z := fs.blocks[z][..c] + data + fs.blocks[z][c + |data|..]])
  }

  lemma FillZone(fs: Fs, d: Ref, c: nat, data: seq<nat>, q: Ref)
    requires Wf(fs) && ValidRef(fs, d) && !IsIndex(d) && Zone(fs, d) != 0 && InData(fs, Zone(fs, d))
    requires c + |data| <= BLOCK_SIZE && ValidRef(fs, q)
    ensures Zone(Fill(fs, Zone(fs, d), c, data), q) == Zone(fs, q)
  {
    match q
    case Top(ino, i) =>
    case Sub(p, i) =>
      FillZone(fs, d, c, data, p);
      assert Zone(fs, p) == Zone(fs, d) ==> p == d;
  }

  lemma FillWf(fs: Fs, d: Ref, c: nat, data: seq<nat>)
    requires Wf(fs) && ValidRef(fs, d) && !IsIndex(d) && Zone(fs, d) != 0 && InData(fs, Zone(fs, d))
    requires c + |data| <= BLOCK_SIZE
    ensures Wf(Fill(fs, Zone(fs, d), c, data))
  {
    var fs' := Fill(fs, Zone(fs, d), c, data);
    forall q
      ensures ValidRef(fs', q) <==> ValidRef(fs, q)
      ensures ValidRef(fs, q) ==> Zone(fs', q) == Zone(fs, q)
    {
      SameValid(fs, fs', q);
      if ValidRef(fs, q) { FillZone(fs, d, c, data, q); }
    }
    assert Shape(fs');
    SameZonesWf(fs, fs');
  }

  lemma SameZonesWf(fs: Fs, fs': Fs)
    requires Wf(fs) && Shape(fs') && fs'.first == fs.first && |fs'.blocks| == |fs.blocks| && fs'.bits == fs.bits
    requires forall q :: ValidRef(fs', q) <==> ValidRef(fs, q)
    requires forall q :: ValidRef(fs, q) ==> Zone(fs', q) == Zone(fs, q)
    ensures Wf(fs')
  {
    forall y: nat | InData(fs', y) && 0 <= BitOf(fs', y) < |fs'.bits| && fs'.bits[BitOf(fs', y)]
      ensures Owned(fs', y)
    {
      assert Owned(fs, y);
      var q :| ValidRef(fs, q) && Zone(fs, q) == y;
      assert ValidRef(fs', q) && Zone(fs', q) == y;
    }
  }

  /** The bytes stored are the only bytes, of any file, that change. */
  lemma FillBytes(fs: Fs, ino: nat, b: nat, c: nat, data: seq<nat>, ino': nat, pos: nat)
    requires Wf(fs) && ino < |fs.inodes| && b < MAX_BLOCKS && Zone(fs, DataRef(ino, b)) != 0
    requires InData(fs, Zone(fs, DataRef(ino, b))) && c + |data| <= BLOCK_SIZE
    requires ino' < |fs.inodes| && pos / BLOCK_SIZE < MAX_BLOCKS
    ensures Byte(Fill(fs, Zone(fs, DataRef(ino, b)), c, data), ino', pos) ==
      if ino' == ino && b * BLOCK_SIZE + c <= pos < b * BLOCK_SIZE + c + |data| then data[pos - b * BLOCK_SIZE - c]
      else Byte(fs, ino', pos)
  {
    hide Wf;
    var b' := pos / BLOCK_SIZE;
    var d, q := DataRef(ino, b), DataRef(ino', b');
    DataRefValid(fs, ino, b);
    DataRefValid(fs, ino', b');
    FillZone(fs, d, c, data, q);
    if Zone(fs, q) != 0 { ZoneInData(fs, q); }
    if ino' != ino || b' != b {
      if Zone(fs, q) == Zone(fs, d) { ZonesDistinct(fs, ino, b, ino', b'); }
    }
    ShapeOf(fs);
  }

  lemma ShapeOf(fs: Fs)
    requires Wf(fs)
    ensures Shape(fs)
  {
  }
}
