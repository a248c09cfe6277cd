/**
  fs/bitmap.c (zones), fs/inode.c (_bmap), fs/file_dev.c and fs/truncate.c on the model of
  FileModel, changed in place.
 */
module FileBlocks {
  import opened Common
  import opened FileModel

  const MAP_BITS: nat := 8192

  /** Every slot in use still holds its zone, and what could be read still can. */
  ghost predicate Grown(fs: Fs, fs': Fs) {
    && |fs'.inodes| == |fs.inodes| && fs.readable <= fs'.readable
    && (forall r :: ValidRef(fs, r) && Zone(fs, r) != 0 ==> Zone(fs', r) == Zone(fs, r))
  }

  lemma GrownTrans(a: Fs, b: Fs, c: Fs)
    requires Grown(a, b) && Grown(b, c)
    ensures Grown(a, c)
  {
    forall r | ValidRef(a, r) ensures ValidRef(b, r) { SameValid(a, b, r); }
  }

  /** The same files, byte for byte; empty slots may have been filled. */
  ghost predicate Kept(fs: Fs, fs': Fs) {
    && |fs'.blocks| == |fs.blocks| && fs'.first == fs.first && Grown(fs, fs')
    && (forall n :: 0 <= n < |fs.inodes| ==> fs'.inodes[n].size == fs.inodes[n].size)
    && (forall ino: nat, pos: nat :: ino < |fs.inodes| && pos / BLOCK_SIZE < MAX_BLOCKS ==>
          Byte(fs', ino, pos) == Byte(fs, ino, pos))
  }

  lemma KeptTrans(a: Fs, b: Fs, c: Fs)
    requires Kept(a, b) && Kept(b, c)
    ensures Kept(a, c)
  {
    forall r | ValidRef(a, r) ensures ValidRef(b, r) { SameValid(a, b, r); }
  }

  lemma GrowKept(fs: Fs, r: Ref, z: nat)
    requires CanGrow(fs, r, z)
    ensures Wf(Grow(fs, r, z)) && Kept(fs, Grow(fs, r, z)) && Zone(Grow(fs, r, z), r) == z
  {
    hide Wf;
    var fs' := Grow(fs, r, z);
    GrowWf(fs, r, z);
    GrowShape(fs, r, z);
    GrowZone(fs, r, z, r);
    forall q | ValidRef(fs, q) && Zone(fs, q) != 0
      ensures Zone(fs', q) == Zone(fs, q)
    {
      GrowZone(fs, r, z, q);
    }
    forall ino: nat, pos: nat | ino < |fs.inodes| && pos / BLOCK_SIZE < MAX_BLOCKS
      ensures Byte(fs', ino, pos) == Byte(fs, ino, pos)
    {
      GrowBytes(fs, r, z, ino, pos);
    }
  }

  /** A bit set for a zone past the end of the device belongs to no file. */
  lemma WasteKept(fs: Fs, j: nat)
    requires Wf(fs) && j < |fs.bits| && ZoneOfBit(fs, j) >= |fs.blocks|
    ensures var fs' := fs.(bits := fs.bits[j := true]);
      Wf(fs') && Kept(fs, fs')
  {
    var fs' := fs.(bits := fs.bits[j := true]);
    forall r
      ensures ValidRef(fs', r) <==> ValidRef(fs, r)
      ensures Zone(fs', r) == Zone(fs, r)
    {
      SameValid(fs, fs', r);
      SameZone(fs, fs', r);
    }
    forall y: nat | InData(fs', y) && 0 <= BitOf(fs', y) < |fs'.bits| && fs'.bits[BitOf(fs', y)]
      ensures Owned(fs', y)
    {
      assert Owned(fs, y);
      var q :| ValidRef(fs, q) && Zone(fs, q) == y;
      assert ValidRef(fs', q) && Zone(fs', q) == y;
    }
  }

  lemma {:induction false} NoZones(fs: Fs, r: Ref)
    requires forall n :: 0 <= n < |fs.inodes| ==> forall i :: 0 <= i < |fs.inodes[n].zone| ==> fs.inodes[n].zone[i] == 0
    ensures Zone(fs, r) == 0
  {
    match r
    case Top(_, _) =>
    case Sub(p, _) => NoZones(fs, p);
  }

  lemma EmptyWf(fs: Fs)
    requires Shape(fs)
    requires forall n :: 0 <= n < |fs.inodes| ==> forall i :: 0 <= i < |fs.inodes[n].zone| ==> fs.inodes[n].zone[i] == 0
    requires forall k :: 0 < k < |fs.bits| ==> !fs.bits[k]
    ensures Wf(fs)
  {
    forall r: Ref
      ensures Zone(fs, r) == 0
    {
      NoZones(fs, r);
    }
  }

  lemma SameZone(fs: Fs, fs': Fs, r: Ref)
    requires fs'.blocks == fs.blocks && fs'.inodes == fs.inodes
    ensures Zone(fs', r) == Zone(fs, r)
  {
  }

  class FileSystem {
    const bits: array<bool>
    const blocks: array<seq<nat>>
    const inodes: array<Inode>
    const first: nat
    var readable: set<nat>

    ghost function View(): Fs
      reads this, bits, blocks, inodes
    {
      Fs(bits[..], blocks[..], inodes[..], first, readable)
    }

    ghost predicate Separate() {
      bits as object != blocks && bits as object != inodes && blocks as object != inodes
    }

    ghost predicate Valid()
      reads this, bits, blocks, inodes
    {
      && Separate()
      && bits.Length % MAP_BITS == 0 && bits.Length <= 8 * MAP_BITS
      && Shape(View()) && Wf(View())
    }

    /** A file system with no zone in use; bit 0 of the map is taken, as read_super leaves it. */
    constructor (mapBlocks: nat, total: nat, first: nat, files: nat)
      requires 1 <= mapBlocks <= 8 && 1 <= first <= total <= 65536 && total - first < mapBlocks * MAP_BITS
      ensures Valid() && fresh(bits) && fresh(blocks) && fresh(inodes) && blocks.Length == total
      ensures inodes.Length == files
      ensures forall z: nat :: InData(View(), z) ==> !bits[BitOf(View(), z)]
    {
      bits := new bool[mapBlocks * MAP_BITS](k => k == 0);
      blocks := new seq<nat>[total](_ => ZeroBlock());
      inodes := new Inode[files](_ => Inode(seq(9, _ => 0), 0));
      this.first, readable := first, {};
      new;
      EmptyWf(View());
    }

    /** find_first_zero on map block `i`; MAP_BITS when all its bits are set. */
    method FindFirstZero(i: nat) returns (j: nat)
      requires (i + 1) * MAP_BITS <= bits.Length
      ensures j <= MAP_BITS && forall k :: i * MAP_BITS <= k < i * MAP_BITS + j ==> bits[k]
      ensures j < MAP_BITS ==> !bits[i * MAP_BITS + j]
    {
      j := 0;
      while j < MAP_BITS && bits[i * MAP_BITS + j]
        invariant j <= MAP_BITS && forall k :: i * MAP_BITS <= k < i * MAP_BITS + j ==> bits[k]
      {
        j := j + 1;
      }
    }

    /**
      new_block: the lowest free zone, marked used and cleared; 0 when no data zone is free, in
      which case a bit past the last zone may be left set.
     */
    method NewBlock() returns (z: nat)
      requires Valid()
      modifies this`readable, bits, blocks
      ensures z != 0 ==>
        && InData(old(View()), z) && !old(bits[BitOf(View(), z)])
        && View() == old(View()).(bits := old(bits[..])[BitOf(old(View()), z) := true],
                                  blocks := old(blocks[..])[z := ZeroBlock()], readable := old(readable) + {z})
      ensures z != 0 ==> forall y: nat :: InData(old(View()), y) && y < z ==> old(bits[BitOf(View(), y)])
      ensures z == 0 ==>
        Valid() && Kept(old(View()), View()) && blocks[..] == old(blocks[..]) && inodes[..] == old(inodes[..])
      ensures z == 0 ==> Full(View())
    {
      hide Wf, Kept, Full;
      ghost var fs := View();
      KeptRefl(fs);
      var i, j := 0, MAP_BITS;
      while i < 8
        invariant i <= 8 && j == MAP_BITS
        invariant forall k :: 0 <= k < i * MAP_BITS && k < bits.Length ==> bits[k]
        invariant View() == fs
      {
        if (i + 1) * MAP_BITS <= bits.Length {
          j := FindFirstZero(i);
          if j < MAP_BITS { break; }
        }
        i := i + 1;
      }
      if i >= 8 || j >= MAP_BITS {
        AllSet(fs, bits.Length);
        return 0;
      }
      bits[i * MAP_BITS + j] := true;
      z := j + i * MAP_BITS + first - 1;
      if z >= blocks.Length {
        WasteKept(fs, i * MAP_BITS + j);
        AllSet(View(), i * MAP_BITS + j);
        return 0;
      }
      blocks[z] := ZeroBlock();
      readable := readable + {z};
    }

    /** new_block for slot `i` of an inode. */
    method GrowTop(ino: nat, i: nat) returns (z: nat)
      requires Valid() && ino < inodes.Length && i < 9 && inodes[ino].zone[i] == 0
      modifies this`readable, bits, blocks, inodes
      ensures Valid() && Kept(old(View()), View()) && inodes.Length > ino && |inodes[ino].zone| == 9
      ensures z == inodes[ino].zone[i] && (z == 0 ==> Full(View()))
    {
      hide Kept;
      ghost var fs := View();
      z := NewBlock();
      if z != 0 {
        GrowKept(fs, Top(ino, i), z);
        inodes[ino] := inodes[ino].(zone := inodes[ino].zone[i := z]);
        assert View() == Grow(fs, Top(ino, i), z);
      }
    }

    /** new_block for entry `i` of the index block `pz`, which is the zone of slot `p`. */
    method GrowSub(ghost p: Ref, pz: nat, i: nat) returns (z: nat)
      requires Valid() && ValidRef(View(), p) && IsIndex(p) && pz == Zone(View(), p) != 0 && pz < blocks.Length
      requires i < SHORTS && Short(blocks[pz], i) == 0
      modifies this`readable, bits, blocks
      ensures Valid() && Kept(old(View()), View())
      ensures z == Zone(View(), Sub(p, i)) && (z == 0 ==> Full(View())) && inodes[..] == old(inodes[..])
    {
      hide Kept;
      ghost var fs := View();
      z := NewBlock();
      if z != 0 {
        FreeIsUnowned(fs, z, p);
        GrowKept(fs, Sub(p, i), z);
        blocks[pz] := SetShort(blocks[pz], i, z);
        assert View() == Grow(fs, Sub(p, i), z);
      } else {
        SameZone(fs, View(), Sub(p, i));
      }
    }

    /**
      _bmap: the zone of a file block; with `create`, missing blocks are added on the way.  None is
      the panic for a block past the largest file.
     */
    method Bmap(ino: nat, block: nat, create: bool) returns (r: Option<nat>)
      requires Valid() && ino < inodes.Length
      modifies this`readable, bits, blocks, inodes
      ensures Valid() && Kept(old(View()), View())
      ensures !create ==> View() == old(View())
      ensures r.None? <==> block >= MAX_BLOCKS
      ensures r.None? ==> View() == old(View())
      ensures r.Some? ==> r.value == if IndexReadable(View(), ino, block) then Zone(View(), DataRef(ino, block)) else 0
      ensures r.Some? ==> r.value == if IndexReadable(View(), ino, block) then OnDisk(View(), ino, block) else 0
      ensures create && r == Some(0) ==> !IndexReadable(View(), ino, block) || Full(View())
    {
      hide Wf, Kept, Full;
      KeptRefl(View());
      if block >= MAX_BLOCKS { return None; }
      var z;
      if block < DIRECT {
        z := BmapTop(ino, block, create);
      } else if block - DIRECT < SHORTS {
        z := BmapIndirect(ino, block - DIRECT, create);
      } else {
        z := BmapDouble(ino, block - DIRECT - SHORTS, create);
      }
      DataRefOnDisk(View(), ino, block);
      return Some(z);
    }

    /** _bmap through the indirect block. */
    method BmapIndirect(ino: nat, b: nat, create: bool) returns (z: nat)
      requires Valid() && ino < inodes.Length && b < SHORTS
      modifies this`readable, bits, blocks, inodes
      ensures Valid() && Kept(old(View()), View()) && (!create ==> View() == old(View()))
      ensures z == if Zone(View(), Top(ino, 7)) in readable + {0} then Zone(View(), Sub(Top(ino, 7), b)) else 0
      ensures create && z == 0 ==> Zone(View(), Top(ino, 7)) !in readable + {0} || Full(View())
    {
      hide Wf, Kept, Full;
      ghost var fs := View();
      var iz := BmapTop(ino, 7, create);
      if iz == 0 { return 0; }
      ghost var mid := View();
      z := BmapSub(Top(ino, 7), iz, b, create);
      KeptTrans(fs, mid, View());
      KeptZone(mid, View(), Top(ino, 7));
      KeptReadable(mid, View());
    }

    /** _bmap through the double-indirect block. */
    method BmapDouble(ino: nat, b: nat, create: bool) returns (z: nat)
      requires Valid() && ino < inodes.Length && b < SHORTS * SHORTS
      modifies this`readable, bits, blocks, inodes
      ensures Valid() && Kept(old(View()), View()) && (!create ==> View() == old(View()))
      ensures var q := Sub(Top(ino, 8), b / SHORTS);
        var ok := Zone(View(), Top(ino, 8)) in readable + {0} && Zone(View(), q) in readable + {0};
        && z == (if ok then Zone(View(), Sub(q, b % SHORTS)) else 0)
        && (create && z == 0 ==> !ok || Full(View()))
    {
      hide Wf, Kept, Full;
      ghost var fs := View();
      var dz := BmapTop(ino, 8, create);
      if dz == 0 { return 0; }
      ghost var m1 := View();
      ghost var q := Sub(Top(ino, 8), b / SHORTS);
      var iz := BmapSub(Top(ino, 8), dz, b / SHORTS, create);
      ghost var m2 := View();
      KeptTrans(fs, m1, m2);
      KeptZone(m1, m2, Top(ino, 8));
      KeptReadable(m1, m2);
      if iz == 0 { return 0; }
      z := BmapSub(q, iz, b % SHORTS, create);
      KeptTrans(fs, m2, View());
      KeptZone(m2, View(), q);
      KeptZone(m2, View(), Top(ino, 8));
      KeptReadable(m2, View());
    }

    /** One level of _bmap in the inode. */
    method BmapTop(ino: nat, i: nat, create: bool) returns (z: nat)
      requires Valid() && ino < inodes.Length && i < 9
      modifies this`readable, bits, blocks, inodes
      ensures Valid() && Kept(old(View()), View()) && z == Zone(View(), Top(ino, i))
      ensures !create ==> View() == old(View())
      ensures create && z == 0 ==> Full(View())
    {
      hide Wf, Kept, Full;
      KeptRefl(View());
      z := inodes[ino].zone[i];
      if create && z == 0 {
        z := GrowTop(ino, i);
      }
    }

    /** One level of _bmap in the index block `pz`; 0 also when the block cannot be read. */
    method BmapSub(ghost p: Ref, pz: nat, i: nat, create: bool) returns (z: nat)
      requires Valid() && ValidRef(View(), p) && IsIndex(p) && pz == Zone(View(), p) != 0 && i < SHORTS
      modifies this`readable, bits, blocks
      ensures Valid() && Kept(old(View()), View()) && inodes[..] == old(inodes[..])
      ensures pz !in old(readable) ==> z == 0 && View() == old(View())
      ensures pz in old(readable) ==> z == Zone(View(), Sub(p, i))
      ensures !create ==> View() == old(View())
      ensures create && z == 0 && pz in old(readable) ==> Full(View())
    {
      hide Wf, Kept, Full;
      KeptRefl(View());
      if pz !in readable { return 0; }
      ZoneInData(View(), p);
      z := Short(blocks[pz], i);
      if create && z == 0 {
        z := GrowSub(p, pz, i);
      }
    }

    /**
      One turn of file_write: a piece that fits in one block; false when no block could be had, None
      when _bmap panics.
     */
    method WriteChunk(ino: nat, pos: nat, data: seq<nat>) returns (ok: Option<bool>)
      requires Valid() && ino < inodes.Length && pos % BLOCK_SIZE + |data| <= BLOCK_SIZE
      modifies this`readable, bits, blocks, inodes
      ensures Valid() && Written(old(View()), View(), ino, pos, if ok == Some(true) then data else [])
      ensures inodes[ino].size ==
        if ok == Some(true) && pos + |data| > old(inodes[ino].size) then pos + |data| else old(inodes[ino].size)
      ensures Grown(old(View()), View())
      ensures ok.None? <==> pos / BLOCK_SIZE >= MAX_BLOCKS
      ensures ok == Some(false) ==> Stuck(View(), ino, pos / BLOCK_SIZE)
      ensures ok == Some(true) ==> Backed(View(), ino, pos / BLOCK_SIZE)
    {
      hide Wf, Kept, Written, Full, IndexReadable, Grown;
      ghost var fs := View();
      NothingWritten(fs, ino, pos, data);
      var r := Bmap(ino, pos / BLOCK_SIZE, true);
      ghost var grown := View();
      KeptGrown(fs, grown);
      KeptSize(fs, grown, ino);
      WrittenKept(fs, fs, grown, ino, pos, []);
      if r == None { return None; }
      var z := r.value;
      if z == 0 { return Some(false); }
      if z !in readable { return Some(false); }
      var c := pos % BLOCK_SIZE;
      ghost var ref := DataRef(ino, pos / BLOCK_SIZE);
      DataRefValid(grown, ino, pos / BLOCK_SIZE);
      ZoneInData(grown, ref);
      WrittenFill(fs, grown, ino, pos, data);
      FillWf(grown, ref, c, data);
      FillGrown(grown, ref, c, data);
      blocks[z] := blocks[z][..c] + data + blocks[z][c + |data|..];
      ghost var filled := View();
      assert filled == Fill(grown, z, c, data);
      if pos + |data| > inodes[ino].size {
        inodes[ino] := inodes[ino].(size := pos + |data|);
        SizeOnly(filled, View(), ino);
        WrittenSize(fs, filled, View(), ino, pos, data);
      }
      SizeGrown(filled, View());
      GrownTrans(grown, filled, View());
      GrownTrans(fs, grown, View());
      StaysBacked(grown, View(), ino, pos / BLOCK_SIZE);
      return Some(true);
    }

    /**
      file_write: exactly `n` bytes are stored, at the old end of the file when appending, and every
      block they went to can be read; every other byte of every file is unchanged.  It stops short
      only where the next block cannot be had, and it panics exactly where the largest file ends.
     */
    method FileWrite(ino: nat, fpos: nat, append: bool, buf: seq<nat>)
      returns (n: nat, r: Option<int>, fpos': nat)
      requires Valid() && ino < inodes.Length
      modifies this`readable, bits, blocks, inodes
      ensures Valid() && n <= |buf|
      ensures var start := if append then old(inodes[ino].size) else fpos;
        && Written(old(View()), View(), ino, start, buf[..n])
        && inodes[ino].size == (if n > 0 && start + n > old(inodes[ino].size) then start + n else old(inodes[ino].size))
        && AllBacked(View(), ino, start, n)
        && (r.None? <==> n < |buf| && (start + n) / BLOCK_SIZE >= MAX_BLOCKS)
        && (r.Some? && n < |buf| ==> Stuck(View(), ino, (start + n) / BLOCK_SIZE))
        && fpos' == (if append || r.None? then fpos else start + n)
      ensures r.Some? ==> r.value == if n > 0 then n else -1
    {
      hide Wf, Shape, Written, Stuck, Grown, Backed, AllBacked, IndexReadable;
      ghost var fs := View();
      var start := if append then inodes[ino].size else fpos;
      n, fpos' := 0, fpos;
      NothingWritten(fs, ino, start, buf);
      NothingBacked(fs, ino, start);
      while n < |buf|
        invariant Valid() && 0 <= n <= |buf|
        invariant Written(fs, View(), ino, start, buf[..n]) && AllBacked(View(), ino, start, n)
        invariant inodes[ino].size ==
          if n > 0 && start + n > fs.inodes[ino].size then start + n else fs.inodes[ino].size
      {
        ghost var mid := View();
        var c := BLOCK_SIZE - (start + n) % BLOCK_SIZE;
        if c > |buf| - n { c := |buf| - n; }
        var ok := WriteChunk(ino, start + n, buf[n..n + c]);
        ghost var m := if ok == Some(true) then c else 0;
        assert buf[n..n + 0] == [];
        WrittenMore(fs, mid, View(), ino, start, buf, n, m);
        MoreBacked(mid, View(), ino, start, n, m);
        if ok == None { return n, None, fpos; }
        if !ok.value {
          assert ok == Some(false);
          assert Stuck(View(), ino, (start + n) / BLOCK_SIZE);
          break;
        }
        assert ok == Some(true);
        n := n + c;
      }
      r := Some(if n > 0 then n else -1);
      fpos' := if append then fpos else start + n;
    }

    /**
      file_read: byte for byte the file, except that a block behind an unreadable index block reads
      as a hole; it stops early only in front of an unreadable data block, and it panics exactly
      where the largest file ends.
     */
    method FileRead(ino: nat, fpos: nat, count: int) returns (r: Option<int>, out: seq<nat>, fpos': nat)
      requires Valid() && ino < inodes.Length
      modifies this`readable, bits, blocks, inodes
      ensures View() == old(View()) && fpos' == fpos + |out|
      ensures if count <= 0 then out == [] else |out| <= count
      ensures r.None? <==> |out| < count && (fpos + |out|) / BLOCK_SIZE >= MAX_BLOCKS
      ensures r.Some? ==> r.value == if count <= 0 then 0 else if out == [] then -99 else |out|
      ensures forall k :: 0 <= k < |out| ==> out[k] == Seen(View(), ino, fpos + k)
      ensures r.Some? && |out| < count ==> Unreadable(View(), ino, (fpos + |out|) / BLOCK_SIZE)
    {
      hide Wf, Kept, Full, Seen, Byte, IndexReadable, Zone, DataRef;
      fpos' := fpos;
      out := [];
      if count <= 0 { return Some(0), out, fpos'; }
      var left := count;
      while left > 0
        invariant 0 <= left <= count && |out| == count - left && fpos' == fpos + |out| && View() == old(View())
        invariant forall k :: 0 <= k < |out| ==> out[k] == Seen(View(), ino, fpos + k)
      {
        var block := Bmap(ino, fpos' / BLOCK_SIZE, false);
        if block == None { return None, out, fpos'; }
        var z := block.value;
        if z != 0 && z !in readable { break; }
        var nr := fpos' % BLOCK_SIZE;
        var chars := if BLOCK_SIZE - nr > left then left else BLOCK_SIZE - nr;
        if z != 0 {
          DataRefValid(View(), ino, fpos' / BLOCK_SIZE);
          ZoneInData(View(), DataRef(ino, fpos' / BLOCK_SIZE));
        }
        var piece := if z != 0 then blocks[z][nr..nr + chars] else seq(chars, _ => 0);
        PieceSeen(View(), ino, fpos', chars, z, piece);
        out := out + piece;
        fpos' := fpos' + chars;
        left := left - chars;
      }
      r := Some(if count - left > 0 then count - left else -99);
    }

    /** What file_write reports as written is what file_read gives back, all of it. */
    method WriteThenRead(ino: nat, pos: nat, data: seq<nat>) returns (n: nat, out: seq<nat>)
      requires Valid() && ino < inodes.Length
      modifies this`readable, bits, blocks, inodes
      ensures Valid() && n <= |data| && out == data[..n]
      ensures n < |data| && (pos + n) / BLOCK_SIZE < MAX_BLOCKS ==> Stuck(View(), ino, (pos + n) / BLOCK_SIZE)
    {
      hide Wf, Shape, Stuck, Written, AllBacked, Unreadable, Seen;
      ghost var fs := View();
      var p, w, r;
      n, w, p := FileWrite(ino, pos, false, data);
      r, out, p := FileRead(ino, pos, n);
      ReadBack(fs, View(), ino, pos, data[..n], r, out);
    }

    /** free_block on the zone in slot `r`; that no other buffer user exists is the caller's business. */
    method FreeBlock(ghost fs: Fs, z: nat, ghost r: Ref, ghost done: set<Ref>)
      requires Separate() && Freeing(fs, View(), done) && Freeable(fs, r, z) && r !in done
      modifies bits
      ensures Freeing(fs, View(), done + {r})
    {
      FreeableBit(fs, View(), done, r, z);
      var j := z - (first - 1);
      assert bits[j];
      bits[j] := false;
      FreedOne(fs, old(View()), View(), done, r, z);
    }

    /** free_ind: the zones in the index block `z`, when it can be read, and the block itself. */
    method FreeInd(ghost fs: Fs, z: nat, ghost p: Ref, ghost done: set<Ref>) returns (ghost done': set<Ref>)
      requires Separate() && Freeing(fs, View(), done) && ValidRef(fs, p) && IsIndex(p) && z == Zone(fs, p)
      requires forall r :: r in done ==> r != p && !(r.Sub? && r.parent == p)
      modifies bits
      ensures Freeing(fs, View(), done')
      ensures forall r :: r in done' <==> r in done || (Zone(fs, r) != 0 && (r == p || EntryOf(fs, p, r)))
    {
      hide Freeing, Freeable;
      done' := done;
      if z == 0 { return; }
      IndexBlock(fs, View(), p, done);
      if z in readable {
        var i := 0;
        while i < SHORTS
          invariant i <= SHORTS && Freeing(fs, View(), done')
          invariant forall r :: r in done' <==> r in done || (Zone(fs, r) != 0 && EntryOf(fs, p, r) && r.i < i)
        {
          IndexBlock(fs, View(), p, done');
          var y := Short(blocks[z], i);
          if y != 0 {
            IsFreeable(fs, Sub(p, i));
            FreeBlock(fs, y, Sub(p, i), done');
            done' := done' + {Sub(p, i)};
          }
          NextEntry(fs, p, i);
          i := i + 1;
        }
      }
      IsFreeable(fs, p);
      FreeBlock(fs, z, p, done');
      done' := done' + {p};
    }

    /** free_dind: free_ind on every entry of the double-indirect block, then the block itself. */
    method FreeDind(ghost fs: Fs, z: nat, ghost p: Ref, ghost done: set<Ref>) returns (ghost done': set<Ref>)
      requires Separate() && Freeing(fs, View(), done) && ValidRef(fs, p) && p.Top? && p.i == 8 && z == Zone(fs, p)
      requires forall r :: r in done ==>
        r != p && !(r.Sub? && r.parent == p) && !(r.Sub? && r.parent.Sub? && r.parent.parent == p)
      modifies bits
      ensures Freeing(fs, View(), done')
      ensures forall r :: r in done' <==>
        r in done || (Zone(fs, r) != 0 && (r == p || EntryOf(fs, p, r) || DeepEntryOf(fs, p, r)))
    {
      hide Freeing, Freeable;
      done' := done;
      if z == 0 { return; }
      IndexBlock(fs, View(), p, done);
      if z in readable {
        var i := 0;
        while i < SHORTS
          invariant i <= SHORTS && Freeing(fs, View(), done')
          invariant forall r :: r in done' <==> r in done || (Zone(fs, r) != 0 && Below(fs, p, r, i))
        {
          IndexBlock(fs, View(), p, done');
          var y := Short(blocks[z], i);
          if y != 0 {
            done' := FreeInd(fs, y, Sub(p, i), done');
          }
          NextBelow(fs, p, i);
          i := i + 1;
        }
      }
      IsFreeable(fs, p);
      FreeBlock(fs, z, p, done');
      done' := done' + {p};
    }

    /**
      truncate: the file loses every zone that can be reached from its inode, each once, and no
      other zone is freed.  No "bit already cleared" panic is possible: free_block's demand is met
      at every call.
     */
    method Truncate(ino: nat, regular: bool)
      requires Valid() && ino < inodes.Length
      modifies bits, inodes
      ensures !regular ==> View() == old(View())
      ensures regular ==> Truncated(old(View()), View(), ino)
      ensures regular && AllReached(old(View()), ino) ==> Valid()
      ensures regular && AllReached(old(View()), ino) ==>
        forall n: nat, pos: nat :: n < inodes.Length && pos / BLOCK_SIZE < MAX_BLOCKS ==>
          Byte(View(), n, pos) == if n == ino then 0 else old(Byte(View(), n, pos))
    {
      hide Freeing, Freeable, Wf, Truncated;
      if !regular { return; }
      ghost var fs := View();
      ghost var done: set<Ref> := {};
      NothingFreed(fs);
      var i := 0;
      while i < 7
        invariant i <= 7 && Freeing(fs, View(), done) && inodes[ino].size == fs.inodes[ino].size
        invariant forall r :: r in done <==> Zone(fs, r) != 0 && r.Top? && r.ino == ino && r.i < i
        invariant |inodes[ino].zone| == 9
        invariant forall k :: 0 <= k < 9 ==> inodes[ino].zone[k] == if k < i then 0 else fs.inodes[ino].zone[k]
        invariant forall n :: 0 <= n < inodes.Length && n != ino ==> inodes[n] == fs.inodes[n]
      {
        if inodes[ino].zone[i] != 0 {
          IsFreeable(fs, Top(ino, i));
          FreeBlock(fs, inodes[ino].zone[i], Top(ino, i), done);
          done := done + {Top(ino, i)};
          ghost var mid := View();
          inodes[ino] := inodes[ino].(zone := inodes[ino].zone[i := 0]);
          InodesFree(fs, mid, View(), done);
        }
        i := i + 1;
      }
      done := FreeInd(fs, inodes[ino].zone[7], Top(ino, 7), done);
      done := FreeDind(fs, inodes[ino].zone[8], Top(ino, 8), done);
      ghost var mid := View();
      inodes[ino] := Inode(inodes[ino].zone[7 := 0][8 := 0], 0);
      InodesFree(fs, mid, View(), done);
      TruncateDone(fs, View(), ino, done);
      if AllReached(fs, ino) { TruncateWf(fs, View(), ino); }
    }
  }

  // ---------------------------------------------------------------- writing

  /** `data` stands at `start` of file `ino`, and nothing else has changed. */
  ghost predicate Written(fs: Fs, fs': Fs, ino: nat, start: nat, data: seq<nat>) {
    && |fs'.inodes| == |fs.inodes|
    && (forall n :: 0 <= n < |fs.inodes| && n != ino ==> fs'.inodes[n].size == fs.inodes[n].size)
    && (forall n: nat, pos: nat :: n < |fs.inodes| && pos / BLOCK_SIZE < MAX_BLOCKS ==>
          Byte(fs', n, pos) ==
            if n == ino && start <= pos < start + |data| then data[pos - start] else Byte(fs, n, pos))
  }

  lemma NothingWritten(fs: Fs, ino: nat, start: nat, buf: seq<nat>)
    ensures Written(fs, fs, ino, start, buf[..0])
  {
  }

  lemma KeptSize(fs: Fs, fs': Fs, ino: nat)
    requires Kept(fs, fs') && ino < |fs.inodes|
    ensures ino < |fs'.inodes| && fs'.inodes[ino].size == fs.inodes[ino].size
  {
  }

  lemma WrittenKept(fs: Fs, mid: Fs, fs': Fs, ino: nat, start: nat, data: seq<nat>)
    requires Written(fs, mid, ino, start, data) && Kept(mid, fs')
    ensures Written(fs, fs', ino, start, data)
  {
  }

  lemma WrittenFill(fs: Fs, mid: Fs, ino: nat, pos: nat, data: seq<nat>)
    requires Wf(mid) && ino < |mid.inodes| && Written(fs, mid, ino, pos, [])
    requires pos / BLOCK_SIZE < MAX_BLOCKS && pos % BLOCK_SIZE + |data| <= BLOCK_SIZE
    requires var z := Zone(mid, DataRef(ino, pos / BLOCK_SIZE));
      z != 0 && InData(mid, z) && |mid.blocks[z]| == BLOCK_SIZE
    ensures var z := Zone(mid, DataRef(ino, pos / BLOCK_SIZE));
      Written(fs, Fill(mid, z, pos % BLOCK_SIZE, data), ino, pos, data)
  {
    var b, c := pos / BLOCK_SIZE, pos % BLOCK_SIZE;
    var z := Zone(mid, DataRef(ino, b));
    var fs' := Fill(mid, z, c, data);
    forall m: nat, x: nat | m < |fs.inodes| && x / BLOCK_SIZE < MAX_BLOCKS
      ensures Byte(fs', m, x) == if m == ino && pos <= x < pos + |data| then data[x - pos] else Byte(fs, m, x)
    {
      FillBytes(mid, ino, b, c, data, m, x);
    }
  }

  /** Pieces written one after the other make one write. */
  lemma WrittenMore(fs: Fs, mid: Fs, fs': Fs, ino: nat, start: nat, buf: seq<nat>, i: nat, n: nat)
    requires i + n <= |buf| && Written(fs, mid, ino, start, buf[..i])
    requires Written(mid, fs', ino, start + i, buf[i..i + n])
    ensures Written(fs, fs', ino, start, buf[..i + n])
  {
  }

  lemma SameTree(fs: Fs, fs': Fs, r: Ref)
    requires fs'.blocks == fs.blocks && |fs'.inodes| == |fs.inodes|
    requires forall n :: 0 <= n < |fs.inodes| ==> fs'.inodes[n].zone == fs.inodes[n].zone
    ensures Zone(fs', r) == Zone(fs, r) && (ValidRef(fs', r) <==> ValidRef(fs, r))
  {
  }

  lemma SizeOnly(fs: Fs, fs': Fs, ino: nat)
    requires Wf(fs) && ino < |fs.inodes| && fs' == fs.(inodes := fs'.inodes)
    requires |fs'.inodes| == |fs.inodes| && forall n :: 0 <= n < |fs.inodes| ==> fs'.inodes[n].zone == fs.inodes[n].zone
    ensures Wf(fs')
  {
    forall r
      ensures Zone(fs', r) == Zone(fs, r) && (ValidRef(fs', r) <==> ValidRef(fs, r))
    {
      SameTree(fs, fs', r);
    }
    SameZonesWf(fs, fs');
  }

  lemma WrittenSize(fs: Fs, mid: Fs, fs': Fs, ino: nat, start: nat, data: seq<nat>)
    requires Written(fs, mid, ino, start, data) && ino < |mid.inodes| && fs' == mid.(inodes := fs'.inodes)
    requires |fs'.inodes| == |mid.inodes|
    requires forall n :: 0 <= n < |mid.inodes| ==> fs'.inodes[n].zone == mid.inodes[n].zone
    requires forall n :: 0 <= n < |mid.inodes| && n != ino ==> fs'.inodes[n].size == mid.inodes[n].size
    ensures Written(fs, fs', ino, start, data)
  {
    forall m: nat, pos: nat | m < |fs.inodes| && pos / BLOCK_SIZE < MAX_BLOCKS
      ensures Byte(fs', m, pos) == Byte(mid, m, pos)
    {
      SameTree(mid, fs', DataRef(m, pos / BLOCK_SIZE));
    }
  }

  // ---------------------------------------------------------------- reading

  /** What file_read gives for a byte: zero for a hole, or behind an index block that cannot be read. */
  function Seen(fs: Fs, ino: nat, pos: nat): nat {
    if IndexReadable(fs, ino, pos / BLOCK_SIZE) then Byte(fs, ino, pos) else 0
  }

  lemma PieceSeen(fs: Fs, ino: nat, pos: nat, n: nat, z: nat, piece: seq<nat>)
    requires pos % BLOCK_SIZE + n <= BLOCK_SIZE && |piece| == n
    requires z == if IndexReadable(fs, ino, pos / BLOCK_SIZE) then Zone(fs, DataRef(ino, pos / BLOCK_SIZE)) else 0
    requires z != 0 ==>
      z < |fs.blocks| && |fs.blocks[z]| == BLOCK_SIZE && piece == fs.blocks[z][pos % BLOCK_SIZE..pos % BLOCK_SIZE + n]
    requires z == 0 ==> forall k :: 0 <= k < n ==> piece[k] == 0
    ensures forall k :: 0 <= k < n ==> piece[k] == Seen(fs, ino, pos + k)
  {
    forall k | 0 <= k < n
      ensures piece[k] == Seen(fs, ino, pos + k)
    {
      assert (pos + k) / BLOCK_SIZE == pos / BLOCK_SIZE && (pos + k) % BLOCK_SIZE == pos % BLOCK_SIZE + k;
    }
  }

  lemma AllSet(fs: Fs, n: nat)
    requires n <= |fs.bits| && forall k :: 0 <= k < n ==> fs.bits[k]
    requires n == |fs.bits| || ZoneOfBit(fs, n) >= |fs.blocks|
    ensures Full(fs)
  {
  }

  lemma KeptReadable(fs: Fs, fs': Fs)
    requires Kept(fs, fs')
    ensures fs.readable <= fs'.readable && |fs'.inodes| == |fs.inodes|
  {
  }

  lemma KeptRefl(fs: Fs)
    ensures Kept(fs, fs)
  {
  }

  lemma KeptZone(fs: Fs, fs': Fs, r: Ref)
    requires Kept(fs, fs') && ValidRef(fs, r) && Zone(fs, r) != 0
    ensures Zone(fs', r) == Zone(fs, r)
  {
  }

  /** Every data zone is in use. */
  ghost predicate Full(fs: Fs) {
    forall y: nat :: InData(fs, y) && 0 <= BitOf(fs, y) < |fs.bits| ==> fs.bits[BitOf(fs, y)]
  }

  /** Block `b` of a file cannot be written: an index or data block is unreadable, or the disk is full. */
  ghost predicate Stuck(fs: Fs, ino: nat, b: nat) {
    var z := Zone(fs, DataRef(ino, b));
    !IndexReadable(fs, ino, b) || (if z == 0 then Full(fs) else z !in fs.readable)
  }

  /** Block `b` of a file has its zone, and all the blocks on the way to it can be read. */
  ghost predicate Backed(fs: Fs, ino: nat, b: nat) {
    var z := Zone(fs, DataRef(ino, b));
    b < MAX_BLOCKS && IndexReadable(fs, ino, b) && z != 0 && z in fs.readable
  }

  /** Block `b` holds one of the `n` bytes from `start`. */
  predicate Touches(start: nat, n: nat, b: nat) {
    n > 0 && start < (b + 1) * BLOCK_SIZE && b * BLOCK_SIZE < start + n
  }

  ghost predicate AllBacked(fs: Fs, ino: nat, start: nat, n: nat) {
    forall b: nat :: Touches(start, n, b) ==> Backed(fs, ino, b)
  }

  /** Block `b` of a file has a zone that cannot be read. */
  ghost predicate Unreadable(fs: Fs, ino: nat, b: nat) {
    var z := Zone(fs, DataRef(ino, b));
    z != 0 && z !in fs.readable
  }

  lemma StaysBacked(fs: Fs, fs': Fs, ino: nat, b: nat)
    requires Grown(fs, fs') && ino < |fs.inodes| && Backed(fs, ino, b)
    ensures Backed(fs', ino, b)
  {
    var r := DataRef(ino, b);
    DataRefValid(fs, ino, b);
    assert Zone(fs', r) == Zone(fs, r);
    if b >= DIRECT {
      assert ValidRef(fs, r.parent) && Zone(fs', r.parent) == Zone(fs, r.parent);
      if b >= DIRECT + SHORTS {
        var p := r.parent.parent;
        assert ValidRef(fs, p) && Zone(fs', p) == Zone(fs, p);
      }
    }
  }

  lemma NothingBacked(fs: Fs, ino: nat, start: nat)
    ensures AllBacked(fs, ino, start, 0)
  {
  }

  lemma MoreBacked(fs: Fs, fs': Fs, ino: nat, start: nat, n: nat, m: nat)
    requires Grown(fs, fs') && ino < |fs.inodes| && AllBacked(fs, ino, start, n)
    requires (start + n) % BLOCK_SIZE + m <= BLOCK_SIZE
    requires m > 0 ==> Backed(fs', ino, (start + n) / BLOCK_SIZE)
    ensures AllBacked(fs', ino, start, n + m)
  {
    hide Backed, Grown;
    forall b: nat | Touches(start, n + m, b)
      ensures Backed(fs', ino, b)
    {
      if Touches(start, n, b) {
        StaysBacked(fs, fs', ino, b);
      } else {
        assert b == (start + n) / BLOCK_SIZE;
      }
    }
  }

  /** Blocks that can be read give back what was written to them. */
  lemma ReadBack(fs: Fs, fs': Fs, ino: nat, pos: nat, data: seq<nat>, r: Option<int>, out: seq<nat>)
    requires Written(fs, fs', ino, pos, data) && ino < |fs.inodes| && AllBacked(fs', ino, pos, |data|)
    requires |out| <= |data| && (r.None? ==> |out| == |data| || (pos + |out|) / BLOCK_SIZE >= MAX_BLOCKS)
    requires r.Some? && |out| < |data| ==> Unreadable(fs', ino, (pos + |out|) / BLOCK_SIZE)
    requires forall k :: 0 <= k < |out| ==> out[k] == Seen(fs', ino, pos + k)
    ensures out == data
  {
    hide IndexReadable, Byte;
    assert |out| < |data| ==> Touches(pos, |data|, (pos + |out|) / BLOCK_SIZE);
    forall k | 0 <= k < |out|
      ensures out[k] == data[k]
    {
      assert Touches(pos, |data|, (pos + k) / BLOCK_SIZE);
    }
  }

  lemma FillGrown(fs: Fs, d: Ref, c: nat, data: seq<nat>)
    requires Wf(fs) && ValidRef(fs, d) && !IsIndex(d) && Zone(fs, d) != 0 && InData(fs, Zone(fs, d))
    requires c + |data| <= BLOCK_SIZE
    ensures Grown(fs, Fill(fs, Zone(fs, d), c, data))
  {
    forall r | ValidRef(fs, r) && Zone(fs, r) != 0
      ensures Zone(Fill(fs, Zone(fs, d), c, data), r) == Zone(fs, r)
    {
      FillZone(fs, d, c, data, r);
    }
  }

  lemma SizeGrown(fs: Fs, fs': Fs)
    requires fs' == fs.(inodes := fs'.inodes) && |fs'.inodes| == |fs.inodes|
    requires forall n :: 0 <= n < |fs.inodes| ==> fs'.inodes[n].zone == fs.inodes[n].zone
    ensures Grown(fs, fs')
  {
    forall r
      ensures Zone(fs', r) == Zone(fs, r)
    {
      SameTree(fs, fs', r);
    }
  }

  lemma KeptGrown(fs: Fs, fs': Fs)
    requires Kept(fs, fs')
    ensures Grown(fs, fs')
  {
  }

  /** The index blocks on the way to a file block, as far as they exist, can be read. */
  predicate IndexReadable(fs: Fs, ino: nat, b: nat) {
    if b < DIRECT then true
    else if b < DIRECT + SHORTS then Zone(fs, Top(ino, 7)) in fs.readable + {0}
    else
      && Zone(fs, Top(ino, 8)) in fs.readable + {0}
      && Zone(fs, Sub(Top(ino, 8), (b - DIRECT - SHORTS) / SHORTS)) in fs.readable + {0}
  }

  // ---------------------------------------------------------------- truncating

  /** `r` is a slot of the index block in slot `p`, and that block can be read. */
  ghost predicate EntryOf(fs: Fs, p: Ref, r: Ref) {
    r.Sub? && r.parent == p && r.i < SHORTS && Zone(fs, p) in fs.readable
  }

  ghost predicate Freeable(fs: Fs, r: Ref, z: nat) {
    ValidRef(fs, r) && z == Zone(fs, r) != 0
  }

  lemma IsFreeable(fs: Fs, r: Ref)
    requires ValidRef(fs, r) && Zone(fs, r) != 0
    ensures Freeable(fs, r, Zone(fs, r))
  {
  }

  /** The zones of the slots in `done` have lost their bits, and nothing else in the map has changed. */
  ghost predicate Freeing(fs: Fs, fs': Fs, done: set<Ref>) {
    && Shape(fs) && Wf(fs) && fs'.blocks == fs.blocks && fs'.first == fs.first && fs'.readable == fs.readable
    && |fs'.bits| == |fs.bits| && (forall r :: r in done ==> Freeable(fs, r, Zone(fs, r)))
    && forall j :: 0 <= j < |fs.bits| ==>
         (fs'.bits[j] <==> fs.bits[j] && forall r :: r in done ==> BitOf(fs, Zone(fs, r)) != j)
  }

  lemma FreeableBit(fs: Fs, fs': Fs, done: set<Ref>, r: Ref, z: nat)
    requires Freeing(fs, fs', done) && Freeable(fs, r, z) && r !in done
    ensures InData(fs, z) && 0 <= BitOf(fs, z) < |fs'.bits| && fs'.bits[BitOf(fs, z)]
  {
    forall q | q in done
      ensures BitOf(fs, Zone(fs, q)) != BitOf(fs, z)
    {
      assert Zone(fs, q) != z;
    }
  }

  lemma FreedOne(fs: Fs, mid: Fs, fs': Fs, done: set<Ref>, r: Ref, z: nat)
    requires Freeing(fs, mid, done) && Freeable(fs, r, z) && 0 <= BitOf(fs, z) < |mid.bits|
    requires fs' == mid.(bits := mid.bits[BitOf(fs, z) := false])
    ensures Freeing(fs, fs', done + {r})
  {
  }

  lemma IndexBlock(fs: Fs, fs': Fs, p: Ref, done: set<Ref>)
    requires Freeing(fs, fs', done) && ValidRef(fs, p) && Zone(fs, p) != 0
    ensures fs'.blocks == fs.blocks && fs'.readable == fs.readable && Zone(fs, p) < |fs.blocks|
    ensures forall i: nat :: Zone(fs, Sub(p, i)) == Short(fs.blocks[Zone(fs, p)], i)
  {
    ZoneInData(fs, p);
  }

  lemma NextEntry(fs: Fs, p: Ref, i: nat)
    requires i < SHORTS && Zone(fs, p) in fs.readable
    ensures forall r :: EntryOf(fs, p, r) && r.i < i + 1 <==> (EntryOf(fs, p, r) && r.i < i) || r == Sub(p, i)
  {
  }

  ghost predicate DeepEntryOf(fs: Fs, p: Ref, r: Ref) {
    r.Sub? && EntryOf(fs, p, r.parent) && EntryOf(fs, r.parent, r)
  }

  /** The entries of `p` up to `i`, and theirs. */
  ghost predicate Below(fs: Fs, p: Ref, r: Ref, i: nat) {
    (EntryOf(fs, p, r) && r.i < i) || (DeepEntryOf(fs, p, r) && r.parent.i < i)
  }

  lemma NextBelow(fs: Fs, p: Ref, i: nat)
    requires i < SHORTS && Zone(fs, p) in fs.readable
    ensures forall r :: Below(fs, p, r, i + 1) <==> Below(fs, p, r, i) || r == Sub(p, i) || EntryOf(fs, Sub(p, i), r)
    ensures Zone(fs, Sub(p, i)) == 0 ==> forall r :: EntryOf(fs, Sub(p, i), r) ==> Zone(fs, r) == 0
  {
    forall r: Ref
      ensures Below(fs, p, r, i + 1) <==> Below(fs, p, r, i) || r == Sub(p, i) || EntryOf(fs, Sub(p, i), r)
    {
      if r.Sub? {
        assert r == Sub(r.parent, r.i);
        assert r.parent.Sub? ==> r.parent == Sub(r.parent.parent, r.parent.i);
      }
    }
  }

  lemma NothingFreed(fs: Fs)
    requires Shape(fs) && Wf(fs)
    ensures Freeing(fs, fs, {})
  {
  }

  lemma InodesFree(fs: Fs, mid: Fs, fs': Fs, done: set<Ref>)
    requires Freeing(fs, mid, done) && fs' == mid.(inodes := fs'.inodes)
    ensures Freeing(fs, fs', done)
  {
  }

  /** Every index block above the slot can be read. */
  predicate Reached(fs: Fs, r: Ref) {
    match r
    case Top(_, _) => true
    case Sub(p, _) => Zone(fs, p) in fs.readable && Reached(fs, p)
  }

  ghost predicate AllReached(fs: Fs, ino: nat) {
    forall r :: ValidRef(fs, r) && Owner(r) == ino && Zone(fs, r) != 0 ==> Reached(fs, r)
  }

  ghost predicate FreedZone(fs: Fs, ino: nat, y: int) {
    exists r :: ValidRef(fs, r) && Owner(r) == ino && Zone(fs, r) == y && Zone(fs, r) != 0 && Reached(fs, r)
  }

  /** The whole effect of truncate, bit by bit. */
  ghost predicate Truncated(fs: Fs, fs': Fs, ino: nat) {
    && |fs'.inodes| == |fs.inodes| && ino < |fs.inodes| && fs'.blocks == fs.blocks && fs'.first == fs.first
    && (forall n :: 0 <= n < |fs.inodes| && n != ino ==> fs'.inodes[n] == fs.inodes[n])
    && |fs'.inodes[ino].zone| == 9 && (forall k :: 0 <= k < 9 ==> fs'.inodes[ino].zone[k] == 0)
    && fs'.inodes[ino].size == 0
    && |fs'.bits| == |fs.bits|
    && (forall j :: 0 <= j < |fs.bits| ==> (fs'.bits[j] <==> fs.bits[j] && !FreedZone(fs, ino, ZoneOfBit(fs, j))))
  }

  /** The slots that truncate's loops visit. */
  ghost predicate Freed(fs: Fs, ino: nat, r: Ref) {
    || (r.Top? && r.ino == ino && r.i < 9)
    || EntryOf(fs, Top(ino, 7), r)
    || EntryOf(fs, Top(ino, 8), r)
    || DeepEntryOf(fs, Top(ino, 8), r)
  }

  lemma TruncateDone(fs: Fs, fs': Fs, ino: nat, done: set<Ref>)
    requires Freeing(fs, fs', done) && ino < |fs.inodes|
    requires |fs'.inodes| == |fs.inodes|
    requires forall n :: 0 <= n < |fs.inodes| && n != ino ==> fs'.inodes[n] == fs.inodes[n]
    requires |fs'.inodes[ino].zone| == 9 && (forall k :: 0 <= k < 9 ==> fs'.inodes[ino].zone[k] == 0)
    requires fs'.inodes[ino].size == 0
    requires forall r :: r in done <==> Zone(fs, r) != 0 && Freed(fs, ino, r)
    ensures Truncated(fs, fs', ino)
  {
    forall r
      ensures r in done <==> ValidRef(fs, r) && Owner(r) == ino && Zone(fs, r) != 0 && Reached(fs, r)
    {
      DoneIsReached(fs, ino, r);
    }
    forall j | 0 <= j < |fs.bits|
      ensures fs'.bits[j] <==> fs.bits[j] && !FreedZone(fs, ino, ZoneOfBit(fs, j))
    {
      if r :| r in done && BitOf(fs, Zone(fs, r)) == j {
        assert FreedZone(fs, ino, ZoneOfBit(fs, j));
      }
    }
  }

  lemma DoneIsReached(fs: Fs, ino: nat, r: Ref)
    requires ino < |fs.inodes|
    ensures Zone(fs, r) != 0 ==> (Freed(fs, ino, r) <==> ValidRef(fs, r) && Owner(r) == ino && Reached(fs, r))
  {
    match r
    case Top(_, _) =>
    case Sub(Top(_, _), _) =>
    case Sub(Sub(Top(_, _), _), _) =>
    case Sub(Sub(Sub(_, _), _), _) =>
  }

  lemma TruncatedZone(fs: Fs, fs': Fs, ino: nat, r: Ref)
    requires Truncated(fs, fs', ino)
    ensures Zone(fs', r) == if Owner(r) == ino then 0 else Zone(fs, r)
  {
  }

  /** When every index block could be read, the file system is well formed again. */
  lemma TruncateWf(fs: Fs, fs': Fs, ino: nat)
    requires Shape(fs) && Wf(fs) && Truncated(fs, fs', ino) && AllReached(fs, ino)
    ensures Shape(fs') && Wf(fs')
    ensures forall n: nat, pos: nat :: n < |fs.inodes| && pos / BLOCK_SIZE < MAX_BLOCKS ==>
      Byte(fs', n, pos) == if n == ino then 0 else Byte(fs, n, pos)
  {
    forall r
      ensures ValidRef(fs', r) <==> ValidRef(fs, r)
      ensures Zone(fs', r) == if Owner(r) == ino then 0 else Zone(fs, r)
    {
      SameValid(fs, fs', r);
      TruncatedZone(fs, fs', ino, r);
    }
    TruncateSlots(fs, fs', ino);
    TruncateNoLeak(fs, fs', ino);
    forall n: nat, pos: nat | n < |fs.inodes| && pos / BLOCK_SIZE < MAX_BLOCKS
      ensures Byte(fs', n, pos) == if n == ino then 0 else Byte(fs, n, pos)
    {
      DataOwner(n, pos / BLOCK_SIZE);
    }
  }

  lemma TruncateSlots(fs: Fs, fs': Fs, ino: nat)
    requires Shape(fs) && Wf(fs) && Truncated(fs, fs', ino)
    requires forall r :: ValidRef(fs', r) <==> ValidRef(fs, r)
    requires forall r :: Zone(fs', r) == if Owner(r) == ino then 0 else Zone(fs, r)
    ensures Shape(fs') && SlotsOk(fs') && Injective(fs')
  {
    hide NoLeak;
    assert fs'.bits[0] by {
      forall r | ValidRef(fs, r) && Zone(fs, r) != 0 ensures InData(fs, Zone(fs, r)) { }
    }
    forall r | ValidRef(fs', r) && Zone(fs', r) != 0
      ensures InData(fs', Zone(fs', r)) && 0 <= BitOf(fs', Zone(fs', r)) < |fs'.bits|
      ensures fs'.bits[BitOf(fs', Zone(fs', r))]
    {
      assert Zone(fs, r) == Zone(fs', r);
      assert forall q :: ValidRef(fs, q) && Zone(fs, q) == Zone(fs, r) ==> q == r;
    }
    forall q, r | ValidRef(fs', q) && ValidRef(fs', r) && Zone(fs', q) == Zone(fs', r) != 0
      ensures q == r
    {
      assert Zone(fs, q) == Zone(fs, r);
    }
  }

  /** No zone of the file stays marked, provided every index block was read. */
  lemma TruncateNoLeak(fs: Fs, fs': Fs, ino: nat)
    requires Shape(fs) && Wf(fs) && Truncated(fs, fs', ino)
    requires forall r :: ValidRef(fs', r) <==> ValidRef(fs, r)
    requires forall r :: Zone(fs', r) == if Owner(r) == ino then 0 else Zone(fs, r)
    requires AllReached(fs, ino)
    ensures NoLeak(fs')
  {
    hide SlotsOk, Injective;
    forall y: nat | InData(fs', y) && 0 <= BitOf(fs', y) < |fs'.bits| && fs'.bits[BitOf(fs', y)]
      ensures Owned(fs', y)
    {
      assert Owned(fs, y);
      var q :| ValidRef(fs, q) && Zone(fs, q) == y;
      var j := BitOf(fs, y);
      assert ZoneOfBit(fs, j) == y;
      assert Owner(q) == ino ==> FreedZone(fs, ino, y);
      assert ValidRef(fs', q) && Zone(fs', q) == y;
    }
  }

  /** An index block that cannot be read makes truncate leak: the condition of TruncateWf is exact. */
  lemma TruncateLeaks(fs: Fs, fs': Fs, ino: nat)
    requires Shape(fs) && Wf(fs) && Truncated(fs, fs', ino) && !AllReached(fs, ino)
    ensures !NoLeak(fs')
  {
    hide Wf;
    var r :| ValidRef(fs, r) && Owner(r) == ino && Zone(fs, r) != 0 && !Reached(fs, r);
    StaysMarked(fs, fs', ino, r);
    forall q | ValidRef(fs', q)
      ensures Zone(fs', q) != Zone(fs, r)
    {
      SameValid(fs, fs', q);
      TruncatedZone(fs, fs', ino, q);
      OnlySlot(fs, r, q);
    }
    assert !Owned(fs', Zone(fs, r));
  }

  /** One file, whose only index block cannot be read, and the data block behind that. */
  function LeakyFs(): Fs {
    var block := ZeroBlock();
    Fs(seq(MAP_BITS, k => k < 3), [block, SetShort(block, 0, 2), block], [Inode([0, 0, 0, 0, 0, 0, 0, 1, 0], 0)], 1, {})
  }

  lemma LeakExample()
    ensures Wf(LeakyFs()) && |LeakyFs().bits| == MAP_BITS && Zone(LeakyFs(), DataRef(0, DIRECT)) == 2
    ensures forall fs' :: Truncated(LeakyFs(), fs', 0) ==> !NoLeak(fs')
  {
    hide Wf, Truncated, NoLeak;
    var fs := LeakyFs();
    LeakyWf();
    assert !Reached(fs, Sub(Top(0, 7), 0));
    forall fs' | Truncated(fs, fs', 0)
      ensures !NoLeak(fs')
    {
      TruncateLeaks(fs, fs', 0);
    }
  }

  lemma LeakyWf()
    ensures Shape(LeakyFs()) && Wf(LeakyFs()) && Zone(LeakyFs(), Sub(Top(0, 7), 0)) == 2
  {
    var block := ZeroBlock();
    var fs := Fs(seq(MAP_BITS, k => k == 0), [block, block, block], [Inode(seq(9, _ => 0), 0)], 1, {});
    EmptyWf(fs);
    GrowWf(fs, Top(0, 7), 1);
    var f1 := Grow(fs, Top(0, 7), 1);
    GrowWf(f1, Sub(Top(0, 7), 0), 2);
    var f2 := Grow(f1, Sub(Top(0, 7), 0), 2);
    assert f2.blocks == LeakyFs().blocks && f2.bits == LeakyFs().bits;
    assert f2.inodes[0].zone == LeakyFs().inodes[0].zone;
    forall q
      ensures ValidRef(LeakyFs(), q) <==> ValidRef(f2, q)
      ensures Zone(LeakyFs(), q) == Zone(f2, q)
    {
      SameValid(f2, LeakyFs(), q);
      SameZone(f2, LeakyFs(), q);
    }
    SameZonesWf(f2, LeakyFs());
  }

  lemma OnlySlot(fs: Fs, r: Ref, q: Ref)
    requires Wf(fs) && ValidRef(fs, r) && ValidRef(fs, q) && Zone(fs, r) != 0
    ensures Zone(fs, q) == Zone(fs, r) ==> q == r
  {
  }

  lemma StaysMarked(fs: Fs, fs': Fs, ino: nat, r: Ref)
    requires Shape(fs) && Wf(fs) && Truncated(fs, fs', ino)
    requires ValidRef(fs, r) && Zone(fs, r) != 0 && !Reached(fs, r)
    ensures InData(fs', Zone(fs, r)) && 0 <= BitOf(fs', Zone(fs, r)) < |fs'.bits| && fs'.bits[BitOf(fs', Zone(fs, r))]
  {
    hide NoLeak, Injective;
    var y := Zone(fs, r);
    assert ZoneOfBit(fs, BitOf(fs, y)) == y;
    if FreedZone(fs, ino, y) {
      var q :| ValidRef(fs, q) && Owner(q) == ino && Zone(fs, q) == y && Zone(fs, q) != 0 && Reached(fs, q);
      OnlySlot(fs, r, q);
    }
  }
}
