/** The disk-image tool's file operations, on the disk and the zone bit map in place. */
module MinixTool {
  import opened Frames
  import opened Blocks
  import opened ZoneTree
  import opened ZoneBits

  class Inode {
    var mode: nat
    var uid: nat
    var size: nat
    var time: nat
    var gid: nat
    var nlinks: nat
    var zones: seq<nat>

    constructor Blank()
      ensures mode == uid == size == time == gid == nlinks == 0 && zones == [0, 0, 0, 0, 0, 0, 0, 0, 0]
    {
      mode, uid, size, time, gid, nlinks := 0, 0, 0, 0, 0, 0;
      zones := [0, 0, 0, 0, 0, 0, 0, 0, 0];
    }
  }

  /** Blocks of a file of `size` bytes. */
  function BlocksOf(size: nat): nat {
    size / BLOCK_SIZE + if size % BLOCK_SIZE > 0 then 1 else 0
  }

  /** That many blocks hold the bytes, and no fewer. */
  lemma {:induction false} BlocksOfIsLeast(size: nat, n: nat)
    ensures n * BLOCK_SIZE >= size <==> n >= BlocksOf(size)
  {}

  class MinixFs {
    const zones: BitMap
    const disk: array<Block>
    const nzones: nat
    const first: nat

    /** The tool's globals once superblock and bit map are loaded. */
    constructor (zones: BitMap, disk: array<Block>, nzones: nat, first: nat)
      requires zones.Valid() && nzones <= |zones.bits|
      requires first + nzones <= 0x1_0000 && first + nzones <= disk.Length && (disk as object) != zones.bytes
      ensures Valid()
      ensures this.zones == zones && this.disk == disk && this.nzones == nzones && this.first == first
    {
      this.zones, this.disk, this.nzones, this.first := zones, disk, nzones, first;
    }

    /** Zone numbers fit in 16 bits and name blocks of the disk. */
    ghost predicate Valid()
      reads zones, zones.bytes
    {
      && zones.Valid() && nzones <= |zones.bits|
      && first + nzones <= 0x1_0000 && first + nzones <= disk.Length
      && (disk as object) != zones.bytes
    }

    ghost predicate IsFile(inode: Inode, n: nat)
      reads inode, zones, disk
    {
      FileTree(inode.zones, disk[..], zones.bits, first, nzones, n)
    }

    /** Scans for the lowest clear bit and takes its zone. */
    method TakeZone(ghost base: seq<bool>, ghost zs: seq<nat>) returns (r: Option<nat>)
      requires Valid() && Claiming(base, zones.bits, first, nzones, zs)
      modifies zones, zones.bytes
      ensures Valid() && (r.None? <==> FreeCount(old(zones.bits), nzones) == 0)
      ensures r.None? ==> zones.bits == old(zones.bits)
      ensures r.Some? ==> first <= r.value < first + nzones && Claiming(base, zones.bits, first, nzones, zs + [r.value])
      ensures r.Some? ==> zones.bits == old(zones.bits)[r.value - first := true] && !old(zones.bits)[r.value - first]
      ensures r.Some? ==> forall k :: 0 <= k < r.value - first ==> old(zones.bits)[k]
    {
      hide Claiming, FreeCount;
      var k := 0;
      var taken := true;
      while k < nzones && taken
        invariant k <= nzones && Valid() && zones.bits == old(zones.bits)
        invariant forall j :: 0 <= j < k ==> zones.bits[j]
        invariant !taken ==> k < nzones && !zones.bits[k]
        decreases nzones - k, taken
      {
        taken := zones.Get(k);
        if taken {
          k := k + 1;
        }
      }
      FreeCountZero(zones.bits, nzones);
      if k == nzones {
        return None;
      }
      ClaimNext(base, zones.bits, first, nzones, zs, k);
      zones.Set(k);
      return Some(first + k);
    }

    /** Adds one block to the file and returns its zone; None when the device is full: the
        tool gives up then, and may have stored an index block already. */
    method AddFileBlock(inode: Inode) returns (r: Option<nat>)
      requires Valid() && IsFile(inode, BlocksOf(inode.size)) && BlocksOf(inode.size) < MAX_FILE_BLOCKS
      modifies inode`zones, zones, zones.bytes, disk
      ensures Valid()
      ensures r.Some? <==> FreeCount(old(zones.bits), nzones) >= PartSize(BlocksOf(inode.size))
      ensures r.Some? ==> Added(inode, old(inode.zones), old(disk[..]), old(zones.bits), r.value)
      ensures r.Some? ==> Names(inode.zones, disk[..], BlocksOf(inode.size), r.value)
    {
      ghost var z, d, bits := inode.zones, disk[..], zones.bits;
      var fb := inode.size / BLOCK_SIZE;
      if inode.size % BLOCK_SIZE > 0 {
        fb := fb + 1;
      }
      if fb < DIRECT {
        r := AddDirect(inode, fb);
      } else if fb < DOUBLE {
        r := AddSingle(inode, fb);
      } else {
        r := AddDouble(inode, fb);
      }
      if r.Some? { AddedNames(inode, z, d, bits, r.value); }
    }

    lemma {:induction false} AddedNames(inode: Inode, z: seq<nat>, d: seq<Block>, bits: seq<bool>, x: nat)
      requires Valid() && Added(inode, z, d, bits, x) && FileTree(z, d, bits, first, nzones, BlocksOf(inode.size))
      ensures Names(inode.zones, disk[..], BlocksOf(inode.size), x)
    {
      hide Appended, FreeCount, Names, Lookup;
      var n := BlocksOf(inode.size);
      AppendedKeepsTree(z, d, bits, inode.zones, disk[..], zones.bits, first, nzones, n);
      IndexReadableInFile(inode.zones, disk[..], n + 1, n);
      LookupNames(inode.zones, disk[..], n);
    }

    /** One block was appended to the file, in zone `x`. */
    ghost predicate Added(inode: Inode, z: seq<nat>, d: seq<Block>, bits: seq<bool>, x: nat)
      reads inode, zones, disk
    {
      var n := BlocksOf(inode.size);
      && |z| == 9 && n < MAX_FILE_BLOCKS && nzones <= |bits| && nzones <= |zones.bits|
      && Appended(z, d, bits, inode.zones, disk[..], zones.bits, first, nzones, n)
      && x == Lookup(inode.zones, disk[..], n) && first <= x < first + nzones
      && FreeCount(zones.bits, nzones) == FreeCount(bits, nzones) - PartSize(n)
    }

    method AddDirect(inode: Inode, fb: nat) returns (r: Option<nat>)
      requires Valid() && IsFile(inode, fb) && fb == BlocksOf(inode.size) && fb < DIRECT
      modifies inode`zones, zones, zones.bytes
      ensures Valid()
      ensures r.Some? <==> FreeCount(old(zones.bits), nzones) >= PartSize(fb)
      ensures r.Some? ==> Added(inode, old(inode.zones), disk[..], old(zones.bits), r.value)
    {
      hide FreeCount, Lookup, Level2, Flatten, Parts;
      ghost var base, z := zones.bits, inode.zones;
      ClaimNothing(base, first, nzones);
      r := TakeZone(base, []);
      if r == None {
        return;
      }
      inode.zones := inode.zones[fb := r.value];
      GrowDirect(z, disk[..], fb, r.value);
    }

    /** The index block in slot `slot` of the inode, taken now if `missing`. */
    method TopIndex(inode: Inode, slot: nat, missing: bool, ghost base: seq<bool>)
      returns (r: Option<nat>, ghost zs: seq<nat>)
      requires Valid() && base == zones.bits && |inode.zones| == 9 && slot < 9
      requires !missing ==> inode.zones[slot] < disk.Length
      modifies inode`zones, zones, zones.bytes
      ensures Valid() && (r.None? <==> missing && FreeCount(base, nzones) == 0)
      ensures r.Some? ==> r.value < disk.Length && inode.zones == old(inode.zones)[slot := r.value]
      ensures !missing ==> r == Some(old(inode.zones)[slot])
      ensures r.Some? ==> Claiming(base, zones.bits, first, nzones, zs) && zs == if missing then [r.value] else []
    {
      zs := [];
      ClaimNothing(base, first, nzones);
      if missing {
        r := TakeZone(base, zs);
        if r == None {
          return;
        }
        inode.zones := inode.zones[slot := r.value];
        zs := zs + [r.value];
      } else {
        r := Some(inode.zones[slot]);
      }
    }

    /** Takes a zone and enters it as word `i` of index block `blk`. */
    method EnterNew(blk: nat, i: nat, ghost base: seq<bool>, ghost zs: seq<nat>) returns (r: Option<nat>)
      requires Valid() && Claiming(base, zones.bits, first, nzones, zs) && blk < disk.Length && i < WORDS_PER_BLOCK
      modifies zones, zones.bytes, disk
      ensures Valid() && (r.None? <==> FreeCount(base, nzones) == |zs|)
      ensures r.Some? ==> first <= r.value < first + nzones && r.value < 0x1_0000
      ensures r.Some? ==> Claiming(base, zones.bits, first, nzones, zs + [r.value])
      ensures r.Some? ==> disk[..] == Enter(old(disk[..]), blk, i, r.value)
    {
      var data := disk[blk];
      r := TakeZone(base, zs);
      if r == None {
        return;
      }
      data := SetWord(data, i, r.value);
      disk[blk] := data;
    }

    method AddSingle(inode: Inode, fb: nat) returns (r: Option<nat>)
      requires Valid() && IsFile(inode, fb) && fb == BlocksOf(inode.size) && DIRECT <= fb < DOUBLE
      modifies inode`zones, zones, zones.bytes, disk
      ensures Valid()
      ensures r.Some? <==> FreeCount(old(zones.bits), nzones) >= PartSize(fb)
      ensures r.Some? ==> Added(inode, old(inode.zones), old(disk[..]), old(zones.bits), r.value)
    {
      ghost var base, z, d := zones.bits, inode.zones, disk[..];
      if fb > DIRECT { IndexOwned(z, d, fb, z[7]); }
      var y, zs := TopIndex(inode, 7, fb == DIRECT, base);
      if y == None {
        return None;
      }
      SingleSizes(fb, zs);
      r := EnterNew(y.value, fb - DIRECT, base, zs);
      if r == None {
        return;
      }
      SingleAdded(z, d, base, zones.bits, first, nzones, fb, y.value, r.value, zs);
    }

    method AddDouble(inode: Inode, fb: nat) returns (r: Option<nat>)
      requires Valid() && IsFile(inode, fb) && fb == BlocksOf(inode.size) && DOUBLE <= fb < MAX_FILE_BLOCKS
      modifies inode`zones, zones, zones.bytes, disk
      ensures Valid()
      ensures r.Some? <==> FreeCount(old(zones.bits), nzones) >= PartSize(fb)
      ensures r.Some? ==> Added(inode, old(inode.zones), old(disk[..]), old(zones.bits), r.value)
    {
      ghost var base, z, d := zones.bits, inode.zones, disk[..];
      if fb > DOUBLE { IndexOwned(z, d, fb, z[8]); }
      var y, zs := TopIndex(inode, 8, fb == DOUBLE, base);
      if y == None {
        return None;
      }
      ghost var w, part;
      r, w, part := EnterDoubly(inode, fb, y.value, z, base, zs);
      if r == None {
        return;
      }
      DoubleAdded(z, d, base, zones.bits, first, nzones, fb, y.value, w, r.value, part);
    }

    /** Takes a zone for block `fb` and enters it behind the double-indirect block `y`. */
    method EnterDoubly(inode: Inode, fb: nat, y: nat, ghost z: seq<nat>, ghost base: seq<bool>, ghost zs: seq<nat>)
      returns (r: Option<nat>, ghost w: nat, ghost part: seq<nat>)
      requires Valid() && DOUBLE <= fb < MAX_FILE_BLOCKS && y < disk.Length
      requires FileTree(z, disk[..], base, first, nzones, fb) && (fb > DOUBLE ==> y == z[8])
      requires Claiming(base, zones.bits, first, nzones, zs) && zs == if fb == DOUBLE then [y] else []
      modifies zones, zones.bytes, disk
      ensures Valid()
      ensures r.Some? <==> FreeCount(base, nzones) >= PartSize(fb)
      ensures r.Some? ==>
                && first <= r.value < first + nzones && w < disk.Length && w < 0x1_0000
                && part == DoublePart(fb, y, w, r.value)
                && Claiming(base, zones.bits, first, nzones, part)
                && ((fb - DOUBLE) % WORDS_PER_BLOCK != 0 ==>
                      w == Level2(z, old(disk[..]), (fb - DOUBLE) / WORDS_PER_BLOCK))
                && disk[..] == EnterDouble(old(disk[..]), fb, y, w, r.value)
    {
      DoubleOffsets(fb);
      w, part := 0, [];
      var q := (fb - DIRECT - WORDS_PER_BLOCK) / WORDS_PER_BLOCK;
      var l;
      ghost var ws;
      l, ws := SecondIndex(inode, fb, q, y, z, base, zs);
      if l == None {
        return None, 0, [];
      }
      w := l.value;
      DoublePartIs(fb, y, w, zs, ws);
      r := EnterNew(l.value, (fb - DIRECT - WORDS_PER_BLOCK) % WORDS_PER_BLOCK, base, ws);
      if r.Some? {
        part := ws + [r.value];
      }
    }

    /** The second-level index block `q`, in word `q` of `y`, taken now if none of its blocks exists. */
    method SecondIndex(inode: Inode, fb: nat, q: nat, y: nat, ghost z: seq<nat>, ghost base: seq<bool>,
                       ghost zs: seq<nat>)
      returns (w: Option<nat>, ghost ws: seq<nat>)
      requires Valid() && DOUBLE <= fb < MAX_FILE_BLOCKS && q == (fb - DOUBLE) / WORDS_PER_BLOCK && y < disk.Length
      requires FileTree(z, disk[..], base, first, nzones, fb) && (fb > DOUBLE ==> y == z[8])
      requires Claiming(base, zones.bits, first, nzones, zs)
      modifies zones, zones.bytes, disk
      ensures Valid()
      ensures var missing := (fb - DOUBLE) % WORDS_PER_BLOCK == 0;
              && (w.None? <==> missing && FreeCount(base, nzones) == |zs|)
              && (w.Some? ==>
                    && w.value < disk.Length && w.value < 0x1_0000
                    && ws == zs + (if missing then [w.value] else [])
                    && Claiming(base, zones.bits, first, nzones, ws)
                    && (!missing ==> w.value == Level2(z, old(disk[..]), q))
                    && disk[..] == EnterSecond(old(disk[..]), fb, y, w.value))
    {
      ghost var d := disk[..];
      DoubleOffsets(fb);
      ws := zs;
      if (fb - DIRECT + WORDS_PER_BLOCK) % WORDS_PER_BLOCK == 0 {
        w := EnterNew(y, q, base, zs);
        if w == None {
          return;
        }
        WordOfSetWord(d[y], q, w.value, q);
        ws := zs + [w.value];
      } else {
        Level2InRange(z, d, base, first, nzones, fb);
      }
      w := Some(Word(disk[y], q));
    }

    /** The zone of block `b` of the file; None when the tool rejects the block as past the end, or
        cannot read an index block.  The block that would start exactly at the end of the file
        is not rejected: its zone is whatever the inode or an index block has in that place. */
    method FileBlockToBlock(inode: Inode, b: nat) returns (r: Option<nat>)
      requires Valid() && IsFile(inode, BlocksOf(inode.size)) && b < MAX_FILE_BLOCKS
      ensures b < BlocksOf(inode.size) ==> r == Some(Lookup(inode.zones, disk[..], b))
      ensures b * BLOCK_SIZE == inode.size ==>
                r == if IndexReadable(inode.zones, disk[..], b) then Some(Lookup(inode.zones, disk[..], b)) else None
      ensures b * BLOCK_SIZE > inode.size ==> r == None
      ensures r.Some? ==> Names(inode.zones, disk[..], b, r.value)
    {
      if b * BLOCK_SIZE > inode.size {
        return None;
      }
      ghost var z, d, n := inode.zones, disk[..], BlocksOf(inode.size);
      if b < n { IndexReadableInFile(z, d, n, b); }
      if IndexReadable(z, d, b) { LookupNames(z, d, b); }
      if b < DIRECT {
        return Some(inode.zones[b]);
      } else if b < DIRECT + WORDS_PER_BLOCK {
        if inode.zones[7] >= disk.Length {
          return None;
        }
        var data := disk[inode.zones[7]];
        return Some(Word(data, b - DIRECT));
      } else {
        if inode.zones[8] >= disk.Length {
          return None;
        }
        var data := disk[inode.zones[8]];
        var second := Word(data, (b - DOUBLE) / WORDS_PER_BLOCK);
        if second >= disk.Length {
          return None;
        }
        data := disk[second];
        return Some(Word(data, (b - DOUBLE) % WORDS_PER_BLOCK));
      }
    }

    lemma {:induction false} IndexReadableInFile(z: seq<nat>, d: seq<Block>, n: nat, b: nat)
      requires FileRange(z, n) && d == disk[..] && b < n && first + nzones <= disk.Length
      ensures IndexReadable(z, d, b)
    {
      if DIRECT <= b < DOUBLE {
        IndexOwned(z, d, n, z[7]);
      } else if b >= DOUBLE {
        SecondLevelOwned(z, d, n, b);
      }
    }

    method UnsetZone(x: nat)
      requires Valid() && first <= x < first + nzones
      modifies zones, zones.bytes
      ensures Valid() && zones.bits == Cleared(old(zones.bits), first, [x])
    {
      ClearedOne(zones.bits, first, x - first);
      zones.Unset(x - first);
    }

    /** One round of the truncation loop: the zones block `i` brought in, in its order. */
    method ClearPart(inode: Inode, i: nat, ghost n: nat, b1: Block, b2: Block) returns (blk: Block, blk2: Block)
      requires Valid() && i < n && FileRange(inode.zones, n)
      requires Buffered(inode.zones, disk[..], i, b1, b2)
      modifies zones, zones.bytes
      ensures Valid()
      ensures zones.bits == Cleared(old(zones.bits), first, Part(inode.zones, disk[..], i))
      ensures Buffered(inode.zones, disk[..], i + 1, blk, blk2)
    {
      ghost var z, d, bits := inode.zones, disk[..], zones.bits;
      blk, blk2 := b1, b2;
      PartRange(z, n, i);
      if i < DIRECT {
        UnsetZone(inode.zones[i]);
      } else if i < DOUBLE {
        if i == DIRECT {
          blk := disk[inode.zones[7]];
          UnsetZone(inode.zones[7]);
        }
        UnsetZone(Word(blk, i - DIRECT));
        ClearedMore(bits, first, IndexZones(z, d, i), [Lookup(z, d, i)]);
      } else {
        blk, blk2 := ClearDoublePart(inode, i, n, blk, blk2);
      }
    }

    method ClearDoublePart(inode: Inode, i: nat, ghost n: nat, b1: Block, b2: Block) returns (blk: Block, blk2: Block)
      requires Valid() && DOUBLE <= i < n && FileRange(inode.zones, n)
      requires Buffered(inode.zones, disk[..], i, b1, b2)
      modifies zones, zones.bytes
      ensures Valid()
      ensures zones.bits == Cleared(old(zones.bits), first, Part(inode.zones, disk[..], i))
      ensures Buffered(inode.zones, disk[..], i + 1, blk, blk2)
    {
      ghost var z, d, bits := inode.zones, disk[..], zones.bits;
      ghost var q := (i - DOUBLE) / WORDS_PER_BLOCK;
      blk, blk2 := b1, b2;
      PartRange(z, n, i);
      ghost var a := [];
      assert Cleared(bits, first, a) == bits;
      if i == DOUBLE {
        blk := disk[inode.zones[8]];
        UnsetZone(inode.zones[8]);
        a := [z[8]];
      }
      if (i - DOUBLE) % WORDS_PER_BLOCK == 0 {
        var l := Word(blk, (i - DOUBLE) / WORDS_PER_BLOCK);
        blk2 := disk[l];
        UnsetZone(l);
        ClearedMore(bits, first, a, [l]);
        a := a + [l];
      }
      assert a == IndexZones(z, d, i);
      UnsetZone(Word(blk2, (i - DOUBLE) % WORDS_PER_BLOCK));
      ClearedMore(bits, first, a, [Lookup(z, d, i)]);
      BufferedAfter(z, d, i, blk, blk2);
    }

    /** All zones of the file are in the data area. */
    ghost predicate FileRange(z: seq<nat>, n: nat)
      reads disk
    {
      |z| == 9 && n <= MAX_FILE_BLOCKS && InRange(Owned(z, disk[..], n), first, nzones)
    }

    lemma {:induction false} PartRange(z: seq<nat>, n: nat, i: nat)
      requires FileRange(z, n) && i < n
      ensures first <= Lookup(z, disk[..], i) < first + nzones
      ensures i >= DOUBLE ==> first <= z[8] < first + nzones
      ensures i == DIRECT ==> first <= z[7] < first + nzones
      ensures i >= DOUBLE ==> first <= Level2(z, disk[..], (i - DOUBLE) / WORDS_PER_BLOCK) < first + nzones
    {
      var d := disk[..];
      LookupOwned(z, d, n, i);
      if i >= DOUBLE { SecondLevelOwned(z, d, n, i); }
      if i == DIRECT { IndexOwned(z, d, n, z[7]); }
    }

    /** Clears the bits of all zones of the file, index blocks with the first block they serve. */
    method TruncInode(inode: Inode)
      requires Valid() && IsFile(inode, BlocksOf(inode.size))
      modifies zones, zones.bytes
      ensures Valid()
      ensures zones.bits == Cleared(old(zones.bits), first, Owned(inode.zones, disk[..], BlocksOf(inode.size)))
    {
      var fb := inode.size / BLOCK_SIZE;
      if inode.size % BLOCK_SIZE != 0 {
        fb := fb + 1;
      }
      ClearBlocks(inode, fb);
    }

    /** The truncation loop, over `fb` blocks. */
    method ClearBlocks(inode: Inode, fb: nat)
      requires Valid() && FileRange(inode.zones, fb)
      modifies zones, zones.bytes
      ensures Valid()
      ensures zones.bits == Cleared(old(zones.bits), first, Owned(inode.zones, disk[..], fb))
    {
      ghost var z, d, bits := inode.zones, disk[..], zones.bits;
      var blk, blk2 := At([], 0), At([], 0); // buffers not filled yet
      for i := 0 to fb
        invariant Valid() && disk[..] == d
        invariant zones.bits == Cleared(bits, first, Owned(z, d, i))
        invariant Buffered(z, d, i, blk, blk2)
      {
        TruncStep(bits, first, z, d, i);
        blk, blk2 := ClearPart(inode, i, fb, blk, blk2);
      }
    }
  }

  lemma {:induction false} TruncStep(bits: seq<bool>, first: nat, z: seq<nat>, d: seq<Block>, i: nat)
    requires |z| == 9 && i < MAX_FILE_BLOCKS
    ensures Cleared(Cleared(bits, first, Owned(z, d, i)), first, Part(z, d, i)) ==
            Cleared(bits, first, Owned(z, d, i + 1))
  {
    OwnedStep(z, d, i);
    ClearedMore(bits, first, Owned(z, d, i), Part(z, d, i));
  }

  /** Block `i` of the double-indirect range was just cleared through the two buffers. */
  lemma {:induction false} BufferedAfter(z: seq<nat>, d: seq<Block>, i: nat, blk: Block, blk2: Block)
    requires |z| == 9 && DOUBLE <= i < MAX_FILE_BLOCKS && blk == At(d, z[8])
    requires blk2 == At(d, Level2(z, d, (i - DOUBLE) / WORDS_PER_BLOCK))
    ensures Buffered(z, d, i + 1, blk, blk2)
  {
    assert (i + 1 - DOUBLE) % WORDS_PER_BLOCK != 0 ==>
             (i + 1 - DOUBLE) / WORDS_PER_BLOCK == (i - DOUBLE) / WORDS_PER_BLOCK;
  }

  ghost predicate InRange(zs: seq<nat>, first: nat, nzones: nat) {
    (forall x :: x in zs ==> first <= x < first + nzones) == true
  }

  /** The index blocks the truncation loop holds in its two buffers before block `i`. */
  ghost predicate Buffered(z: seq<nat>, d: seq<Block>, i: nat, blk: Block, blk2: Block) {
    BufferedParts(z, d, i, blk, blk2) == true
  }

  ghost predicate BufferedParts(z: seq<nat>, d: seq<Block>, i: nat, blk: Block, blk2: Block) {
    && |z| == 9
    && (DIRECT < i <= DOUBLE ==> blk == At(d, z[7]))
    && (DOUBLE < i < MAX_FILE_BLOCKS ==> blk == At(d, z[8]))
    && (DOUBLE < i < MAX_FILE_BLOCKS && (i - DOUBLE) % WORDS_PER_BLOCK != 0 ==>
          blk2 == At(d, Level2(z, d, (i - DOUBLE) / WORDS_PER_BLOCK)))
  }

  lemma {:induction false} SecondLevelOwned(z: seq<nat>, d: seq<Block>, n: nat, b: nat)
    requires |z| == 9 && DOUBLE <= b < n <= MAX_FILE_BLOCKS
    ensures z[8] in Owned(z, d, n) && Level2(z, d, (b - DOUBLE) / WORDS_PER_BLOCK) in Owned(z, d, n)
  {
    IndexOwned(z, d, n, z[8]);
    var q := (b - DOUBLE) / WORDS_PER_BLOCK;
    assert DOUBLE + WORDS_PER_BLOCK * q < n;
    IndexOwned(z, d, n, Level2(z, d, q));
  }

  /** The tool's three ways to count from the first double-indirect block agree. */
  lemma {:induction false} DoubleOffsets(fb: nat)
    requires DOUBLE <= fb
    ensures (fb - DIRECT - WORDS_PER_BLOCK) / WORDS_PER_BLOCK == (fb - DOUBLE) / WORDS_PER_BLOCK
    ensures (fb - DIRECT - WORDS_PER_BLOCK) % WORDS_PER_BLOCK == (fb - DOUBLE) % WORDS_PER_BLOCK
    ensures (fb - DIRECT + WORDS_PER_BLOCK) % WORDS_PER_BLOCK == (fb - DOUBLE) % WORDS_PER_BLOCK
  {}

  lemma {:induction false} SingleAdded(z: seq<nat>, d: seq<Block>, base: seq<bool>, bits: seq<bool>, first: nat,
                                       nzones: nat, n: nat, y: nat, x: nat, zs: seq<nat>)
    requires FileTree(z, d, base, first, nzones, n) && DIRECT <= n < DOUBLE
    requires Claiming(base, bits, first, nzones, zs + [x]) && y < |d| && x < 0x1_0000
    requires zs == if n == DIRECT then [y] else []
    requires n > DIRECT ==> y == z[7]
    ensures Appended(z, d, base, z[7 := y], Enter(d, y, n - DIRECT, x), bits, first, nzones, n)
    ensures Part(z[7 := y], Enter(d, y, n - DIRECT, x), n) == zs + [x]
  {
    GrowSingle(z, d, n, y, x);
    if n == DIRECT { assert y in zs + [x]; }
  }

  lemma {:induction false} Level2InRange(z: seq<nat>, d: seq<Block>, bits: seq<bool>, first: nat, nzones: nat, n: nat)
    requires FileTree(z, d, bits, first, nzones, n) && DOUBLE < n < MAX_FILE_BLOCKS
             && (n - DOUBLE) % WORDS_PER_BLOCK != 0
    ensures first <= Level2(z, d, (n - DOUBLE) / WORDS_PER_BLOCK) < first + nzones
  {
    var q := (n - DOUBLE) / WORDS_PER_BLOCK;
    assert n - DOUBLE == WORDS_PER_BLOCK * q + (n - DOUBLE) % WORDS_PER_BLOCK;
    IndexOwned(z, d, n, Level2(z, d, q));
  }

  lemma {:induction false} AppendedFrom(z: seq<nat>, d: seq<Block>, base: seq<bool>, z': seq<nat>, d': seq<Block>,
                                        bits: seq<bool>, first: nat, nzones: nat, n: nat, zs: seq<nat>)
    requires |z| == 9 && |z'| == 9 && |d'| == |d| && n < MAX_FILE_BLOCKS
    requires Part(z', d', n) == zs && Claiming(base, bits, first, nzones, zs)
    requires forall b :: 0 <= b < n ==> Part(z', d', b) == Part(z, d, b)
    requires forall k :: 0 <= k < |d| && d'[k] != d[k] ==> IndexBlock(z', d', n + 1, k)
    requires forall i :: 0 <= i < 9 && z'[i] != z[i] ==> first <= z'[i] < first + nzones
    ensures Appended(z, d, base, z', d', bits, first, nzones, n)
  {}

  function DoublePart(n: nat, y: nat, w: nat, x: nat): seq<nat>
    requires DOUBLE <= n
  {
    if n == DOUBLE then [y, w, x] else if (n - DOUBLE) % WORDS_PER_BLOCK == 0 then [w, x] else [x]
  }

  lemma {:induction false} SingleSizes(n: nat, zs: seq<nat>)
    requires DIRECT <= n < DOUBLE && |zs| == if n == DIRECT then 1 else 0
    ensures |zs| + 1 == PartSize(n)
  {}

  lemma {:induction false} DoublePartIs(n: nat, y: nat, w: nat, zs: seq<nat>, ws: seq<nat>)
    requires DOUBLE <= n && zs == (if n == DOUBLE then [y] else [])
    requires ws == zs + if (n - DOUBLE) % WORDS_PER_BLOCK == 0 then [w] else []
    ensures forall x :: ws + [x] == DoublePart(n, y, w, x)
    ensures |ws| + 1 == PartSize(n)
  {}

  /** The writes of a double-indirect append, taken together, append one block. */
  lemma {:induction false} DoubleAdded(z: seq<nat>, d: seq<Block>, base: seq<bool>, bits: seq<bool>, first: nat,
                                       nzones: nat, n: nat, y: nat, w: nat, x: nat, zs: seq<nat>)
    requires FileTree(z, d, base, first, nzones, n) && DOUBLE <= n < MAX_FILE_BLOCKS && first + nzones <= 0x1_0000
    requires Claiming(base, bits, first, nzones, zs) && y < |d| && w < |d|
    requires zs == DoublePart(n, y, w, x)
    requires n > DOUBLE ==> y == z[8]
    requires (n - DOUBLE) % WORDS_PER_BLOCK != 0 ==> w == Level2(z, d, (n - DOUBLE) / WORDS_PER_BLOCK)
    requires w < 0x1_0000 && x < 0x1_0000
    ensures Appended(z, d, base, z[8 := y], EnterDouble(d, n, y, w, x), bits, first, nzones, n)
    ensures Part(z[8 := y], EnterDouble(d, n, y, w, x), n) == zs
    ensures Lookup(z[8 := y], EnterDouble(d, n, y, w, x), n) == x
  {
    DoubleFresh(z, d, base, bits, first, nzones, n, y, w, x, zs);
    GrowDouble(z, d, n, y, w, x);
    DoubleWritesIndex(z, d, n, y, w, x);
    AppendedFrom(z, d, base, z[8 := y], EnterDouble(d, n, y, w, x), bits, first, nzones, n, zs);
  }

  lemma {:induction false} DoubleWritesIndex(z: seq<nat>, d: seq<Block>, n: nat, y: nat, w: nat, x: nat)
    requires |z| == 9 && DOUBLE <= n < MAX_FILE_BLOCKS && Distinct(Owned(z, d, n))
    requires y < |d| && w < |d| && x < 0x1_0000 && w < 0x1_0000
    requires if n == DOUBLE then y !in Owned(z, d, n) && y != w else y == z[8]
    requires if (n - DOUBLE) % WORDS_PER_BLOCK == 0 then w !in Owned(z, d, n)
             else w == Level2(z, d, (n - DOUBLE) / WORDS_PER_BLOCK)
    ensures Lookup(z[8 := y], EnterDouble(d, n, y, w, x), n) == x
    ensures forall k :: 0 <= k < |d| && EnterDouble(d, n, y, w, x)[k] != d[k] ==>
              IndexBlock(z[8 := y], EnterDouble(d, n, y, w, x), n + 1, k)
  {
    DoubleEntries(z, d, n, y, w, x);
    var q := (n - DOUBLE) / WORDS_PER_BLOCK;
    assert DOUBLE + WORDS_PER_BLOCK * q < n + 1;
    var z', d' := z[8 := y], EnterDouble(d, n, y, w, x);
    assert IndexBlock(z', d', n + 1, w) && IndexBlock(z', d', n + 1, y);
  }

  lemma {:induction false} DoubleFresh(z: seq<nat>, d: seq<Block>, base: seq<bool>, bits: seq<bool>, first: nat,
                                       nzones: nat, n: nat, y: nat, w: nat, x: nat, zs: seq<nat>)
    requires FileTree(z, d, base, first, nzones, n) && DOUBLE <= n < MAX_FILE_BLOCKS
    requires Claiming(base, bits, first, nzones, zs)
    requires zs == DoublePart(n, y, w, x)
    ensures n == DOUBLE ==> y !in Owned(z, d, n) && y != w && first <= y < first + nzones
    ensures (n - DOUBLE) % WORDS_PER_BLOCK == 0 ==> w !in Owned(z, d, n)
  {
    ClaimedNotOwned(base, first, nzones, zs, Owned(z, d, n));
    if n == DOUBLE {
      assert y in zs;
      DistinctPositions(zs, 0, 1);
    } else if (n - DOUBLE) % WORDS_PER_BLOCK == 0 {
      assert w in zs;
    }
  }
}
