/** Writing the kernel into the image: the free-space check, the copy loop, and removal. */
module MinixWrite {
  import opened Frames
  import opened Blocks
  import opened ZoneTree
  import opened ZoneBits
  import opened MinixTool
  import opened InodeTable

  // ---------------------------------------------------------------- how much room a file needs

  /** C division, which truncates toward zero. */
  function TruncDiv(a: int, b: nat): int
    requires b > 0
  {
    if a >= 0 then a / b else -((-a) / b)
  }

  /** Rounds of the copy loop for an image of `size` bytes: one even for an empty image. */
  function CopyRounds(size: nat): nat {
    TruncDiv(size - 1, BLOCK_SIZE) + 1
  }

  /** The tool's estimate of the zones an image of `size` bytes takes. */
  function Estimate(size: nat): nat {
    var kerb := CopyRounds(size);
    if DIRECT <= kerb < DIRECT + WORDS_PER_BLOCK then kerb + 1
    else if kerb >= WORDS_PER_BLOCK + DIRECT then
      kerb + 2 + (TruncDiv(kerb - DIRECT - WORDS_PER_BLOCK - 1, WORDS_PER_BLOCK) + 1)
    else kerb
  }

  /** Zones of a file of `n` blocks, index blocks included. */
  function ZonesNeeded(n: nat): nat {
    if n == 0 then 0 else ZonesNeeded(n - 1) + PartSize(n - 1)
  }

  lemma {:induction false} NeededIsOwned(z: seq<nat>, d: seq<Block>, n: nat)
    requires |z| == 9 && n <= MAX_FILE_BLOCKS
    ensures |Owned(z, d, n)| == ZonesNeeded(n)
  {
    if n > 0 {
      NeededIsOwned(z, d, n - 1);
      OwnedStep(z, d, n - 1);
    }
  }

  lemma {:induction false} NeededInClosedForm(n: nat)
    ensures ZonesNeeded(n) ==
            n + (if n > DIRECT then 1 else 0) + (if n > DOUBLE then 1 + (n - DOUBLE + 511) / WORDS_PER_BLOCK else 0)
  {
    if n > 0 {
      NeededInClosedForm(n - 1);
    }
  }

  /** The estimate is never too small, and exact except for files of 7 and of 519 blocks. */
  lemma {:induction false} EstimateCovers(size: nat)
    ensures Estimate(size) >= ZonesNeeded(CopyRounds(size))
    ensures Estimate(size) == ZonesNeeded(CopyRounds(size)) <==>
              CopyRounds(size) != DIRECT && CopyRounds(size) != DOUBLE
  {
    NeededInClosedForm(CopyRounds(size));
  }

  /** Counts free zones and stops as soon as there are enough. */
  method SpaceCheck(fs: MinixFs, size: nat) returns (ok: bool)
    requires fs.Valid()
    ensures ok <==> FreeCount(fs.zones.bits, fs.nzones) >= Estimate(size)
  {
    var kerb := Estimate(size);
    assert kerb >= 1;
    var count, i := 0, 0;
    while i < fs.nzones
      invariant i <= fs.nzones && count == FreeCount(fs.zones.bits, i) && count < kerb
    {
      var used := fs.zones.Get(i);
      count := count + if used then 0 else 1;
      i := i + 1;
      if count == kerb {
        FreeCountGrows(fs.zones.bits, i, fs.nzones);
        return true;
      }
    }
    ok := count >= kerb;
  }

  lemma {:induction false} FreeCountGrows(bits: seq<bool>, m: nat, n: nat)
    requires m <= n <= |bits|
    ensures FreeCount(bits, m) <= FreeCount(bits, n)
  {
    if m < n {
      FreeCountGrows(bits, m, n - 1);
    }
  }

  // ---------------------------------------------------------------- the copy loop

  /** Block `k` of the image, filled up with zeros. */
  function Chunk(image: seq<byte>, k: nat): (b: Block)
    ensures forall i :: 0 <= i < BLOCK_SIZE ==>
              b[i] == if k * BLOCK_SIZE + i < |image| then image[k * BLOCK_SIZE + i] else 0
  {
    seq<byte>(BLOCK_SIZE, i requires 0 <= i => if k * BLOCK_SIZE + i < |image| then image[k * BLOCK_SIZE + i] else 0)
  }

  function Min(a: nat, b: nat): nat {
    if a < b then a else b
  }

  /** A file of `k` blocks has been built from zones that were clear in `base`. */
  ghost predicate Built(z: seq<nat>, d: seq<Block>, bits: seq<bool>, base: seq<bool>, first: nat, nzones: nat, k: nat) {
    && FileTree(z, d, bits, first, nzones, k)
    && AllBits(base, first, nzones, Owned(z, d, k), false)
    && bits == Claimed(base, first, Owned(z, d, k))
    && FreeCount(bits, nzones) + ZonesNeeded(k) == FreeCount(base, nzones)
  }

  /** The first `k` blocks of the file hold the image. */
  ghost predicate Holds(z: seq<nat>, d: seq<Block>, image: seq<byte>, k: nat) {
    |z| == 9 && k <= MAX_FILE_BLOCKS && forall b :: 0 <= b < k ==> At(d, Lookup(z, d, b)) == Chunk(image, b)
  }

  lemma {:induction false} AppendedIsBuilt(z: seq<nat>, d: seq<Block>, bits: seq<bool>, z': seq<nat>, d': seq<Block>,
                                           bits': seq<bool>, base: seq<bool>, first: nat, nzones: nat, k: nat)
    requires Built(z, d, bits, base, first, nzones, k) && k < MAX_FILE_BLOCKS
    requires Appended(z, d, bits, z', d', bits', first, nzones, k)
    requires FreeCount(bits', nzones) == FreeCount(bits, nzones) - PartSize(k)
    ensures Built(z', d', bits', base, first, nzones, k + 1)
  {
    AppendedKeepsTree(z, d, bits, z', d', bits', first, nzones, k);
    ClaimedMore(base, first, Owned(z, d, k), Part(z', d', k));
  }

  lemma {:induction false} AppendedHolds(z: seq<nat>, d: seq<Block>, bits: seq<bool>, z': seq<nat>, d': seq<Block>,
                                         bits': seq<bool>, first: nat, nzones: nat, image: seq<byte>, k: nat)
    requires FileTree(z, d, bits, first, nzones, k) && k < MAX_FILE_BLOCKS && Holds(z, d, image, k)
    requires Appended(z, d, bits, z', d', bits', first, nzones, k)
    ensures Holds(z', d', image, k)
  {
    AppendedKeepsTree(z, d, bits, z', d', bits', first, nzones, k);
    forall b | 0 <= b < k
      ensures At(d', Lookup(z', d', b)) == Chunk(image, b)
    {
      AppendedKeepsData(z, d, bits, z', d', bits', first, nzones, k, b);
    }
  }

  /** Storing the new block's contents in its zone. */
  lemma {:induction false} StoredHolds(z: seq<nat>, d: seq<Block>, bits: seq<bool>, base: seq<bool>, first: nat,
                                       nzones: nat, image: seq<byte>, k: nat, x: nat)
    requires k < MAX_FILE_BLOCKS && Built(z, d, bits, base, first, nzones, k + 1) && Holds(z, d, image, k)
    requires x == Lookup(z, d, k) && x < |d|
    ensures Built(z, d[x := Chunk(image, k)], bits, base, first, nzones, k + 1)
    ensures Holds(z, d[x := Chunk(image, k)], image, k + 1)
  {
    if IndexBlock(z, d, k + 1, x) {
      DataNotIndex(z, d, k + 1, k, x);
    }
    WriteKeepsParts(z, d, k + 1, x, Chunk(image, k));
    forall b | 0 <= b < k
      ensures Lookup(z, d, b) != x
    {
      LookupsDistinct(z, d, k + 1, b, k);
    }
    StoredLooksUp(z, d, d[x := Chunk(image, k)], image, k, x);
  }

  lemma {:induction false} StoredLooksUp(z: seq<nat>, d: seq<Block>, d': seq<Block>, image: seq<byte>, k: nat, x: nat)
    requires k < MAX_FILE_BLOCKS && Holds(z, d, image, k) && x == Lookup(z, d, k) && x < |d|
             && d' == d[x := Chunk(image, k)]
    requires forall b :: 0 <= b < k + 1 ==> Lookup(z, d', b) == Lookup(z, d, b)
    requires forall b :: 0 <= b < k ==> Lookup(z, d, b) != x
    ensures Holds(z, d', image, k + 1)
  {
    forall b | 0 <= b < k + 1
      ensures At(d', Lookup(z, d', b)) == Chunk(image, b)
    {
      assert Lookup(z, d', b) == Lookup(z, d, b);
    }
  }

  /** Saving the inode, in a block below the data area, leaves the stored blocks alone. */
  lemma {:induction false} OutsideWriteHolds(z: seq<nat>, d: seq<Block>, bits: seq<bool>, base: seq<bool>, first: nat,
                                             nzones: nat, image: seq<byte>, k: nat, t: nat, data: Block)
    requires Built(z, d, bits, base, first, nzones, k) && Holds(z, d, image, k) && t < first && t < |d|
    ensures Built(z, d[t := data], bits, base, first, nzones, k) && Holds(z, d[t := data], image, k)
  {
    if IndexBlock(z, d, k, t) {
      IndexOwned(z, d, k, t);
    }
    WriteKeepsParts(z, d, k, t, data);
    forall b | 0 <= b < k
      ensures Lookup(z, d, b) != t
    {
      LookupOwned(z, d, k, b);
    }
  }

  function ValueOf(inode: Inode): InodeValue
    reads inode
  {
    InodeValue(inode.mode, inode.uid, inode.size, inode.time, inode.gid, inode.nlinks, inode.zones)
  }

  /** Blocks the copy may not touch: those below the data area other than `t`, and those
      whose zone was taken before. */
  ghost predicate Foreign(base: seq<bool>, first: nat, nzones: nat, t: nat, k: nat) {
    (k < first && k != t) || (first <= k < first + nzones <= first + |base| && base[k - first])
  }

  /** The disks agree on the blocks the copy may not touch. */
  ghost predicate ForeignKept(d: seq<Block>, d': seq<Block>, base: seq<bool>, first: nat, nzones: nat, t: nat) {
    (|d| == |d'| && forall x :: 0 <= x < |d| && Foreign(base, first, nzones, t, x) ==> d'[x] == d[x]) == true
  }

  lemma {:induction false} AppendedKeepsForeign(z: seq<nat>, d: seq<Block>, bits: seq<bool>, z': seq<nat>,
                                                d': seq<Block>, bits': seq<bool>, base: seq<bool>, first: nat,
                                                nzones: nat, k: nat, t: nat, data: Block)
    requires Built(z', d', bits', base, first, nzones, k + 1) && k < MAX_FILE_BLOCKS
    requires |z| == 9 && Appended(z, d, bits, z', d', bits', first, nzones, k)
    requires nzones <= |base|
    ensures Lookup(z', d', k) < |d'| && ForeignKept(d, d'[Lookup(z', d', k) := data], base, first, nzones, t)
  {
    LookupOwned(z', d', k + 1, k);
    forall x | 0 <= x < |d| && Foreign(base, first, nzones, t, x)
      ensures d'[x] == d[x] && x != Lookup(z', d', k)
    {
      if IndexBlock(z', d', k + 1, x) {
        IndexOwned(z', d', k + 1, x);
      }
    }
  }

  /** Adds a block to the file and stores block `k` of the image in it. */
  method StoreBlock(fs: MinixFs, inode: Inode, image: seq<byte>, k: nat, ghost base: seq<bool>, ghost t: nat)
    returns (ok: bool)
    requires fs.Valid() && fs.nzones <= |base|
    requires k < MAX_FILE_BLOCKS && k * BLOCK_SIZE <= |image| && inode.size == k * BLOCK_SIZE
    requires Built(inode.zones, fs.disk[..], fs.zones.bits, base, fs.first, fs.nzones, k)
    requires Holds(inode.zones, fs.disk[..], image, k)
    modifies inode`zones, fs.zones, fs.zones.bytes, fs.disk
    ensures fs.Valid()
    ensures ok <==> FreeCount(base, fs.nzones) >= ZonesNeeded(k + 1)
    ensures ok ==> Built(inode.zones, fs.disk[..], fs.zones.bits, base, fs.first, fs.nzones, k + 1)
    ensures ok ==> Holds(inode.zones, fs.disk[..], image, k + 1)
    ensures ok ==> |inode.zones| == 9 && forall j :: 0 <= j < 9 ==>
              inode.zones[j] == old(inode.zones)[j] || inode.zones[j] < 0x1_0000
    ensures ok ==> ForeignKept(old(fs.disk[..]), fs.disk[..], base, fs.first, fs.nzones, t)
  {
    ghost var z, d, bits := inode.zones, fs.disk[..], fs.zones.bits;
    var data := Chunk(image, k);
    assert BlocksOf(inode.size) == k;
    var r := fs.AddFileBlock(inode);
    if r == None {
      return false;
    }
    ghost var z', d', bits' := inode.zones, fs.disk[..], fs.zones.bits;
    AppendedIsBuilt(z, d, bits, z', d', bits', base, fs.first, fs.nzones, k);
    AppendedHolds(z, d, bits, z', d', bits', fs.first, fs.nzones, image, k);
    AppendedKeepsForeign(z, d, bits, z', d', bits', base, fs.first, fs.nzones, k, t, data);
    StoredHolds(z', d', bits', base, fs.first, fs.nzones, image, k, r.value);
    fs.disk[r.value] := data;
    assert fs.disk[..] == d'[r.value := data];
    ok := true;
  }

  /** One round of the copy loop: a block is added, filled, and the inode saved. */
  method CopyBlock(fs: MinixFs, table: nat, i: nat, inode: Inode, image: seq<byte>, k: nat, ghost base: seq<bool>)
    returns (ok: bool)
    requires fs.Valid() && fs.nzones <= |base| && i >= 1 && TableBlock(table, i) < fs.first && Storable(ValueOf(inode))
    requires k < MAX_FILE_BLOCKS && k * BLOCK_SIZE <= |image| && inode.size == k * BLOCK_SIZE
    requires Built(inode.zones, fs.disk[..], fs.zones.bits, base, fs.first, fs.nzones, k)
    requires Holds(inode.zones, fs.disk[..], image, k)
    modifies inode`zones, inode`size, fs.zones, fs.zones.bytes, fs.disk
    ensures fs.Valid()
    ensures ok <==> FreeCount(base, fs.nzones) >= ZonesNeeded(k + 1)
    ensures ok ==> inode.size == Min((k + 1) * BLOCK_SIZE, |image|) && Storable(ValueOf(inode))
    ensures ok ==> Built(inode.zones, fs.disk[..], fs.zones.bits, base, fs.first, fs.nzones, k + 1)
    ensures ok ==> Holds(inode.zones, fs.disk[..], image, k + 1)
    ensures ok ==> InodeAt(fs.disk[..], table, i) == ValueOf(inode)
    ensures ok ==> ForeignKept(old(fs.disk[..]), fs.disk[..], base, fs.first, fs.nzones, TableBlock(table, i))
  {
    var br := Min(BLOCK_SIZE, |image| - k * BLOCK_SIZE);
    var t := TableBlock(table, i);
    ok := StoreBlock(fs, inode, image, k, base, t);
    if !ok {
      return;
    }
    RoundSize(|image|, k);
    inode.size := inode.size + br;
    ghost var d := fs.disk[..];
    SaveRound(fs, table, i, inode, image, k + 1, base);
    ForeignKeptTwice(old(fs.disk[..]), d, fs.disk[..], base, fs.first, fs.nzones, t);
  }

  /** The inode is saved after every round. */
  method SaveRound(fs: MinixFs, table: nat, i: nat, inode: Inode, ghost image: seq<byte>, ghost k: nat,
                   ghost base: seq<bool>)
    requires fs.Valid() && i >= 1 && TableBlock(table, i) < fs.first && Storable(ValueOf(inode))
    requires Built(inode.zones, fs.disk[..], fs.zones.bits, base, fs.first, fs.nzones, k)
    requires Holds(inode.zones, fs.disk[..], image, k)
    modifies fs.disk
    ensures Built(inode.zones, fs.disk[..], fs.zones.bits, base, fs.first, fs.nzones, k)
    ensures Holds(inode.zones, fs.disk[..], image, k)
    ensures InodeAt(fs.disk[..], table, i) == ValueOf(inode)
    ensures ForeignKept(old(fs.disk[..]), fs.disk[..], base, fs.first, fs.nzones, TableBlock(table, i))
  {
    ghost var d := fs.disk[..];
    SaveInode(fs, table, i, ValueOf(inode));
    SavedRound(inode.zones, d, fs.zones.bits, base, fs.first, fs.nzones, image, k, table, i, ValueOf(inode));
  }

  lemma {:induction false} ForeignKeptTwice(d: seq<Block>, d1: seq<Block>, d2: seq<Block>, base: seq<bool>, first: nat,
                                            nzones: nat, t: nat)
    requires ForeignKept(d, d1, base, first, nzones, t) && ForeignKept(d1, d2, base, first, nzones, t)
    ensures ForeignKept(d, d2, base, first, nzones, t)
  {}

  lemma {:induction false} RoundSize(size: nat, k: nat)
    requires k * BLOCK_SIZE <= size && k < MAX_FILE_BLOCKS
    ensures k * BLOCK_SIZE + Min(BLOCK_SIZE, size - k * BLOCK_SIZE) == Min((k + 1) * BLOCK_SIZE, size) < 0x1_0000_0000
  {}

  /** Saving the inode touches no block of the file, and none but its own of the table. */
  lemma {:induction false} SavedRound(z: seq<nat>, d: seq<Block>, bits: seq<bool>, base: seq<bool>, first: nat,
                                      nzones: nat, image: seq<byte>, k: nat, table: nat, i: nat, v: InodeValue)
    requires Built(z, d, bits, base, first, nzones, k) && Holds(z, d, image, k) && i >= 1 && Storable(v)
    requires TableBlock(table, i) < first && TableBlock(table, i) < |d|
    ensures var d' := Stored(d, table, i, v);
            && Built(z, d', bits, base, first, nzones, k) && Holds(z, d', image, k) && InodeAt(d', table, i) == v
            && ForeignKept(d, d', base, first, nzones, TableBlock(table, i))
  {
    var t := TableBlock(table, i);
    StoredIsLoaded(d, table, i, v, i);
    OutsideWriteHolds(z, d, bits, base, first, nzones, image, k, t, Stored(d, table, i, v)[t]);
    assert Stored(d, table, i, v) == d[t := Stored(d, table, i, v)[t]];
  }

  lemma {:induction false} RoundsAreBlocks(size: nat)
    ensures size > 0 ==> CopyRounds(size) == BlocksOf(size)
    ensures size == 0 ==> CopyRounds(size) == 1
    ensures Min(CopyRounds(size) * BLOCK_SIZE, size) == size
  {}

  lemma {:induction false} RoundFits(size: nat, k: nat)
    requires k < CopyRounds(size)
    ensures k * BLOCK_SIZE <= size && Min(k * BLOCK_SIZE, size) == k * BLOCK_SIZE
  {}

  /** Copies the image block by block; fails exactly when its zones, index blocks included,
      are more than the free ones. */
  method CopyImage(fs: MinixFs, table: nat, i: nat, inode: Inode, image: seq<byte>) returns (ok: bool)
    requires fs.Valid() && i >= 1 && TableBlock(table, i) < fs.first && Storable(ValueOf(inode)) && inode.size == 0
    requires CopyRounds(|image|) <= MAX_FILE_BLOCKS
    modifies inode`zones, inode`size, fs.zones, fs.zones.bytes, fs.disk
    ensures fs.Valid()
    ensures ok <==> FreeCount(old(fs.zones.bits), fs.nzones) >= ZonesNeeded(CopyRounds(|image|))
    ensures ok ==> Built(inode.zones, fs.disk[..], fs.zones.bits, old(fs.zones.bits), fs.first, fs.nzones,
                         CopyRounds(|image|))
    ensures ok ==> Holds(inode.zones, fs.disk[..], image, CopyRounds(|image|)) && inode.size == |image|
    ensures ok ==> InodeAt(fs.disk[..], table, i) == ValueOf(inode)
    ensures ok ==> ForeignKept(old(fs.disk[..]), fs.disk[..], old(fs.zones.bits), fs.first, fs.nzones,
                               TableBlock(table, i))
  {
    hide Lookup, Estimate;
    ghost var base, d := fs.zones.bits, fs.disk[..];
    var rounds := CopyRounds(|image|);
    RoundsAreBlocks(|image|);
    EmptyIsBuilt(inode.zones, d, base, fs.first, fs.nzones);
    ok := true;
    var k := 0;
    while k < rounds
      invariant k <= rounds && ok
      invariant fs.Valid() && Storable(ValueOf(inode)) && inode.size == Min(k * BLOCK_SIZE, |image|)
      invariant Built(inode.zones, fs.disk[..], fs.zones.bits, base, fs.first, fs.nzones, k)
      invariant Holds(inode.zones, fs.disk[..], image, k)
      invariant k > 0 ==> InodeAt(fs.disk[..], table, i) == ValueOf(inode)
      invariant ForeignKept(d, fs.disk[..], base, fs.first, fs.nzones, TableBlock(table, i))
    {
      RoundFits(|image|, k);
      NeededGrows(k + 1, rounds);
      ok := CopyBlock(fs, table, i, inode, image, k, base);
      if !ok {
        return;
      }
      k := k + 1;
    }
  }

  lemma {:induction false} NeededGrows(m: nat, n: nat)
    requires m <= n
    ensures ZonesNeeded(m) <= ZonesNeeded(n)
  {
    if m < n {
      NeededGrows(m, n - 1);
    }
  }

  lemma {:induction false} EmptyIsBuilt(z: seq<nat>, d: seq<Block>, bits: seq<bool>, first: nat, nzones: nat)
    requires |z| == 9 && nzones <= |bits| && first + nzones <= |d|
    ensures Built(z, d, bits, bits, first, nzones, 0)
  {}

  // S_IFREG | S_IRUSR | S_IWUSR
  const KERNEL_MODE: nat := 0x8180

  /** A regular file that its owner, user 0, may read and write, of one link, that size and time. */
  ghost predicate KernelInode(v: InodeValue, time: nat, size: nat) {
    && v.mode / 0x1000 == 8 && v.mode % 0x1000 == 0x100 + 0x80
    && v.uid == 0 && v.gid == 0 && v.nlinks == 1 && v.time == time && v.size == size
  }

  /** Stores a kernel image under inode `i`.  Once the space check has passed, the copy
      never runs out of zones. */
  method WriteKernel(fs: MinixFs, table: nat, i: nat, time: nat, image: seq<byte>) returns (ok: bool, inode: Inode)
    requires fs.Valid() && i >= 1 && TableBlock(table, i) < fs.first && time < 0x1_0000_0000
    requires CopyRounds(|image|) <= MAX_FILE_BLOCKS
    modifies fs.zones, fs.zones.bytes, fs.disk
    ensures fs.Valid() && fresh(inode)
    ensures ok <==> FreeCount(old(fs.zones.bits), fs.nzones) >= Estimate(|image|)
    ensures ok ==> Built(inode.zones, fs.disk[..], fs.zones.bits, old(fs.zones.bits), fs.first, fs.nzones,
                         CopyRounds(|image|))
    ensures ok ==> Holds(inode.zones, fs.disk[..], image, CopyRounds(|image|)) && inode.size == |image|
    ensures ok ==> InodeAt(fs.disk[..], table, i) == ValueOf(inode)
    ensures ok ==> KernelInode(InodeAt(fs.disk[..], table, i), time, |image|)
    ensures ok ==> ForeignKept(old(fs.disk[..]), fs.disk[..], old(fs.zones.bits), fs.first, fs.nzones,
                               TableBlock(table, i))
  {
    hide Lookup, Estimate, Built, Holds, ZonesNeeded;
    inode := new Inode.Blank();
    ok := SpaceCheck(fs, |image|);
    if !ok {
      return;
    }
    EstimateCovers(|image|);
    inode.mode, inode.nlinks, inode.time := KERNEL_MODE, 1, time;
    ghost var d := fs.disk[..];
    SaveInode(fs, table, i, ValueOf(inode));
    assert ForeignKept(d, fs.disk[..], fs.zones.bits, fs.first, fs.nzones, TableBlock(table, i));
    ok := CopyImage(fs, table, i, inode, image);
  }

  /** Installing an image and truncating it again restores the zone map, index blocks
      included, exactly when the image is not empty: an empty one leaks its one zone. */
  method InstallThenRemove(fs: MinixFs, table: nat, i: nat, time: nat, image: seq<byte>) returns (ok: bool)
    requires fs.Valid() && i >= 1 && TableBlock(table, i) < fs.first && time < 0x1_0000_0000
    requires CopyRounds(|image|) <= MAX_FILE_BLOCKS
    modifies fs.zones, fs.zones.bytes, fs.disk
    ensures fs.Valid()
    ensures ok ==> (fs.zones.bits == old(fs.zones.bits) <==> |image| > 0)
  {
    ghost var base := fs.zones.bits;
    var inode;
    ok, inode := WriteKernel(fs, table, i, time, image);
    if !ok {
      return;
    }
    RoundsAreBlocks(|image|);
    ghost var z, d, bits := inode.zones, fs.disk[..], fs.zones.bits;
    if |image| == 0 {
      EmptyIsBuilt(z, d, bits, fs.first, fs.nzones);
      AllBitsSubset(bits, fs.first, fs.nzones, Owned(z, d, 0), Owned(z, d, 1));
      LookupOwned(z, d, 1, 0);
      fs.TruncInode(inode);
      assert fs.zones.bits[Lookup(z, d, 0) - fs.first] && !base[Lookup(z, d, 0) - fs.first];
    } else {
      ClearedUndoesClaimed(base, fs.first, fs.nzones, Owned(z, d, CopyRounds(|image|)));
      fs.TruncInode(inode);
    }
  }

  lemma {:induction false} AllBitsSubset(bits: seq<bool>, first: nat, nzones: nat, a: seq<nat>, b: seq<nat>)
    requires AllBits(bits, first, nzones, b, true) && forall x :: x in a ==> x in b
    ensures AllBits(bits, first, nzones, a, true)
  {}
}
