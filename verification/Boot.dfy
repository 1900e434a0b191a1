/** The boot loader: it reads the kernel's inode, walks the zone tree through one shared
    buffer, and copies each block to where the kernel runs.  Together with the image tool:
    what was installed is what ends up in memory. */
module Boot {
  import opened Blocks
  import opened ZoneTree
  import opened ZoneBits
  import opened MinixTool
  import opened InodeTable
  import opened MinixWrite

  const KERNEL_BASE: nat := 0x1000
  // Real-mode segment arithmetic reaches 20 bits of address.
  const MEMORY_SIZE: nat := 0x10_0000
  // The loader compares sizes as signed 32-bit numbers.
  const MAX_SIZE: nat := 0x8000_0000

  /** The linear address of segment:offset for the copy of block `zone`. */
  function Destination(zone: nat): nat {
    var linear := zone * BLOCK_SIZE + KERNEL_BASE;
    var di := linear % 0x1_0000 % 16;
    var es := linear % MEMORY_SIZE / 16;
    es * 16 + di
  }

  /** Every block up to the end of the first megabyte goes to its own place; the first one
      past it would be copied to address 0. */
  lemma {:induction false} DestinationIsLinearIff(zone: nat)
    requires zone * BLOCK_SIZE + KERNEL_BASE < 2 * MEMORY_SIZE
    ensures Destination(zone) == zone * BLOCK_SIZE + KERNEL_BASE <==>
              KERNEL_BASE + (zone + 1) * BLOCK_SIZE <= MEMORY_SIZE
  {
    var linear := zone * BLOCK_SIZE + KERNEL_BASE;
    assert linear % 16 == 0;
    SegmentAndOffset(linear);
    assert Destination(zone) == linear % MEMORY_SIZE;
  }

  lemma {:induction false} SegmentAndOffset(linear: nat)
    requires linear % 16 == 0
    ensures linear % MEMORY_SIZE / 16 * 16 + linear % 0x1_0000 % 16 == linear % MEMORY_SIZE
  {
    var r := linear % MEMORY_SIZE;
    assert r % 16 == 0 && r / 16 * 16 == r;
    assert linear % 0x1_0000 % 16 == 0;
  }

  /** The sector of block `block` of the inode table, as the loader computes it in 16 bits. */
  function TableSector(block: nat): nat {
    block % 0x1_0000 * 2 % 0x1_0000
  }

  /** That is the block's own sector exactly for the first 0x8000 blocks. */
  lemma {:induction false} TableSectorIff(block: nat)
    ensures TableSector(block) == 2 * block <==> block < 0x8000
    ensures TableSector(block) % 2 == 0
  {
    if block < 0x8000 {
      assert block % 0x1_0000 == block;
    }
  }

  class Loader {
    // The blocks of the partition.
    const disk: array<Block>
    const mem: array<byte>
    // The 32 bytes of the inode being read, and the block buffer.
    var inode: seq<byte>
    var buffer: Block

    constructor (disk: array<Block>, mem: array<byte>)
      requires mem.Length == MEMORY_SIZE
      ensures Valid() && this.disk == disk && this.mem == mem
    {
      this.disk, this.mem := disk, mem;
      inode, buffer := seq<byte>(INODE_SIZE, _ => 0), At([], 0);
    }

    ghost predicate Valid()
      reads this
    {
      |inode| == INODE_SIZE && mem.Length == MEMORY_SIZE && (mem as object) != disk
    }

    function Size(): nat
      requires Valid()
      reads this
    {
      Num4(inode, SIZE_OFFSET)
    }

    /** The zones of the inode in memory. */
    ghost function Zones(): (z: seq<nat>)
      requires Valid()
      reads this
      ensures |z| == 9
    {
      Decode(inode).zones
    }

    /** Brings the block of two sectors from `sector` on into the buffer. */
    method LoadSectors(sector: nat)
      requires Valid() && sector % 2 == 0 && sector / 2 < disk.Length
      modifies `buffer
      ensures buffer == disk[sector / 2]
    {
      buffer := disk[sector / 2];
    }

    /** The same for a zone: its sector has 32 bits. */
    method LoadBlock(zone: nat)
      requires Valid() && zone < disk.Length
      modifies `buffer
      ensures buffer == disk[zone]
    {
      LoadSectors(2 * zone);
    }

    /** Reads inode `i` of the table at block `table`, or what is in its place in the block that a
        wrapped sector number names. */
    method ReadInode(table: nat, i: nat)
      requires Valid() && i >= 1 && TableSector(TableBlock(table, i)) / 2 < disk.Length
      modifies `inode, `buffer
      ensures Valid()
      ensures var read := At(disk[..], TableSector(TableBlock(table, i)) / 2);
              Decode(inode) == Decode(read[Slot(i)..Slot(i) + INODE_SIZE])
      ensures TableBlock(table, i) < 0x8000 ==> Decode(inode) == InodeAt(disk[..], table, i)
    {
      var ax := i - 1;
      var block, off := ax / 32, ax % 32;
      TableSectorIff(block + table);
      LoadSectors((block + table) % 0x1_0000 * 2 % 0x1_0000);
      inode := buffer[off * 32..off * 32 + 32];
      assert At(disk[..], TableSector(TableBlock(table, i)) / 2) == buffer;
    }

    /** Brings block `zone` of the file into the buffer through up to two index blocks;
        fails for a block past the end of the file. */
    method LoadZone(zone: nat) returns (ok: bool)
      requires Valid() && ReadableFile()
      modifies `buffer
      ensures Valid() && (ok <==> zone < BlocksOf(Size()))
      ensures ok ==> buffer == At(disk[..], Lookup(Zones(), disk[..], zone))
    {
      ghost var z, d, n := Zones(), disk[..], BlocksOf(Size());
      if zone * BLOCK_SIZE >= Size() {
        return false;
      }
      var level0, level1, level2 := 0, -1, -1;
      if zone >= 519 {
        level2 := (zone - 519) % 512;
        level1 := (zone - 519) / 512;
        level0 := 8;
        SecondLevelOwned(z, d, n, zone);
      } else if zone >= 7 {
        level1 := zone - 7;
        level0 := 7;
        IndexOwned(z, d, n, z[7]);
      } else {
        level0 := zone;
      }
      LookupOwned(z, d, n, zone);
      assert Num2(inode, ZONES_OFFSET + 2 * level0) == z[level0];
      LoadBlock(Num2(inode, ZONES_OFFSET + 2 * level0));
      if level1 != -1 {
        LoadBlock(Word(buffer, level1));
        if level2 != -1 {
          LoadBlock(Word(buffer, level2));
        }
      }
      ok := true;
    }

    /** The inode in memory names a file whose zones are blocks of the disk. */
    ghost predicate ReadableFile()
      requires Valid()
      reads this, disk
    {
      Size() < MAX_SIZE && BlocksOf(Size()) <= MAX_FILE_BLOCKS &&
      forall x :: x in Owned(Zones(), disk[..], BlocksOf(Size())) ==> x < disk.Length
    }

    /** Copies the buffer to where block `zone` of the kernel goes. */
    method CopyOut(zone: nat)
      requires Valid() && KERNEL_BASE + (zone + 1) * BLOCK_SIZE <= MEMORY_SIZE
      modifies mem
      ensures forall j :: 0 <= j < MEMORY_SIZE ==>
                mem[j] == if 0 <= j - (KERNEL_BASE + zone * BLOCK_SIZE) < BLOCK_SIZE
                          then buffer[j - (KERNEL_BASE + zone * BLOCK_SIZE)] else old(mem[j])
    {
      var linear := zone * BLOCK_SIZE + KERNEL_BASE;
      var di := linear % 0x1_0000 % 16;
      var es := linear % MEMORY_SIZE / 16;
      DestinationIsLinearIff(zone);
      var cx := 0;
      while cx < BLOCK_SIZE
        invariant cx <= BLOCK_SIZE
        invariant forall j :: 0 <= j < MEMORY_SIZE ==>
                    mem[j] == if 0 <= j - linear < cx then buffer[j - linear] else old(mem[j])
      {
        mem[es * 16 + di + cx] := buffer[cx];
        cx := cx + 1;
      }
    }

    /** Loads the whole file to KERNEL_BASE, block after block, and touches nothing else. */
    method LoadFile()
      requires Valid() && ReadableFile()
      requires KERNEL_BASE + BlocksOf(Size()) * BLOCK_SIZE <= MEMORY_SIZE
      modifies `buffer, mem
      ensures Valid()
      ensures forall j :: 0 <= j < MEMORY_SIZE ==> mem[j] == Loaded(old(mem[..]), BlocksOf(Size()), j)
    {
      var zone := 0;
      while zone * BLOCK_SIZE < Size()
        invariant Valid() && zone <= BlocksOf(Size())
        invariant forall j :: 0 <= j < MEMORY_SIZE ==> mem[j] == Loaded(old(mem[..]), zone, j)
      {
        var ok := LoadZone(zone);
        assert ok;
        CopyOut(zone);
        zone := zone + 1;
      }
    }

    /** Memory cell `j` once `n` blocks of the file have been loaded. */
    ghost function Loaded(before: seq<byte>, n: nat, j: nat): byte
      requires Valid() && n <= MAX_FILE_BLOCKS && |before| == MEMORY_SIZE && j < MEMORY_SIZE
      reads this, disk
    {
      if KERNEL_BASE <= j < KERNEL_BASE + n * BLOCK_SIZE
      then At(disk[..], Lookup(Zones(), disk[..], (j - KERNEL_BASE) / BLOCK_SIZE))[(j - KERNEL_BASE) % BLOCK_SIZE]
      else before[j]
    }
  }

  /** Boots from a disk on which inode `i` is a file holding `image`. */
  method BootFrom(loader: Loader, table: nat, i: nat, ghost z: seq<nat>, image: seq<byte>)
    requires loader.Valid() && i >= 1 && TableBlock(table, i) < loader.disk.Length && TableBlock(table, i) < 0x8000
    requires KERNEL_BASE + BlocksOf(|image|) * BLOCK_SIZE <= MEMORY_SIZE
    requires InodeAt(loader.disk[..], table, i).zones == z && InodeAt(loader.disk[..], table, i).size == |image|
    requires Holds(z, loader.disk[..], image, BlocksOf(|image|))
    requires forall x :: x in Owned(z, loader.disk[..], BlocksOf(|image|)) ==> x < loader.disk.Length
    modifies loader, loader.mem
    ensures forall j :: 0 <= j < BlocksOf(|image|) * BLOCK_SIZE ==>
              loader.mem[KERNEL_BASE + j] == if j < |image| then image[j] else 0
  {
    TableSectorIff(TableBlock(table, i));
    loader.ReadInode(table, i);
    ghost var d := loader.disk[..];
    assert loader.Zones() == z && loader.Size() == |image|;
    loader.LoadFile();
    forall j | 0 <= j < BlocksOf(|image|) * BLOCK_SIZE
      ensures loader.mem[KERNEL_BASE + j] == if j < |image| then image[j] else 0
    {
      var b := j / BLOCK_SIZE;
      assert At(d, Lookup(z, d, b)) == Chunk(image, b);
      assert b * BLOCK_SIZE + j % BLOCK_SIZE == j;
    }
  }

  /** Installing an image and booting from it puts the image, filled up with zeros to a
      whole block, at KERNEL_BASE, whatever was on the disk before. */
  method InstallThenBoot(fs: MinixFs, loader: Loader, table: nat, i: nat, time: nat, image: seq<byte>)
    returns (ok: bool)
    requires fs.Valid() && loader.Valid() && loader.disk == fs.disk
    requires (loader.mem as object) != fs.zones.bytes
    requires i >= 1 && TableBlock(table, i) < fs.first && TableBlock(table, i) < 0x8000 && time < 0x1_0000_0000
    requires KERNEL_BASE + BlocksOf(|image|) * BLOCK_SIZE <= MEMORY_SIZE
    modifies fs.zones, fs.zones.bytes, fs.disk, loader, loader.mem
    ensures ok <==> FreeCount(old(fs.zones.bits), fs.nzones) >= Estimate(|image|)
    ensures ok ==> BlocksOf(|image|) * BLOCK_SIZE >= |image|
                   && forall j :: 0 <= j < BlocksOf(|image|) * BLOCK_SIZE ==>
                     loader.mem[KERNEL_BASE + j] == if j < |image| then image[j] else 0
  {
    RoundsAreBlocks(|image|);
    BlocksOfIsLeast(|image|, BlocksOf(|image|));
    var inode;
    ok, inode := WriteKernel(fs, table, i, time, image);
    if !ok {
      return;
    }
    BuiltInRange(inode.zones, fs.disk[..], fs.zones.bits, old(fs.zones.bits), fs.first, fs.nzones, |image|);
    BootFrom(loader, table, i, inode.zones, image);
  }

  lemma {:induction false} BuiltInRange(z: seq<nat>, d: seq<Block>, bits: seq<bool>, base: seq<bool>, first: nat,
                                        nzones: nat, size: nat)
    requires Built(z, d, bits, base, first, nzones, CopyRounds(size))
    ensures BlocksOf(size) <= CopyRounds(size)
    ensures forall x :: x in Owned(z, d, BlocksOf(size)) ==> x < |d|
  {
    RoundsAreBlocks(size);
    if size == 0 {
      assert Owned(z, d, 0) == [];
    }
  }
}
