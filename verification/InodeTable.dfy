/** Inodes as stored on disk: 32 packed bytes, 32 of them to a block. */
module InodeTable {
  import opened Blocks
  import opened MinixTool

  const INODE_SIZE: nat := 32
  const INODES_PER_BLOCK: nat := 32
  // Byte offsets of the two fields the boot loader reads.
  const SIZE_OFFSET: nat := 4
  const ZONES_OFFSET: nat := 14

  datatype InodeValue = InodeValue(mode: nat, uid: nat, size: nat, time: nat, gid: nat, nlinks: nat, zones: seq<nat>)

  /** Every field fits its width on disk. */
  predicate Storable(v: InodeValue) {
    && v.mode < 0x1_0000 && v.uid < 0x1_0000 && v.size < 0x1_0000_0000 && v.time < 0x1_0000_0000
    && v.gid < 256 && v.nlinks < 256
    && |v.zones| == 9 && forall i :: 0 <= i < 9 ==> v.zones[i] < 0x1_0000
  }

  function Num2(s: seq<byte>, i: nat): nat
    requires i + 2 <= |s|
  {
    (s[i] as int) + 256 * (s[i + 1] as int)
  }

  function Num4(s: seq<byte>, i: nat): nat
    requires i + 4 <= |s|
  {
    Num2(s, i) + 0x1_0000 * (s[i + 2] as int) + 0x100_0000 * (s[i + 3] as int)
  }

  function ZoneBytes(zones: seq<nat>): (s: seq<byte>)
    requires forall i :: 0 <= i < |zones| ==> zones[i] < 0x1_0000
    ensures |s| == 2 * |zones|
  {
    seq(2 * |zones|, i requires 0 <= i < 2 * |zones| => if i % 2 == 0 then zones[i / 2] % 256 else zones[i / 2] / 256)
  }

  /** The fields before the zones. */
  function HeadBytes(v: InodeValue): (s: seq<byte>)
    requires Storable(v)
    ensures |s| == ZONES_OFFSET
  {
    [v.mode % 256, v.mode / 256, v.uid % 256, v.uid / 256,
     v.size % 256, v.size / 256 % 256, v.size / 0x1_0000 % 256, v.size / 0x100_0000,
     v.time % 256, v.time / 256 % 256, v.time / 0x1_0000 % 256, v.time / 0x100_0000,
     v.gid, v.nlinks]
  }

  /** The packed image of an inode. */
  function Encode(v: InodeValue): (s: seq<byte>)
    requires Storable(v)
    ensures |s| == INODE_SIZE
  {
    HeadBytes(v) + ZoneBytes(v.zones)
  }

  function Decode(s: seq<byte>): InodeValue
    requires |s| == INODE_SIZE
  {
    InodeValue(Num2(s, 0), Num2(s, 2), Num4(s, SIZE_OFFSET), Num4(s, 8), s[12], s[13],
               seq(9, i requires 0 <= i < 9 => Num2(s, ZONES_OFFSET + 2 * i)))
  }

  lemma {:induction false} FourBytes(w: nat)
    requires w < 0x1_0000_0000
    ensures w == w % 256 + 256 * (w / 256 % 256) + 0x1_0000 * (w / 0x1_0000 % 256) + 0x100_0000 * (w / 0x100_0000)
  {
    var a, b, c := w / 256, w / 0x1_0000, w / 0x100_0000;
    assert w == w % 256 + 256 * a;
    assert a / 256 == b && a == a % 256 + 256 * b;
    assert b / 256 == c && b == b % 256 + 256 * c;
  }

  lemma {:induction false} DecodeHead(v: InodeValue, s: seq<byte>)
    requires Storable(v) && |s| >= ZONES_OFFSET && s[..ZONES_OFFSET] == HeadBytes(v)
    ensures Num2(s, 0) == v.mode && Num2(s, 2) == v.uid && Num4(s, SIZE_OFFSET) == v.size && Num4(s, 8) == v.time
    ensures s[12] == v.gid && s[13] == v.nlinks
  {
    FourBytes(v.size);
    FourBytes(v.time);
    assert forall i :: 0 <= i < ZONES_OFFSET ==> s[i] == s[..ZONES_OFFSET][i];
  }

  lemma {:induction false} DecodeZone(zones: seq<nat>, s: seq<byte>, i: nat)
    requires |zones| == 9 && (forall i :: 0 <= i < |zones| ==> zones[i] < 0x1_0000) && i < 9
    requires |s| == INODE_SIZE && s[ZONES_OFFSET..] == ZoneBytes(zones)
    ensures Num2(s, ZONES_OFFSET + 2 * i) == zones[i]
  {
    assert s[ZONES_OFFSET + 2 * i] == s[ZONES_OFFSET..][2 * i] == zones[i] % 256;
    assert s[ZONES_OFFSET + 2 * i + 1] == s[ZONES_OFFSET..][2 * i + 1] == zones[i] / 256;
  }

  lemma {:induction false} DecodeEncode(v: InodeValue)
    requires Storable(v)
    ensures Decode(Encode(v)) == v
  {
    hide Num2, Num4, HeadBytes, ZoneBytes;
    var s := Encode(v);
    assert s[..ZONES_OFFSET] == HeadBytes(v) && s[ZONES_OFFSET..] == ZoneBytes(v.zones);
    DecodeHead(v, s);
    forall i | 0 <= i < 9
      ensures Num2(s, ZONES_OFFSET + 2 * i) == v.zones[i]
    {
      DecodeZone(v.zones, s, i);
    }
    assert Decode(s).zones == v.zones;
  }

  lemma {:induction false} NumsAreLittle(s: seq<byte>, i: nat)
    requires i + 2 <= |s|
    ensures Num2(s, i) == Little(s[i..i + 2])
    ensures i + 4 <= |s| ==> Num4(s, i) == Little(s[i..i + 4])
  {
    LittleOfTwo(s[i..i + 2]);
    if i + 4 <= |s| { LittleOfFour(s[i..i + 4]); }
  }

  lemma {:induction false} LittleOfTwo(s: seq<byte>)
    requires |s| == 2
    ensures Little(s) == (s[0] as int) + 256 * (s[1] as int)
  {
    assert Little(s[1..][1..]) == 0;
  }

  lemma {:induction false} LittleOfFour(s: seq<byte>)
    requires |s| == 4
    ensures Little(s) == (s[0] as int) + 256 * (s[1] as int) + 0x1_0000 * (s[2] as int) + 0x100_0000 * (s[3] as int)
  {
    assert s[1..][1..] == s[2..] && s[2..][0] == s[2];
    LittleOfTwo(s[2..]);
  }

  /** Where an inode's fields lie in its 32 bytes, the low byte of each first. */
  lemma {:induction false} InodeLayout(v: InodeValue)
    requires Storable(v)
    ensures var s := Encode(v);
            && Little(s[0..2]) == v.mode && Little(s[2..4]) == v.uid && Little(s[4..8]) == v.size
            && Little(s[8..12]) == v.time && s[12] == v.gid && s[13] == v.nlinks
            && forall i :: 0 <= i < 9 ==> Little(s[14 + 2 * i..14 + 2 * i + 2]) == v.zones[i]
  {
    hide Little, HeadBytes, ZoneBytes, Num2, Num4;
    var s := Encode(v);
    assert s[..ZONES_OFFSET] == HeadBytes(v) && s[ZONES_OFFSET..] == ZoneBytes(v.zones);
    DecodeHead(v, s);
    NumsAreLittle(s, 0);
    NumsAreLittle(s, 2);
    NumsAreLittle(s, 4);
    NumsAreLittle(s, 8);
    forall i | 0 <= i < 9
      ensures Little(s[14 + 2 * i..14 + 2 * i + 2]) == v.zones[i]
    {
      DecodeZone(v.zones, s, i);
      NumsAreLittle(s, 14 + 2 * i);
    }
  }

  // ---------------------------------------------------------------- the table

  function TableBlock(table: nat, i: nat): nat
    requires i >= 1
  {
    table + (i - 1) / INODES_PER_BLOCK
  }

  function Slot(i: nat): nat
    requires i >= 1
  {
    INODE_SIZE * ((i - 1) % INODES_PER_BLOCK)
  }

  /** Inodes follow each other in 32 bytes each from the start of the table. */
  lemma {:induction false} TableIsDense(table: nat, i: nat)
    requires i >= 1
    ensures TableBlock(table, i) * BLOCK_SIZE + Slot(i) == table * BLOCK_SIZE + 32 * (i - 1)
    ensures Slot(i) + INODE_SIZE <= BLOCK_SIZE
  {}

  /** Inode `i` of the table that starts at block `table`; numbering starts at 1. */
  function InodeAt(d: seq<Block>, table: nat, i: nat): InodeValue
    requires i >= 1
  {
    Decode(At(d, TableBlock(table, i))[Slot(i)..Slot(i) + INODE_SIZE])
  }

  /** The block with `part` copied to offset `at`. */
  function Overlay(b: Block, at: nat, part: seq<byte>): Block
    requires at + |part| <= BLOCK_SIZE
  {
    b[..at] + part + b[at + |part|..]
  }

  function Stored(d: seq<Block>, table: nat, i: nat, v: InodeValue): (d': seq<Block>)
    requires i >= 1 && Storable(v) && TableBlock(table, i) < |d|
    ensures |d'| == |d|
  {
    d[TableBlock(table, i) := Overlay(d[TableBlock(table, i)], Slot(i), Encode(v))]
  }

  /** The part reads back, and a slice beside it is as before. */
  lemma {:induction false} OverlaySlices(b: Block, at: nat, part: seq<byte>, x: nat)
    requires at + |part| <= BLOCK_SIZE && x + |part| <= BLOCK_SIZE
    ensures x == at ==> Overlay(b, at, part)[x..x + |part|] == part
    ensures x + |part| <= at || at + |part| <= x ==> Overlay(b, at, part)[x..x + |part|] == b[x..x + |part|]
  {
    var after := Overlay(b, at, part);
    assert forall j :: 0 <= j < |after| ==> after[j] == if at <= j < at + |part| then part[j - at] else b[j];
  }

  /** A stored inode is read back, and every other inode of the table is as before. */
  lemma {:induction false} StoredIsLoaded(d: seq<Block>, table: nat, i: nat, v: InodeValue, k: nat)
    requires i >= 1 && k >= 1 && Storable(v) && TableBlock(table, i) < |d|
    ensures InodeAt(Stored(d, table, i, v), table, k) == if k == i then v else InodeAt(d, table, k)
  {
    var b := At(d, TableBlock(table, i));
    if k == i {
      DecodeEncode(v);
      OverlaySlices(b, Slot(i), Encode(v), Slot(i));
    } else if TableBlock(table, k) == TableBlock(table, i) {
      OtherSlot(i, k);
      OverlaySlices(b, Slot(i), Encode(v), Slot(k));
    }
  }

  lemma {:induction false} OtherSlot(i: nat, k: nat)
    requires i >= 1 && k >= 1 && i != k && (i - 1) / INODES_PER_BLOCK == (k - 1) / INODES_PER_BLOCK
    ensures Slot(k) + INODE_SIZE <= Slot(i) || Slot(i) + INODE_SIZE <= Slot(k)
  {}

  method LoadInode(fs: MinixFs, table: nat, i: nat) returns (v: InodeValue)
    requires i >= 1 && TableBlock(table, i) < fs.disk.Length
    ensures v == InodeAt(fs.disk[..], table, i)
  {
    var k := i - 1;
    var data := fs.disk[table + k / INODES_PER_BLOCK];
    var at := INODE_SIZE * (k % INODES_PER_BLOCK);
    v := Decode(data[at..at + INODE_SIZE]);
  }

  method SaveInode(fs: MinixFs, table: nat, i: nat, v: InodeValue)
    requires i >= 1 && Storable(v) && TableBlock(table, i) < fs.disk.Length
    modifies fs.disk
    ensures fs.disk[..] == Stored(old(fs.disk[..]), table, i, v)
  {
    var k := i - 1;
    var blk := table + k / INODES_PER_BLOCK;
    var data := fs.disk[blk];
    data := Overlay(data, INODE_SIZE * (k % INODES_PER_BLOCK), Encode(v));
    fs.disk[blk] := data;
  }
}
