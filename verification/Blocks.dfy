/** Disk blocks and the bit maps of the MINIX file system. */
module Blocks {

  const BLOCK_SIZE: nat := 1024
  const WORDS_PER_BLOCK: nat := 512

  type byte = x: int | 0 <= x < 256

  type Block = b: seq<byte> | |b| == BLOCK_SIZE witness seq<byte>(BLOCK_SIZE, _ => 0)

  /** The 16-bit little-endian word `i` of a block. */
  function Word(b: Block, i: nat): (w: nat)
    requires i < WORDS_PER_BLOCK
    ensures w < 0x1_0000
  {
    (b[2 * i] as int) + 256 * (b[2 * i + 1] as int)
  }

  function SetWord(b: Block, i: nat, w: nat): Block
    requires i < WORDS_PER_BLOCK && w < 0x1_0000
  {
    b[2 * i := w % 256][2 * i + 1 := w / 256]
  }

  lemma {:induction false} WordOfSetWord(b: Block, i: nat, w: nat, j: nat)
    requires i < WORDS_PER_BLOCK && w < 0x1_0000 && j < WORDS_PER_BLOCK
    ensures Word(SetWord(b, i, w), j) == if i == j then w else Word(b, j)
  {}

  /** The number that bytes stand for, the low byte first. */
  function Little(bytes: seq<byte>): nat {
    if bytes == [] then 0 else (bytes[0] as int) + 256 * Little(bytes[1..])
  }

  /** A word is the little-endian number of its two bytes. */
  lemma {:induction false} WordIsLittle(b: Block, i: nat)
    requires i < WORDS_PER_BLOCK
    ensures Word(b, i) == Little(b[2 * i..2 * i + 2])
  {
    assert Little(b[2 * i..2 * i + 2][1..][1..]) == 0;
  }

  /** The two bytes of word `i` are the number `x`, the low one first. */
  ghost predicate WordBytes(b: Block, i: nat, x: nat)
    requires i < WORDS_PER_BLOCK
  {
    b[2 * i] == x % 256 && b[2 * i + 1] == x / 256
  }

  lemma {:induction false} WordHasBytes(b: Block, i: nat)
    requires i < WORDS_PER_BLOCK
    ensures WordBytes(b, i, Word(b, i))
  {}

  /** Block `n` of a disk, all zeros past its end. */
  function At(d: seq<Block>, n: nat): Block {
    if n < |d| then d[n] else seq<byte>(BLOCK_SIZE, _ => 0)
  }

  // ---------------------------------------------------------------- bit maps

  function BitOf(b: bv8, k: nat): bool
    requires k < 8
  {
    b & (0x01 << k) != 0
  }

  function WithBit(b: bv8, k: nat): bv8
    requires k < 8
  {
    b | (0x01 << k)
  }

  function WithoutBit(b: bv8, k: nat): bv8
    requires k < 8
  {
    b & !(0x01 << k)
  }

  lemma {:induction false} Below8(k: nat)
    requires k < 8
    ensures k == 0 || k == 1 || k == 2 || k == 3 || k == 4 || k == 5 || k == 6 || k == 7
  {}

  /** Binary digit `k` of a number. */
  function Digit(n: nat, k: nat): bool {
    if k == 0 then n % 2 == 1 else Digit(n / 2, k - 1)
  }

  /** Bit `k` of a byte is its binary digit of that weight. */
  lemma {:induction false} BitIsDigit(b: bv8, k: nat)
    requires k < 8
    ensures BitOf(b, k) <==> Digit(b as nat, k)
    decreases k
  {
    LowBit(b);
    if k > 0 {
      ShiftedBit(b, k);
      BitIsDigit(b >> 1, k - 1);
    }
  }

  lemma {:induction false} LowBit(b: bv8)
    ensures BitOf(b, 0) <==> (b as nat) % 2 == 1
    ensures (b >> 1) as nat == (b as nat) / 2
  {}

  lemma {:induction false} ShiftedBit(b: bv8, k: nat)
    requires 1 <= k < 8
    ensures BitOf(b, k) <==> BitOf(b >> 1, k - 1)
  {
    Below8(k);
  }

  /** Setting or clearing bit `k` is seen by that bit and by no other. */
  lemma {:induction false} BitOfWrite(b: bv8, k: nat, j: nat)
    requires k < 8 && j < 8
    ensures BitOf(WithBit(b, k), j) == (j == k || BitOf(b, j))
    ensures BitOf(WithoutBit(b, k), j) == (j != k && BitOf(b, j))
  {
    if j == k {
      BitOfWriteSame(b, k);
    } else {
      BitOfWriteOther(b, k, j);
    }
  }

  lemma {:induction false} BitOfWriteSame(b: bv8, k: nat)
    requires k < 8
    ensures BitOf(WithBit(b, k), k) && !BitOf(WithoutBit(b, k), k)
  {
    Below8(k);
  }

  lemma {:induction false} BitOfWriteOther(b: bv8, k: nat, j: nat)
    requires k < 8 && j < 8 && j != k
    ensures BitOf(WithBit(b, k), j) == BitOf(b, j)
    ensures BitOf(WithoutBit(b, k), j) == BitOf(b, j)
  {
    Below8(k);
    Below8(j);
  }

  ghost function BitAt(bytes: seq<bv8>, k: nat): bool
    requires k / 8 < |bytes|
  {
    BitOf(bytes[k / 8], k % 8)
  }

  /** The packed bytes hold exactly the bits `bits`. */
  ghost predicate PackedBits(bytes: seq<bv8>, bits: seq<bool>) {
    |bits| == 8 * |bytes| && forall k {:trigger BitAt(bytes, k)} :: 0 <= k < |bits| ==> bits[k] == BitAt(bytes, k)
  }

  /** Bit `k` of the map is binary digit `k % 8` of byte `k / 8`. */
  lemma {:induction false} MapDigits(bytes: seq<bv8>, bits: seq<bool>, k: nat)
    requires PackedBits(bytes, bits) && k < |bits|
    ensures k / 8 < |bytes| && (bits[k] <==> Digit(bytes[k / 8] as nat, k % 8))
  {
    assert bits[k] == BitAt(bytes, k);
    BitIsDigit(bytes[k / 8], k % 8);
  }

  lemma {:induction false} PackedBitsSet(bytes: seq<bv8>, bits: seq<bool>, k: nat)
    requires PackedBits(bytes, bits) && k < |bits|
    ensures PackedBits(bytes[k / 8 := WithBit(bytes[k / 8], k % 8)], bits[k := true])
  {
    var after := bytes[k / 8 := WithBit(bytes[k / 8], k % 8)];
    forall j | 0 <= j < |bits|
      ensures bits[k := true][j] == BitAt(after, j)
    {
      assert bits[j] == BitAt(bytes, j);
      if j / 8 == k / 8 {
        BitOfWrite(bytes[k / 8], k % 8, j % 8);
        assert j == k <==> j % 8 == k % 8;
      }
    }
  }

  lemma {:induction false} PackedBitsUnset(bytes: seq<bv8>, bits: seq<bool>, k: nat)
    requires PackedBits(bytes, bits) && k < |bits|
    ensures PackedBits(bytes[k / 8 := WithoutBit(bytes[k / 8], k % 8)], bits[k := false])
  {
    var after := bytes[k / 8 := WithoutBit(bytes[k / 8], k % 8)];
    forall j | 0 <= j < |bits|
      ensures bits[k := false][j] == BitAt(after, j)
    {
      assert bits[j] == BitAt(bytes, j);
      if j / 8 == k / 8 {
        BitOfWrite(bytes[k / 8], k % 8, j % 8);
        assert j == k <==> j % 8 == k % 8;
      }
    }
  }

  /** A bit map loaded from disk, eight bits to the byte. */
  class BitMap {
    const bytes: array<bv8>
    // What the packed bytes stand for.
    ghost var bits: seq<bool>

    ghost predicate Valid()
      reads this, bytes
    {
      PackedBits(bytes[..], bits)
    }

    method Get(k: nat) returns (b: bool)
      requires Valid() && k < |bits|
      ensures b == bits[k]
    {
      b := BitOf(bytes[k / 8], k % 8);
      assert b == BitAt(bytes[..], k);
    }

    method Set(k: nat)
      requires Valid() && k < |bits|
      modifies this, bytes
      ensures Valid() && bits == old(bits)[k := true]
    {
      ghost var before := bytes[..];
      bytes[k / 8] := WithBit(bytes[k / 8], k % 8);
      PackedBitsSet(before, bits, k);
      assert bytes[..] == before[k / 8 := WithBit(before[k / 8], k % 8)];
      bits := bits[k := true];
    }

    method Unset(k: nat)
      requires Valid() && k < |bits|
      modifies this, bytes
      ensures Valid() && bits == old(bits)[k := false]
    {
      ghost var before := bytes[..];
      bytes[k / 8] := WithoutBit(bytes[k / 8], k % 8);
      PackedBitsUnset(before, bits, k);
      assert bytes[..] == before[k / 8 := WithoutBit(before[k / 8], k % 8)];
      bits := bits[k := false];
    }
  }
}
