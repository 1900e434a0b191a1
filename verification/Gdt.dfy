/** Segment descriptors (section 3.4.5 of the Intel 64 and IA-32 Architectures Software
    Developer's Manual, volume 3A) and the table they are allocated in. */
module Gdt {

  const ENTRIES: nat := 32
  const NULL_ENTRY: bv64 := 0

  const GRANULARITY_4K: bv64 := 0x0080_0000_0000_0000
  const OP_SIZE_32: bv64 := 0x0040_0000_0000_0000
  const PRESENT: bv64 := 0x0000_8000_0000_0000
  const DPL_USER: bv64 := 0x0000_6000_0000_0000
  const CODE_DATA: bv64 := 0x0000_1000_0000_0000
  const CODE_SEGMENT: bv64 := 0x0000_0800_0000_0000
  const DATA_SEGMENT: bv64 := 0
  // Readable code, writable data.
  const READ_WRITE: bv64 := 0x0000_0200_0000_0000

  const USER: bv64 := GRANULARITY_4K | OP_SIZE_32 | PRESENT | DPL_USER | CODE_DATA
  const USER_CODE: bv64 := USER | CODE_SEGMENT | READ_WRITE
  const USER_DATA: bv64 := USER | DATA_SEGMENT | READ_WRITE

  // The bits of a descriptor that hold base and limit.
  const FIELDS: bv64 := 0xff0f_00ff_ffff_ffff

  function Descriptor(base: bv32, limit: bv32, flags: bv64): bv64 {
    var l := limit as bv64;
    var b := base as bv64;
    flags | (l & 0xffff) | ((l & 0x000f_0000) << 32)
    | ((b & 0xffff) << 16) | ((b & 0x00ff_0000) << 16) | ((b & 0xff00_0000) << 32)
  }

  function Base(d: bv64): bv32 {
    (((d >> 32) & 0xff00_0000) | ((d >> 16) & 0x00ff_ffff)) as bv32
  }

  function Limit(d: bv64): bv32 {
    (((d >> 32) & 0x000f_0000) | (d & 0xffff)) as bv32
  }

  /** Base, the low twenty bits of the limit, and the flags are all in the descriptor. */
  lemma {:induction false} DescriptorHolds(base: bv32, limit: bv32, flags: bv64)
    requires flags & FIELDS == 0
    ensures Base(Descriptor(base, limit, flags)) == base
    ensures Limit(Descriptor(base, limit, flags)) == limit & 0x000f_ffff
    ensures Descriptor(base, limit, flags) & !FIELDS == flags
  {}

  /** The fields are where the processor looks for them: limit and base from the low end, the rest of
      the limit and of the base at the top, and the flags between. */
  lemma {:induction false} DescriptorLayout(base: bv32, limit: bv32, flags: bv64)
    requires flags & FIELDS == 0
    ensures var d := Descriptor(base, limit, flags);
            && d & 0xffff == (limit & 0xffff) as bv64 && (d >> 16) & 0xffff == (base & 0xffff) as bv64
            && (d >> 32) & 0xff == ((base >> 16) & 0xff) as bv64 && (d >> 40) & 0xff == (flags >> 40) & 0xff
            && (d >> 48) & 0xf == ((limit >> 16) & 0xf) as bv64 && (d >> 52) & 0xf == (flags >> 52) & 0xf
            && d >> 56 == (base >> 24) as bv64
  {}

  /** Bit `k` of a descriptor. */
  predicate Set(d: bv64, k: nat)
    requires k < 64
  {
    (d >> k) & 1 == 1
  }

  /** A program's segments are present and for user level, for code or data, writable data or
      readable code, of 32 bits and in units of 4096 bytes; the code segment is for code. */
  lemma {:induction false} UserAccess(d: bv64)
    requires d == USER_CODE || d == USER_DATA
    ensures Set(d, 47) && Set(d, 46) && Set(d, 45) && Set(d, 44) && Set(d, 41) && Set(d, 54) && Set(d, 55)
    ensures !Set(d, 42) && !Set(d, 40) && !Set(d, 53) && !Set(d, 52)
    ensures Set(d, 43) <==> d == USER_CODE
  {}

  /** A descriptor gives its limit back exactly if that has twenty bits. */
  lemma {:induction false} LimitIsExactIff(base: bv32, limit: bv32, flags: bv64)
    requires flags & FIELDS == 0
    ensures Limit(Descriptor(base, limit, flags)) == limit <==> limit <= 0x000f_ffff
  {
    DescriptorHolds(base, limit, flags);
  }

  // ---------------------------------------------------------------- numbers and words

  /** Four bits of a number, and back. */
  function ToDigit(v: nat): bv8
    requires v < 16
  {
    match v
    case 0 => 0
    case 1 => 1
    case 2 => 2
    case 3 => 3
    case 4 => 4
    case 5 => 5
    case 6 => 6
    case 7 => 7
    case 8 => 8
    case 9 => 9
    case 10 => 10
    case 11 => 11
    case 12 => 12
    case 13 => 13
    case 14 => 14
    case _ => 15
  }

  function FromDigit(d: bv8): nat {
    match d
    case 0 => 0
    case 1 => 1
    case 2 => 2
    case 3 => 3
    case 4 => 4
    case 5 => 5
    case 6 => 6
    case 7 => 7
    case 8 => 8
    case 9 => 9
    case 10 => 10
    case 11 => 11
    case 12 => 12
    case 13 => 13
    case 14 => 14
    case _ => 15
  }

  /** A byte, and back. */
  function ToByte(v: nat): bv8
    requires v < 0x100
  {
    (ToDigit(v / 16) << 4) | ToDigit(v % 16)
  }

  function FromByte(b: bv8): nat {
    FromDigit(b >> 4) * 16 + FromDigit(b & 0xf)
  }

  lemma {:induction false} DigitBack(v: nat)
    requires v < 16
    ensures ToDigit(v) < 16 && FromDigit(ToDigit(v)) == v
  {}

  lemma {:induction false} DigitsHold(h: bv8, l: bv8)
    requires h < 16 && l < 16
    ensures ((h << 4) | l) >> 4 == h && ((h << 4) | l) & 0xf == l
  {}

  lemma {:induction false} ByteBack(v: nat)
    requires v < 0x100
    ensures FromByte(ToByte(v)) == v
  {
    DigitBack(v / 16);
    DigitBack(v % 16);
    DigitsHold(ToDigit(v / 16), ToDigit(v % 16));
  }

  function Value(b: bv8): nat {
    b as nat
  }

  /** A byte is the number it was made of. */
  lemma {:induction false} ByteIsNumber(v: nat)
    requires v < 0x100
    ensures Value(ToByte(v)) == v
  {
    DigitIsNumber(v / 16);
    DigitIsNumber(v % 16);
    JoinedDigits(ToDigit(v / 16), ToDigit(v % 16));
  }

  lemma {:induction false} DigitIsNumber(v: nat)
    requires v < 16
    ensures ToDigit(v) as nat == v
  {}

  lemma {:induction false} JoinedDigits(h: bv8, l: bv8)
    requires h < 16 && l < 16
    ensures ((h << 4) | l) as nat == (h as nat) * 16 + l as nat
  {}

  /** A number as a 32-bit word, and back. */
  function Word(x: nat): bv32 {
    Bytes(ToByte(x % 0x100), ToByte(x / 0x100 % 0x100), ToByte(x / 0x1_0000 % 0x100), ToByte(x / 0x100_0000 % 0x100))
  }

  function Bytes(b0: bv8, b1: bv8, b2: bv8, b3: bv8): bv32 {
    (b0 as bv32) | ((b1 as bv32) << 8) | ((b2 as bv32) << 16) | ((b3 as bv32) << 24)
  }

  function Low(w: bv32): bv8 {
    (w & 0xff) as bv8
  }

  function Number(w: bv32): nat {
    FromByte(Low(w)) + FromByte(Low(w >> 8)) * 0x100
    + FromByte(Low(w >> 16)) * 0x1_0000 + FromByte(Low(w >> 24)) * 0x100_0000
  }

  lemma {:induction false} BytesHold(b0: bv8, b1: bv8, b2: bv8, b3: bv8)
    ensures var w := Bytes(b0, b1, b2, b3);
            Low(w) == b0 && Low(w >> 8) == b1 && Low(w >> 16) == b2 && Low(w >> 24) == b3
  {}

  lemma {:induction false} NumberOfBytes(b0: bv8, b1: bv8, b2: bv8, b3: bv8)
    ensures Number(Bytes(b0, b1, b2, b3)) ==
            FromByte(b0) + FromByte(b1) * 0x100 + FromByte(b2) * 0x1_0000 + FromByte(b3) * 0x100_0000
  {
    BytesHold(b0, b1, b2, b3);
  }

  /** The bytes of a word, the lowest first. */
  ghost predicate HasBytes(w: bv32, v0: nat, v1: nat, v2: nat, v3: nat) {
    && Value(Low(w)) == v0 && Value(Low(w >> 8)) == v1 && Value(Low(w >> 16)) == v2 && Value(Low(w >> 24)) == v3
  }

  /** The bytes of a word are the number's digits to base 256. */
  lemma {:induction false} WordDigits(x: nat)
    ensures HasBytes(Word(x), x % 0x100, x / 0x100 % 0x100, x / 0x1_0000 % 0x100, x / 0x100_0000 % 0x100)
  {
    hide HasBytes, Bytes, ToByte, Value;
    BytesHaveValues(ToByte(x % 0x100), ToByte(x / 0x100 % 0x100), ToByte(x / 0x1_0000 % 0x100),
                    ToByte(x / 0x100_0000 % 0x100));
    ByteIsNumber(x % 0x100);
    ByteIsNumber(x / 0x100 % 0x100);
    ByteIsNumber(x / 0x1_0000 % 0x100);
    ByteIsNumber(x / 0x100_0000 % 0x100);
  }

  lemma {:induction false} BytesHaveValues(b0: bv8, b1: bv8, b2: bv8, b3: bv8)
    ensures HasBytes(Bytes(b0, b1, b2, b3), Value(b0), Value(b1), Value(b2), Value(b3))
  {
    hide Bytes, Value;
    BytesHold(b0, b1, b2, b3);
  }

  lemma {:induction false} NumberOfWord(x: nat)
    requires x < 0x1_0000_0000
    ensures Number(Word(x)) == x
  {
    NumberOfBytes(ToByte(x % 0x100), ToByte(x / 0x100 % 0x100), ToByte(x / 0x1_0000 % 0x100),
                  ToByte(x / 0x100_0000 % 0x100));
    ByteBack(x % 0x100);
    ByteBack(x / 0x100 % 0x100);
    ByteBack(x / 0x1_0000 % 0x100);
    ByteBack(x / 0x100_0000 % 0x100);
    Digits(x);
  }

  lemma {:induction false} Digits(x: nat)
    requires x < 0x1_0000_0000
    ensures x == x % 0x100 + (x / 0x100 % 0x100) * 0x100
                 + (x / 0x1_0000 % 0x100) * 0x1_0000 + (x / 0x100_0000 % 0x100) * 0x100_0000
  {
    assert x / 0x1_0000 == x / 0x100 / 0x100;
    assert x / 0x100_0000 == x / 0x1_0000 / 0x100;
  }

  lemma {:induction false} SmallWord(x: nat)
    requires x < 0x10_0000
    ensures Word(x) & 0x000f_ffff == Word(x)
  {
    var v := x / 0x1_0000 % 0x100;
    assert v < 16 && x / 0x100_0000 % 0x100 == 0;
    assert v / 16 == 0 && v % 16 == v;
    DigitBack(v);
    SmallBytes(ToByte(x % 0x100), ToByte(x / 0x100 % 0x100), ToDigit(v));
  }

  lemma {:induction false} SmallBytes(b0: bv8, b1: bv8, b2: bv8)
    requires b2 < 16
    ensures Bytes(b0, b1, (0 << 4) | b2, (0 << 4) | 0) & 0x000f_ffff == Bytes(b0, b1, (0 << 4) | b2, (0 << 4) | 0)
  {}

  // ---------------------------------------------------------------- the table

  // What an entry means: nothing, or a segment at `base` with a limit of so many units.
  datatype Entry = Null | Segment(base: nat, limit: nat, flags: bv64) {
    ghost predicate Valid() {
      Segment? ==> base < 0x1_0000_0000 && limit < 0x10_0000 && flags & FIELDS == 0 && flags != 0
    }
  }

  ghost function Encode(en: Entry): bv64 {
    if en.Null? then NULL_ENTRY else Descriptor(Word(en.base), Word(en.limit), en.flags)
  }

  /** An entry's bits give back what it was made of. */
  lemma {:induction false} EncodeHolds(en: Entry)
    requires en.Valid()
    ensures Encode(en) == NULL_ENTRY <==> en.Null?
    ensures en.Segment? ==> Number(Base(Encode(en))) == en.base && Number(Limit(Encode(en))) == en.limit
  {
    if en.Segment? {
      SegmentHolds(en.base, en.limit, en.flags);
    }
  }

  lemma {:induction false} SegmentHolds(base: nat, limit: nat, flags: bv64)
    requires base < 0x1_0000_0000 && limit < 0x10_0000 && flags & FIELDS == 0 && flags != 0
    ensures var d := Descriptor(Word(base), Word(limit), flags);
            d != NULL_ENTRY && Number(Base(d)) == base && Number(Limit(d)) == limit
  {
    DescriptorHolds(Word(base), Word(limit), flags);
    FlagsShow(Word(base), Word(limit), flags);
    NumberOfWord(base);
    NumberOfWord(limit);
    SmallWord(limit);
  }

  lemma {:induction false} FlagsShow(base: bv32, limit: bv32, flags: bv64)
    requires flags & FIELDS == 0 && flags != 0
    ensures Descriptor(base, limit, flags) != NULL_ENTRY
  {}

  lemma {:induction false} UserFlags()
    ensures USER_CODE & FIELDS == 0 && USER_DATA & FIELDS == 0 && USER_CODE != 0 && USER_DATA != 0
  {}

  function EntryAt(bits: seq<bv64>, i: nat): bv64
    requires i < |bits|
  {
    bits[i]
  }

  /** The bits of the table mean the entries `e`. */
  ghost predicate Coded(bits: seq<bv64>, e: seq<Entry>) {
    && |e| == |bits| && (forall i :: 0 <= i < |e| ==> e[i].Valid())
    && forall i {:trigger EntryAt(bits, i)} :: 0 <= i < |bits| ==> EntryAt(bits, i) == Encode(e[i])
  }

  lemma {:induction false} CodedWrite(bits: seq<bv64>, e: seq<Entry>, k: nat, en: Entry)
    requires Coded(bits, e) && k < |e| && en.Valid()
    ensures Coded(bits[k := Encode(en)], e[k := en])
  {
    var bits', e' := bits[k := Encode(en)], e[k := en];
    forall i | 0 <= i < |bits|
      ensures EntryAt(bits', i) == Encode(e'[i])
    {
      assert EntryAt(bits, i) == Encode(e[i]);
    }
  }

  /** The first null entry from `i` on; `|e|` if there is none. */
  ghost function FirstNull(e: seq<Entry>, i: nat): (k: nat)
    requires i <= |e|
    ensures i <= k <= |e| && (k < |e| ==> e[k] == Null)
    ensures forall j :: i <= j < k ==> e[j] != Null
    decreases |e| - i
  {
    if i == |e| || e[i] == Null then i else FirstNull(e, i + 1)
  }

  class Table {
    const entries: array<bv64>
    // What the bits mean.
    ghost var view: seq<Entry>

    /** A table with nothing in it. */
    constructor ()
      ensures Valid() && fresh(entries) && forall i :: 0 <= i < ENTRIES ==> view[i] == Null
    {
      entries := new bv64[ENTRIES](_ => NULL_ENTRY);
      view := seq(ENTRIES, _ => Null);
    }

    ghost predicate Valid()
      reads this, entries
    {
      entries.Length == ENTRIES && Coded(entries[..], view) && view[0] == Null
    }

    /** A descriptor in the first null entry after entry 0; its offset, or 0. */
    method Alloc(base: nat, limit: nat, flags: bv64) returns (s: nat)
      requires Valid() && Segment(base, limit, flags).Valid()
      modifies entries, `view
      ensures Valid()
      ensures var k := FirstNull(old(view), 1);
              if k == ENTRIES then s == 0 && view == old(view)
              else s == 8 * k && view == old(view)[k := Segment(base, limit, flags)]
    {
      var i := 1;
      while i < ENTRIES && entries[i] != NULL_ENTRY
        invariant 1 <= i <= ENTRIES && entries[..] == old(entries[..]) && view == old(view)
        invariant forall j :: 1 <= j < i ==> view[j] != Null
      {
        EntryMeans(i);
        i := i + 1;
      }
      if i == ENTRIES {
        return 0;
      }
      EntryMeans(i);
      assert i == FirstNull(view, 1);
      CodedWrite(entries[..], view, i, Segment(base, limit, flags));
      ghost var bits := entries[..];
      entries[i] := Descriptor(Word(base), Word(limit), flags);
      assert entries[..] == bits[i := Encode(Segment(base, limit, flags))];
      view := view[i := Segment(base, limit, flags)];
      s := 8 * i;
    }

    lemma {:induction false} EntryMeans(i: nat)
      requires Valid() && i < ENTRIES
      ensures entries[i] == NULL_ENTRY <==> view[i] == Null
      ensures view[i].Segment? ==>
                Number(Base(entries[i])) == view[i].base && Number(Limit(entries[i])) == view[i].limit
    {
      assert EntryAt(entries[..], i) == entries[i];
      EncodeHolds(view[i]);
    }

    method Dealloc(s: nat)
      requires Valid() && s / 8 < ENTRIES
      modifies entries, `view
      ensures Valid() && view == old(view)[s / 8 := Null]
    {
      CodedWrite(entries[..], view, s / 8, Null);
      ghost var bits := entries[..];
      entries[s / 8] := NULL_ENTRY;
      assert entries[..] == bits[s / 8 := Encode(Null)];
      view := view[s / 8 := Null];
    }

    /** Base and limit of the segment a selector names. */
    method Get(s: nat) returns (isNull: bool, base: nat, limit: nat)
      requires Valid() && s / 8 < ENTRIES
      ensures isNull <==> view[s / 8] == Null
      ensures !isNull ==> base == view[s / 8].base && limit == view[s / 8].limit
    {
      var d := entries[s / 8];
      EntryMeans(s / 8);
      isNull, base, limit := d == NULL_ENTRY, Number(Base(d)), Number(Limit(d));
    }
  }
}
