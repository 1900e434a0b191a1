/** The a.out header of a program, and where the loader puts its parts. */
module AOut {
  import opened Frames
  import opened Gdt

  const HEADER_SIZE: nat := 32
  const TWO32: int := 0x1_0000_0000

  // The sizes and the entry point, 32-bit signed.
  datatype Header = Header(text: int, data: int, bss: int, entry: int) {
    ghost predicate Valid() {
      Signed(text) && Signed(data) && Signed(bss) && Signed(entry)
    }
  }

  predicate Signed(x: int) {
    -0x8000_0000 <= x < 0x8000_0000
  }

  function U32(x: int): nat {
    x % TWO32
  }

  function S32(x: int): int {
    var u := U32(x);
    if u < 0x8000_0000 then u else u - TWO32
  }

  /** Division by the frame size, truncating. */
  function WholeFrames(x: int): int {
    if x >= 0 then x / FRAME_SIZE else -((-x) / FRAME_SIZE)
  }

  function HeaderOf(bytes: seq<bv8>): (h: Header)
    requires |bytes| >= HEADER_SIZE
    ensures h.Valid()
  {
    Header(S32(Le32(bytes, 4)), S32(Le32(bytes, 8)), S32(Le32(bytes, 12)), S32(Le32(bytes, 20)))
  }

  function Le32(bytes: seq<bv8>, i: nat): nat
    requires i + 4 <= |bytes|
  {
    bytes[i] as nat + 0x100 * (bytes[i + 1] as nat + 0x100 * (bytes[i + 2] as nat + 0x100 * (bytes[i + 3] as nat)))
  }

  // ---------------------------------------------------------------- the header in the file

  /** The signed number `x` is in the four bytes from `i` on, the low one first. */
  ghost predicate Spells(s: seq<bv8>, i: nat, x: int)
    requires i + 4 <= |s|
  {
    var w := U32(x);
    && s[i] as nat == w % 0x100 && s[i + 1] as nat == w / 0x100 % 0x100
    && s[i + 2] as nat == w / 0x1_0000 % 0x100 && s[i + 3] as nat == w / 0x100_0000
  }

  /** The header read is the second, third, fourth and sixth of the eight numbers of the file. */
  lemma {:induction false} HeaderIsSpelled(s: seq<bv8>, h: Header)
    requires |s| >= HEADER_SIZE && h.Valid()
    ensures HeaderOf(s) == h <==>
              Spells(s, 4, h.text) && Spells(s, 8, h.data) && Spells(s, 12, h.bss) && Spells(s, 20, h.entry)
  {
    hide S32, Le32, Spells;
    NumberIsSpelled(s, 4, h.text);
    NumberIsSpelled(s, 8, h.data);
    NumberIsSpelled(s, 12, h.bss);
    NumberIsSpelled(s, 20, h.entry);
  }

  lemma {:induction false} NumberIsSpelled(s: seq<bv8>, i: nat, x: int)
    requires i + 4 <= |s| && Signed(x)
    ensures S32(Le32(s, i)) == x <==> Spells(s, i, x)
  {
    var b0, b1, b2, b3 := s[i] as nat, s[i + 1] as nat, s[i + 2] as nat, s[i + 3] as nat;
    assert Le32(s, i) == Joined(b0, b1, b2, b3);
    assert Spells(s, i, x) <==> Digits(U32(x), b0, b1, b2, b3);
    JoinedIff(U32(x), b0, b1, b2, b3);
    hide *;
    SignedBack(x);
    UnsignedBack(Joined(b0, b1, b2, b3));
  }

  // The same of four numbers: `w` has the digits `b0` to `b3` to the base 256.
  function Joined(b0: nat, b1: nat, b2: nat, b3: nat): nat {
    b0 + 0x100 * (b1 + 0x100 * (b2 + 0x100 * b3))
  }

  ghost predicate Digits(w: nat, b0: nat, b1: nat, b2: nat, b3: nat) {
    b0 == w % 0x100 && b1 == w / 0x100 % 0x100 && b2 == w / 0x1_0000 % 0x100 && b3 == w / 0x100_0000
  }

  lemma {:induction false} JoinedIff(w: nat, b0: nat, b1: nat, b2: nat, b3: nat)
    requires b0 < 0x100 && b1 < 0x100 && b2 < 0x100 && b3 < 0x100 && w < TWO32
    ensures Joined(b0, b1, b2, b3) < TWO32
    ensures Joined(b0, b1, b2, b3) == w <==> Digits(w, b0, b1, b2, b3)
  {
    FourDigits(b0, b1, b2, b3);
    DigitsAgree(w);
  }

  lemma {:induction false} FourDigits(b0: nat, b1: nat, b2: nat, b3: nat)
    requires b0 < 0x100 && b1 < 0x100 && b2 < 0x100 && b3 < 0x100
    ensures var w := b0 + 0x100 * (b1 + 0x100 * (b2 + 0x100 * b3));
            w < TWO32 && w % 0x100 == b0 && w / 0x100 % 0x100 == b1 && w / 0x1_0000 % 0x100 == b2
            && w / 0x100_0000 == b3
  {}

  lemma {:induction false} DigitsAgree(w: nat)
    requires w < TWO32
    ensures w == w % 0x100 + 0x100 * (w / 0x100 % 0x100 + 0x100 * (w / 0x1_0000 % 0x100 + 0x100 * (w / 0x100_0000)))
  {
    var a, b := w / 0x100, w / 0x1_0000;
    assert a / 0x100 == b && b / 0x100 == w / 0x100_0000;
  }

  lemma {:induction false} SignedBack(x: int)
    requires Signed(x)
    ensures S32(U32(x)) == x
  {}

  lemma {:induction false} UnsignedBack(w: nat)
    requires w < TWO32
    ensures Signed(S32(w)) && U32(S32(w)) == w
  {}

  /** A number as four bytes, and the header as compilers write it: eight numbers in order. */
  function FourBytes(x: int): (s: seq<bv8>)
    ensures |s| == 4
  {
    var w := U32(x);
    [ToByte(w % 0x100), ToByte(w / 0x100 % 0x100), ToByte(w / 0x1_0000 % 0x100), ToByte(w / 0x100_0000)]
  }

  function HeaderBytes(magic: int, text: int, data: int, bss: int, syms: int, entry: int, trsize: int,
                       drsize: int): (s: seq<bv8>)
    ensures |s| == HEADER_SIZE
  {
    FourBytes(magic) + FourBytes(text) + FourBytes(data) + FourBytes(bss) + FourBytes(syms) + FourBytes(entry)
    + FourBytes(trsize) + FourBytes(drsize)
  }

  /** The kernel reads what compilers write. */
  lemma {:induction false} HeaderIsRead(magic: int, text: int, data: int, bss: int, syms: int, entry: int, trsize: int,
                                        drsize: int)
    requires Signed(text) && Signed(data) && Signed(bss) && Signed(entry)
    ensures HeaderOf(HeaderBytes(magic, text, data, bss, syms, entry, trsize, drsize)) ==
            Header(text, data, bss, entry)
  {
    hide FourBytes, HeaderOf, Spells;
    var s := HeaderBytes(magic, text, data, bss, syms, entry, trsize, drsize);
    assert s[4..8] == FourBytes(text) && s[8..12] == FourBytes(data) && s[12..16] == FourBytes(bss);
    assert s[20..24] == FourBytes(entry);
    BytesSpell(s, 4, text);
    BytesSpell(s, 8, data);
    BytesSpell(s, 12, bss);
    BytesSpell(s, 20, entry);
    HeaderIsSpelled(s, Header(text, data, bss, entry));
  }

  lemma {:induction false} BytesSpell(s: seq<bv8>, i: nat, x: int)
    requires i + 4 <= |s| && s[i..i + 4] == FourBytes(x)
    ensures Spells(s, i, x)
  {
    hide ToByte;
    var w, b := U32(x), FourBytes(x);
    assert s[i] == b[0] && s[i + 1] == b[1] && s[i + 2] == b[2] && s[i + 3] == b[3];
    ByteIsNumber(w % 0x100);
    ByteIsNumber(w / 0x100 % 0x100);
    ByteIsNumber(w / 0x1_0000 % 0x100);
    ByteIsNumber(w / 0x100_0000);
  }

  // ---------------------------------------------------------------- layout, in 32-bit arithmetic

  /** Bytes of the text part, which starts with the header. */
  function TextSize(h: Header): nat {
    U32(HEADER_SIZE + h.text)
  }

  function CodeFrames(h: Header): nat {
    TextSize(h) / FRAME_SIZE + if TextSize(h) % FRAME_SIZE != 0 then 1 else 0
  }

  /** Frames for data and bss, and one for the stack. */
  function DataFrames(h: Header): nat {
    var size := S32(h.data + h.bss);
    U32(WholeFrames(size) + (if size % FRAME_SIZE != 0 then 1 else 0) + 1)
  }

  function TotalFrames(h: Header): nat {
    U32(CodeFrames(h) + DataFrames(h))
  }

  /** Where data starts, and where the stack's frame does. */
  function DataStart(h: Header): nat {
    CodeFrames(h) * FRAME_SIZE
  }

  function StackStart(h: Header): int {
    (TotalFrames(h) - 1) * FRAME_SIZE
  }

  function BssStart(h: Header): int {
    DataStart(h) + h.data
  }

  /** Bytes of the data part that are in the file. */
  function DataSize(h: Header): nat {
    if h.data > 0 then h.data else 0
  }

  // A part of the program: `size` bytes from `start` on.
  datatype Range = Range(start: int, size: nat)

  ghost predicate Apart(a: Range, b: Range) {
    a.size == 0 || b.size == 0 || a.start + a.size <= b.start || b.start + b.size <= a.start
  }

  ghost predicate Within(a: Range, end: int) {
    a.size == 0 || (0 <= a.start && a.start + a.size <= end)
  }

  /** The bytes the loader writes: text, data, and the cleared bss, whose size the clearing takes
      for an unsigned one. */
  ghost function Written(h: Header): seq<Range> {
    [Range(0, TextSize(h)), Range(DataStart(h), DataSize(h)), Range(BssStart(h), U32(h.bss))]
  }

  /** Text, data and bss do not overlap, and lie in the program's frames below the stack's. */
  ghost predicate Inside(h: Header) {
    var parts := Written(h);
    && (forall i :: 0 <= i < 3 ==> Within(parts[i], StackStart(h)))
    && Apart(parts[0], parts[1]) && Apart(parts[0], parts[2]) && Apart(parts[1], parts[2])
  }

  /** Data and bss end below 2 GB and need a frame at least, but for the stack's; and if the data
      size is negative, a bss behind it starts behind the text still. */
  predicate Sane(h: Header) {
    var end := h.data + U32(h.bss);
    && -2 * FRAME_SIZE < end < 0x8000_0000 && end + FRAME_SIZE != 0
    && (h.data >= 0 || h.bss == 0 || -h.data <= DataStart(h) - TextSize(h))
  }

  /** A header whose request for frames can be met at all is laid out soundly exactly if it
      is sane. */
  lemma {:induction false} InsideIffSane(h: Header)
    requires h.Valid() && 1 <= TotalFrames(h) <= 0x10_0000
    ensures Inside(h) <==> Sane(h)
  {
    hide WholeFrames, S32;
    var code, frames := CodeFrames(h), TotalFrames(h) - 1 - CodeFrames(h);
    PlainTotal(h);
    TextFits(h);
    SignedSum(h);
    assert Inside(h) <==> Fits(TextSize(h), code, h.data, U32(h.bss), frames) by {
      assert StackStart(h) == (code + frames) * FRAME_SIZE;
    }
    FitsIff(TextSize(h), code, h.data, U32(h.bss), frames);
  }

  /** The same, of a text of `text` bytes in `code` frames and `frames` frames behind them. */
  ghost predicate Fits(text: nat, code: nat, data: int, bss: nat, frames: int) {
    var t, d, b := Range(0, text), Range(code * FRAME_SIZE, if data > 0 then data else 0),
        Range(code * FRAME_SIZE + data, bss);
    var end := (code + frames) * FRAME_SIZE;
    Within(t, end) && Within(d, end) && Within(b, end) && Apart(t, d) && Apart(t, b) && Apart(d, b)
  }

  lemma {:induction false} SignedSum(h: Header)
    requires h.Valid()
    ensures var end := h.data + U32(h.bss);
            && S32(h.data + h.bss) == (if end >= 0x8000_0000 then end - TWO32 else end)
            && -0x8000_0000 <= end < 0x1_8000_0000 && (h.bss == 0 <==> U32(h.bss) == 0)
  {}

  lemma {:induction false} FitsIff(text: nat, code: nat, data: int, bss: nat, frames: int)
    requires text <= code * FRAME_SIZE < text + FRAME_SIZE && code + frames >= 0 && Signed(data) && bss < TWO32
    requires var end := data + bss;
             var size := if end >= 0x8000_0000 then end - TWO32 else end;
             frames == WholeFrames(size) + if size % FRAME_SIZE != 0 then 1 else 0
    ensures Fits(text, code, data, bss, frames) <==>
            && -2 * FRAME_SIZE < data + bss < 0x8000_0000 && data + bss + FRAME_SIZE != 0
            && (data >= 0 || bss == 0 || -data <= code * FRAME_SIZE - text)
  {
    var end := data + bss;
    FramesCover(if end >= 0x8000_0000 then end - TWO32 else end);
    if end < 0x8000_0000 { FramesNeeded(end); }
  }

  /** A size needs no frame less than none exactly if it is not too negative. */
  lemma {:induction false} FramesNeeded(size: int)
    ensures WholeFrames(size) + (if size % FRAME_SIZE != 0 then 1 else 0) >= 0 <==>
              size > -2 * FRAME_SIZE && size + FRAME_SIZE != 0
  {}

  lemma {:induction false} FramesCover(x: int)
    ensures var n := WholeFrames(x) + if x % FRAME_SIZE != 0 then 1 else 0;
            && (x >= 0 ==> x <= n * FRAME_SIZE < x + FRAME_SIZE)
            && (x < 0 ==> x <= n * FRAME_SIZE < x + 2 * FRAME_SIZE)
  {}

  lemma {:induction false} TextFits(h: Header)
    ensures TextSize(h) <= DataStart(h) < TextSize(h) + FRAME_SIZE && CodeFrames(h) <= 0x10_0000
  {}

  /** The frames, when no sum wraps around. */
  lemma {:induction false} PlainTotal(h: Header)
    requires h.Valid() && 1 <= TotalFrames(h) <= 0x10_0000
    ensures var size := S32(h.data + h.bss);
            TotalFrames(h) == CodeFrames(h) + WholeFrames(size) + (if size % FRAME_SIZE != 0 then 1 else 0) + 1
  {
    var size := S32(h.data + h.bss);
    TextFits(h);
    DataRange(size);
    PlainSum(CodeFrames(h), WholeFrames(size) + (if size % FRAME_SIZE != 0 then 1 else 0) + 1);
  }

  lemma {:induction false} DataRange(size: int)
    requires Signed(size)
    ensures -0x8_0000 <= WholeFrames(size) + (if size % FRAME_SIZE != 0 then 1 else 0) + 1 <= 0x8_0001
  {}

  lemma {:induction false} PlainSum(c: nat, d: int)
    requires c <= 0x10_0000 && -0x8_0000 <= d <= 0x8_0001 && 1 <= U32(c + U32(d)) <= 0x10_0000
    ensures U32(c + U32(d)) == c + d
  {}

  /** The bss starts behind text and data; a negative data size means that there is no data. */
  lemma {:induction false} BssFits(h: Header)
    requires h.Valid() && Inside(h)
    ensures h.bss != 0 ==> BssStart(h) + U32(h.bss) <= StackStart(h) && 0 <= BssStart(h)
    ensures h.bss == 0 <==> U32(h.bss) == 0
    ensures h.bss != 0 ==> TextSize(h) == 0 || TextSize(h) <= BssStart(h)
    ensures h.bss != 0 ==> DataSize(h) == 0 || DataStart(h) + DataSize(h) <= BssStart(h)
    ensures TextSize(h) <= DataStart(h) && (TextSize(h) == 0 || TextSize(h) <= StackStart(h))
    ensures DataSize(h) == 0 || DataStart(h) + DataSize(h) <= StackStart(h)
  {
    var parts := Written(h);
    assert Within(parts[0], StackStart(h)) && Within(parts[1], StackStart(h)) && Within(parts[2], StackStart(h));
    TextFits(h);
    SignedSum(h);
  }

  lemma {:induction false} SaneData(size: int)
    requires 0 <= size < 0x8000_0000 || (-2 * FRAME_SIZE < size < 0 && size + FRAME_SIZE != 0)
    ensures 1 <= WholeFrames(size) + (if size % FRAME_SIZE != 0 then 1 else 0) + 1 <= 0x8_0001
  {}

  /** A sane program asks for a frame at least, and its request does not wrap around. */
  lemma {:induction false} SaneTotal(h: Header)
    requires h.Valid() && Sane(h)
    ensures TotalFrames(h) >= 1 && DataStart(h) <= StackStart(h)
  {
    TextFits(h);
    var size := h.data + U32(h.bss);
    SignedSum(h);
    SaneData(size);
    SmallSum(CodeFrames(h), WholeFrames(size) + (if size % FRAME_SIZE != 0 then 1 else 0) + 1);
  }

  /** A sane program with its header and text below 2 GB: the data starts at the first frame
      boundary behind the text, the zeros behind the data, and the stack's frame, the last one, at
      the first boundary behind them. */
  lemma {:induction false} ProgramLayout(h: Header)
    requires h.Valid() && Sane(h) && TextSize(h) < 0x8000_0000
    ensures TextSize(h) == 32 + h.text
    ensures DataStart(h) % FRAME_SIZE == 0 && 32 + h.text <= DataStart(h) < 32 + h.text + FRAME_SIZE
    ensures DataSize(h) == Larger(h.data, 0) && BssStart(h) == DataStart(h) + h.data && U32(h.bss) == Zeros(h)
    ensures StackStart(h) % FRAME_SIZE == 0 && TotalFrames(h) * FRAME_SIZE == StackStart(h) + FRAME_SIZE
    ensures var end := DataStart(h) + h.data + Zeros(h);
            h.data + Zeros(h) >= 0 ==> end <= StackStart(h) < end + FRAME_SIZE
  {
    hide WholeFrames, S32, U32, CodeFrames, TextSize;
    var size := h.data + U32(h.bss);
    TextFits(h);
    PlainSizes(h);
    SignedSum(h);
    SaneData(size);
    SmallSum(CodeFrames(h), WholeFrames(size) + (if size % FRAME_SIZE != 0 then 1 else 0) + 1);
    FramesCover(size);
  }

  lemma {:induction false} PlainSizes(h: Header)
    requires h.Valid() && TextSize(h) < 0x8000_0000
    ensures TextSize(h) == 32 + h.text && U32(h.bss) == Zeros(h)
  {}

  /** The size of the bss, which clearing takes for an unsigned one. */
  function Zeros(h: Header): (n: int) {
    if h.bss >= 0 then h.bss else h.bss + TWO32
  }

  function Larger(a: int, b: int): int {
    if a < b then b else a
  }

  lemma {:induction false} SmallSum(c: nat, d: nat)
    requires c <= 0x10_0000 && 1 <= d <= 0x8_0001
    ensures U32(c + U32(d)) == c + d && c * FRAME_SIZE <= (c + d - 1) * FRAME_SIZE
  {}
}
