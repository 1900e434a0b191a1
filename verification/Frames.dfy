/** The physical page-frame allocator of the kernel.

    A frame's state is two bits of a packed byte map.  This module refines that
    map to a plain sequence of states, and the one-pass counting search of
    `mem_allocate_frames` to a naive search for the least free run. */
module Frames {

  const FRAME_SIZE: nat := 4096
  const BITMAP_ADDR: nat := 0x10_0000
  const KERNEL_FIRST_FRAME: nat := 256
  const USER_FIRST_FRAME: nat := 768
  // Both stack macros of the memory header evaluate to this one frame.
  const STACK_FRAME: nat := 766
  // Two status bits per frame, and 32-bit physical addresses.
  const MAX_FRAMES: nat := 0x10_0000

  datatype Option<+T> = None | Some(value: T)

  datatype Status = Free | Used | Reserved | Reserved2

  function Bits(s: Status): bv8 {
    match s
    case Free => 0
    case Used => 1
    case Reserved => 2
    case Reserved2 => 3
  }

  function StatusOf(b: bv8): Status {
    if b == 0 then Free else if b == 1 then Used else if b == 2 then Reserved else Reserved2
  }

  // ---------------------------------------------------------------- packed bytes

  /** The two bits of entry `k` of a byte. */
  function Entry(pack: bv8, k: nat): bv8
    requires k < 4
  {
    (pack >> (k * 2)) & 0x03
  }

  function WithEntry(pack: bv8, k: nat, s: bv8): bv8
    requires k < 4
  {
    (pack & !(0x03 << (k * 2))) | ((s & 0x03) << (k * 2))
  }

  function StatusAt(bytes: seq<bv8>, f: nat): Status
    requires f / 4 < |bytes|
  {
    StatusOf(Entry(bytes[f / 4], f % 4))
  }

  /** The packed bytes hold exactly the states `st`. */
  ghost predicate Packed(bytes: seq<bv8>, st: seq<Status>) {
    |st| == 4 * |bytes| && forall f {:trigger StatusAt(bytes, f)} :: 0 <= f < |st| ==> st[f] == StatusAt(bytes, f)
  }

  /** Writing one entry of a byte is seen by that entry and by no other. */
  lemma {:induction false} EntryOfWithEntry(pack: bv8, k: nat, b: bv8, j: nat)
    requires k < 4 && j < 4 && b < 4
    ensures Entry(WithEntry(pack, k, b), j) == if j == k then b else Entry(pack, j)
  {
    Below4(k);
    Below4(j);
  }

  lemma {:induction false} Below4(k: nat)
    requires k < 4
    ensures k == 0 || k == 1 || k == 2 || k == 3
  {}

  lemma {:induction false} EntryOfZero(k: nat)
    requires k < 4
    ensures StatusOf(Entry(0, k)) == Free
  {
    Below4(k);
  }

  lemma {:induction false} StatusOfBits(s: Status)
    ensures Bits(s) < 4 && StatusOf(Bits(s)) == s
  {}

  /** The number an entry stands for in the map. */
  function Code(s: Status): nat {
    match s
    case Free => 0
    case Used => 1
    case Reserved => 2
    case Reserved2 => 3
  }

  /** A byte of the map is the number whose base-4 digits, the lowest first, are the codes of four
      frames. */
  lemma {:induction false} ByteOfCodes(bytes: seq<bv8>, st: seq<Status>, i: nat)
    requires Packed(bytes, st) && i < |bytes|
    ensures bytes[i] as nat ==
            Code(st[4 * i]) + 4 * Code(st[4 * i + 1]) + 16 * Code(st[4 * i + 2]) + 64 * Code(st[4 * i + 3])
  {
    hide StatusOf, Entry;
    var b := bytes[i];
    forall k | 0 <= k < 4
      ensures st[4 * i + k] == StatusOf(Entry(b, k))
    {
      assert st[4 * i + k] == StatusAt(bytes, 4 * i + k);
    }
    CodeOfEntry(b, 0);
    CodeOfEntry(b, 1);
    CodeOfEntry(b, 2);
    CodeOfEntry(b, 3);
    FourDigits(b);
  }

  lemma {:induction false} CodeOfEntry(b: bv8, k: nat)
    requires k < 4
    ensures Code(StatusOf(Entry(b, k))) == Entry(b, k) as nat
  {
    Below4(k);
  }

  lemma {:induction false} FourDigits(b: bv8)
    ensures b as nat == Entry(b, 0) as nat + 4 * (Entry(b, 1) as nat) + 16 * (Entry(b, 2) as nat)
                        + 64 * (Entry(b, 3) as nat)
  {}

  lemma {:induction false} PackedWrite(bytes: seq<bv8>, st: seq<Status>, f: nat, s: Status)
    requires Packed(bytes, st) && f < |st|
    ensures Packed(bytes[f / 4 := WithEntry(bytes[f / 4], f % 4, Bits(s))], st[f := s])
  {
    var after := bytes[f / 4 := WithEntry(bytes[f / 4], f % 4, Bits(s))];
    forall g | 0 <= g < |st|
      ensures st[f := s][g] == StatusAt(after, g)
    {
      assert st[g] == StatusAt(bytes, g);
      StatusOfBits(s);
      if g / 4 == f / 4 {
        EntryOfWithEntry(bytes[f / 4], f % 4, Bits(s), g % 4);
        assert g == f <==> g % 4 == f % 4;
      }
    }
  }

  // ---------------------------------------------------------------- specification

  /** `count` free frames from `f` on, all below `last`. */
  ghost predicate RunAt(st: seq<Status>, f: nat, count: nat, last: nat) {
    f + count <= last <= |st| && forall i :: f <= i < f + count ==> st[i] == Free
  }

  /** Naive search: try every start from `f` on. */
  ghost function FirstFit(st: seq<Status>, count: nat, f: nat, last: nat): Option<nat>
    decreases last - f
  {
    if f + count > last || f >= last then None
    else if RunAt(st, f, count, last) then Some(f)
    else FirstFit(st, count, f + 1, last)
  }

  /** The first frame from `f` on that is not free. */
  ghost function FirstTaken(st: seq<Status>, f: nat, last: nat): (r: nat)
    requires last <= |st|
    ensures f <= r && (r >= last || st[r] != Free) && forall i :: f <= i < r && i < last ==> st[i] == Free
    decreases last - f
  {
    if f >= last || st[f] != Free then f else FirstTaken(st, f + 1, last)
  }

  /** A request for no frames: the address of the frame behind the first one in use, or 0 if all
      are free or that address needs more than 32 bits. */
  ghost function PastTaken(st: seq<Status>, first: nat, last: nat): nat
    requires last <= |st|
  {
    var f := FirstTaken(st, first, last);
    if f < last then (f + 1) * FRAME_SIZE % 0x1_0000_0000 else 0
  }

  /** That address, of the first frame `f` that is not free, and the last frame of 4 GB. */
  lemma {:induction false} PastIsNext(st: seq<Status>, first: nat, last: nat, f: nat)
    requires first <= f < last <= |st| && last <= MAX_FRAMES && st[f] != Free
    requires forall i :: first <= i < f ==> st[i] == Free
    ensures PastTaken(st, first, last) == if f == 0xF_FFFF then 0 else f * FRAME_SIZE + FRAME_SIZE
  {
    assert FirstTaken(st, first, last) == f;
  }

  lemma {:induction false} PastNone(st: seq<Status>, first: nat, last: nat)
    requires last <= |st| && forall i :: first <= i < last ==> st[i] == Free
    ensures PastTaken(st, first, last) == 0
  {}

  /** A pass has come to `f` and seen `freeF` free frames in a row, too few. */
  ghost predicate Passing(st: seq<Status>, count: nat, first: nat, f: nat, freeF: nat, bound: nat) {
    && bound <= |st| && first <= f && freeF <= f - first && (f <= bound || f == first)
    && (forall i :: f - freeF <= i < f ==> st[i] == Free)
    && if count == 0 then freeF == f - first
       else freeF < count && FirstFit(st, count, first, bound) == FirstFit(st, count, f - freeF, bound)
  }

  lemma {:induction false} PassesOn(st: seq<Status>, count: nat, first: nat, f: nat, freeF: nat, bound: nat)
    requires Passing(st, count, first, f, freeF, bound) && f < bound
    ensures st[f] == Free && freeF + 1 != count ==> Passing(st, count, first, f + 1, freeF + 1, bound)
    ensures st[f] != Free && count > 0 ==> Passing(st, count, first, f + 1, 0, bound)
    ensures st[f] == Free && freeF + 1 == count ==> FirstFit(st, count, first, bound) == Some(f + 1 - count)
    ensures st[f] != Free && count == 0 ==> FirstTaken(st, first, bound) == f
  {
    if st[f] != Free {
      if count > 0 { SkipPast(st, count, f - freeF, f, bound); }
    } else if freeF + 1 == count {
      assert RunAt(st, f + 1 - count, count, bound);
    }
  }

  lemma {:induction false} PassEnds(st: seq<Status>, count: nat, first: nat, f: nat, freeF: nat, bound: nat)
    requires Passing(st, count, first, f, freeF, bound) && f >= bound
    ensures if count == 0 then PastTaken(st, first, bound) == 0 else FirstFit(st, count, first, bound).None?
  {}

  /** `st` with the frames of [f, f + count) set to `s`. */
  ghost function Marked(st: seq<Status>, f: nat, count: nat, s: Status): (r: seq<Status>)
    ensures |r| == |st|
    ensures forall i {:trigger r[i]} :: 0 <= i < |st| ==> r[i] == if f <= i < f + count then s else st[i]
  {
    seq(|st|, i requires 0 <= i < |st| => if f <= i < f + count then s else st[i])
  }

  /** `st` with the used frames of [f, last) set free. */
  ghost function Released(st: seq<Status>, f: nat, last: nat): (r: seq<Status>)
    ensures |r| == |st|
    ensures forall i {:trigger r[i]} :: 0 <= i < |st| ==>
              r[i] == if f <= i < last && st[i] == Used then Free else st[i]
  {
    seq(|st|, i requires 0 <= i < |st| => if f <= i < last && st[i] == Used then Free else st[i])
  }

  /** The upper bound of a request: 0 or too large stands for all of memory. */
  function Bound(last: nat, total: nat): nat {
    if last == 0 || last > total then total else last
  }

  /** `count` frames from `f` on may be handed out: all free, in memory, and below a bound other
      than 0. */
  ghost predicate Available(st: seq<Status>, total: nat, f: nat, count: nat, first: nat, last: nat) {
    && first <= f && f + count <= total <= |st| && (last != 0 ==> f + count <= last)
    && forall i :: f <= i < f + count ==> st[i] == Free
  }

  /** The search finds the least run that may be handed out, and fails only if there is none. */
  lemma {:induction false} FitIsLeast(st: seq<Status>, total: nat, count: nat, first: nat, last: nat)
    requires count >= 1 && total <= |st|
    ensures match FirstFit(st, count, first, Bound(last, total))
            case None => forall g :: !Available(st, total, g, count, first, last)
            case Some(f) => Available(st, total, f, count, first, last)
                            && forall g :: Available(st, total, g, count, first, last) ==> f <= g
  {
    FirstFitIsLeast(st, count, first, Bound(last, total));
    forall g | Available(st, total, g, count, first, last)
      ensures RunAt(st, g, count, Bound(last, total))
    {}
  }

  /** `FirstFit` is the least start of a run, and fails only when there is none. */
  lemma {:induction false} FirstFitIsLeast(st: seq<Status>, count: nat, f: nat, last: nat)
    requires count >= 1 && last <= |st|
    ensures forall g :: f <= g && RunAt(st, g, count, last) ==>
              FirstFit(st, count, f, last).Some? && FirstFit(st, count, f, last).value <= g
    ensures FirstFit(st, count, f, last).Some? ==>
              f <= FirstFit(st, count, f, last).value && RunAt(st, FirstFit(st, count, f, last).value, count, last)
    decreases last - f
  {
    if f + count > last {
    } else if !RunAt(st, f, count, last) {
      FirstFitIsLeast(st, count, f + 1, last);
      forall g | f <= g && RunAt(st, g, count, last)
        ensures f + 1 <= g
      {}
    }
  }

  /** Starts whose run would cover a frame in use can be skipped. */
  lemma {:induction false} SkipPast(st: seq<Status>, count: nat, g: nat, f: nat, last: nat)
    requires g <= f < last <= |st| && f < g + count && st[f] != Free
    ensures FirstFit(st, count, g, last) == FirstFit(st, count, f + 1, last)
    decreases f - g
  {
    assert !RunAt(st, g, count, last);
    if g < f {
      SkipPast(st, count, g + 1, f, last);
    }
  }

  /** Releasing the run that an allocation marked restores every frame. */
  lemma {:induction false} ReleaseUndoesAllocate(st: seq<Status>, count: nat, first: nat, last: nat)
    requires count >= 1 && last <= |st|
    requires FirstFit(st, count, first, last).Some?
    ensures var f := FirstFit(st, count, first, last).value;
            Released(Marked(st, f, count, Used), f, f + count) == st
  {
    FirstFitIsLeast(st, count, first, last);
  }

  // ---------------------------------------------------------------- the BIOS memory map

  // One entry of the map; type 1 is memory available to the system.
  datatype Region = Region(base: nat, size: nat, kind: nat)

  const AVAILABLE: nat := 1

  ghost function MaxAddr(map_: seq<Region>, n: nat): (m: nat)
    requires n <= |map_|
    ensures forall i :: 0 <= i < n ==> map_[i].base + map_[i].size <= m
    ensures m == 0 || exists i :: 0 <= i < n && map_[i].base + map_[i].size == m
  {
    if n == 0 then 0
    else
      var m := MaxAddr(map_, n - 1);
      if map_[n - 1].base + map_[n - 1].size > m then map_[n - 1].base + map_[n - 1].size else m
  }

  ghost predicate HoldsBitmap(r: Region, total: nat) {
    r.kind == AVAILABLE && r.base <= BITMAP_ADDR && BITMAP_ADDR + total * 2 <= r.base + r.size
  }

  /** A region withholds every frame it touches, and the one its end address falls in. */
  ghost predicate Withholds(r: Region, f: nat) {
    r.kind != AVAILABLE && r.base / FRAME_SIZE <= f <= (r.base + r.size) / FRAME_SIZE
  }

  ghost predicate WithheldBelow(map_: seq<Region>, n: nat, f: nat)
    requires n <= |map_|
  {
    exists i :: 0 <= i < n && Withholds(map_[i], f)
  }

  /** Last frame of the low memory that holds the kernel, its heap's bitmap included. */
  function LowLast(total: nat): nat {
    (BITMAP_ADDR + total / 4) / FRAME_SIZE
  }

  ghost predicate SetupReserves(map_: seq<Region>, total: nat, f: nat) {
    WithheldBelow(map_, |map_|, f) || f <= LowLast(total) || f == STACK_FRAME
  }

  /** A frame is withheld exactly if the region shares a byte with it, or ends where it starts. */
  lemma {:induction false} WithholdsIff(r: Region, f: nat)
    ensures Withholds(r, f) <==>
            r.kind != AVAILABLE && r.base < (f + 1) * FRAME_SIZE && f * FRAME_SIZE <= r.base + r.size
  {}

  /** The frame in which the entry of frame `f` lies. */
  function EntryFrame(f: nat): nat {
    (BITMAP_ADDR + f / 4) / FRAME_SIZE
  }

  /** The map protects itself: the frames that hold it are reserved. */
  lemma {:induction false} MapIsReserved(map_: seq<Region>, total: nat, f: nat)
    requires f < total
    ensures SetupReserves(map_, total, EntryFrame(f))
    ensures EntryFrame(f) * FRAME_SIZE <= BITMAP_ADDR + f / 4 < EntryFrame(f) * FRAME_SIZE + FRAME_SIZE
  {}

  lemma {:induction false} MapIsKept(map_: seq<Region>, total: nat, st: seq<Status>)
    requires USER_FIRST_FRAME <= total <= MAX_FRAMES && total <= |st|
    requires forall f :: 0 <= f < |st| ==> st[f] == if SetupReserves(map_, total, f) then Reserved else Free
    ensures forall f :: 0 <= f < total ==> EntryFrame(f) < |st| && st[EntryFrame(f)] == Reserved
  {
    forall f | 0 <= f < total
      ensures EntryFrame(f) < |st| && st[EntryFrame(f)] == Reserved
    {
      MapIsReserved(map_, total, f);
    }
  }

  /** The frame of the interrupt stack, the one under 3M, is reserved only by accident:
      exactly when the memory map withholds it. */
  lemma {:induction false} InterruptStackFrameReservedIff(map_: seq<Region>, total: nat)
    requires total <= MAX_FRAMES
    ensures SetupReserves(map_, total, USER_FIRST_FRAME - 1) <==>
            WithheldBelow(map_, |map_|, USER_FIRST_FRAME - 1)
  {
    assert total / 4 <= 0x4_0000;
    assert LowLast(total) <= 320;
  }

  // ---------------------------------------------------------------- the allocator

  class FrameMap {
    var bm: array<bv8>
    var total: nat
    // What the packed bytes stand for.
    ghost var states: seq<Status>

    /** The map covers memory, and frame 0 is never free: its address is the failure value. */
    ghost predicate Valid()
      reads this, bm
    {
      && Packed(bm[..], states)
      && 1 <= total <= MAX_FRAMES
      && total <= |states|
      && states[0] == Reserved
    }

    method SetEntry(frame: nat, s: Status)
      requires Packed(bm[..], states) && frame < |states|
      modifies bm, `states
      ensures Packed(bm[..], states)
      ensures states == old(states)[frame := s]
    {
      ghost var before := bm[..];
      bm[frame / 4] := WithEntry(bm[frame / 4], frame % 4, Bits(s));
      PackedWrite(before, states, frame, s);
      assert bm[..] == before[frame / 4 := WithEntry(before[frame / 4], frame % 4, Bits(s))];
      states := states[frame := s];
    }

    method GetEntry(frame: nat) returns (s: Status)
      requires Packed(bm[..], states) && frame < |states|
      ensures s == states[frame]
    {
      s := StatusOf(Entry(bm[frame / 4], frame % 4));
      assert s == StatusAt(bm[..], frame);
    }

    /** Marks the `count` frames ending at `f` as used. */
    method MarkRun(f: nat, count: nat)
      requires Packed(bm[..], states) && count <= f + 1 && f < |states|
      modifies bm, `states
      ensures Packed(bm[..], states)
      ensures states == Marked(old(states), f + 1 - count, count, Used)
    {
      var freeF := count;
      while freeF > 0
        invariant 0 <= freeF <= count
        invariant Packed(bm[..], states)
        invariant states == Marked(old(states), f + 1 - count, count - freeF, Used)
      {
        SetEntry(f - freeF + 1, Used);
        freeF := freeF - 1;
      }
    }

    /** Reserves the frames first..last, reading each one back. */
    method ReserveRange(first: nat, last: nat)
      requires Packed(bm[..], states) && last < |states|
      modifies bm, `states
      ensures Packed(bm[..], states)
      ensures states == Marked(old(states), first, if first <= last then last + 1 - first else 0, Reserved)
    {
      var f := first;
      while f <= last
        invariant first <= f && (f <= last + 1 || f == first)
        invariant Packed(bm[..], states)
        invariant states == Marked(old(states), first, f - first, Reserved)
      {
        SetEntry(f, Reserved);
        var s := GetEntry(f);
        if s != Reserved {
          assert false; // the read-back never differs
        }
        f := f + 1;
      }
    }

    /** Builds the frame map from the BIOS memory map.  Fails, before any frame is marked,
        when no available region holds the bitmap. */
    method Setup(map_: seq<Region>) returns (ok: bool)
      requires USER_FIRST_FRAME <= MaxAddr(map_, |map_|) / FRAME_SIZE <= MAX_FRAMES
      modifies this
      ensures total == MaxAddr(map_, |map_|) / FRAME_SIZE
      ensures ok <==> exists i :: 0 <= i < |map_| && HoldsBitmap(map_[i], total)
      ensures ok ==> Valid() && fresh(bm)
      ensures ok ==> forall f :: 0 <= f < |states| ==>
                       states[f] == if SetupReserves(map_, total, f) then Reserved else Free
      ensures ok ==> forall f :: 0 <= f < total ==> EntryFrame(f) < |states| && states[EntryFrame(f)] == Reserved
    {
      hide SetupReserves, EntryFrame;
      var maxAddr := 0;
      for k := 0 to |map_|
        invariant maxAddr == MaxAddr(map_, k)
      {
        if map_[k].base + map_[k].size > maxAddr {
          maxAddr := map_[k].base + map_[k].size;
        }
      }
      total := maxAddr / FRAME_SIZE;

      var e := 0;
      while e < |map_| && !(map_[e].kind == AVAILABLE && map_[e].base <= BITMAP_ADDR &&
                            map_[e].base + map_[e].size >= BITMAP_ADDR + total * 2)
        invariant 0 <= e <= |map_|
        invariant forall i :: 0 <= i < e ==> !HoldsBitmap(map_[i], total)
      {
        e := e + 1;
      }
      if e == |map_| {
        return false;
      }
      assert HoldsBitmap(map_[e], total);

      BuildMap(map_);
      MapIsKept(map_, total, states);
      ok := true;
    }

    /** Clears the map and reserves what the regions withhold, the frames up to the map's end, and
        the stack's, which both stack macros name. */
    method BuildMap(map_: seq<Region>)
      requires total == MaxAddr(map_, |map_|) / FRAME_SIZE && USER_FIRST_FRAME <= total <= MAX_FRAMES
      modifies `bm, `states
      ensures Valid() && fresh(bm)
      ensures forall f :: 0 <= f < |states| ==>
                states[f] == if SetupReserves(map_, total, f) then Reserved else Free
    {
      ClearBitmap();
      ReserveRegions(map_);
      ReserveRange(0, (BITMAP_ADDR + total / 4) / FRAME_SIZE);
      SetEntry(STACK_FRAME, Reserved);
      SetEntry(STACK_FRAME, Reserved);
    }

    method ClearBitmap()
      modifies `bm, `states
      ensures fresh(bm) && Packed(bm[..], states) && |states| == 8 * total
      ensures forall f :: 0 <= f < |states| ==> states[f] == Free
    {
      bm := new bv8[total * 2](_ => 0);
      states := seq(8 * total, _ => Free);
      forall f | 0 <= f < |states|
        ensures StatusAt(bm[..], f) == Free
      {
        assert bm[..][f / 4] == 0;
        EntryOfZero(f % 4);
      }
    }

    /** Reserves what the regions that are not available withhold. */
    method ReserveRegions(map_: seq<Region>)
      requires Packed(bm[..], states) && |states| == 8 * total && 1 <= total
      requires MaxAddr(map_, |map_|) / FRAME_SIZE <= total
      modifies bm, `states
      ensures Packed(bm[..], states) && |states| == old(|states|)
      ensures forall f :: 0 <= f < |states| ==>
                states[f] == if WithheldBelow(map_, |map_|, f) then Reserved else old(states)[f]
    {
      for k := 0 to |map_|
        invariant Packed(bm[..], states) && |states| == old(|states|)
        invariant forall f :: 0 <= f < |states| ==>
                    states[f] == if WithheldBelow(map_, k, f) then Reserved else old(states)[f]
      {
        if map_[k].kind != AVAILABLE {
          ReserveRange(map_[k].base / FRAME_SIZE, (map_[k].base + map_[k].size) / FRAME_SIZE);
        }
        assert forall f :: WithheldBelow(map_, k + 1, f) <==> WithheldBelow(map_, k, f) || Withholds(map_[k], f);
      }
    }

    /** One pass over [first, last), counting the free frames seen in a row.  The result is an
        address, 0 when no run exists; a request for no frames takes none, and its answer is the
        frame behind the first one in use. */
    method AllocateFrames(count: nat, first: nat, last: nat) returns (r: nat)
      requires Valid()
      modifies bm, `states
      ensures Valid()
      ensures count == 0 ==> states == old(states) && r == PastTaken(old(states), first, Bound(last, total))
      ensures count > 0 ==>
                match FirstFit(old(states), count, first, Bound(last, total))
                case None => r == 0 && states == old(states)
                case Some(f) => r == f * FRAME_SIZE && r > 0 && states == Marked(old(states), f, count, Used)
    {
      hide FirstFit, FirstTaken, RunAt;
      var bound := if last == 0 || last > total then total else last;
      r := 0;
      var freeF, f := 0, first;
      assert Passing(states, count, first, first, 0, bound);
      while f < bound
        invariant Valid() && states == old(states) && Passing(states, count, first, f, freeF, bound)
      {
        PassesOn(states, count, first, f, freeF, bound);
        var s := GetEntry(f);
        if s == Free {
          freeF := freeF + 1;
        } else {
          freeF := 0;
        }
        if freeF == count {
          if freeF > 0 {
            MarkRun(f, count);
          }
          r := (f - count + 1) * FRAME_SIZE % 0x1_0000_0000;
          return;
        }
        f := f + 1;
      }
      PassEnds(states, count, first, f, freeF, bound);
    }

    /** Frees the used frames among the `count` frames from the one holding `addr`. */
    method ReleaseFrames(addr: nat, count: nat)
      requires Valid()
      modifies bm, `states
      ensures Valid()
      ensures states == Released(old(states), addr / FRAME_SIZE, ReleaseEnd(addr / FRAME_SIZE, count, total))
    {
      var f := addr / FRAME_SIZE;
      if f >= total {
        return;
      }
      var last := (f + count) % 0x1_0000_0000;
      if last > total {
        last := total;
      }
      ghost var f0 := f;
      while f < last
        invariant f0 <= f && (f <= last || f == f0)
        invariant Packed(bm[..], states)
        invariant states == Released(old(states), f0, f)
      {
        var s := GetEntry(f);
        if s == Used {
          SetEntry(f, Free);
        }
        f := f + 1;
      }
    }
  }

  /** A release reaches the frames of its count that memory has, and none if the sum needs more
      than 32 bits. */
  lemma {:induction false} ReleaseReaches(f: nat, count: nat, total: nat, g: nat)
    requires f < 0x1_0000_0000 && count < 0x1_0000_0000
    ensures f <= g < ReleaseEnd(f, count, total) <==> f <= g < f + count < 0x1_0000_0000 && g < total
  {}

  /** First frame past a release request: a 32-bit sum, cut at the end of memory. */
  function ReleaseEnd(f: nat, count: nat, total: nat): nat {
    if f >= total then 0
    else if (f + count) % 0x1_0000_0000 > total then total
    else (f + count) % 0x1_0000_0000
  }
}
