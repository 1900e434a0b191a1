/** `kalloc` and `kfree` as the kernel runs them: one pass over a doubly linked list of
    block headers that are stored in the heap itself.  Each method is proved to do to the
    linked list what the function of the same name in HeapRuns does to the block sequence. */
module Heap {
  import opened Frames
  import opened HeapLayout
  import opened HeapRuns

  // A block header; pointers are unit indices and 0 is the null pointer.
  datatype Header = Header(next: nat, prev: nat, size: nat, flags: nat)

  const ENTRY_NULL: nat := 0
  const ENTRY_FREE: nat := 1
  const ENTRY_USED: nat := 2

  // Index standing for the static list head, which lies outside the heap.
  const HEAD: nat := 1

  ghost function NextOf(bs: seq<Block>, i: int): nat
    requires -1 <= i < |bs|
  {
    if i + 1 < |bs| then bs[i + 1].at else 0
  }

  ghost function PrevOf(bs: seq<Block>, i: nat): nat
    requires i < |bs|
  {
    if i == 0 then HEAD else bs[i - 1].at
  }

  ghost predicate Node(h: seq<Header>, bs: seq<Block>, i: nat)
    requires i < |bs|
  {
    && HEAD < bs[i].at < |h|
    && h[bs[i].at] == Header(NextOf(bs, i), PrevOf(bs, i), bs[i].size, if bs[i].free then ENTRY_FREE else ENTRY_USED)
  }

  /** The headers form a doubly linked list of exactly the blocks `bs`, in order. */
  ghost predicate Linked(h: seq<Header>, bs: seq<Block>) {
    && HEAD < |h| && h[HEAD] == Header(NextOf(bs, -1), 0, 0, ENTRY_NULL)
    && forall i :: 0 <= i < |bs| ==> Node(h, bs, i)
  }

  /** The blocks of a well-shaped heap lie inside the kernel range and are linked. */
  ghost predicate Shaped(h: seq<Header>, bs: seq<Block>, lo: nat, top: nat) {
    ShapedParts(h, bs, lo, top) == true
  }

  ghost predicate ShapedParts(h: seq<Header>, bs: seq<Block>, lo: nat, top: nat) {
    Linked(h, bs) && Tiled(bs, lo, top) && HEAD < lo && top <= |h|
  }

  // ---------------------------------------------------------------- list surgery on header contents

  ghost function SetPrev(h: seq<Header>, at: nat, p: nat): seq<Header> {
    if 0 < at < |h| then h[at := h[at].(prev := p)] else h
  }

  /** Headers after block `k` has been cut in two. */
  ghost function SplitHeaders(h: seq<Header>, at: nat, n: nat, units: nat): seq<Header>
    requires at < |h| && n < |h| && h[at].size >= units + 1
  {
    var e := h[at];
    SetPrev(h[n := Header(e.next, at, e.size - units - 1, ENTRY_FREE)], e.next, n)
      [at := Header(n, e.prev, units, ENTRY_USED)]
  }

  lemma {:induction false} SplitLinked(h: seq<Header>, bs: seq<Block>, lo: nat, top: nat, k: nat, units: nat)
    requires Shaped(h, bs, lo, top) && k < |bs| && bs[k].free && bs[k].size > units + 1
    ensures bs[k].at + units + 1 < |h| && h[bs[k].at].size == bs[k].size
    ensures Linked(SplitHeaders(h, bs[k].at, bs[k].at + units + 1, units), TakeAt(bs, k, units))
  {
    hide Tiled, SplitHeaders, Splice;
    SplitHasRoom(h, bs, lo, top, k, units);
    var r := TakeAt(bs, k, units);
    SpliceAt(bs, k, 1, TakeParts(bs[k], units), 0);
    var g := SplitHeaders(h, bs[k].at, bs[k].at + units + 1, units);
    forall i | 0 <= i < |r|
      ensures Node(g, r, i)
    {
      SplitNode(h, bs, lo, top, k, units, i);
    }
  }

  lemma {:induction false} SplitHasRoom(h: seq<Header>, bs: seq<Block>, lo: nat, top: nat, k: nat, units: nat)
    requires Shaped(h, bs, lo, top) && k < |bs| && bs[k].free && bs[k].size > units + 1
    ensures Node(h, bs, k) && bs[k].at + units + 1 < |h| && h[bs[k].at].size == bs[k].size
    ensures var g := SplitHeaders(h, bs[k].at, bs[k].at + units + 1, units);
            |g| == |h| && g[HEAD] == h[HEAD] && bs[0].at == NextOf(TakeAt(bs, k, units), -1)
  {
    hide Tiled, Splice;
    assert Node(h, bs, k);
    Inside(bs, lo, top, k);
    if k + 1 < |bs| { Inside(bs, lo, top, k + 1); }
    SpliceAt(bs, k, 1, TakeParts(bs[k], units), 0);
  }

  lemma {:induction false} SplitNode(h: seq<Header>, bs: seq<Block>, lo: nat, top: nat, k: nat, units: nat, i: nat)
    requires Shaped(h, bs, lo, top) && k < |bs| && bs[k].free && bs[k].size > units + 1 && i <= |bs|
    requires Node(h, bs, k) && bs[k].at + units + 1 < |h|
    ensures |TakeAt(bs, k, units)| == |bs| + 1
    ensures Node(SplitHeaders(h, bs[k].at, bs[k].at + units + 1, units), TakeAt(bs, k, units), i)
  {
    hide Tiled, Splice;
    var part := TakeParts(bs[k], units);
    Inside(bs, lo, top, k);
    SpliceAt(bs, k, 1, part, i);
    if i > 0 { SpliceAt(bs, k, 1, part, i - 1); }
    if i < |bs| { SpliceAt(bs, k, 1, part, i + 1); }
    if i < k {
      SplitSpares(h, bs, lo, top, k, units, i);
    } else if i > k + 1 {
      SplitSpares(h, bs, lo, top, k, units, i - 1);
    } else if k + 1 < |bs| {
      Ordered(bs, lo, top, k, k + 1);
    }
  }

  /** The header of another block is as before, but that the one behind is linked to the new block. */
  lemma {:induction false} SplitSpares(h: seq<Header>, bs: seq<Block>, lo: nat, top: nat, k: nat, units: nat, i: nat)
    requires Shaped(h, bs, lo, top) && k < |bs| && bs[k].free && bs[k].size > units + 1 && i < |bs| && i != k
    requires Node(h, bs, k) && bs[k].at + units + 1 < |h|
    ensures var n := bs[k].at + units + 1;
            && Node(h, bs, i) && |SplitHeaders(h, bs[k].at, n, units)| == |h|
            && SplitHeaders(h, bs[k].at, n, units)[bs[i].at] ==
               if i == k + 1 then h[bs[i].at].(prev := n) else h[bs[i].at]
  {
    hide Tiled;
    Inside(bs, lo, top, k);
    assert Node(h, bs, i);
    if i < k {
      Ordered(bs, lo, top, i, k);
      if k + 1 < |bs| { Ordered(bs, lo, top, i, k + 1); }
    } else {
      Ordered(bs, lo, top, k, i);
      if i > k + 1 { Ordered(bs, lo, top, k + 1, i); }
    }
  }

  lemma {:induction false} TakeWholeLinked(h: seq<Header>, bs: seq<Block>, lo: nat, top: nat, k: nat, units: nat)
    requires Shaped(h, bs, lo, top) && k < |bs| && bs[k].free && units <= bs[k].size <= units + 1
    ensures bs[k].at < |h| && Linked(h[bs[k].at := h[bs[k].at].(flags := ENTRY_USED)], TakeAt(bs, k, units))
  {
    assert Node(h, bs, k);
    var g := h[bs[k].at := h[bs[k].at].(flags := ENTRY_USED)];
    var part := TakeParts(bs[k], units);
    var r := TakeAt(bs, k, units);
    forall i | 0 <= i < |r|
      ensures Node(g, r, i)
    {
      SpliceAt(bs, k, 1, part, i);
      if i > 0 { SpliceAt(bs, k, 1, part, i - 1); }
      if i + 1 < |r| { SpliceAt(bs, k, 1, part, i + 1); }
      assert Node(h, bs, i);
      if bs[i].at == bs[k].at { SameAddress(bs, lo, top, i, k); }
    }
    SpliceAt(bs, k, 1, part, 0);
  }

  /** Linking a new block behind the last one. */
  lemma {:induction false} AppendLinked(h: seq<Header>, bs: seq<Block>, lo: nat, top: nat, b: Block, last: nat)
    requires Shaped(h, bs, lo, top) && b.at >= top && HEAD < b.at < |h| && b.free
    requires last == if bs == [] then HEAD else bs[|bs| - 1].at
    ensures last < |h|
    ensures Linked(h[last := h[last].(next := b.at)][b.at := Header(0, last, b.size, ENTRY_FREE)], bs + [b])
  {
    var n := |bs|;
    if n > 0 { assert Node(h, bs, n - 1); Inside(bs, lo, top, n - 1); }
    var g := h[last := h[last].(next := b.at)][b.at := Header(0, last, b.size, ENTRY_FREE)];
    var r := bs + [b];
    forall i | 0 <= i < |r|
      ensures Node(g, r, i)
    {
      if i < n {
        assert Node(h, bs, i);
        Inside(bs, lo, top, i);
        if i < n - 1 { Ordered(bs, lo, top, i, n - 1); }
      }
    }
  }

  /** Headers after the block at `at` has swallowed its successor, which is free too. */
  ghost function JoinHeaders(h: seq<Header>, at: nat): seq<Header>
    requires at < |h| && h[at].next < |h|
  {
    var f := h[h[at].next];
    SetPrev(h[at := h[at].(size := h[at].size + f.size + 1, next := f.next)], f.next, at)
  }

  lemma {:induction false} JoinLinked(h: seq<Header>, bs: seq<Block>, lo: nat, top: nat, i: nat)
    requires Shaped(h, bs, lo, top) && i + 1 < |bs| && bs[i].free
    ensures bs[i].at < |h| && h[bs[i].at].next < |h|
    ensures Linked(JoinHeaders(h, bs[i].at), Splice(bs, i, 2, [Block(bs[i].at, bs[i].size + bs[i + 1].size + 1, true)]))
  {
    hide Tiled, JoinHeaders, Splice;
    JoinHasRoom(h, bs, lo, top, i);
    var g := JoinHeaders(h, bs[i].at);
    var part := [Block(bs[i].at, bs[i].size + bs[i + 1].size + 1, true)];
    var r := Splice(bs, i, 2, part);
    SpliceAt(bs, i, 2, part, 0);
    forall j | 0 <= j < |r|
      ensures Node(g, r, j)
    {
      JoinNode(h, bs, lo, top, i, j);
    }
  }

  lemma {:induction false} JoinHasRoom(h: seq<Header>, bs: seq<Block>, lo: nat, top: nat, i: nat)
    requires Shaped(h, bs, lo, top) && i + 1 < |bs| && bs[i].free
    ensures Node(h, bs, i) && Node(h, bs, i + 1)
    ensures var g := JoinHeaders(h, bs[i].at);
            && |g| == |h| && g[HEAD] == h[HEAD]
            && bs[0].at == NextOf(Splice(bs, i, 2, [Block(bs[i].at, bs[i].size + bs[i + 1].size + 1, true)]), -1)
  {
    hide Tiled, Splice;
    assert Node(h, bs, i) && Node(h, bs, i + 1);
    Inside(bs, lo, top, i);
    if i + 2 < |bs| { Inside(bs, lo, top, i + 2); }
    SpliceAt(bs, i, 2, [Block(bs[i].at, bs[i].size + bs[i + 1].size + 1, true)], 0);
  }

  lemma {:induction false} JoinNode(h: seq<Header>, bs: seq<Block>, lo: nat, top: nat, i: nat, j: nat)
    requires Shaped(h, bs, lo, top) && i + 1 < |bs| && bs[i].free && j < |bs| - 1 && Node(h, bs, i)
             && Node(h, bs, i + 1)
    ensures var r := Splice(bs, i, 2, [Block(bs[i].at, bs[i].size + bs[i + 1].size + 1, true)]);
            |r| == |bs| - 1 && Node(JoinHeaders(h, bs[i].at), r, j)
  {
    hide Tiled, Splice;
    var part := [Block(bs[i].at, bs[i].size + bs[i + 1].size + 1, true)];
    if i + 2 < |bs| {
      assert Node(h, bs, i + 2);
      Ordered(bs, lo, top, i, i + 2);
    }
    SpliceAt(bs, i, 2, part, j);
    if j > 0 { SpliceAt(bs, i, 2, part, j - 1); }
    if j + 2 < |bs| { SpliceAt(bs, i, 2, part, j + 1); }
    if j < i {
      assert Node(h, bs, j);
      Ordered(bs, lo, top, j, i);
      if i + 2 < |bs| { Ordered(bs, lo, top, j, i + 2); }
    } else if j > i {
      assert Node(h, bs, j + 1);
      Ordered(bs, lo, top, i, j + 1);
      if j > i + 1 { Ordered(bs, lo, top, i + 2, j + 1); }
    }
  }

  lemma {:induction false} MarkFreeLinked(h: seq<Header>, bs: seq<Block>, lo: nat, top: nat, i: nat)
    requires Shaped(h, bs, lo, top) && i < |bs|
    ensures bs[i].at < |h|
    ensures Linked(h[bs[i].at := h[bs[i].at].(flags := ENTRY_FREE)], bs[i := bs[i].(free := true)])
  {
    assert Node(h, bs, i);
    var g := h[bs[i].at := h[bs[i].at].(flags := ENTRY_FREE)];
    var r := bs[i := bs[i].(free := true)];
    forall j | 0 <= j < |r|
      ensures Node(g, r, j)
    {
      assert Node(h, bs, j);
      if bs[i].at == bs[j].at { SameAddress(bs, lo, top, i, j); }
    }
  }

  // ---------------------------------------------------------------- the allocator

  class KernelHeap {
    const frames: FrameMap
    // One cell per 16-byte unit of memory below the user space; those that are not
    // headers hold whatever their owners put there.
    const hdr: array<Header>
    ghost var blocks: seq<Block>
    ghost var lo: nat
    ghost var top: nat
    // First frame past the free frames of the kernel range.
    ghost const limit: nat

    ghost function State(): HeapState
      reads this, frames
    {
      HeapState(blocks, lo, top, frames.states, frames.total)
    }

    ghost predicate Formed()
      reads this, hdr, frames, frames.bm
    {
      && frames.Valid() && (hdr as object) != frames.bm
      && hdr.Length == END_UNIT
      && FIRST_UNIT <= lo && top <= END_UNIT
      && Shaped(hdr[..], blocks, lo, top)
    }

    ghost predicate Valid()
      reads this, hdr, frames, frames.bm
    {
      Formed() && Inv(State(), limit)
    }

    /** An empty heap over a frame map whose free kernel frames are [start, limit). */
    constructor Init(frames: FrameMap, ghost start: nat, ghost limit: nat)
      requires frames.Valid() && USER_FIRST_FRAME <= frames.total
      requires KERNEL_FIRST_FRAME <= start <= limit <= USER_FIRST_FRAME
      requires FreeFrom(frames.states, start, limit)
      ensures Valid() && this.frames == frames && this.limit == limit
      ensures blocks == [] && lo == start * UNITS_PER_FRAME && fresh(hdr)
    {
      this.frames := frames;
      hdr := new Header[END_UNIT](_ => Header(0, 0, 0, ENTRY_NULL));
      blocks, lo, top := [], start * UNITS_PER_FRAME, start * UNITS_PER_FRAME;
      this.limit := limit;
    }

    /** Hands out free block `k`, whose header is at `e`, cutting off what is not needed. */
    method Take(e: nat, units: nat, ghost k: nat) returns (ptr: nat)
      requires Formed() && k < |blocks| && blocks[k].free && blocks[k].size >= units && e == blocks[k].at
      modifies hdr, `blocks
      ensures Linked(hdr[..], blocks) && blocks == TakeAt(old(blocks), k, units)
      ensures ptr == e + 1
    {
      assert Node(hdr[..], blocks, k);
      ghost var h := hdr[..];
      if hdr[e].size == units || hdr[e].size == units + 1 {
        TakeWholeLinked(h, blocks, lo, top, k, units);
        hdr[e] := hdr[e].(flags := ENTRY_USED);
        assert hdr[..] == h[e := h[e].(flags := ENTRY_USED)];
        blocks := TakeAt(blocks, k, units);
        return e + 1;
      }
      SplitLinked(h, blocks, lo, top, k, units);
      if k + 1 < |blocks| {
        assert Node(h, blocks, k + 1);
        Ordered(blocks, lo, top, k, k + 1);
      }
      var n := e + units + 1;
      hdr[n] := Header(hdr[e].next, hdr[n].prev, hdr[e].size - units - 1, ENTRY_FREE);
      if hdr[n].next != 0 {
        hdr[hdr[n].next] := hdr[hdr[n].next].(prev := n);
      }
      hdr[n] := hdr[n].(prev := e);
      hdr[e] := Header(n, hdr[e].prev, units, ENTRY_USED);
      assert hdr[..] == SplitHeaders(h, e, n, units);
      blocks := TakeAt(blocks, k, units);
      return e + 1;
    }

    /** As `Take`, when the blocks left make a valid heap. */
    method HandOut(e: nat, units: nat, ghost k: nat) returns (ptr: nat)
      requires Formed() && k < |blocks| && blocks[k].free && blocks[k].size >= units && e == blocks[k].at
      requires Inv(State().(blocks := TakeAt(blocks, k, units)), limit)
      modifies hdr, `blocks
      ensures Valid() && State() == old(State()).(blocks := TakeAt(old(blocks), k, units))
      ensures ptr == e + 1
    {
      ptr := Take(e, units, k);
    }

    /** Links the chunk at unit `n` behind the last header, which is at `e`. */
    method Append(e: nat, n: nat, count: nat)
      requires Formed() && count >= 1 && n == top && (n + count * UNITS_PER_FRAME) <= END_UNIT && n >= lo
      requires e == At(|blocks| - 1)
      modifies hdr, `blocks, `top
      ensures Formed()
      ensures blocks == old(blocks) + [Block(n, count * UNITS_PER_FRAME - 1, true)]
      ensures top == n + count * UNITS_PER_FRAME
    {
      ghost var h := hdr[..];
      ghost var b := Block(n, count * UNITS_PER_FRAME - 1, true);
      AppendLinked(h, blocks, lo, top, b, e);
      hdr[e] := hdr[e].(next := n);
      hdr[n] := Header(0, e, count * FRAME_SIZE / UNIT - 1, ENTRY_FREE);
      assert hdr[..] == h[e := h[e].(next := n)][n := Header(0, e, b.size, ENTRY_FREE)];
      AppendTiled(blocks, lo, top, b);
      blocks := blocks + [b];
      top := n + count * UNITS_PER_FRAME;
    }

    /** Asks for the frames of a chunk with room for `units` units; 0 when there are none. */
    method Obtain(units: nat, ghost bytes: nat) returns (count: nat, n: nat)
      requires Valid() && bytes <= MAX_REQUEST && units == UnitsFor(bytes)
      modifies frames`states, frames.bm
      ensures frames.Valid() && count == FramesFor(units) >= 1
      ensures n == if ChunkAt(old(State()), units).Some? then top * UNIT else 0
      ensures ChunkAt(old(State()), units).Some? ==>
                && ChunkAt(old(State()), units) == Some(top / UNITS_PER_FRAME)
                && top + count * UNITS_PER_FRAME <= END_UNIT
                && frames.states == Marked(old(frames.states), top / UNITS_PER_FRAME, count, Used)
      ensures ChunkAt(old(State()), units).None? ==> frames.states == old(frames.states)
    {
      NewChunkFits(bytes);
      ChunkIsNext(State(), limit, FramesFor(units));
      count := (units + 1) * UNIT % 0x1_0000_0000 / FRAME_SIZE;
      if (units + 1) * UNIT % 0x1_0000_0000 % FRAME_SIZE > 0 {
        count := count + 1;
      }
      n := frames.AllocateFrames(count, KERNEL_FIRST_FRAME, USER_FIRST_FRAME);
    }

    /** Obtains a chunk of frames for `units` units and links it behind the last header. */
    method Grow(e: nat, units: nat, ghost bytes: nat) returns (ok: bool)
      requires Valid() && bytes <= MAX_REQUEST && units == UnitsFor(bytes)
      requires e == At(|blocks| - 1)
      modifies this, hdr, frames`states, frames.bm
      ensures Formed() && ok == ChunkAt(old(State()), units).Some?
      ensures !ok ==> Valid() && State() == old(State())
      ensures ok ==> FramesFor(units) >= 1 && ChunkAt(old(State()), units) == Some(old(top) / UNITS_PER_FRAME)
                     && State() == Grown(old(State()), old(top) / UNITS_PER_FRAME, FramesFor(units))
    {
      var count, n := Obtain(units, bytes);
      if n == 0 {
        return false;
      }
      Append(e, n / UNIT, count);
      ok := true;
    }

    /** What the header of block `i` says; the list head stands for block -1. */
    lemma {:induction false} Headers(e: nat, i: int)
      requires Formed() && -1 <= i < |blocks| && e == At(i)
      ensures e < hdr.Length && hdr[e].next == NextOf(blocks, i)
      ensures hdr[e].next != 0 <==> i + 1 < |blocks|
      ensures hdr[e].flags == ENTRY_FREE <==> i >= 0 && blocks[i].free
      ensures i >= 0 ==> hdr[e].size == blocks[i].size
    {
      if i >= 0 { assert Node(hdr[..], blocks, i); }
      if i + 1 < |blocks| { assert Node(hdr[..], blocks, i + 1); }
    }

    ghost function At(i: int): nat
      requires -1 <= i < |blocks|
      reads this
    {
      if i == -1 then HEAD else blocks[i].at
    }

    /** Walks the list to the first free block of at least `units` units.  At the end of the
        list a chunk of frames is obtained, once. */
    method Search(units: nat, ghost bytes: nat) returns (ok: bool, e: nat, ghost i: int, ghost grown: bool)
      requires Valid() && bytes <= MAX_REQUEST && units == UnitsFor(bytes)
      modifies this, hdr, frames`states, frames.bm
      ensures !ok ==> Valid() && State() == old(State()) && ChunkAt(State(), units).None?
      ensures !ok ==> FirstHole(blocks, units, 0) == |blocks|
      ensures ok ==> Formed() && 0 <= i < |blocks| && e == blocks[i].at && blocks[i].free && blocks[i].size >= units
      ensures ok ==> Searched(old(State()), State(), units, i, grown)
    {
      hide Linked, Tiled, Node, Abuts, FirstFit, RunAt, Inv;
      ghost var s := State();
      e, i, grown, ok := HEAD, -1, false, true;
      Headers(e, i);
      while !(hdr[e].flags == ENTRY_FREE && hdr[e].size >= units)
        invariant Formed() && -1 <= i < |blocks| && e == At(i) && e < hdr.Length
        invariant !grown ==> Valid()
        invariant Searched(s, State(), units, i, grown)
        decreases !grown, |blocks| - i
      {
        Headers(e, i);
        if hdr[e].next == 0 {
          NoHole(s, units, i, grown);
          ok := Grow(e, units, bytes);
          if !ok {
            return;
          }
          grown := true;
          Headers(e, i);
        }
        e := hdr[e].next;
        i := i + 1;
        Headers(e, i);
      }
      Headers(e, i);
    }

    method Kalloc(bytes: nat) returns (ptr: nat)
      requires Valid() && bytes <= MAX_REQUEST
      modifies this, hdr, frames`states, frames.bm
      ensures Valid()
      ensures Answer(State(), ptr) == HeapRuns.Kalloc(old(State()), bytes)
    {
      hide Searched, TakeAt, Linked, Tiled, Inv;
      var units := bytes / UNIT;
      if bytes % UNIT > 0 {
        units := units + 1;
      }
      ghost var s := State();
      var ok, e, i, grown := Search(units, bytes);
      if !ok {
        return 0;
      }
      TakenIsKalloc(s, limit, bytes, State(), i, grown);
      ptr := HandOut(e, units, i);
    }

    /** The entry before the one whose payload is at `ptr`, or the last one. */
    method FindBefore(ptr: nat) returns (e: nat, ghost i: int)
      requires Valid()
      ensures -1 <= i < |blocks| && e == At(i) && e < hdr.Length && (hdr[e].next == 0 <==> i + 1 == |blocks|)
      ensures forall j :: 0 <= j <= i ==> blocks[j].Payload() != ptr
      ensures i + 1 < |blocks| ==> blocks[i + 1].Payload() == ptr && hdr[e].next == blocks[i + 1].at
    {
      e, i := HEAD, -1;
      Headers(e, i);
      while hdr[e].next != 0 && hdr[e].next + 1 != ptr
        invariant -1 <= i < |blocks| && e == At(i) && e < hdr.Length
        invariant forall j :: 0 <= j <= i ==> blocks[j].Payload() != ptr
        decreases |blocks| - i
      {
        Headers(e, i);
        e := hdr[e].next;
        i := i + 1;
        Headers(e, i);
      }
      Headers(e, i);
    }

    /** Frees the block whose payload is at `ptr`, found through its predecessor's link. */
    method Kfree(ptr: nat)
      requires Valid()
      modifies `blocks, hdr
      ensures Valid()
      ensures State() == HeapRuns.Kfree(old(State()), ptr)
    {
      hide Linked, Tiled, FreeAt, FirstFit, Splice;
      if ptr == 0 {
        return;
      }
      var e;
      ghost var i;
      e, i := FindBefore(ptr);
      ghost var s := State();
      KfreeOne(s, limit, ptr, i + 1);
      if hdr[e].next == 0 {
        return;
      }
      Headers(blocks[i + 1].at, i + 1);
      if hdr[hdr[e].next].flags == ENTRY_FREE {
        return;
      }
      Release(e, hdr[e].next, i + 1);
      assert State() == s.(blocks := FreeAt(s.blocks, i + 1));
    }

    /** Frees block `i`, at `f`, joining it with its successor and then its predecessor `e`. */
    method Release(e: nat, f: nat, ghost i: nat)
      requires Formed() && i < |blocks| && !blocks[i].free && f == blocks[i].at && e == PrevOf(blocks, i)
      modifies hdr, `blocks
      ensures Formed() && blocks == FreeAt(old(blocks), i)
    {
      ReleaseNext(f, i);
      assert e == PrevOf(blocks, i);
      assert Node(hdr[..], blocks, i);
      if i > 0 { assert Node(hdr[..], blocks, i - 1); }
      if hdr[e].flags == ENTRY_FREE {
        Join(e, i - 1);
      }
    }

    method ReleaseNext(f: nat, ghost i: nat)
      requires Formed() && i < |blocks| && !blocks[i].free && f == blocks[i].at
      modifies hdr, `blocks
      ensures Formed() && blocks == JoinNext(old(blocks), i)
      ensures PrevOf(blocks, i) == PrevOf(old(blocks), i)
    {
      ghost var h, bs := hdr[..], blocks;
      JoinNextCorrect(blocks, lo, top, i);
      MarkFreeLinked(h, blocks, lo, top, i);
      MarkFreeTiled(blocks, lo, top, i);
      hdr[f] := hdr[f].(flags := ENTRY_FREE);
      assert hdr[..] == h[f := h[f].(flags := ENTRY_FREE)];
      blocks := blocks[i := blocks[i].(free := true)];
      assert Node(hdr[..], blocks, i);
      if i + 1 < |blocks| { assert Node(hdr[..], blocks, i + 1); }
      if hdr[f].next != 0 && hdr[hdr[f].next].flags == ENTRY_FREE {
        Join(f, i);
        assert blocks == JoinNext(bs, i);
      } else {
        assert blocks == JoinNext(bs, i);
      }
    }

    /** The free block `i`, at `e`, swallows its successor. */
    method Join(e: nat, ghost i: nat)
      requires Formed() && i + 1 < |blocks| && blocks[i].free && e == blocks[i].at
      modifies hdr, `blocks
      ensures Formed()
      ensures blocks == Splice(old(blocks), i, 2, [Block(e, old(blocks)[i].size + old(blocks)[i + 1].size + 1, true)])
    {
      ghost var h := hdr[..];
      assert Node(h, blocks, i) && Node(h, blocks, i + 1);
      JoinLinked(h, blocks, lo, top, i);
      ghost var part := [Block(e, blocks[i].size + blocks[i + 1].size + 1, true)];
      assert Abuts(blocks, i + 1);
      SpliceTiled(blocks, lo, top, i, 2, part);
      var f := hdr[e].next;
      hdr[e] := hdr[e].(size := hdr[e].size + hdr[f].size + 1, next := hdr[f].next);
      if hdr[e].next != 0 {
        if i + 2 < |blocks| { assert Node(h, blocks, i + 2); }
        hdr[hdr[e].next] := hdr[hdr[e].next].(prev := e);
      }
      assert hdr[..] == JoinHeaders(h, e);
      blocks := Splice(blocks, i, 2, part);
    }

    /** The owner of a live block may store anything in its payload: no header is there. */
    method StorePayload(at: nat, value: Header, ghost b: Block)
      requires Valid() && b in Live(blocks) && b.Payload() <= at < b.End() && at < hdr.Length
      modifies hdr
      ensures Valid() && hdr[at] == value
      ensures forall u :: 0 <= u < hdr.Length && u != at ==> hdr[u] == old(hdr[u])
    {
      ghost var h := hdr[..];
      ghost var k :| 0 <= k < |blocks| && blocks[k] == b;
      Inside(blocks, lo, top, k);
      hdr[at] := value;
      assert hdr[..] == h[at := value];
      forall i | 0 <= i < |blocks|
        ensures Node(hdr[..], blocks, i)
      {
        assert Node(h, blocks, i);
        if i < k { Ordered(blocks, lo, top, i, k); } else if k < i { Ordered(blocks, lo, top, k, i); }
      }
    }
  }

  /** Memory start-up: the frame map is built, the frame under the user space is taken for
      the stack, and the heap is empty.  On a machine without withheld frames between the
      bitmap and 3M this either fails for lack of room for the bitmap or leaves a valid heap. */
  method StartUp(memory: FrameMap, map_: seq<Region>) returns (heap: KernelHeap?)
    requires USER_FIRST_FRAME <= MaxAddr(map_, |map_|) / FRAME_SIZE <= MAX_FRAMES
    requires forall f :: LowLast(MaxAddr(map_, |map_|) / FRAME_SIZE) < f < USER_FIRST_FRAME ==>
               !WithheldBelow(map_, |map_|, f)
    modifies memory
    ensures heap == null <==>
              !exists i :: 0 <= i < |map_| && HoldsBitmap(map_[i], MaxAddr(map_, |map_|) / FRAME_SIZE)
    ensures heap != null ==> heap.frames == memory && heap.Valid() && heap.blocks == [] && heap.limit == STACK_FRAME
    ensures heap != null ==> forall f :: 0 <= f < memory.total ==> EntryFrame(f) < heap.lo / UNITS_PER_FRAME
    ensures heap != null ==> memory.states[STACK_FRAME] == Reserved && memory.states[USER_FIRST_FRAME - 1] == Used
  {
    var ok := memory.Setup(map_);
    if !ok {
      return null;
    }
    ghost var before := memory.states;
    FirstFitIsLeast(before, 1, STACK_FRAME, USER_FIRST_FRAME);
    InterruptStackFrameReservedIff(map_, memory.total);
    assert before[STACK_FRAME] == Reserved && before[USER_FIRST_FRAME - 1] == Free;
    assert RunAt(before, USER_FIRST_FRAME - 1, 1, USER_FIRST_FRAME);
    var stack := memory.AllocateFrames(1, STACK_FRAME, USER_FIRST_FRAME);
    assert stack == (USER_FIRST_FRAME - 1) * FRAME_SIZE;
    heap := new KernelHeap.Init(memory, LowLast(memory.total) + 1, STACK_FRAME);
  }

  /** What is known while the list is searched: nothing before index `i` fits, and the
      heap has grown by one chunk, now at index `i`, or not at all. */
  ghost predicate Searched(s: HeapState, g: HeapState, units: nat, i: int, grown: bool) {
    && (forall j :: 0 <= j < i && j < |s.blocks| ==> !(s.blocks[j].free && s.blocks[j].size >= units))
    && (!grown ==> g == s)
    && (grown ==> FramesFor(units) >= 1 && ChunkAt(s, units) == Some(s.top / UNITS_PER_FRAME)
                  && g == Grown(s, s.top / UNITS_PER_FRAME, FramesFor(units)) && i == |s.blocks|)
  }

  lemma {:induction false} TakenIsKalloc(s: HeapState, limit: nat, bytes: nat, g: HeapState, i: nat, grown: bool)
    requires Inv(s, limit) && bytes <= MAX_REQUEST && Searched(s, g, UnitsFor(bytes), i, grown)
    requires i < |g.blocks| && g.blocks[i].free && g.blocks[i].size >= UnitsFor(bytes)
    ensures HeapRuns.Kalloc(s, bytes) ==
            Answer(g.(blocks := TakeAt(g.blocks, i, UnitsFor(bytes))), g.blocks[i].at + 1)
    ensures Inv(g.(blocks := TakeAt(g.blocks, i, UnitsFor(bytes))), limit)
  {
    KallocCorrect(s, limit, bytes);
    assert s.top / UNITS_PER_FRAME * UNITS_PER_FRAME == s.top;
  }

  lemma {:induction false} NoHole(s: HeapState, units: nat, i: int, grown: bool)
    requires Searched(s, s, units, i, grown) && !grown
    requires i == |s.blocks| - 1 && (i >= 0 ==> !(s.blocks[i].free && s.blocks[i].size >= units))
    ensures FirstHole(s.blocks, units, 0) == |s.blocks|
  {}

  lemma {:induction false} MarkFreeTiled(bs: seq<Block>, lo: nat, top: nat, i: nat)
    requires Tiled(bs, lo, top) && i < |bs|
    ensures Tiled(bs[i := bs[i].(free := true)], lo, top)
  {
    var r := bs[i := bs[i].(free := true)];
    forall j | 0 < j < |r|
      ensures Abuts(r, j)
    {
      assert Abuts(bs, j);
    }
  }

  lemma {:induction false} AppendTiled(bs: seq<Block>, lo: nat, top: nat, b: Block)
    requires Tiled(bs, lo, top) && b.at == top
    ensures Tiled(bs + [b], lo, b.End())
  {
    var r := bs + [b];
    forall i | 0 < i < |r|
      ensures Abuts(r, i)
    {
      if i < |bs| { assert Abuts(bs, i); }
    }
  }
}
