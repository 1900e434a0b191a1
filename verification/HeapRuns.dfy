/** The kernel heap over the frame allocator, as a state and its two operations, and what
    every run of `kalloc` and `kfree` keeps. */
module HeapRuns {
  import opened Frames
  import opened HeapLayout

  const FIRST_UNIT: nat := KERNEL_FIRST_FRAME * UNITS_PER_FRAME
  const END_UNIT: nat := USER_FIRST_FRAME * UNITS_PER_FRAME

  // Largest request whose size, header included, does not wrap in 32 bits.
  const MAX_REQUEST: nat := 0xFFFF_FFE0

  function UnitsFor(bytes: nat): nat {
    bytes / UNIT + if bytes % UNIT > 0 then 1 else 0
  }

  /** Frames requested to make room for `units` units and a header, in 32-bit arithmetic. */
  function FramesFor(units: nat): nat {
    var size := (units + 1) * UNIT % 0x1_0000_0000;
    size / FRAME_SIZE + if size % FRAME_SIZE > 0 then 1 else 0
  }

  /** A new chunk has room for the request that caused it exactly up to MAX_REQUEST. */
  lemma {:induction false} NewChunkFitsIff(bytes: nat)
    requires bytes < 0x1_0000_0000
    ensures FramesFor(UnitsFor(bytes)) * UNITS_PER_FRAME >= UnitsFor(bytes) + 1 <==> bytes <= MAX_REQUEST
  {
    var units := UnitsFor(bytes);
    if bytes <= MAX_REQUEST {
      assert (units + 1) * UNIT < 0x1_0000_0000;
    } else {
      assert units + 1 == 0x1000_0000 || units + 1 == 0x1000_0001;
    }
  }

  /** The frames requested are the fewest that hold the bytes and a header. */
  lemma {:induction false} FramesForIsLeast(bytes: nat, n: nat)
    requires bytes <= MAX_REQUEST
    ensures n * FRAME_SIZE >= bytes + UNIT <==> n >= FramesFor(UnitsFor(bytes))
  {
    assert (UnitsFor(bytes) + 1) * UNIT < 0x1_0000_0000;
  }

  datatype HeapState = HeapState(blocks: seq<Block>, lo: nat, top: nat, frames: seq<Status>, total: nat)

  /** Free frames of the kernel range are one interval that starts where the heap ends. */
  ghost predicate FreeFrom(frames: seq<Status>, start: nat, limit: nat) {
    forall f {:trigger frames[f]} :: KERNEL_FIRST_FRAME <= f < USER_FIRST_FRAME && f < |frames| ==>
      (frames[f] == Free <==> start <= f < limit)
  }

  /** The exact tiling: blocks fill [lo, top), every frame of it is in use, and the kernel
      frames still free start at top.  `limit` is the first frame past them. */
  ghost predicate Inv(s: HeapState, limit: nat) {
    InvParts(s, limit) == true
  }

  ghost predicate InvParts(s: HeapState, limit: nat) {
    && Tiled(s.blocks, s.lo, s.top) && NoFreeNeighbours(s.blocks)
    && s.lo % UNITS_PER_FRAME == 0 && s.top % UNITS_PER_FRAME == 0
    && FIRST_UNIT <= s.lo <= s.top && s.top / UNITS_PER_FRAME <= limit <= USER_FIRST_FRAME <= s.total <= |s.frames|
    && FreeFrom(s.frames, s.top / UNITS_PER_FRAME, limit)
    && forall f :: s.lo / UNITS_PER_FRAME <= f < s.top / UNITS_PER_FRAME ==> s.frames[f] == Used
  }

  ghost function ChunkAt(s: HeapState, units: nat): Option<nat> {
    FirstFit(s.frames, FramesFor(units), KERNEL_FIRST_FRAME, Bound(USER_FIRST_FRAME, s.total))
  }

  /** The heap with a fresh free chunk at the end of the block list. */
  ghost function Grown(s: HeapState, f: nat, frames: nat): HeapState
    requires frames >= 1
  {
    s.(blocks := s.blocks + [Block(f * UNITS_PER_FRAME, frames * UNITS_PER_FRAME - 1, true)],
       top := (f + frames) * UNITS_PER_FRAME,
       frames := Marked(s.frames, f, frames, Used))
  }

  // The payload handed out, or 0.
  datatype Answer = Answer(state: HeapState, ptr: nat)

  ghost function Kalloc(s: HeapState, bytes: nat): Answer
    requires bytes <= MAX_REQUEST
  {
    var units := UnitsFor(bytes);
    var k := FirstHole(s.blocks, units, 0);
    if k < |s.blocks| then
      Answer(s.(blocks := TakeAt(s.blocks, k, units)), s.blocks[k].Payload())
    else
      NewChunkFits(bytes);
      match ChunkAt(s, units)
      case None => Answer(s, 0)
      case Some(f) =>
        var g := Grown(s, f, FramesFor(units));
        Answer(g.(blocks := TakeAt(g.blocks, |s.blocks|, units)), f * UNITS_PER_FRAME + 1)
  }

  lemma {:induction false} NewChunkFits(bytes: nat)
    requires bytes <= MAX_REQUEST
    ensures FramesFor(UnitsFor(bytes)) >= 1
    ensures FramesFor(UnitsFor(bytes)) * UNITS_PER_FRAME - 1 >= UnitsFor(bytes)
  {
    NewChunkFitsIff(bytes);
  }

  /** Index of the block whose payload starts at `ptr`, |bs| if there is none. */
  ghost function BlockOf(bs: seq<Block>, ptr: nat, i: nat): (k: nat)
    requires i <= |bs|
    ensures i <= k <= |bs|
    ensures k < |bs| ==> bs[k].Payload() == ptr
    ensures forall j :: i <= j < k ==> bs[j].Payload() != ptr
    decreases |bs| - i
  {
    if i == |bs| || bs[i].Payload() == ptr then i else BlockOf(bs, ptr, i + 1)
  }

  ghost function Kfree(s: HeapState, ptr: nat): HeapState {
    var k := BlockOf(s.blocks, ptr, 0);
    if ptr == 0 || k == |s.blocks| || s.blocks[k].free then s
    else s.(blocks := FreeAt(s.blocks, k))
  }

  // ---------------------------------------------------------------- one operation

  /** First fit in a single free interval hands out its first frames, so a new chunk
      starts exactly where the heap ends. */
  lemma {:induction false} ChunkIsNext(s: HeapState, limit: nat, count: nat)
    requires Inv(s, limit) && count >= 1
    ensures var start := s.top / UNITS_PER_FRAME;
            FirstFit(s.frames, count, KERNEL_FIRST_FRAME, Bound(USER_FIRST_FRAME, s.total)) ==
            if start + count <= limit then Some(start) else None
  {
    var start := s.top / UNITS_PER_FRAME;
    FirstFitIsLeast(s.frames, count, KERNEL_FIRST_FRAME, USER_FIRST_FRAME);
    if start + count <= limit {
      assert RunAt(s.frames, start, count, USER_FIRST_FRAME);
    }
    forall g | KERNEL_FIRST_FRAME <= g && RunAt(s.frames, g, count, USER_FIRST_FRAME)
      ensures start <= g && g + count <= limit
    {
      assert s.frames[g] == Free && s.frames[g + count - 1] == Free;
    }
  }

  lemma {:induction false} GrownKeeps(s: HeapState, limit: nat, frames: nat)
    requires Inv(s, limit) && frames >= 1 && s.top / UNITS_PER_FRAME + frames <= limit
    ensures var g := Grown(s, s.top / UNITS_PER_FRAME, frames);
            && Tiled(g.blocks, g.lo, g.top)
            && g.top % UNITS_PER_FRAME == 0 && s.top <= g.top && g.top / UNITS_PER_FRAME <= limit
            && FreeFrom(g.frames, g.top / UNITS_PER_FRAME, limit)
            && (forall f :: g.lo / UNITS_PER_FRAME <= f < g.top / UNITS_PER_FRAME ==> g.frames[f] == Used)
            && (forall i :: 0 < i < |g.blocks| && i != |s.blocks| ==> !FreePair(g.blocks, i))
            && Live(g.blocks) == Live(s.blocks)
  {
    var g := Grown(s, s.top / UNITS_PER_FRAME, frames);
    var n := |s.blocks|;
    assert s.top / UNITS_PER_FRAME * UNITS_PER_FRAME == s.top;
    assert g.blocks[n].End() == g.top;
    forall i | 0 < i < |g.blocks|
      ensures Abuts(g.blocks, i) && (i < n ==> !FreePair(g.blocks, i))
    {
      if i < n {
        assert Abuts(s.blocks, i) && !FreePair(s.blocks, i);
      }
    }
    assert g.top / UNITS_PER_FRAME == s.top / UNITS_PER_FRAME + frames;
  }

  /** No free block is large enough, and no run of kernel frames that would hold the bytes and a
      header is free. */
  ghost predicate NoRoom(s: HeapState, bytes: nat) {
    && (forall b :: b in s.blocks && b.free ==> b.size * UNIT < bytes)
    && (forall f, n :: KERNEL_FIRST_FRAME <= f && n * FRAME_SIZE >= bytes + UNIT ==>
          !RunAt(s.frames, f, n, USER_FIRST_FRAME))
  }

  /** A run is free for the bytes exactly if the frames requested for them are free at its start. */
  lemma {:induction false} NoRunIff(s: HeapState, bytes: nat)
    requires bytes <= MAX_REQUEST
    ensures (forall f, n :: KERNEL_FIRST_FRAME <= f && n * FRAME_SIZE >= bytes + UNIT ==>
               !RunAt(s.frames, f, n, USER_FIRST_FRAME))
            <==> forall f :: KERNEL_FIRST_FRAME <= f ==>
                   !RunAt(s.frames, f, FramesFor(UnitsFor(bytes)), USER_FIRST_FRAME)
  {
    var count := FramesFor(UnitsFor(bytes));
    FramesForIsLeast(bytes, count);
    forall f, n | n * FRAME_SIZE >= bytes + UNIT && RunAt(s.frames, f, n, USER_FIRST_FRAME)
      ensures RunAt(s.frames, f, count, USER_FIRST_FRAME)
    {
      FramesForIsLeast(bytes, n);
    }
  }

  /** A request fails exactly when there is no room, and then changes nothing; otherwise it
      adds one block that was not live, of at least the bytes asked for. */
  lemma {:induction false} KallocCorrect(s: HeapState, limit: nat, bytes: nat)
    requires Inv(s, limit) && bytes <= MAX_REQUEST
    ensures var a := Kalloc(s, bytes);
            && Inv(a.state, limit) && a.state.lo == s.lo && s.top <= a.state.top
            && a.state.total == s.total && |a.state.frames| == |s.frames|
    ensures var a := Kalloc(s, bytes);
            (a.ptr == 0 <==> NoRoom(s, bytes)) && (a.ptr == 0 ==> a.state == s)
    ensures var a := Kalloc(s, bytes);
            a.ptr != 0 ==> exists b: Block :: Adds(s, a.state, b, bytes) && b.Payload() == a.ptr
  {
    var units := UnitsFor(bytes);
    var k := FirstHole(s.blocks, units, 0);
    if k < |s.blocks| {
      TakeAtCorrect(s.blocks, s.lo, s.top, k, units);
      TakeAtNoFreeNeighbours(s.blocks, k, units);
      assert s.blocks[k] in s.blocks;
      assert Adds(s, Kalloc(s, bytes).state, TakeAt(s.blocks, k, units)[k], bytes);
    } else {
      KallocGrows(s, limit, bytes);
    }
  }

  /** `r` has the live blocks of `s` and one more, `b`, with room for `bytes` bytes behind its
      header, and for less than two units more. */
  ghost predicate Adds(s: HeapState, r: HeapState, b: Block, bytes: nat) {
    && b.at < b.Payload() && bytes <= (b.End() - b.Payload()) * UNIT < bytes + 2 * UNIT
    && Live(r.blocks) == Live(s.blocks) + {b}
    && forall c :: c in Live(s.blocks) ==> c.at != b.at
  }

  lemma {:induction false} KallocGrows(s: HeapState, limit: nat, bytes: nat)
    requires Inv(s, limit) && bytes <= MAX_REQUEST
    requires FirstHole(s.blocks, UnitsFor(bytes), 0) == |s.blocks|
    ensures var a := Kalloc(s, bytes);
            && Inv(a.state, limit) && a.state.lo == s.lo && s.top <= a.state.top
            && a.state.total == s.total && |a.state.frames| == |s.frames|
            && (a.ptr == 0 <==> NoRoom(s, bytes)) && (a.ptr == 0 ==> a.state == s)
            && (a.ptr != 0 ==> exists b: Block :: Adds(s, a.state, b, bytes) && b.Payload() == a.ptr)
  {
    var units := UnitsFor(bytes);
    var count := FramesFor(units);
    NewChunkFits(bytes);
    NoRunIff(s, bytes);
    ChunkIsNext(s, limit, count);
    FirstFitIsLeast(s.frames, count, KERNEL_FIRST_FRAME, USER_FIRST_FRAME);
    var start := s.top / UNITS_PER_FRAME;
    if start + count <= limit {
      GrownKeeps(s, limit, count);
      var g := Grown(s, start, count);
      TakeAtCorrect(g.blocks, g.lo, g.top, |s.blocks|, units);
      TakeAtNoFreeNeighbours(g.blocks, |s.blocks|, units);
      assert Adds(s, Kalloc(s, bytes).state, TakeAt(g.blocks, |s.blocks|, units)[|s.blocks|], bytes);
    }
  }

  /** The lowest free block with room for the bytes. */
  ghost predicate LowestFit(bs: seq<Block>, b: Block, bytes: nat) {
    && b in bs && b.free && b.size * UNIT >= bytes
    && forall c :: c in bs && c.free && c.size * UNIT >= bytes ==> b.at <= c.at
  }

  /** The heap has taken the next `n` frames. */
  ghost predicate GrewBy(s: HeapState, r: HeapState, n: nat) {
    && r.top == s.top + n * UNITS_PER_FRAME
    && r.frames == Marked(s.frames, s.top / UNITS_PER_FRAME, n, Used)
  }

  /** A request is met from the lowest free block that has room; if there is none, from the fewest
      frames that hold it, taken where the heap ends. */
  lemma {:induction false} KallocPlace(s: HeapState, limit: nat, bytes: nat)
    requires Inv(s, limit) && bytes <= MAX_REQUEST && Kalloc(s, bytes).ptr != 0
    ensures var a := Kalloc(s, bytes);
            if exists b :: b in s.blocks && b.free && b.size * UNIT >= bytes then
              a.state.top == s.top && a.state.frames == s.frames
              && exists b :: LowestFit(s.blocks, b, bytes) && a.ptr == b.Payload()
            else
              a.ptr == s.top + 1
              && exists n: nat :: (n - 1) * FRAME_SIZE < bytes + UNIT <= n * FRAME_SIZE && GrewBy(s, a.state, n)
  {
    var units := UnitsFor(bytes);
    var k := FirstHole(s.blocks, units, 0);
    if k < |s.blocks| {
      LowestHole(s, limit, bytes, k);
    } else {
      var count := FramesFor(units);
      NewChunkFits(bytes);
      FramesForIsLeast(bytes, count);
      FramesForIsLeast(bytes, count - 1);
      ChunkIsNext(s, limit, count);
      assert GrewBy(s, Kalloc(s, bytes).state, count);
    }
  }

  lemma {:induction false} LowestHole(s: HeapState, limit: nat, bytes: nat, k: nat)
    requires Inv(s, limit) && k < |s.blocks| && k == FirstHole(s.blocks, UnitsFor(bytes), 0)
    ensures LowestFit(s.blocks, s.blocks[k], bytes)
  {
    forall c | c in s.blocks && c.free && c.size * UNIT >= bytes
      ensures s.blocks[k].at <= c.at
    {
      var j :| 0 <= j < |s.blocks| && s.blocks[j] == c;
      if k < j { Ordered(s.blocks, s.lo, s.top, k, j); }
    }
  }

  /** Freeing the first block whose payload is at `ptr`, block `k`. */
  lemma {:induction false} KfreeOne(s: HeapState, limit: nat, ptr: nat, k: nat)
    requires Inv(s, limit) && ptr != 0 && k <= |s.blocks| && (k < |s.blocks| ==> s.blocks[k].Payload() == ptr)
    requires forall j :: 0 <= j < k ==> s.blocks[j].Payload() != ptr
    ensures Inv(Kfree(s, ptr), limit)
    ensures Kfree(s, ptr) == if k == |s.blocks| || s.blocks[k].free then s else s.(blocks := FreeAt(s.blocks, k))
  {
    KfreeCorrect(s, limit, ptr);
  }

  /** Freeing removes exactly the live block whose payload is at `ptr`; any other address, among
      them one already freed, changes nothing. */
  lemma {:induction false} KfreeCorrect(s: HeapState, limit: nat, ptr: nat)
    requires Inv(s, limit)
    ensures Inv(Kfree(s, ptr), limit)
    ensures forall b :: b in Live(s.blocks) && b.Payload() == ptr ==> Live(Kfree(s, ptr).blocks) == Live(s.blocks) - {b}
    ensures (forall b :: b in Live(s.blocks) ==> b.Payload() != ptr) ==> Kfree(s, ptr) == s
  {
    var k := BlockOf(s.blocks, ptr, 0);
    if ptr == 0 || k == |s.blocks| || s.blocks[k].free {
      forall b | b in Live(s.blocks)
        ensures b.Payload() != ptr
      {
        var i :| 0 <= i < |s.blocks| && s.blocks[i] == b;
        if b.Payload() == ptr { SameAddress(s.blocks, s.lo, s.top, i, k); }
      }
    } else {
      FreeAtCorrect(s.blocks, s.lo, s.top, k);
      FreeAtNoFreeNeighbours(s.blocks, k);
      assert s.blocks[k] in Live(s.blocks);
      forall b | b in Live(s.blocks) && b.Payload() == ptr
        ensures b == s.blocks[k]
      {
        var i :| 0 <= i < |s.blocks| && s.blocks[i] == b;
        SameAddress(s.blocks, s.lo, s.top, i, k);
      }
    }
  }

  /** Freeing what was just allocated leaves the same live blocks, and freeing it twice
      is the same as freeing it once. */
  lemma {:induction false} FreeUndoesAllocate(s: HeapState, limit: nat, bytes: nat)
    requires Inv(s, limit) && bytes <= MAX_REQUEST
    ensures var a := Kalloc(s, bytes);
            var r := Kfree(a.state, a.ptr);
            Live(r.blocks) == Live(s.blocks) && Kfree(r, a.ptr) == r
  {
    KallocCorrect(s, limit, bytes);
    var a := Kalloc(s, bytes);
    KfreeCorrect(a.state, limit, a.ptr);
    var r := Kfree(a.state, a.ptr);
    KfreeCorrect(r, limit, a.ptr);
    if a.ptr != 0 {
      var b: Block :| Adds(s, a.state, b, bytes) && b.Payload() == a.ptr;
      assert b !in Live(s.blocks);
    }
  }

  // ---------------------------------------------------------------- whole runs

  datatype Op = KallocOp(bytes: nat) | KfreeOp(ptr: nat)

  ghost predicate Legal(op: Op) {
    op.KallocOp? ==> op.bytes <= MAX_REQUEST
  }

  ghost function Step(s: HeapState, op: Op): HeapState
    requires Legal(op)
  {
    match op
    case KallocOp(bytes) => Kalloc(s, bytes).state
    case KfreeOp(ptr) => Kfree(s, ptr)
  }

  ghost function Run(s: HeapState, ops: seq<Op>): HeapState
    requires forall i :: 0 <= i < |ops| ==> Legal(ops[i])
  {
    if ops == [] then s else Step(Run(s, ops[..|ops| - 1]), ops[|ops| - 1])
  }

  /** In every run the heap stays an exact tiling without free neighbours, and its blocks,
      headers included, add up to the frames it obtained. */
  lemma {:induction false} EveryRunKeepsTheTiling(s: HeapState, limit: nat, ops: seq<Op>)
    requires Inv(s, limit)
    requires forall i :: 0 <= i < |ops| ==> Legal(ops[i])
    ensures Inv(Run(s, ops), limit)
    ensures Footprint(Run(s, ops).blocks) ==
            UNITS_PER_FRAME * (Run(s, ops).top / UNITS_PER_FRAME - s.lo / UNITS_PER_FRAME)
  {
    RunKeepsInv(s, limit, ops);
    var r := Run(s, ops);
    TilingAddsUp(r.blocks, r.lo, r.top);
  }

  lemma {:induction false} RunKeepsInv(s: HeapState, limit: nat, ops: seq<Op>)
    requires Inv(s, limit)
    requires forall i :: 0 <= i < |ops| ==> Legal(ops[i])
    ensures Inv(Run(s, ops), limit) && Run(s, ops).lo == s.lo
  {
    if ops != [] {
      var before := ops[..|ops| - 1];
      RunKeepsInv(s, limit, before);
      match ops[|ops| - 1]
      case KallocOp(bytes) => KallocCorrect(Run(s, before), limit, bytes);
      case KfreeOp(ptr) => KfreeCorrect(Run(s, before), limit, ptr);
    }
  }

  /** In every run two live blocks never share a unit, and every live payload lies in
      frames that are in use. */
  lemma {:induction false} EveryRunKeepsBlocksApart(s: HeapState, limit: nat, ops: seq<Op>, a: Block, b: Block)
    requires Inv(s, limit)
    requires forall i :: 0 <= i < |ops| ==> Legal(ops[i])
    requires a in Live(Run(s, ops).blocks) && b in Live(Run(s, ops).blocks) && a != b
    ensures a.End() <= b.at || b.End() <= a.at
    ensures forall u {:trigger u / UNITS_PER_FRAME} :: a.at <= u < a.End() ==>
              u / UNITS_PER_FRAME < |Run(s, ops).frames| && Run(s, ops).frames[u / UNITS_PER_FRAME] == Used
  {
    RunKeepsInv(s, limit, ops);
    var r := Run(s, ops);
    LiveDisjoint(r.blocks, r.lo, r.top, a, b);
  }
}
