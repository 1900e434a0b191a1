/** The kernel heap as a value: an address-ordered sequence of blocks.

    `kalloc` and `kfree` become functions on the sequence.  Here they are shown to keep
    the blocks an exact tiling of the heap without two free neighbours, and to refine an
    abstract allocator that only knows the set of live blocks.  Addresses count units of
    16 bytes, the size of one block header. */
module HeapLayout {
  import opened Frames

  const UNIT: nat := 16
  const UNITS_PER_FRAME: nat := 256

  // A header at unit `at`, followed by `size` units of payload.
  datatype Block = Block(at: nat, size: nat, free: bool) {
    function End(): nat {
      at + size + 1
    }

    function Payload(): nat {
      at + 1
    }
  }

  ghost predicate Abuts(bs: seq<Block>, i: nat)
    requires 0 < i < |bs|
  {
    bs[i].at == bs[i - 1].End()
  }

  /** The blocks lie end to end from `lo` to `top`, in address order. */
  ghost predicate Tiled(bs: seq<Block>, lo: nat, top: nat) {
    && (bs == [] ==> lo == top)
    && (bs != [] ==> bs[0].at == lo && bs[|bs| - 1].End() == top)
    && forall i :: 0 < i < |bs| ==> Abuts(bs, i)
  }

  ghost predicate FreePair(bs: seq<Block>, i: nat)
    requires 0 < i < |bs|
  {
    bs[i - 1].free && bs[i].free
  }

  ghost predicate NoFreeNeighbours(bs: seq<Block>) {
    forall i :: 0 < i < |bs| ==> !FreePair(bs, i)
  }

  ghost function Live(bs: seq<Block>): set<Block> {
    set b | b in bs && !b.free
  }

  lemma {:induction false} Ordered(bs: seq<Block>, lo: nat, top: nat, i: nat, j: nat)
    requires Tiled(bs, lo, top) && i < j < |bs|
    ensures bs[i].End() <= bs[j].at
    decreases j
  {
    if i + 1 < j {
      Ordered(bs, lo, top, i, j - 1);
    }
    assert Abuts(bs, j);
  }

  lemma {:induction false} Inside(bs: seq<Block>, lo: nat, top: nat, i: nat)
    requires Tiled(bs, lo, top) && i < |bs|
    ensures lo <= bs[i].at && bs[i].End() <= top
  {
    if i > 0 {
      Ordered(bs, lo, top, 0, i);
    }
    if i < |bs| - 1 {
      Ordered(bs, lo, top, i, |bs| - 1);
    }
  }

  /** Blocks of a tiled heap that share an address are the same block. */
  lemma {:induction false} SameAddress(bs: seq<Block>, lo: nat, top: nat, i: nat, j: nat)
    requires Tiled(bs, lo, top) && i < |bs| && j < |bs| && bs[i].at == bs[j].at
    ensures i == j
  {
    if i < j {
      Ordered(bs, lo, top, i, j);
    } else if j < i {
      Ordered(bs, lo, top, j, i);
    }
  }

  /** Payloads of distinct live blocks never overlap, and none leaves the heap. */
  lemma {:induction false} LiveDisjoint(bs: seq<Block>, lo: nat, top: nat, a: Block, b: Block)
    requires Tiled(bs, lo, top) && a in Live(bs) && b in Live(bs) && a != b
    ensures a.End() <= b.at || b.End() <= a.at
    ensures lo <= a.at && a.End() <= top
  {
    var i :| 0 <= i < |bs| && bs[i] == a;
    var j :| 0 <= j < |bs| && bs[j] == b;
    Inside(bs, lo, top, i);
    if i < j {
      Ordered(bs, lo, top, i, j);
    } else {
      Ordered(bs, lo, top, j, i);
    }
  }

  /** Units of all blocks, headers included. */
  ghost function Footprint(bs: seq<Block>): nat {
    if bs == [] then 0 else Footprint(bs[..|bs| - 1]) + bs[|bs| - 1].size + 1
  }

  lemma {:induction false} TilingAddsUp(bs: seq<Block>, lo: nat, top: nat)
    requires Tiled(bs, lo, top)
    ensures lo + Footprint(bs) == top
  {
    if bs != [] {
      var k := |bs| - 1;
      forall i | 0 < i < k
        ensures Abuts(bs[..k], i)
      {
        assert Abuts(bs, i);
      }
      if k > 0 {
        assert Abuts(bs, k);
      }
      TilingAddsUp(bs[..k], lo, bs[k].at);
    }
  }

  // ---------------------------------------------------------------- taking a block

  /** First free block of at least `units` units, from index `i` on; |bs| if none. */
  ghost function FirstHole(bs: seq<Block>, units: nat, i: nat): (k: nat)
    requires i <= |bs|
    ensures i <= k <= |bs|
    ensures k < |bs| ==> bs[k].free && bs[k].size >= units
    ensures forall j :: i <= j < k ==> !(bs[j].free && bs[j].size >= units)
    decreases |bs| - i
  {
    if i == |bs| then i
    else if bs[i].free && bs[i].size >= units then i
    else FirstHole(bs, units, i + 1)
  }

  /** Splicing: `bs` with block `k` replaced by `part`. */
  ghost function Splice(bs: seq<Block>, k: nat, n: nat, part: seq<Block>): seq<Block>
    requires k + n <= |bs|
  {
    bs[..k] + part + bs[k + n..]
  }

  /** The blocks that replace a free block when `units` of its units are taken. */
  ghost function TakeParts(b: Block, units: nat): seq<Block>
    requires b.size >= units
  {
    if b.size <= units + 1 then [Block(b.at, b.size, false)]
    else [Block(b.at, units, false), Block(b.at + units + 1, b.size - units - 1, true)]
  }

  /** Uses free block `k` for `units` units; a remainder of one bare header is not split off. */
  ghost function TakeAt(bs: seq<Block>, k: nat, units: nat): seq<Block>
    requires k < |bs| && bs[k].size >= units
  {
    Splice(bs, k, 1, TakeParts(bs[k], units))
  }

  lemma {:induction false} SpliceAt(bs: seq<Block>, k: nat, n: nat, part: seq<Block>, i: nat)
    requires k + n <= |bs| && i < |bs| - n + |part|
    ensures |Splice(bs, k, n, part)| == |bs| - n + |part|
    ensures Splice(bs, k, n, part)[i] ==
            if i < k then bs[i] else if i < k + |part| then part[i - k] else bs[i - |part| + n]
  {}

  lemma {:induction false} SpliceTiled(bs: seq<Block>, lo: nat, top: nat, k: nat, n: nat, part: seq<Block>)
    requires Tiled(bs, lo, top) && n >= 1 && k + n <= |bs| && part != []
    requires Tiled(part, bs[k].at, bs[k + n - 1].End())
    ensures Tiled(Splice(bs, k, n, part), lo, top)
  {
    var r := Splice(bs, k, n, part);
    var m := |part|;
    forall i | 0 < i < |r|
      ensures Abuts(r, i)
    {
      SpliceAt(bs, k, n, part, i);
      SpliceAt(bs, k, n, part, i - 1);
      if i <= k {
        assert Abuts(bs, i);
      } else if i < k + m {
        assert Abuts(part, i - k);
      } else {
        assert Abuts(bs, i - m + n);
      }
    }
    SpliceAt(bs, k, n, part, 0);
    SpliceAt(bs, k, n, part, |r| - 1);
  }

  /** Taking a free block keeps the tiling and adds exactly one live block, of enough room
      and with an address that was not live. */
  lemma {:induction false} TakeAtCorrect(bs: seq<Block>, lo: nat, top: nat, k: nat, units: nat)
    requires Tiled(bs, lo, top) && k < |bs| && bs[k].free && bs[k].size >= units
    ensures var r := TakeAt(bs, k, units);
            && Tiled(r, lo, top) && k < |r| && r[k].at == bs[k].at && !r[k].free
            && units <= r[k].size <= units + 1
            && Live(r) == Live(bs) + {r[k]}
    ensures forall b :: b in Live(bs) ==> b.at != bs[k].at
  {
    var part := TakeParts(bs[k], units);
    assert Tiled(part, bs[k].at, bs[k].End()) by {
      if |part| == 2 { assert Abuts(part, 1); }
    }
    SpliceTiled(bs, lo, top, k, 1, part);
    SpliceAt(bs, k, 1, part, k);
    LiveSplice(bs, k, 1, part);
    assert bs[k..k + 1] == [bs[k]];
    assert Live(part) == {part[0]};
    forall c | c in Live(bs)
      ensures c.at != bs[k].at
    {
      var i :| 0 <= i < |bs| && bs[i] == c;
      if c.at == bs[k].at { SameAddress(bs, lo, top, i, k); }
    }
  }

  /** Only the pair before the taken block may have been free: none is afterwards. */
  lemma {:induction false} TakeAtNoFreeNeighbours(bs: seq<Block>, k: nat, units: nat)
    requires k < |bs| && bs[k].free && bs[k].size >= units
    requires forall i :: 0 < i < |bs| && i != k ==> !FreePair(bs, i)
    ensures NoFreeNeighbours(TakeAt(bs, k, units))
  {
    var part := TakeParts(bs[k], units);
    var r := Splice(bs, k, 1, part);
    forall i | 0 < i < |r|
      ensures !FreePair(r, i)
    {
      SpliceAt(bs, k, 1, part, i);
      SpliceAt(bs, k, 1, part, i - 1);
      if i < k {
        assert !FreePair(bs, i);
      } else if i >= k + |part| {
        assert !FreePair(bs, i - |part| + 1);
      }
    }
  }

  /** Live blocks after a splice, when only free blocks are replaced. */
  lemma {:induction false} LiveSplice(bs: seq<Block>, k: nat, n: nat, part: seq<Block>)
    requires k + n <= |bs|
    ensures Live(bs) == Live(bs[..k]) + Live(bs[k..k + n]) + Live(bs[k + n..])
    ensures Live(Splice(bs, k, n, part)) == Live(bs[..k]) + Live(part) + Live(bs[k + n..])
  {
    assert bs == bs[..k] + bs[k..k + n] + bs[k + n..];
  }

  // ---------------------------------------------------------------- freeing a block

  /** Marks block `i` free and joins it with its free neighbours, the next one first. */
  ghost function FreeAt(bs: seq<Block>, i: nat): seq<Block>
    requires i < |bs|
  {
    JoinPrev(JoinNext(bs, i), i)
  }

  ghost function JoinNext(bs: seq<Block>, i: nat): (r: seq<Block>)
    requires i < |bs|
    ensures i < |r|
  {
    var b := bs[i];
    if i + 1 < |bs| && bs[i + 1].free then Splice(bs, i, 2, [Block(b.at, b.size + bs[i + 1].size + 1, true)])
    else Splice(bs, i, 1, [Block(b.at, b.size, true)])
  }

  ghost function JoinPrev(bs: seq<Block>, i: nat): seq<Block>
    requires i < |bs|
  {
    if i > 0 && bs[i - 1].free
    then Splice(bs, i - 1, 2, [Block(bs[i - 1].at, bs[i - 1].size + bs[i].size + 1, true)])
    else bs
  }

  /** Freeing a live block keeps the tiling and removes exactly that live block. */
  lemma {:induction false} FreeAtCorrect(bs: seq<Block>, lo: nat, top: nat, i: nat)
    requires Tiled(bs, lo, top) && i < |bs| && !bs[i].free
    ensures Tiled(FreeAt(bs, i), lo, top)
    ensures Live(FreeAt(bs, i)) == Live(bs) - {bs[i]}
  {
    hide Tiled, Live, JoinNext, JoinPrev;
    JoinNextCorrect(bs, lo, top, i);
    JoinPrevCorrect(JoinNext(bs, i), lo, top, i);
  }

  lemma {:induction false} JoinPrevCorrect(a: seq<Block>, lo: nat, top: nat, i: nat)
    requires Tiled(a, lo, top) && i < |a| && a[i].free
    ensures Tiled(JoinPrev(a, i), lo, top) && Live(JoinPrev(a, i)) == Live(a)
  {
    if i > 0 && a[i - 1].free {
      var part := [Block(a[i - 1].at, a[i - 1].size + a[i].size + 1, true)];
      assert Abuts(a, i);
      SpliceTiled(a, lo, top, i - 1, 2, part);
      LiveSplice(a, i - 1, 2, part);
      assert a[i - 1..i + 1] == [a[i - 1], a[i]];
    }
  }

  lemma {:induction false} JoinNextCorrect(bs: seq<Block>, lo: nat, top: nat, i: nat)
    requires Tiled(bs, lo, top) && i < |bs| && !bs[i].free
    ensures var a := JoinNext(bs, i);
            Tiled(a, lo, top) && a[i].free && Live(a) == Live(bs) - {bs[i]}
  {
    var n := if i + 1 < |bs| && bs[i + 1].free then 2 else 1;
    var part := if n == 2 then [Block(bs[i].at, bs[i].size + bs[i + 1].size + 1, true)]
                else [Block(bs[i].at, bs[i].size, true)];
    if n == 2 {
      assert Abuts(bs, i + 1);
      assert bs[i..i + 2] == [bs[i], bs[i + 1]];
    } else {
      assert bs[i..i + 1] == [bs[i]];
    }
    SpliceTiled(bs, lo, top, i, n, part);
    SpliceAt(bs, i, n, part, i);
    LiveSplice(bs, i, n, part);
    forall j | 0 <= j < |bs| && j != i
      ensures bs[j] != bs[i]
    {
      if bs[j] == bs[i] { SameAddress(bs, lo, top, j, i); }
    }
  }

  /** After joining with the next block, only the freed block can have a free neighbour. */
  lemma {:induction false} JoinNextPairs(bs: seq<Block>, i: nat, j: nat)
    requires i < |bs| && !bs[i].free && NoFreeNeighbours(bs) && 0 < j < |JoinNext(bs, i)| && j != i
    ensures !FreePair(JoinNext(bs, i), j)
  {
    hide Splice;
    var n := if i + 1 < |bs| && bs[i + 1].free then 2 else 1;
    var part := [Block(bs[i].at, if n == 2 then bs[i].size + bs[i + 1].size + 1 else bs[i].size, true)];
    assert JoinNext(bs, i) == Splice(bs, i, n, part);
    SpliceAt(bs, i, n, part, i);
    SpliceAt(bs, i, n, part, j);
    SpliceAt(bs, i, n, part, j - 1);
    if j < i {
      assert !FreePair(bs, j);
    } else if j == i + 1 {
      if n == 2 { assert !FreePair(bs, i + 2); }
    } else {
      assert !FreePair(bs, j - 1 + n);
    }
  }

  /** Coalescing is complete: no two free neighbours are left. */
  lemma {:induction false} FreeAtNoFreeNeighbours(bs: seq<Block>, i: nat)
    requires i < |bs| && !bs[i].free && NoFreeNeighbours(bs)
    ensures NoFreeNeighbours(FreeAt(bs, i))
  {
    hide JoinNext, JoinPrev, FreePair;
    var a := JoinNext(bs, i);
    forall j | 0 < j < |a| && j != i
      ensures !FreePair(a, j)
    {
      JoinNextPairs(bs, i, j);
    }
    JoinNextFrees(bs, i);
    JoinPrevPairs(a, i);
  }

  lemma {:induction false} JoinNextFrees(bs: seq<Block>, i: nat)
    requires i < |bs|
    ensures JoinNext(bs, i)[i].free
  {}

  lemma {:induction false} JoinPrevPairs(a: seq<Block>, i: nat)
    requires i < |a| && forall j :: 0 < j < |a| && j != i ==> !FreePair(a, j)
    ensures a[i].free ==> NoFreeNeighbours(JoinPrev(a, i))
  {
    hide JoinNext;
    if i > 0 && a[i - 1].free && a[i].free {
      var joined := [Block(a[i - 1].at, a[i - 1].size + a[i].size + 1, true)];
      var r := Splice(a, i - 1, 2, joined);
      forall j | 0 < j < |r|
        ensures !FreePair(r, j)
      {
        JoinPrevPair(a, i, joined, j);
      }
    }
  }

  lemma {:induction false} JoinPrevPair(a: seq<Block>, i: nat, joined: seq<Block>, j: nat)
    requires 0 < i < |a| && a[i - 1].free && |joined| == 1 && 0 < j < |a| - 1
    requires forall j :: 0 < j < |a| && j != i ==> !FreePair(a, j)
    ensures |Splice(a, i - 1, 2, joined)| == |a| - 1
    ensures a[i].free ==> !FreePair(Splice(a, i - 1, 2, joined), j)
  {
    hide Splice;
    SpliceAt(a, i - 1, 2, joined, j);
    SpliceAt(a, i - 1, 2, joined, j - 1);
    if j < i {
      assert !FreePair(a, j);
    } else {
      assert !FreePair(a, j + 1);
    }
  }
}
