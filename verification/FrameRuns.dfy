/** Whole runs of the frame allocator: reserved frames stay reserved, and the used
    frames are at every moment exactly the runs handed out and not yet given back. */
module FrameRuns {
  import opened Frames

  // ---------------------------------------------------------------- arbitrary requests

  datatype Op = Allocate(count: nat, first: nat, last: nat) | Release(addr: nat, count: nat)

  /** The state the allocator's methods leave. */
  ghost function Step(st: seq<Status>, total: nat, op: Op): (r: seq<Status>)
    ensures |r| == |st|
  {
    match op
    case Allocate(count, first, last) =>
      if count == 0 then st
      else
        (match FirstFit(st, count, first, Bound(last, total))
         case None => st
         case Some(f) => Marked(st, f, count, Used))
    case Release(addr, count) =>
      Released(st, addr / FRAME_SIZE, ReleaseEnd(addr / FRAME_SIZE, count, total))
  }

  ghost function Run(st: seq<Status>, total: nat, ops: seq<Op>): (r: seq<Status>)
    ensures |r| == |st|
  {
    if ops == [] then st else Step(Run(st, total, ops[..|ops| - 1]), total, ops[|ops| - 1])
  }

  /** The allocator does what a step says, and answers with the run a step takes. */
  method Perform(memory: FrameMap, op: Op) returns (r: nat)
    requires memory.Valid()
    modifies memory, memory.bm
    ensures memory.Valid() && memory.total == old(memory.total)
    ensures memory.states == Step(old(memory.states), memory.total, op)
    ensures op.Allocate? && op.count > 0 && r > 0 ==>
              r % FRAME_SIZE == 0
              && Available(old(memory.states), memory.total, r / FRAME_SIZE, op.count, op.first, op.last)
  {
    r := 0;
    match op
    case Allocate(count, first, last) =>
      if count > 0 { FitIsLeast(memory.states, memory.total, count, first, last); }
      r := memory.AllocateFrames(count, first, last);
    case Release(addr, count) =>
      memory.ReleaseFrames(addr, count);
  }

  /** A frame reserved at the start is reserved after every run of requests, released or not. */
  lemma {:induction false} ReservedForever(st: seq<Status>, total: nat, ops: seq<Op>, f: nat)
    requires total <= |st| && f < |st| && st[f] == Reserved
    ensures Run(st, total, ops)[f] == Reserved
  {
    if ops != [] {
      var before := ops[..|ops| - 1];
      ReservedForever(st, total, before, f);
      StepKeepsReserved(Run(st, total, before), total, ops[|ops| - 1], f);
    }
  }

  lemma {:induction false} StepKeepsReserved(st: seq<Status>, total: nat, op: Op, f: nat)
    requires total <= |st| && f < |st| && st[f] == Reserved
    ensures Step(st, total, op)[f] == Reserved
  {
    if op.Allocate? && op.count > 0 {
      FirstFitIsLeast(st, op.count, op.first, Bound(op.last, total));
    }
  }

  /** No request of a run is ever answered with a frame reserved at the start. */
  lemma {:induction false} ReservedNeverHandedOut(st: seq<Status>, total: nat, ops: seq<Op>, k: nat, f: nat)
    requires total <= |st| && k < |ops| && ops[k].Allocate?
    requires f < |st| && st[f] == Reserved
    ensures match FirstFit(Run(st, total, ops[..k]), ops[k].count, ops[k].first, Bound(ops[k].last, total))
            case None => true
            case Some(s) => !(s <= f < s + ops[k].count)
  {
    ReservedForever(st, total, ops[..k], f);
    if ops[k].count > 0 {
      FirstFitIsLeast(Run(st, total, ops[..k]), ops[k].count, ops[k].first, Bound(ops[k].last, total));
    }
  }

  // ---------------------------------------------------------------- callers that give back what they took

  datatype Span = Span(start: nat, count: nat)

  datatype Ledger = Ledger(states: seq<Status>, live: seq<Span>)

  // Take a run, or give back the i-th run held.
  datatype Use = Take(count: nat, first: nat, last: nat) | Give(i: nat)

  ghost predicate Possible(l: Ledger, u: Use) {
    match u
    case Take(count, _, _) => count >= 1
    case Give(i) => i < |l.live|
  }

  ghost function Next(l: Ledger, total: nat, u: Use): Ledger
    requires Possible(l, u)
  {
    match u
    case Take(count, first, last) =>
      (match FirstFit(l.states, count, first, Bound(last, total))
       case None => l
       case Some(f) => Ledger(Marked(l.states, f, count, Used), l.live + [Span(f, count)]))
    case Give(i) =>
      var s := l.live[i];
      Ledger(Step(l.states, total, Release(s.start * FRAME_SIZE, s.count)), l.live[..i] + l.live[i + 1..])
  }

  ghost predicate Covers(s: Span, f: nat) {
    s.start <= f < s.start + s.count
  }

  ghost predicate Held(live: seq<Span>, f: nat) {
    exists i :: 0 <= i < |live| && Covers(live[i], f)
  }

  /** Every frame is used if some live run covers it, and otherwise as in `base`;
      live runs took free frames of `base`, and no frame twice. */
  ghost predicate Balanced(base: seq<Status>, total: nat, l: Ledger) {
    && |l.states| == |base|
    && (forall i :: 0 <= i < |l.live| ==> l.live[i].start + l.live[i].count <= total <= |base|)
    && (forall f :: 0 <= f < |base| ==> l.states[f] == if Held(l.live, f) then Used else base[f])
    && (forall i, f :: 0 <= i < |l.live| && 0 <= f < |base| && Covers(l.live[i], f) ==> base[f] == Free)
    && (forall i, j, f :: 0 <= i < j < |l.live| && Covers(l.live[i], f) ==> !Covers(l.live[j], f))
  }

  lemma {:induction false} TakeBalanced(base: seq<Status>, total: nat, l: Ledger, u: Use)
    requires total <= |base| && u.Take? && Possible(l, u) && Balanced(base, total, l)
    ensures Balanced(base, total, Next(l, total, u))
  {
    var last := Bound(u.last, total);
    FirstFitIsLeast(l.states, u.count, u.first, last);
    match FirstFit(l.states, u.count, u.first, last)
    case None =>
    case Some(s) =>
      var r := Next(l, total, u);
      var n := |l.live|;
      assert r.live[n] == Span(s, u.count);
      assert forall i :: 0 <= i < n ==> r.live[i] == l.live[i];
      assert forall f :: Held(l.live, f) ==> Held(r.live, f) by {
        forall f | Held(l.live, f) ensures Held(r.live, f) {
          var i :| 0 <= i < n && Covers(l.live[i], f);
          assert Covers(r.live[i], f);
        }
      }
      forall f | 0 <= f < |base| && Covers(r.live[n], f)
        ensures l.states[f] == Free && !Held(l.live, f) && Held(r.live, f)
      {
        assert Covers(r.live[n], f);
      }
      forall f | Held(r.live, f) && !Covers(r.live[n], f)
        ensures Held(l.live, f)
      {
        var i :| 0 <= i < |r.live| && Covers(r.live[i], f);
        assert Covers(l.live[i], f);
      }
      forall i, f | 0 <= i < n && Covers(r.live[i], f)
        ensures !Covers(r.live[n], f)
      {
        assert Held(l.live, f);
      }
  }

  lemma {:induction false} GiveBalanced(base: seq<Status>, total: nat, l: Ledger, u: Use)
    requires total <= |base| && total <= MAX_FRAMES && u.Give? && Possible(l, u) && Balanced(base, total, l)
    ensures Balanced(base, total, Next(l, total, u))
  {
    hide FirstFit, Marked;
    var s := l.live[u.i];
    var r := Next(l, total, u);
    assert (s.start * FRAME_SIZE) / FRAME_SIZE == s.start;
    assert forall j :: 0 <= j < |r.live| ==> r.live[j] == l.live[if j < u.i then j else j + 1];
    forall f | 0 <= f < |base|
      ensures Held(r.live, f) <==> Held(l.live, f) && !Covers(s, f)
    {
      if Held(l.live, f) && !Covers(s, f) {
        var j :| 0 <= j < |l.live| && Covers(l.live[j], f);
        assert Covers(r.live[if j < u.i then j else j - 1], f);
      }
      if Held(r.live, f) {
        var j :| 0 <= j < |r.live| && Covers(r.live[j], f);
        assert Covers(l.live[if j < u.i then j else j + 1], f);
      }
    }
    forall f | 0 <= f < |base|
      ensures r.states[f] == if Held(r.live, f) then Used else base[f]
    {
      if s.start < total {
        assert ReleaseEnd(s.start, s.count, total) == s.start + s.count;
      } else {
        assert !Covers(s, f);
      }
      if Covers(s, f) {
        assert l.states[f] == Used && base[f] == Free;
      }
    }
  }

  ghost predicate AllPossible(l: Ledger, total: nat, us: seq<Use>)
    decreases |us|
  {
    us == [] || (Possible(l, us[0]) && AllPossible(Next(l, total, us[0]), total, us[1..]))
  }

  ghost function Play(l: Ledger, total: nat, us: seq<Use>): Ledger
    requires AllPossible(l, total, us)
    decreases |us|
  {
    if us == [] then l else Play(Next(l, total, us[0]), total, us[1..])
  }

  /** In every run of takes and gives the used frames are exactly the live runs,
      which are pairwise disjoint; once all are given back memory is as it was. */
  lemma {:induction false} LedgerIsExact(base: seq<Status>, total: nat, l: Ledger, us: seq<Use>)
    requires total <= |base| && total <= MAX_FRAMES && Balanced(base, total, l) && AllPossible(l, total, us)
    ensures Balanced(base, total, Play(l, total, us))
    ensures Play(l, total, us).live == [] ==> Play(l, total, us).states == base
    decreases |us|
  {
    if us != [] {
      if us[0].Take? {
        TakeBalanced(base, total, l, us[0]);
      } else {
        GiveBalanced(base, total, l, us[0]);
      }
      LedgerIsExact(base, total, Next(l, total, us[0]), us[1..]);
    }
  }
}
