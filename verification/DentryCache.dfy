/** The VFS dentry cache: a fixed array of slots with least-frequently-used eviction. */
module DentryCache {
  import opened Frames

  // One slot.  An empty name marks it free; `parent` is a slot index or NO_PARENT, and
  // superblocks are named by their device.
  datatype Dentry = Dentry(name: Option<string>, vno: nat, parent: int, sb: Option<nat>, mnt: Option<nat>, count: nat) {
    predicate Free() {
      name.None?
    }

    predicate Is(p: int, n: string) {
      name == Some(n) && parent == p
    }
  }

  const NO_PARENT: int := -1
  const EMPTY: Dentry := Dentry(None, 0, 0, None, None, 0)

  /** First slot, from `i` on, of the child `n` of slot `p`; the number of slots if none. */
  function Find(s: seq<Dentry>, p: int, n: string, i: nat): (k: nat)
    requires i <= |s|
    ensures i <= k <= |s|
    ensures k < |s| ==> s[k].Is(p, n)
    ensures forall j :: i <= j < k ==> !s[j].Is(p, n)
    decreases |s| - i
  {
    if i == |s| || s[i].Is(p, n) then i else Find(s, p, n, i + 1)
  }

  // ---------------------------------------------------------------- eviction

  /** What a slot costs to reuse: nothing when free, its use count otherwise. */
  function Cost(d: Dentry): nat {
    if d.Free() then 0 else d.count
  }

  /** A mountpoint's slot is never reused. */
  function Pinned(d: Dentry): bool {
    !d.Free() && d.mnt.Some?
  }

  /** `v` is a right choice among the first `n` slots: no slot only when all are pinned, and
      otherwise one that is not pinned, a free one if there is any, and one of least cost. */
  ghost predicate BestVictim(s: seq<Dentry>, n: nat, v: int)
    requires n <= |s|
  {
    if v == -1 then forall i :: 0 <= i < n ==> Pinned(s[i])
    else
      && 0 <= v < n && !Pinned(s[v])
      && ((exists i :: 0 <= i < n && s[i].Free()) ==> s[v].Free())
      && forall i :: 0 <= i < n && !Pinned(s[i]) ==> Cost(s[v]) <= Cost(s[i])
  }

  /** The slot one scan over the first `n` slots settles on: the last free one, or else the
      first of least count that is no mountpoint. */
  ghost function Victim(s: seq<Dentry>, n: nat): (v: int)
    requires n <= |s|
    ensures -1 <= v < n
  {
    if n == 0 then -1
    else
      var w, d := Victim(s, n - 1), s[n - 1];
      if d.Free() || (d.mnt.None? && (w == -1 || d.count < Cost(s[w]))) then n - 1 else w
  }

  /** The scan settles on a best victim. */
  lemma {:induction false} VictimIsBest(s: seq<Dentry>, n: nat)
    requires n <= |s|
    ensures BestVictim(s, n, Victim(s, n))
  {
    if n > 0 {
      VictimIsBest(s, n - 1);
    }
  }

  /** The choice among equals: the last free slot, or else the first of least count. */
  ghost predicate FirstVictim(s: seq<Dentry>, n: nat, v: int)
    requires n <= |s|
  {
    && BestVictim(s, n, v)
    && (v != -1 ==> if s[v].Free() then forall i :: v < i < n ==> !s[i].Free()
                    else forall i :: 0 <= i < v && !Pinned(s[i]) ==> Cost(s[i]) > Cost(s[v]))
  }

  /** The scan settles on that one, and there is no other. */
  lemma {:induction false} VictimIsFirst(s: seq<Dentry>, n: nat)
    requires n <= |s|
    ensures FirstVictim(s, n, Victim(s, n))
  {
    if n > 0 { VictimIsFirst(s, n - 1); }
  }

  lemma {:induction false} FirstIsVictim(s: seq<Dentry>, n: nat, v: int)
    requires n <= |s| && FirstVictim(s, n, v)
    ensures v == Victim(s, n)
  {
    VictimIsFirst(s, n);
  }

  lemma {:induction false} VictimStep(s: seq<Dentry>, i: nat)
    requires i < |s|
    ensures Victim(s, i + 1) ==
            if s[i].Free() || (s[i].mnt.None? && (Victim(s, i) == -1 || s[i].count < Cost(s[Victim(s, i)]))) then i
            else Victim(s, i)
  {}

  /** A scan that has seen no child `n` of `p` before `i` finds it at `i`, or not at all. */
  lemma {:induction false} FindAfter(s: seq<Dentry>, p: int, n: string, i: nat)
    requires i <= |s| && forall j :: 0 <= j < i ==> !s[j].Is(p, n)
    ensures i == |s| || s[i].Is(p, n) ==> Find(s, p, n, 0) == i
  {}

  /** Used entries have been requested at least once. */
  ghost predicate Counted(s: seq<Dentry>) {
    forall i :: 0 <= i < |s| && !s[i].Free() ==> s[i].count >= 1
  }

  /** No two slots hold the same child of the same parent. */
  ghost predicate UniqueKeys(s: seq<Dentry>) {
    forall i, j :: 0 <= i < j < |s| && !s[i].Free() && !s[j].Free() ==>
      !(s[i].name == s[j].name && s[i].parent == s[j].parent)
  }

  /** The fresh entry for child `n` of `p` in slot `v`: its superblock is read from the parent
      after slot `v` has been wiped, so a parent evicted for its own child has none. */
  function NewEntry(s: seq<Dentry>, v: nat, p: int, n: string): Dentry
    requires v < |s| && -1 <= p < |s|
  {
    var wiped := s[v := EMPTY];
    Dentry(Some(n), 0, p, if p == NO_PARENT then None else if wiped[p].mnt == None then wiped[p].sb else wiped[p].mnt,
           None, 1)
  }

  /** What a request for child `n` of `p` does, with answer `r` (-1 for none).  A hit only
      counts the use; a miss reuses the slot of the victim, if it can be named. */
  ghost predicate GetStep(s: seq<Dentry>, s': seq<Dentry>, p: int, n: string, named: bool, r: int)
    requires -1 <= p < |s|
  {
    var k, v := Find(s, p, n, 0), Victim(s, |s|);
    if k < |s| then r == k && s' == s[k := s[k].(count := s[k].count + 1)]
    else if v == -1 then r == -1 && s' == s
    else if !named then r == -1 && s' == s[v := EMPTY]
    else r == v && s' == s[v := NewEntry(s, v, p, n)]
  }

  class Cache {
    const slots: array<Dentry>

    constructor (capacity: nat)
      ensures fresh(slots) && slots.Length == capacity && forall i :: 0 <= i < capacity ==> slots[i] == EMPTY
    {
      slots := new Dentry[capacity](_ => EMPTY);
    }

    method Reset(i: nat)
      requires i < slots.Length
      modifies slots
      ensures slots[..] == old(slots[..])[i := EMPTY]
    {
      slots[i] := EMPTY;
    }

    /** Finds the child `n` of `p` or gives it a slot, in one scan.  `named` says whether
        memory for the name can be had, `asked` whether it was asked for. */
    method Get(p: int, n: string, named: bool) returns (r: int, asked: bool)
      requires -1 <= p < slots.Length && Counted(slots[..])
      modifies slots
      ensures -1 <= r < slots.Length && Counted(slots[..])
      ensures GetStep(old(slots[..]), slots[..], p, n, named, r)
      ensures var v := Victim(old(slots[..]), slots.Length);
              && BestVictim(old(slots[..]), slots.Length, v)
              && (asked <==> Find(old(slots[..]), p, n, 0) == slots.Length && v != -1)
    {
      hide BestVictim, Victim, Find;
      ghost var s := slots[..];
      VictimIsBest(s, |s|);
      var lowest, least := -1, 0;
      var i := 0;
      while i < slots.Length
        invariant i <= slots.Length && slots[..] == s
        invariant forall j :: 0 <= j < i ==> !s[j].Is(p, n)
        invariant lowest == Victim(s, i) && (lowest != -1 ==> least == Cost(s[lowest]))
      {
        var d := slots[i];
        VictimStep(s, i);
        FindAfter(s, p, n, i);
        if d.name == None {
          lowest, least := i, 0;
        } else if d.parent == p && d.name == Some(n) {
          slots[i] := d.(count := d.count + 1);
          return i, false;
        } else if d.mnt == None && (lowest == -1 || d.count < least) {
          lowest, least := i, d.count;
        }
        i := i + 1;
      }
      FindAfter(s, p, n, i);
      if lowest == -1 {
        return -1, false;
      }
      Reset(lowest);
      if !named {
        return -1, true;
      }
      var sb := None;
      if p != NO_PARENT {
        sb := if slots[p].mnt == None then slots[p].sb else slots[p].mnt;
      }
      slots[lowest] := Dentry(Some(n), 0, p, sb, None, 1);
      r, asked := lowest, true;
    }
  }

  // ---------------------------------------------------------------- whole runs

  /** One change of the cache, as the rest of the VFS makes them.  A request is answered with slot
      `r`; for any other change `r` is -1. */
  ghost predicate Step(s: seq<Dentry>, s': seq<Dentry>, r: int) {
    || (exists p, n, named :: -1 <= p < |s| && GetStep(s, s', p, n, named, r))
    || (r == -1 && exists i :: ResetStep(s, s', i))
    || (r == -1 && exists i, v :: FillStep(s, s', i, v))
    || (r == -1 && exists i, sb :: MountStep(s, s', i, sb))
  }

  // A failed lookup or mount gives its slot back; it is no mountpoint.
  ghost predicate ResetStep(s: seq<Dentry>, s': seq<Dentry>, i: nat) {
    i < |s| && !Pinned(s[i]) && s' == s[i := EMPTY]
  }

  // A new entry learns its vnode number.
  ghost predicate FillStep(s: seq<Dentry>, s': seq<Dentry>, i: nat, v: nat) {
    i < |s| && !s[i].Free() && s' == s[i := s[i].(vno := v)]
  }

  // A file system is mounted on an entry.
  ghost predicate MountStep(s: seq<Dentry>, s': seq<Dentry>, i: nat, sb: nat) {
    i < |s| && !s[i].Free() && !Pinned(s[i]) && s' == s[i := s[i].(mnt := Some(sb))]
  }

  /** Mountpoints have kept their slots. */
  ghost predicate Anchored(s: seq<Dentry>, s': seq<Dentry>) {
    |s'| == |s| && forall i :: 0 <= i < |s| && Pinned(s[i]) ==>
      s'[i].name == s[i].name && s'[i].parent == s[i].parent && s'[i].mnt == s[i].mnt
  }

  lemma {:induction false} AnchoredTwice(s: seq<Dentry>, s1: seq<Dentry>, s2: seq<Dentry>)
    requires Anchored(s, s1) && Anchored(s1, s2)
    ensures Anchored(s, s2)
  {}

  /** Keys are unique, requests counted, and mountpoints where they were. */
  ghost predicate KeysKept(s: seq<Dentry>, s': seq<Dentry>) {
    Anchored(s, s') && UniqueKeys(s') && Counted(s')
  }

  lemma {:induction false} GetKeepsKeys(s: seq<Dentry>, s': seq<Dentry>, p: int, n: string, named: bool, r: int)
    requires -1 <= p < |s| && GetStep(s, s', p, n, named, r) && UniqueKeys(s) && Counted(s)
    ensures KeysKept(s, s')
  {
    VictimIsBest(s, |s|);
    if Find(s, p, n, 0) == |s| {
      assert forall i :: 0 <= i < |s| ==> !s[i].Is(p, n);
    }
  }

  /** Wiping an entry that is no mountpoint, or changing one under its name. */
  lemma {:induction false} EditKeepsKeys(s: seq<Dentry>, i: nat, d: Dentry)
    requires i < |s| && UniqueKeys(s) && Counted(s)
    requires if d == EMPTY then !Pinned(s[i])
             else
               && d.name == s[i].name && d.parent == s[i].parent && d.count == s[i].count
               && (Pinned(s[i]) ==> d.mnt == s[i].mnt)
    ensures KeysKept(s, s[i := d])
  {}

  lemma {:induction false} StepKeepsKeys(s: seq<Dentry>, s': seq<Dentry>, r: int)
    requires Step(s, s', r) && UniqueKeys(s) && Counted(s)
    ensures KeysKept(s, s')
  {
    if p, n, named :| -1 <= p < |s| && GetStep(s, s', p, n, named, r) {
      GetKeepsKeys(s, s', p, n, named, r);
    } else if i: nat :| ResetStep(s, s', i) {
      EditKeepsKeys(s, i, EMPTY);
    } else if i: nat, v: nat :| FillStep(s, s', i, v) {
      EditKeepsKeys(s, i, s[i].(vno := v));
    } else {
      var i: nat, sb: nat :| MountStep(s, s', i, sb);
      EditKeepsKeys(s, i, s[i].(mnt := Some(sb)));
    }
  }

  ghost predicate StepAt(run: seq<seq<Dentry>>, answers: seq<int>, k: nat)
    requires k < |answers| < |run|
  {
    Step(run[k], run[k + 1], answers[k])
  }

  ghost predicate IsRun(run: seq<seq<Dentry>>, answers: seq<int>) {
    |run| == |answers| + 1 && forall k :: 0 <= k < |answers| ==> StepAt(run, answers, k)
  }

  lemma {:induction false} RunTail(run: seq<seq<Dentry>>, answers: seq<int>)
    requires IsRun(run, answers) && answers != []
    ensures IsRun(run[1..], answers[1..]) && Step(run[0], run[1], answers[0])
  {
    assert StepAt(run, answers, 0);
    forall k | 0 <= k < |answers| - 1
      ensures StepAt(run[1..], answers[1..], k)
    {
      assert StepAt(run, answers, k + 1);
    }
  }

  /** In every run keys stay unique and mountpoints keep their slots, evictions or not. */
  lemma {:induction false} RunKeepsKeys(run: seq<seq<Dentry>>, answers: seq<int>)
    requires IsRun(run, answers) && UniqueKeys(run[0]) && Counted(run[0])
    ensures KeysKept(run[0], run[|run| - 1])
  {
    if answers != [] {
      RunTail(run, answers);
      StepKeepsKeys(run[0], run[1], answers[0]);
      RunKeepsKeys(run[1..], answers[1..]);
      AnchoredTwice(run[0], run[1], run[|run| - 1]);
    }
  }

  /** Slot `i` holds the child `n` of `p` in all states from the first or the second one on. */
  ghost predicate Stays(run: seq<seq<Dentry>>, i: nat, p: int, n: string, from: nat) {
    forall k :: from <= k < |run| ==> i < |run[k]| && run[k][i].Is(p, n)
  }

  lemma {:induction false} StepCounts(s: seq<Dentry>, s': seq<Dentry>, r: int, i: nat, p: int, n: string)
    requires Step(s, s', r) && i < |s'| && s'[i].Is(p, n)
    ensures i < |s|
    ensures if s[i].Is(p, n) then s'[i].count == s[i].count + (if r == i then 1 else 0)
            else r == i && s'[i].count == 1
  {
    if q, m, named :| -1 <= q < |s| && GetStep(s, s', q, m, named, r) {
      assert Find(s, q, m, 0) == |s| ==> forall j :: 0 <= j < |s| ==> !s[j].Is(q, m);
    }
  }

  lemma {:induction false} StayCounts(run: seq<seq<Dentry>>, answers: seq<int>, i: nat, p: int, n: string)
    requires IsRun(run, answers) && Stays(run, i, p, n, 0)
    ensures run[|run| - 1][i].count == run[0][i].count + multiset(answers)[i]
  {
    if answers != [] {
      RunTail(run, answers);
      StepCounts(run[0], run[1], answers[0], i, p, n);
      StayCounts(run[1..], answers[1..], i, p, n);
      assert answers == [answers[0]] + answers[1..];
    }
  }

  /** The count of an entry, by which victims are chosen, is the number of requests answered with
      it since it was entered, the one that entered it included. */
  lemma {:induction false} CountIsRequests(run: seq<seq<Dentry>>, answers: seq<int>, i: nat, p: int, n: string)
    requires IsRun(run, answers) && answers != [] && Stays(run, i, p, n, 1)
    requires i < |run[0]| && !run[0][i].Is(p, n)
    ensures run[|run| - 1][i].count == multiset(answers)[i]
  {
    RunTail(run, answers);
    StepCounts(run[0], run[1], answers[0], i, p, n);
    StayCounts(run[1..], answers[1..], i, p, n);
    assert answers == [answers[0]] + answers[1..];
  }
}
