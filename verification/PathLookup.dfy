/** Whole lookups: a path taken step by step through the cache. */
module PathLookup {
  import opened Frames
  import opened DentryCache
  import opened MemTree
  import opened PathCache
  import opened Eviction

  /** The entry that cached steps lead to from `p`; -1 if one of them is not cached. */
  ghost function At(s: seq<Dentry>, p: int, comps: seq<string>): int
    decreases |comps|
  {
    if comps == [] then p
    else if Find(s, p, comps[0], 0) < |s| then At(s, Find(s, p, comps[0], 0), comps[1..])
    else NO_PARENT
  }

  lemma {:induction false} AtMore(s: seq<Dentry>, p: nat, comps: seq<string>, rest: seq<string>)
    requires At(s, p, comps) != NO_PARENT
    ensures At(s, p, comps + rest) == At(s, At(s, p, comps), rest)
    ensures Misses(s, p, comps + rest) == Misses(s, At(s, p, comps), rest)
    decreases |comps|
  {
    if comps == [] {
      assert comps + rest == rest;
    } else {
      assert (comps + rest)[0] == comps[0] && (comps + rest)[1..] == comps[1..] + rest;
      AtMore(s, Find(s, p, comps[0], 0), comps[1..], rest);
    }
  }

  lemma {:induction false} AtPrefix(s: seq<Dentry>, p: nat, comps: seq<string>, rest: seq<string>)
    requires At(s, p, comps + rest) != NO_PARENT
    ensures At(s, p, comps) != NO_PARENT
    decreases |comps|
  {
    if comps != [] {
      assert (comps + rest)[0] == comps[0] && (comps + rest)[1..] == comps[1..] + rest;
      AtPrefix(s, Find(s, p, comps[0], 0), comps[1..], rest);
    }
  }

  /** Steps that were cached stay so. */
  lemma {:induction false} AtKept(s: seq<Dentry>, s': seq<Dentry>, p: nat, comps: seq<string>)
    requires Kept(s, s') && UniqueKeys(s') && At(s, p, comps) != NO_PARENT
    ensures At(s', p, comps) == At(s, p, comps)
    decreases |comps|
  {
    if comps != [] {
      FindKept(s, s', p, comps[0]);
      AtKept(s, s', Find(s, p, comps[0], 0), comps[1..]);
    }
  }

  lemma {:induction false} FindKept(s: seq<Dentry>, s': seq<Dentry>, p: int, n: string)
    requires Kept(s, s') && UniqueKeys(s') && Find(s, p, n, 0) < |s|
    ensures Find(s', p, n, 0) == Find(s, p, n, 0)
  {
    var k := Find(s, p, n, 0);
    assert Occ(s, k) && s'[k].Is(p, n);
    FindIs(s', p, n, k);
  }

  lemma {:induction false} FindIs(s: seq<Dentry>, p: int, n: string, k: nat)
    requires UniqueKeys(s) && k < |s| && s[k].Is(p, n)
    ensures Find(s, p, n, 0) == k
  {}

  lemma {:induction false} SameAt(s: seq<Dentry>, s': seq<Dentry>, p: int, comps: seq<string>)
    requires SameBut(s, s')
    ensures At(s', p, comps) == At(s, p, comps)
    decreases |comps|
  {
    if comps != [] {
      SameFind(s, s', p, comps[0], 0);
      if Find(s, p, comps[0], 0) < |s| {
        SameAt(s, s', Find(s, p, comps[0], 0), comps[1..]);
      }
    }
  }

  /** What a lookup of `comps` from entry `p` makes of the slots `s`: the answer `k` is behind
      the node the walk leads to, and -1 means the walk fails or memory ran out. */
  ghost predicate LookedUp(s: seq<Dentry>, s': seq<Dentry>, f: Forest, m: Mounts, p: int, comps: seq<string>, k: int,
                           oom: bool)
    requires Occ(s, p)
  {
    LookupParts(s, s', f, m, p, comps, k, oom) == true
  }

  ghost predicate LookupParts(s: seq<Dentry>, s': seq<Dentry>, f: Forest, m: Mounts, p: int, comps: seq<string>,
                              k: int, oom: bool)
    requires Occ(s, p)
  {
    var target := Walk(f, m, NodeOf(s[p]), comps);
    && Kept(s, s') && (Complete(s, f) ==> Complete(s', f))
    && (k == -1 ==> oom || target.None?)
    && (k != -1 ==> Occ(s', k) && target == Some(NodeOf(s'[k])) && At(s', p, comps) == k)
    && (k != -1 ==> SameBut(s, s') || Childless(s', k))
    && (Complete(s, f) ==> SameBut(s, s'))
  }

  /** A lookup from entry `p` has taken the steps `done` to entry `obj`: the rest of the walk
      starts there, and once a step was not cached nothing below is. */
  ghost predicate OnTheWay(s: seq<Dentry>, s': seq<Dentry>, f: Forest, m: Mounts, p: int,
                           done: seq<string>, rest: seq<string>, obj: int)
    requires Occ(s, p)
  {
    Occ(s', obj) && WayParts(s, s', f, m, p, done, rest, obj) == true
  }

  ghost predicate WayParts(s: seq<Dentry>, s': seq<Dentry>, f: Forest, m: Mounts, p: int,
                           done: seq<string>, rest: seq<string>, obj: int)
    requires Occ(s, p) && Occ(s', obj)
  {
    && Kept(s, s') && (Complete(s, f) ==> Complete(s', f))
    && Walk(f, m, NodeOf(s[p]), done + rest) == Walk(f, m, NodeOf(s'[obj]), rest)
    && At(s', p, done) == obj
    && (SameBut(s, s') || Childless(s', obj))
    && (Complete(s, f) ==> SameBut(s, s'))
  }

  lemma {:induction false} WayAdvances(s: seq<Dentry>, s1: seq<Dentry>, s2: seq<Dentry>, root: int, f: Forest,
                                       m: Mounts, p: int, done: seq<string>, rest: seq<string>, obj: int, q: int,
                                       oom: bool)
    requires Occ(s, p) && OnTheWay(s, s1, f, m, p, done, rest, obj) && rest != []
    requires CacheOk(s2, root, f, m) && Stepped(s1, s2, f, m, obj, rest[0], q, oom)
    ensures q != -1 ==> OnTheWay(s, s2, f, m, p, done + [rest[0]], rest[1..], q)
    ensures q == -1 ==> LookedUp(s, s2, f, m, p, done + rest, q, oom)
    ensures At(s2, p, done) == obj
  {
    KeptTransitive(s, s1, s2);
    AtKept(s1, s2, p, done);
    StepWalks(s1, s2, f, m, obj, rest, q, oom);
    if Complete(s, f) { CompleteSteps(s1, s2, f, m, obj, rest[0], q, oom); }
    if q != -1 {
      Rejoin(done, rest);
      StepFinds(s1, s2, root, f, m, obj, rest[0], q, oom);
      AtOneMore(s2, p, done, rest[0]);
      StepBelow(s, s1, s2, f, m, obj, rest[0], q, oom);
    }
  }

  lemma {:induction false} Rejoin(done: seq<string>, rest: seq<string>)
    requires rest != []
    ensures done + [rest[0]] + rest[1..] == done + rest
  {}

  lemma {:induction false} AtOneMore(s: seq<Dentry>, p: nat, done: seq<string>, n: string)
    requires At(s, p, done) != NO_PARENT && Find(s, At(s, p, done), n, 0) < |s|
    ensures At(s, p, done + [n]) == Find(s, At(s, p, done), n, 0)
  {
    AtMore(s, p, done, [n]);
    assert [n][1..] == [];
  }

  /** The step goes where the walk goes. */
  lemma {:induction false} StepWalks(s1: seq<Dentry>, s2: seq<Dentry>, f: Forest, m: Mounts, obj: int,
                                     rest: seq<string>, q: int, oom: bool)
    requires Occ(s1, obj) && rest != [] && Stepped(s1, s2, f, m, obj, rest[0], q, oom)
    ensures q != -1 ==> Occ(s2, q) && Walk(f, m, NodeOf(s1[obj]), rest) == Walk(f, m, NodeOf(s2[q]), rest[1..])
    ensures q == -1 ==> oom || Walk(f, m, NodeOf(s1[obj]), rest).None?
  {}

  /** After a step, the child is cached. */
  lemma {:induction false} StepFinds(s1: seq<Dentry>, s2: seq<Dentry>, root: int, f: Forest, m: Mounts, obj: int,
                                     n: string, q: int, oom: bool)
    requires CacheOk(s2, root, f, m) && Occ(s1, obj) && Stepped(s1, s2, f, m, obj, n, q, oom) && q != -1
    ensures Find(s2, obj, n, 0) == q
  {
    if Find(s1, obj, n, 0) < |s1| {
      FindKept(s1, s2, obj, n);
    } else {
      FindIs(s2, obj, n, q);
    }
  }

  /** There is nothing cached below an entry that was not. */
  lemma {:induction false} StepBelow(s: seq<Dentry>, s1: seq<Dentry>, s2: seq<Dentry>, f: Forest, m: Mounts, obj: int,
                                     n: string, q: int, oom: bool)
    requires Occ(s1, obj) && Stepped(s1, s2, f, m, obj, n, q, oom) && q != -1 && Kept(s, s1)
    requires SameBut(s, s1) || Childless(s1, obj)
    ensures SameBut(s, s2) || Childless(s2, q)
  {
    if Find(s1, obj, n, 0) < |s1| {
      assert Occ(s1, q) && s1[q].parent == obj;
    }
  }

  lemma {:induction false} KeptTransitive(s: seq<Dentry>, s1: seq<Dentry>, s2: seq<Dentry>)
    requires Kept(s, s1) && Kept(s1, s2)
    ensures Kept(s, s2)
  {}

  /** There is room for the steps `comps` from `p` without any eviction: a free slot for each
      that is not cached, or one in a complete cache, where only a name of no node is not. */
  ghost predicate Roomy(s: seq<Dentry>, f: Forest, p: int, comps: seq<string>) {
    Misses(s, p, comps) <= FreeSlots(s) || (Complete(s, f) && FreeSlots(s) > 0)
  }

  /** In a complete cache a step changes use counts only. */
  lemma {:induction false} CompleteSteps(s: seq<Dentry>, s': seq<Dentry>, f: Forest, m: Mounts, p: int, n: string,
                                         q: int, oom: bool)
    requires Occ(s, p) && Stepped(s, s', f, m, p, n, q, oom) && Complete(s, f)
    ensures SameBut(s, s') && FreeSlots(s') == FreeSlots(s)
  {
    SameFreeSlotsIf(s, s');
  }

  lemma {:induction false} SameFreeSlotsIf(s: seq<Dentry>, s': seq<Dentry>)
    ensures SameBut(s, s') ==> FreeSlots(s') == FreeSlots(s)
  {
    if SameBut(s, s') { SameFreeSlots(s, s'); }
  }

  /** With room the next step finds a slot. */
  lemma {:induction false} RoomForStep(s: seq<Dentry>, f: Forest, p: int, comps: seq<string>)
    requires comps != [] && Roomy(s, f, p, comps)
    ensures Find(s, p, comps[0], 0) < |s| || FreeSlots(s) > 0
  {}

  /** A step leaves room for the steps after it; one that fails, for itself too. */
  lemma {:induction false} RoomKept(s: seq<Dentry>, s': seq<Dentry>, f: Forest, m: Mounts, p: int, comps: seq<string>,
                                    q: int, oom: bool)
    requires Occ(s, p) && comps != [] && Stepped(s, s', f, m, p, comps[0], q, oom) && Roomy(s, f, p, comps)
    ensures q != -1 ==> Roomy(s', f, q, comps[1..])
    ensures q == -1 ==> Roomy(s', f, p, comps)
  {
    if Complete(s, f) { CompleteSteps(s, s', f, m, p, comps[0], q, oom); }
    if q == -1 {
      SameFreeSlots(s, s');
      SameMisses(s, s', p, comps);
    } else if Find(s, p, comps[0], 0) < |s| {
      SameMisses(s, s', q, comps[1..]);
      SameFreeSlots(s, s');
    }
  }

  /** Fewer steps miss less often. */
  lemma {:induction false} MissesPrefix(s: seq<Dentry>, p: int, comps: seq<string>, rest: seq<string>)
    ensures Misses(s, p, comps) <= Misses(s, p, comps + rest)
    decreases |comps|
  {
    if comps != [] {
      assert (comps + rest)[0] == comps[0] && (comps + rest)[1..] == comps[1..] + rest;
      if Find(s, p, comps[0], 0) < |s| {
        MissesPrefix(s, Find(s, p, comps[0], 0), comps[1..], rest);
      }
    }
  }

  lemma {:induction false} Shift(comps: seq<string>, i: nat, extra: seq<string>)
    requires i < |comps|
    ensures comps[..i] + comps[i..] == comps && comps[i..][0] == comps[i]
    ensures comps[..i] + [comps[i]] == comps[..i + 1] && comps[i..][1..] == comps[i + 1..]
    ensures (comps[i..] + extra)[0] == comps[i] && (comps[i..] + extra)[1..] == comps[i + 1..] + extra
    ensures comps[..i] + (comps[i..] + extra) == comps + extra
  {}

  /** `i` steps of a lookup of `comps` have led to entry `obj`, and there is room for the
      rest and the steps `extra` after it. */
  ghost predicate Descending(s: seq<Dentry>, s': seq<Dentry>, f: Forest, m: Mounts, root: int,
                             comps: seq<string>, i: nat, extra: seq<string>, obj: int)
    requires Occ(s, root) && i <= |comps|
  {
    Occ(s', obj) && DescentParts(s, s', f, m, root, comps, i, extra, obj) == true
  }

  ghost predicate DescentParts(s: seq<Dentry>, s': seq<Dentry>, f: Forest, m: Mounts, root: int,
                               comps: seq<string>, i: nat, extra: seq<string>, obj: int)
    requires Occ(s, root) && i <= |comps|
  {
    && OnTheWay(s, s', f, m, root, comps[..i], comps[i..], obj)
    && Roomy(s', f, obj, comps[i..] + extra)
  }

  lemma {:induction false} DescentStarts(s: seq<Dentry>, f: Forest, m: Mounts, root: int, comps: seq<string>,
                                         extra: seq<string>)
    requires Occ(s, root) && Roomy(s, f, root, comps + extra)
    ensures Descending(s, s, f, m, root, comps, 0, extra, root)
  {
    assert comps[0..] == comps && comps[..0] + comps == comps;
  }

  lemma {:induction false} DescentHasRoom(s: seq<Dentry>, s1: seq<Dentry>, f: Forest, m: Mounts, root: int,
                       comps: seq<string>, i: nat, extra: seq<string>, obj: int)
    requires i < |comps| && Occ(s, root) && Descending(s, s1, f, m, root, comps, i, extra, obj)
    ensures Find(s1, obj, comps[i], 0) < |s1| || FreeSlots(s1) > 0
  {
    Shift(comps, i, extra);
    RoomForStep(s1, f, obj, comps[i..] + extra);
  }

  lemma {:induction false} DescentAdvances(s: seq<Dentry>, s1: seq<Dentry>, s2: seq<Dentry>, f: Forest, m: Mounts,
                                           root: int, comps: seq<string>, i: nat, extra: seq<string>, obj: int, q: int,
                                           oom: bool)
    requires i < |comps| && Occ(s, root) && Descending(s, s1, f, m, root, comps, i, extra, obj)
    requires CacheOk(s2, root, f, m) && Stepped(s1, s2, f, m, obj, comps[i], q, oom)
    ensures q != -1 ==> Descending(s, s2, f, m, root, comps, i + 1, extra, q)
    ensures q == -1 ==> LookedUp(s, s2, f, m, root, comps, q, oom)
    ensures q == -1 ==> Roomy(s2, f, root, comps + extra)
  {
    Shift(comps, i, extra);
    WayAdvances(s, s1, s2, root, f, m, root, comps[..i], comps[i..], obj, q, oom);
    RoomKept(s1, s2, f, m, obj, comps[i..] + extra, q, oom);
    if q == -1 {
      AtMore(s2, root, comps[..i], comps[i..] + extra);
    }
  }

  lemma {:induction false} DescentArrives(s: seq<Dentry>, s': seq<Dentry>, f: Forest, m: Mounts, root: int,
                       comps: seq<string>, extra: seq<string>, obj: int, oom: bool)
    requires Occ(s, root) && Descending(s, s', f, m, root, comps, |comps|, extra, obj)
    ensures LookedUp(s, s', f, m, root, comps, obj, oom)
    ensures Roomy(s', f, root, comps + extra)
  {
    assert comps[..|comps|] == comps && comps[|comps|..] == [] && comps + [] == comps && [] + extra == extra;
    AtMore(s', root, comps, extra);
  }

  // ---------------------------------------------------------------- lookups that evict

  /** Mountpoints are where they were, and no others. */
  ghost predicate SamePinned(s: seq<Dentry>, s': seq<Dentry>) {
    |s'| == |s| && forall i {:trigger s'[i]} :: 0 <= i < |s| ==>
      if Pinned(s[i]) then s'[i] == s[i].(count := s'[i].count) else !Pinned(s'[i])
  }

  lemma {:induction false} PinnedAnchored(s: seq<Dentry>, s': seq<Dentry>)
    requires SamePinned(s, s')
    ensures Anchored(s, s')
  {}

  ghost predicate AllPinned(s: seq<Dentry>) {
    forall i :: 0 <= i < |s| ==> Pinned(s[i])
  }

  lemma {:induction false} WentPinned(s: seq<Dentry>, s': seq<Dentry>, f: Forest, m: Mounts, p: int, n: string, k: int,
                                      oom: bool)
    requires Went(s, s', f, m, p, n, k, oom)
    ensures SamePinned(s, s') && (NoSlot(s, p, n) ==> AllPinned(s))
  {
    VictimIsBest(s, |s|);
  }

  lemma {:induction false} SamePinnedTwice(s: seq<Dentry>, s1: seq<Dentry>, s2: seq<Dentry>)
    requires SamePinned(s, s1) && SamePinned(s1, s2)
    ensures SamePinned(s, s2) && (AllPinned(s1) ==> AllPinned(s))
  {
    if AllPinned(s1) {
      forall i | 0 <= i < |s|
        ensures Pinned(s[i])
      {
        assert Pinned(s1[i]);
      }
    }
  }

  /** The root entry is the same, but for its count. */
  ghost predicate SameRoot(s: seq<Dentry>, s': seq<Dentry>, root: int) {
    Occ(s, root) && Occ(s', root) && s'[root] == s[root].(count := s'[root].count)
  }

  lemma {:induction false} PinnedRoot(s: seq<Dentry>, s': seq<Dentry>, root: int)
    requires SamePinned(s, s') && Occ(s, root) && s[root].mnt.Some?
    ensures SameRoot(s, s', root)
  {}

  lemma {:induction false} RoomForOne(s: seq<Dentry>, p: int, n: string)
    requires FreeSlots(s) > 0
    ensures Evictable(s, p, n) && !NoSlot(s, p, n) && Base(s, p, n) == s
  {
    VictimIsBest(s, |s|);
  }

  // ---------------------------------------------------------------- the way stays cached

  /** Steps that lead elsewhere do not need a childless entry. */
  lemma {:induction false} AtForgets(s: seq<Dentry>, v: nat, p: nat, comps: seq<string>)
    requires UniqueKeys(s) && v < |s| && Childless(s, v) && At(s, p, comps) != NO_PARENT && At(s, p, comps) != v
    ensures At(s[v := EMPTY], p, comps) == At(s, p, comps)
    decreases |comps|
  {
    if comps != [] {
      var k := Find(s, p, comps[0], 0);
      if k == v {
        assert false;
      } else {
        FindForgets(s, v, p, comps[0]);
        AtForgets(s, v, k, comps[1..]);
      }
    }
  }

  /** The steps that led to a childless entry lead nowhere when it is gone. */
  lemma {:induction false} AtForgotten(s: seq<Dentry>, d: nat, p: nat, comps: seq<string>)
    requires UniqueKeys(s) && Occ(s, d) && Childless(s, d) && At(s, p, comps) == d && comps != []
    ensures At(s[d := EMPTY], p, comps) == NO_PARENT
    decreases |comps|
  {
    var n, k := comps[0], Find(s, p, comps[0], 0);
    if k == d {
      var s' := s[d := EMPTY];
      assert forall i :: 0 <= i < |s'| ==> !s'[i].Is(p, n);
    } else {
      FindForgets(s, d, p, n);
      AtForgotten(s, d, k, comps[1..]);
    }
  }

  lemma {:induction false} FindForgets(s: seq<Dentry>, v: nat, p: int, n: string)
    requires UniqueKeys(s) && v < |s| && Find(s, p, n, 0) < |s| && Find(s, p, n, 0) != v
    ensures Find(s[v := EMPTY], p, n, 0) == Find(s, p, n, 0)
  {
    var s' := s[v := EMPTY];
    assert UniqueKeys(s');
    FindIs(s', p, n, Find(s, p, n, 0));
  }

  /** A step keeps the way to where it starts, and adds itself; what it adds has no children. */
  lemma {:induction false} WentAt(s: seq<Dentry>, s': seq<Dentry>, root: int, f: Forest, m: Mounts, start: nat,
                                  done: seq<string>, p: int, n: string, q: int, oom: bool)
    requires CacheOk(s, root, f, m) && CacheOk(s', root, f, m) && Went(s, s', f, m, p, n, q, oom) && Evictable(s, p, n)
    requires Occ(s, p) && At(s, start, done) == p
    ensures At(s', start, done) == p && (q != -1 ==> Occ(s', q) && At(s', start, done + [n]) == q)
    ensures Find(s, p, n, 0) < |s| ==> SameBut(s, s')
    ensures q != -1 && Find(s, p, n, 0) == |s| ==> Childless(s', q)
  {
    hide CacheParts, Complete;
    CacheBasics(s, root, f, m);
    CacheBasics(s', root, f, m);
    BaseKeeps(s, root, f, m, p, n);
    BaseAt(s, start, done, p, n);
    if !NoSlot(s, p, n) {
      AtKept(Base(s, p, n), s', start, done);
      if q != -1 {
        StepFinds(Base(s, p, n), s', root, f, m, p, n, q, oom);
        AtOneMore(s', start, done, n);
      }
    }
  }

  lemma {:induction false} BaseAt(s: seq<Dentry>, start: nat, done: seq<string>, p: int, n: string)
    requires UniqueKeys(s) && Occ(s, p) && At(s, start, done) == p && Evictable(s, p, n)
    ensures At(Base(s, p, n), start, done) == p
  {
    var v := Victim(s, |s|);
    if Base(s, p, n) != s { AtForgets(s, v, start, done); }
  }

  lemma {:induction false} SameButTwice(s: seq<Dentry>, s1: seq<Dentry>, s2: seq<Dentry>)
    requires SameBut(s, s1) && SameBut(s1, s2)
    ensures SameBut(s, s2)
  {}

  // ---------------------------------------------------------------- trying again

  /** Entries, each in the directory of the one before. */
  ghost predicate IsWay(s: seq<Dentry>, way: seq<int>) {
    && way != [] && (forall i :: 0 <= i < |way| ==> Occ(s, way[i]))
    && forall i :: 0 < i < |way| ==> Below(s, way[i - 1], way[i])
  }

  ghost predicate Below(s: seq<Dentry>, p: int, i: int) {
    Occ(s, i) && s[i].parent == p
  }

  /** The entries of a way may have been requested more often. */
  ghost predicate Raised(s: seq<Dentry>, s': seq<Dentry>, way: seq<int>) {
    |s'| == |s| && forall i :: 0 <= i < |s| ==>
      && s'[i] == s[i].(count := s'[i].count) && s'[i].count >= s[i].count
      && (i !in way ==> s'[i] == s[i])
  }

  lemma {:induction false} OffTheWay(s: seq<Dentry>, way: seq<int>, v: int)
    requires IsWay(s, way) && Childless(s, v) && v != way[|way| - 1]
    ensures v !in way
  {
    forall i | 0 <= i < |way|
      ensures way[i] != v
    {
      if i < |way| - 1 { assert Below(s, way[i], way[i + 1]); }
    }
  }

  /** Entries that are needed and requested more often are victims no more than before. */
  lemma {:induction false} RaisedVictim(s: seq<Dentry>, s': seq<Dentry>, way: seq<int>)
    requires Raised(s, s', way)
    requires var v := Victim(s, |s|); v == -1 || s[v].Free() || v !in way
    ensures Victim(s', |s'|) == Victim(s, |s|)
  {
    VictimIsFirst(s, |s|);
    FirstIsVictim(s', |s'|, Victim(s, |s|));
  }

  lemma {:induction false} RaisedStep(s: seq<Dentry>, s': seq<Dentry>, way: seq<int>, p: int, n: string)
    requires IsWay(s, way) && Raised(s, s', way) && p == way[|way| - 1] && Evictable(s, p, n)
    ensures Find(s', p, n, 0) == Find(s, p, n, 0) && Evictable(s', p, n) && (NoSlot(s', p, n) <==> NoSlot(s, p, n))
    ensures var v := Victim(s, |s|);
            Find(s, p, n, 0) == |s| ==> Victim(s', |s'|) == v && v !in way
  {
    SameFind(s, s', p, n, 0);
    var v := Victim(s, |s|);
    if Find(s, p, n, 0) == |s| {
      if v != -1 && !s[v].Free() { OffTheWay(s, way, v); }
      RaisedVictim(s, s', way);
    }
  }

  lemma {:induction false} RaisedAfter(s: seq<Dentry>, s': seq<Dentry>, f: Forest, way: seq<int>, p: int, n: string)
    requires IsWay(s, way) && Raised(s, s', way) && p == way[|way| - 1] && Evictable(s, p, n)
    requires !NoSlot(s, p, n) && Child(f, NodeOf(s[p]), n).Some?
    ensures StepEnd(s', p, n) == StepEnd(s, p, n) && !NoSlot(s', p, n) && NodeOf(s'[p]) == NodeOf(s[p])
    ensures var t, t', longer := AfterStep(s, f, p, n), AfterStep(s', f, p, n), way + [StepEnd(s, p, n)];
            IsWay(t, longer) && Raised(t, t', longer)
  {
    hide IsWay, Raised, Evictable, Victim, Child;
    RaisedNode(s, s', way);
    RaisedStep(s, s', way, p, n);
    var t, t', k := AfterStep(s, f, p, n), AfterStep(s', f, p, n), StepEnd(s, p, n);
    RaisedParent(s, s', way, p, k, n);
    LongerWay(s, way, k, t[k]);
    LongerRaised(s, s', way, k, t[k], t'[k]);
  }

  lemma {:induction false} RaisedParent(s: seq<Dentry>, s': seq<Dentry>, way: seq<int>, p: int, k: int, n: string)
    requires IsWay(s, way) && Raised(s, s', way) && p == way[|way| - 1] && 0 <= k < |s|
    ensures |s'| == |s| && s'[k] == s[k].(count := s'[k].count) && s'[k].count >= s[k].count
    ensures k !in way ==> NewEntry(s', k, p, n) == NewEntry(s, k, p, n) && p != k
  {}

  lemma {:induction false} LongerWay(s: seq<Dentry>, way: seq<int>, k: int, d: Dentry)
    requires IsWay(s, way) && 0 <= k < |s| && !d.Free() && d.parent == way[|way| - 1]
    requires k !in way || d == s[k].(count := d.count)
    ensures IsWay(s[k := d], way + [k])
  {
    var t, longer := s[k := d], way + [k];
    forall i | 0 < i < |longer|
      ensures Below(t, longer[i - 1], longer[i])
    {
      if i < |way| { assert Below(s, way[i - 1], way[i]); }
    }
  }

  lemma {:induction false} LongerRaised(s: seq<Dentry>, s': seq<Dentry>, way: seq<int>, k: int, d: Dentry, d': Dentry)
    requires Raised(s, s', way) && 0 <= k < |s| && d' == d.(count := d'.count) && d'.count >= d.count
    ensures Raised(s[k := d], s'[k := d'], way + [k])
  {
    assert k in way + [k];
  }

  /** What is safe stays so when entries on the way have been requested more often. */
  lemma {:induction false} RaisedSafe(s: seq<Dentry>, s': seq<Dentry>, f: Forest, way: seq<int>, comps: seq<string>)
    requires IsWay(s, way) && Raised(s, s', way) && Safe(s, f, way[|way| - 1], comps)
    ensures Safe(s', f, way[|way| - 1], comps)
    decreases |comps|
  {
    hide IsWay, Raised, Evictable, AfterStep, StepEnd, Child;
    RaisedNode(s, s', way);
    if comps != [] {
      var p, n := way[|way| - 1], comps[0];
      RaisedStep(s, s', way, p, n);
      if !NoSlot(s, p, n) && Child(f, NodeOf(s[p]), n).Some? {
        RaisedAfter(s, s', f, way, p, n);
        RaisedSafe(AfterStep(s, f, p, n), AfterStep(s', f, p, n), f, way + [StepEnd(s, p, n)], comps[1..]);
      }
    }
  }

  lemma {:induction false} RaisedNode(s: seq<Dentry>, s': seq<Dentry>, way: seq<int>)
    requires IsWay(s, way) && Raised(s, s', way)
    ensures way != [] && var p := way[|way| - 1]; Occ(s, p) && Occ(s', p) && NodeOf(s'[p]) == NodeOf(s[p])
  {}

  /** The entries on the way that `comps` names from `p`. */
  lemma {:induction false} WayTo(s: seq<Dentry>, p: int, comps: seq<string>) returns (way: seq<int>)
    requires Occ(s, p) && At(s, p, comps) != NO_PARENT
    ensures IsWay(s, way) && way[0] == p && way[|way| - 1] == At(s, p, comps)
    decreases |comps|
  {
    if comps == [] {
      way := [p];
    } else {
      var k := Find(s, p, comps[0], 0);
      var rest := WayTo(s, k, comps[1..]);
      way := [p] + rest;
      forall i | 0 < i < |way|
        ensures Below(s, way[i - 1], way[i])
      {
        if i > 1 { assert Below(s, rest[i - 2], rest[i - 1]); }
      }
    }
  }

  /** If the steps behind a way that is cached are safe, so are all from its start. */
  lemma {:induction false} CachedIsSafe(s: seq<Dentry>, f: Forest, p: int, done: seq<string>, rest: seq<string>)
    requires Occ(s, p) && At(s, p, done) != NO_PARENT && Safe(s, f, At(s, p, done), rest)
    ensures Safe(s, f, p, done + rest)
    decreases |done|
  {
    hide IsWay, Raised, Child, NewEntry, SameBut, Victim;
    if done == [] {
      assert done + rest == rest;
    } else {
      var n, k := done[0], Find(s, p, done[0], 0);
      var s' := AfterHit(s, p, n);
      var way := WayTo(s, k, done[1..]);
      HitRaises(s, k, way);
      RaisedSafe(s, s', f, way, rest);
      SameAt(s, s', k, done[1..]);
      CachedIsSafe(s', f, k, done[1..], rest);
      assert (done + rest)[0] == n && (done + rest)[1..] == done[1..] + rest;
    }
  }

  lemma {:induction false} HitRaises(s: seq<Dentry>, k: nat, way: seq<int>)
    requires Occ(s, k) && way != [] && way[0] == k
    ensures var s' := s[k := s[k].(count := s[k].count + 1)];
            Raised(s, s', way) && SameBut(s, s')
  {
    assert k in way;
  }

  /** A step that failed has wiped the slot it would use; it can be tried again, and those after
      it are safe as before. */
  lemma {:induction false} FailedIsSafe(s: seq<Dentry>, s': seq<Dentry>, f: Forest, m: Mounts, p: int,
                                        comps: seq<string>, oom: bool)
    requires comps != [] && Safe(s, f, p, comps) && Went(s, s', f, m, p, comps[0], -1, oom)
    ensures Safe(s', f, p, comps)
  {
    hide Stepped, Evictable, Victim, FirstVictim, NewEntry, AfterStep;
    if !NoSlot(s, p, comps[0]) {
      WipedAgain(s, p, comps[0]);
      if Child(f, NodeOf(s[p]), comps[0]).Some? { WipedAfter(s, f, p, comps[0]); }
    }
  }

  lemma {:induction false} WipedAgain(s: seq<Dentry>, p: int, n: string)
    requires Occ(s, p) && Find(s, p, n, 0) == |s| && Victim(s, |s|) != -1 && Evictable(s, p, n)
    ensures var v := Victim(s, |s|);
            var s' := s[v := EMPTY];
            && Find(s', p, n, 0) == |s| && Victim(s', |s|) == v && Evictable(s', p, n) && Occ(s', p) && s'[p] == s[p]
  {
    var v := Victim(s, |s|);
    VictimIsFirst(s, |s|);
    FirstIsVictim(s[v := EMPTY], |s|, v);
    ForgottenMiss(s, p, n, v);
  }

  lemma {:induction false} WipedAfter(s: seq<Dentry>, f: Forest, p: int, n: string)
    requires Occ(s, p) && Find(s, p, n, 0) == |s| && Victim(s, |s|) != -1 && Child(f, NodeOf(s[p]), n).Some?
    requires var v := Victim(s, |s|);
             var s' := s[v := EMPTY];
             Find(s', p, n, 0) == |s| && Victim(s', |s|) == v && Occ(s', p) && s'[p] == s[p]
    ensures var s' := s[Victim(s, |s|) := EMPTY];
            StepEnd(s', p, n) == StepEnd(s, p, n) && AfterStep(s', f, p, n) == AfterStep(s, f, p, n)
  {
    var v := Victim(s, |s|);
    WriteTwice(s, v, EMPTY, AfterStep(s, f, p, n)[v]);
  }

  /** The slots after a hit. */
  ghost function AfterHit(s: seq<Dentry>, p: int, n: string): seq<Dentry>
    requires Find(s, p, n, 0) < |s|
  {
    var k := Find(s, p, n, 0);
    s[k := s[k].(count := s[k].count + 1)]
  }

  // ---------------------------------------------------------------- whole lookups that evict

  /** What a lookup of `comps` does, with or without evictions: the answer is behind the node
      the walk leads to, and the way to it is cached; -1 means that the walk fails, that memory
      ran out, or that there are only mountpoints.  Steps `extra` more that were safe still are.
      A lookup of what is cached, or with room for all the steps, loses no entry. */
  ghost predicate Reached(s: seq<Dentry>, s': seq<Dentry>, f: Forest, m: Mounts, root: int,
                          comps: seq<string>, extra: seq<string>, k: int, oom: bool)
  {
    ReachedParts(s, s', f, m, root, comps, extra, k, oom) == true
  }

  ghost predicate ReachedParts(s: seq<Dentry>, s': seq<Dentry>, f: Forest, m: Mounts, root: int,
                               comps: seq<string>, extra: seq<string>, k: int, oom: bool)
  {
    && Occ(s, root) && SamePinned(s, s')
    && var target := Walk(f, m, NodeOf(s[root]), comps);
    && (k == -1 ==> oom || AllPinned(s) || target.None?)
    && (k == -1 ==> Safe(s', f, root, comps + extra))
    && (k != -1 ==> Occ(s', k) && target == Some(NodeOf(s'[k])) && At(s', root, comps) == k && Safe(s', f, k, extra)
                    && (SameBut(s, s') || Childless(s', k)))
    && (At(s, root, comps) != NO_PARENT ==> SameBut(s, s'))
    && (Roomy(s, f, root, comps + extra) ==>
          LookedUp(s, s', f, m, root, comps, k, oom) && Roomy(s', f, root, comps + extra))
  }

  /** `i` steps of such a lookup have led to entry `obj`. */
  ghost predicate Going(s: seq<Dentry>, s': seq<Dentry>, f: Forest, m: Mounts, root: int,
                        comps: seq<string>, i: nat, extra: seq<string>, obj: int)
    requires i <= |comps|
  {
    Occ(s', obj) && GoingParts(s, s', f, m, root, comps, i, extra, obj) == true
  }

  ghost predicate GoingParts(s: seq<Dentry>, s': seq<Dentry>, f: Forest, m: Mounts, root: int,
                             comps: seq<string>, i: nat, extra: seq<string>, obj: int)
    requires i <= |comps|
  {
    && Occ(s, root) && Occ(s', obj) && SamePinned(s, s')
    && Walk(f, m, NodeOf(s[root]), comps) == Walk(f, m, NodeOf(s'[obj]), comps[i..])
    && Safe(s', f, obj, comps[i..] + extra)
    && At(s', root, comps[..i]) == obj && (SameBut(s, s') || Childless(s', obj))
    && (At(s, root, comps[..i]) != NO_PARENT ==> SameBut(s, s'))
    && (Roomy(s, f, root, comps + extra) ==> Descending(s, s', f, m, root, comps, i, extra, obj))
  }

  lemma {:induction false} GoingRefused(s: seq<Dentry>, f: Forest, m: Mounts, root: int, comps: seq<string>,
                                        extra: seq<string>)
    requires Occ(s, root) && Safe(s, f, root, comps + extra)
    ensures Reached(s, s, f, m, root, comps, extra, -1, true)
  {}

  lemma {:induction false} GoingStarts(s: seq<Dentry>, f: Forest, m: Mounts, root: int, comps: seq<string>,
                                       extra: seq<string>)
    requires Occ(s, root) && Safe(s, f, root, comps + extra)
    ensures Going(s, s, f, m, root, comps, 0, extra, root)
  {
    assert comps[0..] == comps && comps[..0] == [];
    if Roomy(s, f, root, comps + extra) { DescentStarts(s, f, m, root, comps, extra); }
  }

  lemma {:induction false} GoingEvicts(s: seq<Dentry>, s1: seq<Dentry>, f: Forest, m: Mounts, root: int,
                                       comps: seq<string>, i: nat, extra: seq<string>, obj: int)
    requires i < |comps| && Going(s, s1, f, m, root, comps, i, extra, obj)
    ensures Evictable(s1, obj, comps[i])
    ensures Roomy(s, f, root, comps + extra) ==> !NoSlot(s1, obj, comps[i]) && Base(s1, obj, comps[i]) == s1
  {
    Shift(comps, i, extra);
    if Roomy(s, f, root, comps + extra) {
      DescentHasRoom(s, s1, f, m, root, comps, i, extra, obj);
      if FreeSlots(s1) > 0 { RoomForOne(s1, obj, comps[i]); }
    }
  }

  /** Step `i` goes where the walk goes. */
  lemma {:induction false} WentWalks(s1: seq<Dentry>, s2: seq<Dentry>, root: int, f: Forest, m: Mounts, obj: int,
                                     rest: seq<string>, q: int, oom: bool)
    requires CacheOk(s1, root, f, m) && rest != [] && Went(s1, s2, f, m, obj, rest[0], q, oom)
             && Evictable(s1, obj, rest[0])
    ensures q != -1 ==> Occ(s2, q) && Walk(f, m, NodeOf(s1[obj]), rest) == Walk(f, m, NodeOf(s2[q]), rest[1..])
    ensures q == -1 ==> oom || NoSlot(s1, obj, rest[0]) || Walk(f, m, NodeOf(s1[obj]), rest).None?
  {
    BaseKeeps(s1, root, f, m, obj, rest[0]);
    if !NoSlot(s1, obj, rest[0]) {
      StepWalks(Base(s1, obj, rest[0]), s2, f, m, obj, rest, q, oom);
    }
  }

  lemma {:induction false} GoingAdvances(s: seq<Dentry>, s1: seq<Dentry>, s2: seq<Dentry>, f: Forest, m: Mounts,
                                         root: int, comps: seq<string>, i: nat, extra: seq<string>, obj: int, q: int,
                                         oom: bool)
    requires i < |comps| && Going(s, s1, f, m, root, comps, i, extra, obj) && root != NO_PARENT
    requires CacheOk(s1, root, f, m) && CacheOk(s2, root, f, m) && Went(s1, s2, f, m, obj, comps[i], q, oom)
    ensures q != -1 ==> Going(s, s2, f, m, root, comps, i + 1, extra, q)
    ensures q == -1 ==> Reached(s, s2, f, m, root, comps, extra, q, oom)
  {
    hide CacheParts, StepParts, LookupParts, DescentParts, Roomy, SamePinned, SameBut, Childless, Find, AllPinned;
    var rest := comps[i..];
    Shift(comps, i, extra);
    GoingEvicts(s, s1, f, m, root, comps, i, extra, obj);
    WentPinned(s1, s2, f, m, obj, comps[i], q, oom);
    SamePinnedTwice(s, s1, s2);
    WentWalks(s1, s2, root, f, m, obj, rest, q, oom);
    WentAt(s1, s2, root, f, m, root, comps[..i], obj, comps[i], q, oom);
    GoingBelow(s, s1, s2, root, f, m, comps, i, obj, q, oom);
    if q == -1 {
      FailedIsSafe(s1, s2, f, m, obj, rest + extra, oom);
      RootIsMounted(s2, root, f, m);
      CachedIsSafe(s2, f, root, comps[..i], rest + extra);
    }
    if Roomy(s, f, root, comps + extra) {
      DescentAdvances(s, s1, s2, f, m, root, comps, i, extra, obj, q, oom);
    }
  }

  /** What was cached stays so; what was not has nothing below it. */
  lemma {:induction false} GoingBelow(s: seq<Dentry>, s1: seq<Dentry>, s2: seq<Dentry>, root: int, f: Forest, m: Mounts,
                                      comps: seq<string>, i: nat, obj: int, q: int, oom: bool)
    requires i < |comps| && Occ(s1, obj) && Went(s1, s2, f, m, obj, comps[i], q, oom) && root != NO_PARENT
    requires Find(s1, obj, comps[i], 0) < |s1| ==> SameBut(s1, s2)
    requires q != -1 && Find(s1, obj, comps[i], 0) == |s1| ==> Childless(s2, q)
    requires At(s1, root, comps[..i]) == obj && (SameBut(s, s1) || Childless(s1, obj)) && |s1| == |s|
    requires At(s, root, comps[..i]) != NO_PARENT ==> SameBut(s, s1)
    requires 0 <= root
    ensures q != -1 ==> SameBut(s, s2) || Childless(s2, q)
    ensures At(s, root, comps[..i + 1]) != NO_PARENT ==> SameBut(s, s2)
    ensures At(s, root, comps) != NO_PARENT ==> SameBut(s, s2)
  {
    var n := comps[i];
    assert comps[..i + 1] == comps[..i] + [n] && comps == comps[..i + 1] + comps[i + 1..];
    if Find(s1, obj, n, 0) < |s1| {
      var k := Find(s1, obj, n, 0);
      assert Occ(s1, k) && s1[k].parent == obj;
      SameButTwice(s, s1, s2);
    }
    if At(s, root, comps) != NO_PARENT { AtPrefix(s, root, comps[..i + 1], comps[i + 1..]); }
    if At(s, root, comps[..i + 1]) != NO_PARENT {
      AtPrefix(s, root, comps[..i], [n]);
      SameAt(s, s1, root, comps[..i]);
      AtMore(s, root, comps[..i], [n]);
      SameFind(s, s1, obj, n, 0);
    }
  }

  lemma {:induction false} GoingArrives(s: seq<Dentry>, s': seq<Dentry>, f: Forest, m: Mounts, root: int,
                                        comps: seq<string>, extra: seq<string>, obj: int, oom: bool)
    requires Going(s, s', f, m, root, comps, |comps|, extra, obj)
    ensures Reached(s, s', f, m, root, comps, extra, obj, oom)
  {
    assert comps[|comps|..] == [] && comps[..|comps|] == comps && [] + extra == extra;
    if Roomy(s, f, root, comps + extra) { DescentArrives(s, s', f, m, root, comps, extra, obj, oom); }
  }

  /** A lookup with room is safe. */
  lemma {:induction false} RoomIsSafe(s: seq<Dentry>, root: int, f: Forest, m: Mounts, p: int, comps: seq<string>)
    requires CacheOk(s, root, f, m) && Occ(s, p) && Roomy(s, f, p, comps)
    ensures Safe(s, f, p, comps)
    decreases |comps|, 1
  {
    if comps != [] {
      var n := comps[0];
      if Find(s, p, n, 0) < |s| {
        HitIsSafe(s, root, f, m, p, comps);
      } else {
        RoomForOne(s, p, n);
        VictimIsBest(s, |s|);
        if Child(f, NodeOf(s[p]), n).Some? {
          var v := Victim(s, |s|);
          StepEnters(s, root, f, m, p, n, v, Child(f, NodeOf(s[p]), n).value.ino, false);
          RoomKept(s, AfterStep(s, f, p, n), f, m, p, comps, v, false);
          RoomIsSafe(AfterStep(s, f, p, n), root, f, m, v, comps[1..]);
        }
      }
    }
  }

  lemma {:induction false} HitIsSafe(s: seq<Dentry>, root: int, f: Forest, m: Mounts, p: int, comps: seq<string>)
    requires CacheOk(s, root, f, m) && Occ(s, p) && comps != [] && Roomy(s, f, p, comps)
             && Find(s, p, comps[0], 0) < |s|
    ensures Safe(s, f, p, comps)
    decreases |comps|, 0
  {
    var k := Find(s, p, comps[0], 0);
    StepHits(s, root, f, m, p, comps[0]);
    HitAgrees(s, root, f, m, p, comps[0]);
    RoomKept(s, AfterStep(s, f, p, comps[0]), f, m, p, comps, k, false);
    RoomIsSafe(AfterStep(s, f, p, comps[0]), root, f, m, k, comps[1..]);
  }
}
