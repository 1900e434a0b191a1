/** Lookups in a full cache: which evictions are safe, and why others are not. */
module Eviction {
  import opened Frames
  import opened DentryCache
  import opened MemTree
  import opened PathCache

  lemma {:induction false} LinkedBelow(s: seq<Dentry>, root: int, f: Forest, m: Mounts, d: int)
    requires CacheOk(s, root, f, m) && Occ(s, d) && d != root && s[d].mnt.None?
    ensures Linked(s, f, d) && s[d].vno > ROOT_INO && Covered(s[d]) !in m
  {
    assert Linked(s, f, d);
    ChildExists(f, NodeOf(s[s[d].parent]), s[d].name.value);
    assert NodeOf(s[d]) == Cross(m, Covered(s[d]));
  }

  /** Giving back an entry keeps what the cache says right exactly if the entry is childless; the
      name it stood for is no longer known then: the cache is not complete any more. */
  lemma {:induction false} ForgetKeeps(s: seq<Dentry>, root: int, f: Forest, m: Mounts, d: int)
    requires CacheOk(s, root, f, m) && Occ(s, d) && d != root && s[d].mnt.None? && s[d].parent != d
    ensures CacheOk(s[d := EMPTY], root, f, m) <==> Childless(s, d)
    ensures !Complete(s[d := EMPTY], f)
  {
    hide Planted, AllPlanted, Complete, Child, Find, DirAt, Separate, MountRoots, MountPlaces;
    var s' := s[d := EMPTY];
    LinkedBelow(s, root, f, m, d);
    Forgotten(s, f, d);
    if Childless(s, d) {
      forall i | Occ(s', i) && i != root
        ensures Linked(s', f, i)
      {
        assert Occ(s, i) && Linked(s, f, i) && s[i].parent != d;
      }
      ForgetRest(s, root, f, m, d);
    } else {
      var i :| Occ(s, i) && s[i].parent == d;
      assert Occ(s', i) && i != root && !Linked(s', f, i);
    }
  }

  lemma {:induction false} Forgotten(s: seq<Dentry>, f: Forest, d: int)
    requires UniqueKeys(s) && Occ(s, d) && Linked(s, f, d) && s[d].parent != d
    ensures !Complete(s[d := EMPTY], f)
  {
    var s' := s[d := EMPTY];
    var p, n := s[d].parent, s[d].name.value;
    assert Occ(s', p) && Child(f, NodeOf(s'[p]), n).Some?;
    assert forall i :: 0 <= i < |s| && i != d && !s[i].Free() ==>
             !(s[i].name == s[d].name && s[i].parent == s[d].parent);
    assert forall i :: 0 <= i < |s'| ==> !s'[i].Is(p, n);
    assert Find(s', p, n, 0) == |s'|;
  }

  lemma {:induction false} ForgetRest(s: seq<Dentry>, root: int, f: Forest, m: Mounts, d: int)
    requires CacheOk(s, root, f, m) && Occ(s, d) && d != root && s[d].mnt.None? && Covered(s[d]) !in m
    ensures var s' := s[d := EMPTY];
            Rooted(s', root, m) && Separate(s', root) && MountRoots(s', f) && MountPlaces(s', root, m)
  {
    var s' := s[d := EMPTY];
    forall l | l in m
      ensures Pins(s', root, l)
    {
      var i :| Occ(s, i) && i != root && Covered(s[i]) == l;
      assert Occ(s', i);
    }
  }

  // ---------------------------------------------------------------- one eviction

  /** Entering a child in place of an entry that is no mountpoint keeps the cache right exactly
      if that entry is neither the parent nor the parent of another entry. */
  lemma {:induction false} EvictIff(s: seq<Dentry>, root: int, f: Forest, m: Mounts, p: int, n: string, v: int)
    requires CacheOk(s, root, f, m) && Occ(s, p) && Find(s, p, n, 0) == |s| && Child(f, NodeOf(s[p]), n).Some?
    requires Occ(s, v) && v != root && s[v].mnt.None? && s[v].parent != v
    ensures var s' := s[v := NewEntry(s, v, p, n).(vno := Child(f, NodeOf(s[p]), n).value.ino)];
            CacheOk(s', root, f, m) <==> v != p && Childless(s, v)
  {
    var d := NewEntry(s, v, p, n).(vno := Child(f, NodeOf(s[p]), n).value.ino);
    if v != p && Childless(s, v) {
      var b := s[v := EMPTY];
      ForgetKeeps(s, root, f, m, v);
      ForgottenMiss(s, p, n, v);
      EnterKeeps(b, root, f, m, p, n, v);
      assert b[v := d] == s[v := d];
    } else if v == p {
      assert s[v := d][v] == d && Occ(s[v := d], v) && d.sb.None?;
      assert !Linked(s[v := d], f, v);
    } else {
      Orphans(s, root, f, m, p, n, v, d);
    }
  }

  lemma {:induction false} ForgottenMiss(s: seq<Dentry>, p: int, n: string, v: nat)
    requires Find(s, p, n, 0) == |s| && v < |s|
    ensures Find(s[v := EMPTY], p, n, 0) == |s|
  {
    var b := s[v := EMPTY];
    assert forall i :: 0 <= i < |s| ==> !s[i].Is(p, n);
    assert forall i :: 0 <= i < |b| ==> !b[i].Is(p, n);
  }

  /** The children of an evicted entry name nothing in the node that takes its slot. */
  lemma {:induction false} Orphans(s: seq<Dentry>, root: int, f: Forest, m: Mounts, p: int, n: string, v: int,
                                   d: Dentry)
    requires CacheOk(s, root, f, m) && Occ(s, p) && Find(s, p, n, 0) == |s| && Child(f, NodeOf(s[p]), n).Some?
    requires Occ(s, v) && v != root && v != p && s[v].mnt.None? && s[v].parent != v && !Childless(s, v)
    requires d == NewEntry(s, v, p, n).(vno := Child(f, NodeOf(s[p]), n).value.ino)
    ensures !CacheOk(s[v := d], root, f, m)
  {
    var s' := s[v := d];
    var i :| Occ(s, i) && s[i].parent == v;
    assert i != root && i != v;
    UncachedChild(s, root, f, m, p, n);
    EvictedBelongs(s, root, f, m, p, n, v);
    assert Linked(s, f, i) && NodeOf(s[v]) == Covered(s[v]) != NodeOf(d);
    if CacheOk(s', root, f, m) {
      assert Linked(s', f, i);
      ChildUnique(f, NodeOf(s[v]), s[i].name.value, NodeOf(d), s[i].name.value);
    }
  }

  lemma {:induction false} EvictedBelongs(s: seq<Dentry>, root: int, f: Forest, m: Mounts, p: int, n: string, v: int)
    requires CacheOk(s, root, f, m) && Occ(s, p) && 0 <= v < |s| && v != p
    ensures NewEntry(s, v, p, n) == Dentry(Some(n), 0, p, Some(NodeOf(s[p]).sb), None, 1)
  {
    if p != root { assert Linked(s, f, p); }
  }

  /** The trees "/", "/a" and "/a/b", and a cache of two slots that knows the first two. */
  ghost function TinyForest(): Forest {
    var top := Node(DIRECTORY * 0x1000, 0, [Entry("a", 2)]);
    var dir := Node(DIRECTORY * 0x1000, 0, [Entry("b", 3)]);
    map[0 := Super(map[1 := top, 2 := dir, 3 := Node(REGULAR * 0x1000, 0, [])], 4)]
  }

  ghost function TinyCache(): (s: seq<Dentry>)
    ensures |s| == 2
  {
    [Dentry(Some("/"), 1, NO_PARENT, None, Some(0), 1), Dentry(Some("a"), 2, 0, Some(0), None, 1)]
  }

  lemma {:induction false} TinyForestPlanted()
    ensures AllPlanted(TinyForest())
    ensures Child(TinyForest(), Loc(0, 1), "a") == Some(Loc(0, 2))
            && Child(TinyForest(), Loc(0, 2), "b") == Some(Loc(0, 3))
    ensures DirAt(TinyForest(), Loc(0, 1))
  {
    var f := TinyForest();
    TinyPlanted();
    assert Planted(f[0]);
    var top, dir := f[0].nodes[1], f[0].nodes[2];
    assert top.entries[0].name == "a" && dir.entries[0].name == "b";
    assert EntryIndex(top.entries, "a", 0) == 0 && EntryIndex(dir.entries, "b", 0) == 0;
  }

  lemma {:induction false} TinyPlanted()
    ensures Planted(TinyForest()[0])
  {
    var nodes := TinyForest()[0].nodes;
    assert forall d :: d in nodes ==> d == 1 || d == 2 || d == 3;
    assert nodes[1].entries == [Entry("a", 2)] && nodes[2].entries == [Entry("b", 3)] && nodes[3].entries == [];
  }

  lemma {:induction false} TinyCacheOk()
    ensures CacheOk(TinyCache(), 0, TinyForest(), map[])
  {
    hide Planted, AllPlanted, EntryIndex, Child;
    TinyForestPlanted();
    var s, f := TinyCache(), TinyForest();
    assert NodeOf(s[0]) == Loc(0, 1) && Covered(s[1]) == Loc(0, 2);
    assert Linked(s, f, 1);
  }

  /** A full cache can evict the very parent of the entry it makes room for: with "/" mounted and
      "a" cached, every best victim for "b" in "a" is "a" itself, and the cache is wrong then. */
  lemma {:induction false} ParentCanBeVictim()
    ensures var s, f := TinyCache(), TinyForest();
            && CacheOk(s, 0, f, map[]) && Find(s, 1, "b", 0) == |s| && Child(f, NodeOf(s[1]), "b") == Some(Loc(0, 3))
            && (forall v :: BestVictim(s, |s|, v) <==> v == 1) && Victim(s, |s|) == 1
            && !CacheOk(s[1 := NewEntry(s, 1, 1, "b").(vno := 3)], 0, f, map[])
  {
    hide CacheParts, AllPlanted, Planted, Linked, EntryIndex;
    TinyForestPlanted();
    TinyCacheOk();
    var s, f := TinyCache(), TinyForest();
    assert !s[0].Is(1, "b") && !s[1].Is(1, "b");
    assert Pinned(s[0]) && !Pinned(s[1]);
    VictimIsBest(s, 2);
    EvictIff(s, 0, f, map[], 1, "b", 1);
  }

  // ---------------------------------------------------------------- steps that are safe

  /** The cache is full of mountpoints, so a miss finds no slot. */
  ghost predicate NoSlot(s: seq<Dentry>, p: int, n: string) {
    Find(s, p, n, 0) == |s| && Victim(s, |s|) == -1
  }

  /** Looking up `n` in `p` evicts nothing that is still needed. */
  ghost predicate Evictable(s: seq<Dentry>, p: int, n: string) {
    var v := Victim(s, |s|);
    Find(s, p, n, 0) < |s| || v == -1 || s[v].Free() || (v != p && Childless(s, v))
  }

  /** The cache once the victim of a miss is gone. */
  ghost function Base(s: seq<Dentry>, p: int, n: string): (b: seq<Dentry>)
    ensures |b| == |s|
  {
    var v := Victim(s, |s|);
    if Find(s, p, n, 0) < |s| || v == -1 || s[v].Free() then s else s[v := EMPTY]
  }

  lemma {:induction false} BaseKeeps(s: seq<Dentry>, root: int, f: Forest, m: Mounts, p: int, n: string)
    requires CacheOk(s, root, f, m) && Occ(s, p) && Evictable(s, p, n)
    ensures var b, v := Base(s, p, n), Victim(s, |s|);
            && CacheOk(b, root, f, m) && Occ(b, p) && b[p] == s[p] && Find(b, p, n, 0) == Find(s, p, n, 0)
            && (Find(s, p, n, 0) == |s| && v != -1 ==>
                  b[v].Free() && NewEntry(b, v, p, n) == NewEntry(s, v, p, n) && (b == s || b == s[v := EMPTY]))
  {
    var v := Victim(s, |s|);
    VictimIsBest(s, |s|);
    if Base(s, p, n) != s {
      ForgetKeeps(s, root, f, m, v);
      ForgottenMiss(s, p, n, v);
    }
  }

  lemma {:induction false} WriteTwice(s: seq<Dentry>, v: nat, x: Dentry, d: Dentry)
    requires v < |s|
    ensures s[v := x][v := d] == s[v := d]
  {}

  /** A hit, by the answer. */
  lemma {:induction false} GetHits(s: seq<Dentry>, s': seq<Dentry>, root: int, f: Forest, m: Mounts,
                                   p: int, n: string, named: bool, r: int)
    requires CacheOk(s, root, f, m) && Occ(s, p) && GetStep(s, s', p, n, named, r) && Find(s, p, n, 0) < |s|
    ensures 0 <= r < |s'| && |s'| == |s| && s'[r].vno != 0 && CacheOk(s', root, f, m) && r == Find(s, p, n, 0)
    ensures Stepped(s, s', f, m, p, n, r, false) && s' == s[r := s[r].(count := s[r].count + 1)]
  {
    hide CacheParts, StepParts, Victim, NewEntry;
    StepHits(s, root, f, m, p, n);
  }

  /** A miss: no slot, no memory for the name, or a new entry in place of the victim. */
  lemma {:induction false} GetMisses(s: seq<Dentry>, s': seq<Dentry>, root: int, f: Forest, m: Mounts,
                                     p: int, n: string, named: bool, r: int)
    requires CacheOk(s, root, f, m) && Occ(s, p) && GetStep(s, s', p, n, named, r) && Find(s, p, n, 0) == |s|
             && Evictable(s, p, n)
    ensures |s'| == |s| && r < |s| && (NoSlot(s, p, n) ==> r == -1 && s' == s)
    ensures var b := Base(s, p, n);
            && CacheOk(b, root, f, m) && Occ(b, p)
            && (r == -1 && !NoSlot(s, p, n) ==>
                  !named && CacheOk(s', root, f, m) && Stepped(b, s', f, m, p, n, r, true)
                  && s' == s[Victim(s, |s|) := EMPTY])
            && (r != -1 ==> 0 <= r && r == Victim(s, |s|) && Find(b, p, n, 0) == |b| && b[r].Free()
                            && s' == b[r := NewEntry(b, r, p, n)] && s'[r].vno == 0)
  {
    hide CacheParts, StepParts, BestVictim, Counted, UniqueKeys;
    BaseKeeps(s, root, f, m, p, n);
    var b, v := Base(s, p, n), Victim(s, |s|);
    if v != -1 {
      WriteTwice(s, v, EMPTY, EMPTY);
      WriteTwice(s, v, EMPTY, NewEntry(s, v, p, n));
      if r == -1 {
        StepFails(b, root, f, m, p, n, v, true);
      }
    }
  }

  /** The slots after a step to a child that exists, and the entry it ends at. */
  ghost function AfterStep(s: seq<Dentry>, f: Forest, p: int, n: string): (s': seq<Dentry>)
    requires Occ(s, p) && !NoSlot(s, p, n) && Child(f, NodeOf(s[p]), n).Some?
    ensures |s'| == |s|
  {
    var k, v := Find(s, p, n, 0), Victim(s, |s|);
    if k < |s| then s[k := s[k].(count := s[k].count + 1)]
    else s[v := NewEntry(s, v, p, n).(vno := Child(f, NodeOf(s[p]), n).value.ino)]
  }

  ghost function StepEnd(s: seq<Dentry>, p: int, n: string): int
  {
    if Find(s, p, n, 0) < |s| then Find(s, p, n, 0) else Victim(s, |s|)
  }

  /** What one step of a path makes of the slots `s`, evicting an entry if it must. */
  ghost predicate Went(s: seq<Dentry>, s': seq<Dentry>, f: Forest, m: Mounts, p: int, n: string, k: int, oom: bool) {
    WentParts(s, s', f, m, p, n, k, oom) == true
  }

  ghost predicate WentParts(s: seq<Dentry>, s': seq<Dentry>, f: Forest, m: Mounts, p: int, n: string, k: int, oom: bool)
  {
    && Occ(s, p) && Occ(Base(s, p, n), p)
    && if NoSlot(s, p, n) then k == -1 && s' == s
       else
         && Stepped(Base(s, p, n), s', f, m, p, n, k, oom)
         && (k == -1 ==> Find(s, p, n, 0) == |s| && s' == s[Victim(s, |s|) := EMPTY])
         && (k != -1 ==> Child(f, NodeOf(s[p]), n).Some? && s' == AfterStep(s, f, p, n) && k == StepEnd(s, p, n))
  }

  /** A miss has a new entry in slot `k`, without a number yet. */
  ghost predicate NewSlot(s: seq<Dentry>, s': seq<Dentry>, p: int, n: string, k: int) {
    var b := Base(s, p, n);
    && Find(s, p, n, 0) == |s| && 0 <= k < |b| && k == Victim(s, |s|) && b[k].Free() && -1 <= p < |b|
    && s' == b[k := NewEntry(b, k, p, n)]
  }

  lemma {:induction false} GetWent(s: seq<Dentry>, s': seq<Dentry>, root: int, f: Forest, m: Mounts,
                                   p: int, n: string, named: bool, r: int, oom: bool)
    requires CacheOk(s, root, f, m) && Occ(s, p) && GetStep(s, s', p, n, named, r) && Evictable(s, p, n)
    requires oom <==> !named && Find(s, p, n, 0) == |s| && Victim(s, |s|) != -1
    ensures -1 <= r < |s'| && |s'| == |s|
    ensures r == -1 || s'[r].vno != 0 ==> CacheOk(s', root, f, m) && Went(s, s', f, m, p, n, r, oom)
    ensures r != -1 && s'[r].vno == 0 ==> NewSlot(s, s', p, n, r)
  {
    hide CacheParts, BestVictim, NewEntry, Counted, UniqueKeys, Cross, FreeSlots, Childless, Complete, Kept, SameBut;
    if Find(s, p, n, 0) < |s| {
      GetHits(s, s', root, f, m, p, n, named, r);
    } else {
      GetMisses(s, s', root, f, m, p, n, named, r);
    }
  }

  /** The new entry has been filled in, or its slot given back. */
  lemma {:induction false} WentMissing(s: seq<Dentry>, s': seq<Dentry>, f: Forest, m: Mounts, p: int, n: string,
                                       k: int, oom: bool)
    requires Occ(s, p) && Find(s, p, n, 0) == |s| && Victim(s, |s|) != -1
    requires k == -1 ==> s' == Base(s, p, n)[Victim(s, |s|) := EMPTY]
    requires var b, v := Base(s, p, n), Victim(s, |s|);
             && Occ(b, p) && b[p] == s[p] && Stepped(b, s', f, m, p, n, k, oom)
             && NewEntry(b, v, p, n) == NewEntry(s, v, p, n) && (b == s || b == s[v := EMPTY])
             && (k != -1 ==> k == v && Child(f, NodeOf(b[p]), n).Some?
                             && s' == b[v := NewEntry(b, v, p, n).(vno := Child(f, NodeOf(b[p]), n).value.ino)])
    ensures Went(s, s', f, m, p, n, k, oom)
  {
    var v := Victim(s, |s|);
    WriteTwice(s, v, EMPTY, s'[v]);
  }

  // ---------------------------------------------------------------- paths that are safe

  /** Every step of a lookup of `comps` from `p` evicts only what is not needed. */
  ghost predicate Safe(s: seq<Dentry>, f: Forest, p: int, comps: seq<string>)
    decreases |comps|
  {
    comps == [] ||
    (&& Occ(s, p) && Evictable(s, p, comps[0])
     && (NoSlot(s, p, comps[0]) || Child(f, NodeOf(s[p]), comps[0]).None?
         || Safe(AfterStep(s, f, p, comps[0]), f, StepEnd(s, p, comps[0]), comps[1..])))
  }
}
