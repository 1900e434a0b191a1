/** What mounting a file system makes of the dentry cache. */
module MountCache {
  import opened Frames
  import opened DentryCache
  import opened MemTree
  import opened PathCache
  import opened Eviction
  import opened PathLookup
  import opened Creation

  /** File systems that can be walked into, through the root or another mountpoint. */
  ghost predicate InUse(s: seq<Dentry>, root: int, m: Mounts, sb: nat) {
    (Occ(s, root) && s[root].mnt == Some(sb)) || sb in m.Values
  }

  /** All file systems in use are registered as mounted. */
  ghost predicate MountsIn(s: seq<Dentry>, root: int, m: Mounts, sbs: set<nat>) {
    (forall sb :: InUse(s, root, m, sb) ==> sb in sbs) == true
  }

  lemma {:induction false} InUseKept(s: seq<Dentry>, s': seq<Dentry>, root: int, m: Mounts, sbs: set<nat>)
    requires SameRoot(s, s', root) && MountsIn(s, root, m, sbs)
    ensures MountsIn(s', root, m, sbs)
  {
    forall sb | InUse(s', root, m, sb)
      ensures sb in sbs
    {
      assert InUse(s, root, m, sb);
    }
  }

  lemma {:induction false} InUseMore(s: seq<Dentry>, root: int, m: Mounts, sbs: set<nat>, d: int, sb: nat)
    requires MountsIn(s, root, m, sbs) && Occ(s, d) && Covered(s[d]) !in m && d != root
    ensures MountsIn(s[d := s[d].(mnt := Some(sb))], root, m[Covered(s[d]) := sb], sbs + {sb})
  {
    var m' := m[Covered(s[d]) := sb];
    forall x | InUse(s[d := s[d].(mnt := Some(sb))], root, m', x)
      ensures x in sbs + {sb}
    {
      assert InUse(s, root, m, x) || x == sb;
    }
  }

  lemma {:induction false} InUseLess(s: seq<Dentry>, root: int, m: Mounts, sbs: set<nat>, d: int)
    requires MountsIn(s, root, m, sbs) && 0 <= d < |s| && d != root
    ensures MountsIn(s[d := EMPTY], root, m, sbs)
  {
    forall x | InUse(s[d := EMPTY], root, m, x)
      ensures x in sbs
    {
      assert InUse(s, root, m, x);
    }
  }

  /** After a mount that failed the trees are as before, but an empty one may be gone. */
  ghost predicate Detached(f: Forest, f': Forest, dev: nat) {
    f' == f || (dev in f && f[dev].nodes == map[] && f' == f - {dev})
  }

  /** Only file systems that are mounted have nodes. */
  ghost predicate Registered(f: Forest, sbs: set<nat>) {
    (forall sb {:trigger f[sb]} :: sb in f && f[sb].nodes != map[] ==> sb in sbs) == true
  }

  /** A tree that gets a node was not empty before. */
  lemma {:induction false} MadeRegistered(f: Forest, sbs: set<nat>, dir: Loc, n: string, mode: nat, dev: nat)
    requires Registered(f, sbs) && DirAt(f, dir)
    ensures Registered(Made(f, dir, n, mode, dev), sbs)
  {
    assert dir.ino in f[dir.sb].nodes;
  }

  lemma {:induction false} SkippedRegistered(f: Forest, sbs: set<nat>, sb: nat)
    requires Registered(f, sbs) && sb in f
    ensures Registered(Skipped(f, sb), sbs)
  {
    assert Skipped(f, sb)[sb].nodes == f[sb].nodes;
  }

  /** The source has no way out when it knows the type, but there is no file system for `dev`. */
  predicate Mountable(f: Forest, sbs: set<nat>, fsTypes: set<string>, dev: nat, fsType: string) {
    fsType in fsTypes && dev !in sbs ==> dev in f
  }

  /** What attaching the file system of `dev` does to the trees and the registered mounts. */
  ghost predicate Attached(f: Forest, f': Forest, sbs: set<nat>, sbs': set<nat>, fsTypes: set<string>, dev: nat,
                           fsType: string, ok: bool, oom: bool)
  {
    if ok then
      && fsType in fsTypes && dev !in sbs && dev in f && f[dev].nodes == map[]
      && sbs' == sbs + {dev} && f' == WithRoot(f, dev)
    else
      && (oom || fsType !in fsTypes || dev in sbs) && sbs' == sbs
      && (f' == f || (dev !in sbs && Detached(f, f', dev)))
  }

  /** Mounting a file system that is not in use keeps the cache right exactly if the directory it
      is mounted on has no cached children: they would be found still, below the new root. */
  lemma {:induction false} MountKeeps(s: seq<Dentry>, root: int, f: Forest, m: Mounts, d: int, sb: nat)
    requires CacheOk(s, root, f, m) && Occ(s, d) && d != root && s[d].mnt.None?
    requires sb in f && !InUse(s, root, m, sb)
    ensures CacheOk(s[d := s[d].(mnt := Some(sb))], root, WithRoot(f, sb), m[Covered(s[d]) := sb]) <==> Childless(s, d)
    ensures Covered(s[d]) !in m
  {
    WithRootPlanted(f, sb);
    LinkedBelow(s, root, f, m, d);
    if Childless(s, d) {
      MountLinks(s, root, f, m, d, sb);
      MountedApart(s, root, f, m, d, sb);
      MountRest(s, root, f, WithRoot(f, sb), m, d, sb);
    } else {
      var i :| Occ(s, i) && s[i].parent == d;
      StaleBelow(s, root, f, m, d, sb, i);
    }
  }

  /** An entry in the directory mounted on stands for no child of the new root. */
  lemma {:induction false} StaleBelow(s: seq<Dentry>, root: int, f: Forest, m: Mounts, d: int, sb: nat, i: int)
    requires CacheOk(s, root, f, m) && Occ(s, d) && d != root && s[d].mnt.None? && sb in f
    requires Occ(s, i) && s[i].parent == d
    ensures var s', f' := s[d := s[d].(mnt := Some(sb))], WithRoot(f, sb);
            && Occ(s', i) && i != root && !Linked(s', f', i)
            && Child(f', NodeOf(s'[d]), s[i].name.value) != Some(Covered(s'[i]))
  {
    WithRootPlanted(f, sb);
    LinkedBelow(s, root, f, m, d);
    assert i != root && Linked(s, f, i);
    var n := s[i].name.value;
    if Child(f, Loc(sb, ROOT_INO), n) == Some(Covered(s[i])) {
      ChildUnique(f, Loc(sb, ROOT_INO), n, NodeOf(s[d]), n);
    }
  }

  /** The trees "/", "/a" and "/a/b" with a second file system without nodes, and a cache that
      knows all three names. */
  ghost function TwoForests(): Forest {
    TinyForest()[1 := Super(map[], 1)]
  }

  ghost function FullCache(): (s: seq<Dentry>)
    ensures |s| == 3
  {
    TinyCache() + [Dentry(Some("b"), 3, 1, Some(0), None, 1)]
  }

  lemma {:induction false} FullCacheOk()
    ensures CacheOk(FullCache(), 0, TwoForests(), map[])
  {
    hide Planted, EntryIndex, TinyForest, Child, DirAt;
    TinyForestPlanted();
    var s, f := FullCache(), TwoForests();
    assert Planted(f[1]) by { EmptyPlanted(); }
    SameChildren(Loc(0, 1), "a");
    SameChildren(Loc(0, 2), "b");
    assert NodeOf(s[0]) == Loc(0, 1) && Covered(s[1]) == Loc(0, 2) && Covered(s[2]) == Loc(0, 3);
    assert Linked(s, f, 1) && Linked(s, f, 2);
  }

  lemma {:induction false} EmptyPlanted()
    ensures Planted(Super(map[], 1))
  {}

  lemma {:induction false} SameChildren(l: Loc, n: string)
    requires l.sb == 0
    ensures Child(TwoForests(), l, n) == Child(TinyForest(), l, n) && 0 in TinyForest()
    ensures DirAt(TwoForests(), l) == DirAt(TinyForest(), l)
  {
    hide EntryIndex;
  }

  /** After "/a/b" has been looked up, mounting on "/a" leaves that path to the entry of the node
      in the directory mounted on, though it leads nowhere any more. */
  lemma {:induction false} MountHidesChild()
    ensures var s, f, at := FullCache(), TwoForests(), Loc(0, 1);
            var s', f', m' := s[1 := s[1].(mnt := Some(1))], WithRoot(f, 1), map[Loc(0, 2) := 1];
            && CacheOk(s, 0, f, map[]) && !InUse(s, 0, map[], 1) && NodeOf(s[0]) == NodeOf(s'[0]) == at
            && !CacheOk(s', 0, f', m')
            && At(s', 0, ["a", "b"]) == 2 && NodeOf(s'[2]) == Loc(0, 3) && Walk(f', m', at, ["a", "b"]).None?
  {
    hide CacheParts, Planted, AllPlanted, EntryIndex, TinyForest, Linked;
    FullCacheOk();
    TinyForestPlanted();
    SameChildren(Loc(0, 1), "a");
    var s, f := FullCache(), TwoForests();
    var s', f', m' := s[1 := s[1].(mnt := Some(1))], WithRoot(f, 1), map[Loc(0, 2) := 1];
    assert Occ(s, 2) && s[2].parent == 1;
    MountKeeps(s, 0, f, map[], 1, 1);
    assert map[][Covered(s[1]) := 1] == m';
    CacheBasics(s, 0, f, map[]);
    WithRootPlanted(f, 1);
    assert Child(f', Loc(0, 1), "a") == Some(Loc(0, 2)) && Child(f', Loc(1, ROOT_INO), "b").None?;
    assert ["a", "b"][1..] == ["b"] && ["b"][1..] == [];
    assert s'[1].Is(0, "a") && s'[2].Is(1, "b") && Find(s', 0, "a", 0) == 1 && Find(s', 1, "b", 0) == 2;
  }

  lemma {:induction false} MountRest(s: seq<Dentry>, root: int, f: Forest, f': Forest, m: Mounts, d: int, sb: nat)
    requires UniqueKeys(s) && Counted(s) && Rooted(s, root, m) && Separate(s, root) && MountRoots(s, f)
             && MountPlaces(s, root, m)
    requires Occ(s, d) && d != root && s[d].mnt.None? && Covered(s[d]) !in m
    requires Grown(f, f') && DirAt(f', Loc(sb, ROOT_INO)) && forall i :: Occ(s, i) ==> s[i].mnt != Some(sb)
    ensures var s' := s[d := s[d].(mnt := Some(sb))];
            var m' := m[Covered(s[d]) := sb];
            && UniqueKeys(s') && Counted(s') && Rooted(s', root, m') && Separate(s', root)
            && MountRoots(s', f') && MountPlaces(s', root, m')
  {
    hide Planted, Linked, Complete, Childless, InUse;
    var s' := s[d := s[d].(mnt := Some(sb))];
    assert forall i {:trigger Covered(s'[i])} :: Occ(s, i) ==> Covered(s'[i]) == Covered(s[i]);
    PinsKept(s, s', root, m);
    assert Occ(s', d) && Covered(s'[d]) == Covered(s[d]);
  }

  lemma {:induction false} MountLinks(s: seq<Dentry>, root: int, f: Forest, m: Mounts, d: int, sb: nat)
    requires CacheOk(s, root, f, m) && Occ(s, d) && d != root && s[d].mnt.None? && Childless(s, d) && sb in f
    ensures Links(s[d := s[d].(mnt := Some(sb))], root, WithRoot(f, sb))
  {
    hide Planted, AllUnique, Grown, EntryIndex, Child, Separate, MountRoots, MountPlaces, UniqueKeys, Counted;
    var f' := WithRoot(f, sb);
    var s' := s[d := s[d].(mnt := Some(sb))];
    WithRootPlanted(f, sb);
    forall i | Occ(s', i) && i != root
      ensures Linked(s', f', i)
    {
      assert Occ(s, i) && Linked(s, f, i) && s[i].parent != d;
    }
  }

  /** No other mountpoint holds this file system. */
  lemma {:induction false} MountedApart(s: seq<Dentry>, root: int, f: Forest, m: Mounts, d: int, sb: nat)
    requires CacheOk(s, root, f, m) && !InUse(s, root, m, sb)
    ensures forall i :: Occ(s, i) ==> s[i].mnt != Some(sb)
  {
    forall i | Occ(s, i) && s[i].mnt.Some?
      ensures s[i].mnt.value != sb
    {
      if i != root {
        assert Linked(s, f, i);
        ChildExists(f, NodeOf(s[s[i].parent]), s[i].name.value);
        assert NodeOf(s[i]) == Cross(m, Covered(s[i]));
      }
    }
  }

  /** A complete cache stays complete: the new directory is empty. */
  lemma {:induction false} MountComplete(s: seq<Dentry>, root: int, f: Forest, m: Mounts, d: int, sb: nat)
    requires CacheOk(s, root, f, m) && Complete(s, f) && Occ(s, d) && sb in f && f[sb].nodes == map[]
    ensures Complete(s[d := s[d].(mnt := Some(sb))], WithRoot(f, sb))
  {
    var f' := WithRoot(f, sb);
    var s' := s[d := s[d].(mnt := Some(sb))];
    forall p, n | Occ(s', p) && Child(f', NodeOf(s'[p]), n).Some?
      ensures Find(s', p, n, 0) < |s'|
    {
      assert Occ(s, p) && Child(f, NodeOf(s[p]), n).Some?;
      var k := Find(s, p, n, 0);
      assert s'[k].Is(p, n);
    }
  }

  /** The first mount. */
  lemma {:induction false} RootMounts(s: seq<Dentry>, f: Forest, m: Mounts, d: nat, sb: nat)
    requires CacheOk(s, NO_PARENT, f, m) && d < |s| && sb in f && f[sb].nodes == map[]
    ensures var s' := s[d := NewEntry(s, d, NO_PARENT, "/").(vno := 1, mnt := Some(sb))];
            CacheOk(s', d, WithRoot(f, sb), m) && Complete(s', WithRoot(f, sb))
  {
    WithRootPlanted(f, sb);
  }

  /** A file system without nodes can go. */
  lemma {:induction false} KillKeeps(s: seq<Dentry>, root: int, f: Forest, m: Mounts, sb: nat)
    requires CacheOk(s, root, f, m) && sb in f && f[sb].nodes == map[]
    ensures CacheOk(s, root, f - {sb}, m) && Grown(f, f - {sb})
    ensures AllUnique(f) ==> AllUnique(f - {sb})
    ensures Complete(s, f) <==> Complete(s, f - {sb})
  {
    var f' := f - {sb};
    assert forall l, n :: Child(f', l, n) == Child(f, l, n);
    forall i | Occ(s, i) && i != root
      ensures Linked(s, f', i)
    {
      assert Linked(s, f, i);
    }
  }

  /** The mounted file system is where the path to the mountpoint leads. */
  lemma {:induction false} MountLeads(s: seq<Dentry>, root: int, f: Forest, m: Mounts, d: int, sb: nat,
                                      comps: seq<string>)
    requires Occ(s, root) && Occ(s, d) && d != root && s[d].mnt.None? && At(s, root, comps) == d
    requires sb in f && CacheOk(s[d := s[d].(mnt := Some(sb))], root, WithRoot(f, sb), m[Covered(s[d]) := sb])
    ensures Walk(WithRoot(f, sb), m[Covered(s[d]) := sb], NodeOf(s[root]), comps) == Some(Loc(sb, ROOT_INO))
  {
    var s' := s[d := s[d].(mnt := Some(sb))];
    AtSameNames(s, s', root, comps);
    AtAgrees(s', root, WithRoot(f, sb), m[Covered(s[d]) := sb], root, comps);
  }

  lemma {:induction false} AtSameNames(s: seq<Dentry>, s': seq<Dentry>, p: int, comps: seq<string>)
    requires |s'| == |s| && forall i :: 0 <= i < |s| ==> s'[i].name == s[i].name && s'[i].parent == s[i].parent
    ensures At(s', p, comps) == At(s, p, comps)
    decreases |comps|
  {
    if comps != [] {
      FindSameNames(s, s', p, comps[0], 0);
      if Find(s, p, comps[0], 0) < |s| {
        AtSameNames(s, s', Find(s, p, comps[0], 0), comps[1..]);
      }
    }
  }

  lemma {:induction false} FindSameNames(s: seq<Dentry>, s': seq<Dentry>, p: int, n: string, i: nat)
    requires |s'| == |s| && i <= |s| && forall j :: 0 <= j < |s| ==>
               s'[j].name == s[j].name && s'[j].parent == s[j].parent
    ensures Find(s', p, n, i) == Find(s, p, n, i)
    decreases |s| - i
  {
    if i < |s| && !s[i].Is(p, n) {
      FindSameNames(s, s', p, n, i + 1);
    }
  }

  /** A directory to mount on has no cached children. */
  ghost predicate ChildlessAt(s: seq<Dentry>, root: int, comps: seq<string>) {
    var d := At(s, root, comps);
    Occ(s, d) && s[d].mnt.None? ==> Childless(s, d)
  }

  /** A mountpoint found by looking its path up is childless still. */
  lemma {:induction false} SoughtChildless(s: seq<Dentry>, s': seq<Dentry>, root: int, f: Forest, m: Mounts,
                                           path: string, d: int, oom: bool)
    requires ReachedIn(s, s', f, m, root, path, [], d, oom) && d != NO_PARENT && CacheOk(s', root, f, m)
    requires ChildlessAt(s, root, Components(path)) && s'[d].mnt.None?
    ensures root != NO_PARENT && Occ(s', d) && Childless(s', d) && d != root && At(s', root, Components(path)) == d
    ensures Occ(s, root) && Walk(f, m, NodeOf(s[root]), Components(path)) == Some(Covered(s'[d]))
            && Has(f, Covered(s'[d]))
  {
    NodeExists(s', root, f, m, d);
    if SameBut(s, s') {
      SameAt(s, s', root, Components(path));
      assert Occ(s, d) && s[d].mnt.None?;
    }
  }

  /** What the search for a mountpoint does: `d` is an entry for a directory, not a mountpoint,
      that the path leads to.  A reference is kept if a node that is no root was found. */
  ghost predicate Sought(s: seq<Dentry>, s': seq<Dentry>, root: int, f: Forest, m: Mounts, path: string,
                         d: int, kept: bool, oom: bool)
  {
    SoughtParts(s, s', root, f, m, path, d, kept, oom) == true
  }

  ghost predicate SoughtParts(s: seq<Dentry>, s': seq<Dentry>, root: int, f: Forest, m: Mounts, path: string,
                              d: int, kept: bool, oom: bool)
  {
    && SoughtSlots(s, s', root, f, m, path)
    && var target := Walk(f, m, NodeOf(s[root]), Components(path));
    && (if kept then target.Some? && Has(f, target.value)
        else oom || AllPinned(s) || target.None? || target.value.ino == ROOT_INO)
    && (if d != NO_PARENT then
          && kept && DirAt(f, target.value) && Occ(s', d) && s'[d].mnt.None? && target == Some(Covered(s'[d]))
          && d != root && Childless(s', d) && At(s', root, Components(path)) == d
        else kept ==> !DirAt(f, target.value))
  }

  /** Looking a path up loses no entry if there is room, and in a complete cache also if the path
      leads somewhere. */
  ghost predicate SoughtSlots(s: seq<Dentry>, s': seq<Dentry>, root: int, f: Forest, m: Mounts, path: string) {
    && SamePinned(s, s') && SameRoot(s, s', root)
    && var comps := Components(path);
    && (Roomy(s, f, root, comps) ==> Kept(s, s'))
    && (Complete(s, f) && (Roomy(s, f, root, comps) || Walk(f, m, NodeOf(s[root]), comps).Some?) ==> SameBut(s, s'))
  }

  /** What mounting on a path does.  A reference that was taken is kept, and a mount that fails
      forgets the entry of the directory it was to mount on. */
  ghost predicate MountedAt(s: seq<Dentry>, s': seq<Dentry>, root: int, f: Forest, f': Forest, m: Mounts, m': Mounts,
                            sbs: set<nat>, sbs': set<nat>, fsTypes: set<string>, path: string, dev: nat, fsType: string,
                            ok: bool, kept: bool, oom: bool)
  {
    MountParts(s, s', root, f, f', m, m', sbs, sbs', fsTypes, path, dev, fsType, ok, kept, oom) == true
  }

  ghost predicate MountParts(s: seq<Dentry>, s': seq<Dentry>, root: int, f: Forest, f': Forest, m: Mounts, m': Mounts,
                             sbs: set<nat>, sbs': set<nat>, fsTypes: set<string>, path: string, dev: nat,
                             fsType: string, ok: bool, kept: bool, oom: bool)
  {
    && Anchored(s, s') && Occ(s, root) && Occ(s', root) && NodeOf(s'[root]) == NodeOf(s[root])
    && var target := Walk(f, m, NodeOf(s[root]), Components(path));
    && (if kept then target.Some? && Has(f, target.value)
        else oom || AllPinned(s) || target.None? || target.value.ino == ROOT_INO)
    && if kept && DirAt(f, target.value) then
         && target.value.ino != ROOT_INO && Attached(f, f', sbs, sbs', fsTypes, dev, fsType, ok, oom)
         && if ok then
              && target.value !in m && m' == m[target.value := dev]
              && Walk(f', m', NodeOf(s[root]), Components(path)) == Some(Loc(dev, ROOT_INO))
              && (Complete(s, f) ==> Complete(s', f') && FreeSlots(s') == FreeSlots(s))
            else m' == m && At(s', root, Components(path)) == NO_PARENT && !Complete(s', f')
       else
         && !ok && f' == f && m' == m && sbs' == sbs && SoughtSlots(s, s', root, f, m, path)
  }

  lemma {:induction false} MountLost(s: seq<Dentry>, s': seq<Dentry>, root: int, f: Forest, m: Mounts, sbs: set<nat>,
                                     fsTypes: set<string>, path: string, dev: nat, fsType: string, kept: bool,
                                     oom: bool)
    requires Sought(s, s', root, f, m, path, NO_PARENT, kept, oom)
    ensures MountedAt(s, s', root, f, f, m, m, sbs, sbs, fsTypes, path, dev, fsType, false, kept, oom)
  {
    PinnedAnchored(s, s');
  }

  lemma {:induction false} MountFound(s: seq<Dentry>, s1: seq<Dentry>, s2: seq<Dentry>, root: int, f: Forest,
                                      f': Forest, m: Mounts, m': Mounts, sbs: set<nat>, sbs': set<nat>,
                                      fsTypes: set<string>, path: string, dev: nat, fsType: string, d: int, ok: bool,
                                      oom1: bool, oom: bool)
    requires d != NO_PARENT && Sought(s, s1, root, f, m, path, d, true, oom1)
    requires CacheOk(s1, root, f, m) && CacheOk(s2, root, f', m')
    requires Attached(f, f', sbs, sbs', fsTypes, dev, fsType, ok, oom) && MountedOn(s1, s2, f, f', m, m', d, dev, ok)
    ensures MountedAt(s, s2, root, f, f', m, m', sbs, sbs', fsTypes, path, dev, fsType, ok, true, oom)
  {
    hide CacheParts, WithRoot, Walk, Roomy, FreeSlots, Childless, AllPinned, Complete, SamePinned, SameBut, Find,
        Detached, DirAt, Components;
    PinnedAnchored(s, s1);
    LinkedBelow(s1, root, f, m, d);
    MountSlots(s, s1, s2, f, f', d, dev, ok);
    if ok {
      MountLeads(s1, root, f, m, d, dev, Components(path));
    } else {
      CacheBasics(s1, root, f, m);
      AtForgotten(s1, d, root, Components(path));
    }
  }

  /** A complete cache with room stays complete through a mount, unless the mount fails on a
      directory that was found: that one is forgotten. */
  lemma {:induction false} MountCompleteIff(s: seq<Dentry>, s': seq<Dentry>, root: int, f: Forest, f': Forest,
                                            m: Mounts, m': Mounts, sbs: set<nat>, sbs': set<nat>, fsTypes: set<string>,
                                            path: string, dev: nat, fsType: string, ok: bool, kept: bool, oom: bool)
    requires MountedAt(s, s', root, f, f', m, m', sbs, sbs', fsTypes, path, dev, fsType, ok, kept, oom)
    requires Complete(s, f) && Roomy(s, f, root, Components(path))
    ensures var target := Walk(f, m, NodeOf(s[root]), Components(path));
            Complete(s', f') <==> ok || !kept || !DirAt(f, target.value)
  {
    hide Complete, Walk, Attached, Roomy;
    if SameBut(s, s') { SameComplete(s, s', f); }
  }

  /** Mountpoints stay where they are, and a mount that succeeds takes no slot. */
  lemma {:induction false} MountSlots(s: seq<Dentry>, s1: seq<Dentry>, s2: seq<Dentry>, f: Forest, f': Forest,
                                      d: int, dev: nat, ok: bool)
    requires Anchored(s, s1) && Occ(s1, d) && s1[d].mnt.None?
    requires s2 == s1[d := if ok then s1[d].(mnt := Some(dev)) else EMPTY]
    ensures Anchored(s, s2)
    ensures ok && SameBut(s, s1) ==> FreeSlots(s2) == FreeSlots(s)
    ensures SameBut(s, s1) && Complete(s, f) ==> Complete(s1, f)
  {
    FreeSlotsUpdate(s1, d, s2[d]);
    SameFreeSlotsIf(s, s1);
    if SameBut(s, s1) && Complete(s, f) { SameComplete(s, s1, f); }
  }

  /** What looking the mountpoint's path up has found. */
  lemma {:induction false} SoughtEntry(s: seq<Dentry>, s': seq<Dentry>, root: int, f: Forest, m: Mounts, sbs: set<nat>,
                                       path: string, d: int, oom: bool)
    requires ReachedIn(s, s', f, m, root, path, [], d, oom) && CacheOk(s, root, f, m) && CacheOk(s', root, f, m)
    requires root != NO_PARENT && MountsIn(s, root, m, sbs)
    ensures MountsIn(s', root, m, sbs) && SoughtSlots(s, s', root, f, m, path) && (d != NO_PARENT ==> Occ(s', d))
    ensures d == NO_PARENT || s'[d].mnt.Some? ==> Sought(s, s', root, f, m, path, NO_PARENT, false, oom)
    ensures d != NO_PARENT && s'[d].mnt.None? ==>
              Has(f, Covered(s'[d])) && Occ(s, root)
              && Walk(f, m, NodeOf(s[root]), Components(path)) == Some(Covered(s'[d]))
  {
    hide CacheParts, Walk, LookupParts, Safe, Misses, Childless;
    RootIsMounted(s, root, f, m);
    SoughtKeeps(s, s', root, f, m, path, d, oom);
    InUseKept(s, s', root, m, sbs);
    if d != NO_PARENT { NodeExists(s', root, f, m, d); }
  }

  lemma {:induction false} SoughtKeeps(s: seq<Dentry>, s': seq<Dentry>, root: int, f: Forest, m: Mounts, path: string,
                                       d: int, oom: bool)
    requires ReachedIn(s, s', f, m, root, path, [], d, oom) && CacheOk(s, root, f, m)
    requires root != NO_PARENT && Occ(s, root) && s[root].mnt.Some?
    ensures SoughtSlots(s, s', root, f, m, path)
  {
    hide CacheParts, Safe, Misses;
    var comps := Components(path);
    assert comps + [] == comps;
    PinnedRoot(s, s', root);
    if Complete(s, f) && Walk(f, m, NodeOf(s[root]), comps).Some? { WalkedIsCached(s, root, f, m, root, comps); }
  }

  /** The node of the entry found has been looked at. */
  lemma {:induction false} SoughtDirectory(s: seq<Dentry>, s': seq<Dentry>, root: int, f: Forest, m: Mounts,
                                           path: string, d: int, oom1: bool, dir: bool, kept: bool, oom: bool)
    requires ReachedIn(s, s', f, m, root, path, [], d, oom1) && CacheOk(s', root, f, m) && root != NO_PARENT
    requires ChildlessAt(s, root, Components(path)) && d != NO_PARENT && s'[d].mnt.None?
             && SoughtSlots(s, s', root, f, m, path)
    requires if dir then kept && DirAt(f, Covered(s'[d])) else if kept then !DirAt(f, Covered(s'[d])) else oom
    ensures Sought(s, s', root, f, m, path, if dir then d else NO_PARENT, kept, oom)
  {
    hide CacheParts, Walk, SoughtSlots, Reached;
    SoughtChildless(s, s', root, f, m, path, d, oom1);
  }

  /** What mounting on entry `d` does: the mountpoint covers the directory, or is forgotten. */
  ghost predicate MountedOn(s: seq<Dentry>, s': seq<Dentry>, f: Forest, f': Forest, m: Mounts, m': Mounts, d: int,
                            dev: nat, ok: bool)
    requires Occ(s, d)
  {
    if ok then
      && s' == s[d := s[d].(mnt := Some(dev))] && m' == m[Covered(s[d]) := dev] && Covered(s[d]) !in m
      && (Complete(s, f) ==> Complete(s', f'))
    else s' == s[d := EMPTY] && m' == m && !Complete(s', f')
  }

  lemma {:induction false} MountDone(s: seq<Dentry>, root: int, f: Forest, m: Mounts, sbs: set<nat>, d: int, dev: nat)
    requires CacheOk(s, root, f, m) && MountsIn(s, root, m, sbs) && Occ(s, d) && d != root && s[d].mnt.None?
             && Childless(s, d)
    requires dev in f && f[dev].nodes == map[] && dev !in sbs
    ensures var s', f', m' := s[d := s[d].(mnt := Some(dev))], WithRoot(f, dev), m[Covered(s[d]) := dev];
            && CacheOk(s', root, f', m') && MountsIn(s', root, m', sbs + {dev}) && Grown(f, f')
            && MountedOn(s, s', f, f', m, m', d, dev, true)
  {
    MountKeeps(s, root, f, m, d, dev);
    InUseMore(s, root, m, sbs, d, dev);
    WithRootPlanted(f, dev);
    if Complete(s, f) { MountComplete(s, root, f, m, d, dev); }
  }

  lemma {:induction false} MountFailed(s: seq<Dentry>, root: int, f: Forest, f': Forest, m: Mounts, sbs: set<nat>,
                                       d: int, dev: nat)
    requires CacheOk(s, root, f, m) && MountsIn(s, root, m, sbs) && Occ(s, d) && d != root && s[d].mnt.None?
             && Childless(s, d)
    requires Detached(f, f', dev)
    ensures CacheOk(s[d := EMPTY], root, f', m) && MountsIn(s[d := EMPTY], root, m, sbs) && Grown(f, f')
    ensures !Complete(s[d := EMPTY], f')
  {
    ForgetKeeps(s, root, f, m, d);
    InUseLess(s, root, m, sbs, d);
    if f' != f { KillKeeps(s[d := EMPTY], root, f, m, dev); }
  }

  lemma {:induction false} AllFree(s: seq<Dentry>)
    requires forall i :: 0 <= i < |s| ==> s[i].Free()
    ensures FreeSlots(s) == |s|
  {
    if s != [] { AllFree(s[..|s| - 1]); }
  }

  /** The first mount, when it succeeds. */
  lemma {:induction false} RootMounted(s: seq<Dentry>, f: Forest, m: Mounts, sbs: set<nat>, d: nat, dev: nat)
    requires CacheOk(s, NO_PARENT, f, m) && d < |s| && dev in f && f[dev].nodes == map[]
    ensures var s' := s[d := NewEntry(s, d, NO_PARENT, "/").(vno := 1, mnt := Some(dev))];
            var f' := WithRoot(f, dev);
            && CacheOk(s', d, f', m) && MountsIn(s', d, m, sbs + {dev}) && Grown(f, f') && Complete(s', f')
            && FreeSlots(s') + 1 == |s'|
  {
    RootMounts(s, f, m, d, dev);
    AllFree(s);
    FreeSlotsUpdate(s, d, NewEntry(s, d, NO_PARENT, "/").(vno := 1, mnt := Some(dev)));
    WithRootPlanted(f, dev);
  }

  lemma {:induction false} RootRefused(s: seq<Dentry>, f: Forest, f': Forest, m: Mounts, sbs: set<nat>, d: nat,
                                       dev: nat)
    requires CacheOk(s, NO_PARENT, f, m) && MountsIn(s, NO_PARENT, m, sbs) && d < |s|
    requires Detached(f, f', dev)
    ensures CacheOk(s[d := EMPTY], NO_PARENT, f', m) && MountsIn(s[d := EMPTY], NO_PARENT, m, sbs) && Grown(f, f')
  {
    WipeKeeps(s, NO_PARENT, f, m, d);
    if f' != f { KillKeeps(s[d := EMPTY], NO_PARENT, f, m, dev); }
  }

  /** What the first mount does when it succeeds: the root entry stands for the new root. */
  ghost predicate RootIs(s: seq<Dentry>, root: int, f: Forest, f': Forest, sbs: set<nat>, sbs': set<nat>,
                         fsTypes: set<string>, dev: nat, fsType: string)
  {
    && Attached(f, f', sbs, sbs', fsTypes, dev, fsType, true, false)
    && Occ(s, root) && NodeOf(s[root]) == Loc(dev, ROOT_INO) && Complete(s, f') && FreeSlots(s) + 1 == |s|
  }

  /** The request for the root entry, when nothing is mounted; without memory nothing comes of it. */
  lemma {:induction false} GetRoot(s: seq<Dentry>, s': seq<Dentry>, f: Forest, m: Mounts, sbs: set<nat>, named: bool,
                                   r: int)
    requires CacheOk(s, NO_PARENT, f, m) && GetStep(s, s', NO_PARENT, "/", named, r) && MountsIn(s, NO_PARENT, m, sbs)
    ensures r == -1 ==> CacheOk(s', NO_PARENT, f, m) && MountsIn(s', NO_PARENT, m, sbs)
    ensures r != -1 ==> 0 <= r < |s| && s' == s[r := NewEntry(s, r, NO_PARENT, "/")]
  {
    if |s| > 0 { assert s[0].Free(); }
    var v := Victim(s, |s|);
    VictimIsBest(s, |s|);
    if r == -1 && v != -1 { WipeKeeps(s, NO_PARENT, f, m, v); }
  }
}
