/** Making a node under a path: what it does to the cache and to the trees. */
module Creation {
  import opened Frames
  import opened DentryCache
  import opened MemTree
  import opened PathCache
  import opened Eviction
  import opened PathLookup
  import Strtok

  /** The components of a path. */
  function Components(path: string): seq<string> {
    Strtok.Tokens(path, '/')
  }

  /** Position of the last slash. */
  function LastSlash(path: string): (k: nat)
    requires '/' in path
    ensures k < |path| && path[k] == '/' && '/' !in path[k + 1..]
  {
    if path[|path| - 1] == '/' then |path| - 1
    else
      assert path == path[..|path| - 1] + [path[|path| - 1]];
      LastSlash(path[..|path| - 1])
  }

  function ParentOf(path: string): string
    requires '/' in path
  {
    path[..LastSlash(path)]
  }

  function NameOf(path: string): string
    requires '/' in path
  {
    path[LastSlash(path) + 1..]
  }

  /** The steps a creation takes: those to the parent, then the name, empty after a final
      slash. */
  function Steps(path: string): seq<string>
    requires '/' in path
  {
    Components(ParentOf(path)) + [NameOf(path)]
  }

  /** A path is looked up by the steps it is created by, but for an empty name. */
  lemma {:induction false} StepsAreComponents(path: string)
    requires '/' in path
    ensures Components(path) == if NameOf(path) == "" then Components(ParentOf(path)) else Steps(path)
  {
    assert path == ParentOf(path) + ['/'] + NameOf(path);
    Strtok.TokensSplit(ParentOf(path), NameOf(path), '/');
  }

  /** The types a node can be made with. */
  predicate Creatable(mode: nat) {
    FileType(mode) in {DIRECTORY, REGULAR, CHAR_DEV, BLOCK_DEV, SOCKET, FIFO}
  }

  // ---------------------------------------------------------------- cached paths and walks

  /** Cached steps lead where the walk leads. */
  lemma {:induction false} AtAgrees(s: seq<Dentry>, root: int, f: Forest, m: Mounts, p: int, comps: seq<string>)
    requires CacheOk(s, root, f, m) && Occ(s, p) && At(s, p, comps) != NO_PARENT
    ensures Occ(s, At(s, p, comps)) && Walk(f, m, NodeOf(s[p]), comps) == Some(NodeOf(s[At(s, p, comps)]))
    decreases |comps|
  {
    if comps != [] {
      HitAgrees(s, root, f, m, p, comps[0]);
      AtAgrees(s, root, f, m, Find(s, p, comps[0], 0), comps[1..]);
    }
  }

  /** In a complete cache, whatever a walk finds is cached. */
  lemma {:induction false} WalkedIsCached(s: seq<Dentry>, root: int, f: Forest, m: Mounts, p: int, comps: seq<string>)
    requires CacheOk(s, root, f, m) && Complete(s, f) && Occ(s, p) && Walk(f, m, NodeOf(s[p]), comps).Some?
    ensures At(s, p, comps) != NO_PARENT
    decreases |comps|
  {
    if comps != [] {
      HitAgrees(s, root, f, m, p, comps[0]);
      WalkedIsCached(s, root, f, m, Find(s, p, comps[0], 0), comps[1..]);
    }
  }

  /** What creating trusts the cache for: a name that exists in the directory is cached, unless
      nothing can be entered at all. */
  ghost predicate Known(s: seq<Dentry>, f: Forest, m: Mounts, root: int, comps: seq<string>, n: string)
    requires Occ(s, root)
  {
    var dir := Walk(f, m, NodeOf(s[root]), comps);
    dir.Some? && Child(f, dir.value, n).Some? ==> At(s, root, comps + [n]) != NO_PARENT || AllPinned(s)
  }

  /** The same for a parent path, and for the path of a node to create. */
  ghost predicate KnownIn(s: seq<Dentry>, f: Forest, m: Mounts, root: int, parent: string, n: string) {
    (root != NO_PARENT ==> Occ(s, root) && Known(s, f, m, root, Components(parent), n)) == true
  }

  ghost predicate KnownPath(s: seq<Dentry>, f: Forest, m: Mounts, root: int, path: string)
    requires '/' in path
  {
    KnownIn(s, f, m, root, ParentOf(path), NameOf(path))
  }

  /** What looking a path up does, with or without evictions, before the steps `extra`; without a
      root there is nothing. */
  ghost predicate ReachedIn(s: seq<Dentry>, s': seq<Dentry>, f: Forest, m: Mounts, root: int, path: string,
                            extra: seq<string>, r: int, oom: bool)
  {
    (if root == NO_PARENT then r == NO_PARENT && s' == s
     else Reached(s, s', f, m, root, Components(path), extra, r, oom)) == true
  }

  lemma {:induction false} CompleteKnows(s: seq<Dentry>, root: int, f: Forest, m: Mounts, comps: seq<string>, n: string)
    requires CacheOk(s, root, f, m) && Complete(s, f) && Occ(s, root)
    ensures Known(s, f, m, root, comps, n)
  {
    var dir := Walk(f, m, NodeOf(s[root]), comps);
    if dir.Some? && Child(f, dir.value, n).Some? {
      WalkedIsCached(s, root, f, m, root, comps);
      AtAgrees(s, root, f, m, root, comps);
      AtOneMore(s, root, comps, n);
    }
  }

  lemma {:induction false} CompleteKnowsPath(s: seq<Dentry>, root: int, f: Forest, m: Mounts, path: string)
    requires CacheOk(s, root, f, m) && Complete(s, f) && '/' in path
    ensures KnownPath(s, f, m, root, path)
  {
    if root != NO_PARENT { CompleteKnows(s, root, f, m, Components(ParentOf(path)), NameOf(path)); }
  }

  // ---------------------------------------------------------------- one creation

  /** What making `n` in the directory of entry `p` does to slots and trees. */
  ghost predicate MakeStep(s: seq<Dentry>, s': seq<Dentry>, f: Forest, f': Forest, p: int, n: string,
                           mode: nat, dev: nat, ok: bool, oom: bool)
    requires Occ(s, p)
  {
    MakeParts(s, s', f, f', p, n, mode, dev, ok, oom) == true
  }

  ghost predicate MakeParts(s: seq<Dentry>, s': seq<Dentry>, f: Forest, f': Forest, p: int, n: string,
                            mode: nat, dev: nat, ok: bool, oom: bool)
    requires Occ(s, p)
  {
    var dir := NodeOf(s[p]);
    && Kept(s, s') && SamePinned(s, s') && Grown(f, f')
    && (Complete(s, f) ==> Complete(s', f')) && (AllUnique(f) ==> AllUnique(f'))
    && (ok ==> DirAt(f, dir) && Creatable(mode) && Child(f, dir, n).None? && f' == Made(f, dir, n, mode, dev)
               && Find(s', p, n, 0) < |s'| && FreeSlots(s') + 1 == FreeSlots(s))
    && (!ok ==> (oom || !DirAt(f, dir) || !Creatable(mode) || Child(f, dir, n).Some?) && SameBut(s, s')
                && (f' == f || (dir.sb in f && f' == Skipped(f, dir.sb))))
  }

  lemma {:induction false} MakeFails(s: seq<Dentry>, root: int, f: Forest, m: Mounts, p: int, n: string, v: nat,
                                     f': Forest, mode: nat, dev: nat, oom: bool)
    requires CacheOk(s, root, f, m) && Occ(s, p) && v < |s| && s[v].Free()
    requires f' == f || (NodeOf(s[p]).sb in f && f' == Skipped(f, NodeOf(s[p]).sb))
    requires oom || !DirAt(f, NodeOf(s[p])) || !Creatable(mode) || Child(f, NodeOf(s[p]), n).Some?
    ensures CacheOk(s[v := EMPTY], root, f', m) && MakeStep(s, s[v := EMPTY], f, f', p, n, mode, dev, false, oom)
  {
    WipeKeeps(s, root, f, m, v);
    if f' != f {
      SkippedKeeps(s[v := EMPTY], root, f, m, NodeOf(s[p]).sb);
    }
    WipedMakes(s, f, f', p, n, v, mode, dev, oom);
  }

  lemma {:induction false} WipedMakes(s: seq<Dentry>, f: Forest, f': Forest, p: int, n: string, v: nat, mode: nat,
                                      dev: nat, oom: bool)
    requires Occ(s, p) && v < |s| && s[v].Free() && (Complete(s, f) ==> Complete(s[v := EMPTY], f'))
    requires f' == f || (NodeOf(s[p]).sb in f && f' == Skipped(f, NodeOf(s[p]).sb))
    requires oom || !DirAt(f, NodeOf(s[p])) || !Creatable(mode) || Child(f, NodeOf(s[p]), n).Some?
    ensures MakeStep(s, s[v := EMPTY], f, f', p, n, mode, dev, false, oom)
  {}

  lemma {:induction false} MakeExists(s: seq<Dentry>, root: int, f: Forest, m: Mounts, p: int, n: string, mode: nat,
                                      dev: nat)
    requires CacheOk(s, root, f, m) && Occ(s, p) && Find(s, p, n, 0) < |s|
    ensures var k := Find(s, p, n, 0);
            var s' := s[k := s[k].(count := s[k].count + 1)];
            CacheOk(s', root, f, m) && MakeStep(s, s', f, f, p, n, mode, dev, false, false) && s'[k].vno != 0
  {
    hide CacheParts, Complete, AllUnique, Linked, Counted, UniqueKeys, Victim, FreeSlots;
    HitAgrees(s, root, f, m, p, n);
    StepHits(s, root, f, m, p, n);
  }

  /** The same, evicting an entry if it must; nothing is done without a slot. */
  ghost predicate MakeWent(s: seq<Dentry>, s': seq<Dentry>, f: Forest, f': Forest, p: int, n: string,
                           mode: nat, dev: nat, ok: bool, oom: bool)
  {
    MakeWentParts(s, s', f, f', p, n, mode, dev, ok, oom) == true
  }

  ghost predicate MakeWentParts(s: seq<Dentry>, s': seq<Dentry>, f: Forest, f': Forest, p: int, n: string,
                                mode: nat, dev: nat, ok: bool, oom: bool)
  {
    && Occ(s, p) && Occ(Base(s, p, n), p)
    && if NoSlot(s, p, n) then !ok && s' == s && f' == f
       else MakeStep(Base(s, p, n), s', f, f', p, n, mode, dev, ok, oom)
  }

  /** What a request to the cache for the name to make means. */
  lemma {:induction false} GetMakes(s: seq<Dentry>, s': seq<Dentry>, root: int, f: Forest, m: Mounts, p: int, n: string,
                                    named: bool, r: int, oom: bool, mode: nat, dev: nat)
    requires CacheOk(s, root, f, m) && Occ(s, p) && GetStep(s, s', p, n, named, r) && Evictable(s, p, n)
    requires oom <==> !named && Find(s, p, n, 0) == |s| && Victim(s, |s|) != -1
    requires Child(f, NodeOf(s[p]), n).Some? ==> Find(s, p, n, 0) < |s| || Victim(s, |s|) == -1
    ensures r != -1 ==> 0 <= r < |s'| && |s'| == |s|
    ensures r == -1 || s'[r].vno != 0 ==>
              CacheOk(s', root, f, m) && MakeWent(s, s', f, f, p, n, mode, dev, false, oom)
    ensures r != -1 && s'[r].vno == 0 ==> NewSlot(s, s', p, n, r) && Child(f, NodeOf(s[p]), n).None?
  {
    hide CacheParts, StepParts, MakeParts, NewEntry, BestVictim;
    if Find(s, p, n, 0) < |s| {
      MakeExists(s, root, f, m, p, n, mode, dev);
    } else {
      GetMisses(s, s', root, f, m, p, n, named, r);
      BaseKeeps(s, root, f, m, p, n);
      if r == -1 && !NoSlot(s, p, n) {
        var v := Victim(s, |s|);
        MissWipes(s, s', p, n, named);
        MakeFails(Base(s, p, n), root, f, m, p, n, v, f, mode, dev, true);
      }
    }
  }

  lemma {:induction false} MissWipes(s: seq<Dentry>, s': seq<Dentry>, p: int, n: string, named: bool)
    requires -1 <= p < |s| && GetStep(s, s', p, n, named, -1) && Find(s, p, n, 0) == |s| && Victim(s, |s|) != -1
    ensures s' == Base(s, p, n)[Victim(s, |s|) := EMPTY]
  {
    WriteTwice(s, Victim(s, |s|), EMPTY, EMPTY);
  }

  /** The new entry has been made, or its slot given back. */
  lemma {:induction false} MakeWentOn(s: seq<Dentry>, s1: seq<Dentry>, s': seq<Dentry>, f: Forest, f': Forest, p: int,
                                      n: string, k: int, mode: nat, dev: nat, ok: bool, oom: bool)
    requires NewSlot(s, s1, p, n, k) && Occ(s, p) && Occ(Base(s, p, n), p)
    requires MakeStep(Base(s, p, n), s', f, f', p, n, mode, dev, ok, oom)
    ensures MakeWent(s, s', f, f', p, n, mode, dev, ok, oom)
  {
    hide MakeParts;
  }

  lemma {:induction false} MakeSucceeds(s: seq<Dentry>, root: int, f: Forest, m: Mounts, p: int, n: string, v: nat,
                                        mode: nat, dev: nat, oom: bool)
    requires CacheOk(s, root, f, m) && Occ(s, p) && Find(s, p, n, 0) == |s| && Child(f, NodeOf(s[p]), n).None?
    requires DirAt(f, NodeOf(s[p])) && v < |s| && s[v].Free() && Creatable(mode)
    ensures var dir := NodeOf(s[p]);
            var f' := Made(f, dir, n, mode, dev);
            var s' := s[v := NewEntry(s, v, p, n).(vno := f[dir.sb].lastIno)];
            CacheOk(s', root, f', m) && MakeStep(s, s', f, f', p, n, mode, dev, true, oom)
  {
    var dir := NodeOf(s[p]);
    MadeEnters(s, root, f, m, p, n, v, mode, dev);
    MadeGrows(f, dir, n, mode, dev);
    MadeUniqueNames(f, dir, n, mode, dev);
    if Complete(s, f) {
      MadeComplete(s, root, f, m, p, n, v, mode, dev);
    }
    EnteredMakes(s, f, p, n, v, NewEntry(s, v, p, n).(vno := f[dir.sb].lastIno), mode, dev, oom);
  }

  lemma {:induction false} EnteredMakes(s: seq<Dentry>, f: Forest, p: int, n: string, v: nat, d: Dentry, mode: nat,
                                        dev: nat, oom: bool)
    requires Occ(s, p) && v < |s| && s[v].Free() && d.Is(p, n) && d.mnt.None?
    requires DirAt(f, NodeOf(s[p])) && Creatable(mode)
    requires Child(f, NodeOf(s[p]), n).None?
    requires var f' := Made(f, NodeOf(s[p]), n, mode, dev);
             (Complete(s, f) ==> Complete(s[v := d], f')) && (AllUnique(f) ==> AllUnique(f')) && Grown(f, f')
    ensures MakeStep(s, s[v := d], f, Made(f, NodeOf(s[p]), n, mode, dev), p, n, mode, dev, true, oom)
  {
    assert s[v := d][v].Is(p, n);
    FreeSlotsUpdate(s, v, d);
  }

  lemma {:induction false} MadeEnters(s: seq<Dentry>, root: int, f: Forest, m: Mounts, p: int, n: string, v: nat,
                                      mode: nat, dev: nat)
    requires CacheOk(s, root, f, m) && Occ(s, p) && Find(s, p, n, 0) == |s| && Child(f, NodeOf(s[p]), n).None?
    requires DirAt(f, NodeOf(s[p])) && v < |s| && s[v].Free()
    ensures var dir := NodeOf(s[p]);
            CacheOk(s[v := NewEntry(s, v, p, n).(vno := f[dir.sb].lastIno)], root, Made(f, dir, n, mode, dev), m)
  {
    var dir := NodeOf(s[p]);
    MadeKeeps(s, root, f, m, dir, n, mode, dev);
    MadeChildren(f, dir, n, mode, dev, dir, n);
    EnterKeeps(s, root, Made(f, dir, n, mode, dev), m, p, n, v);
  }

  lemma {:induction false} MadeGrows(f: Forest, dir: Loc, n: string, mode: nat, dev: nat)
    requires AllPlanted(f) && DirAt(f, dir)
    ensures Grown(f, Made(f, dir, n, mode, dev))
  {
    forall l | Has(f, l)
      ensures var f' := Made(f, dir, n, mode, dev);
              Has(f', l) && NodeAt(f', l).mode == NodeAt(f, l).mode && NodeAt(f', l).dev == NodeAt(f, l).dev
    {
      MadeChildren(f, dir, n, mode, dev, l, n);
    }
  }

  /** Why creating needs the name to be known: entering a made node keeps the cache right,
      and the names unique, exactly if the name was nobody's. */
  lemma {:induction false} MakeRightIffNew(s: seq<Dentry>, root: int, f: Forest, m: Mounts, p: int, n: string, v: nat,
                                           mode: nat, dev: nat)
    requires CacheOk(s, root, f, m) && AllUnique(f) && Occ(s, p) && Find(s, p, n, 0) == |s|
    requires DirAt(f, NodeOf(s[p])) && v < |s| && s[v].Free()
    ensures var dir := NodeOf(s[p]);
            var f' := Made(f, dir, n, mode, dev);
            var s' := s[v := NewEntry(s, v, p, n).(vno := f[dir.sb].lastIno)];
            && (CacheOk(s', root, f', m) <==> Child(f, dir, n).None?)
            && (AllUnique(f') <==> Child(f, dir, n).None?)
  {
    var dir := NodeOf(s[p]);
    var f' := Made(f, dir, n, mode, dev);
    var s' := s[v := NewEntry(s, v, p, n).(vno := f[dir.sb].lastIno)];
    MadeUnique(f, dir, n, mode, dev);
    if Child(f, dir, n).None? {
      MadeEnters(s, root, f, m, p, n, v, mode, dev);
    } else {
      ChildExists(f, dir, n);
      MadeChildren(f, dir, n, mode, dev, dir, n);
      NewEntryBelongs(s, root, f, m, v, p, n);
      assert Planted(f[dir.sb]);
      assert !Linked(s', f', v);
    }
  }

  // ---------------------------------------------------------------- a whole creation

  /** What creating `n` in the directory that `comps` leads to does. */
  ghost predicate Created(s: seq<Dentry>, s': seq<Dentry>, f: Forest, f': Forest, m: Mounts, root: int,
                          comps: seq<string>, n: string, mode: nat, dev: nat, ok: bool, oom: bool)
    requires Occ(s, root)
  {
    CreatedParts(s, s', f, f', m, root, comps, n, mode, dev, ok, oom) == true
  }

  ghost predicate CreatedParts(s: seq<Dentry>, s': seq<Dentry>, f: Forest, f': Forest, m: Mounts, root: int,
                               comps: seq<string>, n: string, mode: nat, dev: nat, ok: bool, oom: bool)
    requires Occ(s, root)
  {
    var dir := Walk(f, m, NodeOf(s[root]), comps);
    && SamePinned(s, s') && SameRoot(s, s', root) && (AllUnique(f) ==> AllUnique(f')) && Grown(f, f')
    && (ok ==> dir.Some? && DirAt(f, dir.value) && Creatable(mode) && Child(f, dir.value, n).None?
               && f' == Made(f, dir.value, n, mode, dev) && At(s', root, comps + [n]) != NO_PARENT)
    && (!ok ==> oom || AllPinned(s) || dir.None? || !DirAt(f, dir.value) || !Creatable(mode)
                || Child(f, dir.value, n).Some?)
    && (!ok ==> f' == f || (dir.Some? && dir.value.sb in f && f' == Skipped(f, dir.value.sb)))
    && (Roomy(s, f, root, comps + [n]) ==>
          && Kept(s, s')
          && (Complete(s, f) ==> Complete(s', f') && FreeSlots(s') + (if ok then 1 else 0) == FreeSlots(s)))
  }

  /** The same for a parent path, and for the path of the node. */
  ghost predicate CreatedIn(s: seq<Dentry>, s': seq<Dentry>, f: Forest, f': Forest, m: Mounts, root: int,
                            parent: string, n: string, mode: nat, dev: nat, ok: bool, oom: bool)
  {
    (if root == NO_PARENT then !ok && f' == f && s' == s
     else Occ(s, root) && Created(s, s', f, f', m, root, Components(parent), n, mode, dev, ok, oom)) == true
  }

  ghost predicate CreatedPath(s: seq<Dentry>, s': seq<Dentry>, f: Forest, f': Forest, m: Mounts, root: int,
                              path: string, mode: nat, dev: nat, ok: bool, oom: bool)
    requires '/' in path
  {
    if path == "/" then !ok && f' == f && s' == s
    else CreatedIn(s, s', f, f', m, root, ParentOf(path), NameOf(path), mode, dev, ok, oom)
  }

  lemma {:induction false} CreateRefused(s: seq<Dentry>, f: Forest, m: Mounts, root: int, parent: string, n: string,
                                         mode: nat, dev: nat)
    requires root == NO_PARENT || Occ(s, root)
    ensures CreatedIn(s, s, f, f, m, root, parent, n, mode, dev, false, true)
  {}

  /** The parent was not found. */
  lemma {:induction false} CreateLost(s: seq<Dentry>, s': seq<Dentry>, f: Forest, m: Mounts, root: int,
                   parent: string, n: string, mode: nat, dev: nat, oom: bool)
    requires ReachedIn(s, s', f, m, root, parent, [n], NO_PARENT, oom) && CacheOk(s, root, f, m)
    ensures CreatedIn(s, s', f, f, m, root, parent, n, mode, dev, false, oom)
  {
    hide CacheParts, Safe, Walk, Complete, Misses;
    SameFreeSlotsIf(s, s');
    if root != NO_PARENT {
      RootIsMounted(s, root, f, m);
      PinnedRoot(s, s', root);
    }
  }

  /** Making a node in a directory keeps mountpoints and the way to the directory. */
  lemma {:induction false} MakeWentAt(s: seq<Dentry>, s': seq<Dentry>, root: int, f: Forest, f': Forest, m: Mounts,
                                      start: nat, done: seq<string>, p: int, n: string, mode: nat, dev: nat, ok: bool,
                                      oom: bool)
    requires CacheOk(s, root, f, m) && CacheOk(s', root, f', m) && MakeWent(s, s', f, f', p, n, mode, dev, ok, oom)
    requires Evictable(s, p, n) && At(s, start, done) == p
    ensures SamePinned(s, s') && (NoSlot(s, p, n) ==> AllPinned(s))
    ensures ok ==> At(s', start, done + [n]) != NO_PARENT
  {
    hide CacheParts, Complete, AllUnique, Grown, Made;
    CacheBasics(s, root, f, m);
    CacheBasics(s', root, f', m);
    BasePinned(s, p, n);
    BaseKeeps(s, root, f, m, p, n);
    BaseAt(s, start, done, p, n);
    if !NoSlot(s, p, n) {
      SamePinnedTwice(s, Base(s, p, n), s');
      AtKept(Base(s, p, n), s', start, done);
      if ok { AtOneMore(s', start, done, n); }
    }
  }

  lemma {:induction false} BasePinned(s: seq<Dentry>, p: int, n: string)
    ensures SamePinned(s, Base(s, p, n)) && (NoSlot(s, p, n) ==> AllPinned(s))
  {
    VictimIsBest(s, |s|);
  }

  lemma {:induction false} SafeStep(s: seq<Dentry>, f: Forest, p: int, n: string)
    requires Safe(s, f, p, [n])
    ensures Occ(s, p) && Evictable(s, p, n)
  {}

  /** The parent was found and the node made in it, or not. */
  lemma {:induction false} CreateDone(s: seq<Dentry>, s1: seq<Dentry>, s2: seq<Dentry>, f: Forest, f': Forest,
                                      m: Mounts, root: int, parent: string, n: string, p: int, oom1: bool, mode: nat,
                                      dev: nat, ok: bool, oom: bool)
    requires p != NO_PARENT && ReachedIn(s, s1, f, m, root, parent, [n], p, oom1) && Occ(s1, p)
    requires CacheOk(s, root, f, m) && CacheOk(s1, root, f, m) && CacheOk(s2, root, f', m)
    requires MakeWent(s1, s2, f, f', p, n, mode, dev, ok, oom)
    ensures CreatedIn(s, s2, f, f', m, root, parent, n, mode, dev, ok, oom)
  {
    hide CacheParts, Walk, AllUnique, Made, Complete, SameBut, Kept, Childless, LookupParts, StepParts, Misses, Safe,
        UniqueKeys, Counted, AllPinned, SamePinned, Evictable, NoSlot, Roomy;
    var comps := Components(parent);
    RootIsMounted(s, root, f, m);
    SafeStep(s1, f, p, n);
    BaseKeeps(s1, root, f, m, p, n);
    MakeWentAt(s1, s2, root, f, f', m, root, comps, p, n, mode, dev, ok, oom);
    SamePinnedTwice(s, s1, s2);
    PinnedRoot(s, s2, root);
    if Roomy(s, f, root, comps + [n]) {
      CreateRoomy(s, s1, s2, f, f', m, root, comps, n, p, oom1, mode, dev, ok, oom);
    }
  }

  lemma {:induction false} CreateRoomy(s: seq<Dentry>, s1: seq<Dentry>, s2: seq<Dentry>, f: Forest, f': Forest,
                                       m: Mounts, root: int, comps: seq<string>, n: string, p: int, oom1: bool,
                                       mode: nat, dev: nat, ok: bool, oom: bool)
    requires root >= 0 && p != NO_PARENT && Reached(s, s1, f, m, root, comps, [n], p, oom1) && Occ(s1, p)
    requires MakeWent(s1, s2, f, f', p, n, mode, dev, ok, oom) && Roomy(s, f, root, comps + [n])
    ensures Kept(s, s2)
    ensures Complete(s, f) ==> Complete(s2, f') && FreeSlots(s2) + (if ok then 1 else 0) == FreeSlots(s)
  {
    hide Walk, AllUnique, Grown, Made, Safe, SamePinned;
    AtMore(s1, root, comps, [n]);
    RoomForStep(s1, f, p, [n]);
    if FreeSlots(s1) > 0 { RoomForOne(s1, p, n); }
    KeptTransitive(s, s1, s2);
    SameFreeSlotsIf(s, s1);
    SameFreeSlotsIf(s1, s2);
  }

  /** What was known before the parent was looked up still is, and the next step is safe. */
  lemma {:induction false} FindIsRight(s: seq<Dentry>, s1: seq<Dentry>, root: int, f: Forest, m: Mounts,
                                       parent: string, n: string, p: int, oom: bool)
    requires KnownIn(s, f, m, root, parent, n) && ReachedIn(s, s1, f, m, root, parent, [n], p, oom)
    requires CacheOk(s, root, f, m) && CacheOk(s1, root, f, m)
    ensures p != NO_PARENT ==> Occ(s1, p) && Evictable(s1, p, n)
    ensures p != NO_PARENT && Child(f, NodeOf(s1[p]), n).Some? ==>
              Find(s1, p, n, 0) < |s1| || Victim(s1, |s1|) == -1
  {
    hide CacheParts, Complete, LookupParts, Roomy, BestVictim;
    if p != NO_PARENT {
      var comps := Components(parent);
      RootIsMounted(s, root, f, m);
      if At(s, root, comps + [n]) != NO_PARENT {
        AtPrefix(s, root, comps, [n]);
        SameAt(s, s1, root, comps + [n]);
        AtMore(s1, root, comps, [n]);
      } else if AllPinned(s) {
        NoVictim(s, s1);
      }
    }
  }

  lemma {:induction false} NoVictim(s: seq<Dentry>, s': seq<Dentry>)
    requires AllPinned(s) && SamePinned(s, s')
    ensures AllPinned(s') && Victim(s', |s'|) == -1
  {
    VictimIsBest(s', |s'|);
    forall i | 0 <= i < |s'|
      ensures Pinned(s'[i])
    {
      assert Pinned(s[i]) && s'[i] == s[i].(count := s'[i].count);
    }
  }

  /** After a creation its steps lead to the new node. */
  lemma {:induction false} StepsResolve(s: seq<Dentry>, s': seq<Dentry>, f: Forest, f': Forest, m: Mounts, root: int,
                        comps: seq<string>, n: string, mode: nat, dev: nat, oom: bool)
    requires Occ(s, root) && CacheOk(s, root, f, m) && CacheOk(s', root, f', m)
    requires Created(s, s', f, f', m, root, comps, n, mode, dev, true, oom)
    ensures var dir := Walk(f, m, NodeOf(s[root]), comps).value;
            var l := Loc(dir.sb, f[dir.sb].lastIno);
            && Walk(f', m, NodeOf(s'[root]), comps + [n]) == Some(l)
            && !Has(f, l) && Has(f', l) && NodeAt(f', l) == Node(mode, dev, [])
  {
    hide CacheParts, Find, Complete, AllUnique, Grown, Kept, SamePinned, Misses, FreeSlots, UniqueKeys, Counted,
        Linear, Closed, At, Roomy, AllPinned;
    var dir := Walk(f, m, NodeOf(s[root]), comps).value;
    CacheBasics(s, root, f, m);
    assert Planted(f[dir.sb]);
    MountsExist(s, root, f, m);
    WalkGrows(f, m, dir, n, mode, dev, NodeOf(s[root]), comps);
    MadeChildren(f, dir, n, mode, dev, dir, n);
    WalkMore(f', m, NodeOf(s'[root]), comps, n);
  }

  /** After a creation the path leads to the new node exactly if it does not end in a slash: then
      the new node has the empty name, and the path leads to the directory it was made in. */
  lemma {:induction false} CreatedResolves(s: seq<Dentry>, s': seq<Dentry>, f: Forest, f': Forest, m: Mounts, root: int,
                                           path: string, mode: nat, dev: nat, oom: bool)
    requires CacheOk(s, root, f, m) && CacheOk(s', root, f', m) && (root != NO_PARENT ==> Occ(s, root))
    requires '/' in path && CreatedPath(s, s', f, f', m, root, path, mode, dev, true, oom)
    ensures root != NO_PARENT
    ensures var dir := Walk(f, m, NodeOf(s[root]), Components(ParentOf(path)));
            && dir.Some? && DirAt(f, dir.value)
            && var l := Loc(dir.value.sb, f[dir.value.sb].lastIno);
            && !Has(f, l) && Has(f', l) && NodeAt(f', l) == Node(mode, dev, []) && l.ino > ROOT_INO
            && (Walk(f', m, NodeOf(s'[root]), Components(path)) == Some(l) <==> NameOf(path) != "")
            && (NameOf(path) == "" ==> Walk(f', m, NodeOf(s'[root]), Components(path)) == dir)
  {
    var comps := Components(ParentOf(path));
    StepsAreComponents(path);
    StepsResolve(s, s', f, f', m, root, comps, NameOf(path), mode, dev, oom);
    var dir := Walk(f, m, NodeOf(s[root]), comps).value;
    assert Planted(f[dir.sb]);
    if NameOf(path) == "" { WalkGrows(f, m, dir, "", mode, dev, NodeOf(s[root]), comps); }
  }

  /** Only nodes that exist are covered by mounts. */
  lemma {:induction false} MountsExist(s: seq<Dentry>, root: int, f: Forest, m: Mounts)
    requires CacheOk(s, root, f, m)
    ensures forall l :: l in m ==> Has(f, l)
  {
    forall l | l in m
      ensures Has(f, l)
    {
      assert root != NO_PARENT && Pins(s, root, l);
      var i :| Occ(s, i) && i != root && Covered(s[i]) == l;
      assert Linked(s, f, i);
      ChildExists(f, NodeOf(s[s[i].parent]), s[i].name.value);
    }
  }

  lemma {:induction false} WalkMore(f: Forest, m: Mounts, at: Loc, comps: seq<string>, n: string)
    requires Walk(f, m, at, comps).Some?
    ensures var c := Child(f, Walk(f, m, at, comps).value, n);
            Walk(f, m, at, comps + [n]) == if c.None? then None else Some(Cross(m, c.value))
    decreases |comps|
  {
    if comps == [] {
      assert comps + [n] == [n] && [n][1..] == [];
    } else {
      assert (comps + [n])[0] == comps[0] && (comps + [n])[1..] == comps[1..] + [n];
      WalkMore(f, m, Cross(m, Child(f, at, comps[0]).value), comps[1..], n);
    }
  }

  /** Walks that lead somewhere lead there still after a node was made. */
  lemma {:induction false} WalkGrows(f: Forest, m: Mounts, dir: Loc, n: string, mode: nat, dev: nat, at: Loc,
                                     comps: seq<string>)
    requires AllPlanted(f) && DirAt(f, dir) && Walk(f, m, at, comps).Some?
    ensures Walk(Made(f, dir, n, mode, dev), m, at, comps) == Walk(f, m, at, comps)
    decreases |comps|
  {
    if comps != [] {
      MadeChildren(f, dir, n, mode, dev, at, comps[0]);
      WalkGrows(f, m, dir, n, mode, dev, Cross(m, Child(f, at, comps[0]).value), comps[1..]);
    }
  }
}
