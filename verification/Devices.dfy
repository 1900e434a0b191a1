/** Setting up the device file system: a directory is made and a file system mounted on it. */
module Devices {
  import opened Frames
  import opened Memory
  import opened DentryCache
  import opened MemTree
  import opened PathCache
  import opened Eviction
  import opened PathLookup
  import opened Creation
  import opened MountCache
  import opened Vfs
  import opened OpenRules

  /** A name directly under the root is one step, in lookups and creations alike. */
  lemma {:induction false} TopLevel(n: string)
    requires n != "" && '/' !in n
    ensures var path := "/" + n;
            '/' in path && ParentOf(path) == "" && NameOf(path) == n && Components("") == []
            && Steps(path) == [n] && Components(path) == [n]
  {
    var path := "/" + n;
    assert path[0] == '/' && path[1..] == n;
    assert forall i :: 0 < i < |path| ==> path[i] == n[i - 1];
    StepsAreComponents(path);
  }

  /** A directory just made under the root is ready to be mounted on: its entry has no children. */
  lemma {:induction false} NewIsChildless(s: seq<Dentry>, s': seq<Dentry>, f: Forest, f': Forest, m: Mounts, root: int,
                                          n: string, mode: nat, dev: nat, oom: bool)
    requires root != NO_PARENT && CacheOk(s, root, f, m) && CacheOk(s', root, f', m)
    requires n != "" && '/' !in n && CreatedPath(s, s', f, f', m, root, "/" + n, mode, dev, true, oom)
    ensures Occ(s', root) && ChildlessAt(s', root, [n]) && Safe(s', f', root, [n])
    ensures var l := Walk(f', m, NodeOf(s'[root]), [n]);
            l.Some? && Has(f', l.value) && NodeAt(f', l.value).mode == mode && l.value.ino > ROOT_INO
  {
    hide CacheParts, Find, Walk, Kept, Complete, AllUnique, Grown, Made, Safe;
    TopLevel(n);
    RootIsMounted(s, root, f, m);
    RootIsMounted(s', root, f', m);
    CreatedResolves(s, s', f, f', m, root, "/" + n, mode, dev, oom);
    assert [] + [n] == [n] && [n] + [] == [n];
    AtAgrees(s', root, f', m, root, [n]);
    MadeLeads(s, s', f, f', m, root, "/" + n, mode, dev, oom);
    EmptyIsChildless(s', root, f', m, At(s', root, [n]));
  }

  /** What is left of the other file systems, of the mountpoints, and of a complete cache. */
  lemma {:induction false} OthersAsBefore(s: seq<Dentry>, s': seq<Dentry>, f: Forest, f': Forest, m: Mounts, root: int,
                                          n: string, mode: nat, dev: nat, oom: bool, sb: nat)
    requires root != NO_PARENT && Occ(s, root) && CreatedIn(s, s', f, f', m, root, "", n, mode, dev, true, oom)
    requires Components("") == []
    ensures (sb in f ==> sb in f') && Child(f, NodeOf(s[root]), n).None?
    ensures Complete(s, f) && FreeSlots(s) > 0 ==> Complete(s', f')
    ensures AllPinned(s') ==> AllPinned(s)
  {
    hide FreeSlots, Misses, Find, AllUnique, Grown;
    assert Walk(f, m, NodeOf(s[root]), []) == Some(NodeOf(s[root])) && [] + [n] == [n];
    SamePinnedTwice(s, s', s');
  }

  /** The name is free in the root directory, and the file system is known and not mounted. */
  ghost predicate DevReady(s: seq<Dentry>, root: int, f: Forest, sbs: set<nat>, fsTypes: set<string>,
                           name: string, devfs: nat, fsType: string)
  {
    0 <= root < |s| && Child(f, NodeOf(s[root]), name).None? && fsType in fsTypes && devfs !in sbs
  }

  /** What the set-up does: it succeeds exactly if all is ready, memory suffices, and the cache
      holds more than mountpoints.  Then the directory's path leads to the mounted root; a
      complete cache with a free slot stays complete. */
  ghost predicate DevStep(s: seq<Dentry>, s': seq<Dentry>, root: int, f: Forest, f': Forest, m': Mounts, sbs: set<nat>,
                          fsTypes: set<string>, name: string, devfs: nat, fsType: string, ok: bool, oom: bool)
  {
    if !ok then oom || AllPinned(s) || !DevReady(s, root, f, sbs, fsTypes, name, devfs, fsType)
    else
      && DevReady(s, root, f, sbs, fsTypes, name, devfs, fsType)
      && (Complete(s, f) && FreeSlots(s) > 0 ==> Complete(s', f'))
      && 0 <= root < |s'| && Walk(f', m', NodeOf(s'[root]), [name]) == Some(Loc(devfs, ROOT_INO))
  }

  lemma {:induction false} DevMounted(s: seq<Dentry>, s1: seq<Dentry>, s2: seq<Dentry>, root: int, f: Forest,
                                      f1: Forest, f2: Forest, m: Mounts, m2: Mounts, sbs: set<nat>, sbs2: set<nat>,
                                      fsTypes: set<string>, name: string, devfs: nat, fsType: string, ok: bool,
                                      kept: bool, oom: bool)
    requires 0 <= root < |s| && Child(f, NodeOf(s[root]), name).None? && Components("/" + name) == [name]
    requires MountedAt(s1, s2, root, f1, f2, m, m2, sbs, sbs2, fsTypes, "/" + name, devfs, fsType, ok, kept, oom)
    requires (Complete(s, f) && FreeSlots(s) > 0 ==> Complete(s1, f1)) && (AllPinned(s1) ==> AllPinned(s))
    requires var l := Walk(f1, m, NodeOf(s1[root]), [name]);
             l.Some? && DirAt(f1, l.value) && l.value.ino > ROOT_INO
    ensures DevStep(s, s2, root, f, f2, m2, sbs, fsTypes, name, devfs, fsType, ok, oom)
  {
    hide Complete, FreeSlots, AllPinned, Walk;
  }

  /** Makes the directory and mounts the file system of device `devfs` on it. */
  method DevInit(fs: FileSystem, name: string, devfs: nat, fsType: string) returns (ok: bool, ghost oom: bool)
    requires fs.Valid() && fs.root != NO_PARENT && name != "" && '/' !in name && '\0' !in name
    requires fs.SafeFor([name]) && KnownIn(fs.cache.slots[..], fs.forest, fs.mounts, fs.root, "", name)
    requires Mountable(fs.forest, fs.sbs, fs.fsTypes, devfs, fsType)
    modifies fs, fs.cache.slots
    ensures fs.Valid() && fs.root == old(fs.root) && Spent(fs.answers, old(fs.asked), fs.asked, oom)
    ensures DevStep(old(fs.cache.slots[..]), fs.cache.slots[..], fs.root, old(fs.forest), fs.forest, fs.mounts,
                    old(fs.sbs), old(fs.fsTypes), name, devfs, fsType, ok, oom)
  {
    hide CacheParts, MountsIn, Find, Walk, Complete, Childless, Created, KnownIn, WithRoot, Detached, Child, Made,
      MountParts, DevReady, FreeSlots, Misses, Safe, ChildlessAt, AllPinned;
    var path := "/" + name;
    TopLevel(name);
    ghost var s, f, kept := fs.cache.slots[..], fs.forest, false;
    RootIsMounted(s, fs.root, f, fs.mounts);
    ok, oom := fs.Mkdir(path, MODE_755);
    ghost var s1, f1, m, oom1, a := fs.cache.slots[..], fs.forest, fs.mounts, oom, fs.asked;
    ghost var mode := WithType(MODE_755, DIRECTORY);
    if !ok {
      NotMade(s, s1, f, f1, m, fs.root, name, mode, 0, oom, fs.sbs, fs.fsTypes, devfs, fsType);
      return;
    }
    NewIsChildless(s, s1, f, f1, m, fs.root, name, mode, 0, oom);
    OthersAsBefore(s, s1, f, f1, m, fs.root, name, mode, 0, oom, devfs);
    ok, kept, oom := fs.Mount(devfs, path, fsType);
    DevMounted(s, s1, fs.cache.slots[..], fs.root, f, f1, fs.forest, m, fs.mounts, old(fs.sbs), fs.sbs, fs.fsTypes,
               name, devfs, fsType, ok, kept, oom);
    SpentTwice(fs.answers, old(fs.asked), a, fs.asked, oom1, oom, oom);
  }

  lemma {:induction false} NotMade(s: seq<Dentry>, s': seq<Dentry>, f: Forest, f': Forest, m: Mounts, root: int,
                                   n: string, mode: nat, dev: nat, oom: bool, sbs: set<nat>, fsTypes: set<string>,
                                   devfs: nat, fsType: string)
    requires Occ(s, root) && DirAt(f, NodeOf(s[root])) && Components("") == [] && Creatable(mode)
    requires CreatedIn(s, s', f, f', m, root, "", n, mode, dev, false, oom)
    ensures oom || AllPinned(s) || !DevReady(s, root, f, sbs, fsTypes, n, devfs, fsType)
  {
    assert Walk(f, m, NodeOf(s[root]), []) == Some(NodeOf(s[root]));
  }
}
