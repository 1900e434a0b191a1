/** Whole runs of calls to the virtual file system, in any order. */
module VfsRuns {
  import opened Frames
  import opened Memory
  import opened DentryCache
  import opened MemTree
  import opened PathCache
  import opened Eviction
  import opened PathLookup
  import opened Creation
  import opened Vnodes
  import opened OpenFiles
  import opened MountCache
  import opened OpenRules
  import opened Vfs
  import Strtok

  // The state of a file system between two calls.
  datatype World = World(slots: seq<Dentry>, root: int, forest: Forest, mounts: Mounts, sbs: set<nat>,
                         vnodes: seq<Vnode>, files: seq<OpenFile>, next: nat, held: multiset<Loc>,
                         types: set<string>, devs: set<nat>, answers: seq<bool>, asked: nat)

  datatype Call =
    | Mkdir(path: string, mode: nat)
    | Mknod(path: string, mode: nat, dev: nat)
    | Stat(path: string)
    | Open(path: string, flags: nat, mode: nat, devOpens: bool)
    | Close(id: nat)
    | Mount(path: string, dev: nat, fsType: string)

  ghost function Now(fs: FileSystem): World
    reads fs, fs.cache.slots
  {
    World(fs.cache.slots[..], fs.root, fs.forest, fs.mounts, fs.sbs, fs.vnodes, fs.files, fs.nextFile, fs.held,
          fs.fsTypes, fs.charDevs, fs.answers, fs.asked)
  }

  /** The cache says nothing the trees do not, references and open files balance, and only
      mounted file systems have nodes. */
  ghost predicate Good(w: World) {
    && CacheOk(w.slots, w.root, w.forest, w.mounts) && VnodesOk(w.vnodes, w.forest)
    && Accounts(w.vnodes, w.files, w.next, w.held) && MountsIn(w.slots, w.root, w.mounts, w.sbs)
    && Registered(w.forest, w.sbs)
  }

  ghost predicate SafeSteps(w: World, comps: seq<string>) {
    w.root != NO_PARENT ==> Safe(w.slots, w.forest, w.root, comps)
  }

  ghost predicate MayCreate(w: World, path: string)
    requires '/' in path
  {
    SafeSteps(w, Steps(path)) && KnownPath(w.slots, w.forest, w.mounts, w.root, path)
  }

  /** What the caller answers for: strings end, and a path to create has a slash. */
  predicate WellFormed(c: Call) {
    match c
    case Close(_) => true
    case Stat(path) => Strtok.NUL !in path
    case Mount(path, _, _) => Strtok.NUL !in path
    case _ => Strtok.NUL !in c.path && '/' in c.path
  }

  /** What the call needs. */
  ghost predicate Allowed(c: Call, w: World)
    requires WellFormed(c)
  {
    match c
    case Mkdir(path, _) => MayCreate(w, path)
    case Mknod(path, _, _) => MayCreate(w, path)
    case Stat(path) => SafeSteps(w, Components(path))
    case Open(path, flags, _, _) =>
      if Flag(flags, CREATE) then
        SafeSteps(w, Steps(path))
        && (KnownPath(w.slots, w.forest, w.mounts, w.root, path) || Plenty(w.answers, w.asked))
      else SafeSteps(w, Components(path))
    case Close(id) => forall i :: 0 <= i < |w.files| && w.files[i].id == id ==> w.files[i].live
    case Mount(path, dev, fsType) =>
      SafeSteps(w, Components(path)) && Mountable(w.forest, w.sbs, w.types, dev, fsType)
      && ChildlessAt(w.slots, w.root, Components(path))
  }

  ghost predicate OnlyTrees(w: World, w': World) {
    w' == w.(slots := w'.slots, forest := w'.forest, asked := w'.asked)
  }

  ghost predicate Paid(w: World, w': World, oom: bool) {
    Spent(w.answers, w.asked, w'.asked, oom)
  }

  /** What the call may do, as its method promises. */
  ghost predicate Did(c: Call, w: World, w': World)
    requires WellFormed(c)
  {
    (Good(w') && |w'.slots| == |w.slots| && w.asked <= w'.asked && CallParts(c, w, w')) == true
  }

  ghost predicate CallParts(c: Call, w: World, w': World)
    requires WellFormed(c)
  {
    match c
    case Mkdir(path, mode) => OnlyTrees(w, w') && DidCreate(w, w', path, WithType(mode, DIRECTORY), 0)
    case Mknod(path, mode, dev) => OnlyTrees(w, w') && DidMknod(w, w', path, mode, dev)
    case Stat(path) => w' == w.(slots := w'.slots, asked := w'.asked) && DidStat(w, w', path)
    case Open(path, flags, mode, devOpens) =>
      w' == w.(slots := w'.slots, forest := w'.forest, vnodes := w'.vnodes, files := w'.files, next := w'.next,
               asked := w'.asked)
      && DidOpen(w, w', path, flags, mode, devOpens)
    case Close(id) => w' == w.(vnodes := w'.vnodes, files := w'.files) && DidClose(w, w', id)
    case Mount(path, dev, fsType) =>
      w' == w.(slots := w'.slots, root := w'.root, forest := w'.forest, mounts := w'.mounts, sbs := w'.sbs,
               vnodes := w'.vnodes, held := w'.held, asked := w'.asked)
      && DidMount(w, w', path, dev, fsType)
  }

  ghost predicate DidCreate(w: World, w': World, path: string, mode: nat, dev: nat)
    requires '/' in path
  {
    exists ok, oom :: Paid(w, w', oom)
                      && CreatedPath(w.slots, w'.slots, w.forest, w'.forest, w.mounts, w.root, path, mode, dev, ok, oom)
  }

  ghost predicate DidMknod(w: World, w': World, path: string, mode: nat, dev: nat)
    requires '/' in path
  {
    if FileType(mode) in {DIRECTORY, REGULAR, SYMLINK} then w' == w.(asked := w'.asked)
    else DidCreate(w, w', path, mode, dev)
  }

  ghost predicate DidStat(w: World, w': World, path: string) {
    exists d, r, oom :: Paid(w, w', oom) && StatStep(w.slots, w'.slots, w.forest, w.mounts, w.root, path, d, r, oom)
  }

  ghost predicate DidOpen(w: World, w': World, path: string, flags: nat, mode: nat, devOpens: bool)
    requires '/' in path
  {
    exists d, made, noEntry, r, oom ::
      && Paid(w, w', noEntry || oom)
      && Found(w.slots, w'.slots, w.forest, w'.forest, w.mounts, w.root, path, flags, mode, d, made, noEntry)
      && OpenedAt(w'.slots, d, w.vnodes, w'.vnodes, w.files, w'.files, w.next, w'.forest, flags, w.devs, devOpens, r,
                  oom)
  }

  ghost predicate DidClose(w: World, w': World, id: nat) {
    var k := FileIndex(w.files, id, 0);
    if k == |w.files| then w' == w
    else
      && Count(w.vnodes, w.files[k].loc) >= 1
      && w' == w.(files := w.files[..k] + w.files[k + 1..], vnodes := Dropped(w.vnodes, w.files[k].loc))
  }

  ghost predicate DidMount(w: World, w': World, path: string, dev: nat, fsType: string) {
    if w.root == NO_PARENT then w'.vnodes == w.vnodes && w'.held == w.held && DidMountRoot(w, w', path, dev, fsType)
    else if path == "/" then w' == w.(asked := w'.asked, vnodes := w'.vnodes, held := w'.held)
    else w'.root == w.root && exists ok, kept, oom :: DidMountAt(w, w', path, dev, fsType, ok, kept, oom)
  }

  ghost predicate DidMountRoot(w: World, w': World, path: string, dev: nat, fsType: string) {
    if w'.root == NO_PARENT then
      && w'.mounts == w.mounts && w'.sbs == w.sbs && (w'.forest == w.forest || Detached(w.forest, w'.forest, dev))
      && (path != "/" || fsType !in w.types || dev in w.sbs || |w.slots| == 0 || Paid(w, w', true))
    else
      && path == "/" && w'.mounts == map[]
      && RootIs(w'.slots, w'.root, w.forest, w'.forest, w.sbs, w'.sbs, w.types, dev, fsType)
  }

  ghost predicate DidMountAt(w: World, w': World, path: string, dev: nat, fsType: string, ok: bool, kept: bool,
                             oom: bool)
  {
    && Paid(w, w', oom)
    && MountedAt(w.slots, w'.slots, w.root, w.forest, w'.forest, w.mounts, w'.mounts, w.sbs, w'.sbs, w.types, path,
                 dev, fsType, ok, kept, oom)
    && 0 <= w.root < |w.slots|
    && KeepStep(w.vnodes, w'.vnodes, w.held, w'.held, w.forest, Leads(w, path), kept)
  }

  /** Where a path leads, without the cache. */
  ghost function Leads(w: World, path: string): Option<Loc> {
    if 0 <= w.root < |w.slots| then Walk(w.forest, w.mounts, NodeOf(w.slots[w.root]), Components(path)) else None
  }

  lemma {:induction false} MkdirDid(w: World, w': World, path: string, mode: nat, ok: bool, oom: bool)
    requires WellFormed(Mkdir(path, mode)) && Good(w') && |w'.slots| == |w.slots| && OnlyTrees(w, w')
    requires Paid(w, w', oom)
    requires CreatedPath(w.slots, w'.slots, w.forest, w'.forest, w.mounts, w.root, path, WithType(mode, DIRECTORY), 0,
                         ok, oom)
    ensures Did(Mkdir(path, mode), w, w')
  {
    hide Good, CreatedPath;
  }

  lemma {:induction false} MknodDid(w: World, w': World, path: string, mode: nat, dev: nat, ok: bool, oom: bool)
    requires WellFormed(Mknod(path, mode, dev)) && Good(w') && |w'.slots| == |w.slots| && OnlyTrees(w, w')
    requires Paid(w, w', oom)
    requires if FileType(mode) in {DIRECTORY, REGULAR, SYMLINK} then w' == w.(asked := w'.asked)
             else CreatedPath(w.slots, w'.slots, w.forest, w'.forest, w.mounts, w.root, path, mode, dev, ok, oom)
    ensures Did(Mknod(path, mode, dev), w, w')
  {
    hide Good, CreatedPath;
  }

  lemma {:induction false} StatDid(w: World, w': World, path: string, r: Option<(nat, nat, nat)>, oom: bool)
    requires WellFormed(Stat(path)) && Good(w') && |w'.slots| == |w.slots|
             && w' == w.(slots := w'.slots, asked := w'.asked) && Paid(w, w', oom)
    requires exists d :: StatStep(w.slots, w'.slots, w.forest, w.mounts, w.root, path, d, r, oom)
    ensures Did(Stat(path), w, w')
  {
    hide Good, StatStep;
  }

  lemma {:induction false} CloseDid(w: World, w': World, id: nat, ok: bool)
    requires Good(w') && w' == w.(vnodes := w'.vnodes, files := w'.files)
             && (ok <==> FileIndex(w.files, id, 0) < |w.files|)
    requires !ok ==> w'.files == w.files && w'.vnodes == w.vnodes
    requires ok ==> var k := FileIndex(w.files, id, 0);
                    && w'.files == w.files[..k] + w.files[k + 1..] && Count(w.vnodes, w.files[k].loc) >= 1
                    && w'.vnodes == Dropped(w.vnodes, w.files[k].loc)
    ensures Did(Close(id), w, w')
  {
    hide Good;
  }

  lemma {:induction false} OpenDid(w: World, w': World, path: string, flags: nat, mode: nat, devOpens: bool, d: int,
                                   made: bool, noEntry: bool, r: Option<nat>, oom: bool)
    requires WellFormed(Open(path, flags, mode, devOpens)) && Good(w') && |w'.slots| == |w.slots|
    requires w' == w.(slots := w'.slots, forest := w'.forest, vnodes := w'.vnodes, files := w'.files, next := w'.next,
                      asked := w'.asked)
    requires Paid(w, w', noEntry || oom)
    requires Found(w.slots, w'.slots, w.forest, w'.forest, w.mounts, w.root, path, flags, mode, d, made, noEntry)
    requires OpenedAt(w'.slots, d, w.vnodes, w'.vnodes, w.files, w'.files, w.next, w'.forest, flags, w.devs, devOpens,
                      r, oom)
    ensures Did(Open(path, flags, mode, devOpens), w, w')
  {
    hide Good, Found, OpenedAt;
  }

  lemma {:induction false} MountDid(w: World, w': World, path: string, dev: nat, fsType: string)
    requires WellFormed(Mount(path, dev, fsType)) && Good(w') && |w'.slots| == |w.slots| && w.asked <= w'.asked
    requires w' == w.(slots := w'.slots, root := w'.root, forest := w'.forest, mounts := w'.mounts, sbs := w'.sbs,
                      vnodes := w'.vnodes, held := w'.held, asked := w'.asked)
    requires DidMount(w, w', path, dev, fsType)
    ensures Did(Mount(path, dev, fsType), w, w')
  {
    hide Good, DidMount;
  }

  method PerformCreate(fs: FileSystem, c: Call)
    requires fs.Valid() && WellFormed(c) && Allowed(c, Now(fs)) && (c.Mkdir? || c.Mknod?)
    modifies fs, fs.cache.slots
    ensures fs.Valid() && Did(c, old(Now(fs)), Now(fs))
  {
    hide CacheOk, VnodesOk, Accounts, MountsIn, Registered, Safe, KnownPath, CreatedPath, CallParts, Steps, Components;
    ghost var w := Now(fs);
    if c.Mkdir? {
      var ok, oom := fs.Mkdir(c.path, c.mode);
      MkdirDid(w, Now(fs), c.path, c.mode, ok, oom);
    } else {
      var ok, oom := fs.Mknod(c.path, c.mode, c.dev);
      MknodDid(w, Now(fs), c.path, c.mode, c.dev, ok, oom);
    }
  }

  method PerformFile(fs: FileSystem, c: Call)
    requires fs.Valid() && WellFormed(c) && Allowed(c, Now(fs)) && (c.Stat? || c.Open? || c.Close?)
    modifies fs, fs.cache.slots
    ensures fs.Valid() && Did(c, old(Now(fs)), Now(fs))
  {
    hide CacheOk, VnodesOk, Accounts, MountsIn, Registered, Safe, KnownPath, CallParts, Steps, Components, StatStep,
      Found, OpenedAt, Plenty, Spent;
    ghost var w := Now(fs);
    match c
    case Stat(path) =>
      var r, oom := fs.Stat(path);
      StatDid(w, Now(fs), path, r, oom);
    case Open(path, flags, mode, devOpens) =>
      var r, d, made, noEntry, oom := fs.Open(path, flags, mode, devOpens);
      OpenDid(w, Now(fs), path, flags, mode, devOpens, d, made, noEntry, r, oom);
    case Close(id) =>
      var ok := fs.Close(id);
      CloseDid(w, Now(fs), id, ok);
  }

  method PerformMount(fs: FileSystem, c: Call)
    requires fs.Valid() && WellFormed(c) && Allowed(c, Now(fs)) && c.Mount?
    modifies fs, fs.cache.slots
    ensures fs.Valid() && Did(c, old(Now(fs)), Now(fs))
  {
    hide CacheParts, VnodesOk, Accounts, MountsIn, Registered, Safe, CallParts, Components, MountedAt, KeepStep,
        Attached,
      Complete, FreeSlots, ChildlessAt, Detached, Mountable, Walk;
    ghost var w := Now(fs);
    if fs.root != NO_PARENT { RootIsMounted(w.slots, w.root, w.forest, w.mounts); }
    var ok, kept, oom := fs.Mount(c.dev, c.path, c.fsType);
    ghost var w' := Now(fs);
    if w.root != NO_PARENT && c.path != "/" {
      assert DidMountAt(w, w', c.path, c.dev, c.fsType, ok, kept, oom);
    }
    MountDid(w, w', c.path, c.dev, c.fsType);
  }

  /** Every call does what a step of a run may do. */
  method Perform(fs: FileSystem, c: Call)
    requires fs.Valid() && WellFormed(c) && Allowed(c, Now(fs))
    modifies fs, fs.cache.slots
    ensures fs.Valid() && Did(c, old(Now(fs)), Now(fs))
  {
    hide CacheOk, VnodesOk, Accounts, MountsIn, Registered, CallParts, Allowed, Did;
    if c.Mkdir? || c.Mknod? {
      PerformCreate(fs, c);
    } else if c.Mount? {
      PerformMount(fs, c);
    } else {
      PerformFile(fs, c);
    }
  }

  // ---------------------------------------------------------------- what every call keeps

  lemma {:induction false} WalkSkipped(f: Forest, m: Mounts, sb: nat, at: Loc, comps: seq<string>)
    requires AllPlanted(f) && sb in f
    ensures Walk(Skipped(f, sb), m, at, comps) == Walk(f, m, at, comps)
    decreases |comps|
  {
    if comps != [] {
      SkippedPlanted(f, sb);
      assert Child(Skipped(f, sb), at, comps[0]) == Child(f, at, comps[0]);
      if Child(f, at, comps[0]).Some? {
        WalkSkipped(f, m, sb, Cross(m, Child(f, at, comps[0]).value), comps[1..]);
      }
    }
  }

  lemma {:induction false} WalkStays(f: Forest, f': Forest, m: Mounts, at: Loc, comps: seq<string>)
    requires AllPlanted(f) && TreeStep(f, f') && Walk(f, m, at, comps).Some?
    ensures Walk(f', m, at, comps) == Walk(f, m, at, comps)
  {
    if f' != f {
      if sb :| sb in f && f' == Skipped(f, sb) {
        WalkSkipped(f, m, sb, at, comps);
      } else {
        var dir, n, mode, dev :| DirAt(f, dir) && f' == Made(f, dir, n, mode, dev);
        WalkGrows(f, m, dir, n, mode, dev, at, comps);
      }
    }
  }

  /** What a call other than a mount leaves: the mounts, their entries, and trees grown by a
      node at most. */
  ghost predicate Steady(w: World, w': World) {
    && w'.root == w.root && w'.mounts == w.mounts && TreeStep(w.forest, w'.forest)
    && SamePinned(w.slots, w'.slots) && (w.root == NO_PARENT || SameRoot(w.slots, w'.slots, w.root))
    && (AllUnique(w.forest) ==> AllUnique(w'.forest)) && Grown(w.forest, w'.forest)
  }

  lemma {:induction false} CompleteIsRoomy(s: seq<Dentry>, f: Forest, p: int, comps: seq<string>)
    requires Complete(s, f) && FreeSlots(s) > 0
    ensures Roomy(s, f, p, comps)
  {}

  lemma {:induction false} StaysSteady(w: World)
    requires Good(w)
    ensures Steady(w, w)
  {
    hide CacheParts, VnodeParts, Balanced, FilesOk;
    if w.root != NO_PARENT { RootIsMounted(w.slots, w.root, w.forest, w.mounts); }
  }

  lemma {:induction false} CreateSteady(w: World, w': World, path: string, mode: nat, dev: nat)
    requires Good(w) && '/' in path && OnlyTrees(w, w') && DidCreate(w, w', path, mode, dev)
    ensures Steady(w, w')
    ensures Complete(w.slots, w.forest) && FreeSlots(w.slots) > 0 ==>
              Complete(w'.slots, w'.forest) && FreeSlots(w'.slots) + 1 >= FreeSlots(w.slots)
  {
    hide CacheParts, VnodeParts, Balanced, FilesOk, Find, Walk, Roomy, FreeSlots, Complete, AllUnique, Kept;
    var ok, oom :| Paid(w, w', oom)
                   && CreatedPath(w.slots, w'.slots, w.forest, w'.forest, w.mounts, w.root, path, mode, dev, ok, oom);
    StaysSteady(w);
    if Complete(w.slots, w.forest) && FreeSlots(w.slots) > 0 {
      CompleteIsRoomy(w.slots, w.forest, w.root, Steps(path));
    }
    if w.root != NO_PARENT {
      CreatedPinned(w.slots, w'.slots, w.forest, w'.forest, w.mounts, w.root, path, mode, dev, ok, oom);
    }
  }

  lemma {:induction false} StatSteady(w: World, w': World, path: string)
    requires Good(w) && w' == w.(slots := w'.slots, asked := w'.asked) && DidStat(w, w', path)
    ensures Steady(w, w')
    ensures Complete(w.slots, w.forest) && FreeSlots(w.slots) > 0 ==>
              Complete(w'.slots, w'.forest) && FreeSlots(w'.slots) == FreeSlots(w.slots)
  {
    hide CacheParts, VnodeParts, Balanced, FilesOk, Find;
    var d, r, oom :| Paid(w, w', oom)
                     && StatStep(w.slots, w'.slots, w.forest, w.mounts, w.root, path, d, r, oom);
    StaysSteady(w);
    if w.root != NO_PARENT {
      RootIsMounted(w.slots, w.root, w.forest, w.mounts);
      PinnedRoot(w.slots, w'.slots, w.root);
      SameFreeSlotsIf(w.slots, w'.slots);
    }
  }

  lemma {:induction false} OpenSteady(w: World, w': World, path: string, flags: nat, mode: nat, devOpens: bool)
    requires Good(w) && '/' in path && DidOpen(w, w', path, flags, mode, devOpens)
    requires w' == w.(slots := w'.slots, forest := w'.forest, vnodes := w'.vnodes, files := w'.files, next := w'.next,
                      asked := w'.asked)
    ensures Steady(w, w')
    ensures Complete(w.slots, w.forest) && FreeSlots(w.slots) > 0 ==>
              Complete(w'.slots, w'.forest) && FreeSlots(w'.slots) + 1 >= FreeSlots(w.slots)
  {
    hide CacheParts, VnodeParts, Balanced, FilesOk, Find, Walk, FreeSlots, Complete, AllUnique, Kept;
    var d, made, noEntry, r, oom :|
      && Paid(w, w', noEntry || oom)
      && Found(w.slots, w'.slots, w.forest, w'.forest, w.mounts, w.root, path, flags, mode, d, made, noEntry)
      && OpenedAt(w'.slots, d, w.vnodes, w'.vnodes, w.files, w'.files, w.next, w'.forest, flags, w.devs, devOpens, r,
                  oom);
    StaysSteady(w);
    if Complete(w.slots, w.forest) && FreeSlots(w.slots) > 0 {
      CompleteIsRoomy(w.slots, w.forest, w.root, if Flag(flags, CREATE) then Steps(path) else Components(path));
    }
  }

  /** Every call other than a mount leaves the file system steady; in a complete cache with a
      free slot, it leaves the cache complete and takes one slot at most. */
  lemma {:induction false} CallSteady(c: Call, w: World, w': World)
    requires Good(w) && WellFormed(c) && !c.Mount? && Did(c, w, w')
    ensures Steady(w, w')
    ensures Complete(w.slots, w.forest) && FreeSlots(w.slots) > 0 ==>
              Complete(w'.slots, w'.forest) && FreeSlots(w'.slots) + 1 >= FreeSlots(w.slots)
  {
    hide Good, DidCreate, DidStat, DidOpen, Steady, Complete, FreeSlots;
    match c
    case Mkdir(path, mode) => CreateSteady(w, w', path, WithType(mode, DIRECTORY), 0);
    case Mknod(path, mode, dev) =>
      if FileType(mode) in {DIRECTORY, REGULAR, SYMLINK} {
        StaysSteadyLater(w, w');
      } else {
        CreateSteady(w, w', path, mode, dev);
      }
    case Stat(path) => StatSteady(w, w', path);
    case Open(path, flags, mode, devOpens) => OpenSteady(w, w', path, flags, mode, devOpens);
    case Close(id) => StaysSteadyLater(w, w');
  }

  lemma {:induction false} StaysSteadyLater(w: World, w': World)
    requires Good(w) && w'.slots == w.slots && w'.root == w.root && w'.forest == w.forest && w'.mounts == w.mounts
    ensures Steady(w, w')
  {
    hide Good;
    StaysSteady(w);
  }

  lemma {:induction false} MountGrows(f: Forest, f': Forest, dev: nat)
    requires AllPlanted(f) && (f' == f || (dev in f && f' == WithRoot(f, dev)) || Detached(f, f', dev))
    ensures (AllUnique(f) ==> AllUnique(f')) && Grown(f, f')
  {
    if dev in f { WithRootPlanted(f, dev); }
  }

  /** Every call keeps names unique and mountpoints where they are, and no node is lost or changes
      its mode. */
  lemma {:induction false} CallGrows(c: Call, w: World, w': World)
    requires Good(w) && WellFormed(c) && Did(c, w, w')
    ensures (AllUnique(w.forest) ==> AllUnique(w'.forest)) && Grown(w.forest, w'.forest)
    ensures Anchored(w.slots, w'.slots)
  {
    hide VnodesOk, Accounts, MountsIn, Registered, Steady, Walk, WithRoot, Complete, AllUnique;
    if c.Mount? {
      CacheBasics(w.slots, w.root, w.forest, w.mounts);
      MountGrows(w.forest, w'.forest, c.dev);
      MountAnchors(w, w', c.path, c.dev, c.fsType);
    } else {
      CallSteady(c, w, w');
      SteadyAnchors(w, w');
    }
  }

  lemma {:induction false} SteadyAnchors(w: World, w': World)
    requires Steady(w, w')
    ensures Anchored(w.slots, w'.slots) && (AllUnique(w.forest) ==> AllUnique(w'.forest)) && Grown(w.forest, w'.forest)
  {
    hide AllUnique, Grown;
  }

  lemma {:induction false} MountAnchors(w: World, w': World, path: string, dev: nat, fsType: string)
    requires Good(w) && DidMount(w, w', path, dev, fsType) && |w'.slots| == |w.slots|
    ensures Anchored(w.slots, w'.slots)
  {
    hide VnodesOk, Accounts, MountsIn, Registered, Walk, WithRoot, Complete, Links, Separate, MountRoots, MountPlaces;
  }

  // ---------------------------------------------------------------- mounts in a complete cache

  /** A mount that succeeds leaves a complete cache complete, and takes a slot only for "/". */
  lemma {:induction false} MountStaysComplete(c: Call, w: World, w': World)
    requires WellFormed(c) && c.Mount? && Did(c, w, w') && w'.sbs != w.sbs
    requires Complete(w.slots, w.forest) && (w.root == NO_PARENT ==> FreeSlots(w.slots) <= |w.slots|)
    ensures Complete(w'.slots, w'.forest)
    ensures FreeSlots(w'.slots) + (if w.root == NO_PARENT then 1 else 0) >= FreeSlots(w.slots)
  {
    hide Good, Find, Walk, WithRoot, Complete, FreeSlots;
  }

  lemma {:induction false} FreeSlotsBound(s: seq<Dentry>)
    ensures FreeSlots(s) <= |s|
  {
    if s != [] { FreeSlotsBound(s[..|s| - 1]); }
  }

  /** The path names an empty directory to mount on, or "/" when nothing is mounted yet, and the
      file system is known and not mounted. */
  ghost predicate MountReady(c: Call, w: World)
    requires c.Mount?
  {
    && c.fsType in w.types && c.dev in w.forest && c.dev !in w.sbs
    && if w.root == NO_PARENT then c.path == "/"
       else
         var x := Leads(w, c.path);
         c.path != "/" && x.Some? && x.value.ino != ROOT_INO && DirAt(w.forest, x.value)
             && NodeAt(w.forest, x.value).entries == []
  }

  /** With memory, a mount that is ready finds its needs met in a complete cache with a free slot,
      and succeeds. */
  lemma {:induction false} ReadySucceeds(c: Call, w: World, w': World)
    requires Good(w) && Complete(w.slots, w.forest) && FreeSlots(w.slots) > 0 && Plenty(w.answers, w.asked)
    requires WellFormed(c) && c.Mount? && MountReady(c, w)
    ensures Allowed(c, w)
    ensures Did(c, w, w') ==> w'.sbs != w.sbs
  {
    hide VnodesOk, Accounts, MountsIn, Registered, CacheParts, Walk, Find, Complete, FreeSlots, Childless, Safe;
    if w.root == NO_PARENT {
      NothingCached(w);
      if Did(c, w, w') && w'.root == NO_PARENT { RefusedNever(w, w', true); }
    } else {
      ReadyIsAllowed(c, w);
      if Did(c, w, w') { ReadyMounts(c, w, w'); }
    }
  }

  lemma {:induction false} RefusedNever(w: World, w': World, oom: bool)
    requires Plenty(w.answers, w.asked) && Paid(w, w', oom)
    ensures !oom
  {
    NeverRefused(w.answers, w.asked, w'.asked, oom);
  }

  lemma {:induction false} NothingCached(w: World)
    requires Good(w) && w.root == NO_PARENT && FreeSlots(w.slots) > 0
    ensures |w.slots| > 0 && ChildlessAt(w.slots, w.root, Components("/"))
  {
    FreeSlotsBound(w.slots);
    assert Components("/") == [] by { assert "/" == "" + ['/'] + ""; }
  }

  lemma {:induction false} ReadyIsAllowed(c: Call, w: World)
    requires Good(w) && Complete(w.slots, w.forest) && FreeSlots(w.slots) > 0
    requires WellFormed(c) && c.Mount? && MountReady(c, w) && w.root != NO_PARENT
    ensures Allowed(c, w) && !AllPinned(w.slots)
  {
    hide VnodesOk, Accounts, MountsIn, Registered, CacheParts, Walk, Find, Complete, Childless, Safe, Roomy;
    var s, f, comps := w.slots, w.forest, Components(c.path);
    RootIsMounted(s, w.root, f, w.mounts);
    CompleteIsRoomy(s, f, w.root, comps);
    RoomIsSafe(s, w.root, f, w.mounts, w.root, comps);
    WalkedIsCached(s, w.root, f, w.mounts, w.root, comps);
    AtAgrees(s, w.root, f, w.mounts, w.root, comps);
    EmptyIsChildless(s, w.root, f, w.mounts, At(s, w.root, comps));
  }

  lemma {:induction false} ReadyMounts(c: Call, w: World, w': World)
    requires WellFormed(c) && c.Mount? && MountReady(c, w) && w.root != NO_PARENT && !AllPinned(w.slots)
    requires Did(c, w, w') && Plenty(w.answers, w.asked)
    ensures w'.sbs != w.sbs
  {
    hide Good, Walk, Find, Complete, KeepStep, SoughtSlots;
    var ok, kept, oom :| DidMountAt(w, w', c.path, c.dev, c.fsType, ok, kept, oom);
    RefusedNever(w, w', oom);
  }

  /** Where a path led before a mount it still leads, but from the place mounted on to the new
      root. */
  lemma {:induction false} WalkMounted(f: Forest, f': Forest, m: Mounts, t: Loc, dev: nat, at: Loc, comps: seq<string>)
    requires (forall l, n :: Child(f', l, n) == Child(f, l, n)) && t !in m && t.ino != ROOT_INO
    requires (forall n :: Child(f, t, n).None?) && Walk(f, m, at, comps).Some? && at != t
    ensures var x := Walk(f, m, at, comps).value;
            Walk(f', m[t := dev], at, comps) == Some(if x == t then Loc(dev, ROOT_INO) else x)
    decreases |comps|
  {
    hide Child;
    if comps != [] {
      assert Child(f', at, comps[0]) == Child(f, at, comps[0]);
      var l := Child(f, at, comps[0]).value;
      if l == t {
        NothingBelow(f, m, t, comps[1..]);
      } else {
        WalkMounted(f, f', m, t, dev, Cross(m, l), comps[1..]);
      }
    }
  }

  lemma {:induction false} NothingBelow(f: Forest, m: Mounts, t: Loc, comps: seq<string>)
    requires (forall n :: Child(f, t, n).None?) && Walk(f, m, t, comps).Some?
    ensures comps == []
  {}

  /** A directory to mount on that has no cached children, in a complete cache, is empty. */
  lemma {:induction false} TargetEmpty(w: World, path: string)
    requires Good(w) && Complete(w.slots, w.forest) && w.root != NO_PARENT
    requires ChildlessAt(w.slots, w.root, Components(path))
    requires Leads(w, path).Some? && Leads(w, path).value.ino != ROOT_INO
    ensures forall n :: Child(w.forest, Leads(w, path).value, n).None?
  {
    hide VnodesOk, Accounts, MountsIn, Registered, CacheParts, Walk, Child;
    var s, f, comps := w.slots, w.forest, Components(path);
    RootIsMounted(s, w.root, f, w.mounts);
    WalkedIsCached(s, w.root, f, w.mounts, w.root, comps);
    AtAgrees(s, w.root, f, w.mounts, w.root, comps);
    var d := At(s, w.root, comps);
    forall n
      ensures Child(f, NodeOf(s[d]), n).None?
    {
      ChildlessMisses(s, d, n);
    }
  }

  lemma {:induction false} ChildlessMisses(s: seq<Dentry>, d: int, n: string)
    requires Childless(s, d)
    ensures Find(s, d, n, 0) == |s|
  {
    assert forall i :: Occ(s, i) ==> !s[i].Is(d, n);
  }

  /** No root of a file system is mounted on. */
  ghost predicate NoRoots(m: Mounts) {
    forall l :: l in m ==> l.ino != ROOT_INO
  }

  lemma {:induction false} MountsNoRoots(s: seq<Dentry>, root: int, f: Forest, m: Mounts)
    requires CacheOk(s, root, f, m)
    ensures NoRoots(m)
  {
    forall l | l in m
      ensures l.ino != ROOT_INO
    {
      assert root != NO_PARENT && Pins(s, root, l);
      var i :| Occ(s, i) && i != root && Covered(s[i]) == l;
      assert Linked(s, f, i);
      ChildExists(f, NodeOf(s[s[i].parent]), s[i].name.value);
    }
  }

  /** A walk ends at no place that is mounted on. */
  lemma {:induction false} WalkUncovered(f: Forest, m: Mounts, at: Loc, comps: seq<string>)
    requires NoRoots(m) && at !in m && Walk(f, m, at, comps).Some?
    ensures Walk(f, m, at, comps).value !in m
    decreases |comps|
  {
    hide Child;
    if comps != [] { WalkUncovered(f, m, Cross(m, Child(f, at, comps[0]).value), comps[1..]); }
  }

  /** A mount moves the paths to the place mounted on, and no others. */
  lemma {:induction false} LeadsMounted(c: Call, w: World, w': World, path: string)
    requires Good(w) && Complete(w.slots, w.forest) && Leads(w, path).Some?
    requires WellFormed(c) && c.Mount? && Allowed(c, w) && Did(c, w, w') && w'.sbs != w.sbs
    ensures Leads(w', path) == Some(Cross(w'.mounts, Leads(w, path).value))
  {
    hide VnodesOk, Accounts, MountsIn, Registered, CacheParts, Walk, Find, Complete, Safe, KeepStep, WithRoot;
    var s, f, m := w.slots, w.forest, w.mounts;
    RootIsMounted(s, w.root, f, m);
    MountsNoRoots(s, w.root, f, m);
    TargetEmpty(w, c.path);
    CacheBasics(s, w.root, f, m);
    WithRootPlanted(f, c.dev);
    WalkUncovered(f, m, NodeOf(s[w.root]), Components(path));
    WalkMounted(f, w'.forest, m, Leads(w, c.path).value, c.dev, NodeOf(s[w.root]), Components(path));
  }

  lemma {:induction false} MovedTwice(w: World, w': World, x: Loc)
    requires NoRoots(w'.mounts) && forall l :: l in w.mounts ==> l in w'.mounts && w'.mounts[l] == w.mounts[l]
    ensures Cross(w'.mounts, Cross(w.mounts, x)) == Cross(w'.mounts, x)
  {}

  // ---------------------------------------------------------------- runs

  /** Step `i` of a run of the calls `cs` through the states `ws`: a call whose needs are met
      does what its method promises. */
  ghost predicate StepAt(ws: seq<World>, cs: seq<Call>, i: nat)
    requires |ws| == |cs| + 1 && i < |cs|
  {
    WellFormed(cs[i]) && (Allowed(cs[i], ws[i]) ==> Did(cs[i], ws[i], ws[i + 1]))
  }

  ghost predicate IsRun(ws: seq<World>, cs: seq<Call>) {
    |ws| == |cs| + 1 && forall i :: 0 <= i < |cs| ==> StepAt(ws, cs, i)
  }

  lemma {:induction false} Shorter(ws: seq<World>, cs: seq<Call>)
    requires IsRun(ws, cs) && cs != []
    ensures IsRun(ws[..|cs|], cs[..|cs| - 1]) && StepAt(ws, cs, |cs| - 1)
  {
    hide Did, Allowed;
    var vs, ds := ws[..|cs|], cs[..|cs| - 1];
    forall i | 0 <= i < |ds|
      ensures StepAt(vs, ds, i)
    {
      assert StepAt(ws, cs, i);
    }
  }

  lemma {:induction false} GrownTwice(f: Forest, f1: Forest, f2: Forest)
    requires Grown(f, f1) && Grown(f1, f2)
    ensures Grown(f, f2)
  {}

  lemma {:induction false} SlotsAnchored(s: seq<Dentry>)
    ensures Anchored(s, s)
  {}

  /** After every run of calls, mounts and evictions among them, the cache is right, references
      balance, names are unique, mountpoints are where they were, and no node is lost or changes
      its mode. */
  lemma {:induction false} EveryRunKeeps(ws: seq<World>, cs: seq<Call>)
    requires IsRun(ws, cs) && Good(ws[0])
    requires forall i :: 0 <= i < |cs| ==> WellFormed(cs[i]) && Allowed(cs[i], ws[i])
    ensures Good(ws[|cs|]) && Grown(ws[0].forest, ws[|cs|].forest)
    ensures AllUnique(ws[0].forest) ==> AllUnique(ws[|cs|].forest)
    ensures Anchored(ws[0].slots, ws[|cs|].slots)
    decreases |cs|
  {
    hide CacheOk, VnodesOk, Accounts, MountsIn, Registered, CallParts, AllUnique, Allowed;
    if cs != [] {
      var n := |cs| - 1;
      Shorter(ws, cs);
      EveryRunKeeps(ws[..|cs|], cs[..n]);
      CallGrows(cs[n], ws[n], ws[n + 1]);
      GrownTwice(ws[0].forest, ws[n].forest, ws[n + 1].forest);
      AnchoredTwice(ws[0].slots, ws[n].slots, ws[n + 1].slots);
    } else {
      SlotsAnchored(ws[0].slots);
    }
  }

  /** A call that cannot make a cached name unknown, if a slot is free: a file is closed only while
      it is in use, and a mount succeeds. */
  ghost predicate Fits(c: Call, w: World, w': World)
    requires WellFormed(c)
  {
    (c.Close? || c.Mount? ==> Allowed(c, w)) && (c.Mount? ==> w'.sbs != w.sbs)
  }

  /** A complete cache with a free slot meets the needs of every call but a mount. */
  lemma {:induction false} CompleteAllows(c: Call, w: World)
    requires Good(w) && Complete(w.slots, w.forest) && FreeSlots(w.slots) > 0
    requires WellFormed(c) && !c.Mount? && !c.Close?
    ensures Allowed(c, w)
  {
    hide CacheParts, VnodesOk, Accounts, MountsIn, Registered, Find, Complete, FreeSlots, KnownPath, Roomy;
    var path := if '/' in c.path then c.path else "/";
    CompleteKnowsPath(w.slots, w.root, w.forest, w.mounts, path);
    if w.root != NO_PARENT {
      RootIsMounted(w.slots, w.root, w.forest, w.mounts);
      CompleteIsRoomy(w.slots, w.forest, w.root, Components(c.path));
      CompleteIsRoomy(w.slots, w.forest, w.root, Steps(path));
      RoomIsSafe(w.slots, w.root, w.forest, w.mounts, w.root, Components(c.path));
      RoomIsSafe(w.slots, w.root, w.forest, w.mounts, w.root, Steps(path));
    }
  }

  /** In a complete cache with a free slot, such a call finds its needs met, leaves the cache
      complete, and takes one slot at most. */
  lemma {:induction false} FitStep(c: Call, w: World, w': World)
    requires Good(w) && Complete(w.slots, w.forest) && FreeSlots(w.slots) > 0
    requires WellFormed(c) && Fits(c, w, w') && (Allowed(c, w) ==> Did(c, w, w'))
    ensures Allowed(c, w) && Did(c, w, w') && Good(w')
    ensures Complete(w'.slots, w'.forest) && FreeSlots(w'.slots) + 1 >= FreeSlots(w.slots)
  {
    hide CacheOk, VnodesOk, Accounts, MountsIn, Registered, CallParts, Allowed, Complete, FreeSlots, Steady;
    if c.Mount? {
      FreeSlotsBound(w.slots);
      MountStaysComplete(c, w, w');
    } else {
      if !c.Close? { CompleteAllows(c, w); }
      CallSteady(c, w, w');
    }
  }

  /** A complete cache stays complete in every run without evictions and failed mounts. */
  lemma {:induction false} TameRunStaysComplete(ws: seq<World>, cs: seq<Call>)
    requires IsRun(ws, cs) && Good(ws[0]) && Complete(ws[0].slots, ws[0].forest)
    requires forall i :: 0 <= i < |cs| ==>
               WellFormed(cs[i]) && Fits(cs[i], ws[i], ws[i + 1]) && FreeSlots(ws[i].slots) > 0
    ensures Good(ws[|cs|]) && Complete(ws[|cs|].slots, ws[|cs|].forest)
    decreases |cs|
  {
    hide Good, Did, Complete, FreeSlots, Allowed, Fits;
    if cs != [] {
      var n := |cs| - 1;
      Shorter(ws, cs);
      TameRunStaysComplete(ws[..|cs|], cs[..n]);
      FitStep(cs[n], ws[n], ws[n + 1]);
    }
  }

  /** Where a path leads after a call, if it led to `x` once. */
  lemma {:induction false} LeadsOn(c: Call, w: World, w': World, path: string, x: Loc)
    requires Good(w) && Complete(w.slots, w.forest) && Leads(w, path) == Some(Cross(w.mounts, x))
    requires WellFormed(c) && Allowed(c, w) && Did(c, w, w') && Fits(c, w, w')
    ensures Leads(w', path) == Some(Cross(w'.mounts, x))
  {
    hide CacheOk, VnodesOk, Accounts, MountsIn, Registered, CallParts, Allowed, Complete, FreeSlots, Leads, Steady;
    if c.Mount? {
      LeadsMounted(c, w, w', path);
      MountsNoRoots(w'.slots, w'.root, w'.forest, w'.mounts);
      MountsStay(c, w, w');
      MovedTwice(w, w', x);
    } else {
      CallSteady(c, w, w');
      LeadsStays(w, w', path);
    }
  }

  lemma {:induction false} MountsStay(c: Call, w: World, w': World)
    requires WellFormed(c) && c.Mount? && Did(c, w, w') && w'.sbs != w.sbs && Good(w)
    ensures forall l :: l in w.mounts ==> l in w'.mounts && w'.mounts[l] == w.mounts[l]
  {
    hide VnodesOk, Accounts, MountsIn, Registered, Walk, Find, Complete, KeepStep, Links, Separate, MountRoots,
        MountPlaces;
  }

  lemma {:induction false} LeadsStays(w: World, w': World, path: string)
    requires Good(w) && Steady(w, w') && Leads(w, path).Some?
    ensures Leads(w', path) == Leads(w, path) && w'.mounts == w.mounts
  {
    if w.root != NO_PARENT {
      WalkStays(w.forest, w'.forest, w.mounts, NodeOf(w.slots[w.root]), Components(path));
    }
  }

  /** From a complete cache with more free slots than there are calls: every call finds its needs
      met, the cache stays complete, and a path that led to a node leads to it ever after, or to
      the root of what was mounted on it. */
  lemma {:induction false} RunStaysComplete(ws: seq<World>, cs: seq<Call>, path: string)
    requires IsRun(ws, cs) && forall i :: 0 <= i < |cs| ==> WellFormed(cs[i]) && Fits(cs[i], ws[i], ws[i + 1])
    requires Good(ws[0]) && Complete(ws[0].slots, ws[0].forest) && FreeSlots(ws[0].slots) > |cs|
    ensures forall i :: 0 <= i < |cs| ==> WellFormed(cs[i]) && Allowed(cs[i], ws[i])
    ensures var w := ws[|cs|];
            && Good(w) && Complete(w.slots, w.forest) && FreeSlots(w.slots) + |cs| >= FreeSlots(ws[0].slots)
            && (Leads(ws[0], path).Some? ==>
                  Leads(w, path) == Some(Cross(w.mounts, Leads(ws[0], path).value)))
    decreases |cs|
  {
    hide CacheOk, VnodesOk, Accounts, MountsIn, Registered, Did, Complete, FreeSlots, Leads, Allowed, Fits;
    if cs != [] {
      var n := |cs| - 1;
      Shorter(ws, cs);
      assert forall i :: 0 <= i < n ==> cs[..n][i] == cs[i] && ws[..|cs|][i] == ws[i];
      RunStaysComplete(ws[..|cs|], cs[..n], path);
      var c, w, w' := cs[n], ws[n], ws[n + 1];
      assert ws[..|cs|][n] == w;
      FitStep(c, w, w');
      if Leads(ws[0], path).Some? { LeadsOn(c, w, w', path, Leads(ws[0], path).value); }
    } else if Leads(ws[0], path).Some? {
      LeadsUncovered(ws[0], path);
    }
  }

  lemma {:induction false} LeadsUncovered(w: World, path: string)
    requires Good(w) && Leads(w, path).Some?
    ensures Leads(w, path) == Some(Cross(w.mounts, Leads(w, path).value))
  {
    hide VnodesOk, Accounts, MountsIn, Registered, CacheParts, Walk;
    RootIsMounted(w.slots, w.root, w.forest, w.mounts);
    MountsNoRoots(w.slots, w.root, w.forest, w.mounts);
    WalkUncovered(w.forest, w.mounts, NodeOf(w.slots[w.root]), Components(path));
  }
}
