/** What opening a path means: which nodes can be opened, and what finding or creating the
    node does. */
module OpenRules {
  import opened Frames
  import opened Memory
  import opened DentryCache
  import opened MemTree
  import opened PathCache
  import opened Eviction
  import opened PathLookup
  import opened Creation
  import opened MountCache
  import opened Vnodes
  import opened OpenFiles

  const READ: nat := 1
  const WRITE: nat := 2
  const CREATE: nat := 4
  const EXCL: nat := 8
  const USR_READ: nat := 0x100
  const USR_WRITE: nat := 0x80

  predicate Flag(flags: nat, bit: nat)
    requires bit > 0
  {
    flags / bit % 2 == 1
  }

  function WithType(mode: nat, fileType: nat): nat {
    mode % 0x1000 + fileType * 0x1000
  }

  /** The new type replaces the old one, and the permissions stay. */
  lemma {:induction false} WithTypeKeeps(mode: nat, fileType: nat)
    requires fileType < 16
    ensures var m := WithType(mode, fileType);
            && m / 0x1000 == fileType && FileType(m) == fileType && m % 0x1000 == mode % 0x1000
            && Flag(m, USR_READ) == Flag(mode, USR_READ) && Flag(m, USR_WRITE) == Flag(mode, USR_WRITE)
  {
    var low := mode % 0x1000;
    assert mode == low + mode / 0x1000 * 0x1000;
    LowBits(low, fileType);
    LowBits(low, mode / 0x1000);
  }

  lemma {:induction false} LowBits(low: nat, t: nat)
    requires low < 0x1000
    ensures (low + t * 0x1000) / 0x100 % 2 == low / 0x100 % 2 && (low + t * 0x1000) / 0x80 % 2 == low / 0x80 % 2
  {
    var n, a, b := low + t * 0x1000, low / 0x100, low / 0x80;
    DivBy256(n, a + 16 * t, low - 0x100 * a);
    DivBy128(n, b + 32 * t, low - 0x80 * b);
    SameParity(a, 8 * t);
    SameParity(b, 16 * t);
  }

  lemma {:induction false} SameParity(a: nat, k: nat)
    ensures (a + 2 * k) % 2 == a % 2
  {}

  lemma {:induction false} DivBy256(n: nat, q: nat, r: nat)
    requires n == 0x100 * q + r && r < 0x100
    ensures n / 0x100 == q
  {}

  lemma {:induction false} DivBy128(n: nat, q: nat, r: nat)
    requires n == 0x80 * q + r && r < 0x80
    ensures n / 0x80 == q
  {}

  /** Bits from the first on: `b[k]` is the one of weight 2 to the power `k`. */
  function Sum(b: seq<bool>): nat {
    if b == [] then 0 else (if b[0] then 1 else 0) + 2 * Sum(b[1..])
  }

  /** The flags are the four lowest bits of the flags of an open, and two bits of a mode. */
  lemma {:induction false} FlagsAreBits(b: seq<bool>)
    requires |b| > 8
    ensures var n := Sum(b);
            && (Flag(n, READ) <==> b[0]) && (Flag(n, WRITE) <==> b[1])
            && (Flag(n, CREATE) <==> b[2]) && (Flag(n, EXCL) <==> b[3])
            && (Flag(n, USR_WRITE) <==> b[7]) && (Flag(n, USR_READ) <==> b[8])
  {
    BitFlag(b, 0, READ);
    BitFlag(b, 1, WRITE);
    BitFlag(b, 2, CREATE);
    BitFlag(b, 3, EXCL);
    BitFlag(b, 7, USR_WRITE);
    BitFlag(b, 8, USR_READ);
  }

  function Power(k: nat): (p: nat)
    ensures p > 0
  {
    if k == 0 then 1 else 2 * Power(k - 1)
  }

  lemma {:induction false} BitFlag(b: seq<bool>, k: nat, bit: nat)
    requires k < |b| && bit == Power(k)
    ensures Flag(Sum(b), bit) <==> b[k]
    decreases k
  {
    if k > 0 {
      BitFlag(b[1..], k - 1, Power(k - 1));
      HalfFirst(Sum(b[1..]), if b[0] then 1 else 0, Power(k - 1));
    } else {
      assert Sum(b) / 1 == Sum(b);
    }
  }

  lemma {:induction false} HalfFirst(n: nat, low: nat, p: nat)
    requires low < 2 && p > 0
    ensures (low + 2 * n) / (2 * p) == n / p
  {
    var q, r := n / p, n % p;
    assert n == q * p + r && low + 2 * n == q * (2 * p) + (2 * r + low);
    Quotient(low + 2 * n, 2 * p, q, 2 * r + low);
  }

  lemma {:induction false} Quotient(n: nat, d: nat, q: nat, r: nat)
    requires d > 0 && n == q * d + r && r < d
    ensures n / d == q
  {
    var k := n / d;
    assert n == k * d + n % d && (q - k) * d == n % d - r;
    if q > k { AtLeast(q - k, d); }
    if q < k { AtLeast(k - q, d); }
  }

  lemma {:induction false} AtLeast(x: nat, d: nat)
    requires x >= 1
    ensures x * d >= d
  {
    assert x * d == d + (x - 1) * d;
  }

  /** Nodes of these types can be opened. */
  predicate Openable(mode: nat, dev: nat, charDevs: set<nat>) {
    FileType(mode) == REGULAR || FileType(mode) == DIRECTORY || (FileType(mode) == CHAR_DEV && dev in charDevs)
  }

  /** Opening a node of any other type leaves a freed file in the list. */
  predicate Stranded(mode: nat) {
    FileType(mode) !in {REGULAR, DIRECTORY, CHAR_DEV}
  }

  predicate Permitted(mode: nat, flags: nat) {
    (Flag(flags, READ) ==> Flag(mode, USR_READ)) && (Flag(flags, WRITE) ==> Flag(mode, USR_WRITE))
  }

  /** Reading takes the owner's permission to read, and writing that to write. */
  lemma {:induction false} PermittedIff(mode: seq<bool>, flags: seq<bool>)
    requires |mode| > 8 && |flags| > 8
    ensures Permitted(Sum(mode), Sum(flags)) <==> (flags[0] ==> mode[8]) && (flags[1] ==> mode[7])
  {
    hide Flag, Sum;
    FlagsAreBits(mode);
    FlagsAreBits(flags);
  }

  /** The references of the vnodes are those of the open files and those in `held`. */
  ghost predicate Accounts(vs: seq<Vnode>, fs: seq<OpenFile>, next: nat, held: multiset<Loc>) {
    (Balanced(vs, OpenLocs(fs) + held) && FilesOk(fs, next)) == true
  }

  /** The step a creation takes and a lookup does not. */
  function Extra(path: string): seq<string>
    requires '/' in path
  {
    if NameOf(path) == "" then [""] else []
  }

  lemma {:induction false} ExtraSteps(path: string)
    requires '/' in path
    ensures Components(path) + Extra(path) == Steps(path)
  {
    StepsAreComponents(path);
    assert Components(path) + [] == Components(path);
  }

  /** The node can be created: its directory exists and the name is free in it. */
  ghost predicate CanCreate(f: Forest, m: Mounts, at: Loc, path: string)
    requires '/' in path
  {
    var dir := Walk(f, m, at, Components(ParentOf(path)));
    path != "/" && dir.Some? && DirAt(f, dir.value) && Child(f, dir.value, NameOf(path)).None?
  }

  /** With memory and a slot, a node is made exactly if its directory exists, the name is free in it,
      and the type is one that can be made. */
  lemma {:induction false} CreatedIff(s: seq<Dentry>, s': seq<Dentry>, f: Forest, f': Forest, m: Mounts, root: int,
                                      path: string, mode: nat, dev: nat, ok: bool)
    requires '/' in path && root != NO_PARENT && Occ(s, root) && !AllPinned(s)
    requires CreatedPath(s, s', f, f', m, root, path, mode, dev, ok, false)
    ensures ok <==> CanCreate(f, m, NodeOf(s[root]), path)
                    && FileType(mode) in {DIRECTORY, REGULAR, CHAR_DEV, BLOCK_DEV, FIFO, SOCKET}
  {
    hide Walk, Roomy, FreeSlots, Find, AllUnique, Grown, SamePinned, SameRoot, Complete, AllPinned;
  }

  /** What an open's search for its node does: `d` is the entry of the node the path names
      afterwards, and a node is made only if that was asked for. */
  ghost predicate Resolved(s: seq<Dentry>, s': seq<Dentry>, f: Forest, f': Forest, m: Mounts, root: int,
                           path: string, flags: nat, mode: nat, d: int, made: bool, oom: bool)
    requires Occ(s, root) && '/' in path
  {
    ResolvedParts(s, s', f, f', m, root, path, flags, mode, d, made, oom) == true
  }

  ghost predicate ResolvedParts(s: seq<Dentry>, s': seq<Dentry>, f: Forest, f': Forest, m: Mounts, root: int,
                                path: string, flags: nat, mode: nat, d: int, made: bool, oom: bool)
    requires Occ(s, root) && '/' in path
  {
    var at := NodeOf(s[root]);
    && SamePinned(s, s') && SameRoot(s, s', root) && (AllUnique(f) ==> AllUnique(f')) && Grown(f, f')
    && (Roomy(s, f, root, if Flag(flags, CREATE) then Steps(path) else Components(path)) ==>
          && Kept(s, s')
          && (Complete(s, f) ==> Complete(s', f') && FreeSlots(s') + (if made then 1 else 0) == FreeSlots(s)))
    && (d != -1 ==> Occ(s', d) && Walk(f', m, at, Components(path)) == Some(NodeOf(s'[d])))
    && (made ==> Flag(flags, CREATE) && CanCreate(f, m, at, path)
                 && f' == Made(f, Walk(f, m, at, Components(ParentOf(path))).value, NameOf(path),
                               WithType(mode, REGULAR), 0))
    && (!made ==> f' == f || (Flag(flags, CREATE) && exists sb :: sb in f && f' == Skipped(f, sb)))
    && (d != -1 && Flag(flags, CREATE) && Flag(flags, EXCL) ==> made)
    && (d == -1 && !oom ==>
          || AllPinned(s)
          || if Walk(f, m, at, Components(path)).Some? then Flag(flags, CREATE) && Flag(flags, EXCL)
             else !Flag(flags, CREATE) || !CanCreate(f, m, at, path))
  }

  /** The same when nothing may be mounted: then nothing is found, nor done. */
  ghost predicate Found(s: seq<Dentry>, s': seq<Dentry>, f: Forest, f': Forest, m: Mounts, root: int,
                        path: string, flags: nat, mode: nat, d: int, made: bool, oom: bool)
    requires '/' in path
  {
    (if root == NO_PARENT then d == -1 && f' == f && s' == s && !made
     else Occ(s, root) && Resolved(s, s', f, f', m, root, path, flags, mode, d, made, oom)) == true
  }

  /** Trees change by single nodes, if at all. */
  ghost predicate TreeStep(f: Forest, f': Forest) {
    || f' == f
    || (exists sb :: sb in f && f' == Skipped(f, sb))
    || (exists dir, n, mode, dev :: DirAt(f, dir) && f' == Made(f, dir, n, mode, dev))
  }

  lemma {:induction false} GrownRegistered(f: Forest, f': Forest, sbs: set<nat>)
    requires TreeStep(f, f') && Registered(f, sbs)
    ensures Registered(f', sbs)
  {
    if f' != f {
      if sb :| sb in f && f' == Skipped(f, sb) {
        SkippedRegistered(f, sbs, sb);
      } else {
        var dir, n, mode, dev :| DirAt(f, dir) && f' == Made(f, dir, n, mode, dev);
        MadeRegistered(f, sbs, dir, n, mode, dev);
      }
    }
  }

  lemma {:induction false} FoundKeeps(s: seq<Dentry>, s': seq<Dentry>, f: Forest, f': Forest, m: Mounts, root: int,
                   path: string, flags: nat, mode: nat, d: int, made: bool, oom: bool, sbs: set<nat>)
    requires '/' in path && Found(s, s', f, f', m, root, path, flags, mode, d, made, oom)
    requires CacheOk(s', root, f', m) && MountsIn(s, root, m, sbs) && Registered(f, sbs)
    ensures MountsIn(s', root, m, sbs) && Registered(f', sbs)
    ensures d != -1 ==> 0 <= d < |s'| && Has(f', NodeOf(s'[d]))
  {
    if root != NO_PARENT { InUseKept(s, s', root, m, sbs); }
    if f' != f { GrownRegistered(f, f', sbs); }
    if d != -1 { NodeExists(s', root, f', m, d); }
  }

  lemma {:induction false} CreatedKeeps(s: seq<Dentry>, s': seq<Dentry>, f: Forest, f': Forest, m: Mounts, root: int,
                     path: string, mode: nat, dev: nat, ok: bool, oom: bool, sbs: set<nat>)
    requires '/' in path && CreatedPath(s, s', f, f', m, root, path, mode, dev, ok, oom) && MountsIn(s, root, m, sbs)
             && Registered(f, sbs)
    ensures MountsIn(s', root, m, sbs) && Registered(f', sbs)
  {
    if root != NO_PARENT && path != "/" { InUseKept(s, s', root, m, sbs); }
    if f' != f { GrownRegistered(f, f', sbs); }
  }

  /** What asking for the status of a path does: `d` is the entry the lookup ended at. */
  ghost predicate StatStep(s: seq<Dentry>, s': seq<Dentry>, f: Forest, m: Mounts, root: int, path: string, d: int,
                           r: Option<(nat, nat, nat)>, oom: bool)
  {
    && ReachedIn(s, s', f, m, root, path, [], d, oom)
    && if d == NO_PARENT then r.None?
       else
         && root != NO_PARENT && Occ(s', d) && Has(f, NodeOf(s'[d]))
         && var l := NodeOf(s'[d]);
         if r.None? then oom else r.value == (l.ino, NodeAt(f, l).mode, NodeAt(f, l).dev)
  }

  lemma {:induction false} StatFound(s: seq<Dentry>, s': seq<Dentry>, f: Forest, m: Mounts, root: int, path: string,
                                     d: int, oom1: bool, r: Option<(nat, nat, nat)>, oom: bool)
    requires ReachedIn(s, s', f, m, root, path, [], d, oom1) && d != NO_PARENT && CacheOk(s', root, f, m)
    requires root != NO_PARENT && Occ(s', d) && Has(f, NodeOf(s'[d]))
    requires var l := NodeOf(s'[d]);
             if r.None? then oom else r.value == (l.ino, NodeAt(f, l).mode, NodeAt(f, l).dev)
    ensures StatStep(s, s', f, m, root, path, d, r, oom)
  {}

  lemma {:induction false} ReachedKeeps(s: seq<Dentry>, s': seq<Dentry>, root: int, f: Forest, m: Mounts, path: string,
                                        extra: seq<string>, d: int, oom: bool, sbs: set<nat>)
    requires ReachedIn(s, s', f, m, root, path, extra, d, oom) && CacheOk(s', root, f, m) && MountsIn(s, root, m, sbs)
    requires root != NO_PARENT ==> Occ(s, root) && s[root].mnt.Some?
    ensures MountsIn(s', root, m, sbs)
    ensures d != NO_PARENT ==> root != NO_PARENT && Occ(s', d) && Has(f, NodeOf(s'[d]))
  {
    if root != NO_PARENT {
      PinnedRoot(s, s', root);
      InUseKept(s, s', root, m, sbs);
    }
    if d != NO_PARENT { NodeExists(s', root, f, m, d); }
  }

  /** The first lookup of an open that may create. */
  lemma {:induction false} FoundFirst(s: seq<Dentry>, s1: seq<Dentry>, root: int, f: Forest, m: Mounts, path: string,
                                      flags: nat, mode: nat, d: int, oom: bool)
    requires '/' in path && ReachedIn(s, s1, f, m, root, path, Extra(path), d, oom) && Flag(flags, CREATE)
    requires CacheOk(s1, root, f, m) && (root != NO_PARENT ==> Occ(s, root) && s[root].mnt.Some?)
    ensures d != -1 ==> Found(s, s1, f, f, m, root, path, flags, mode, if Flag(flags, EXCL) then -1 else d, false, oom)
  {
    hide CacheParts, AllUnique, AllPinned, Misses, Find, Safe;
    ExtraSteps(path);
    SameFreeSlotsIf(s, s1);
    if root != NO_PARENT { PinnedRoot(s, s1, root); }
  }

  /** The only lookup of an open that may not create. */
  lemma {:induction false} FoundOnly(s: seq<Dentry>, s1: seq<Dentry>, f: Forest, m: Mounts, root: int, path: string,
                                     flags: nat, mode: nat, d: int, oom: bool)
    requires '/' in path && ReachedIn(s, s1, f, m, root, path, [], d, oom) && !Flag(flags, CREATE)
             && CacheOk(s1, root, f, m)
    requires root != NO_PARENT ==> Occ(s, root) && s[root].mnt.Some?
    ensures Found(s, s1, f, f, m, root, path, flags, mode, d, false, oom)
  {
    hide CacheParts, AllUnique, AllPinned, Misses, Find;
    SameFreeSlotsIf(s, s1);
    if root != NO_PARENT {
      PinnedRoot(s, s1, root);
      assert Components(path) + [] == Components(path);
    }
  }

  /** What was known before a lookup still is; and one that found nothing, though memory sufficed,
      has shown that there is nothing to know. */
  lemma {:induction false} KnownLater(s: seq<Dentry>, s1: seq<Dentry>, root: int, f: Forest, m: Mounts, path: string,
                                      oom: bool)
    requires '/' in path && ReachedIn(s, s1, f, m, root, path, Extra(path), NO_PARENT, oom)
    requires CacheOk(s, root, f, m) && (oom ==> KnownPath(s, f, m, root, path))
    ensures KnownPath(s1, f, m, root, path)
  {
    hide CacheParts, Safe, LookedUp, Walk, Roomy;
    if root != NO_PARENT {
      RootIsMounted(s, root, f, m);
      PinnedRoot(s, s1, root);
      if AllPinned(s) {
        NoVictim(s, s1);
      } else if oom {
        KnownStays(s, s1, root, f, m, path);
      } else {
        NothingToKnow(s1, f, m, root, path);
      }
    }
  }

  /** After a lookup that found nothing its steps, and those of a creation, are safe still. */
  lemma {:induction false} LostIsSafe(s: seq<Dentry>, s1: seq<Dentry>, f: Forest, m: Mounts, root: int, path: string,
                                      oom: bool)
    requires '/' in path && ReachedIn(s, s1, f, m, root, path, Extra(path), NO_PARENT, oom)
    ensures root != NO_PARENT ==> Safe(s1, f, root, Steps(path))
  {
    ExtraSteps(path);
  }

  lemma {:induction false} KnownStays(s: seq<Dentry>, s1: seq<Dentry>, root: int, f: Forest, m: Mounts, path: string)
    requires '/' in path && root >= 0 && SameRoot(s, s1, root) && KnownPath(s, f, m, root, path) && !AllPinned(s)
    requires At(s, root, Components(path)) != NO_PARENT ==> SameBut(s, s1)
    ensures KnownPath(s1, f, m, root, path)
  {
    if At(s, root, Steps(path)) != NO_PARENT {
      ExtraSteps(path);
      AtPrefix(s, root, Components(path), Extra(path));
      SameAt(s, s1, root, Steps(path));
    }
  }

  lemma {:induction false} NothingToKnow(s: seq<Dentry>, f: Forest, m: Mounts, root: int, path: string)
    requires '/' in path && Occ(s, root) && Walk(f, m, NodeOf(s[root]), Components(path)).None?
    ensures KnownPath(s, f, m, root, path)
  {
    var comps := Components(ParentOf(path));
    StepsAreComponents(path);
    if Walk(f, m, NodeOf(s[root]), comps).Some? { WalkMore(f, m, NodeOf(s[root]), comps, NameOf(path)); }
  }

  lemma {:induction false} ResolveFails(s: seq<Dentry>, s1: seq<Dentry>, s2: seq<Dentry>, f: Forest, f': Forest,
                                        m: Mounts, root: int, path: string, flags: nat, mode: nat, oom1: bool,
                                        oom: bool)
    requires '/' in path && Flag(flags, CREATE) && ReachedIn(s, s1, f, m, root, path, Extra(path), NO_PARENT, oom1)
    requires CreatedPath(s1, s2, f, f', m, root, path, WithType(mode, REGULAR), 0, false, oom)
    requires root != NO_PARENT ==> Occ(s, root) && s[root].mnt.Some?
    ensures Found(s, s2, f, f', m, root, path, flags, mode, -1, false, oom || oom1)
  {
    hide Complete, AllUnique, Walk, Misses, FreeSlots, AllPinned, Safe, Roomy;
    assert FileType(WithType(mode, REGULAR)) == REGULAR;
    ExtraSteps(path);
    SameFreeSlotsIf(s, s1);
    if root != NO_PARENT {
      PinnedRoot(s, s1, root);
      CreatedPinned(s1, s2, f, f', m, root, path, WithType(mode, REGULAR), 0, false, oom);
      SamePinnedTwice(s, s1, s2);
      if Roomy(s, f, root, Steps(path)) { KeptTransitive(s, s1, s2); }
    }
  }

  lemma {:induction false} CreatedPinned(s: seq<Dentry>, s': seq<Dentry>, f: Forest, f': Forest, m: Mounts, root: int,
                                         path: string, mode: nat, dev: nat, ok: bool, oom: bool)
    requires '/' in path && CreatedPath(s, s', f, f', m, root, path, mode, dev, ok, oom)
    requires root != NO_PARENT && Occ(s, root)
    ensures SamePinned(s, s') && SameRoot(s, s', root) && (AllUnique(f) ==> AllUnique(f')) && Grown(f, f')
    ensures Roomy(s, f, root, Steps(path)) ==>
              Kept(s, s')
              && (Complete(s, f) ==> Complete(s', f') && FreeSlots(s') + (if ok then 1 else 0) == FreeSlots(s))
  {
    hide Walk, FreeSlots, Find, AllUnique;
  }

  /** After a creation the path leads somewhere, even one that ends in a slash, and is cached. */
  lemma {:induction false} MadeLeads(s: seq<Dentry>, s': seq<Dentry>, f: Forest, f': Forest, m: Mounts, root: int,
                                     path: string, mode: nat, dev: nat, oom: bool)
    requires '/' in path && CreatedPath(s, s', f, f', m, root, path, mode, dev, true, oom) && CacheOk(s', root, f', m)
    ensures root != NO_PARENT && Occ(s, root) && Occ(s', root) && NodeOf(s'[root]) == NodeOf(s[root])
    ensures Walk(f', m, NodeOf(s'[root]), Components(path)).Some? && At(s', root, Components(path)) != NO_PARENT
    ensures Safe(s', f', root, Components(path) + [])
  {
    hide CacheParts, Find, AllUnique, Misses, FreeSlots, Complete, Walk, Child;
    ExtraSteps(path);
    AtPrefix(s', root, Components(path), Extra(path));
    AtAgrees(s', root, f', m, root, Components(path));
    CachedIsSafe(s', f', root, Components(path), []);
  }

  lemma {:induction false} ResolveMade(s: seq<Dentry>, s1: seq<Dentry>, s2: seq<Dentry>, s3: seq<Dentry>, f: Forest,
                                       f': Forest, m: Mounts, root: int, path: string, flags: nat, mode: nat, d: int,
                                       oom1: bool, oom2: bool, oom: bool)
    requires '/' in path && Flag(flags, CREATE) && ReachedIn(s, s1, f, m, root, path, Extra(path), NO_PARENT, oom1)
    requires CreatedPath(s1, s2, f, f', m, root, path, WithType(mode, REGULAR), 0, true, oom2)
    requires CacheOk(s2, root, f', m) && ReachedIn(s2, s3, f', m, root, path, [], d, oom)
    requires root != NO_PARENT ==> Occ(s, root) && s[root].mnt.Some?
    ensures Found(s, s3, f, f', m, root, path, flags, mode, d, true, oom || oom1)
  {
    hide CacheParts, Find, AllUnique, Misses, FreeSlots, Walk, Child, At, Complete, Safe, Roomy, AllPinned;
    MadeLeads(s1, s2, f, f', m, root, path, WithType(mode, REGULAR), 0, oom2);
    PinnedRoot(s, s1, root);
    CreatedPinned(s1, s2, f, f', m, root, path, WithType(mode, REGULAR), 0, true, oom2);
    SamePinnedTwice(s, s1, s2);
    SamePinnedTwice(s, s2, s3);
    PinnedRoot(s, s3, root);
    ExtraSteps(path);
    if Roomy(s, f, root, Steps(path)) { MadeKept(s, s1, s2, s3, f, f', root); }
  }

  lemma {:induction false} MadeKept(s: seq<Dentry>, s1: seq<Dentry>, s2: seq<Dentry>, s3: seq<Dentry>, f: Forest,
                                    f': Forest, root: int)
    requires Kept(s, s1) && Kept(s1, s2) && SameBut(s2, s3) && (Complete(s, f) ==> Complete(s1, f) && SameBut(s, s1))
    requires Complete(s1, f) ==> Complete(s2, f') && FreeSlots(s2) + 1 == FreeSlots(s1)
    ensures Kept(s, s3) && (Complete(s, f) ==> Complete(s3, f') && FreeSlots(s3) + 1 == FreeSlots(s))
  {
    hide FreeSlots, Find;
    KeptTransitive(s, s1, s2);
    KeptTransitive(s, s2, s3);
    SameFreeSlotsIf(s, s1);
    SameFreeSlots(s2, s3);
    if Complete(s2, f') { SameComplete(s2, s3, f'); }
  }

  /** What opening the node at `l` does to vnodes and open files: a file that opens holds one
      more reference; one that does not leaves the vnodes as they were, and the files too,
      but for a type that cannot be opened. */
  ghost predicate OpenStep(vs: seq<Vnode>, vs': seq<Vnode>, fs: seq<OpenFile>, fs': seq<OpenFile>, next: nat,
                           f: Forest, l: Loc, flags: nat, charDevs: set<nat>, devOpens: bool, r: Option<nat>, oom: bool)
    requires Has(f, l)
  {
    OpenParts(vs, vs', fs, fs', next, f, l, flags, charDevs, devOpens, r, oom) == true
  }

  ghost predicate OpenParts(vs: seq<Vnode>, vs': seq<Vnode>, fs: seq<OpenFile>, fs': seq<OpenFile>, next: nat,
                            f: Forest, l: Loc, flags: nat, charDevs: set<nat>, devOpens: bool, r: Option<nat>,
                            oom: bool)
    requires Has(f, l)
  {
    var n := NodeAt(f, l);
    if r.Some? then
      && Permitted(n.mode, flags) && Openable(n.mode, n.dev, charDevs)
      && (FileType(n.mode) == CHAR_DEV ==> devOpens)
      && fs' == fs + [OpenFile(r.value, l, flags, true)] && vs' == Acquired(vs, Loaded(f, l))
    else
      && vs' == vs
      && (oom || !Permitted(n.mode, flags) || !Openable(n.mode, n.dev, charDevs)
          || (FileType(n.mode) == CHAR_DEV && !devOpens))
      && fs' == if !oom && Permitted(n.mode, flags) && Stranded(n.mode) then fs + [OpenFile(next, l, flags, false)]
           else fs
  }

  /** What a file on a vnode of that mode and device does to the list of open files. */
  ghost predicate FileStep(fs: seq<OpenFile>, fs': seq<OpenFile>, next: nat, l: Loc, mode: nat, dev: nat, flags: nat,
                           charDevs: set<nat>, devOpens: bool, r: Option<nat>, oom: bool)
  {
    FileParts(fs, fs', next, l, mode, dev, flags, charDevs, devOpens, r, oom) == true
  }

  ghost predicate FileParts(fs: seq<OpenFile>, fs': seq<OpenFile>, next: nat, l: Loc, mode: nat, dev: nat, flags: nat,
                            charDevs: set<nat>, devOpens: bool, r: Option<nat>, oom: bool)
  {
    if r.Some? then
      && !oom && Openable(mode, dev, charDevs) && (FileType(mode) == CHAR_DEV ==> devOpens)
      && fs' == fs + [OpenFile(r.value, l, flags, true)] && r.value == next
    else
      && (oom || !Openable(mode, dev, charDevs) || (FileType(mode) == CHAR_DEV && !devOpens))
      && fs' == if !oom && Stranded(mode) then fs + [OpenFile(next, l, flags, false)] else fs
  }

  lemma {:induction false} OpenRefused(vs: seq<Vnode>, fs: seq<OpenFile>, next: nat, f: Forest, l: Loc, flags: nat,
                                       charDevs: set<nat>, devOpens: bool, oom: bool)
    requires Has(f, l) && (oom || !Permitted(NodeAt(f, l).mode, flags))
    ensures OpenStep(vs, vs, fs, fs, next, f, l, flags, charDevs, devOpens, None, oom)
  {}

  lemma {:induction false} OpenGranted(vs: seq<Vnode>, fs: seq<OpenFile>, fs': seq<OpenFile>, next: nat, f: Forest,
                                       l: Loc, flags: nat, charDevs: set<nat>, devOpens: bool, r: Option<nat>,
                                       oom: bool)
    requires Has(f, l) && Permitted(NodeAt(f, l).mode, flags)
    requires FileStep(fs, fs', next, l, NodeAt(f, l).mode, NodeAt(f, l).dev, flags, charDevs, devOpens, r, oom)
    ensures OpenStep(vs, if r.Some? then Acquired(vs, Loaded(f, l)) else vs, fs, fs', next, f, l, flags, charDevs,
                     devOpens, r, oom)
  {}

  /** The same for the node behind entry `d`, if one was found. */
  ghost predicate OpenedAt(s: seq<Dentry>, d: int, vs: seq<Vnode>, vs': seq<Vnode>, fs: seq<OpenFile>,
                           fs': seq<OpenFile>, next: nat, f: Forest, flags: nat, charDevs: set<nat>, devOpens: bool,
                           r: Option<nat>, oom: bool)
  {
    (if d == NO_PARENT then r.None? && fs' == fs && vs' == vs
     else 0 <= d < |s| && Has(f, NodeOf(s[d]))
          && OpenStep(vs, vs', fs, fs', next, f, NodeOf(s[d]), flags, charDevs, devOpens, r, oom)) == true
  }

  lemma {:induction false} OpenKeepsBalance(vs: seq<Vnode>, vs': seq<Vnode>, fs: seq<OpenFile>, fs': seq<OpenFile>,
                                            next: nat, next': nat, held: multiset<Loc>, f: Forest, l: Loc, flags: nat,
                                            charDevs: set<nat>, devOpens: bool, r: Option<nat>, oom: bool)
    requires Has(f, l) && OpenStep(vs, vs', fs, fs', next, f, l, flags, charDevs, devOpens, r, oom)
    requires Accounts(vs, fs, next, held) && FilesOk(fs', next')
    ensures Accounts(vs', fs', next', held)
  {
    if r.Some? {
      OpenBalances(vs, Loaded(f, l), fs, OpenFile(r.value, l, flags, true), held);
    } else if fs' != fs {
      DeadBalances(fs, OpenFile(next, l, flags, false));
    }
  }

  lemma {:induction false} CloseKeepsBalance(vs: seq<Vnode>, f: Forest, fs: seq<OpenFile>, k: nat, next: nat,
                                             held: multiset<Loc>)
    requires VnodesOk(vs, f) && Accounts(vs, fs, next, held) && k < |fs| && fs[k].live
    ensures Count(vs, fs[k].loc) >= 1
    ensures Accounts(Dropped(vs, fs[k].loc), fs[..k] + fs[k + 1..], next, held)
  {
    CloseBalances(vs, f, fs, k, held);
  }

  /** A reference to the mountpoint's node is taken for good, or none is. */
  ghost predicate KeepStep(vs: seq<Vnode>, vs': seq<Vnode>, held: multiset<Loc>, held': multiset<Loc>, f: Forest,
                           target: Option<Loc>, kept: bool)
  {
    (if kept then
       target.Some? && Has(f, target.value) && vs' == Acquired(vs, Loaded(f, target.value))
           && held' == held + multiset{target.value}
     else vs' == vs && held' == held) == true
  }

  /** A reference that mounting keeps. */
  lemma {:induction false} HoldKeepsBalance(vs: seq<Vnode>, v: Vnode, fs: seq<OpenFile>, next: nat, held: multiset<Loc>)
    requires Accounts(vs, fs, next, held)
    ensures Accounts(Acquired(vs, v), fs, next, held + multiset{v.loc})
  {
    AcquireBalances(vs, v, OpenLocs(fs) + held);
    assert OpenLocs(fs) + held + multiset{v.loc} == OpenLocs(fs) + (held + multiset{v.loc});
  }

  /** `l` is a new directory without entries and with the permissions of `mode`. */
  ghost predicate NewDirectory(f: Forest, f': Forest, l: Loc, mode: nat) {
    && !Has(f, l) && DirAt(f', l) && NodeAt(f', l).entries == []
    && NodeAt(f', l).mode / 0x1000 == DIRECTORY && NodeAt(f', l).mode % 0x1000 == mode % 0x1000
  }

  lemma {:induction false} DirectoryMade(s: seq<Dentry>, s': seq<Dentry>, f: Forest, f': Forest, m: Mounts, root: int,
                                         path: string, mode: nat, oom: bool) returns (l: Loc)
    requires CacheOk(s, root, f, m) && CacheOk(s', root, f', m) && (root != NO_PARENT ==> Occ(s, root))
    requires '/' in path && CreatedPath(s, s', f, f', m, root, path, WithType(mode, DIRECTORY), 0, true, oom)
    ensures NewDirectory(f, f', l, mode)
  {
    hide CacheParts, CreatedPath, WithType, Walk;
    CreatedResolves(s, s', f, f', m, root, path, WithType(mode, DIRECTORY), 0, oom);
    WithTypeKeeps(mode, DIRECTORY);
    var dir := Walk(f, m, NodeOf(s[root]), Components(ParentOf(path))).value;
    l := Loc(dir.sb, f[dir.sb].lastIno);
  }

  /** A node made by an open is the regular file that the path now names. */
  lemma {:induction false} MadeNode(s: seq<Dentry>, s': seq<Dentry>, f: Forest, f': Forest, m: Mounts, root: int,
                                    path: string, flags: nat, mode: nat, d: int, oom: bool)
    requires '/' in path && NameOf(path) != "" && CacheOk(s, root, f, m) && d != NO_PARENT
    requires Found(s, s', f, f', m, root, path, flags, mode, d, true, oom)
    ensures Occ(s', d) && Has(f', NodeOf(s'[d])) && !Has(f, NodeOf(s'[d]))
    ensures NodeAt(f', NodeOf(s'[d])) == Node(WithType(mode, REGULAR), 0, [])
  {
    hide CacheParts, Find, Complete, AllUnique, Grown, Kept, SamePinned, SameRoot, Misses, FreeSlots, Roomy, AllPinned,
      WithType;
    var at, comps, n := NodeOf(s[root]), Components(ParentOf(path)), NameOf(path);
    var dir := Walk(f, m, at, comps).value;
    StepsAreComponents(path);
    CacheBasics(s, root, f, m);
    assert Planted(f[dir.sb]);
    MountsExist(s, root, f, m);
    WalkGrows(f, m, dir, n, WithType(mode, REGULAR), 0, at, comps);
    MadeChildren(f, dir, n, WithType(mode, REGULAR), 0, dir, n);
    WalkMore(f', m, at, comps, n);
  }

  /** An open that made its node and has memory succeeds exactly if the permissions given allow
      what is asked for. */
  lemma {:induction false} MadeOpens(s: seq<Dentry>, s': seq<Dentry>, f: Forest, f': Forest, m: Mounts, root: int,
                                     path: string, flags: nat, mode: nat, d: int, noEntry: bool, vs: seq<Vnode>,
                                     vs': seq<Vnode>, fs: seq<OpenFile>, fs': seq<OpenFile>, next: nat,
                                     charDevs: set<nat>, devOpens: bool, r: Option<nat>, oom: bool)
    requires '/' in path && NameOf(path) != "" && CacheOk(s, root, f, m) && d != NO_PARENT && !oom
    requires Found(s, s', f, f', m, root, path, flags, mode, d, true, noEntry)
    requires OpenedAt(s', d, vs, vs', fs, fs', next, f', flags, charDevs, devOpens, r, oom)
    ensures r.Some? <==> Permitted(mode, flags)
  {
    hide WithType, Flag, CacheParts, Found;
    MadeNode(s, s', f, f', m, root, path, flags, mode, d, noEntry);
    WithTypeKeeps(mode, REGULAR);
  }

  ghost predicate AllLive(fs: seq<OpenFile>) {
    forall i :: 0 <= i < |fs| ==> fs[i].live
  }

  /** With the right permissions, opening the node at `l` lacks memory exactly if a request for
      its vnode or for the file is refused. */
  ghost predicate Afforded(answers: seq<bool>, i: nat, vs: seq<Vnode>, f: Forest, l: Loc, flags: nat, oom: bool) {
    Has(f, l) && Permitted(NodeAt(f, l).mode, flags) ==> (oom <==> !Granted(answers, i, Requests(vs, l) + 2))
  }

  /** Files in the list stay in use exactly unless a node is opened, with the right
      permissions and memory, that is no file, directory or character device. */
  lemma {:induction false} OpenKeepsLive(vs: seq<Vnode>, vs': seq<Vnode>, fs: seq<OpenFile>, fs': seq<OpenFile>,
                                         next: nat, f: Forest, l: Loc, flags: nat, charDevs: set<nat>, devOpens: bool,
                                         r: Option<nat>, oom: bool, answers: seq<bool>, i: nat)
    requires Has(f, l) && OpenStep(vs, vs', fs, fs', next, f, l, flags, charDevs, devOpens, r, oom) && AllLive(fs)
    requires Afforded(answers, i, vs, f, l, flags, oom)
    ensures AllLive(fs') <==> !Permitted(NodeAt(f, l).mode, flags) || !Stranded(NodeAt(f, l).mode)
                              || !Granted(answers, i, Requests(vs, l) + 2)
  {
    if fs' != fs {
      assert fs'[|fs|] == fs'[|fs'| - 1];
    }
  }
}
