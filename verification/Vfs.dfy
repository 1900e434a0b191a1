/** The virtual file system over in-memory trees: cached path lookup, creation, open files
    with reference-counted vnodes, and mounts. */
module Vfs {
  import opened Frames
  import opened Memory
  import opened DentryCache
  import opened MemTree
  import opened PathCache
  import opened Eviction
  import opened PathLookup
  import opened Creation
  import opened Vnodes
  import opened OpenFiles
  import opened MountCache
  import opened OpenRules
  import Strtok

  class FileSystem {
    const cache: Cache
    var root: int
    var vnodes: seq<Vnode>
    var files: seq<OpenFile>
    var nextFile: nat
    var forest: Forest
    var sbs: set<nat>
    var fsTypes: set<string>
    var charDevs: set<nat>
    // Answers to the requests for memory, and how many have been made.
    const answers: seq<bool>
    var asked: nat
    // The places file systems are mounted on, and the references mounting keeps.
    ghost var mounts: Mounts
    ghost var held: multiset<Loc>

    /** Nothing mounted, nothing open; `forest` holds the registered file systems, empty. */
    constructor (capacity: nat, forest: Forest, fsTypes: set<string>, charDevs: set<nat>, answers: seq<bool>)
      requires forall sb :: sb in forest ==> forest[sb].nodes == map[]
      ensures Valid() && Complete(cache.slots[..], forest) && root == NO_PARENT && vnodes == [] && files == []
              && held == multiset{} && mounts == map[]
      ensures cache.slots.Length == capacity && this.forest == forest && fresh(cache) && fresh(cache.slots)
    {
      cache := new Cache(capacity);
      root, vnodes, files, nextFile := NO_PARENT, [], [], 0;
      this.forest, sbs, this.fsTypes, this.charDevs := forest, {}, fsTypes, charDevs;
      this.answers, asked := answers, 0;
      mounts, held := map[], multiset{};
    }

    ghost predicate Ready()
      reads this, cache.slots
    {
      CacheOk(cache.slots[..], root, forest, mounts) && VnodesOk(vnodes, forest)
    }

    /** Between calls, the references of the vnodes are those of the open files, and those
        that mounting kept; and only mounted file systems have nodes. */
    ghost predicate Valid()
      reads this, cache.slots
    {
      && Ready() && Accounts(vnodes, files, nextFile, held)
      && MountsIn(cache.slots[..], root, mounts, sbs) && Registered(forest, sbs)
    }

    method Kalloc() returns (ok: bool)
      modifies `asked
      ensures Spent(answers, old(asked), asked, !ok) && asked == old(asked) + 1
              && (ok <==> !Refused(answers, old(asked)))
    {
      ok := asked >= |answers| || answers[asked];
      asked := asked + 1;
      assert !ok ==> Refused(answers, old(asked));
    }

    /** Memory for an object and for its place in a list. */
    method KallocListed() returns (ok: bool)
      modifies `asked
      ensures Spent(answers, old(asked), asked, !ok)
      ensures ok <==> Granted(answers, old(asked), 2)
    {
      ok := Kalloc();
      if ok {
        ghost var a := asked;
        ok := Kalloc();
        SpentTwice(answers, old(asked), a, asked, false, !ok, !ok);
      }
    }

    /** The vnode for `l`, from the list or loaded from its file system, with one more
        reference. */
    method GetOrRead(l: Loc) returns (r: Option<Vnode>, ghost oom: bool)
      requires VnodesOk(vnodes, forest)
      modifies `vnodes, `asked
      ensures VnodesOk(vnodes, forest) && Spent(answers, old(asked), asked, oom)
      ensures r.None? ==> vnodes == old(vnodes) && (oom || !Has(forest, l))
      ensures r.Some? ==> Has(forest, l) && r.value.loc == l && r.value.Copies(forest)
                          && vnodes == Acquired(old(vnodes), Loaded(forest, l))
                          && !oom && asked == old(asked) + Requests(old(vnodes), l)
      ensures Has(forest, l) ==> (oom <==> !Granted(answers, old(asked), Requests(old(vnodes), l)))
    {
      var k := Index(vnodes, l, 0);
      if k == |vnodes| {
        r, oom := ReadVnode(l);
        if r == None {
          return;
        }
        AcquireKeeps(vnodes, forest, r.value);
        vnodes := vnodes + [r.value];
      } else {
        r, oom := Some(vnodes[k]), false;
        AcquireKeeps(vnodes, forest, r.value);
      }
      vnodes := vnodes[k := vnodes[k].(count := vnodes[k].count + 1)];
    }

    /** A new vnode for `l`, as its file system describes it. */
    method ReadVnode(l: Loc) returns (r: Option<Vnode>, ghost oom: bool)
      modifies `asked
      ensures Spent(answers, old(asked), asked, oom)
      ensures if r.None? then oom || !Has(forest, l)
              else Has(forest, l) && r.value == Loaded(forest, l) && !oom && asked == old(asked) + 2
      ensures Has(forest, l) ==> (oom <==> !Granted(answers, old(asked), 2))
    {
      var ok := Kalloc();
      if !ok {
        return None, true;
      }
      if l.sb !in forest || l.ino !in forest[l.sb].nodes {
        return None, false;
      }
      var node := forest[l.sb].nodes[l.ino];
      ghost var a := asked;
      ok := Kalloc();
      SpentTwice(answers, old(asked), a, asked, false, !ok, !ok);
      r, oom := if ok then Some(Vnode(l, node.mode, node.dev, 0)) else None, !ok;
    }

    /** Gives a reference back; a vnode without references is destroyed. */
    method Release(l: Loc)
      requires VnodesOk(vnodes, forest) && Count(vnodes, l) >= 1
      modifies `vnodes
      ensures VnodesOk(vnodes, forest) && vnodes == Dropped(old(vnodes), l)
    {
      ReleaseKeeps(vnodes, forest, l);
      var k := Index(vnodes, l, 0);
      if vnodes[k].count - 1 < 1 {
        vnodes := vnodes[..k] + vnodes[k + 1..];
      } else {
        vnodes := vnodes[k := vnodes[k].(count := vnodes[k].count - 1)];
      }
    }

    /** One step of a path: child `n` of the directory behind entry `p`. */
    method LookupIn(p: int, n: string) returns (k: int, ghost oom: bool)
      requires Ready() && Occ(cache.slots[..], p) && Evictable(cache.slots[..], p, n)
      modifies cache.slots, `vnodes, `asked
      ensures Ready() && vnodes == old(vnodes) && Spent(answers, old(asked), asked, oom)
      ensures Went(old(cache.slots[..]), cache.slots[..], forest, mounts, p, n, k, oom)
    {
      ghost var s := cache.slots[..];
      k, oom := GetSlot(p, n);
      ghost var s1, a := cache.slots[..], asked;
      if k != -1 && cache.slots[k].vno == 0 {
        ghost var oom2;
        BaseKeeps(s, root, forest, mounts, p, n);
        k, oom2 := FillIn(p, n, k, Base(s, p, n));
        WentMissing(s, cache.slots[..], forest, mounts, p, n, k, oom2);
        SpentTwice(answers, old(asked), a, asked, oom, oom2, oom2);
        oom := oom2;
      }
    }

    /** Asks the cache for child `n` of `p`; memory for the name is requested by a miss only. */
    method Request(p: int, n: string) returns (k: int, ghost named: bool, ghost oom: bool)
      requires -1 <= p < cache.slots.Length && Counted(cache.slots[..])
      modifies cache.slots, `asked
      ensures -1 <= k < cache.slots.Length && Spent(answers, old(asked), asked, oom)
      ensures GetStep(old(cache.slots[..]), cache.slots[..], p, n, named, k)
      ensures oom <==> !named && Find(old(cache.slots[..]), p, n, 0) == cache.slots.Length
                       && Victim(old(cache.slots[..]), cache.slots.Length) != -1
    {
      named := !Refused(answers, asked);
      var wanted;
      k, wanted := cache.Get(p, n, asked >= |answers| || answers[asked]);
      oom := false;
      if wanted {
        var ok := Kalloc();
        oom := !ok;
      }
    }

    /** The slot for child `n` of entry `p`: a hit, or a new entry without a number. */
    method GetSlot(p: int, n: string) returns (k: int, ghost oom: bool)
      requires Ready() && Occ(cache.slots[..], p) && Evictable(cache.slots[..], p, n)
      modifies cache.slots, `asked
      ensures -1 <= k < cache.slots.Length && Spent(answers, old(asked), asked, oom)
      ensures k == -1 || cache.slots[k].vno != 0 ==>
                Ready() && Went(old(cache.slots[..]), cache.slots[..], forest, mounts, p, n, k, oom)
      ensures k != -1 && cache.slots[k].vno == 0 ==> NewSlot(old(cache.slots[..]), cache.slots[..], p, n, k)
    {
      ghost var s, named := cache.slots[..], false;
      k, named, oom := Request(p, n);
      GetWent(s, cache.slots[..], root, forest, mounts, p, n, named, k, oom);
    }

    /** The number of `n` in directory `dir`, from the directory's vnode. */
    method AskDirectory(dir: Loc, n: string) returns (ino: Option<nat>, ghost oom: bool)
      requires VnodesOk(vnodes, forest) && Has(forest, dir)
      modifies `vnodes, `asked
      ensures VnodesOk(vnodes, forest) && vnodes == old(vnodes) && Spent(answers, old(asked), asked, oom)
      ensures ino.None? ==> oom || Child(forest, dir, n).None?
      ensures ino.Some? ==> Child(forest, dir, n) == Some(Loc(dir.sb, ino.value))
    {
      var node;
      node, oom := GetOrRead(dir);
      if node == None {
        return None, oom;
      }
      ReleaseUndoesAcquire(old(vnodes), forest, Loaded(forest, node.value.loc));
      ino := None;
      if FileType(node.value.mode) == DIRECTORY {
        var es := forest[dir.sb].nodes[dir.ino].entries;
        var e := EntryIndex(es, n, 0);
        if e < |es| {
          ino := Some(es[e].ino);
        }
      }
      Release(dir);
    }

    /** Fills in the number of the new entry `k`, or gives its slot back. */
    method FillIn(p: int, n: string, k: int, ghost s: seq<Dentry>) returns (r: int, ghost oom: bool)
      requires CacheOk(s, root, forest, mounts) && VnodesOk(vnodes, forest) && |s| == cache.slots.Length
      requires Occ(s, p) && Find(s, p, n, 0) == |s| && 0 <= k < |s| && s[k].Free()
      requires cache.slots[..] == s[k := NewEntry(s, k, p, n)]
      modifies cache.slots, `vnodes, `asked
      ensures Ready() && vnodes == old(vnodes) && Spent(answers, old(asked), asked, oom)
      ensures Stepped(s, cache.slots[..], forest, mounts, p, n, r, oom)
      ensures r == -1 ==> cache.slots[..] == s[k := EMPTY]
      ensures r != -1 ==> r == k && Child(forest, NodeOf(s[p]), n).Some?
                          && cache.slots[..] == s[k := NewEntry(s, k, p, n)
                                                      .(vno := Child(forest, NodeOf(s[p]), n).value.ino)]
    {
      NodeExists(s, root, forest, mounts, p);
      var ino;
      ino, oom := AskDirectory(NodeOf(cache.slots[p]), n);
      if ino == None {
        cache.Reset(k);
        StepFails(s, root, forest, mounts, p, n, k, oom);
        assert cache.slots[..] == s[k := EMPTY];
        return -1, oom;
      }
      StepEnters(s, root, forest, mounts, p, n, k, ino.value, oom);
      cache.slots[k] := cache.slots[k].(vno := ino.value);
      assert cache.slots[..] == s[k := NewEntry(s, k, p, n).(vno := ino.value)];
      r := k;
    }

    /** Every step not cached has a slot: a free one, or that of an entry not needed. */
    ghost predicate SafeFor(comps: seq<string>)
      reads this, cache.slots
    {
      root != NO_PARENT ==> Safe(cache.slots[..], forest, root, comps)
    }

    /** Looks a path up through the cache.  The answer is the entry of the node the path
        names; -1 means that the path names nothing, that memory ran out, or that the cache
        holds nothing but mountpoints.  The steps `extra`, if they are to follow, stay safe. */
    method Lookup(path: string, ghost extra: seq<string>) returns (r: int, ghost oom: bool)
      requires Ready() && SafeFor(Components(path) + extra) && Strtok.NUL !in path
      modifies cache.slots, `vnodes, `asked
      ensures Ready() && vnodes == old(vnodes) && Spent(answers, old(asked), asked, oom)
      ensures ReachedIn(old(cache.slots[..]), cache.slots[..], forest, mounts, root, path, extra, r, oom)
    {
      if root == NO_PARENT {
        return -1, false;
      }
      ghost var s := cache.slots[..];
      var ok := Kalloc();
      if !ok {
        GoingRefused(s, forest, mounts, root, Components(path), extra);
        return -1, true;
      }
      ghost var a := asked;
      var comps := Strtok.Cut(path, '/');
      r, oom := Descend(comps, extra, s);
      SpentTwice(answers, old(asked), a, asked, false, oom, oom);
    }

    /** Takes the components one by one, from the root. */
    method Descend(comps: seq<string>, ghost extra: seq<string>, ghost s: seq<Dentry>)
      returns (obj: int, ghost oom: bool)
      requires Ready() && root != NO_PARENT && cache.slots[..] == s && SafeFor(comps + extra)
      modifies cache.slots, `vnodes, `asked
      ensures Ready() && vnodes == old(vnodes) && Spent(answers, old(asked), asked, oom)
      ensures Reached(s, cache.slots[..], forest, mounts, root, comps, extra, obj, oom)
    {
      hide CacheParts, VnodeParts, GoingParts, WentParts, ReachedParts, NoSlot, Victim, Evictable;
      obj, oom := root, false;
      var i := 0;
      RootIsMounted(s, root, forest, mounts);
      GoingStarts(s, forest, mounts, root, comps, extra);
      while i < |comps|
        invariant i <= |comps| && Ready() && vnodes == old(vnodes) && Spent(answers, old(asked), asked, oom)
        invariant Going(s, cache.slots[..], forest, mounts, root, comps, i, extra, obj)
      {
        ghost var s1, parent, a, oom1 := cache.slots[..], obj, asked, oom;
        GoingEvicts(s, s1, forest, mounts, root, comps, i, extra, obj);
        obj, oom := LookupIn(obj, comps[i]);
        SpentTwice(answers, old(asked), a, asked, oom1, oom, oom);
        GoingAdvances(s, s1, cache.slots[..], forest, mounts, root, comps, i, extra, parent, obj, oom);
        if obj == -1 {
          return;
        }
        i := i + 1;
      }
      GoingArrives(s, cache.slots[..], forest, mounts, root, comps, extra, obj, oom);
    }

    // -------------------------------------------------------------- creating

    /** Where the last slash is. */
    method FindLastSlash(path: string) returns (k: nat)
      requires '/' in path
      ensures k == LastSlash(path)
    {
      var p: int := -1;
      var i := 0;
      while i < |path|
        invariant i <= |path| && -1 <= p < i && '/' !in path[p + 1..i] && (p != -1 ==> path[p] == '/')
      {
        if path[i] == '/' {
          p := i;
        }
        i := i + 1;
      }
      assert path[..i] == path && path[p + 1..i] == path[p + 1..];
      k := p;
    }

    /** A node in directory `dir`, and its entry under `n`. */
    method MakeInode(dir: Loc, n: string, mode: nat, dev: nat) returns (ino: Option<nat>, ghost oom: bool)
      requires AllPlanted(forest) && DirAt(forest, dir)
      modifies `forest, `asked
      ensures Spent(answers, old(asked), asked, oom) && Grown(old(forest), forest)
      ensures ino.Some? ==> Creatable(mode) && forest == Made(old(forest), dir, n, mode, dev)
                            && ino.value == old(forest)[dir.sb].lastIno
      ensures ino.None? ==> (oom || !Creatable(mode))
                            && (forest == old(forest) || forest == Skipped(old(forest), dir.sb))
    {
      if !Creatable(mode) {
        return None, false;
      }
      var ok := Kalloc();
      if !ok {
        return None, true;
      }
      ghost var f, a := forest, asked;
      var number := forest[dir.sb].lastIno;
      forest := forest[dir.sb := forest[dir.sb].(lastIno := number + 1)];
      ok := Kalloc();
      SpentTwice(answers, old(asked), a, asked, false, !ok, !ok);
      if !ok {
        return None, true;
      }
      ghost var a2 := asked;
      ok := FillInode(dir, n, number, Node(mode, dev, []), f);
      SpentTwice(answers, old(asked), a2, asked, false, !ok, !ok);
      oom := !ok;
      ino := if ok then Some(number) else None;
    }

    /** The new node goes into the list, and out of it again if its entry cannot be made. */
    method FillInode(dir: Loc, n: string, number: nat, node: Node, ghost f: Forest) returns (ok: bool)
      requires AllPlanted(f) && DirAt(f, dir) && number == f[dir.sb].lastIno && forest == Skipped(f, dir.sb)
               && node.entries == []
      modifies `forest, `asked
      ensures Spent(answers, old(asked), asked, !ok) && Grown(f, forest)
      ensures forest == if ok then Made(f, dir, n, node.mode, node.dev) else Skipped(f, dir.sb)
    {
      assert Planted(f[dir.sb]);
      forest := forest[dir.sb := forest[dir.sb].(nodes := forest[dir.sb].nodes[number := node])];
      ok := MakeEntry();
      if !ok {
        forest := forest[dir.sb := forest[dir.sb].(nodes := forest[dir.sb].nodes - {number})];
        assert forest[dir.sb].nodes == f[dir.sb].nodes;
        assert forest == Skipped(f, dir.sb);
        return;
      }
      var d := forest[dir.sb].nodes[dir.ino];
      d := d.(entries := d.entries + [Entry(n, number)]);
      forest := forest[dir.sb := forest[dir.sb].(nodes := forest[dir.sb].nodes[dir.ino := d])];
      assert forest[dir.sb].nodes == Made(f, dir, n, node.mode, node.dev)[dir.sb].nodes;
      MadeGrows(f, dir, n, node.mode, node.dev);
    }

    /** Memory for a directory entry: the entry, its name and its place in the list. */
    method MakeEntry() returns (ok: bool)
      modifies `asked
      ensures Spent(answers, old(asked), asked, !ok)
    {
      ok := KallocListed();
      if ok {
        ghost var a := asked;
        ok := Kalloc();
        SpentTwice(answers, old(asked), a, asked, false, !ok, !ok);
      }
    }

    /** Makes the node for the new entry `k`, or gives its slot back. */
    method MakeNew(p: int, n: string, k: int, mode: nat, dev: nat, ghost s: seq<Dentry>)
      returns (ok: bool, ghost oom: bool)
      requires CacheOk(s, root, forest, mounts) && VnodesOk(vnodes, forest) && |s| == cache.slots.Length
      requires Occ(s, p) && Find(s, p, n, 0) == |s| && 0 <= k < |s| && s[k].Free()
      requires cache.slots[..] == s[k := NewEntry(s, k, p, n)] && Child(forest, NodeOf(s[p]), n).None?
      modifies cache.slots, `vnodes, `asked, `forest
      ensures Ready() && vnodes == old(vnodes) && Spent(answers, old(asked), asked, oom)
      ensures MakeStep(s, cache.slots[..], old(forest), forest, p, n, mode, dev, ok, oom)
    {
      NodeExists(s, root, forest, mounts, p);
      var dir := NodeOf(cache.slots[p]);
      var ino;
      ino, oom := MakeIn(dir, n, mode, dev);
      if ino == None {
        cache.Reset(k);
        MakeFails(s, root, old(forest), mounts, p, n, k, forest, mode, dev, oom);
        assert cache.slots[..] == s[k := EMPTY];
        return false, oom;
      }
      cache.slots[k] := cache.slots[k].(vno := ino.value);
      assert cache.slots[..] == s[k := NewEntry(s, k, p, n).(vno := ino.value)];
      MakeSucceeds(s, root, old(forest), mounts, p, n, k, mode, dev, oom);
      ok := true;
    }

    /** Makes a node through the vnode of its directory. */
    method MakeIn(dir: Loc, n: string, mode: nat, dev: nat) returns (ino: Option<nat>, ghost oom: bool)
      requires AllPlanted(forest) && VnodesOk(vnodes, forest) && Has(forest, dir)
      modifies `vnodes, `asked, `forest
      ensures VnodesOk(vnodes, forest) && vnodes == old(vnodes) && Spent(answers, old(asked), asked, oom)
      ensures ino.Some? ==> DirAt(old(forest), dir) && Creatable(mode) && forest == Made(old(forest), dir, n, mode, dev)
                            && ino.value == old(forest)[dir.sb].lastIno
      ensures ino.None? ==> (oom || !Creatable(mode) || !DirAt(old(forest), dir))
                            && (forest == old(forest) || forest == Skipped(old(forest), dir.sb))
    {
      var node;
      node, oom := GetOrRead(dir);
      if node == None {
        return None, oom;
      }
      ReleaseUndoesAcquire(old(vnodes), forest, Loaded(forest, node.value.loc));
      ino := None;
      if FileType(node.value.mode) == DIRECTORY {
        ghost var a, oom1 := asked, oom;
        ino, oom := MakeInode(dir, n, mode, dev);
        SpentTwice(answers, old(asked), a, asked, oom1, oom, oom);
      }
      VnodesOkLater(vnodes, old(forest), forest);
      Release(dir);
    }

    /** Makes `n` in the directory behind entry `p`, unless the cache has it. */
    method CreateAt(p: int, n: string, mode: nat, dev: nat) returns (ok: bool, ghost oom: bool)
      requires Ready() && Occ(cache.slots[..], p) && Evictable(cache.slots[..], p, n)
      requires Child(forest, NodeOf(cache.slots[p]), n).Some? ==>
                 Find(cache.slots[..], p, n, 0) < cache.slots.Length
                 || Victim(cache.slots[..], cache.slots.Length) == -1
      modifies cache.slots, `vnodes, `asked, `forest
      ensures Ready() && vnodes == old(vnodes) && Spent(answers, old(asked), asked, oom)
      ensures MakeWent(old(cache.slots[..]), cache.slots[..], old(forest), forest, p, n, mode, dev, ok, oom)
    {
      hide CacheParts, VnodeParts, MakeParts, Evictable;
      ghost var s, named := cache.slots[..], false;
      CacheBasics(s, root, forest, mounts);
      var k;
      k, named, oom := Request(p, n);
      ghost var s1 := cache.slots[..];
      GetMakes(s, s1, root, forest, mounts, p, n, named, k, oom, mode, dev);
      if k == -1 || cache.slots[k].vno != 0 {
        return false, oom;
      }
      ghost var a, oom1 := asked, oom;
      BaseKeeps(s, root, forest, mounts, p, n);
      ok, oom := MakeNew(p, n, k, mode, dev, Base(s, p, n));
      SpentTwice(answers, old(asked), a, asked, oom1, oom, oom);
      MakeWentOn(s, s1, cache.slots[..], old(forest), forest, p, n, k, mode, dev, ok, oom);
    }

    /** The entry of the directory `parent`; the root for the empty path. */
    method FindParent(parent: string, ghost name: string) returns (p: int, ghost oom: bool)
      requires Ready() && SafeFor(Components(parent) + [name]) && Strtok.NUL !in parent
      modifies cache.slots, `vnodes, `asked
      ensures Ready() && vnodes == old(vnodes) && Spent(answers, old(asked), asked, oom)
      ensures ReachedIn(old(cache.slots[..]), cache.slots[..], forest, mounts, root, parent, [name], p, oom)
    {
      hide CacheParts, VnodeParts, ReachedParts, GoingParts, Safe;
      p, oom := root, false;
      if parent == "" {
        if root != NO_PARENT {
          RootIsMounted(cache.slots[..], root, forest, mounts);
          GoingStarts(cache.slots[..], forest, mounts, root, [], [name]);
          GoingArrives(cache.slots[..], cache.slots[..], forest, mounts, root, [], [name], root, false);
        }
        return;
      }
      p, oom := Lookup(parent, [name]);
    }

    /** Creates `name` in directory `parent`. */
    method CreateIn(parent: string, name: string, mode: nat, dev: nat) returns (ok: bool, ghost oom: bool)
      requires Ready() && Strtok.NUL !in parent && SafeFor(Components(parent) + [name])
      requires KnownIn(cache.slots[..], forest, mounts, root, parent, name)
      modifies cache.slots, `vnodes, `asked, `forest
      ensures Ready() && vnodes == old(vnodes) && Spent(answers, old(asked), asked, oom)
      ensures CreatedIn(old(cache.slots[..]), cache.slots[..], old(forest), forest, mounts, root, parent, name, mode,
                        dev, ok, oom)
    {
      hide ReachedIn, CreatedIn, KnownIn, CacheOk, VnodesOk, MakeWent, Created, Find, Safe, Evictable, Victim;
      ghost var s := cache.slots[..];
      var p;
      p, oom := FindParent(parent, name);
      ghost var s1, oom1, a := cache.slots[..], oom, asked;
      FindIsRight(s, s1, root, forest, mounts, parent, name, p, oom1);
      if p == -1 {
        CreateLost(s, s1, forest, mounts, root, parent, name, mode, dev, oom);
        return false, oom;
      }
      ok, oom := CreateAt(p, name, mode, dev);
      CreateDone(s, s1, cache.slots[..], old(forest), forest, mounts, root, parent, name, p, oom1, mode, dev, ok, oom);
      SpentTwice(answers, old(asked), a, asked, oom1, oom, oom);
    }

    /** What a creation asks of the cache: what it must evict is not needed, and the name, if
        somebody has it, is cached. */
    ghost predicate MayCreate(path: string)
      requires '/' in path
      reads this, cache.slots
    {
      SafeFor(Steps(path)) && KnownPath(cache.slots[..], forest, mounts, root, path)
    }

    /** Creates the node a path names, in a directory that exists. */
    method CreateNode(path: string, mode: nat, dev: nat) returns (ok: bool, ghost oom: bool)
      requires Ready() && Strtok.NUL !in path && '/' in path && MayCreate(path)
      modifies cache.slots, `vnodes, `asked, `forest
      ensures Ready() && vnodes == old(vnodes) && Spent(answers, old(asked), asked, oom)
      ensures CreatedPath(old(cache.slots[..]), cache.slots[..], old(forest), forest, mounts, root, path, mode, dev,
                          ok, oom)
    {
      hide CacheParts, VnodeParts, Safe, CreatedIn, KnownIn;
      if path == "/" {
        return false, false;
      }
      if root != NO_PARENT { RootIsMounted(cache.slots[..], root, forest, mounts); }
      var named := Kalloc();
      if !named {
        CreateRefused(cache.slots[..], forest, mounts, root, ParentOf(path), NameOf(path), mode, dev);
        return false, true;
      }
      ghost var a := asked;
      var k := FindLastSlash(path);
      ok, oom := CreateIn(path[..k], path[k + 1..], mode, dev);
      SpentTwice(answers, old(asked), a, asked, false, oom, oom);
    }

    method Mkdir(path: string, mode: nat) returns (ok: bool, ghost oom: bool)
      requires Valid() && Strtok.NUL !in path && '/' in path && MayCreate(path)
      modifies cache.slots, `vnodes, `asked, `forest
      ensures Valid() && vnodes == old(vnodes) && Spent(answers, old(asked), asked, oom)
      ensures CreatedPath(old(cache.slots[..]), cache.slots[..], old(forest), forest, mounts, root, path,
                          WithType(mode, DIRECTORY), 0, ok, oom)
      ensures ok ==> exists l :: NewDirectory(old(forest), forest, l, mode)
    {
      hide CacheParts, CreatedPath, VnodeParts, NewDirectory;
      ghost var s := cache.slots[..];
      if root != NO_PARENT { RootIsMounted(s, root, forest, mounts); }
      ok, oom := CreateNode(path, WithType(mode, DIRECTORY), 0);
      CreatedKeeps(s, cache.slots[..], old(forest), forest, mounts, root, path, WithType(mode, DIRECTORY), 0, ok, oom,
                   sbs);
      if ok {
        ghost var l := DirectoryMade(s, cache.slots[..], old(forest), forest, mounts, root, path, mode, oom);
      }
    }

    method Mknod(path: string, mode: nat, dev: nat) returns (ok: bool, ghost oom: bool)
      requires Valid() && Strtok.NUL !in path && '/' in path && MayCreate(path)
      modifies cache.slots, `vnodes, `asked, `forest
      ensures Valid() && vnodes == old(vnodes) && Spent(answers, old(asked), asked, oom)
      ensures if FileType(mode) in {DIRECTORY, REGULAR, SYMLINK} then
                !ok && forest == old(forest) && cache.slots[..] == old(cache.slots[..])
              else
                CreatedPath(old(cache.slots[..]), cache.slots[..], old(forest), forest, mounts, root, path, mode, dev,
                            ok, oom)
    {
      if FileType(mode) == DIRECTORY || FileType(mode) == REGULAR || FileType(mode) == SYMLINK {
        return false, false;
      }
      ghost var s := cache.slots[..];
      ok, oom := CreateNode(path, mode, dev);
      CreatedKeeps(s, cache.slots[..], old(forest), forest, mounts, root, path, mode, dev, ok, oom, sbs);
    }

    /** Number, mode and device of the node a path names. */
    method Stat(path: string) returns (r: Option<(nat, nat, nat)>, ghost oom: bool)
      requires Valid() && Strtok.NUL !in path && SafeFor(Components(path))
      modifies cache.slots, `vnodes, `asked
      ensures Valid() && vnodes == old(vnodes) && Spent(answers, old(asked), asked, oom)
      ensures exists d :: StatStep(old(cache.slots[..]), cache.slots[..], forest, mounts, root, path, d, r, oom)
    {
      hide CacheParts, VnodeParts, Balanced, FilesOk, ReachedParts, Safe, MountsIn;
      ghost var s := cache.slots[..];
      if root != NO_PARENT { RootIsMounted(s, root, forest, mounts); }
      assert Components(path) + [] == Components(path);
      var d;
      d, oom := Lookup(path, []);
      ReachedKeeps(s, cache.slots[..], root, forest, mounts, path, [], d, oom, sbs);
      if d == -1 {
        assert StatStep(s, cache.slots[..], forest, mounts, root, path, d, None, oom);
        return None, oom;
      }
      ghost var a, oom1 := asked, oom;
      r, oom := StatNode(NodeOf(cache.slots[d]));
      SpentTwice(answers, old(asked), a, asked, oom1, oom, oom);
      StatFound(s, cache.slots[..], forest, mounts, root, path, d, oom1, r, oom);
    }

    method StatNode(l: Loc) returns (r: Option<(nat, nat, nat)>, ghost oom: bool)
      requires VnodesOk(vnodes, forest) && Has(forest, l)
      modifies `vnodes, `asked
      ensures VnodesOk(vnodes, forest) && vnodes == old(vnodes) && Spent(answers, old(asked), asked, oom)
      ensures if r.None? then oom else r.value == (l.ino, NodeAt(forest, l).mode, NodeAt(forest, l).dev)
    {
      var node;
      node, oom := GetOrRead(l);
      if node == None {
        return None, oom;
      }
      ReleaseUndoesAcquire(old(vnodes), forest, Loaded(forest, l));
      r := Some((node.value.loc.ino, node.value.mode, node.value.dev));
      Release(l);
    }

    // -------------------------------------------------------------- open files

    /** A file on vnode `v`, which already holds a reference for it. */
    method FileOpen(v: Vnode, flags: nat, devOpens: bool) returns (r: Option<nat>, ghost oom: bool)
      requires FilesOk(files, nextFile)
      modifies `files, `nextFile, `asked
      ensures FilesOk(files, nextFile) && Spent(answers, old(asked), asked, oom)
      ensures FileStep(old(files), files, old(nextFile), v.loc, v.mode, v.dev, flags, charDevs, devOpens, r, oom)
      ensures oom <==> !Granted(answers, old(asked), 2)
    {
      var ok := KallocListed();
      oom := !ok;
      if !ok {
        return None, oom;
      }
      ghost var was := files;
      var id := nextFile;
      files := files + [OpenFile(id, v.loc, flags, true)];
      nextFile := nextFile + 1;
      var opens := true;
      if FileType(v.mode) == CHAR_DEV {
        opens := v.dev in charDevs && devOpens;
      } else if FileType(v.mode) != REGULAR && FileType(v.mode) != DIRECTORY {
        // The memory is freed, the list keeps the file.
        files := files[|files| - 1 := files[|files| - 1].(live := false)];
        return None, false;
      }
      if !opens {
        assert files[|was|].id == id;
        var k := FileIndex(files, id, 0);
        files := files[..k] + files[k + 1..];
        assert files == was;
        return None, false;
      }
      r := Some(id);
    }

    /** Closes a file; false if it is not open. */
    method Close(id: nat) returns (ok: bool)
      requires Valid() && forall i :: 0 <= i < |files| && files[i].id == id ==> files[i].live
      modifies `files, `vnodes
      ensures Valid()
      ensures ok <==> FileIndex(old(files), id, 0) < |old(files)|
      ensures !ok ==> files == old(files) && vnodes == old(vnodes)
      ensures ok ==> var k := FileIndex(old(files), id, 0);
                     && files == old(files)[..k] + old(files)[k + 1..]
                     && Count(old(vnodes), old(files)[k].loc) >= 1 && vnodes == Dropped(old(vnodes), old(files)[k].loc)
    {
      hide CacheParts, VnodeParts, Balanced, FilesOk, MountsIn, Dropped;
      var k := FileIndex(files, id, 0);
      if k == |files| {
        return false;
      }
      var file := files[k];
      CloseKeepsBalance(vnodes, forest, files, k, nextFile, held);
      files := files[..k] + files[k + 1..];
      Release(file.loc);
      ok := true;
    }

    /** What an open asks of the cache: a safe lookup, and the same for a creation.  The name need
        not be cached, if memory suffices for the lookup that comes first. */
    ghost predicate MayResolve(path: string, flags: nat)
      requires '/' in path
      reads this, cache.slots
    {
      if Flag(flags, CREATE) then
        SafeFor(Steps(path))
        && (KnownPath(cache.slots[..], forest, mounts, root, path) || Plenty(answers, asked))
      else SafeFor(Components(path))
    }

    /** The entry for the path of an open, created if asked to.  `made` says whether it was. */
    method Resolve(path: string, flags: nat, mode: nat) returns (d: int, ghost made: bool, ghost oom: bool)
      requires Valid() && Strtok.NUL !in path && '/' in path && MayResolve(path, flags)
      modifies cache.slots, `vnodes, `asked, `forest
      ensures Valid() && vnodes == old(vnodes) && Spent(answers, old(asked), asked, oom)
      ensures Found(old(cache.slots[..]), cache.slots[..], old(forest), forest, mounts, root, path, flags, mode, d,
                    made, oom)
      ensures d != -1 ==> 0 <= d < cache.slots.Length && Has(forest, NodeOf(cache.slots[d]))
    {
      hide CacheParts, VnodeParts, Balanced, FilesOk, ResolvedParts, ReachedParts, MountsIn, KnownIn, Roomy, Safe;
      ghost var s := cache.slots[..];
      if root != NO_PARENT { RootIsMounted(s, root, forest, mounts); }
      if Flag(flags, CREATE) {
        d, made, oom := FindOrCreate(path, flags, mode);
      } else {
        assert Components(path) + [] == Components(path);
        d, oom := Lookup(path, []);
        made := false;
        FoundOnly(s, cache.slots[..], forest, mounts, root, path, flags, mode, d, oom);
      }
      FoundKeeps(s, cache.slots[..], old(forest), forest, mounts, root, path, flags, mode, d, made, oom, sbs);
    }

    /** An open that may create: the file must not exist if that was asked for. */
    method FindOrCreate(path: string, flags: nat, mode: nat) returns (d: int, ghost made: bool, ghost oom: bool)
      requires Ready() && Strtok.NUL !in path && '/' in path && MayResolve(path, flags) && Flag(flags, CREATE)
      modifies cache.slots, `vnodes, `asked, `forest
      ensures Ready() && vnodes == old(vnodes) && Spent(answers, old(asked), asked, oom)
      ensures Found(old(cache.slots[..]), cache.slots[..], old(forest), forest, mounts, root, path, flags, mode, d,
                    made, oom)
    {
      hide CacheParts, VnodeParts, Resolved, Reached, KnownIn, Safe, Components, Steps, Extra;
      made := false;
      ghost var s := cache.slots[..];
      if root != NO_PARENT { RootIsMounted(s, root, forest, mounts); }
      ExtraSteps(path);
      d, oom := Lookup(path, Extra(path));
      NeverRefused(answers, old(asked), asked, oom);
      FoundFirst(s, cache.slots[..], root, forest, mounts, path, flags, mode, d, oom);
      if d != -1 && Flag(flags, EXCL) {
        d := -1;
      } else if d == -1 {
        ghost var a, oom1 := asked, oom;
        d, made, oom := CreateAndFind(path, flags, mode, s, oom);
        SpentTwice(answers, old(asked), a, asked, oom1, oom, oom || oom1);
        oom := oom || oom1;
      }
    }

    /** Makes the regular file `path` and looks it up again. */
    method CreateAndFind(path: string, flags: nat, mode: nat, ghost s: seq<Dentry>, ghost oom1: bool)
      returns (d: int, ghost made: bool, ghost oom: bool)
      requires Ready() && Strtok.NUL !in path && '/' in path && Flag(flags, CREATE)
      requires CacheOk(s, root, forest, mounts) && (oom1 ==> KnownPath(s, forest, mounts, root, path))
      requires ReachedIn(s, cache.slots[..], forest, mounts, root, path, Extra(path), -1, oom1)
      modifies cache.slots, `vnodes, `asked, `forest
      ensures Ready() && vnodes == old(vnodes) && Spent(answers, old(asked), asked, oom)
      ensures Found(s, cache.slots[..], old(forest), forest, mounts, root, path, flags, mode, d, made, oom || oom1)
    {
      hide Resolved, KnownIn, CacheParts, VnodesOk, CreatedPath, ReachedParts, Safe, Components, Steps, Extra, Found;
      ghost var s1 := cache.slots[..];
      if root != NO_PARENT { RootIsMounted(s, root, forest, mounts); }
      KnownLater(s, s1, root, forest, mounts, path, oom1);
      LostIsSafe(s, s1, forest, mounts, root, path, oom1);
      var ok;
      ok, oom := CreateNode(path, WithType(mode, REGULAR), 0);
      ghost var s2, oom2, a := cache.slots[..], oom, asked;
      if !ok {
        ResolveFails(s, s1, s2, old(forest), forest, mounts, root, path, flags, mode, oom1, oom);
        return -1, false, oom;
      }
      MadeLeads(s1, s2, old(forest), forest, mounts, root, path, WithType(mode, REGULAR), 0, oom);
      d, oom := Lookup(path, []);
      ResolveMade(s, s1, s2, cache.slots[..], old(forest), forest, mounts, root, path, flags, mode, d, oom1, oom2, oom);
      SpentTwice(answers, old(asked), a, asked, oom2, oom, oom);
      made := true;
    }

    /** A file on the node at `l`. */
    method OpenNode(l: Loc, flags: nat, devOpens: bool) returns (r: Option<nat>, ghost oom: bool)
      requires VnodesOk(vnodes, forest) && Accounts(vnodes, files, nextFile, held) && Has(forest, l)
      modifies `vnodes, `files, `nextFile, `asked
      ensures VnodesOk(vnodes, forest) && Accounts(vnodes, files, nextFile, held)
              && Spent(answers, old(asked), asked, oom)
      ensures OpenStep(old(vnodes), vnodes, old(files), files, old(nextFile), forest, l, flags, charDevs, devOpens, r,
                       oom)
      ensures Afforded(answers, old(asked), old(vnodes), forest, l, flags, oom)
    {
      hide VnodesOk, Granted, Index, Balanced, OpenLocs, OpenParts, FileParts, Acquired, Dropped;
      ghost var vs, fs := vnodes, files;
      GrantedBoth(answers, asked, Requests(vs, l), 2);
      var node;
      node, oom := GetOrRead(l);
      if node == None {
        OpenRefused(vs, fs, nextFile, forest, l, flags, charDevs, devOpens, oom);
        return None, oom;
      }
      ghost var a, oom1 := asked, oom;
      var mode := node.value.mode;
      ReleaseUndoesAcquire(vs, forest, Loaded(forest, l));
      if (Flag(flags, READ) && !Flag(mode, USR_READ)) || (Flag(flags, WRITE) && !Flag(mode, USR_WRITE)) {
        OpenRefused(vs, fs, nextFile, forest, l, flags, charDevs, devOpens, false);
        Release(l);
        return None, false;
      }
      r, oom := FileOpen(node.value, flags, devOpens);
      SpentTwice(answers, old(asked), a, asked, oom1, oom, oom);
      OpenGranted(vs, fs, files, old(nextFile), forest, l, flags, charDevs, devOpens, r, oom);
      if r == None {
        Release(l);
      }
      OpenKeepsBalance(old(vnodes), vnodes, old(files), files, old(nextFile), nextFile, held, forest, l, flags,
                       charDevs,
                       devOpens, r, oom);
    }

    /** Opens the file a path names; `devOpens` says whether its device agrees, and `d` is the
        entry the path leads to. */
    method Open(path: string, flags: nat, mode: nat, devOpens: bool)
      returns (r: Option<nat>, ghost d: int, ghost made: bool, ghost noEntry: bool, ghost oom: bool)
      requires Valid() && Strtok.NUL !in path && '/' in path && MayResolve(path, flags)
      modifies cache.slots, `vnodes, `asked, `forest, `files, `nextFile
      ensures Valid() && Spent(answers, old(asked), asked, noEntry || oom)
      ensures Found(old(cache.slots[..]), cache.slots[..], old(forest), forest, mounts, root, path, flags, mode,
                    d, made, noEntry)
      ensures OpenedAt(cache.slots[..], d, old(vnodes), vnodes, old(files), files, old(nextFile), forest, flags,
                       charDevs, devOpens, r, oom)
      ensures d != -1 ==> exists a :: old(asked) <= a <= asked
                                      && Afforded(answers, a, old(vnodes), forest, NodeOf(cache.slots[d]), flags, oom)
      ensures made && d != -1 && NameOf(path) != "" && !oom ==> (r.Some? <==> Permitted(mode, flags))
    {
      hide Resolved, OpenStep, CacheOk, VnodesOk, Accounts, MountsIn, Granted, Permitted, Found;
      ghost var s, f, vs, fs, next := cache.slots[..], forest, vnodes, files, nextFile;
      var entry;
      entry, made, noEntry := Resolve(path, flags, mode);
      d, oom := entry, false;
      if entry == -1 {
        return None, d, made, noEntry, oom;
      }
      ghost var a := asked;
      r, oom := OpenNode(NodeOf(cache.slots[entry]), flags, devOpens);
      SpentTwice(answers, old(asked), a, asked, noEntry, oom, noEntry || oom);
      if made && NameOf(path) != "" && !oom {
        MadeOpens(s, cache.slots[..], f, forest, mounts, root, path, flags, mode, d, noEntry, vs, vnodes, fs, files,
                  next, charDevs, devOpens, r, oom);
      }
    }

    // -------------------------------------------------------------- mounting

    /** Attaches the file system of `dev`: registers its superblock and makes its root. */
    method Attach(dev: nat, fsType: string) returns (ok: bool, ghost oom: bool)
      requires AllPlanted(forest) && Registered(forest, sbs) && Mountable(forest, sbs, fsTypes, dev, fsType)
      modifies `forest, `sbs, `asked
      ensures Registered(forest, sbs) && Spent(answers, old(asked), asked, oom)
      ensures Attached(old(forest), forest, old(sbs), sbs, fsTypes, dev, fsType, ok, oom)
    {
      if fsType !in fsTypes || dev in sbs {
        return false, false;
      }
      ok := KallocListed();
      if !ok {
        return false, true;
      }
      sbs := sbs + {dev};
      if ROOT_INO !in forest[dev].nodes {
        assert Planted(forest[dev]);
        ghost var a := asked;
        ok := KallocListed();
        SpentTwice(answers, old(asked), a, asked, false, !ok, !ok);
        if !ok {
          forest := forest - {dev};
          sbs := sbs - {dev};
          return false, true;
        }
      }
      forest, oom := WithRoot(forest, dev), false;
    }

    /** Mounts `dev` on entry `d`. */
    method MountOn(d: int, dev: nat, fsType: string) returns (ok: bool, ghost oom: bool)
      requires Valid() && Occ(cache.slots[..], d) && d != root && cache.slots[d].mnt.None?
               && Childless(cache.slots[..], d)
      requires Mountable(forest, sbs, fsTypes, dev, fsType)
      modifies cache.slots, `forest, `sbs, `asked, `mounts
      ensures Valid() && Spent(answers, old(asked), asked, oom)
      ensures Attached(old(forest), forest, old(sbs), sbs, fsTypes, dev, fsType, ok, oom)
      ensures MountedOn(old(cache.slots[..]), cache.slots[..], old(forest), forest, old(mounts), mounts, d, dev, ok)
    {
      hide CacheParts, VnodeParts, Balanced, FilesOk, Complete, Grown, Attached, Find, Childless;
      ghost var s := cache.slots[..];
      CacheBasics(s, root, forest, mounts);
      ok, oom := Attach(dev, fsType);
      if !ok {
        cache.Reset(d);
        MountFailed(s, root, old(forest), forest, mounts, sbs, d, dev);
      } else {
        MountDone(s, root, old(forest), mounts, old(sbs), d, dev);
        mounts := mounts[Covered(s[d]) := dev];
        cache.slots[d] := cache.slots[d].(mnt := Some(dev));
        assert cache.slots[..] == s[d := s[d].(mnt := Some(dev))];
      }
      VnodesOkLater(vnodes, old(forest), forest);
    }

    /** Mounts `dev` on "/", when nothing is mounted. */
    method MountRoot(dev: nat, fsType: string) returns (ok: bool, ghost oom: bool)
      requires Valid() && root == NO_PARENT && Mountable(forest, sbs, fsTypes, dev, fsType)
      modifies cache.slots, `forest, `sbs, `asked, `root
      ensures Valid() && mounts == map[] && Spent(answers, old(asked), asked, oom)
      ensures (!ok ==> oom || fsType !in fsTypes || dev in old(sbs) || cache.slots.Length == 0)
      ensures if !ok then root == NO_PARENT && sbs == old(sbs) && Detached(old(forest), forest, dev)
              else RootIs(cache.slots[..], root, old(forest), forest, old(sbs), sbs, fsTypes, dev, fsType)
    {
      hide VnodeParts, Balanced, FilesOk, Complete, Find, Attached;
      ghost var s, named := cache.slots[..], false;
      var d;
      d, named, oom := Request(NO_PARENT, "/");
      GetRoot(s, cache.slots[..], forest, mounts, sbs, named, d);
      if d == -1 {
        return false, oom;
      }
      cache.slots[d] := cache.slots[d].(vno := 1);
      assert cache.slots[..] == s[d := NewEntry(s, d, NO_PARENT, "/").(vno := 1)];
      ghost var a, oom1 := asked, oom;
      ok, oom := AttachRoot(d, dev, fsType, s);
      SpentTwice(answers, old(asked), a, asked, oom1, oom, oom);
    }

    /** Attaches `dev` to the new root entry `d`, or gives its slot back. */
    method AttachRoot(d: nat, dev: nat, fsType: string, ghost s: seq<Dentry>) returns (ok: bool, ghost oom: bool)
      requires CacheOk(s, NO_PARENT, forest, mounts) && VnodesOk(vnodes, forest) && MountsIn(s, NO_PARENT, mounts, sbs)
      requires Registered(forest, sbs) && Mountable(forest, sbs, fsTypes, dev, fsType)
      requires root == NO_PARENT && d < |s| && |s| == cache.slots.Length
      requires cache.slots[..] == s[d := NewEntry(s, d, NO_PARENT, "/").(vno := 1)]
      modifies cache.slots, `forest, `sbs, `asked, `root
      ensures Ready() && MountsIn(cache.slots[..], root, mounts, sbs) && Registered(forest, sbs)
              && Spent(answers, old(asked), asked, oom)
      ensures !ok ==> root == NO_PARENT && sbs == old(sbs) && (oom || fsType !in fsTypes || dev in old(sbs))
                      && Detached(old(forest), forest, dev)
      ensures ok ==> RootIs(cache.slots[..], root, old(forest), forest, old(sbs), sbs, fsTypes, dev, fsType)
    {
      ghost var f := forest;
      ok, oom := Attach(dev, fsType);
      if !ok {
        cache.Reset(d);
        RootRefused(s, f, forest, mounts, sbs, d, dev);
        assert cache.slots[..] == s[d := EMPTY];
      } else {
        cache.slots[d] := cache.slots[d].(mnt := Some(dev));
        root := d;
        RootMounted(s, f, mounts, old(sbs), d, dev);
        assert cache.slots[..] == s[d := NewEntry(s, d, NO_PARENT, "/").(vno := 1, mnt := Some(dev))];
      }
      VnodesOkLater(vnodes, f, forest);
    }

    /** The entry to mount on, and a reference to its node, which is never given back.  `kept`
        says whether it was taken. */
    method FindMountpoint(path: string) returns (d: int, ghost kept: bool, ghost oom: bool)
      requires Valid() && root != NO_PARENT && Strtok.NUL !in path && SafeFor(Components(path))
      requires ChildlessAt(cache.slots[..], root, Components(path))
      modifies cache.slots, `vnodes, `asked, `held
      ensures Valid() && Spent(answers, old(asked), asked, oom)
      ensures Sought(old(cache.slots[..]), cache.slots[..], root, forest, mounts, path, d, kept, oom)
      ensures KeepStep(old(vnodes), vnodes, old(held), held, forest,
                       Walk(forest, mounts, NodeOf(old(cache.slots[..])[root]), Components(path)), kept)
    {
      hide CacheParts, VnodeParts, Balanced, FilesOk, SoughtParts, SoughtSlots, Reached, Walk, Childless, Safe,
        Registered;
      ghost var s := cache.slots[..];
      assert Components(path) + [] == Components(path);
      d, oom := Lookup(path, []);
      kept := false;
      ghost var oom1, a := oom, asked;
      SoughtEntry(s, cache.slots[..], root, forest, mounts, sbs, path, d, oom);
      if d == -1 || cache.slots[d].mnt != None {
        return -1, false, oom;
      }
      var dir;
      dir, kept, oom := HoldDirectory(Covered(cache.slots[d]));
      SoughtDirectory(s, cache.slots[..], root, forest, mounts, path, d, oom1, dir, kept, oom);
      SpentTwice(answers, old(asked), a, asked, oom1, oom, oom);
      if !dir {
        d := -1;
      }
    }

    /** Takes a reference to the node at `l` for good, and says whether it is a directory. */
    method HoldDirectory(l: Loc) returns (dir: bool, ghost kept: bool, ghost oom: bool)
      requires VnodesOk(vnodes, forest) && Accounts(vnodes, files, nextFile, held) && Has(forest, l)
      modifies `vnodes, `asked, `held
      ensures VnodesOk(vnodes, forest) && Accounts(vnodes, files, nextFile, held)
              && Spent(answers, old(asked), asked, oom)
      ensures if dir then kept && DirAt(forest, l) else if kept then !DirAt(forest, l) else oom
      ensures KeepStep(old(vnodes), vnodes, old(held), held, forest, Some(l), kept)
    {
      var node;
      node, oom := GetOrRead(l);
      if node == None {
        return false, false, oom;
      }
      HoldKeepsBalance(old(vnodes), Loaded(forest, l), files, nextFile, held);
      held := held + multiset{l};
      dir, kept := FileType(node.value.mode) == DIRECTORY, true;
    }

    /** Mounts `dev` on the directory a path names, when something is mounted on "/". */
    method MountAt(path: string, dev: nat, fsType: string) returns (ok: bool, ghost kept: bool, ghost oom: bool)
      requires Valid() && root != NO_PARENT && Strtok.NUL !in path && SafeFor(Components(path))
      requires Mountable(forest, sbs, fsTypes, dev, fsType)
      requires ChildlessAt(cache.slots[..], root, Components(path))
      modifies cache.slots, `vnodes, `asked, `held, `forest, `sbs, `mounts
      ensures Valid() && Spent(answers, old(asked), asked, oom)
      ensures MountedAt(old(cache.slots[..]), cache.slots[..], root, old(forest), forest, old(mounts), mounts,
                        old(sbs), sbs,
                        fsTypes, path, dev, fsType, ok, kept, oom)
      ensures KeepStep(old(vnodes), vnodes, old(held), held, old(forest),
                       Walk(old(forest), old(mounts), NodeOf(old(cache.slots[..])[root]), Components(path)), kept)
    {
      hide CacheParts, VnodeParts, Balanced, FilesOk, MountParts, Walk, Complete, MountsIn;
      ghost var s := cache.slots[..];
      var d;
      d, kept, oom := FindMountpoint(path);
      ghost var s1, oom1, a := cache.slots[..], oom, asked;
      if d == -1 {
        MountLost(s, s1, root, forest, mounts, sbs, fsTypes, path, dev, fsType, kept, oom);
        return false, kept, oom;
      }
      ok, oom := MountOn(d, dev, fsType);
      SpentTwice(answers, old(asked), a, asked, oom1, oom, oom);
      MountFound(s, s1, cache.slots[..], root, old(forest), forest, old(mounts), mounts, old(sbs), sbs, fsTypes, path,
                 dev, fsType,
                 d, ok, oom1, oom);
    }

    /** Mounts the file system of device `dev` on a path.  A reference to the mountpoint's node
        is taken on the way and never given back, whether the mount succeeds or not. */
    method Mount(dev: nat, path: string, fsType: string) returns (ok: bool, ghost kept: bool, ghost oom: bool)
      requires Valid() && Strtok.NUL !in path && SafeFor(Components(path))
      requires Mountable(forest, sbs, fsTypes, dev, fsType)
      requires ChildlessAt(cache.slots[..], root, Components(path))
      modifies cache.slots, `vnodes, `asked, `held, `forest, `sbs, `mounts, `root
      ensures Valid() && Spent(answers, old(asked), asked, oom)
      ensures old(root) != NO_PARENT ==> root == old(root)
      ensures old(root) != NO_PARENT && path != "/" ==>
                MountedAt(old(cache.slots[..]), cache.slots[..], root, old(forest), forest, old(mounts), mounts,
                          old(sbs), sbs,
                          fsTypes, path, dev, fsType, ok, kept, oom)
      ensures old(root) == NO_PARENT && ok ==>
                path == "/" && mounts == map[]
                && RootIs(cache.slots[..], root, old(forest), forest, old(sbs), sbs, fsTypes, dev, fsType)
      ensures old(root) == NO_PARENT && path == "/" && !ok ==>
                root == NO_PARENT && sbs == old(sbs) && mounts == old(mounts) && Detached(old(forest), forest, dev)
                && (oom || fsType !in fsTypes || dev in old(sbs) || cache.slots.Length == 0)
      ensures (old(root) == NO_PARENT) != (path == "/") ==> !ok && root == old(root) && forest == old(forest)
                                                                 && mounts == old(mounts) && sbs == old(sbs)
                                                                 && cache.slots[..] == old(cache.slots[..])
      ensures if old(root) == NO_PARENT then vnodes == old(vnodes) && held == old(held)
              else KeepStep(old(vnodes), vnodes, old(held), held, old(forest),
                            Walk(old(forest), old(mounts), NodeOf(old(cache.slots[..])[root]), Components(path)), kept)
    {
      kept, oom := false, false;
      if root == NO_PARENT {
        if path != "/" {
          return false, false, false;
        }
        ok, oom := MountRoot(dev, fsType);
      } else {
        if path == "/" {
          return false, false, false;
        }
        ok, kept, oom := MountAt(path, dev, fsType);
      }
    }
  }
}
