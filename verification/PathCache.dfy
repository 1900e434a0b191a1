/** What ties the dentry cache to the trees, and why cached steps of a path agree with the
    walk over the trees. */
module PathCache {
  import opened Frames
  import opened DentryCache
  import opened MemTree

  ghost predicate Occ(s: seq<Dentry>, i: int) {
    0 <= i < |s| && !s[i].Free()
  }

  /** The node an entry names in the file system it belongs to. */
  function Covered(d: Dentry): Loc {
    Loc(if d.sb.Some? then d.sb.value else 0, d.vno)
  }

  /** The node behind an entry: the root of what is mounted on it, if anything is. */
  function NodeOf(d: Dentry): Loc {
    if d.mnt.Some? then Loc(d.mnt.value, ROOT_INO) else Covered(d)
  }

  /** Entry `i` names, in its parent's directory, the node it says it does. */
  ghost predicate Linked(s: seq<Dentry>, f: Forest, i: nat)
    requires i < |s|
  {
    var d := s[i];
    && d.name.Some? && d.vno != 0 && d.sb.Some? && Occ(s, d.parent)
    && d.sb.value == NodeOf(s[d.parent]).sb
    && Child(f, NodeOf(s[d.parent]), d.name.value) == Some(Covered(d))
  }

  ghost predicate RootEntry(d: Dentry) {
    d.name == Some("/") && d.parent == NO_PARENT && d.mnt.Some? && d.vno == 1 && d.sb == None
  }

  ghost predicate Rooted(s: seq<Dentry>, root: int, m: Mounts) {
    if root == NO_PARENT then m == map[] && forall i :: 0 <= i < |s| ==> s[i].Free()
    else Occ(s, root) && RootEntry(s[root])
  }

  ghost predicate Links(s: seq<Dentry>, root: int, f: Forest) {
    forall i {:trigger Linked(s, f, i)} :: Occ(s, i) && i != root ==> Linked(s, f, i)
  }

  /** No two entries name the same node. */
  ghost predicate Separate(s: seq<Dentry>, root: int) {
    forall i, j {:trigger Covered(s[i]), Covered(s[j])} ::
      Occ(s, i) && Occ(s, j) && i != root && j != root && i != j ==> Covered(s[i]) != Covered(s[j])
  }

  /** Mountpoints hold distinct file systems that have a root directory. */
  ghost predicate MountRoots(s: seq<Dentry>, f: Forest) {
    && (forall i {:trigger NodeOf(s[i])} :: Occ(s, i) && s[i].mnt.Some? ==> DirAt(f, NodeOf(s[i])))
    && (forall i, j {:trigger s[i].mnt, s[j].mnt} ::
          Occ(s, i) && Occ(s, j) && i != j && s[i].mnt.Some? ==> s[j].mnt != s[i].mnt)
  }

  /** Mountpoints are the places `m` covers, and cached while it covers them. */
  ghost predicate MountPlaces(s: seq<Dentry>, root: int, m: Mounts) {
    && (forall i {:trigger NodeOf(s[i])} :: Occ(s, i) && i != root ==> NodeOf(s[i]) == Cross(m, Covered(s[i])))
    && (forall l :: l in m ==> Pins(s, root, l))
  }

  ghost predicate Pins(s: seq<Dentry>, root: int, l: Loc) {
    exists i :: Occ(s, i) && i != root && Covered(s[i]) == l
  }

  /** The cache says nothing the trees do not.  (An equation, so that the verifier carries
      the parts as one fact.) */
  ghost predicate CacheOk(s: seq<Dentry>, root: int, f: Forest, m: Mounts) {
    CacheParts(s, root, f, m) == true
  }

  ghost predicate CacheParts(s: seq<Dentry>, root: int, f: Forest, m: Mounts) {
    && AllPlanted(f) && UniqueKeys(s) && Counted(s)
    && Rooted(s, root, m) && Links(s, root, f) && Separate(s, root)
    && MountRoots(s, f) && MountPlaces(s, root, m)
  }

  /** Every name in a cached directory is cached too. */
  ghost predicate Complete(s: seq<Dentry>, f: Forest) {
    forall p, n {:trigger Find(s, p, n, 0)} :: Occ(s, p) && Child(f, NodeOf(s[p]), n).Some? ==> Find(s, p, n, 0) < |s|
  }

  lemma {:induction false} CacheBasics(s: seq<Dentry>, root: int, f: Forest, m: Mounts)
    requires CacheOk(s, root, f, m)
    ensures AllPlanted(f) && UniqueKeys(s) && Counted(s)
  {}

  lemma {:induction false} RootIsMounted(s: seq<Dentry>, root: int, f: Forest, m: Mounts)
    requires CacheOk(s, root, f, m) && root != NO_PARENT
    ensures Occ(s, root) && s[root].mnt.Some? && DirAt(f, NodeOf(s[root]))
  {}

  // ---------------------------------------------------------------- steps of a walk

  lemma {:induction false} ChildUnique(f: Forest, a: Loc, x: string, b: Loc, y: string)
    requires AllPlanted(f) && Child(f, a, x).Some? && Child(f, a, x) == Child(f, b, y)
    ensures a == b && x == y
  {
    assert Planted(f[a.sb]);
    var i := EntryIndex(NodeAt(f, a).entries, x, 0);
    var j := EntryIndex(NodeAt(f, b).entries, y, 0);
    assert f[a.sb].nodes[a.ino].entries[i].ino == f[b.sb].nodes[b.ino].entries[j].ino;
  }

  lemma {:induction false} ChildExists(f: Forest, a: Loc, x: string)
    requires AllPlanted(f) && Child(f, a, x).Some?
    ensures Has(f, Child(f, a, x).value) && Child(f, a, x).value.ino > ROOT_INO && Child(f, a, x).value.sb == a.sb
  {
    assert Planted(f[a.sb]);
    var i := EntryIndex(NodeAt(f, a).entries, x, 0);
    assert f[a.sb].nodes[a.ino].entries[i].ino > ROOT_INO;
  }

  /** Different entries stand for different nodes. */
  lemma {:induction false} NodesApart(s: seq<Dentry>, root: int, f: Forest, m: Mounts, i: int, j: int)
    requires CacheOk(s, root, f, m) && Occ(s, i) && Occ(s, j) && i != j
    ensures NodeOf(s[i]) != NodeOf(s[j])
  {
    if s[i].mnt.None? {
      assert Linked(s, f, i);
      ChildExists(f, NodeOf(s[s[i].parent]), s[i].name.value);
    }
    if s[j].mnt.None? {
      assert Linked(s, f, j);
      ChildExists(f, NodeOf(s[s[j].parent]), s[j].name.value);
    }
  }

  /** A hit is the step the walk takes. */
  lemma {:induction false} HitAgrees(s: seq<Dentry>, root: int, f: Forest, m: Mounts, p: int, n: string)
    requires CacheOk(s, root, f, m) && Occ(s, p) && Find(s, p, n, 0) < |s|
    ensures var k := Find(s, p, n, 0);
            && Occ(s, k) && k != root && s[k].vno != 0 && Linked(s, f, k)
            && Child(f, NodeOf(s[p]), n) == Some(Covered(s[k]))
            && NodeOf(s[k]) == Cross(m, Covered(s[k]))
  {
    var k := Find(s, p, n, 0);
    assert Occ(s, k) && s[k].Is(p, n);
    assert Linked(s, f, k);
  }

  /** The caches differ in use counts, and in what free slots hold, only. */
  ghost predicate SameBut(s: seq<Dentry>, s': seq<Dentry>) {
    |s'| == |s| && forall i :: 0 <= i < |s| ==>
      if s[i].Free() then s'[i].Free() else s'[i] == s[i].(count := s'[i].count)
  }

  /** Counting uses changes nothing else. */
  lemma {:induction false} CountKeeps(s: seq<Dentry>, root: int, f: Forest, m: Mounts, k: nat, c: nat)
    requires CacheOk(s, root, f, m) && Occ(s, k) && c >= 1
    ensures CacheOk(s[k := s[k].(count := c)], root, f, m)
    ensures Complete(s, f) ==> Complete(s[k := s[k].(count := c)], f)
  {
    var s' := s[k := s[k].(count := c)];
    SameLinks(s, s', root, f);
    SameRest(s, s', root, f, m);
    if Complete(s, f) {
      SameComplete(s, s', f);
    }
  }

  lemma {:induction false} SameLinks(s: seq<Dentry>, s': seq<Dentry>, root: int, f: Forest)
    requires Links(s, root, f) && SameBut(s, s')
    ensures Links(s', root, f)
  {
    forall i | Occ(s', i) && i != root
      ensures Linked(s', f, i)
    {
      assert Occ(s, i) && Linked(s, f, i);
      assert Occ(s', s[i].parent);
    }
  }

  lemma {:induction false} SameRest(s: seq<Dentry>, s': seq<Dentry>, root: int, f: Forest, m: Mounts)
    requires SameBut(s, s') && Rooted(s, root, m) && Separate(s, root) && UniqueKeys(s)
    requires MountRoots(s, f) && MountPlaces(s, root, m)
    ensures Rooted(s', root, m) && Separate(s', root) && UniqueKeys(s')
    ensures MountRoots(s', f) && MountPlaces(s', root, m)
  {
    assert forall i :: Occ(s', i) <==> Occ(s, i);
    assert forall i {:trigger Covered(s'[i])} {:trigger NodeOf(s'[i])} :: Occ(s, i) ==>
        Covered(s'[i]) == Covered(s[i]) && NodeOf(s'[i]) == NodeOf(s[i]);
    PinsKept(s, s', root, m);
  }

  lemma {:induction false} SameComplete(s: seq<Dentry>, s': seq<Dentry>, f: Forest)
    requires Complete(s, f) && SameBut(s, s')
    ensures Complete(s', f)
  {
    forall p, n | Occ(s', p) && Child(f, NodeOf(s'[p]), n).Some?
      ensures Find(s', p, n, 0) < |s'|
    {
      assert Occ(s, p) && Find(s, p, n, 0) < |s|;
      assert s'[Find(s, p, n, 0)].Is(p, n);
    }
  }

  lemma {:induction false} PinsKept(s: seq<Dentry>, s': seq<Dentry>, root: int, m: Mounts)
    requires |s| == |s'| && forall i :: Occ(s, i) ==> Occ(s', i) && Covered(s'[i]) == Covered(s[i])
    requires forall l :: l in m ==> Pins(s, root, l)
    ensures forall l :: l in m ==> Pins(s', root, l)
  {
    forall l | l in m
      ensures Pins(s', root, l)
    {
      var i :| Occ(s, i) && i != root && Covered(s[i]) == l;
      assert Occ(s', i);
    }
  }

  /** A child that is not cached is behind no other entry and under no mount. */
  lemma {:induction false} UncachedChild(s: seq<Dentry>, root: int, f: Forest, m: Mounts, p: int, n: string)
    requires CacheOk(s, root, f, m) && Occ(s, p) && Find(s, p, n, 0) == |s| && Child(f, NodeOf(s[p]), n).Some?
    ensures var l := Child(f, NodeOf(s[p]), n).value;
            && (forall j :: Occ(s, j) && j != root ==> Covered(s[j]) != l)
            && l !in m && l.ino > ROOT_INO && l.sb == NodeOf(s[p]).sb
  {
    var l := Child(f, NodeOf(s[p]), n).value;
    ChildExists(f, NodeOf(s[p]), n);
    forall j | Occ(s, j) && j != root
      ensures Covered(s[j]) != l
    {
      assert Linked(s, f, j) && !s[j].Is(p, n);
      if Covered(s[j]) == l {
        ChildUnique(f, NodeOf(s[p]), n, NodeOf(s[s[j].parent]), s[j].name.value);
        if s[j].parent != p { NodesApart(s, root, f, m, p, s[j].parent); }
      }
    }
  }

  /** Entering a child in a free slot keeps the cache right. */
  lemma {:induction false} EnterKeeps(s: seq<Dentry>, root: int, f: Forest, m: Mounts, p: int, n: string, v: nat)
    requires CacheOk(s, root, f, m) && Occ(s, p) && Find(s, p, n, 0) == |s| && Child(f, NodeOf(s[p]), n).Some?
    requires v < |s| && s[v].Free()
    ensures var l := Child(f, NodeOf(s[p]), n).value;
            var s' := s[v := NewEntry(s, v, p, n).(vno := l.ino)];
            CacheOk(s', root, f, m) && Covered(s'[v]) == l && NodeOf(s'[v]) == Cross(m, l)
  {
    var l := Child(f, NodeOf(s[p]), n).value;
    UncachedChild(s, root, f, m, p, n);
    NewEntryBelongs(s, root, f, m, v, p, n);
    var d := NewEntry(s, v, p, n).(vno := l.ino);
    var s' := s[v := d];
    AddedLinks(s, root, f, v, d);
    AddedKeys(s, v, d, p, n);
    AddedRest(s, root, f, m, v, d);
  }

  lemma {:induction false} AddedRest(s: seq<Dentry>, root: int, f: Forest, m: Mounts, v: nat, d: Dentry)
    requires v < |s| && s[v].Free() && !d.Free() && d.mnt.None? && Covered(d) !in m && Occ(s, root)
    requires Rooted(s, root, m) && Separate(s, root) && MountRoots(s, f) && MountPlaces(s, root, m)
    requires forall j :: Occ(s, j) && j != root ==> Covered(s[j]) != Covered(d)
    ensures var s' := s[v := d];
            Rooted(s', root, m) && Separate(s', root) && MountRoots(s', f) && MountPlaces(s', root, m)
  {
    var s' := s[v := d];
    assert forall i :: Occ(s', i) <==> Occ(s, i) || i == v;
    PinsKept(s, s', root, m);
  }

  lemma {:induction false} AddedLinks(s: seq<Dentry>, root: int, f: Forest, v: nat, d: Dentry)
    requires Links(s, root, f) && v < |s| && s[v].Free()
    requires d.name.Some? && d.vno != 0 && d.sb.Some? && Occ(s, d.parent) && d.sb.value == NodeOf(s[d.parent]).sb
    requires Child(f, NodeOf(s[d.parent]), d.name.value) == Some(Covered(d))
    ensures Links(s[v := d], root, f)
  {
    var s' := s[v := d];
    forall i | Occ(s', i) && i != root
      ensures Linked(s', f, i)
    {
      if i != v { assert Linked(s, f, i); }
    }
  }

  lemma {:induction false} AddedKeys(s: seq<Dentry>, v: nat, d: Dentry, p: int, n: string)
    requires UniqueKeys(s) && v < |s| && d.name == Some(n) && d.parent == p && Find(s, p, n, 0) == |s|
    ensures UniqueKeys(s[v := d])
  {
    forall i | 0 <= i < |s| && !s[i].Free()
      ensures !(s[i].name == d.name && s[i].parent == d.parent)
    {
      assert !s[i].Is(p, n);
    }
  }

  /** A new entry gets its parent's file system. */
  lemma {:induction false} NewEntryBelongs(s: seq<Dentry>, root: int, f: Forest, m: Mounts, v: nat, p: int, n: string)
    requires CacheOk(s, root, f, m) && Occ(s, p) && v < |s| && s[v].Free()
    ensures NewEntry(s, v, p, n) == Dentry(Some(n), 0, p, Some(NodeOf(s[p]).sb), None, 1)
  {
    if p != root { assert Linked(s, f, p); }
  }

  // ---------------------------------------------------------------- growing the trees

  /** A tree that grew by a name nobody had still agrees with the cache. */
  lemma {:induction false} MadeKeeps(s: seq<Dentry>, root: int, f: Forest, m: Mounts, dir: Loc, n: string, mode: nat,
                                     dev: nat)
    requires CacheOk(s, root, f, m) && DirAt(f, dir)
    ensures CacheOk(s, root, Made(f, dir, n, mode, dev), m)
  {
    var f' := Made(f, dir, n, mode, dev);
    MadePlanted(f, dir, n, mode, dev);
    forall i | Occ(s, i) && i != root
      ensures Linked(s, f', i)
    {
      assert Linked(s, f, i);
      MadeChildren(f, dir, n, mode, dev, NodeOf(s[s[i].parent]), s[i].name.value);
    }
    forall i | Occ(s, i) && s[i].mnt.Some?
      ensures DirAt(f', NodeOf(s[i]))
    {
      MadeChildren(f, dir, n, mode, dev, NodeOf(s[i]), "");
    }
  }

  lemma {:induction false} SkippedKeeps(s: seq<Dentry>, root: int, f: Forest, m: Mounts, sb: nat)
    requires CacheOk(s, root, f, m) && sb in f
    ensures CacheOk(s, root, Skipped(f, sb), m)
    ensures Complete(s, f) ==> Complete(s, Skipped(f, sb))
  {
    var f' := Skipped(f, sb);
    SkippedPlanted(f, sb);
    forall i | Occ(s, i) && i != root
      ensures Linked(s, f', i)
    {
      assert Linked(s, f, i);
    }
  }

  /** Wiping a slot that is free changes nothing. */
  lemma {:induction false} WipeKeeps(s: seq<Dentry>, root: int, f: Forest, m: Mounts, v: nat)
    requires CacheOk(s, root, f, m) && v < |s| && s[v].Free()
    ensures CacheOk(s[v := EMPTY], root, f, m)
    ensures Complete(s, f) ==> Complete(s[v := EMPTY], f)
  {
    var s' := s[v := EMPTY];
    SameLinks(s, s', root, f);
    SameRest(s, s', root, f, m);
    if Complete(s, f) {
      SameComplete(s, s', f);
    }
  }

  /** Making a node under a name that is not cached, in a complete cache, and entering it
      keeps the cache complete: the new name was nobody's, so names stay unique. */
  lemma {:induction false} MadeComplete(s: seq<Dentry>, root: int, f: Forest, m: Mounts, p: int, n: string, v: nat,
                                        mode: nat, dev: nat)
    requires CacheOk(s, root, f, m) && Complete(s, f) && Occ(s, p) && Find(s, p, n, 0) == |s|
    requires DirAt(f, NodeOf(s[p])) && v < |s| && s[v].Free()
    ensures Child(f, NodeOf(s[p]), n).None?
    ensures var dir := NodeOf(s[p]);
            var f' := Made(f, dir, n, mode, dev);
            var s' := s[v := NewEntry(s, v, p, n).(vno := f[dir.sb].lastIno)];
            && CacheOk(s', root, f', m) && Complete(s', f') && (AllUnique(f) ==> AllUnique(f'))
            && Occ(s', v) && NodeOf(s'[v]) == Loc(dir.sb, f[dir.sb].lastIno)
  {
    var dir := NodeOf(s[p]);
    var f' := Made(f, dir, n, mode, dev);
    MadeKeeps(s, root, f, m, dir, n, mode, dev);
    MadeChildren(f, dir, n, mode, dev, dir, n);
    EnterKeeps(s, root, f', m, p, n, v);
    UncachedChild(s, root, f', m, p, n);
    MadeUniqueNames(f, dir, n, mode, dev);
    var s' := s[v := NewEntry(s, v, p, n).(vno := f[dir.sb].lastIno)];
    forall q, x | Occ(s', q) && Child(f', NodeOf(s'[q]), x).Some?
      ensures Find(s', q, x, 0) < |s'|
    {
      MadeCached(s, root, f, m, p, n, v, mode, dev, q, x);
    }
  }

  lemma {:induction false} MadeUniqueNames(f: Forest, dir: Loc, n: string, mode: nat, dev: nat)
    requires AllPlanted(f) && DirAt(f, dir) && Child(f, dir, n).None?
    ensures AllUnique(f) ==> AllUnique(Made(f, dir, n, mode, dev))
  {
    if AllUnique(f) { MadeUnique(f, dir, n, mode, dev); }
  }

  lemma {:induction false} MadeCached(s: seq<Dentry>, root: int, f: Forest, m: Mounts, p: int, n: string, v: nat,
                                      mode: nat, dev: nat, q: int, x: string)
    requires CacheOk(s, root, f, m) && Complete(s, f) && Occ(s, p) && Find(s, p, n, 0) == |s|
    requires DirAt(f, NodeOf(s[p])) && v < |s| && s[v].Free()
    requires var dir := NodeOf(s[p]);
             var s' := s[v := NewEntry(s, v, p, n).(vno := f[dir.sb].lastIno)];
             Occ(s', q) && Child(Made(f, dir, n, mode, dev), NodeOf(s'[q]), x).Some?
    ensures var s' := s[v := NewEntry(s, v, p, n).(vno := f[NodeOf(s[p]).sb].lastIno)];
            Find(s', q, x, 0) < |s|
  {
    var dir := NodeOf(s[p]);
    var s' := s[v := NewEntry(s, v, p, n).(vno := f[dir.sb].lastIno)];
    NewEntryBelongs(s, root, f, m, v, p, n);
    assert NodeOf(s'[v]) == Loc(dir.sb, f[dir.sb].lastIno);
    if q != v {
      assert Occ(s, q);
      NodeExists(s, root, f, m, q);
      MadeChildren(f, dir, n, mode, dev, NodeOf(s[q]), x);
      if q == p && x == n {
        assert s'[v].Is(q, x);
      } else {
        if NodeOf(s[q]) == dir && q != p { NodesApart(s, root, f, m, p, q); }
        MadeNoOthers(f, dir, n, mode, dev, NodeOf(s[q]), x);
        var k := Find(s, q, x, 0);
        assert s'[k].Is(q, x);
      }
    }
  }

  /** Making a node adds no other name. */
  lemma {:induction false} MadeNoOthers(f: Forest, dir: Loc, n: string, mode: nat, dev: nat, at: Loc, x: string)
    requires AllPlanted(f) && DirAt(f, dir) && Has(f, at) && (at != dir || x != n)
    ensures Child(Made(f, dir, n, mode, dev), at, x) == Child(f, at, x)
  {
    assert Planted(f[dir.sb]) && f[dir.sb].lastIno !in f[dir.sb].nodes;
    if at == dir {
      AppendIndex(NodeAt(f, dir).entries, Entry(n, f[dir.sb].lastIno), x, 0);
    }
  }

  /** The node behind an entry exists. */
  lemma {:induction false} NodeExists(s: seq<Dentry>, root: int, f: Forest, m: Mounts, i: int)
    requires CacheOk(s, root, f, m) && Occ(s, i)
    ensures Has(f, NodeOf(s[i]))
  {
    if s[i].mnt.None? {
      assert Linked(s, f, i);
      ChildExists(f, NodeOf(s[s[i].parent]), s[i].name.value);
    }
  }

  // ---------------------------------------------------------------- room in the cache

  /** Cached steps that a lookup of `comps` from entry `p` will miss. */
  ghost function Misses(s: seq<Dentry>, p: int, comps: seq<string>): (n: nat)
    ensures n <= |comps|
    decreases |comps|
  {
    if comps == [] then 0
    else if Find(s, p, comps[0], 0) < |s| then Misses(s, Find(s, p, comps[0], 0), comps[1..])
    else |comps|
  }

  ghost function FreeSlots(s: seq<Dentry>): (n: nat)
    ensures n > 0 <==> exists i :: 0 <= i < |s| && s[i].Free()
  {
    if s == [] then 0
    else
      var n := FreeSlots(s[..|s| - 1]);
      if s[|s| - 1].Free() then
        assert s[|s| - 1].Free();
        n + 1
      else
        assert forall i :: 0 <= i < |s| - 1 ==> s[..|s| - 1][i] == s[i];
        n
  }

  lemma {:induction false} FreeSlotsUpdate(s: seq<Dentry>, i: nat, d: Dentry)
    requires i < |s|
    ensures FreeSlots(s[i := d]) + (if s[i].Free() then 1 else 0) == FreeSlots(s) + if d.Free() then 1 else 0
  {
    var n := |s| - 1;
    if i < n {
      FreeSlotsUpdate(s[..n], i, d);
      assert s[i := d][..n] == s[..n][i := d];
    } else {
      assert s[i := d][..n] == s[..n];
    }
  }

  lemma {:induction false} SameFreeSlots(s: seq<Dentry>, s': seq<Dentry>)
    requires SameBut(s, s')
    ensures FreeSlots(s') == FreeSlots(s)
  {
    if s != [] {
      SameFreeSlots(s[..|s| - 1], s'[..|s| - 1]);
    }
  }

  lemma {:induction false} SameFind(s: seq<Dentry>, s': seq<Dentry>, p: int, n: string, i: nat)
    requires SameBut(s, s') && i <= |s|
    ensures Find(s', p, n, i) == Find(s, p, n, i)
    decreases |s| - i
  {
    if i < |s| && !s[i].Is(p, n) {
      SameFind(s, s', p, n, i + 1);
    }
  }

  lemma {:induction false} SameMisses(s: seq<Dentry>, s': seq<Dentry>, p: int, comps: seq<string>)
    requires SameBut(s, s')
    ensures Misses(s', p, comps) == Misses(s, p, comps)
    decreases |comps|
  {
    if comps != [] {
      SameFind(s, s', p, comps[0], 0);
      if Find(s, p, comps[0], 0) < |s| {
        SameMisses(s, s', Find(s, p, comps[0], 0), comps[1..]);
      }
    }
  }

  // ---------------------------------------------------------------- one step of a lookup

  /** The entries of `s` are still there in `s'` and mean the same. */
  ghost predicate Kept(s: seq<Dentry>, s': seq<Dentry>) {
    |s'| == |s| && forall i :: Occ(s, i) ==> Occ(s', i) && s'[i] == s[i].(count := s'[i].count)
  }

  /** No entry is in entry `p`. */
  ghost predicate Childless(s: seq<Dentry>, p: int) {
    forall i :: Occ(s, i) ==> s[i].parent != p
  }

  /** What one step of a path makes of the slots `s`: no entry is lost, the answer `k` is the
      child the trees name, -1 means there is none or memory ran out, and a slot is used only
      for a child that was not cached. */
  ghost predicate Stepped(s: seq<Dentry>, s': seq<Dentry>, f: Forest, m: Mounts, p: int, n: string, k: int, oom: bool)
    requires Occ(s, p)
  {
    StepParts(s, s', f, m, p, n, k, oom) == true
  }

  ghost predicate StepParts(s: seq<Dentry>, s': seq<Dentry>, f: Forest, m: Mounts, p: int, n: string, k: int, oom: bool)
    requires Occ(s, p)
  {
    var child := Child(f, NodeOf(s[p]), n);
    && Kept(s, s') && (Complete(s, f) ==> Complete(s', f))
    && (k == -1 ==> (oom || child.None?) && SameBut(s, s'))
    && (k != -1 ==> Occ(s', k) && child.Some? && NodeOf(s'[k]) == Cross(m, child.value))
    && (k != -1 ==> if Find(s, p, n, 0) < |s| then SameBut(s, s') && k == Find(s, p, n, 0)
                    else FreeSlots(s') + 1 == FreeSlots(s) && Childless(s', k) && s'[k].Is(p, n))
  }

  lemma {:induction false} StepFails(s: seq<Dentry>, root: int, f: Forest, m: Mounts, p: int, n: string, v: nat,
                                     oom: bool)
    requires CacheOk(s, root, f, m) && Occ(s, p) && v < |s| && s[v].Free()
    requires oom || Child(f, NodeOf(s[p]), n).None?
    ensures CacheOk(s[v := EMPTY], root, f, m) && Stepped(s, s[v := EMPTY], f, m, p, n, -1, oom)
  {
    WipeKeeps(s, root, f, m, v);
  }

  lemma {:induction false} StepHits(s: seq<Dentry>, root: int, f: Forest, m: Mounts, p: int, n: string)
    requires CacheOk(s, root, f, m) && Occ(s, p) && Find(s, p, n, 0) < |s|
    ensures var k := Find(s, p, n, 0);
            var s' := s[k := s[k].(count := s[k].count + 1)];
            CacheOk(s', root, f, m) && Stepped(s, s', f, m, p, n, k, false) && s'[k].vno != 0
  {
    hide CacheParts, StepParts;
    var k := Find(s, p, n, 0);
    HitAgrees(s, root, f, m, p, n);
    CountKeeps(s, root, f, m, k, s[k].count + 1);
    HitSteps(s, f, m, p, n, k);
  }

  lemma {:induction false} HitSteps(s: seq<Dentry>, f: Forest, m: Mounts, p: int, n: string, k: nat)
    requires Occ(s, p) && Occ(s, k) && k == Find(s, p, n, 0)
    requires Child(f, NodeOf(s[p]), n).Some? && NodeOf(s[k]) == Cross(m, Child(f, NodeOf(s[p]), n).value)
    ensures Stepped(s, s[k := s[k].(count := s[k].count + 1)], f, m, p, n, k, false)
  {
    if Complete(s, f) {
      SameComplete(s, s[k := s[k].(count := s[k].count + 1)], f);
    }
  }

  lemma {:induction false} StepEnters(s: seq<Dentry>, root: int, f: Forest, m: Mounts, p: int, n: string, v: nat,
                                      ino: nat, oom: bool)
    requires CacheOk(s, root, f, m) && Occ(s, p) && Find(s, p, n, 0) == |s| && v < |s| && s[v].Free()
    requires Child(f, NodeOf(s[p]), n) == Some(Loc(NodeOf(s[p]).sb, ino))
    ensures var s' := s[v := NewEntry(s, v, p, n).(vno := ino)];
            CacheOk(s', root, f, m) && Stepped(s, s', f, m, p, n, v, oom)
  {
    EnterKeeps(s, root, f, m, p, n, v);
    FreeIsChildless(s, root, f, m, v);
    NewEntryBelongs(s, root, f, m, v, p, n);
    AddedSteps(s, f, m, p, n, v, NewEntry(s, v, p, n).(vno := ino), oom);
  }

  lemma {:induction false} AddedSteps(s: seq<Dentry>, f: Forest, m: Mounts, p: int, n: string, v: nat, d: Dentry,
                                      oom: bool)
    requires Occ(s, p) && Find(s, p, n, 0) == |s| && v < |s| && s[v].Free() && Childless(s, v) && p != v
    requires d.Is(p, n) && Child(f, NodeOf(s[p]), n).Some? && NodeOf(d) == Cross(m, Child(f, NodeOf(s[p]), n).value)
    ensures Stepped(s, s[v := d], f, m, p, n, v, oom)
  {
    FreeSlotsUpdate(s, v, d);
    MissNotComplete(s, f, p, n);
  }

  /** Entries lie in entries, so a free slot has no children. */
  lemma {:induction false} FreeIsChildless(s: seq<Dentry>, root: int, f: Forest, m: Mounts, v: nat)
    requires CacheOk(s, root, f, m) && v < |s| && s[v].Free()
    ensures Childless(s, v)
  {
    forall i | Occ(s, i)
      ensures s[i].parent != v
    {
      if i != root { assert Linked(s, f, i); }
    }
  }

  /** Nothing is cached below a node without entries. */
  lemma {:induction false} EmptyIsChildless(s: seq<Dentry>, root: int, f: Forest, m: Mounts, d: int)
    requires CacheOk(s, root, f, m) && Occ(s, d) && Has(f, NodeOf(s[d])) && NodeAt(f, NodeOf(s[d])).entries == []
    ensures Childless(s, d)
  {
    forall i | Occ(s, i)
      ensures s[i].parent != d
    {
      if i != root { assert Linked(s, f, i); }
    }
  }

  /** A child that is not cached belies a complete cache. */
  lemma {:induction false} MissNotComplete(s: seq<Dentry>, f: Forest, p: int, n: string)
    requires Occ(s, p) && Find(s, p, n, 0) == |s| && Child(f, NodeOf(s[p]), n).Some?
    ensures !Complete(s, f)
  {}
}
