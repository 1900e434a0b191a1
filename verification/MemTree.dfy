/** The in-memory file systems as a value, and the uncached walk over them that a path
    names.  Nodes are numbered within the file system of a device; a directory lists its
    entries in the order they were made. */
module MemTree {
  import opened Frames

  const ROOT_INO: nat := 1

  // The type is the upper four bits of a 16-bit mode.
  const DIRECTORY: nat := 0x4
  const REGULAR: nat := 0x8
  const CHAR_DEV: nat := 0x2
  const BLOCK_DEV: nat := 0x6
  const FIFO: nat := 0x1
  const SOCKET: nat := 0xc
  const SYMLINK: nat := 0xa
  const MODE_755: nat := 0x1ed

  function FileType(mode: nat): nat {
    mode / 0x1000 % 0x10
  }

  /** The type is the fourth digit of the mode to the base 16. */
  lemma {:induction false} TypeIsDigit(permissions: nat, t: nat, high: nat)
    requires permissions < 0x1000 && t < 0x10
    ensures FileType(permissions + 0x1000 * t + 0x1_0000 * high) == t
  {}

  datatype Entry = Entry(name: string, ino: nat)

  datatype Node = Node(mode: nat, dev: nat, entries: seq<Entry>) {
    predicate IsDir() {
      FileType(mode) == DIRECTORY
    }
  }

  datatype Super = Super(nodes: map<nat, Node>, lastIno: nat)

  // All file systems, by device.
  type Forest = map<nat, Super>

  datatype Loc = Loc(sb: nat, ino: nat)

  predicate Has(f: Forest, l: Loc) {
    l.sb in f && l.ino in f[l.sb].nodes
  }

  function NodeAt(f: Forest, l: Loc): Node
    requires Has(f, l)
  {
    f[l.sb].nodes[l.ino]
  }

  predicate DirAt(f: Forest, l: Loc) {
    Has(f, l) && NodeAt(f, l).IsDir()
  }

  /** Position of the first entry called `n`, from `i` on. */
  function EntryIndex(es: seq<Entry>, n: string, i: nat): (k: nat)
    requires i <= |es|
    ensures i <= k <= |es|
    ensures k < |es| ==> es[k].name == n
    ensures forall j :: i <= j < k ==> es[j].name != n
    decreases |es| - i
  {
    if i == |es| || es[i].name == n then i else EntryIndex(es, n, i + 1)
  }

  /** What `n` names in directory `dir`. */
  function Child(f: Forest, dir: Loc, n: string): Option<Loc> {
    if !DirAt(f, dir) then None
    else
      var es := NodeAt(f, dir).entries;
      var k := EntryIndex(es, n, 0);
      if k == |es| then None else Some(Loc(dir.sb, es[k].ino))
  }

  // Mounted file systems, by the place they cover.
  type Mounts = map<Loc, nat>

  function Cross(m: Mounts, l: Loc): Loc {
    if l in m then Loc(m[l], ROOT_INO) else l
  }

  /** The node a path leads to from `at`, through the trees themselves. */
  function Walk(f: Forest, m: Mounts, at: Loc, comps: seq<string>): Option<Loc>
    decreases |comps|
  {
    if comps == [] then Some(at)
    else
      match Child(f, at, comps[0])
      case None => None
      case Some(l) => Walk(f, m, Cross(m, l), comps[1..])
  }

  // ---------------------------------------------------------------- well-formed trees

  ghost predicate UniqueNames(es: seq<Entry>) {
    forall i, j :: 0 <= i < j < |es| ==> es[i].name != es[j].name
  }

  /** Every number named in a directory is a node made later than the root. */
  ghost predicate Closed(s: Super) {
    forall d, k {:trigger s.nodes[d].entries[k]} :: d in s.nodes && 0 <= k < |s.nodes[d].entries| ==>
      s.nodes[d].entries[k].ino in s.nodes && s.nodes[d].entries[k].ino > ROOT_INO
  }

  /** No node is named twice: there are no hard links. */
  ghost predicate Linear(s: Super) {
    forall d, k, d', k' {:trigger s.nodes[d].entries[k], s.nodes[d'].entries[k']} ::
      (d in s.nodes && 0 <= k < |s.nodes[d].entries| && d' in s.nodes && 0 <= k' < |s.nodes[d'].entries|
       && s.nodes[d].entries[k].ino == s.nodes[d'].entries[k'].ino) ==> d == d' && k == k'
  }

  /** A file system is empty, or has its root and numbers below the next one. */
  ghost predicate Planted(s: Super) {
    && (s.nodes == map[] || (ROOT_INO in s.nodes && s.nodes[ROOT_INO].IsDir() && s.lastIno >= 2))
    && (forall i :: i in s.nodes ==> ROOT_INO <= i < s.lastIno)
    && Closed(s) && Linear(s)
  }

  ghost predicate AllPlanted(f: Forest) {
    forall sb :: sb in f ==> Planted(f[sb])
  }

  /** Names are unique in every directory. */
  ghost predicate AllUnique(f: Forest) {
    forall sb, d :: sb in f && d in f[sb].nodes ==> UniqueNames(f[sb].nodes[d].entries)
  }

  // ---------------------------------------------------------------- growing a tree

  /** Nodes stay, with their modes and devices. */
  ghost predicate Grown(f: Forest, f': Forest) {
    forall l :: Has(f, l) ==>
      && Has(f', l) && NodeAt(f', l).mode == NodeAt(f, l).mode && NodeAt(f', l).dev == NodeAt(f, l).dev
  }

  /** `dir` with a new node `n` in it. */
  function Made(f: Forest, dir: Loc, n: string, mode: nat, dev: nat): Forest
    requires Has(f, dir)
  {
    var s := f[dir.sb];
    var d := s.nodes[dir.ino];
    var ino := s.lastIno;
    f[dir.sb := Super(s.nodes[dir.ino := d.(entries := d.entries + [Entry(n, ino)])][ino := Node(mode, dev, [])],
                      ino + 1)]
  }

  /** A node number was used up without a node. */
  function Skipped(f: Forest, sb: nat): Forest
    requires sb in f
  {
    f[sb := f[sb].(lastIno := f[sb].lastIno + 1)]
  }

  /** The numbers given so far, from the root's on: each is a node's or in `unused`. */
  ghost predicate Numbered(s: Super, unused: set<nat>) {
    && (forall i: nat :: ROOT_INO <= i < s.lastIno <==> i in s.nodes || i in unused)
    && forall i :: i in unused ==> i !in s.nodes
  }

  /** Nodes are numbered in the order they are made, and a failure uses one number up. */
  lemma {:induction false} MadeNumbered(f: Forest, dir: Loc, n: string, mode: nat, dev: nat, unused: set<nat>)
    requires Has(f, dir) && Numbered(f[dir.sb], unused)
    ensures Numbered(Made(f, dir, n, mode, dev)[dir.sb], unused)
    ensures Numbered(Skipped(f, dir.sb)[dir.sb], unused + {f[dir.sb].lastIno})
  {
    var next := f[dir.sb].lastIno;
    assert ROOT_INO <= dir.ino < next && next !in f[dir.sb].nodes && next !in unused;
  }

  lemma {:induction false} SkippedPlanted(f: Forest, sb: nat)
    requires AllPlanted(f) && sb in f
    ensures AllPlanted(Skipped(f, sb))
    ensures forall l :: Has(f, l) ==> Has(Skipped(f, sb), l) && NodeAt(Skipped(f, sb), l) == NodeAt(f, l)
    ensures forall l, n :: Child(Skipped(f, sb), l, n) == Child(f, l, n)
  {
    BumpPlanted(f[sb]);
  }

  lemma {:induction false} BumpPlanted(s: Super)
    requires Planted(s)
    ensures Planted(s.(lastIno := s.lastIno + 1))
  {
    assert s.(lastIno := s.lastIno + 1).nodes == s.nodes;
  }

  lemma {:induction false} MadePlanted(f: Forest, dir: Loc, n: string, mode: nat, dev: nat)
    requires AllPlanted(f) && DirAt(f, dir)
    ensures AllPlanted(Made(f, dir, n, mode, dev))
  {
    var s, s' := f[dir.sb], Made(f, dir, n, mode, dev)[dir.sb];
    var ino := s.lastIno;
    assert Planted(s) && ino !in s.nodes;
    assert Closed(s') by {
      forall d, k | d in s'.nodes && 0 <= k < |s'.nodes[d].entries|
        ensures s'.nodes[d].entries[k].ino in s'.nodes && s'.nodes[d].entries[k].ino > ROOT_INO
      {
        if d != ino && k < |s.nodes[d].entries| {
          assert s'.nodes[d].entries[k] == s.nodes[d].entries[k];
        }
      }
    }
    assert Linear(s') by {
      forall d, k, d', k' | d in s'.nodes && 0 <= k < |s'.nodes[d].entries| && d' in s'.nodes
          && 0 <= k' < |s'.nodes[d'].entries|
                            && s'.nodes[d].entries[k].ino == s'.nodes[d'].entries[k'].ino
        ensures d == d' && k == k'
      {
        if k < |s.nodes[d].entries| { assert s'.nodes[d].entries[k] == s.nodes[d].entries[k]; }
        if k' < |s.nodes[d'].entries| { assert s'.nodes[d'].entries[k'] == s.nodes[d'].entries[k']; }
      }
    }
  }

  /** The new name leads to the new node; everything named before is still there. */
  lemma {:induction false} MadeChildren(f: Forest, dir: Loc, n: string, mode: nat, dev: nat, at: Loc, m: string)
    requires AllPlanted(f) && DirAt(f, dir) && Has(f, at)
    ensures var f' := Made(f, dir, n, mode, dev);
            && Has(f', at) && NodeAt(f', at).mode == NodeAt(f, at).mode && NodeAt(f', at).dev == NodeAt(f, at).dev
            && (at != dir || m != n || Child(f, at, m).Some? ==> Child(f', at, m) == Child(f, at, m))
            && (at == dir && m == n && Child(f, at, m).None? ==>
                  Child(f', at, m) == Some(Loc(dir.sb, f[dir.sb].lastIno)))
  {
    var f' := Made(f, dir, n, mode, dev);
    assert Planted(f[dir.sb]) && f[dir.sb].lastIno !in f[dir.sb].nodes;
    if at == dir {
      AppendIndex(NodeAt(f, dir).entries, Entry(n, f[dir.sb].lastIno), m, 0);
    }
  }

  lemma {:induction false} AppendIndex(es: seq<Entry>, e: Entry, n: string, i: nat)
    requires i <= |es|
    ensures EntryIndex(es + [e], n, i) ==
            if EntryIndex(es, n, i) < |es| then EntryIndex(es, n, i) else if e.name == n then |es| else |es| + 1
    decreases |es| - i
  {
    if i < |es| && es[i].name != n {
      AppendIndex(es, e, n, i + 1);
    }
  }

  lemma {:induction false} MadeUnique(f: Forest, dir: Loc, n: string, mode: nat, dev: nat)
    requires AllPlanted(f) && AllUnique(f) && DirAt(f, dir)
    ensures AllUnique(Made(f, dir, n, mode, dev)) <==> Child(f, dir, n).None?
  {
    var f' := Made(f, dir, n, mode, dev);
    var es := NodeAt(f, dir).entries;
    assert Planted(f[dir.sb]) && f[dir.sb].lastIno !in f[dir.sb].nodes;
    assert NodeAt(f', dir).entries == es + [Entry(n, f[dir.sb].lastIno)];
    if Child(f, dir, n).Some? {
      var k := EntryIndex(es, n, 0);
      assert NodeAt(f', dir).entries[k].name == NodeAt(f', dir).entries[|es|].name;
    }
  }

  // ---------------------------------------------------------------- mounting a tree

  /** The file system of a device with its root directory, made now if it has none. */
  function WithRoot(f: Forest, sb: nat): Forest
    requires sb in f
  {
    var s := f[sb];
    if ROOT_INO in s.nodes then f
    else
      f[sb := Super(s.nodes[ROOT_INO := Node(DIRECTORY * 0x1000 + MODE_755, 0, [])],
                  if s.lastIno + 1 <= 1 then 2 else s.lastIno + 1)]
  }

  /** The root takes the first number, whatever failures came before it. */
  lemma {:induction false} RootNumbered(f: Forest, sb: nat, unused: set<nat>)
    requires sb in f && f[sb].nodes == map[] && forall i :: i in unused <==> 2 <= i <= f[sb].lastIno
    ensures Numbered(WithRoot(f, sb)[sb], unused)
  {}

  lemma {:induction false} WithRootPlanted(f: Forest, sb: nat)
    requires AllPlanted(f) && sb in f
    ensures var f' := WithRoot(f, sb);
            && AllPlanted(f') && DirAt(f', Loc(sb, ROOT_INO)) && Grown(f, f') && (AllUnique(f) ==> AllUnique(f'))
            && forall l, n :: Child(f', l, n) == Child(f, l, n)
    ensures ROOT_INO !in f[sb].nodes ==> NodeAt(WithRoot(f, sb), Loc(sb, ROOT_INO)) == Node(0x4000 + 0x1ed, 0, [])
  {
    hide EntryIndex;
    assert Planted(f[sb]);
  }
}
