/** The list of vnodes in memory and their reference counts. */
module Vnodes {
  import opened Frames
  import opened MemTree

  // A vnode, named by its superblock and number; mode and device are read when it is loaded.
  datatype Vnode = Vnode(loc: Loc, mode: nat, dev: nat, count: nat) {
    predicate Copies(f: Forest) {
      Has(f, loc) && mode == NodeAt(f, loc).mode && dev == NodeAt(f, loc).dev
    }
  }

  /** Position of the vnode for `l`, from `i` on; the length of the list if there is none. */
  function Index(vs: seq<Vnode>, l: Loc, i: nat): (k: nat)
    requires i <= |vs|
    ensures i <= k <= |vs|
    ensures k < |vs| ==> vs[k].loc == l
    ensures forall j :: i <= j < k ==> vs[j].loc != l
    decreases |vs| - i
  {
    if i == |vs| || vs[i].loc == l then i else Index(vs, l, i + 1)
  }

  /** References held on `l`. */
  function Count(vs: seq<Vnode>, l: Loc): nat {
    var k := Index(vs, l, 0);
    if k < |vs| then vs[k].count else 0
  }

  /** How much memory a reference to `l` takes: an object and its place in the list, if the
      vnode is not in the list. */
  function Requests(vs: seq<Vnode>, l: Loc): nat {
    if Index(vs, l, 0) < |vs| then 0 else 2
  }

  /** At most one vnode per superblock and number, each referenced, and true to its node. */
  ghost predicate VnodesOk(vs: seq<Vnode>, f: Forest) {
    VnodeParts(vs, f) == true
  }

  ghost predicate VnodeParts(vs: seq<Vnode>, f: Forest) {
    && (forall i, j :: 0 <= i < j < |vs| ==> vs[i].loc != vs[j].loc)
    && (forall i :: 0 <= i < |vs| ==> vs[i].count >= 1)
    && (forall i :: 0 <= i < |vs| ==> vs[i].Copies(f))
  }

  /** The counts are exactly the references `refs`. */
  ghost predicate Balanced(vs: seq<Vnode>, refs: multiset<Loc>) {
    forall l :: Count(vs, l) == refs[l]
  }

  /** One reference more to `v.loc`; a vnode not in memory is loaded as `v`. */
  function Acquired(vs: seq<Vnode>, v: Vnode): seq<Vnode> {
    var k := Index(vs, v.loc, 0);
    if k < |vs| then vs[k := vs[k].(count := vs[k].count + 1)] else vs + [v.(count := 1)]
  }

  /** The vnode of the node at `l`, as its file system loads it. */
  function Loaded(f: Forest, l: Loc): Vnode
    requires Has(f, l)
  {
    Vnode(l, NodeAt(f, l).mode, NodeAt(f, l).dev, 0)
  }

  /** One reference less to `l`; the vnode goes with its last one. */
  function Dropped(vs: seq<Vnode>, l: Loc): seq<Vnode>
    requires Count(vs, l) >= 1
  {
    var k := Index(vs, l, 0);
    if vs[k].count == 1 then vs[..k] + vs[k + 1..] else vs[k := vs[k].(count := vs[k].count - 1)]
  }

  lemma {:induction false} IndexIs(vs: seq<Vnode>, l: Loc, i: nat, k: nat)
    requires i <= k < |vs| && vs[k].loc == l && forall j :: i <= j < k ==> vs[j].loc != l
    ensures Index(vs, l, i) == k
    decreases k - i
  {
    if i < k {
      IndexIs(vs, l, i + 1, k);
    }
  }

  lemma {:induction false} AcquireCounts(vs: seq<Vnode>, v: Vnode, l: Loc)
    ensures Count(Acquired(vs, v), l) == Count(vs, l) + if l == v.loc then 1 else 0
  {
    var vs' := Acquired(vs, v);
    var k, k' := Index(vs, l, 0), Index(vs', l, 0);
    if k < |vs| {
      IndexIs(vs', l, 0, k);
    } else if l == v.loc {
      IndexIs(vs', l, 0, |vs|);
    }
  }

  lemma {:induction false} ReleaseCounts(vs: seq<Vnode>, f: Forest, x: Loc, l: Loc)
    requires VnodesOk(vs, f) && Count(vs, x) >= 1
    ensures Count(Dropped(vs, x), l) == Count(vs, l) - if l == x then 1 else 0
  {
    var vs' := Dropped(vs, x);
    var at := Index(vs, x, 0);
    var k := Index(vs, l, 0);
    if vs[at].count > 1 {
      if k < |vs| { IndexIs(vs', l, 0, k); }
    } else if k < |vs| && l != x {
      IndexIs(vs', l, 0, if k < at then k else k - 1);
    }
  }

  lemma {:induction false} AcquireKeeps(vs: seq<Vnode>, f: Forest, v: Vnode)
    requires VnodesOk(vs, f) && v.Copies(f)
    ensures VnodesOk(Acquired(vs, v), f)
  {}

  lemma {:induction false} ReleaseKeeps(vs: seq<Vnode>, f: Forest, x: Loc)
    requires VnodesOk(vs, f) && Count(vs, x) >= 1
    ensures VnodesOk(Dropped(vs, x), f)
  {
    var k := Index(vs, x, 0);
    var vs' := Dropped(vs, x);
    assert vs[k].count == 1 ==> forall i :: 0 <= i < |vs'| ==> vs'[i] == vs[if i < k then i else i + 1];
  }

  /** Acquiring and releasing leaves the list exactly as it was. */
  lemma {:induction false} ReleaseUndoesAcquire(vs: seq<Vnode>, f: Forest, v: Vnode)
    requires VnodesOk(vs, f)
    ensures Count(Acquired(vs, v), v.loc) >= 1
    ensures Dropped(Acquired(vs, v), v.loc) == vs
  {
    var vs' := Acquired(vs, v);
    AcquireCounts(vs, v, v.loc);
    var k := Index(vs, v.loc, 0);
    IndexIs(vs', v.loc, 0, k);
  }

  /** Vnodes stay true when the trees only grow. */
  lemma {:induction false} VnodesOkLater(vs: seq<Vnode>, f: Forest, f': Forest)
    requires VnodesOk(vs, f)
    requires Grown(f, f')
    ensures VnodesOk(vs, f')
  {}
}
