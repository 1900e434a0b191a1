/** The list of open files, and the balance between open files and vnode references. */
module OpenFiles {
  import opened MemTree
  import opened Vnodes

  // An open file.  `live` is false once its memory has been freed while it is still in the
  // list.
  datatype OpenFile = OpenFile(id: nat, loc: Loc, flags: nat, live: bool)

  ghost predicate FilesOk(fs: seq<OpenFile>, next: nat) {
    && (forall i, j :: 0 <= i < j < |fs| ==> fs[i].id != fs[j].id)
    && (forall i :: 0 <= i < |fs| ==> fs[i].id < next)
  }

  /** Position of file `id`, from `i` on; the length of the list if it is not in it. */
  function FileIndex(fs: seq<OpenFile>, id: nat, i: nat): (k: nat)
    requires i <= |fs|
    ensures i <= k <= |fs|
    ensures k < |fs| ==> fs[k].id == id
    ensures forall j :: i <= j < k ==> fs[j].id != id
    decreases |fs| - i
  {
    if i == |fs| || fs[i].id == id then i else FileIndex(fs, id, i + 1)
  }

  ghost function HeldBy(file: OpenFile): multiset<Loc> {
    if file.live then multiset{file.loc} else multiset{}
  }

  /** The nodes that files hold references to. */
  ghost function OpenLocs(fs: seq<OpenFile>): multiset<Loc> {
    if fs == [] then multiset{} else OpenLocs(fs[..|fs| - 1]) + HeldBy(fs[|fs| - 1])
  }

  lemma {:induction false} OneMore(fs: seq<OpenFile>, front: seq<OpenFile>, file: OpenFile)
    requires fs == front + [file]
    ensures OpenLocs(fs) == OpenLocs(front) + HeldBy(file)
  {
    assert fs[..|fs| - 1] == front;
  }

  lemma {:induction false} Between(a: seq<OpenFile>, file: OpenFile, b: seq<OpenFile>)
    ensures OpenLocs(a + [file] + b) == OpenLocs(a + b) + HeldBy(file)
  {
    if b == [] {
      assert a + [file] + b == a + [file] && a + b == a;
      OneMore(a + [file], a, file);
    } else {
      var front, last := b[..|b| - 1], b[|b| - 1];
      Between(a, file, front);
      Regroup(a + [file], b);
      Regroup(a, b);
      OneMore(a + [file] + b, a + [file] + front, last);
      OneMore(a + b, a + front, last);
      Swap(OpenLocs(a + front), HeldBy(file), HeldBy(last));
    }
  }

  lemma {:induction false} Regroup(a: seq<OpenFile>, b: seq<OpenFile>)
    requires b != []
    ensures a + b == a + b[..|b| - 1] + [b[|b| - 1]]
  {}

  lemma {:induction false} Swap(x: multiset<Loc>, y: multiset<Loc>, z: multiset<Loc>)
    ensures x + y + z == x + z + y
  {}

  lemma {:induction false} CloseRemoves(fs: seq<OpenFile>, k: nat)
    requires k < |fs| && fs[k].live
    ensures OpenLocs(fs) == OpenLocs(fs[..k] + fs[k + 1..]) + multiset{fs[k].loc}
  {
    assert fs == fs[..k] + [fs[k]] + fs[k + 1..];
    Between(fs[..k], fs[k], fs[k + 1..]);
  }

  /** A reference more on either side. */
  lemma {:induction false} AcquireBalances(vs: seq<Vnode>, v: Vnode, refs: multiset<Loc>)
    requires Balanced(vs, refs)
    ensures Balanced(Acquired(vs, v), refs + multiset{v.loc})
  {
    forall l
      ensures Count(Acquired(vs, v), l) == (refs + multiset{v.loc})[l]
    {
      AcquireCounts(vs, v, l);
    }
  }

  lemma {:induction false} OpenBalances(vs: seq<Vnode>, v: Vnode, fs: seq<OpenFile>, file: OpenFile,
                                        held: multiset<Loc>)
    requires Balanced(vs, OpenLocs(fs) + held) && file.live && file.loc == v.loc
    ensures Balanced(Acquired(vs, v), OpenLocs(fs + [file]) + held)
  {
    AcquireBalances(vs, v, OpenLocs(fs) + held);
    OneMore(fs + [file], fs, file);
    assert OpenLocs(fs + [file]) + held == OpenLocs(fs) + held + multiset{v.loc};
  }

  /** A freed file left in the list holds nothing. */
  lemma {:induction false} DeadBalances(fs: seq<OpenFile>, file: OpenFile)
    requires !file.live
    ensures OpenLocs(fs + [file]) == OpenLocs(fs)
  {
    OneMore(fs + [file], fs, file);
  }

  lemma {:induction false} CloseBalances(vs: seq<Vnode>, f: Forest, fs: seq<OpenFile>, k: nat, held: multiset<Loc>)
    requires VnodesOk(vs, f) && Balanced(vs, OpenLocs(fs) + held) && k < |fs| && fs[k].live
    ensures Count(vs, fs[k].loc) >= 1
    ensures Balanced(Dropped(vs, fs[k].loc), OpenLocs(fs[..k] + fs[k + 1..]) + held)
  {
    var x := fs[k].loc;
    CloseRemoves(fs, k);
    assert (OpenLocs(fs) + held)[x] >= 1;
    forall l
      ensures Count(Dropped(vs, x), l) == (OpenLocs(fs[..k] + fs[k + 1..]) + held)[l]
    {
      ReleaseCounts(vs, f, x, l);
    }
  }

  /** Opening a node and closing the file again undo each other. */
  lemma {:induction false} CloseUndoesOpen(vs: seq<Vnode>, f: Forest, v: Vnode, fs: seq<OpenFile>, file: OpenFile)
    requires VnodesOk(vs, f) && file.loc == v.loc && forall i :: 0 <= i < |fs| ==> fs[i].id != file.id
    ensures var k := FileIndex(fs + [file], file.id, 0);
            && k == |fs| && (fs + [file])[..k] + (fs + [file])[k + 1..] == fs
            && Count(Acquired(vs, v), v.loc) >= 1 && Dropped(Acquired(vs, v), v.loc) == vs
  {
    ReleaseUndoesAcquire(vs, f, v);
    assert (fs + [file])[|fs|].id == file.id;
  }
}
