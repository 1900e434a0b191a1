/** The kernel's singly linked list, against the sequence of its values. */
module LinkedList {
  import opened Frames

  class Cell<T> {
    var val: T
    var next: Cell?<T>

    constructor (val: T)
      ensures this.val == val && next == null
    {
      this.val, next := val, null;
    }
  }

  /** The first value of `vs`, from `i` on, that `accepts` holds of; the length if there is none. */
  ghost function FirstMatch<T>(vs: seq<T>, accepts: T -> bool, i: nat): (k: nat)
    requires i <= |vs|
    ensures i <= k <= |vs| && (k < |vs| ==> accepts(vs[k]))
    ensures forall j :: i <= j < k ==> !accepts(vs[j])
    decreases |vs| - i
  {
    if i == |vs| || accepts(vs[i]) then i else FirstMatch(vs, accepts, i + 1)
  }

  /** `s` without element `i`, element by element. */
  ghost predicate WithoutAt<T>(s: seq<T>, r: seq<T>, i: nat) {
    && i < |s| && |r| == |s| - 1 && (forall j {:trigger r[j]} :: 0 <= j < i ==> r[j] == s[j])
    && (forall j {:trigger r[j]} :: i <= j < |r| ==> r[j] == s[j + 1])
  }

  lemma {:induction false} Cut<T>(s: seq<T>, r: seq<T>, i: nat)
    requires i < |s| && r == s[..i] + s[i + 1..]
    ensures WithoutAt(s, r, i)
  {}

  lemma {:induction false} CutIs<T>(s: seq<T>, r: seq<T>, i: nat)
    requires WithoutAt(s, r, i)
    ensures r == s[..i] + s[i + 1..]
  {}

  lemma {:induction false} CutValues<T>(c: seq<Cell<T>>, r: seq<Cell<T>>, vs: seq<T>, ws: seq<T>, i: nat)
    requires WithoutAt(c, r, i) && |vs| == |c| && |ws| == |r|
    requires forall j :: 0 <= j < |c| ==> vs[j] == c[j].val
    requires forall j :: 0 <= j < |r| ==> ws[j] == r[j].val
    ensures WithoutAt(vs, ws, i)
  {
    forall j | 0 <= j < |ws|
      ensures ws[j] == if j < i then vs[j] else vs[j + 1]
    {
      assert r[j] == if j < i then c[j] else c[j + 1];
    }
  }

  /** Cell `i` of `c`; null after the last one. */
  ghost function CellAt<T>(c: seq<Cell<T>>, i: nat): Cell?<T> {
    if i < |c| then c[i] else null
  }

  /** The place a position stands for: a loop that counts up to it does not run below 0. */
  function Place(pos: int): nat {
    if pos < 0 then 0 else pos
  }

  class List<T(==)> {
    var head: Cell?<T>
    var count: nat
    // The cells in order.
    ghost var cells: seq<Cell<T>>

    constructor ()
      ensures Valid() && Values() == []
    {
      head, count, cells := null, 0, [];
    }

    ghost predicate Valid()
      reads this, cells
    {
      && count == |cells| && head == At(0)
      && (forall i :: 0 <= i < |cells| ==> cells[i].next == At(i + 1))
      && (forall i, j :: 0 <= i < j < |cells| ==> cells[i] != cells[j])
    }

    /** Cell `i`; null after the last one. */
    ghost function At(i: nat): Cell?<T>
      reads this
    {
      CellAt(cells, i)
    }

    ghost function Values(): (vs: seq<T>)
      reads this, cells
      ensures |vs| == |cells|
    {
      seq(|cells|, i requires 0 <= i < |cells| reads this, cells => cells[i].val)
    }

    /** Appends `v`; without memory for a cell, nothing changes. */
    method Add(v: T, memory: bool) returns (ok: bool)
      requires Valid()
      modifies this, cells
      ensures Valid() && ok == memory
      ensures Values() == if ok then old(Values()) + [v] else old(Values())
      ensures fresh(set c | c in cells && c !in old(cells))
    {
      if !memory {
        return false;
      }
      var n := new Cell(v);
      if head == null {
        head, count, cells := n, 1, [n];
        return true;
      }
      var p := head;
      ghost var i := 0;
      while p.next != null
        invariant 0 <= i < |cells| && p == cells[i]
        decreases |cells| - i
      {
        p := p.next;
        i := i + 1;
      }
      p.next := n;
      count := count + 1;
      cells := cells + [n];
      ok := true;
    }

    /** The value at `pos`; the first one for a negative position. */
    method Get(pos: int) returns (v: Option<T>)
      requires Valid() && (pos >= 0 || Values() != [])
      ensures v == if Place(pos) < |Values()| then Some(Values()[Place(pos)]) else None
    {
      if pos >= count {
        return None;
      }
      var i, p := 0, head;
      while i < pos
        invariant 0 <= i <= Place(pos) && p == At(i)
      {
        i, p := i + 1, p.next;
      }
      v := Some(p.val);
    }

    /** The first value that `accepts` holds of. */
    method FindValue(accepts: T -> bool) returns (v: Option<T>)
      requires Valid()
      ensures var k := FirstMatch(Values(), accepts, 0);
              v == if k < |Values()| then Some(Values()[k]) else None
    {
      var pos := FindPos(accepts);
      if pos == -1 {
        return None;
      }
      v := Get(pos);
    }

    /** Its position, or -1. */
    method FindPos(accepts: T -> bool) returns (pos: int)
      requires Valid()
      ensures var k := FirstMatch(Values(), accepts, 0);
              pos == if k < |Values()| then k else -1
    {
      var p, i := head, 0;
      while p != null && !accepts(p.val)
        invariant i <= |cells| && p == At(i)
        invariant FirstMatch(Values(), accepts, 0) == FirstMatch(Values(), accepts, i)
        decreases |cells| - i
      {
        p, i := p.next, i + 1;
      }
      pos := if p == null then -1 else i;
    }

    /** Unlinks cell `p` at position `i`, which follows `prev`. */
    method Unlink(prev: Cell?<T>, p: Cell<T>, ghost i: nat)
      requires Valid() && i < |cells| && p == cells[i] && prev == (if i == 0 then null else cells[i - 1])
      modifies this, cells
      ensures Valid() && Values() == old(Values())[..i] + old(Values())[i + 1..]
    {
      hide WithoutAt;
      ghost var c, vs := cells, Values();
      if prev == null {
        head := p.next;
      } else {
        prev.next := p.next;
      }
      count := count - 1;
      cells := c[..i] + c[i + 1..];
      Cut(c, cells, i);
      Unlinked(c, i);
      CutValues(c, cells, vs, Values(), i);
      CutIs(vs, Values(), i);
    }

    /** The cells without cell `i` of `c` are a list once its predecessor skips it. */
    lemma {:induction false} Unlinked(c: seq<Cell<T>>, i: nat)
      requires WithoutAt(c, cells, i) && count == |cells|
      requires forall j, k :: 0 <= j < k < |c| ==> c[j] != c[k]
      requires forall j :: 0 <= j < |c| && j + 1 != i ==> c[j].next == CellAt(c, j + 1)
      requires i > 0 ==> c[i - 1].next == CellAt(c, i + 1)
      requires head == CellAt(c, if i > 0 then 0 else 1)
      ensures Valid()
    {
      forall j | 0 <= j < |cells|
        ensures cells[j].next == At(j + 1)
      {
        if j + 1 == i {
          assert cells[j] == c[i - 1] && (i < |cells| ==> cells[i] == c[i + 1]);
        } else if j < i {
          assert cells[j] == c[j] && cells[j + 1] == c[j + 1];
        } else {
          assert cells[j] == c[j + 1] && (j + 1 < |cells| ==> cells[j + 1] == c[j + 2]);
        }
      }
    }

    /** Removes the value at `pos`. */
    method Delete(pos: int) returns (v: Option<T>)
      requires Valid() && (pos >= 0 || Values() != [])
      modifies this, cells
      ensures Valid()
      ensures if Place(pos) < |old(Values())| then
                v == Some(old(Values())[Place(pos)])
                && Values() == old(Values())[..Place(pos)] + old(Values())[Place(pos) + 1..]
              else v == None && Values() == old(Values())
    {
      if pos >= count {
        return None;
      }
      var prev, p := null, head;
      var left := pos;
      ghost var n := Place(pos);
      while left > 0
        invariant left <= pos && (left >= 0 || left == pos) && n < |cells|
        invariant p == At(n - Place(left)) && prev == (if left == pos then null else cells[n - left - 1])
      {
        prev, p, left := p, p.next, left - 1;
      }
      v := Some(p.val);
      Unlink(prev, p, n);
    }

    /** Removes the first value that `accepts` holds of. */
    method FindDelete(accepts: T -> bool) returns (v: Option<T>)
      requires Valid()
      modifies this, cells
      ensures Valid()
      ensures var k := FirstMatch(old(Values()), accepts, 0);
              if k < |old(Values())| then
                v == Some(old(Values())[k]) && Values() == old(Values())[..k] + old(Values())[k + 1..]
              else v == None && Values() == old(Values())
    {
      var prev, p := null, head;
      ghost var i := 0;
      while p != null && !accepts(p.val)
        invariant i <= |cells| && p == At(i) && prev == (if i == 0 then null else cells[i - 1])
        invariant FirstMatch(Values(), accepts, 0) == FirstMatch(Values(), accepts, i)
        decreases |cells| - i
      {
        prev, p, i := p, p.next, i + 1;
      }
      if p == null {
        return None;
      }
      v := Some(p.val);
      Unlink(prev, p, i);
    }
  }
}
