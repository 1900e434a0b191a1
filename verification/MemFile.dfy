/** Files of the in-memory file system: what reads return after any writes and seeks. */
module MemFile {

  const TWO32: nat := 0x1_0000_0000
  const READ: nat := 1
  const WRITE: nat := 2

  // ---------------------------------------------------------------- what was written

  // One write: where it started, and its bytes.
  datatype Written = Written(at: nat, bytes: seq<bv8>) {
    function End(): nat {
      at + |bytes|
    }

    predicate Covers(i: nat) {
      at <= i < End()
    }
  }

  /** The largest end of a write, empty ones included. */
  function SizeOf(log: seq<Written>): (n: nat)
    ensures forall k :: 0 <= k < |log| ==> log[k].End() <= n
    ensures n == 0 || exists k :: 0 <= k < |log| && log[k].End() == n
  {
    if log == [] then 0
    else
      var w := log[|log| - 1];
      var n := SizeOf(log[..|log| - 1]);
      assert forall k :: 0 <= k < |log| - 1 ==> log[..|log| - 1][k] == log[k];
      if w.End() > n then
        assert log[|log| - 1].End() == w.End();
        w.End()
      else n
  }

  /** Byte `i`: from the last write that covers it, 0 if none does. */
  function ByteAt(log: seq<Written>, i: nat): bv8 {
    if log == [] then 0
    else
      var w := log[|log| - 1];
      if w.Covers(i) then w.bytes[i - w.at] else ByteAt(log[..|log| - 1], i)
  }

  /** Nothing was written past the size. */
  lemma {:induction false} NothingPast(log: seq<Written>, i: nat)
    requires i >= SizeOf(log)
    ensures ByteAt(log, i) == 0
  {
    if log != [] {
      assert log[|log| - 1].End() <= SizeOf(log);
      NothingPast(log[..|log| - 1], i);
    }
  }

  /** The whole file. */
  ghost function Contents(log: seq<Written>): (c: seq<bv8>)
    ensures |c| == SizeOf(log)
  {
    seq(SizeOf(log), i requires 0 <= i < SizeOf(log) => ByteAt(log, i))
  }

  /** `c` with zeros behind it, `n` bytes in all. */
  ghost function Padded(c: seq<bv8>, n: nat): (r: seq<bv8>)
    requires n >= |c|
    ensures |r| == n && forall i :: 0 <= i < n ==> r[i] == if i < |c| then c[i] else 0
  {
    c + seq(n - |c|, _ => 0)
  }

  /** `c` with `b` over the bytes from `at` on. */
  ghost function Pasted(c: seq<bv8>, at: nat, b: seq<bv8>): (r: seq<bv8>)
    requires at + |b| <= |c|
    ensures |r| == |c| && forall i :: 0 <= i < |c| ==> r[i] == if at <= i < at + |b| then b[i - at] else c[i]
  {
    c[..at] + b + c[at + |b|..]
  }

  /** `c` with `b` written at `at`, and longer if it must be. */
  ghost function Overwritten(c: seq<bv8>, at: nat, b: seq<bv8>): seq<bv8> {
    Pasted(if at + |b| > |c| then Padded(c, at + |b|) else c, at, b)
  }

  /** The bytes written are in the file afterwards, and all others as before. */
  lemma {:induction false} WrittenIsThere(log: seq<Written>, w: Written, i: nat)
    ensures SizeOf(log + [w]) >= w.at + |w.bytes|
    ensures Contents(log + [w])[w.at..w.at + |w.bytes|] == w.bytes
    ensures i < w.at || i >= w.at + |w.bytes| ==> ByteAt(log + [w], i) == ByteAt(log, i)
  {
    assert (log + [w])[|log|] == w && (log + [w])[..|log|] == log;
    assert w.End() <= SizeOf(log + [w]);
  }

  /** One more write: the file grows if it must, with zeros, and then the bytes are replaced. */
  lemma {:induction false} WriteMeans(log: seq<Written>, w: Written)
    ensures var c := Contents(log);
            Contents(log + [w]) == Overwritten(c, w.at, w.bytes)
  {
    assert (log + [w])[..|log|] == log;
    var c := Contents(log);
    var r := Overwritten(c, w.at, w.bytes);
    forall i | 0 <= i < |r|
      ensures Contents(log + [w])[i] == r[i]
    {
      if i >= |c| { NothingPast(log, i); }
    }
  }

  // ---------------------------------------------------------------- in memory

  /** A node with its data; all files open on it share it. */
  class Node {
    var data: array<bv8>
    var size: nat
    // Every write so far.
    ghost var log: seq<Written>

    constructor ()
      ensures Valid() && log == [] && fresh(data)
    {
      data, size, log := new bv8[0], 0, [];
    }

    ghost predicate Valid()
      reads this, data
    {
      size == data.Length && data[..] == Contents(log)
    }

    /** Room for `n` bytes, the old ones first and zeros after them. */
    method Enlarge(n: nat)
      requires size == data.Length && n > size
      modifies `data, `size
      ensures fresh(data) && size == data.Length && data[..] == Padded(old(data[..]), n)
    {
      var bigger := new bv8[n](_ => 0);
      forall i | 0 <= i < size {
        bigger[i] := data[i];
      }
      data, size := bigger, n;
    }

    /** Writes `buf` at `at`, in a larger buffer if it must be. */
    method Store(at: nat, buf: seq<bv8>)
      requires size == data.Length
      modifies this, data
      ensures size == data.Length && log == old(log) && (data == old(data) || fresh(data))
      ensures data[..] == Overwritten(old(data[..]), at, buf)
    {
      if at + |buf| > size {
        Enlarge(at + |buf|);
      }
      Put(at, buf);
    }

    /** Copies `buf` over the bytes from `at` on. */
    method Put(at: nat, buf: seq<bv8>)
      requires at + |buf| <= data.Length
      modifies data
      ensures data[..] == Pasted(old(data[..]), at, buf)
    {
      forall i | 0 <= i < |buf| {
        data[at + i] := buf[i];
      }
    }
  }

  // The ways to seek.
  datatype Whence = Set | Cur | End | Other

  class File {
    const node: Node
    const flags: nat
    // The size when the vnode was loaded.
    const loaded: nat
    var pos: nat

    constructor (node: Node, flags: nat, loaded: nat)
      ensures this.node == node && this.flags == flags && this.loaded == loaded && pos == 0
    {
      this.node, this.flags, this.loaded, pos := node, flags, loaded, 0;
    }

    /** Writes at the position.  Without memory for a longer file nothing changes. */
    method Write(buf: seq<bv8>, memory: bool) returns (r: int)
      requires node.Valid() && pos + |buf| < TWO32
      modifies this, node, node.data
      ensures node.Valid()
      ensures r != -1 ==> r == |buf|
      ensures r == -1 <==> flags / WRITE % 2 == 0 || (!memory && old(pos) + |buf| > old(node.size))
      ensures r == -1 ==> node.log == old(node.log) && pos == old(pos)
      ensures r != -1 ==> node.log == old(node.log) + [Written(old(pos), buf)] && pos == old(pos) + |buf|
    {
      if flags / WRITE % 2 == 0 {
        return -1;
      }
      ghost var w := Written(pos, buf);
      WriteMeans(node.log, w);
      if pos + |buf| > node.size && !memory {
        return -1;
      }
      node.Store(pos, buf);
      node.log := node.log + [w];
      pos := pos + |buf|;
      r := |buf|;
    }

    /** Reads up to `count` bytes from the position, none at or past the end. */
    method Read(count: nat) returns (r: int, buf: seq<bv8>)
      requires node.Valid() && pos + count < TWO32
      modifies `pos
      ensures r == -1 <==> flags / READ % 2 == 0
      ensures r == -1 ==> buf == [] && pos == old(pos)
      ensures r != -1 ==>
                var size := SizeOf(node.log);
                && r == |buf| == (if old(pos) >= size then 0 else if old(pos) + count > size then size - old(pos)
                                else count)
                && pos == old(pos) + r && forall i :: 0 <= i < |buf| ==> buf[i] == ByteAt(node.log, old(pos) + i)
    {
      if flags / READ % 2 == 0 {
        return -1, [];
      }
      if pos >= node.size {
        return 0, [];
      }
      var n := if pos + count > node.size then node.size - pos else count;
      buf := node.data[pos..pos + n];
      assert forall i :: 0 <= i < n ==> buf[i] == node.data[..][pos + i];
      pos := pos + n;
      r := n;
    }

    /** Moves the position, in 32-bit arithmetic; from the end means from the size the file had
        when its vnode was loaded. */
    method Seek(off: nat, whence: Whence) returns (r: int)
      requires pos < TWO32
      modifies `pos
      ensures whence.Other? ==> r == -1 && pos == old(pos)
      ensures !whence.Other? ==> r == pos == (match whence
                                              case Set => off
                                              case Cur => old(pos) + off
                                              case _ => loaded + off) % TWO32
    {
      match whence {
        case Set => pos := off % TWO32;
        case Cur => pos := (pos + off) % TWO32;
        case End => pos := (loaded + off) % TWO32;
        case Other => return -1;
      }
      r := pos;
    }
  }
}
