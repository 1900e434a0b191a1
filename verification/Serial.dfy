/** The reading buffer of a serial device: a ring of 64 bytes that holds up to 63. */
module Serial {

  const LEN: nat := 64

  datatype Ring = Ring(read: nat, write: nat, buf: seq<bv8>) {
    ghost predicate Valid() {
      read < LEN && write < LEN && |buf| == LEN
    }

    function Count(): (n: nat)
      requires read < LEN && write < LEN
      ensures n < LEN && (n == 0 <==> read == write)
    {
      if write >= read then write - read else write + LEN - read
    }

    /** The bytes not read yet, oldest first. */
    ghost function Unread(): (u: seq<bv8>)
      requires Valid()
      ensures |u| == Count()
    {
      if write >= read then buf[read..write] else buf[read..] + buf[..write]
    }

    function Stored(b: bv8): Ring
      requires write < |buf|
    {
      this.(buf := buf[write := b])
    }

    function Advanced(): Ring {
      this.(write := (write + 1) % LEN)
    }

    function Taken(): Ring {
      this.(read := (read + 1) % LEN)
    }
  }

  lemma {:induction false} After(i: nat)
    requires i < LEN
    ensures (i + 1) % LEN == if i == LEN - 1 then 0 else i + 1
  {}

  /** The slot written next holds nothing unread. */
  lemma {:induction false} StoredKeeps(r: Ring, b: bv8)
    requires r.Valid()
    ensures r.Stored(b).Valid() && r.Stored(b).Unread() == r.Unread()
  {
    var buf' := r.buf[r.write := b];
    assert buf'[..r.write] == r.buf[..r.write];
    if r.write < r.read {
      assert buf'[r.read..] == r.buf[r.read..];
    } else {
      assert buf'[r.read..r.write] == r.buf[r.read..r.write];
    }
  }

  /** With fewer than 63 bytes unread, the slot written last becomes the newest of them. */
  lemma {:induction false} AdvancedKeeps(r: Ring)
    requires r.Valid() && r.Count() < LEN - 1
    ensures r.Advanced().Valid() && r.Advanced().Unread() == r.Unread() + [r.buf[r.write]]
  {
    After(r.write);
    if r.write == LEN - 1 {
      assert r.buf[r.read..] == r.buf[r.read..r.write] + [r.buf[r.write]];
      assert r.buf[..0] == [];
    } else if r.write >= r.read {
      assert r.buf[r.read..r.write + 1] == r.buf[r.read..r.write] + [r.buf[r.write]];
    } else {
      assert r.buf[..r.write + 1] == r.buf[..r.write] + [r.buf[r.write]];
    }
  }

  /** A byte put into the ring comes after the unread ones exactly if there are fewer than 63;
      with 63 the ring looks empty. */
  lemma {:induction false} PutKeepsIff(r: Ring, b: bv8)
    requires r.Valid()
    ensures var r' := r.Stored(b).Advanced();
            && r'.Valid() && (r'.Unread() == r.Unread() + [b] <==> r.Count() < LEN - 1)
            && (r.Count() == LEN - 1 ==> r'.Unread() == [])
  {
    StoredKeeps(r, b);
    After(r.write);
    if r.Count() < LEN - 1 {
      AdvancedKeeps(r.Stored(b));
    }
  }

  /** Reading takes the oldest byte. */
  lemma {:induction false} TakenKeeps(r: Ring)
    requires r.Valid() && r.read != r.write
    ensures r.Taken().Valid() && r.Unread()[0] == r.buf[r.read] && r.Taken().Unread() == r.Unread()[1..]
  {
    hide Ring.Taken;
    TakenFields(r);
    if r.write > r.read {
      DropAhead(r.buf, r.read, r.write);
    } else {
      DropWrapped(r.buf, r.read, r.write);
    }
  }

  lemma {:induction false} TakenFields(r: Ring)
    requires r.read < LEN
    ensures r.Taken() == Ring(if r.read == LEN - 1 then 0 else r.read + 1, r.write, r.buf)
  {
    After(r.read);
  }

  lemma {:induction false} DropAhead(buf: seq<bv8>, i: nat, j: nat)
    requires i < j <= |buf|
    ensures buf[i..j][0] == buf[i] && buf[i..j][1..] == buf[i + 1..j]
  {}

  lemma {:induction false} DropWrapped(buf: seq<bv8>, i: nat, j: nat)
    requires j < i < |buf| == LEN
    ensures (buf[i..] + buf[..j])[0] == buf[i]
    ensures i < LEN - 1 ==> (buf[i..] + buf[..j])[1..] == buf[i + 1..] + buf[..j]
    ensures i == LEN - 1 ==> (buf[i..] + buf[..j])[1..] == buf[0..j]
  {}

  // ---------------------------------------------------------------- in place

  class Buffer {
    var writeHead: nat
    var readHead: nat
    const buffer: array<bv8>

    constructor ()
      ensures Valid() && State().Unread() == [] && fresh(buffer)
    {
      writeHead, readHead, buffer := 0, 0, new bv8[LEN](_ => 0);
    }

    ghost function State(): Ring
      reads this, buffer
    {
      Ring(readHead, writeHead, buffer[..])
    }

    ghost predicate Valid()
      reads this, buffer
    {
      State().Valid()
    }

    /** Stores the byte `b` read from the port. */
    method ReadByte(b: bv8)
      requires Valid()
      modifies `writeHead, buffer
      ensures Valid()
      ensures old(State()).Count() < LEN - 1 ==> State().Unread() == old(State()).Unread() + [b]
      ensures old(State()).Count() == LEN - 1 ==> State().Unread() == []
    {
      ghost var r := State();
      buffer[writeHead] := b;
      writeHead := (writeHead + 1) % LEN;
      PutKeepsIff(r, b);
      assert State() == r.Stored(b).Advanced();
    }

    /** Up to `count` bytes, oldest first. */
    method Read(count: nat) returns (bytes: seq<bv8>)
      requires Valid()
      modifies `readHead
      ensures Valid() && |bytes| == (if count < |old(State()).Unread()| then count else |old(State()).Unread()|)
      ensures old(State()).Unread() == bytes + State().Unread()
    {
      bytes := [];
      ghost var u := State().Unread();
      while |bytes| < count && readHead != writeHead
        invariant Valid() && |bytes| <= count
        invariant u == bytes + State().Unread()
        decreases |State().Unread()|
      {
        ghost var r := State();
        TakenKeeps(r);
        MoveOver(bytes, r.Unread());
        bytes := bytes + [buffer[readHead]];
        readHead := (readHead + 1) % LEN;
        assert State() == r.Taken();
      }
    }
  }

  lemma {:induction false} MoveOver(a: seq<bv8>, b: seq<bv8>)
    requires b != []
    ensures a + b == a + [b[0]] + b[1..]
  {}
}
