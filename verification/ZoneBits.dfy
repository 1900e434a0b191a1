/** The zone bit map as a sequence of bits: bit k stands for zone first + k. */
module ZoneBits {
  import opened Blocks
  import opened ZoneTree

  ghost function Claimed(bits: seq<bool>, first: nat, zs: seq<nat>): (r: seq<bool>)
    ensures |r| == |bits|
    ensures forall k {:trigger r[k]} :: 0 <= k < |bits| ==> r[k] == (bits[k] || first + k in zs)
  {
    seq(|bits|, k requires 0 <= k < |bits| => bits[k] || first + k in zs)
  }

  ghost function Cleared(bits: seq<bool>, first: nat, zs: seq<nat>): (r: seq<bool>)
    ensures |r| == |bits|
    ensures forall k {:trigger r[k]} :: 0 <= k < |bits| ==> r[k] == (bits[k] && first + k !in zs)
  {
    seq(|bits|, k requires 0 <= k < |bits| => bits[k] && first + k !in zs)
  }

  /** The zones lie among the first `nzones` and their bits are all `value`. */
  ghost predicate AllBits(bits: seq<bool>, first: nat, nzones: nat, zs: seq<nat>, value: bool) {
    nzones <= |bits| && forall x :: x in zs ==> first <= x < first + nzones && bits[x - first] == value
  }

  /** Number of clear bits among the first `n`. */
  function FreeCount(bits: seq<bool>, n: nat): (c: nat)
    requires n <= |bits|
    ensures c <= n
  {
    if n == 0 then 0 else FreeCount(bits, n - 1) + if bits[n - 1] then 0 else 1
  }

  lemma {:induction false} FreeCountZero(bits: seq<bool>, n: nat)
    requires n <= |bits|
    ensures FreeCount(bits, n) == 0 <==> forall k :: 0 <= k < n ==> bits[k]
  {
    if n > 0 {
      FreeCountZero(bits, n - 1);
    }
  }

  lemma {:induction false} FreeCountSet(bits: seq<bool>, n: nat, k: nat)
    requires n <= |bits| && k < |bits| && !bits[k]
    ensures FreeCount(bits[k := true], n) == FreeCount(bits, n) - if k < n then 1 else 0
  {
    if n > 0 {
      FreeCountSet(bits, n - 1, k);
    }
  }

  lemma {:induction false} ClaimedOne(bits: seq<bool>, first: nat, k: nat)
    requires k < |bits|
    ensures Claimed(bits, first, [first + k]) == bits[k := true]
  {}

  lemma {:induction false} ClaimedMore(bits: seq<bool>, first: nat, a: seq<nat>, b: seq<nat>)
    ensures Claimed(Claimed(bits, first, a), first, b) == Claimed(bits, first, a + b)
  {}

  lemma {:induction false} ClearedOne(bits: seq<bool>, first: nat, k: nat)
    requires k < |bits|
    ensures Cleared(bits, first, [first + k]) == bits[k := false]
  {}

  lemma {:induction false} ClearedMore(bits: seq<bool>, first: nat, a: seq<nat>, b: seq<nat>)
    ensures Cleared(Cleared(bits, first, a), first, b) == Cleared(bits, first, a + b)
  {}

  /** Clearing what was claimed from clear bits restores the map. */
  lemma {:induction false} ClearedUndoesClaimed(bits: seq<bool>, first: nat, nzones: nat, zs: seq<nat>)
    requires AllBits(bits, first, nzones, zs, false)
    ensures Cleared(Claimed(bits, first, zs), first, zs) == bits
  {}

  /** Distinct zones `zs`, clear in `base`, have been claimed. */
  ghost predicate Claiming(base: seq<bool>, bits: seq<bool>, first: nat, nzones: nat, zs: seq<nat>) {
    && AllBits(base, first, nzones, zs, false) && Distinct(zs)
    && bits == Claimed(base, first, zs)
    && FreeCount(bits, nzones) == FreeCount(base, nzones) - |zs|
  }

  lemma {:induction false} ClaimNothing(bits: seq<bool>, first: nat, nzones: nat)
    requires nzones <= |bits|
    ensures Claiming(bits, bits, first, nzones, [])
  {}

  /** Zones claimed from clear bits are not among the zones a file holds. */
  lemma {:induction false} ClaimedNotOwned(base: seq<bool>, first: nat, nzones: nat, zs: seq<nat>, owned: seq<nat>)
    requires AllBits(base, first, nzones, zs, false) && AllBits(base, first, nzones, owned, true)
    ensures forall x :: x in zs ==> x !in owned
  {}

  lemma {:induction false} ClaimNext(base: seq<bool>, bits: seq<bool>, first: nat, nzones: nat, zs: seq<nat>, k: nat)
    requires Claiming(base, bits, first, nzones, zs) && k < nzones && !bits[k]
    ensures Claiming(base, bits[k := true], first, nzones, zs + [first + k])
  {
    FreeCountSet(bits, nzones, k);
    ClaimedOne(bits, first, k);
    ClaimedMore(base, first, zs, [first + k]);
    assert (zs + [first + k])[..|zs|] == zs;
  }

  // ---------------------------------------------------------------- files on a disk

  /** A file of `n` blocks: its zones are pairwise distinct, inside the data area, and taken. */
  ghost predicate FileTree(z: seq<nat>, d: seq<Block>, bits: seq<bool>, first: nat, nzones: nat, n: nat) {
    && |z| == 9 && n <= MAX_FILE_BLOCKS
    && Distinct(Owned(z, d, n))
    && AllBits(bits, first, nzones, Owned(z, d, n), true)
    && first + nzones <= |d|
  }

  ghost predicate IndexBlock(z: seq<nat>, d: seq<Block>, n: nat, k: nat)
    requires |z| == 9
  {
    || (n > DIRECT && k == z[7])
    || (n > DOUBLE && k == z[8])
    || exists q :: 0 <= q < WORDS_PER_BLOCK && DOUBLE + WORDS_PER_BLOCK * q < n && k == Level2(z, d, q)
  }

  /** What adding block `n` to a file does: the earlier blocks keep their zones, the new
      block's zones were clear and are taken, and only index blocks of the file are written. */
  ghost predicate Appended(z: seq<nat>, d: seq<Block>, bits: seq<bool>, z': seq<nat>, d': seq<Block>, bits': seq<bool>,
                           first: nat, nzones: nat, n: nat)
    requires |z| == 9 && n < MAX_FILE_BLOCKS
  {
    && |z'| == 9 && |d'| == |d|
    && (forall i :: 0 <= i < 9 && z'[i] != z[i] ==> first <= z'[i] < first + nzones)
    && (forall b :: 0 <= b < n ==> Part(z', d', b) == Part(z, d, b))
    && Distinct(Part(z', d', n))
    && AllBits(bits, first, nzones, Part(z', d', n), false)
    && bits' == Claimed(bits, first, Part(z', d', n))
    && (forall k :: 0 <= k < |d| && d'[k] != d[k] ==> IndexBlock(z', d', n + 1, k))
  }

  lemma {:induction false} DistinctAppend(s: seq<nat>, t: seq<nat>)
    requires Distinct(s) && Distinct(t) && forall x :: x in t ==> x !in s
    ensures Distinct(s + t)
  {
    if t == [] {
      assert s + t == s;
    } else {
      var m := |t| - 1;
      DistinctAppend(s, t[..m]);
      assert (s + t)[..|s| + m] == s + t[..m];
    }
  }

  /** Appending keeps the file a tree: it owns its old zones and the new part, in order,
      every earlier lookup is unchanged, and no data block of the file is touched. */
  lemma {:induction false} AppendedKeepsTree(z: seq<nat>, d: seq<Block>, bits: seq<bool>, z': seq<nat>, d': seq<Block>,
                                             bits': seq<bool>, first: nat, nzones: nat, n: nat)
    requires FileTree(z, d, bits, first, nzones, n) && n < MAX_FILE_BLOCKS
    requires Appended(z, d, bits, z', d', bits', first, nzones, n)
    ensures FileTree(z', d', bits', first, nzones, n + 1)
    ensures Owned(z', d', n + 1) == Owned(z, d, n) + Part(z', d', n)
    ensures forall b :: 0 <= b < n ==> Lookup(z', d', b) == Lookup(z, d, b)
  {
    hide Flatten, Parts, Lookup, Part;
    SameOwned(z, d, z', d', n);
    OwnedStep(z', d', n);
    DistinctAppend(Owned(z, d, n), Part(z', d', n));
    SameLookups(z, d, z', d', n);
  }

  lemma {:induction false} SameLookups(z: seq<nat>, d: seq<Block>, z': seq<nat>, d': seq<Block>, n: nat)
    requires |z| == 9 && |z'| == 9 && n <= MAX_FILE_BLOCKS && forall b :: 0 <= b < n ==>
               Part(z', d', b) == Part(z, d, b)
    ensures forall b :: 0 <= b < n ==> Lookup(z', d', b) == Lookup(z, d, b)
  {
    forall b | 0 <= b < n
      ensures Lookup(z', d', b) == Lookup(z, d, b)
    {
      SamePart(z, d, z', d', b);
    }
  }

  lemma {:induction false} SamePart(z: seq<nat>, d: seq<Block>, z': seq<nat>, d': seq<Block>, b: nat)
    requires |z| == 9 && |z'| == 9 && b < MAX_FILE_BLOCKS && Part(z', d', b) == Part(z, d, b)
    ensures Lookup(z', d', b) == Lookup(z, d, b)
  {
    assert Part(z', d', b)[PartSize(b) - 1] == Part(z, d, b)[PartSize(b) - 1];
  }

  /** The zone of a data block of a file is none of its index blocks. */
  lemma {:induction false} DataNotIndex(z: seq<nat>, d: seq<Block>, n: nat, b: nat, k: nat)
    requires |z| == 9 && b < n <= MAX_FILE_BLOCKS && Distinct(Owned(z, d, n)) && IndexBlock(z, d, n, k)
    ensures Lookup(z, d, b) != k
  {
    if n > DIRECT && k == z[7] {
      LookupApart(z, d, n, b, DIRECT, 0);
    } else if n > DOUBLE && k == z[8] {
      LookupApart(z, d, n, b, DOUBLE, 0);
    } else {
      var q :| 0 <= q < WORDS_PER_BLOCK && DOUBLE + WORDS_PER_BLOCK * q < n && k == Level2(z, d, q);
      var a := DOUBLE + WORDS_PER_BLOCK * q;
      assert (a - DOUBLE) / WORDS_PER_BLOCK == q;
      LookupApart(z, d, n, b, a, if q == 0 then 1 else 0);
    }
  }

  lemma {:induction false} LookupApart(z: seq<nat>, d: seq<Block>, n: nat, b: nat, a: nat, i: nat)
    requires |z| == 9 && b < n <= MAX_FILE_BLOCKS && Distinct(Owned(z, d, n))
    requires a < n && i < PartSize(a) - 1
    ensures Lookup(z, d, b) != Part(z, d, a)[i]
  {
    var ps := Parts(z, d, n);
    assert Lookup(z, d, b) == ps[b][PartSize(b) - 1];
    if a == b {
      ApartInPart(ps, a, i, PartSize(a) - 1);
    } else if a < b {
      PartsApart(ps, a, b, ps[a][i], ps[b][PartSize(b) - 1]);
    } else {
      PartsApart(ps, b, a, ps[b][PartSize(b) - 1], ps[a][i]);
    }
  }

  /** Appending leaves the contents of every data block, the new one included, alone. */
  lemma {:induction false} AppendedKeepsData(z: seq<nat>, d: seq<Block>, bits: seq<bool>, z': seq<nat>, d': seq<Block>,
                                             bits': seq<bool>, first: nat, nzones: nat, n: nat, b: nat)
    requires FileTree(z, d, bits, first, nzones, n) && b <= n < MAX_FILE_BLOCKS
    requires Appended(z, d, bits, z', d', bits', first, nzones, n)
    ensures At(d', Lookup(z', d', b)) == At(d, Lookup(z', d', b))
  {
    AppendedKeepsTree(z, d, bits, z', d', bits', first, nzones, n);
    var k := Lookup(z', d', b);
    if k < |d| && d'[k] != d[k] {
      DataNotIndex(z', d', n + 1, b, k);
    }
  }

  /** Blocks outside the data area are never written. */
  lemma {:induction false} AppendedKeepsRest(z: seq<nat>, d: seq<Block>, bits: seq<bool>, z': seq<nat>, d': seq<Block>,
                                             bits': seq<bool>, first: nat, nzones: nat, n: nat, k: nat)
    requires FileTree(z, d, bits, first, nzones, n) && n < MAX_FILE_BLOCKS
    requires Appended(z, d, bits, z', d', bits', first, nzones, n)
    requires k < |d| && k !in Owned(z', d', n + 1)
    ensures d'[k] == d[k]
  {
    if d'[k] != d[k] {
      IndexOwned(z', d', n + 1, k);
    }
  }

  lemma {:induction false} IndexOwned(z: seq<nat>, d: seq<Block>, n: nat, k: nat)
    requires |z| == 9 && n <= MAX_FILE_BLOCKS && IndexBlock(z, d, n, k)
    ensures k in Owned(z, d, n)
  {
    var ps := Parts(z, d, n);
    if n > DIRECT && k == z[7] {
      SingleIndexMember(z, d);
      FlattenMember(ps, DIRECT, k);
    } else if n > DOUBLE && k == z[8] {
      DoubleIndexMember(z, d);
      FlattenMember(ps, DOUBLE, k);
    } else {
      var q :| 0 <= q < WORDS_PER_BLOCK && DOUBLE + WORDS_PER_BLOCK * q < n && k == Level2(z, d, q);
      Level2Member(z, d, q);
      FlattenMember(ps, DOUBLE + WORDS_PER_BLOCK * q, k);
    }
  }

  // ---------------------------------------------------------------- other writes

  /** Writing a block that is no index block of the file changes none of its zones. */
  lemma {:induction false} WriteKeepsParts(z: seq<nat>, d: seq<Block>, n: nat, x: nat, data: Block)
    requires |z| == 9 && n <= MAX_FILE_BLOCKS && x < |d| && !IndexBlock(z, d, n, x)
    ensures forall b :: 0 <= b < n ==> Part(z, d[x := data], b) == Part(z, d, b)
    ensures Owned(z, d[x := data], n) == Owned(z, d, n)
    ensures forall b :: 0 <= b < n ==> Lookup(z, d[x := data], b) == Lookup(z, d, b)
  {
    var d' := d[x := data];
    forall b | 0 <= b < n
      ensures Part(z, d', b) == Part(z, d, b) && Lookup(z, d', b) == Lookup(z, d, b)
    {
      if b >= DOUBLE {
        var q := (b - DOUBLE) / WORDS_PER_BLOCK;
        assert DOUBLE + WORDS_PER_BLOCK * q < n;
        assert Level2(z, d', q) == Level2(z, d, q);
        assert At(d', Level2(z, d, q)) == At(d, Level2(z, d, q));
      }
    }
    SameOwned(z, d, z, d', n);
  }

  lemma {:induction false} LookupsDistinct(z: seq<nat>, d: seq<Block>, n: nat, a: nat, b: nat)
    requires |z| == 9 && a < b < n <= MAX_FILE_BLOCKS && Distinct(Owned(z, d, n))
    ensures Lookup(z, d, a) != Lookup(z, d, b)
  {
    var ps := Parts(z, d, n);
    assert ps[a][PartSize(a) - 1] == Lookup(z, d, a) && ps[b][PartSize(b) - 1] == Lookup(z, d, b);
    PartsApart(ps, a, b, Lookup(z, d, a), Lookup(z, d, b));
  }

  lemma {:induction false} LookupOwned(z: seq<nat>, d: seq<Block>, n: nat, b: nat)
    requires |z| == 9 && b < n <= MAX_FILE_BLOCKS
    ensures Lookup(z, d, b) in Owned(z, d, n)
  {
    assert Part(z, d, b)[PartSize(b) - 1] == Lookup(z, d, b);
    FlattenMember(Parts(z, d, n), b, Lookup(z, d, b));
  }
}
