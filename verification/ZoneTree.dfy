/** The zone tree of a MINIX file: seven direct zones, one block of zone numbers, and one
    block of blocks of zone numbers.

    A file of n blocks owns a sequence of zones, data and index blocks together, in the
    order in which they are first needed.  Here growing the file by one block is shown to
    append to that sequence and to leave every earlier block where it was. */
module ZoneTree {
  import opened Blocks

  const DIRECT: nat := 7
  const DOUBLE: nat := 519
  // Seven direct blocks, 512 behind one index block, 512 * 512 behind two.
  const MAX_FILE_BLOCKS: nat := 262_663

  /** Second-level index block `q` of the double-indirect tree. */
  function Level2(z: seq<nat>, d: seq<Block>, q: nat): nat
    requires |z| == 9 && q < WORDS_PER_BLOCK
  {
    Word(At(d, z[8]), q)
  }

  /** The zone that holds block `b` of the file. */
  function Lookup(z: seq<nat>, d: seq<Block>, b: nat): nat
    requires |z| == 9 && b < MAX_FILE_BLOCKS
  {
    if b < DIRECT then z[b]
    else if b < DOUBLE then Word(At(d, z[7]), b - DIRECT)
    else Word(At(d, Level2(z, d, (b - DOUBLE) / WORDS_PER_BLOCK)), (b - DOUBLE) % WORDS_PER_BLOCK)
  }

  /** The index blocks on the way to block `b` are blocks of the disk. */
  predicate IndexReadable(z: seq<nat>, d: seq<Block>, b: nat)
    requires |z| == 9 && b < MAX_FILE_BLOCKS
  {
    && (DIRECT <= b < DOUBLE ==> z[7] < |d|)
    && (b >= DOUBLE ==> z[8] < |d| && Level2(z, d, (b - DOUBLE) / WORDS_PER_BLOCK) < |d|)
  }

  /** The inode, or the two bytes of its index block for block `b`, hold the number of zone `x`;
      the way there leads through blocks of the disk. */
  ghost predicate Names(z: seq<nat>, d: seq<Block>, b: nat, x: nat) {
    |z| == 9 && b < 7 + 512 + 512 * 512 &&
    if b < 7 then z[b] == x
    else if b < 519 then z[7] < |d| && WordBytes(d[z[7]], b - 7, x)
    else
      var q := (b - 519) / 512;
      z[8] < |d| && exists y :: 0 <= y < |d| && WordBytes(d[z[8]], q, y) && WordBytes(d[y], (b - 519) % 512, x)
  }

  /** A zone is found where its number is stored, low byte first. */
  lemma {:induction false} LookupNames(z: seq<nat>, d: seq<Block>, b: nat)
    requires |z| == 9 && b < MAX_FILE_BLOCKS && IndexReadable(z, d, b)
    ensures Names(z, d, b, Lookup(z, d, b))
  {
    if b >= DOUBLE {
      var q := (b - DOUBLE) / WORDS_PER_BLOCK;
      WordHasBytes(d[z[8]], q);
      WordHasBytes(d[Level2(z, d, q)], (b - DOUBLE) % WORDS_PER_BLOCK);
    }
  }

  /** The index blocks first needed by block `b`. */
  function IndexZones(z: seq<nat>, d: seq<Block>, b: nat): seq<nat>
    requires |z| == 9 && b < MAX_FILE_BLOCKS
  {
    if b == DIRECT then [z[7]]
    else if b == DOUBLE then [z[8], Level2(z, d, 0)]
    else if b > DOUBLE && (b - DOUBLE) % WORDS_PER_BLOCK == 0 then [Level2(z, d, (b - DOUBLE) / WORDS_PER_BLOCK)]
    else []
  }

  /** The zones block `b` adds to the file. */
  function Part(z: seq<nat>, d: seq<Block>, b: nat): (p: seq<nat>)
    requires |z| == 9 && b < MAX_FILE_BLOCKS
    ensures |p| == PartSize(b)
  {
    IndexZones(z, d, b) + [Lookup(z, d, b)]
  }

  function PartSize(b: nat): nat {
    if b == DIRECT then 2
    else if b == DOUBLE then 3
    else if b > DOUBLE && (b - DOUBLE) % WORDS_PER_BLOCK == 0 then 2
    else 1
  }

  function Parts(z: seq<nat>, d: seq<Block>, n: nat): (ps: seq<seq<nat>>)
    requires |z| == 9 && n <= MAX_FILE_BLOCKS
    ensures |ps| == n
  {
    seq(n, b requires 0 <= b < n => Part(z, d, b))
  }

  function Flatten(ps: seq<seq<nat>>): seq<nat> {
    if ps == [] then [] else Flatten(ps[..|ps| - 1]) + ps[|ps| - 1]
  }

  /** All zones of a file of `n` blocks. */
  function Owned(z: seq<nat>, d: seq<Block>, n: nat): seq<nat>
    requires |z| == 9 && n <= MAX_FILE_BLOCKS
  {
    Flatten(Parts(z, d, n))
  }

  /** No element occurs twice. */
  ghost predicate Distinct(s: seq<nat>) {
    s == [] || (Distinct(s[..|s| - 1]) && s[|s| - 1] !in s[..|s| - 1])
  }

  lemma {:induction false} DistinctPositions(s: seq<nat>, i: nat, j: nat)
    requires Distinct(s) && i < j < |s|
    ensures s[i] != s[j]
  {
    if j < |s| - 1 {
      DistinctPositions(s[..|s| - 1], i, j);
    }
  }

  // ---------------------------------------------------------------- facts about ownership

  lemma {:induction false} FlattenPrefix(ps: seq<seq<nat>>, m: nat)
    requires m <= |ps|
    ensures Flatten(ps[..m]) <= Flatten(ps)
  {
    if m < |ps| {
      FlattenPrefix(ps[..|ps| - 1], m);
      assert ps[..|ps| - 1][..m] == ps[..m];
    } else {
      assert ps[..m] == ps;
    }
  }

  lemma {:induction false} FlattenMember(ps: seq<seq<nat>>, a: nat, x: nat)
    requires a < |ps| && x in ps[a]
    ensures x in Flatten(ps)
  {
    if a < |ps| - 1 {
      FlattenMember(ps[..|ps| - 1], a, x);
    }
  }

  lemma {:induction false} MemberOfPart(ps: seq<seq<nat>>, x: nat)
    requires x in Flatten(ps)
    ensures exists a :: 0 <= a < |ps| && x in ps[a]
  {
    if x !in ps[|ps| - 1] {
      MemberOfPart(ps[..|ps| - 1], x);
    }
  }

  lemma {:induction false} ApartInPrefix(s: seq<nat>, o: seq<nat>, p: seq<nat>, x: nat, y: nat)
    requires Distinct(s) && o + p <= s && x in o && y in p
    ensures x != y
  {
    var i :| 0 <= i < |o| && o[i] == x;
    var j :| 0 <= j < |p| && p[j] == y;
    assert s[i] == (o + p)[i] && s[|o| + j] == (o + p)[|o| + j];
    DistinctPositions(s, i, |o| + j);
  }

  /** When no zone occurs twice, different parts share none. */
  lemma {:induction false} PartsApart(ps: seq<seq<nat>>, a: nat, b: nat, x: nat, y: nat)
    requires a < b < |ps| && Distinct(Flatten(ps)) && x in ps[a] && y in ps[b]
    ensures x != y
  {
    assert ps[..b + 1][..b] == ps[..b];
    FlattenMember(ps[..b], a, x);
    FlattenPrefix(ps, b + 1);
    ApartInPrefix(Flatten(ps), Flatten(ps[..b]), ps[b], x, y);
  }

  lemma {:induction false} ApartInPart(ps: seq<seq<nat>>, a: nat, i: nat, j: nat)
    requires a < |ps| && Distinct(Flatten(ps)) && i < j < |ps[a]|
    ensures ps[a][i] != ps[a][j]
  {
    assert ps[..a + 1][..a] == ps[..a];
    FlattenPrefix(ps, a + 1);
    var o := Flatten(ps[..a]);
    assert Flatten(ps[..a + 1]) == o + ps[a];
    DistinctPositions(Flatten(ps), |o| + i, |o| + j);
  }

  lemma {:induction false} OwnedStep(z: seq<nat>, d: seq<Block>, n: nat)
    requires |z| == 9 && n < MAX_FILE_BLOCKS
    ensures Owned(z, d, n + 1) == Owned(z, d, n) + Part(z, d, n)
  {
    assert Parts(z, d, n + 1)[..n] == Parts(z, d, n);
  }

  /** Files with the same parts own the same zones. */
  lemma {:induction false} SameOwned(z: seq<nat>, d: seq<Block>, z': seq<nat>, d': seq<Block>, n: nat)
    requires |z| == |z'| == 9 && n <= MAX_FILE_BLOCKS
    requires forall b :: 0 <= b < n ==> Part(z', d', b) == Part(z, d, b)
    ensures Owned(z', d', n) == Owned(z, d, n)
  {
    assert Parts(z', d', n) == Parts(z, d, n);
  }

  lemma {:induction false} SingleIndexMember(z: seq<nat>, d: seq<Block>)
    requires |z| == 9
    ensures z[7] in Part(z, d, DIRECT)
  {
    assert Part(z, d, DIRECT)[0] == z[7];
  }

  lemma {:induction false} DoubleIndexMember(z: seq<nat>, d: seq<Block>)
    requires |z| == 9
    ensures z[8] in Part(z, d, DOUBLE)
  {
    assert Part(z, d, DOUBLE)[0] == z[8];
  }

  lemma {:induction false} Level2Member(z: seq<nat>, d: seq<Block>, q: nat)
    requires |z| == 9 && q < WORDS_PER_BLOCK
    ensures Level2(z, d, q) in Part(z, d, DOUBLE + WORDS_PER_BLOCK * q)
  {
    var b := DOUBLE + WORDS_PER_BLOCK * q;
    assert (b - DOUBLE) / WORDS_PER_BLOCK == q;
    assert Part(z, d, b)[if q == 0 then 1 else 0] == Level2(z, d, q);
  }

  // ---------------------------------------------------------------- growing by one block

  lemma {:induction false} GrowDirect(z: seq<nat>, d: seq<Block>, n: nat, x: nat)
    requires |z| == 9 && n < DIRECT
    ensures forall b :: 0 <= b < n ==> Part(z[n := x], d, b) == Part(z, d, b)
    ensures Part(z[n := x], d, n) == [x]
  {}

  /** Entry `i` of the index block `zone` set to `x`. */
  function Enter(d: seq<Block>, zone: nat, i: nat, x: nat): (d': seq<Block>)
    requires zone < |d| && i < WORDS_PER_BLOCK && x < 0x1_0000
    ensures |d'| == |d|
  {
    d[zone := SetWord(d[zone], i, x)]
  }

  lemma {:induction false} GrowSingle(z: seq<nat>, d: seq<Block>, n: nat, y: nat, x: nat)
    requires |z| == 9 && DIRECT <= n < DOUBLE && y < |d| && x < 0x1_0000
    requires n > DIRECT ==> z[7] == y
    ensures var d' := Enter(d, y, n - DIRECT, x);
            forall b :: 0 <= b < n ==> Part(z[7 := y], d', b) == Part(z, d, b)
    ensures Part(z[7 := y], Enter(d, y, n - DIRECT, x), n) == if n == DIRECT then [y, x] else [x]
  {
    var z' := z[7 := y];
    var d' := Enter(d, y, n - DIRECT, x);
    WordOfSetWord(d[y], n - DIRECT, x, n - DIRECT);
    forall b | 0 <= b < n
      ensures Part(z', d', b) == Part(z, d, b)
    {
      if b >= DIRECT {
        WordOfSetWord(d[y], n - DIRECT, x, b - DIRECT);
      }
    }
  }

  /** A second-level index block of a file is none of its other index blocks. */
  lemma {:induction false} Level2Apart(z: seq<nat>, d: seq<Block>, n: nat, q: nat, p: nat)
    requires |z| == 9 && n <= MAX_FILE_BLOCKS && Distinct(Owned(z, d, n))
    requires p < q < WORDS_PER_BLOCK && DOUBLE + WORDS_PER_BLOCK * q < n
    ensures Level2(z, d, q) != Level2(z, d, p)
  {
    hide Level2, Flatten;
    var a, b := DOUBLE + WORDS_PER_BLOCK * p, DOUBLE + WORDS_PER_BLOCK * q;
    Level2Member(z, d, p);
    Level2Member(z, d, q);
    PartsApart(Parts(z, d, n), a, b, Level2(z, d, p), Level2(z, d, q));
  }

  lemma {:induction false} Level2NotIndex(z: seq<nat>, d: seq<Block>, n: nat, q: nat)
    requires |z| == 9 && n <= MAX_FILE_BLOCKS && Distinct(Owned(z, d, n))
    requires q < WORDS_PER_BLOCK && DOUBLE + WORDS_PER_BLOCK * q < n
    ensures Level2(z, d, q) != z[7] && Level2(z, d, q) != z[8] && Level2(z, d, q) in Owned(z, d, n)
  {
    var b := DOUBLE + WORDS_PER_BLOCK * q;
    SingleIndexMember(z, d);
    Level2Member(z, d, q);
    MemberApart(Parts(z, d, n), DIRECT, b, z[7], Level2(z, d, q));
    Level2NotDouble(z, d, n, q, b);
  }

  lemma {:induction false} MemberApart(ps: seq<seq<nat>>, a: nat, b: nat, x: nat, y: nat)
    requires a < b < |ps| && Distinct(Flatten(ps)) && x in ps[a] && y in ps[b]
    ensures x != y && y in Flatten(ps)
  {
    FlattenMember(ps, b, y);
    PartsApart(ps, a, b, x, y);
  }

  lemma {:induction false} Level2NotDouble(z: seq<nat>, d: seq<Block>, n: nat, q: nat, b: nat)
    requires |z| == 9 && n <= MAX_FILE_BLOCKS && Distinct(Owned(z, d, n))
    requires q < WORDS_PER_BLOCK && b == DOUBLE + WORDS_PER_BLOCK * q < n && Level2(z, d, q) in Part(z, d, b)
    ensures Level2(z, d, q) != z[8]
  {
    var ps := Parts(z, d, n);
    if q > 0 {
      DoubleIndexMember(z, d);
      PartsApart(ps, DOUBLE, b, z[8], Level2(z, d, q));
    } else {
      assert ps[DOUBLE] == [z[8], Level2(z, d, q), Lookup(z, d, DOUBLE)];
      ApartInPart(ps, DOUBLE, 0, 1);
    }
  }

  lemma {:induction false} IndexApart(z: seq<nat>, d: seq<Block>, n: nat)
    requires |z| == 9 && n <= MAX_FILE_BLOCKS && Distinct(Owned(z, d, n)) && n > DOUBLE
    ensures z[7] in Owned(z, d, n) && z[8] in Owned(z, d, n) && z[7] != z[8]
  {
    SingleIndexMember(z, d);
    DoubleIndexMember(z, d);
    FlattenMember(Parts(z, d, n), DIRECT, z[7]);
    FlattenMember(Parts(z, d, n), DOUBLE, z[8]);
    PartsApart(Parts(z, d, n), DIRECT, DOUBLE, z[7], z[8]);
  }

  /** The disk once the second-level index block `w` for block `n` is entered in `y`,
      which it is when its first word comes into use. */
  function EnterSecond(d: seq<Block>, n: nat, y: nat, w: nat): (d': seq<Block>)
    requires DOUBLE <= n < MAX_FILE_BLOCKS && y < |d| && w < 0x1_0000
    ensures |d'| == |d|
  {
    if (n - DOUBLE) % WORDS_PER_BLOCK == 0 then Enter(d, y, (n - DOUBLE) / WORDS_PER_BLOCK, w) else d
  }

  /** The disk once block `n` is in zone `x`, entered in the second-level index block `w`. */
  function EnterDouble(d: seq<Block>, n: nat, y: nat, w: nat, x: nat): (d': seq<Block>)
    requires DOUBLE <= n < MAX_FILE_BLOCKS && y < |d| && w < |d| && x < 0x1_0000 && w < 0x1_0000
    ensures |d'| == |d|
  {
    Enter(EnterSecond(d, n, y, w), w, (n - DOUBLE) % WORDS_PER_BLOCK, x)
  }

  /** Where the entries of `EnterDouble` are found again, and which blocks it writes. */
  lemma {:induction false} DoubleEntries(z: seq<nat>, d: seq<Block>, n: nat, y: nat, w: nat, x: nat)
    requires |z| == 9 && DOUBLE <= n < MAX_FILE_BLOCKS && Distinct(Owned(z, d, n))
    requires y < |d| && w < |d| && x < 0x1_0000 && w < 0x1_0000
    requires if n == DOUBLE then y !in Owned(z, d, n) && y != w else y == z[8]
    requires if (n - DOUBLE) % WORDS_PER_BLOCK == 0 then w !in Owned(z, d, n)
             else w == Level2(z, d, (n - DOUBLE) / WORDS_PER_BLOCK)
    ensures var d' := EnterDouble(d, n, y, w, x);
            && Level2(z[8 := y], d', (n - DOUBLE) / WORDS_PER_BLOCK) == w
            && Lookup(z[8 := y], d', n) == x
            && z[7] != y && z[7] != w && y != w
            && forall k :: 0 <= k < |d| && k != y && k != w ==> d'[k] == d[k]
  {
    DoubleWritesApart(z, d, n, y, w);
    DoubleWrites(d, n, y, w, x);
  }

  /** The same for the disk alone. */
  lemma {:induction false} DoubleWrites(d: seq<Block>, n: nat, y: nat, w: nat, x: nat)
    requires DOUBLE <= n < MAX_FILE_BLOCKS && y < |d| && w < |d| && x < 0x1_0000 && w < 0x1_0000 && y != w
    requires (n - DOUBLE) % WORDS_PER_BLOCK != 0 ==> Word(At(d, y), (n - DOUBLE) / WORDS_PER_BLOCK) == w
    ensures var d' := EnterDouble(d, n, y, w, x);
            && Word(At(d', y), (n - DOUBLE) / WORDS_PER_BLOCK) == w
            && Word(At(d', w), (n - DOUBLE) % WORDS_PER_BLOCK) == x
            && forall k :: 0 <= k < |d| && k != y && k != w ==> d'[k] == d[k]
  {
    var q, r := (n - DOUBLE) / WORDS_PER_BLOCK, (n - DOUBLE) % WORDS_PER_BLOCK;
    if r == 0 { WordOfSetWord(d[y], q, w, q); }
    WordOfSetWord(d[w], r, x, r);
  }

  lemma {:induction false} GrowDouble(z: seq<nat>, d: seq<Block>, n: nat, y: nat, w: nat, x: nat)
    requires |z| == 9 && DOUBLE <= n < MAX_FILE_BLOCKS && Distinct(Owned(z, d, n))
    requires y < |d| && w < |d| && x < 0x1_0000 && w < 0x1_0000
    requires if n == DOUBLE then y !in Owned(z, d, n) && y != w else y == z[8]
    requires if (n - DOUBLE) % WORDS_PER_BLOCK == 0 then w !in Owned(z, d, n)
             else w == Level2(z, d, (n - DOUBLE) / WORDS_PER_BLOCK)
    ensures forall b :: 0 <= b < n ==> Part(z[8 := y], EnterDouble(d, n, y, w, x), b) == Part(z, d, b)
    ensures Part(z[8 := y], EnterDouble(d, n, y, w, x), n) ==
            if n == DOUBLE then [y, w, x] else if (n - DOUBLE) % WORDS_PER_BLOCK == 0 then [w, x] else [x]
  {
    NewDoublePart(z, d, n, y, w, x);
    DoubleEntries(z, d, n, y, w, x);
    var d' := EnterDouble(d, n, y, w, x);
    forall b | 0 <= b < n
      ensures Part(z[8 := y], d', b) == Part(z, d, b)
    {
      if b >= DOUBLE {
        EarlierDoubleBlock(z, d, n, y, w, x, b);
      }
    }
  }

  lemma {:induction false} NewDoublePart(z: seq<nat>, d: seq<Block>, n: nat, y: nat, w: nat, x: nat)
    requires |z| == 9 && DOUBLE <= n < MAX_FILE_BLOCKS && Distinct(Owned(z, d, n))
    requires y < |d| && w < |d| && x < 0x1_0000 && w < 0x1_0000
    requires if n == DOUBLE then y !in Owned(z, d, n) && y != w else y == z[8]
    requires if (n - DOUBLE) % WORDS_PER_BLOCK == 0 then w !in Owned(z, d, n)
             else w == Level2(z, d, (n - DOUBLE) / WORDS_PER_BLOCK)
    ensures Part(z[8 := y], EnterDouble(d, n, y, w, x), n) ==
            if n == DOUBLE then [y, w, x] else if (n - DOUBLE) % WORDS_PER_BLOCK == 0 then [w, x] else [x]
  {
    DoubleEntries(z, d, n, y, w, x);
  }

  /** The blocks written are neither the single index block nor each other. */
  lemma {:induction false} DoubleWritesApart(z: seq<nat>, d: seq<Block>, n: nat, y: nat, w: nat)
    requires |z| == 9 && DOUBLE <= n < MAX_FILE_BLOCKS && Distinct(Owned(z, d, n))
    requires if n == DOUBLE then y !in Owned(z, d, n) && y != w else y == z[8]
    requires if (n - DOUBLE) % WORDS_PER_BLOCK == 0 then w !in Owned(z, d, n)
             else w == Level2(z, d, (n - DOUBLE) / WORDS_PER_BLOCK)
    ensures y != w && z[7] != y && z[7] != w
  {
    SecondLevelStarts(n);
    WritesApart(z, d, n, y, w, (n - DOUBLE) / WORDS_PER_BLOCK, (n - DOUBLE) % WORDS_PER_BLOCK != 0);
  }

  lemma {:induction false} SecondLevelStarts(n: nat)
    requires DOUBLE <= n < MAX_FILE_BLOCKS
    ensures var q := (n - DOUBLE) / WORDS_PER_BLOCK;
            q < WORDS_PER_BLOCK && ((n - DOUBLE) % WORDS_PER_BLOCK != 0 ==> DOUBLE + WORDS_PER_BLOCK * q < n)
  {}

  lemma {:induction false} WritesApart(z: seq<nat>, d: seq<Block>, n: nat, y: nat, w: nat, q: nat, existing: bool)
    requires |z| == 9 && DOUBLE <= n < MAX_FILE_BLOCKS && Distinct(Owned(z, d, n)) && q < WORDS_PER_BLOCK
    requires if n == DOUBLE then y !in Owned(z, d, n) && y != w && !existing else y == z[8]
    requires if existing then DOUBLE + WORDS_PER_BLOCK * q < n && w == Level2(z, d, q) else w !in Owned(z, d, n)
    ensures y != w && z[7] != y && z[7] != w
  {
    SingleOwned(z, d, n);
    if n > DOUBLE { IndexApart(z, d, n); }
    if existing { Level2NotIndex(z, d, n, q); }
  }

  lemma {:induction false} SingleOwned(z: seq<nat>, d: seq<Block>, n: nat)
    requires |z| == 9 && DIRECT < n <= MAX_FILE_BLOCKS
    ensures z[7] in Owned(z, d, n)
  {
    SingleIndexMember(z, d);
    FlattenMember(Parts(z, d, n), DIRECT, z[7]);
  }

  /** One double-indirect block that was there before, under `GrowDouble`. */
  lemma {:induction false} EarlierDoubleBlock(z: seq<nat>, d: seq<Block>, n: nat, y: nat, w: nat, x: nat, b: nat)
    requires |z| == 9 && DOUBLE < n < MAX_FILE_BLOCKS && Distinct(Owned(z, d, n)) && DOUBLE <= b < n
    requires y < |d| && w < |d| && x < 0x1_0000 && w < 0x1_0000 && y == z[8] && y != w
    requires if (n - DOUBLE) % WORDS_PER_BLOCK == 0 then w !in Owned(z, d, n)
             else w == Level2(z, d, (n - DOUBLE) / WORDS_PER_BLOCK)
    ensures Part(z[8 := y], EnterDouble(d, n, y, w, x), b) == Part(z, d, b)
  {
    var q, r := (n - DOUBLE) / WORDS_PER_BLOCK, (n - DOUBLE) % WORDS_PER_BLOCK;
    var p, i := (b - DOUBLE) / WORDS_PER_BLOCK, (b - DOUBLE) % WORDS_PER_BLOCK;
    assert n - DOUBLE == WORDS_PER_BLOCK * q + r && b - DOUBLE == WORDS_PER_BLOCK * p + i;
    assert p <= q && (p == q ==> i < r) && (r == 0 ==> p < q);
    var d1 := if r == 0 then Enter(d, y, q, w) else d;
    var d2 := Enter(d1, w, r, x);
    Level2NotIndex(z, d, n, p);
    var l := Level2(z, d, p);
    if r == 0 { WordOfSetWord(d[y], q, w, p); }
    assert Level2(z[8 := y], d2, p) == l;
    if p < q {
      if r != 0 { Level2Apart(z, d, n, q, p); }
      assert At(d2, l) == At(d, l);
    } else {
      WordOfSetWord(d[w], r, x, i);
    }
  }
}
