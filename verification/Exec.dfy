/** Replacing the current process by a program: frames, two descriptors and an open file,
    acquired and given back as one transaction. */
module Exec {
  import opened Frames
  import opened Gdt
  import opened AOut

  datatype Segs = Segs(cs: nat, ss: nat, ds: nat, es: nat, fs: nat, gs: nat)

  datatype Regs = Regs(eax: nat, ebx: nat, ecx: nat, edx: nat, edi: nat, esi: nat, ebp: nat, esp: nat, eip: int,
                       eflags: nat)

  // What a file's driver does with the next read: fail, or give at most so many bytes.
  datatype Reply = Fails | Gives(n: nat)

  // What a process runs in: the entries of its two descriptors, and its frames.
  datatype Image = Nothing | Loaded(code: nat, data: nat, first: nat, count: nat)

  /** The selector of a table offset at user level. */
  function UserSelector(offset: nat): nat {
    offset - offset % 4 + 3
  }

  function UserSegs(code: nat, data: nat): Segs {
    var ds := UserSelector(data);
    Segs(UserSelector(code), ds, ds, ds, ds, ds)
  }

  function CodeEntry(first: nat, count: nat): Entry {
    Segment(first * FRAME_SIZE, count, USER_CODE)
  }

  function DataEntry(first: nat, count: nat): Entry {
    Segment(first * FRAME_SIZE, count, USER_DATA)
  }

  // Table and frames together.
  datatype Resources = Resources(e: seq<Entry>, st: seq<Status>)

  /** The selectors name two segments over one run of used frames, or nothing at all. */
  ghost predicate Owns(im: Image, segs: Segs, r: Resources, total: nat) {
    |r.e| == ENTRIES && OwnsParts(im, segs, r, total) == true
  }

  ghost predicate OwnsParts(im: Image, segs: Segs, r: Resources, total: nat) {
    && |r.e| == ENTRIES && r.e[0] == Null && total <= MAX_FRAMES && total <= |r.st|
    && match im {
         case Nothing => segs == Segs(0, 0, 0, 0, 0, 0)
         case Loaded(c, d, f, n) =>
           && 1 <= c < ENTRIES && 1 <= d < ENTRIES && c != d && segs == UserSegs(8 * c, 8 * d)
           && USER_FIRST_FRAME <= f && 1 <= n && f + n <= total
           && r.e[c] == CodeEntry(f, n) && r.e[d] == DataEntry(f, n)
           && forall i :: f <= i < f + n ==> r.st[i] == Used
       }
  }

  /** Table and frames without the image. */
  ghost function Without(im: Image, r: Resources): Resources
    requires im.Loaded? ==> im.code < |r.e| && im.data < |r.e|
  {
    match im
    case Nothing => r
    case Loaded(c, d, f, n) => Resources(r.e[c := Null][d := Null], Released(r.st, f, f + n))
  }

  /** Table and frames with an image of `n` frames at `f` in entries `c` and `d`. */
  ghost function With(r: Resources, c: nat, d: nat, f: nat, n: nat): Resources
    requires c < |r.e| && d < |r.e|
  {
    Resources(r.e[c := CodeEntry(f, n)][d := DataEntry(f, n)], Marked(r.st, f, n, Used))
  }

  /** What releasing one selector does. */
  ghost function AfterRelease(r: Resources, total: nat, s: nat): Resources
    requires s / 8 < |r.e|
  {
    match r.e[s / 8]
    case Null => r
    case Segment(base, limit, _) =>
      var f := base / FRAME_SIZE;
      Resources(r.e[s / 8 := Null], Released(r.st, f, ReleaseEnd(f, limit, total)))
  }

  lemma {:induction false} ReleasedTwice(st: seq<Status>, f: nat, last: nat)
    ensures Released(Released(st, f, last), f, last) == Released(st, f, last)
  {}

  lemma {:induction false} UserSelectorIndex(k: nat)
    ensures UserSelector(8 * k) / 8 == k
  {}

  /** A selector for user level of the descriptor table, at the index it was made for. */
  lemma {:induction false} UserSelectorFields(k: nat)
    ensures UserSelector(8 * k) == 8 * k + 4 * 0 + 3
  {}

  /** A program runs in a code segment and has its data, its stack and all else in a data segment,
      both for user level and over the same bytes. */
  lemma {:induction false} SegmentsOwned(im: Image, segs: Segs, r: Resources, total: nat)
    requires Owns(im, segs, r, total) && im.Loaded?
    ensures segs.cs % 8 == 3 && segs.ds % 8 == 3 && segs.ss == segs.es == segs.fs == segs.gs == segs.ds
    ensures segs.cs / 8 < ENTRIES && segs.ds / 8 < ENTRIES
    ensures var c, d := r.e[segs.cs / 8], r.e[segs.ds / 8];
            && c.Segment? && d.Segment? && c.base == d.base == im.first * 4096 && c.limit == d.limit == im.count
            && Set(c.flags, 43) && !Set(d.flags, 43) && Set(d.flags, 41)
            && Set(c.flags, 45) && Set(c.flags, 46) && Set(d.flags, 45) && Set(d.flags, 46)
  {
    hide Set, UserSelector;
    UserSelectorFields(im.code);
    UserSelectorFields(im.data);
    UserSelectorIndex(im.code);
    UserSelectorIndex(im.data);
    UserAccess(USER_CODE);
    UserAccess(USER_DATA);
    UserKinds();
  }

  lemma {:induction false} UserKinds()
    ensures USER_CODE != USER_DATA
  {}

  lemma {:induction false} ReleaseOne(r: Resources, total: nat, s: nat, f: nat, n: nat)
    requires s / 8 < |r.e| && f + n <= total <= MAX_FRAMES && f < total
    requires r.e[s / 8] == CodeEntry(f, n) || r.e[s / 8] == DataEntry(f, n)
    ensures AfterRelease(r, total, s) == Resources(r.e[s / 8 := Null], Released(r.st, f, f + n))
  {
    assert f * FRAME_SIZE / FRAME_SIZE == f;
  }

  /** Releasing the code selector, then the data selector, which name the same frames, frees
      them once. */
  lemma {:induction false} ReleaseBoth(im: Image, segs: Segs, r: Resources, total: nat)
    requires Owns(im, segs, r, total)
    ensures segs.cs / 8 < ENTRIES && segs.ds / 8 < ENTRIES
    ensures AfterRelease(AfterRelease(r, total, segs.cs), total, segs.ds) == Without(im, r)
    ensures Without(im, r).e[segs.ds / 8] == Null
  {
    if im.Loaded? {
      UserSelectorIndex(im.code);
      UserSelectorIndex(im.data);
      ReleaseOne(r, total, segs.cs, im.first, im.count);
      ReleaseOne(AfterRelease(r, total, segs.cs), total, segs.ds, im.first, im.count);
      ReleasedTwice(r.st, im.first, im.first + im.count);
    }
  }

  // ---------------------------------------------------------------- a second image

  ghost function SecondNull(e: seq<Entry>): (k: nat)
    requires |e| >= 1
    ensures k <= |e|
  {
    var c := FirstNull(e, 1);
    if c == |e| then c else FirstNull(e, c + 1)
  }

  /** There are two null entries after entry 0. */
  ghost predicate TwoNull(e: seq<Entry>)
    requires |e| >= 1
  {
    SecondNull(e) < |e|
  }

  /** The second null entry is the first one once the first is taken. */
  lemma {:induction false} NextNull(e: seq<Entry>, d: Entry)
    requires d != Null && |e| >= 1 && FirstNull(e, 1) < |e|
    ensures FirstNull(e[FirstNull(e, 1) := d], 1) == SecondNull(e)
  {
    var e' := e[FirstNull(e, 1) := d];
    var k := SecondNull(e);
    assert forall j :: 1 <= j < k ==> e'[j] != Null;
    assert k < |e| ==> e'[k] == Null;
  }

  /** Taking a free run and the first two null entries gives an image beside the old one, and
      either can go without the other. */
  lemma {:induction false} Beside(im: Image, segs: Segs, r: Resources, total: nat, f: nat, n: nat)
    requires Owns(im, segs, r, total) && n >= 1 && USER_FIRST_FRAME <= f && RunAt(r.st, f, n, total) && TwoNull(r.e)
    ensures var c, d := FirstNull(r.e, 1), SecondNull(r.e);
            var r', im' := With(r, c, d, f, n), Loaded(c, d, f, n);
            && Owns(im, segs, r', total) && Owns(im', UserSegs(8 * c, 8 * d), Without(im, r'), total)
            && Without(im, r') == With(Without(im, r), c, d, f, n) && Without(im', r') == r
  {
    hide FirstNull, SecondNull, RunAt, TwoNull, Marked, Released;
    BesideUndone(im, segs, r, total, f, n);
    if im.Loaded? { BesideLoaded(im, segs, r, total, f, n); }
    BesideNew(im, segs, r, total, f, n);
  }

  lemma {:induction false} BesideUndone(im: Image, segs: Segs, r: Resources, total: nat, f: nat, n: nat)
    requires Owns(im, segs, r, total) && n >= 1 && USER_FIRST_FRAME <= f && RunAt(r.st, f, n, total) && TwoNull(r.e)
    ensures var c, d := FirstNull(r.e, 1), SecondNull(r.e);
            1 <= c < d < ENTRIES && Without(Loaded(c, d, f, n), With(r, c, d, f, n)) == r
  {
    assert Released(Marked(r.st, f, n, Used), f, f + n) == r.st;
  }

  lemma {:induction false} BesideLoaded(im: Image, segs: Segs, r: Resources, total: nat, f: nat, n: nat)
    requires Owns(im, segs, r, total) && n >= 1 && USER_FIRST_FRAME <= f && RunAt(r.st, f, n, total) && TwoNull(r.e)
    requires im.Loaded?
    ensures var c, d := FirstNull(r.e, 1), SecondNull(r.e);
            var r' := With(r, c, d, f, n);
            && c < ENTRIES && d < ENTRIES && Owns(im, segs, r', total)
            && Without(im, r') == With(Without(im, r), c, d, f, n)
  {
    hide UserSegs;
    ApartRuns(r.st, im.first, im.count, f, n, total);
    ApartEntries(im, r.e, CodeEntry(f, n), DataEntry(f, n));
  }

  lemma {:induction false} BesideNew(im: Image, segs: Segs, r: Resources, total: nat, f: nat, n: nat)
    requires Owns(im, segs, r, total) && n >= 1 && USER_FIRST_FRAME <= f && RunAt(r.st, f, n, total) && TwoNull(r.e)
    requires var c, d := FirstNull(r.e, 1), SecondNull(r.e);
             1 <= c < d < ENTRIES && Without(im, With(r, c, d, f, n)) == With(Without(im, r), c, d, f, n)
    ensures var c, d := FirstNull(r.e, 1), SecondNull(r.e);
            Owns(Loaded(c, d, f, n), UserSegs(8 * c, 8 * d), Without(im, With(r, c, d, f, n)), total)
  {}

  lemma {:induction false} ApartEntries(im: Image, e: seq<Entry>, x: Entry, y: Entry)
    requires im.Loaded? && |e| == ENTRIES && im.code < ENTRIES && im.data < ENTRIES && TwoNull(e)
    requires e[im.code] != Null && e[im.data] != Null
    ensures var c, d := FirstNull(e, 1), SecondNull(e);
            && c != im.code && c != im.data && d != im.code && d != im.data
            && e[c := x][d := y][im.code := Null][im.data := Null] ==
               e[im.code := Null][im.data := Null][c := x][d := y]
  {}

  lemma {:induction false} ApartRuns(st: seq<Status>, f0: nat, n0: nat, f: nat, n: nat, total: nat)
    requires n0 >= 1 && n >= 1 && f0 + n0 <= |st| && RunAt(st, f, n, total)
    requires forall i :: f0 <= i < f0 + n0 ==> st[i] == Used
    ensures f + n <= f0 || f0 + n0 <= f
    ensures Released(Marked(st, f, n, Used), f0, f0 + n0) == Marked(Released(st, f0, f0 + n0), f, n, Used)
  {
    assert st[f0] == Used && st[f] == Free;
  }

  // ---------------------------------------------------------------- what a segment reaches

  /** The first byte behind a segment: its limit is the number of its last unit of 4096 bytes. */
  function Reach(en: Entry): nat
    requires en.Segment?
  {
    en.base + (en.limit + 1) * FRAME_SIZE
  }

  /** The segment reaches a byte of the `n` frames at `f`. */
  ghost predicate ReachesInto(en: Entry, f: nat, n: nat)
    requires en.Segment?
  {
    exists a: nat :: Within(a, en.base, Reach(en)) && Within(a, f * FRAME_SIZE, (f + n) * FRAME_SIZE)
  }

  predicate Within(a: nat, from: nat, to: nat) {
    from <= a < to
  }

  lemma {:induction false} ReachesIntoIff(en: Entry, first: nat, count: nat, f: nat, n: nat)
    requires en.Segment? && en.base == first * FRAME_SIZE && en.limit == count && count >= 1 && n >= 1
    requires f + n <= first || first + count <= f
    ensures Reach(en) == (first + count + 1) * FRAME_SIZE
    ensures ReachesInto(en, f, n) <==> f == first + count
  {
    if f == first + count {
      var a := f * FRAME_SIZE;
      assert Within(a, en.base, Reach(en)) && Within(a, f * FRAME_SIZE, (f + n) * FRAME_SIZE);
    }
  }

  /** The limit of a program's segments counts their frames, so they reach one frame past the
      program's own: while a second image stands beside the first, either one reaches into the
      other exactly if that starts right behind it. */
  lemma {:induction false} ReachesNextIff(im: Image, segs: Segs, r: Resources, total: nat, f: nat, n: nat)
    requires Owns(im, segs, r, total) && im.Loaded? && n >= 1 && RunAt(r.st, f, n, total) && TwoNull(r.e)
    ensures var c, d := FirstNull(r.e, 1), SecondNull(r.e);
            var e := With(r, c, d, f, n).e;
            && e[im.code].Segment? && e[im.data].Segment? && e[c].Segment? && e[d].Segment?
            && Reach(e[im.code]) == Reach(e[im.data]) == (im.first + im.count + 1) * FRAME_SIZE
            && (ReachesInto(e[im.code], f, n) <==> f == im.first + im.count)
            && (ReachesInto(e[im.data], f, n) <==> f == im.first + im.count)
            && (ReachesInto(e[c], im.first, im.count) <==> im.first == f + n)
            && (ReachesInto(e[d], im.first, im.count) <==> im.first == f + n)
  {
    hide ReachesInto, Reach;
    ApartRuns(r.st, im.first, im.count, f, n, total);
    ApartEntries(im, r.e, CodeEntry(f, n), DataEntry(f, n));
    ReachesIntoIff(r.e[im.code], im.first, im.count, f, n);
    ReachesIntoIff(r.e[im.data], im.first, im.count, f, n);
    ReachesIntoIff(CodeEntry(f, n), f, n, im.first, im.count);
    ReachesIntoIff(DataEntry(f, n), f, n, im.first, im.count);
  }

  /** The run a program of `n` frames gets. */
  ghost function UserRun(r: Resources, n: nat, total: nat): Option<nat> {
    FirstFit(r.st, n, USER_FIRST_FRAME, total)
  }

  lemma {:induction false} UserRunIsFree(im: Image, segs: Segs, r: Resources, total: nat, n: nat)
    requires Owns(im, segs, r, total) && n >= 1 && UserRun(r, n, total).Some?
    ensures var f := UserRun(r, n, total).value;
            && USER_FIRST_FRAME <= f && RunAt(r.st, f, n, total) && n < 0x10_0000 && f * FRAME_SIZE < 0x1_0000_0000
            && CodeEntry(f, n).Valid() && DataEntry(f, n).Valid() && f * FRAME_SIZE / FRAME_SIZE == f
            && ReleaseEnd(f, n, total) == f + n && Released(Marked(r.st, f, n, Used), f, f + n) == r.st
  {
    FirstFitIsLeast(r.st, n, USER_FIRST_FRAME, total);
    UserFlags();
  }

  /** What acquiring the resources of a program of `n` frames does: the least free run of user
      frames and the first two null entries are taken, or nothing is. */
  ghost predicate Acquired(r: Resources, r': Resources, total: nat, n: nat, base: nat, code: nat, data: nat)
    requires |r.e| == ENTRIES
  {
    var run := UserRun(r, n, total);
    if run.None? || !TwoNull(r.e) then base == 0 && r' == r
    else
      var c, d := FirstNull(r.e, 1), SecondNull(r.e);
      base == run.value * FRAME_SIZE && base > 0 && code == 8 * c && data == 8 * d && r' == With(r, c, d, run.value, n)
  }

  /** Resources that were acquired: the new image stands beside the old one, and taking it out
      again restores everything. */
  lemma {:induction false} AcquiredGood(im: Image, segs: Segs, r: Resources, r': Resources, total: nat, n: nat,
                                        base: nat, code: nat, data: nat)
    requires Owns(im, segs, r, total) && n >= 1 && base != 0 && Acquired(r, r', total, n, base, code, data)
    ensures code / 8 < ENTRIES && data / 8 < ENTRIES && n < 0x10_0000
    ensures var f := base / FRAME_SIZE;
            var im' := Loaded(code / 8, data / 8, f, n);
            && base == f * FRAME_SIZE && f + n <= total && Owns(im, segs, r', total)
            && Without(im', r') == r && Owns(im', UserSegs(code, data), Without(im, r'), total)
            && ImageOf(im, im', segs, r, Without(im, r'), total)
  {
    UserRunIsFree(im, segs, r, total, n);
    Beside(im, segs, r, total, base / FRAME_SIZE, n);
  }

  /** `im'` is in the least free run and the first two null entries of `r`, and `r'` is `r` with
      it in place of `im`. */
  ghost predicate ImageOf(im: Image, im': Image, segs: Segs, r: Resources, r': Resources, total: nat)
    requires Owns(im, segs, r, total)
  {
    && im'.Loaded? && UserRun(r, im'.count, total) == Some(im'.first) && TwoNull(r.e)
    && im'.code == FirstNull(r.e, 1) && im'.data == SecondNull(r.e)
    && r' == With(Without(im, r), im'.code, im'.data, im'.first, im'.count)
  }

  // ---------------------------------------------------------------- memory

  ghost predicate Holds(m: seq<bv8>, a: nat, b: seq<bv8>) {
    a + |b| <= |m| && m[a..a + |b|] == b
  }

  ghost predicate SameOutside(m: seq<bv8>, m': seq<bv8>, lo: int, hi: int) {
    |m'| == |m| && forall i {:trigger m'[i]} :: 0 <= i < |m| && !(lo <= i < hi) ==> m'[i] == m[i]
  }

  class Processes {
    const frames: FrameMap
    const table: Table
    const ram: array<bv8>
    var segs: Segs
    var regs: Regs
    var open: set<nat>
    // The file being read.
    var content: seq<bv8>
    var pos: nat
    var replies: seq<Reply>

    /** The initial process, which runs in nothing yet. */
    constructor (frames: FrameMap, table: Table, ram: array<bv8>)
      requires frames.Valid() && table.Valid() && frames.bm != ram && ram.Length == frames.total * FRAME_SIZE
      requires (table.entries as object) != ram && (table.entries as object) != frames.bm
      ensures Valid(Nothing) && this.frames == frames && this.table == table && this.ram == ram && open == {}
    {
      this.frames, this.table, this.ram := frames, table, ram;
      segs, regs := Segs(0, 0, 0, 0, 0, 0), Regs(0, 0, 0, 0, 0, 0, 0, 0, 0, 0);
      open, content, pos, replies := {}, [], 0, [];
    }

    /** Parts in order, and kept apart in memory. */
    ghost predicate Sound()
      reads this, frames, frames.bm, table, table.entries
    {
      && frames.Valid() && table.Valid() && frames.bm != ram && ram.Length == frames.total * FRAME_SIZE
      && (table.entries as object) != ram && (table.entries as object) != frames.bm
    }

    ghost function Held(): Resources
      reads frames, table
    {
      Resources(table.view, frames.states)
    }

    /** The current process runs in `im`. */
    ghost predicate Valid(im: Image)
      reads this, frames, frames.bm, table, table.entries
    {
      Sound() && Owns(im, segs, Held(), frames.total)
    }

    // -------------------------------------------------------------- release

    method ReleaseSegment(s: nat)
      requires Sound() && s / 8 < ENTRIES
      modifies frames.bm, frames`states, table.entries, table`view
      ensures Sound() && Held() == AfterRelease(old(Held()), frames.total, s)
    {
      var isNull, base, limit := table.Get(s);
      if isNull {
        return;
      }
      table.Dealloc(s);
      frames.ReleaseFrames(base, limit);
    }

    /** Gives back what the six selectors name: segments and frames once, although code and
        data name the same frames. */
    method ReleaseMemory(ghost im: Image)
      requires Valid(im)
      modifies frames.bm, frames`states, table.entries, table`view
      ensures Sound() && Held() == Without(im, old(Held()))
    {
      ReleaseBoth(im, segs, Held(), frames.total);
      ReleaseSegment(segs.cs);
      ReleaseSegment(segs.ds);
      ReleaseSegment(segs.ss);
      ReleaseSegment(segs.es);
      ReleaseSegment(segs.fs);
      ReleaseSegment(segs.gs);
    }

    // -------------------------------------------------------------- reading the program

    /** One read of the file: -1, or some bytes, none at the end. */
    method Fetch(count: nat) returns (r: int, bytes: seq<bv8>)
      requires pos <= |content|
      modifies `pos, `replies
      ensures -1 <= r <= count && |bytes| == (if r == -1 then 0 else r) && pos == old(pos) + |bytes| <= |content|
      ensures bytes == content[old(pos)..pos]
      ensures old(replies) == [] ==>
                replies == [] && r == if count <= |content| - old(pos) then count else |content| - old(pos)
    {
      var reply := Gives(count);
      if replies != [] {
        reply, replies := replies[0], replies[1..];
      }
      if reply.Fails? {
        return -1, [];
      }
      var n := |content| - pos;
      n := if count < n then count else n;
      n := if reply.n < n then reply.n else n;
      r, bytes := n, content[pos..pos + n];
      pos := pos + n;
    }

    /** Reads into memory. */
    method Read(addr: nat, count: nat) returns (r: int)
      requires pos <= |content| && addr + count <= ram.Length
      modifies `pos, `replies, ram
      ensures -1 <= r <= count && old(pos) <= pos <= |content| && pos == old(pos) + (if r == -1 then 0 else r)
      ensures SameOutside(old(ram[..]), ram[..], addr, addr + count)
      ensures SameOutside(old(ram[..]), ram[..], addr, addr + (pos - old(pos)))
              && Holds(ram[..], addr, content[old(pos)..pos])
      ensures old(replies) == [] ==>
                replies == [] && r == if count <= |content| - old(pos) then count else |content| - old(pos)
    {
      var bytes;
      r, bytes := Fetch(count);
      forall i | 0 <= i < |bytes| {
        ram[addr + i] := bytes[i];
      }
      assert ram[..][addr..addr + |bytes|] == bytes;
    }

    /** Loads the next `size` bytes of the file at `addr`, in as many reads as it takes. */
    method LoadPart(addr: nat, size: int) returns (ok: bool)
      requires pos <= |content| && addr <= ram.Length && addr + size <= ram.Length
      modifies `pos, `replies, ram
      ensures old(pos) <= pos <= |content| && SameOutside(old(ram[..]), ram[..], addr, addr + size)
      ensures ok ==> pos == old(pos) + (if size > 0 then size else 0) && Holds(ram[..], addr, content[old(pos)..pos])
      ensures old(replies) == [] ==> replies == [] && (ok <==> old(pos) + size <= |content|)
    {
      ghost var m, p := ram[..], pos;
      assert m[addr..addr] == content[p..p];
      var br := 0;
      while br < size
        invariant 0 <= br && (br <= size || br == 0) && pos == p + br <= |content|
        invariant SameOutside(m, ram[..], addr, addr + size) && Holds(ram[..], addr, content[p..pos])
        invariant old(replies) == [] ==> replies == []
      {
        ghost var m1 := ram[..];
        var r := Read(addr + br, size - br);
        PartGrows(m, m1, ram[..], addr, addr + size, content, p, p + br, pos);
        if r == -1 || r == 0 {
          return false;
        }
        br := br + r;
      }
      ok := true;
    }

    /** The header is read in one piece, or not at all. */
    method ReadHeader() returns (ok: bool, h: Header)
      requires pos == 0
      modifies `pos, `replies
      ensures ok ==> |content| >= HEADER_SIZE && h == HeaderOf(content[..HEADER_SIZE])
      ensures old(replies) == [] ==> replies == [] && (ok <==> |content| >= HEADER_SIZE)
      ensures pos <= |content|
    {
      var r, bytes := Fetch(HEADER_SIZE);
      h := Header(0, 0, 0, 0);
      ok := r == HEADER_SIZE;
      if ok {
        h := HeaderOf(bytes);
        assert bytes == content[..HEADER_SIZE];
      }
    }

    // -------------------------------------------------------------- the transaction

    /** Two segments over the run at `base`, or none. */
    method TakeSegments(base: nat, n: nat) returns (code: nat, data: nat)
      requires table.Valid() && base % FRAME_SIZE == 0
      requires CodeEntry(base / FRAME_SIZE, n).Valid() && DataEntry(base / FRAME_SIZE, n).Valid()
      modifies table.entries, table`view
      ensures table.Valid()
      ensures if !TwoNull(old(table.view)) then code == 0 && table.view == old(table.view)
              else
                var c, d := FirstNull(old(table.view), 1), SecondNull(old(table.view));
                code == 8 * c && data == 8 * d
                && table.view == old(table.view)[c := CodeEntry(base / FRAME_SIZE, n)]
                                                  [d := DataEntry(base / FRAME_SIZE, n)]
    {
      ghost var e := table.view;
      data := 0;
      code := table.Alloc(base, n, USER_CODE);
      if code == 0 {
        return;
      }
      NextNull(e, CodeEntry(base / FRAME_SIZE, n));
      data := table.Alloc(base, n, USER_DATA);
      if data == 0 {
        table.Dealloc(code);
        code := 0;
      }
    }

    /** Frames and two segments for a program of `n` frames, or nothing. */
    method Acquire(n: nat, ghost im: Image) returns (base: nat, code: nat, data: nat)
      requires Valid(im) && n >= 1
      modifies frames.bm, frames`states, table.entries, table`view
      ensures Sound() && Acquired(old(Held()), Held(), frames.total, n, base, code, data)
    {
      ghost var r := Held();
      code, data := 0, 0;
      base := frames.AllocateFrames(n, USER_FIRST_FRAME, 0);
      if base == 0 {
        return;
      }
      UserRunIsFree(im, segs, r, frames.total, n);
      code, data := TakeSegments(base, n);
      if code == 0 {
        frames.ReleaseFrames(base, n);
        base := 0;
      }
    }

    /** Gives an image that was acquired back. */
    method GiveBack(base: nat, n: nat, code: nat, data: nat)
      requires Sound() && code / 8 < ENTRIES && data / 8 < ENTRIES
      requires base / FRAME_SIZE < frames.total && base / FRAME_SIZE + n <= frames.total
      modifies frames.bm, frames`states, table.entries, table`view
      ensures Sound() && Held() == Without(Loaded(code / 8, data / 8, base / FRAME_SIZE, n), old(Held()))
    {
      table.Dealloc(code);
      table.Dealloc(data);
      frames.ReleaseFrames(base, n);
    }

    // -------------------------------------------------------------- the program in memory

    /** `text` bytes from the start of the file at `a`, and the next `data` bytes at `b`. */
    method LoadParts(a: nat, text: nat, b: nat, data: int, ghost end: int) returns (ok: bool)
      requires a + text <= b <= ram.Length && b + data <= ram.Length && b <= end && b + data <= end
      modifies `pos, `replies, ram
      ensures SameOutside(old(ram[..]), ram[..], a, end)
      ensures ok ==> var size := if data > 0 then data else 0;
                     && text + size <= |content|
                     && Holds(ram[..], a, content[..text]) && Holds(ram[..], b, content[text..text + size])
      ensures old(replies) == [] ==> (ok <==> text + (if data > 0 then data else 0) <= |content|)
    {
      pos := 0;
      ghost var m0 := ram[..];
      ok := LoadPart(a, text);
      ghost var m1 := ram[..];
      PartInside(m0, m1, a, a + text, a, end);
      if !ok {
        return;
      }
      assert content[0..text] == content[..text];
      ok := LoadPart(b, data);
      PartInside(m1, ram[..], b, b + data, a, end);
      PartKept(m1, ram[..], b, b + data, a, content[..text]);
    }

    /** Text from the start of the file, then data on the next frame boundary. */
    method LoadProgram(h: Header, base: nat) returns (ok: bool)
      requires h.Valid() && Inside(h) && base + StackStart(h) <= ram.Length && DataStart(h) <= StackStart(h)
      modifies `pos, `replies, ram
      ensures SameOutside(old(ram[..]), ram[..], base, base + StackStart(h))
      ensures ok ==> InFile(h, content) && TextAndData(ram[..], base, h, content)
      ensures old(replies) == [] ==> (ok <==> InFile(h, content))
    {
      ok := LoadParts(base, TextSize(h), base + DataStart(h), h.data, base + StackStart(h));
    }

    /** Clears the bss. */
    method ClearBss(h: Header, base: nat)
      requires h.Valid() && Inside(h) && base + StackStart(h) <= ram.Length
      modifies ram
      ensures ZeroAt(ram[..], base + BssStart(h), U32(h.bss))
      ensures SameOutside(old(ram[..]), ram[..], base + BssStart(h), base + BssStart(h) + U32(h.bss))
    {
      var lo, hi := base + BssStart(h), base + BssStart(h) + U32(h.bss);
      forall i | 0 <= i < ram.Length && lo <= i < hi {
        ram[i] := 0;
      }
    }

    // -------------------------------------------------------------- exec

    /** Puts the program into its frames and closes its file, or gives everything back. */
    method Fill(h: Header, fd: nat, base: nat, n: nat, code: nat, data: nat) returns (ok: bool)
      requires Sound() && code / 8 < ENTRIES && data / 8 < ENTRIES
      requires base / FRAME_SIZE < frames.total && base / FRAME_SIZE + n <= frames.total
      requires h.Valid() && Inside(h) && base + StackStart(h) <= ram.Length && DataStart(h) <= StackStart(h)
      modifies `pos, `replies, `open, ram, frames.bm, frames`states, table.entries, table`view
      ensures Sound() && open == old(open) - {fd} && SameOutside(old(ram[..]), ram[..], base, base + StackStart(h))
      ensures Held() == if ok then old(Held())
                        else Without(Loaded(code / 8, data / 8, base / FRAME_SIZE, n), old(Held()))
      ensures ok ==> InMemory(ram[..], base, h, content)
      ensures old(replies) == [] ==> (ok <==> InFile(h, content))
    {
      ghost var m0 := ram[..];
      ok := LoadProgram(h, base);
      open := open - {fd};
      if !ok {
        GiveBack(base, n, code, data);
        return;
      }
      ghost var m1 := ram[..];
      ClearBss(h, base);
      BssApart(m1, ram[..], base, h, content);
    }

    /** The process lets go of what it ran in and takes its new segments. */
    method Become(h: Header, n: nat, code: nat, data: nat, ghost im: Image)
      requires Valid(im)
      modifies `segs, `regs, frames.bm, frames`states, table.entries, table`view
      ensures Sound() && Held() == Without(im, old(Held()))
      ensures segs == UserSegs(code, data) && regs == Regs(0, 0, 0, 0, 0, 0, 0, n * FRAME_SIZE, h.entry, 0)
    {
      ReleaseMemory(im);
      regs := Regs(0, 0, 0, 0, 0, 0, 0, 0, 0, 0);
      var ds := UserSelector(data);
      segs := Segs(UserSelector(code), ds, ds, ds, ds, ds);
      regs := regs.(eip := h.entry, esp := n * FRAME_SIZE);
    }

    /** Runs the open file `fd` with header `h` in place of the process. */
    method Replace(h: Header, fd: nat, ghost im: Image) returns (ok: bool, ghost im': Image)
      requires Valid(im) && h.Valid() && Sane(h)
      modifies this`pos, this`replies, this`open, this`segs, this`regs, ram,
               frames.bm, frames`states, table.entries, table`view
      ensures Valid(im') && open == old(open) - {fd}
      ensures !ok ==> im' == im && Held() == old(Held()) && segs == old(segs) && regs == old(regs)
      ensures ok ==> Replaced(im, im', old(segs), old(Held()), Held(), frames.total, ram[..], h, content, segs, regs)
      ensures Confined(old(Held()), frames.total, h, old(ram[..]), ram[..])
      ensures old(replies) == [] ==> (ok <==> CanReplace(old(Held()), frames.total, h, content))
    {
      hide AOut.Inside, TextSize, CodeFrames, DataFrames, Sane, UserRun, TwoNull, InFile, InMemory, Marked, Released;
      ghost var r, m := Held(), ram[..];
      im', ok := im, false;
      SaneTotal(h);
      var n := TotalFrames(h);
      var base, code, data := Acquire(n, im);
      if base == 0 {
        open := open - {fd};
        return;
      }
      AcquiredGood(im, segs, r, Held(), frames.total, n, base, code, data);
      InsideIffSane(h);
      ok := Fill(h, fd, base, n, code, data);
      if ok {
        Become(h, n, code, data, im);
        im' := Loaded(code / 8, data / 8, base / FRAME_SIZE, n);
      }
    }

    /** Runs a program in place of the process.  `statOk` and `openOk` say whether its path can
        be looked up and opened, as the file `fd`.  Does not return when it succeeds; when it
        fails, the process, frames, segments and open files are as they were.  (The source does
        not check the header it read: a program that is not sane would be loaded over its own
        text or past its frames.) */
    method Exec(statOk: bool, openOk: bool, fd: nat, ghost im: Image) returns (ok: bool, ghost im': Image)
      requires Valid(im) && fd !in open
      requires HasHeader(content) ==> Sane(ProgramOf(content)) && TextSize(ProgramOf(content)) < 0x8000_0000
      modifies this`pos, this`replies, this`open, this`segs, this`regs, ram,
               frames.bm, frames`states, table.entries, table`view
      ensures Valid(im') && open == old(open)
      ensures !ok ==> im' == im && Held() == old(Held()) && segs == old(segs) && regs == old(regs)
      ensures ok ==> HasHeader(content)
                     && Replaced(im, im', old(segs), old(Held()), Held(), frames.total, ram[..], ProgramOf(content),
                                 content, segs, regs)
      ensures if HasHeader(content) then Confined(old(Held()), frames.total, ProgramOf(content), old(ram[..]), ram[..])
              else ram[..] == old(ram[..])
      ensures old(replies) == [] ==>
                (ok <==>
                   && statOk && openOk && HasHeader(content)
                   && CanReplace(old(Held()), frames.total, ProgramOf(content), content))
    {
      im', ok := im, false;
      if !statOk || !openOk {
        ConfinedNowhere(Held(), frames.total, content, ram[..]);
        return;
      }
      open, pos := open + {fd}, 0;
      var read, h := ReadHeader();
      if !read {
        ConfinedNowhere(Held(), frames.total, content, ram[..]);
        open := open - {fd};
        return;
      }
      ok, im' := Replace(h, fd, im);
    }
  }

  predicate HasHeader(content: seq<bv8>) {
    |content| >= HEADER_SIZE
  }

  function ProgramOf(content: seq<bv8>): Header
    requires HasHeader(content)
  {
    HeaderOf(content[..HEADER_SIZE])
  }

  lemma {:induction false} ConfinedNowhere(r: Resources, total: nat, content: seq<bv8>, m: seq<bv8>)
    ensures HasHeader(content) ==> Confined(r, total, ProgramOf(content), m, m)
  {}

  ghost predicate InMemory(m: seq<bv8>, base: nat, h: Header, content: seq<bv8>) {
    InFile(h, content) && TextAndData(m, base, h, content) && ZeroAt(m, base + BssStart(h), U32(h.bss))
  }

  /** There are frames and table entries for the program, and its file is long enough. */
  ghost predicate CanReplace(r: Resources, total: nat, h: Header, content: seq<bv8>)
    requires |r.e| >= 1
  {
    UserRun(r, TotalFrames(h), total).Some? && TwoNull(r.e) && InFile(h, content)
  }

  /** The process now runs in the least free run and the first two null entries of `r`; what it
      ran in before is free, and memory holds the program. */
  ghost predicate Replaced(im: Image, im': Image, segs0: Segs, r: Resources, r': Resources, total: nat, m: seq<bv8>,
                           h: Header, content: seq<bv8>, segs: Segs, regs: Regs)
    requires Owns(im, segs0, r, total)
  {
    && ImageOf(im, im', segs0, r, r', total) && im'.count == TotalFrames(h)
    && segs == UserSegs(8 * im'.code, 8 * im'.data)
    && regs == Regs(0, 0, 0, 0, 0, 0, 0, im'.count * FRAME_SIZE, h.entry, 0)
    && InMemory(m, im'.first * FRAME_SIZE, h, content)
  }

  /** Memory changes in the run that was free only, and not in the last frame of it. */
  ghost predicate Confined(r: Resources, total: nat, h: Header, m: seq<bv8>, m': seq<bv8>) {
    match UserRun(r, TotalFrames(h), total)
    case None => m' == m
    case Some(f) => SameOutside(m, m', f * FRAME_SIZE, f * FRAME_SIZE + StackStart(h))
  }

  /** The file is as long as text and data need. */
  ghost predicate InFile(h: Header, content: seq<bv8>) {
    TextSize(h) + DataSize(h) <= |content|
  }

  ghost predicate TextAndData(m: seq<bv8>, base: nat, h: Header, content: seq<bv8>)
    requires InFile(h, content)
  {
    && Holds(m, base, content[..TextSize(h)])
    && Holds(m, base + DataStart(h), content[TextSize(h)..TextSize(h) + DataSize(h)])
  }

  ghost predicate ZeroAt(m: seq<bv8>, a: int, n: nat) {
    forall i :: 0 <= i < |m| && a <= i < a + n ==> m[i] == 0
  }

  /** Byte by byte: header and text, from the frame boundary behind them the data, and then zeros. */
  lemma {:induction false} ProgramInMemory(m: seq<bv8>, base: nat, h: Header, content: seq<bv8>, k: nat)
    requires h.Valid() && Sane(h) && TextSize(h) < 0x8000_0000 && InMemory(m, base, h, content)
    ensures |content| >= 32 + h.text + Larger(h.data, 0)
    ensures k < 32 + h.text ==> base + k < |m| && m[base + k] == content[k]
    ensures exists d: nat :: d % FRAME_SIZE == 0 && 32 + h.text <= d < 32 + h.text + FRAME_SIZE
              && (k < h.data ==> base + d + k < |m| && m[base + d + k] == content[32 + h.text + k])
              && (k < Zeros(h) && 0 <= base + d + h.data + k < |m| ==> m[base + d + h.data + k] == 0)
  {
    hide Sane, TextSize, DataStart, BssStart, DataSize, U32;
    ProgramLayout(h);
    var d := DataStart(h);
    assert k < 32 + h.text ==> m[base + k] == m[base..base + TextSize(h)][k] == content[k];
    assert k < h.data ==> m[base + d + k] == m[base + d..base + d + h.data][k] == content[TextSize(h) + k];
  }

  lemma {:induction false} PartInside(m: seq<bv8>, m': seq<bv8>, lo: int, hi: int, from: int, to: int)
    requires SameOutside(m, m', lo, hi) && (hi <= lo || (from <= lo && hi <= to))
    ensures SameOutside(m, m', from, to)
  {}

  lemma {:induction false} PartKept(m: seq<bv8>, m': seq<bv8>, lo: int, hi: int, a: nat, b: seq<bv8>)
    requires SameOutside(m, m', lo, hi) && Holds(m, a, b) && (b == [] || a + |b| <= lo || hi <= a || hi <= lo)
    ensures Holds(m', a, b)
  {
    assert m'[a..a + |b|] == m[a..a + |b|];
  }

  /** Clearing the bss spares text and data. */
  lemma {:induction false} BssApart(m: seq<bv8>, m': seq<bv8>, base: nat, h: Header, content: seq<bv8>)
    requires h.Valid() && Inside(h) && InFile(h, content) && TextAndData(m, base, h, content)
    requires SameOutside(m, m', base + BssStart(h), base + BssStart(h) + U32(h.bss))
    ensures TextAndData(m', base, h, content)
    ensures SameOutside(m, m', base, base + StackStart(h))
  {
    var lo, hi := base + BssStart(h), base + BssStart(h) + U32(h.bss);
    BssFits(h);
    PartInside(m, m', lo, hi, base, base + StackStart(h));
    PartKept(m, m', lo, hi, base, content[..TextSize(h)]);
    PartKept(m, m', lo, hi, base + DataStart(h), content[TextSize(h)..TextSize(h) + DataSize(h)]);
  }

  lemma {:induction false} PartGrows(m0: seq<bv8>, m1: seq<bv8>, m2: seq<bv8>, addr: nat, end: nat, content: seq<bv8>,
                                     p: nat, p1: nat, p2: nat)
    requires p <= p1 <= p2 <= |content| && addr + (p2 - p) <= end <= |m0|
    requires SameOutside(m0, m1, addr, end) && Holds(m1, addr, content[p..p1])
    requires SameOutside(m1, m2, addr + (p1 - p), addr + (p2 - p)) && Holds(m2, addr + (p1 - p), content[p1..p2])
    ensures SameOutside(m0, m2, addr, end) && Holds(m2, addr, content[p..p2])
  {
    var a1 := addr + (p1 - p);
    assert m2[addr..a1] == m1[addr..a1];
    assert m2[addr..addr + (p2 - p)] == m2[addr..a1] + m2[a1..addr + (p2 - p)];
    assert content[p..p2] == content[p..p1] + content[p1..p2];
  }
}
