/** Reading and setting the real-time clock. */
module Clock {
  import opened Frames

  // Seconds, minutes, hours, day, month and year, and the century last.
  const DATE: nat := 6
  const ALL: nat := 7

  datatype Date = Date(seconds: nat, minutes: nat, hours: nat, day: nat, month: nat, year: nat) {
    predicate Valid() {
      seconds < 60 && minutes < 60 && hours < 24 && 1 <= day <= 31 && 1 <= month <= 12 && year < 10000
    }
  }

  // The registers of the chip: seven bytes.
  ghost predicate IsRegs(r: seq<nat>) {
    |r| == ALL && forall k :: 0 <= k < ALL ==> r[k] < 0x100
  }

  // ---------------------------------------------------------------- a stable reading

  // What the chip holds at each register read to come, in the order of the reads.
  type History = h: seq<seq<nat>> | forall i :: 0 <= i < |h| ==> IsRegs(h[i]) witness []

  /** Register `k` as sweep `i` reads it. */
  ghost function ReadAt(h: History, i: nat, k: nat): nat
    requires k < ALL && ALL * i + k < |h|
  {
    h[ALL * i + k][k]
  }

  /** What sweep `i` over all registers reads. */
  ghost function Sweep(h: History, i: nat): (r: seq<nat>)
    requires ALL * (i + 1) <= |h|
    ensures IsRegs(r)
  {
    seq(ALL, k requires 0 <= k < ALL => ReadAt(h, i, k))
  }

  /** The test that ends the loop.  The year goes through a signed byte into a wider number,
      and is compared with its low byte. */
  predicate Agree(last: seq<nat>, now: seq<nat>)
    requires |last| == ALL && |now| == ALL
  {
    && last[0] == now[0] && last[1] == now[1] && last[2] == now[2] && last[3] == now[3] && last[4] == now[4]
    && last[5] == Widened(now[5]) && last[6] == now[6]
  }

  /** A signed byte as an unsigned 32-bit number. */
  function Widened(b: nat): nat {
    if b < 0x80 then b else b + 0xffff_ff00
  }

  /** Two readings agree exactly if they are equal and the year's top bit is clear. */
  lemma {:induction false} AgreeIff(a: seq<nat>, b: seq<nat>)
    requires IsRegs(a) && IsRegs(b)
    ensures Agree(a, b) <==> a == b && b[5] < 0x80
  {
    if Agree(a, b) {
      assert a[5] < 0x100;
      forall k | 0 <= k < ALL
        ensures a[k] == b[k]
      {}
    }
  }

  /** The first sweep, from `i` on, that agrees with the one before. */
  ghost function FirstStable(h: History, i: nat): (r: Option<nat>)
    requires i >= 1
    ensures r.Some? ==> r.value >= i && ALL * (r.value + 1) <= |h| && Agree(Sweep(h, r.value - 1), Sweep(h, r.value))
    decreases |h| - ALL * i
  {
    if ALL * (i + 1) > |h| then None
    else if Agree(Sweep(h, i - 1), Sweep(h, i)) then Some(i)
    else FirstStable(h, i + 1)
  }

  lemma {:induction false} FirstStableStep(h: History, i: nat)
    requires i >= 1
    ensures FirstStable(h, i) ==
            if ALL * (i + 1) > |h| then None
            else if Agree(Sweep(h, i - 1), Sweep(h, i)) then Some(i) else FirstStable(h, i + 1)
  {}

  /** From read `lo` on and before read `hi` the chip was updated once at most, before read `u`. */
  ghost predicate UpdatedOnce(h: History, lo: nat, u: nat, hi: nat) {
    lo <= u <= hi <= |h|
    && (forall j :: lo <= j < u ==> h[j] == h[lo]) && (forall j :: u <= j < hi ==> h[j] == h[hi - 1])
  }

  /** A sweep during which nothing changes reads what there is. */
  lemma {:induction false} SweepOf(h: History, i: nat, r: seq<nat>)
    requires ALL * (i + 1) <= |h| && |r| == ALL && forall j :: ALL * i <= j < ALL * (i + 1) ==> h[j] == r
    ensures Sweep(h, i) == r
  {
    forall k | 0 <= k < ALL
      ensures Sweep(h, i)[k] == r[k]
    {
      assert Sweep(h, i)[k] == ReadAt(h, i, k);
    }
  }

  /** Two equal sweeps with at most one update among their reads show the registers as they were
      just before or just after it. */
  lemma {:induction false} StableIsReal(h: History, i: nat, u: nat)
    requires i >= 1 && ALL * (i + 1) <= |h| && Agree(Sweep(h, i - 1), Sweep(h, i))
    requires UpdatedOnce(h, ALL * (i - 1), u, ALL * (i + 1))
    ensures Sweep(h, i) == (if u <= ALL * i then h[ALL * (i + 1) - 1] else h[ALL * (i - 1)])
  {
    AgreeIff(Sweep(h, i - 1), Sweep(h, i));
    if u <= ALL * i {
      SweepOf(h, i, h[ALL * (i + 1) - 1]);
    } else {
      SweepOf(h, i - 1, h[ALL * (i - 1)]);
    }
  }

  /** The loop ends by the first two sweeps that see no update, if the year allows it. */
  lemma {:induction false} QuietSweepsEnd(h: History, from: nat, i: nat, r: seq<nat>)
    requires 1 <= from <= i && ALL * (i + 1) <= |h| && IsRegs(r) && r[5] < 0x80
    requires forall j :: ALL * (i - 1) <= j < ALL * (i + 1) ==> h[j] == r
    ensures FirstStable(h, from).Some? && FirstStable(h, from).value <= i
    decreases i - from
  {
    hide Agree, Sweep;
    if from < i {
      QuietSweepsEnd(h, from + 1, i, r);
    } else {
      SweepOf(h, i - 1, r);
      SweepOf(h, i, r);
      AgreeIff(r, r);
    }
  }

  // ---------------------------------------------------------------- the formats

  function ToBcd(x: nat): nat {
    x / 10 * 16 + x % 10
  }

  function FromBcd(b: nat): nat {
    b % 16 + b / 16 * 10
  }

  /** Hours keep their top bit. */
  function HoursFromBcd(b: nat): nat {
    b % 16 + b / 16 % 8 * 10 + b / 128 * 128
  }

  function Encoded(d: Date, binary: bool): (r: seq<nat>)
    requires d.Valid()
    ensures IsRegs(r)
  {
    var plain := [d.seconds, d.minutes, d.hours, d.day, d.month, d.year % 100, d.year / 100];
    if binary then plain
    else [ToBcd(plain[0]), ToBcd(plain[1]), ToBcd(plain[2]), ToBcd(plain[3]), ToBcd(plain[4]), ToBcd(plain[5]),
          ToBcd(plain[6])]
  }

  /** In the 12-hour format the top bit marks the afternoon. */
  function FullHours(h: nat, day24: bool): nat {
    if !day24 && h / 128 % 2 == 1 then (h % 128 + 12) % 24 else h
  }

  function Decoded(r: seq<nat>, binary: bool, day24: bool): Date
    requires |r| == ALL
  {
    if binary then Date(r[0], r[1], FullHours(r[2], day24), r[3], r[4], r[5] + r[6] * 100)
    else Date(FromBcd(r[0]), FromBcd(r[1]), FullHours(HoursFromBcd(r[2]), day24), FromBcd(r[3]), FromBcd(r[4]),
              FromBcd(r[5]) + FromBcd(r[6]) * 100)
  }

  /** How a clock in the 12-hour format shows an hour of the day: from 12 to 11, twice. */
  function Shown(hour: nat, binary: bool): nat
    requires hour < 24
  {
    var h := if hour % 12 == 0 then 12 else hour % 12;
    (if binary then h else ToBcd(h)) + if hour >= 12 then 128 else 0
  }

  /** In the 12-hour format every hour is read right but noon and midnight. */
  lemma {:induction false} TwelveHoursIff(hour: nat, binary: bool)
    requires hour < 24
    ensures var b := Shown(hour, binary);
            b < 0x100
            && (FullHours(if binary then b else HoursFromBcd(b), false) == hour <==> hour != 0 && hour != 12)
  {
    hide ToBcd, HoursFromBcd, FullHours;
    var h := if hour % 12 == 0 then 12 else hour % 12;
    BcdRoundTrip(h);
    MarkedHours(h);
    Afternoon(h);
    MorningHours(h, false);
  }

  /** The mark stays when hours are taken from BCD. */
  lemma {:induction false} MarkedHours(h: nat)
    requires h < 80
    ensures HoursFromBcd(ToBcd(h) + 128) == h + 128 && ToBcd(h) < 0x80
  {
    MarkedDigits(h / 10, h % 10);
  }

  lemma {:induction false} MarkedDigits(t: nat, u: nat)
    requires t < 8 && u < 10
    ensures var b := t * 16 + u + 128;
            t * 16 + u < 128 && b % 16 == u && b / 16 % 8 == t && b / 128 == 1
  {
    var b := t * 16 + u + 128;
    assert b == (t + 8) * 16 + u;
    assert b / 16 == t + 8;
  }

  lemma {:induction false} Afternoon(h: nat)
    requires h < 128
    ensures FullHours(h + 128, false) == (h + 12) % 24
  {}

  lemma {:induction false} MorningHours(h: nat, day24: bool)
    requires h < 128
    ensures FullHours(h, day24) == h
  {}

  lemma {:induction false} BcdRoundTrip(x: nat)
    requires x < 100
    ensures ToBcd(x) < 0x100 && FromBcd(ToBcd(x)) == x && (x < 80 ==> HoursFromBcd(ToBcd(x)) == x)
            && (ToBcd(x) < 0x80 <==> x < 80)
  {
    TwoDigits(x / 10, x % 10);
  }

  lemma {:induction false} TwoDigits(t: nat, u: nat)
    requires t < 10 && u < 10
    ensures (t * 16 + u) / 16 == t && (t * 16 + u) % 16 == u && (t < 8 ==> (t * 16 + u) / 128 == 0 && t % 8 == t)
  {}

  /** Two decimal digits are kept as two digits to base 16, with or without the mark of the
      afternoon. */
  lemma {:induction false} BcdDigits(t: nat, u: nat)
    requires t < 10 && u < 10
    ensures ToBcd(10 * t + u) == 16 * t + u && FromBcd(16 * t + u) == 10 * t + u
    ensures t < 8 ==> HoursFromBcd(16 * t + u) == 10 * t + u && HoursFromBcd(128 + 16 * t + u) == 128 + 10 * t + u
  {
    TwoDigits(t, u);
    if t < 8 { MarkedDigits(t, u); }
    assert (10 * t + u) / 10 == t;
  }

  /** The registers in order, and in BCD the two decimal digits of each. */
  lemma {:induction false} RegistersShow(d: Date, k: nat)
    requires d.Valid() && k < ALL
    ensures var v := [d.seconds, d.minutes, d.hours, d.day, d.month, d.year % 100, d.year / 100][k];
            && Encoded(d, true)[k] == v
            && var b := Encoded(d, false)[k]; b % 16 < 10 && b / 16 < 10 && 10 * (b / 16) + b % 16 == v
  {
    hide ToBcd;
    var v := [d.seconds, d.minutes, d.hours, d.day, d.month, d.year % 100, d.year / 100][k];
    assert v < 100 && Encoded(d, false)[k] == ToBcd(v);
    assert v == 10 * (v / 10) + v % 10;
    BcdDigits(v / 10, v % 10);
    TwoDigits(v / 10, v % 10);
  }

  lemma {:induction false} DecodedEncoded(d: Date, binary: bool)
    requires d.Valid()
    ensures forall day24 :: Decoded(Encoded(d, binary), binary, day24) == d
    ensures Encoded(d, binary)[5] < 0x80 <==> binary || d.year % 100 < 80
  {
    hide FullHours, ToBcd, FromBcd, HoursFromBcd;
    MorningHours(d.hours, false);
    MorningHours(d.hours, true);
    BcdRoundTrip(d.seconds);
    BcdRoundTrip(d.minutes);
    BcdRoundTrip(d.hours);
    BcdRoundTrip(d.day);
    BcdRoundTrip(d.month);
    BcdRoundTrip(d.year % 100);
    BcdRoundTrip(d.year / 100);
  }

  // ---------------------------------------------------------------- reading and setting

  /** The date a reading of the clock gives; none if no two sweeps agree. */
  ghost function Got(h: History, binary: bool, day24: bool): Option<Date> {
    match FirstStable(h, 1)
    case None => None
    case Some(i) => Some(Decoded(Sweep(h, i), binary, day24))
  }

  class Chip {
    const history: History
    var next: nat

    constructor (history: History)
      ensures this.history == history && next == 0
    {
      this.history, next := history, 0;
    }

    /** One sweep: the six registers of the date, then the century. */
    method Load(ghost i: nat) returns (r: seq<nat>)
      requires next == ALL * i && next + ALL <= |history|
      modifies `next
      ensures next == old(next) + ALL && r == Sweep(history, i)
    {
      r := [];
      while |r| < DATE
        invariant |r| <= DATE && next == ALL * i + |r|
        invariant forall k :: 0 <= k < |r| ==> r[k] == ReadAt(history, i, k)
      {
        r := r + [history[next][|r|]];
        next := next + 1;
      }
      r := r + [history[next][DATE]];
      next := next + 1;
    }

    /** Sweeps until two agree. */
    method ReadStable() returns (r: Option<seq<nat>>)
      requires next == 0 && |history| >= ALL
      modifies `next
      ensures r == match FirstStable(history, 1) case None => None case Some(i) => Some(Sweep(history, i))
    {
      hide Agree, Sweep, FirstStable;
      var now := Load(0);
      var last := now;
      ghost var i, first := 1, FirstStable(history, 1);
      while next + ALL <= |history|
        invariant i >= 1 && next == ALL * i <= |history| && now == Sweep(history, i - 1)
        invariant first == FirstStable(history, i)
      {
        last := now;
        now := Load(i);
        FirstStableStep(history, i);
        if Agree(last, now) {
          return Some(now);
        }
        i := i + 1;
      }
      FirstStableStep(history, i);
      r := None;
    }

    /** The date, in whatever format the chip keeps it. */
    method TimeGet(binary: bool, day24: bool) returns (d: Option<Date>)
      requires next == 0 && |history| >= ALL
      modifies `next
      ensures d == Got(history, binary, day24)
    {
      var r := ReadStable();
      d := if r == None then None else Some(Decoded(r.value, binary, day24));
    }
  }

  /** The registers as setting the clock leaves them. */
  method TimeSet(d: Date, binary: bool) returns (r: seq<nat>)
    requires d.Valid()
    ensures r == Encoded(d, binary)
  {
    var buf := [d.seconds, d.minutes, d.hours, d.day, d.month, d.year % 100];
    var century := d.year / 100;
    if !binary {
      buf := [ToBcd(buf[0]), ToBcd(buf[1]), ToBcd(buf[2]), ToBcd(buf[3]), ToBcd(buf[4]), ToBcd(buf[5])];
      century := ToBcd(century);
    }
    r := [];
    for i := 0 to DATE
      invariant r == buf[..i]
    {
      r := r + [buf[i]];
    }
    r := r + [century];
  }

  /** Without updates, reading gives the date that was set, unless the chip counts in BCD and
      the two-digit year is 80 or more: then no two sweeps ever agree. */
  lemma {:induction false} SetThenGet(d: Date, binary: bool, day24: bool, h: History)
    requires d.Valid() && |h| >= 2 * ALL && forall j :: 0 <= j < |h| ==> h[j] == Encoded(d, binary)
    ensures Got(h, binary, day24) == if binary || d.year % 100 < 80 then Some(d) else None
  {
    DecodedEncoded(d, binary);
    if binary || d.year % 100 < 80 {
      SweepOf(h, 0, h[0]);
      SweepOf(h, 1, h[0]);
      AgreeIff(Sweep(h, 0), Sweep(h, 1));
    } else {
      NeverStable(h, 1, Encoded(d, binary));
    }
  }

  lemma {:induction false} NeverStable(h: History, i: nat, r: seq<nat>)
    requires i >= 1 && |h| >= ALL && |r| == ALL && r[5] >= 0x80 && forall j :: 0 <= j < |h| ==> h[j] == r
    ensures FirstStable(h, i) == None
    decreases |h| - ALL * i
  {
    if ALL * (i + 1) <= |h| {
      SweepOf(h, i - 1, r);
      SweepOf(h, i, r);
      AgreeIff(Sweep(h, i - 1), Sweep(h, i));
      NeverStable(h, i + 1, r);
    }
  }
}
