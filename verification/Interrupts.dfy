/** The interrupt lock, and a serial reader interleaved with its interrupt handler: the steps
    of the processor one by one, an interrupt coming between any two of them that let it. */
module Interrupts {
  import opened Serial

  // ---------------------------------------------------------------- the lock

  // The interrupt flag, and the flag that says a handler is running.
  datatype Cpu = Cpu(on: bool, inHandler: bool) {
    function Lock(): Cpu {
      this.(on := false)
    }

    function Unlock(): Cpu {
      if inHandler then this else this.(on := true)
    }
  }

  // The ends of a locked region.
  datatype End = Begins | Ends

  function CpuAfter(cpu: Cpu, ends: seq<End>): Cpu {
    if ends == [] then cpu
    else
      var c := CpuAfter(cpu, ends[..|ends| - 1]);
      if ends[|ends| - 1].Begins? then c.Lock() else c.Unlock()
  }

  /** How many regions are open. */
  function Depth(ends: seq<End>): int {
    if ends == [] then 0 else Depth(ends[..|ends| - 1]) + if ends[|ends| - 1].Begins? then 1 else -1
  }

  lemma {:induction false} DepthCounts(ends: seq<End>)
    ensures Depth(ends) + multiset(ends)[Ends] == multiset(ends)[Begins]
  {
    if ends != [] {
      DepthCounts(ends[..|ends| - 1]);
      assert ends == ends[..|ends| - 1] + [ends[|ends| - 1]];
    }
  }

  /** Interrupts are off wherever a region is open. */
  ghost predicate RegionsHold(cpu: Cpu, ends: seq<End>) {
    forall k {:trigger ends[..k]} :: 0 <= k <= |ends| && Depth(ends[..k]) >= 1 ==> !CpuAfter(cpu, ends[..k]).on
  }

  /** No region ends inside another one. */
  ghost predicate NoneNested(ends: seq<End>) {
    forall k :: 0 <= k < |ends| && ends[k].Ends? ==> Depth(ends[..k]) <= 1
  }

  /** Locked regions must not nest: interrupts are off throughout all open regions exactly if a
      handler runs or no region ends inside another. */
  lemma {:induction false} RegionsHoldIff(cpu: Cpu, ends: seq<End>)
    ensures RegionsHold(cpu, ends) <==> cpu.inHandler || NoneNested(ends)
  {
    if cpu.inHandler || NoneNested(ends) {
      forall k | 0 <= k <= |ends| && Depth(ends[..k]) >= 1
        ensures !CpuAfter(cpu, ends[..k]).on
      {
        OffWhileOpen(cpu, ends, k);
      }
    } else {
      var k :| 0 <= k < |ends| && ends[k].Ends? && Depth(ends[..k]) > 1;
      HandlerStays(cpu, ends[..k]);
      assert ends[..k + 1][..k] == ends[..k];
      assert CpuAfter(cpu, ends[..k + 1]).on;
    }
  }

  lemma {:induction false} HandlerStays(cpu: Cpu, ends: seq<End>)
    ensures CpuAfter(cpu, ends).inHandler == cpu.inHandler
  {
    if ends != [] { HandlerStays(cpu, ends[..|ends| - 1]); }
  }

  lemma {:induction false} OffWhileOpen(cpu: Cpu, ends: seq<End>, k: nat)
    requires k <= |ends| && (cpu.inHandler || NoneNested(ends)) && Depth(ends[..k]) >= 1
    ensures !CpuAfter(cpu, ends[..k]).on
  {
    if k > 0 {
      assert ends[..k][..k - 1] == ends[..k - 1];
      HandlerStays(cpu, ends[..k - 1]);
      if ends[k - 1].Ends? { OffWhileOpen(cpu, ends, k - 1); }
    }
  }

  // ---------------------------------------------------------------- the machine

  // Where the main program is: a read of `count` bytes waits for data, locks, copies byte by
  // byte and unlocks; or it is in some other locked region.
  datatype Main =
    | Idle | Region
    | Waiting(count: nat) | Ready(count: nat)
    | Copying(count: nat, done: nat) | Copied(count: nat, done: nat)

  // Where a handler is: before the flag is set, at work, in the locked region that stores a
  // byte, and after the flag is cleared.
  datatype Handler = Entered | Working | Locked | Holding | Filled | Leaving

  datatype State = State(cpu: Cpu, main: Main, handlers: seq<Handler>, ring: Ring,
                         received: seq<bv8>, delivered: seq<bv8>, overrun: bool)

  datatype Action =
    | Interrupt                                        // the processor, when interrupts are on
    | SetFlag | HandlerLock | Store(b: bv8) | Advance | HandlerUnlock | ClearFlag | Return
    | Enter | Exit | Call(count: nat) | Look | ReaderLock | Copy | Take | ReaderUnlock

  ghost predicate Boot(s: State) {
    && s.cpu == Cpu(true, false) && s.main == Idle && s.handlers == []
    && s.ring.Valid() && s.ring.read == s.ring.write && s.received == [] && s.delivered == [] && !s.overrun
  }

  /** The steps of a handler; the last one in is the one that runs. */
  ghost predicate HandlerStep(s: State, s': State, a: Action) {
    s.handlers != [] &&
    var n := |s.handlers| - 1;
    match (s.handlers[n], a)
    case (Entered, SetFlag) => s' == s.(cpu := s.cpu.(inHandler := true), handlers := s.handlers[n := Working])
    case (Working, HandlerLock) => s' == s.(cpu := s.cpu.Lock(), handlers := s.handlers[n := Locked])
    case (Locked, Store(b)) => s.ring.write < |s.ring.buf|
                               && s' == s.(ring := s.ring.Stored(b), handlers := s.handlers[n := Holding])
    case (Holding, Advance) => s.ring.Valid()
                               && s' == s.(ring := s.ring.Advanced(), handlers := s.handlers[n := Filled],
                                           received := s.received + [s.ring.buf[s.ring.write]],
                                           overrun := s.overrun || s.ring.Count() == LEN - 1)
    case (Filled, HandlerUnlock) => s' == s.(cpu := s.cpu.Unlock(), handlers := s.handlers[n := Working])
    case (Working, ClearFlag) => s' == s.(cpu := s.cpu.(inHandler := false), handlers := s.handlers[n := Leaving])
    case (Leaving, Return) => s' == s.(cpu := s.cpu.(on := true), handlers := s.handlers[..n])
    case _ => false
  }

  /** The steps of the main program, while no handler runs. */
  ghost predicate MainStep(s: State, s': State, a: Action) {
    s.handlers == [] &&
    match (s.main, a)
    case (Idle, Enter) => s' == s.(cpu := s.cpu.Lock(), main := Region)
    case (Region, Exit) => s' == s.(cpu := s.cpu.Unlock(), main := Idle)
    case (Idle, Call(n)) => s' == s.(main := Waiting(n))
    case (Waiting(n), Look) => s' == s.(main := if s.ring.read == s.ring.write then Waiting(n) else Ready(n))
    case (Ready(n), ReaderLock) => s' == s.(cpu := s.cpu.Lock(), main := Copying(n, 0))
    case (Copying(n, d), Copy) => d < n && s.ring.read != s.ring.write && s.ring.Valid()
                                  && s' == s.(main := Copied(n, d),
                                              delivered := s.delivered + [s.ring.buf[s.ring.read]])
    case (Copied(n, d), Take) => s' == s.(ring := s.ring.Taken(), main := Copying(n, d + 1))
    case (Copying(n, d), ReaderUnlock) => (d == n || s.ring.read == s.ring.write)
                                          && s' == s.(cpu := s.cpu.Unlock(), main := Idle)
    case _ => false
  }

  ghost predicate Next(s: State, s': State, a: Action) {
    if a.Interrupt? then s.cpu.on && s' == s.(cpu := s.cpu.(on := false), handlers := s.handlers + [Entered])
    else HandlerStep(s, s', a) || MainStep(s, s', a)
  }

  predicate InRegion(m: Main) {
    m.Region? || m.Copying? || m.Copied?
  }

  // ---------------------------------------------------------------- what every step keeps

  /** Interrupts are off in handlers and in locked regions, and on otherwise; handlers do not
      interrupt each other. */
  ghost predicate Guarded(s: State) {
    && |s.handlers| <= 1
    && (s.cpu.on <==> s.handlers == [] && !InRegion(s.main))
    && (s.cpu.inHandler <==> s.handlers != [] && s.handlers[0] != Entered && s.handlers[0] != Leaving)
    && (s.handlers != [] ==> !InRegion(s.main))
  }

  /** The bytes received and not delivered. */
  ghost function Pending(s: State): seq<bv8>
    requires s.ring.Valid()
  {
    if s.main.Copied? && s.ring.Unread() != [] then s.ring.Unread()[1..] else s.ring.Unread()
  }

  /** Unless a byte came when 63 were unread, none is lost and none repeated, and a read that
      has begun finds data. */
  ghost predicate Faithful(s: State) {
    s.ring.Valid() &&
    (!s.overrun ==>
       && s.received == s.delivered + Pending(s)
       && (s.main.Copied? ==> s.ring.read != s.ring.write)
       && (s.main.Ready? || (s.main.Copying? && s.main.done == 0) ==> s.ring.read != s.ring.write)
       && (s.main.Copying? ==> s.main.done <= s.main.count) && (s.main.Copied? ==> s.main.done < s.main.count))
  }

  lemma {:induction false} BootIsGood(s: State)
    requires Boot(s)
    ensures Guarded(s) && Faithful(s)
  {
    assert s.ring.Unread() == [];
  }

  lemma {:induction false} StepGuarded(s: State, s': State, a: Action)
    requires Guarded(s) && Next(s, s', a)
    ensures Guarded(s')
  {
    hide Ring.Unread, Ring.Count, Ring.Valid;
    if a.Interrupt? || HandlerStep(s, s', a) {
      HandlerGuarded(s, s', a);
    }
  }

  lemma {:induction false} HandlerGuarded(s: State, s': State, a: Action)
    requires Guarded(s) && Next(s, s', a) && (a.Interrupt? || HandlerStep(s, s', a))
    ensures Guarded(s')
  {
    hide MainStep, Ring.Unread, Ring.Count;
  }

  lemma {:induction false} StepFaithful(s: State, s': State, a: Action)
    requires Guarded(s) && Faithful(s) && Next(s, s', a)
    ensures Faithful(s')
  {
    hide Faithful, Ring.Unread;
    match a
    case Store(b) => StoreFaithful(s, s', b);
    case Advance => AdvanceFaithful(s, s');
    case Copy => CopyFaithful(s, s');
    case Take => TakeFaithful(s, s');
    case _ => OtherFaithful(s, s', a);
  }

  /** A step that leaves buffer and bytes alone, and does not enter or leave the middle of a copy. */
  ghost predicate Quiet(s: State, s': State) {
    && s'.ring == s.ring && s'.received == s.received && s'.delivered == s.delivered && s'.overrun == s.overrun
    && ((!s.main.Copied? && !s'.main.Copied?) || s.main == s'.main)
  }

  lemma {:induction false} OtherFaithful(s: State, s': State, a: Action)
    requires Faithful(s) && Next(s, s', a) && !a.Store? && a != Advance && a != Copy && a != Take
    ensures Faithful(s')
  {
    hide Ring.Unread, Ring.Count;
    if a.Interrupt? || HandlerStep(s, s', a) {
      HandlerQuiet(s, s', a);
    } else {
      MainQuiet(s, s', a);
    }
  }

  lemma {:induction false} HandlerQuiet(s: State, s': State, a: Action)
    requires Next(s, s', a) && (a.Interrupt? || HandlerStep(s, s', a)) && !a.Store? && a != Advance
    ensures Quiet(s, s') && s'.main == s.main
  {
    hide MainStep, Ring.Unread, Ring.Count;
  }

  lemma {:induction false} MainQuiet(s: State, s': State, a: Action)
    requires Faithful(s) && MainStep(s, s', a) && a != Copy && a != Take
    ensures Quiet(s, s') && Faithful(s')
  {
    hide Ring.Unread, Ring.Count;
  }

  lemma {:induction false} StoreFaithful(s: State, s': State, b: bv8)
    requires Faithful(s) && s' == s.(ring := s.ring.Stored(b), handlers := s'.handlers)
    ensures Faithful(s')
  {
    StoredKeeps(s.ring, b);
  }

  lemma {:induction false} AdvanceFaithful(s: State, s': State)
    requires Faithful(s) && !InRegion(s.main)
    requires s' == s.(ring := s.ring.Advanced(), handlers := s'.handlers,
                      received := s.received + [s.ring.buf[s.ring.write]],
                      overrun := s.overrun || s.ring.Count() == LEN - 1)
    ensures Faithful(s')
  {
    After(s.ring.write);
    if !s'.overrun {
      AdvancedKeeps(s.ring);
      var b := [s.ring.buf[s.ring.write]];
      assert s.delivered + s.ring.Unread() + b == s.delivered + (s.ring.Unread() + b);
    }
  }

  lemma {:induction false} CopyFaithful(s: State, s': State)
    requires Faithful(s) && s.main.Copying? && s.main.done < s.main.count && s.ring.read != s.ring.write
    requires s' == s.(main := Copied(s.main.count, s.main.done), delivered := s.delivered + [s.ring.buf[s.ring.read]])
    ensures Faithful(s')
  {
    TakenKeeps(s.ring);
    MoveOver(s.delivered, s.ring.Unread());
  }

  lemma {:induction false} TakeFaithful(s: State, s': State)
    requires Faithful(s) && s.main.Copied?
    requires s' == s.(ring := s.ring.Taken(), main := Copying(s.main.count, s.main.done + 1))
    ensures Faithful(s')
  {
    After(s.ring.read);
    if s.ring.read != s.ring.write { TakenKeeps(s.ring); }
  }

  /** A byte that comes on top of 63 unread ones makes all 64 unreadable. */
  lemma {:induction false} OverrunLoses(s: State, s': State)
    requires Guarded(s) && Faithful(s) && Next(s, s', Advance) && !s.overrun
    ensures s'.ring.Valid()
    ensures s'.received == s'.delivered + Pending(s') <==> s.ring.Count() < LEN - 1
    ensures s.ring.Count() == LEN - 1 ==> |s'.received| == |s'.delivered| + LEN && s'.ring.Unread() == []
  {
    After(s.ring.write);
    StepFaithful(s, s', Advance);
  }

  // ---------------------------------------------------------------- runs

  ghost predicate Run(states: seq<State>, actions: seq<Action>) {
    && |states| == |actions| + 1 && Boot(states[0])
    && forall i :: 0 <= i < |actions| ==> Next(states[i], states[i + 1], actions[i])
  }

  lemma {:induction false} RunIsGood(states: seq<State>, actions: seq<Action>, i: nat)
    requires Run(states, actions) && i < |states|
    ensures Guarded(states[i]) && Faithful(states[i])
  {
    if i == 0 {
      BootIsGood(states[0]);
    } else {
      RunIsGood(states, actions, i - 1);
      StepGuarded(states[i - 1], states[i], actions[i - 1]);
      StepFaithful(states[i - 1], states[i], actions[i - 1]);
    }
  }

  /** In every interleaving: interrupts are off in a handler and in a locked region, and while
      no byte came on top of 63 unread ones, what was delivered are the first bytes received. */
  lemma {:induction false} ReadsAreFaithful(states: seq<State>, actions: seq<Action>, i: nat)
    requires Run(states, actions) && i < |states|
    ensures var s := states[i];
            && (s.handlers != [] || InRegion(s.main) ==> !s.cpu.on)
            && (!s.overrun ==> s.delivered <= s.received && |s.received| - |s.delivered| <= LEN - 1)
  {
    RunIsGood(states, actions, i);
  }

  // ---------------------------------------------------------------- reads and handlers come to an end

  ghost predicate Path(states: seq<State>, actions: seq<Action>) {
    |states| == |actions| + 1 && forall i :: 0 <= i < |actions| ==> Next(states[i], states[i + 1], actions[i])
  }

  /** One step, and then the others. */
  lemma {:induction false} StepFirst(s: State, a: Action, states: seq<State>, actions: seq<Action>)
    requires Path(states, actions) && Next(s, states[0], a)
    ensures Path([s] + states, [a] + actions)
  {
    hide Next;
    var ss, aa := [s] + states, [a] + actions;
    forall i | 0 <= i < |aa|
      ensures Next(ss[i], ss[i + 1], aa[i])
    {
      if i > 0 { assert Next(states[i - 1], states[i], actions[i - 1]); }
    }
  }

  function Min(a: nat, b: nat): nat {
    if a < b then a else b
  }

  /** What a read of `count` bytes makes of the state it begins in: it delivers the oldest bytes, as
      many as asked for and there are, and interrupts are on again. */
  ghost predicate ReadDone(s: State, e: State, count: nat)
    requires s.ring.Valid()
  {
    var u := s.ring.Unread();
    var n := Min(count, |u|);
    && e.main == Idle && e.cpu == Cpu(true, false) && e.handlers == [] && e.ring.Valid()
    && e.delivered == s.delivered + u[..n] && e.ring.Unread() == u[n..]
    && e.received == s.received && e.overrun == s.overrun
  }

  /** The copying part of a read comes to its end if no interrupt comes, and none can. */
  lemma {:induction false} CopyEnds(s: State, n: nat, d: nat) returns (states: seq<State>, actions: seq<Action>)
    requires s.handlers == [] && !s.cpu.inHandler && s.main == Copying(n, d) && d <= n && s.ring.Valid()
    ensures Path(states, actions) && states[0] == s && ReadDone(s, states[|states| - 1], n - d)
    decreases n - d
  {
    hide Ring.Unread, Ring.Taken, Next, ReadDone;
    if d == n || s.ring.read == s.ring.write {
      var e := s.(cpu := s.cpu.Unlock(), main := Idle);
      NothingRead(s, n, d);
      states, actions := [s, e], [ReaderUnlock];
    } else {
      var c := AfterCopy(s, n, d);
      var t := c.(ring := c.ring.Taken(), main := Copying(n, d + 1));
      CopySteps(s, n, d);
      states, actions := CopyEnds(t, n, d + 1);
      OneMoreRead(s, t, states[|states| - 1], n - d);
      StepFirst(c, Take, states, actions);
      StepFirst(s, Copy, [c] + states, [Take] + actions);
      states, actions := [s] + ([c] + states), [Copy] + ([Take] + actions);
    }
  }

  function AfterCopy(s: State, n: nat, d: nat): State
    requires s.ring.read < |s.ring.buf|
  {
    s.(main := Copied(n, d), delivered := s.delivered + [s.ring.buf[s.ring.read]])
  }

  lemma {:induction false} CopySteps(s: State, n: nat, d: nat)
    requires s.handlers == [] && s.main == Copying(n, d) && d < n && s.ring.Valid() && s.ring.read != s.ring.write
    ensures var c := AfterCopy(s, n, d);
            var t := c.(ring := c.ring.Taken(), main := Copying(n, d + 1));
            && Next(s, c, Copy) && Next(c, t, Take) && s.ring.Unread() != [] && t.ring.Valid()
            && t.ring.Unread() == s.ring.Unread()[1..] && t.delivered == s.delivered + [s.ring.Unread()[0]]
  {
    hide Ring.Unread, Ring.Taken;
    TakenKeeps(s.ring);
  }

  lemma {:induction false} NothingRead(s: State, n: nat, d: nat)
    requires s.handlers == [] && !s.cpu.inHandler && s.main == Copying(n, d) && d <= n && s.ring.Valid()
    requires d == n || s.ring.read == s.ring.write
    ensures var e := s.(cpu := s.cpu.Unlock(), main := Idle);
            Next(s, e, ReaderUnlock) && ReadDone(s, e, n - d)
  {
    hide Ring.Unread;
    var u := s.ring.Unread();
    assert u[..0] == [] && u[0..] == u && Min(n - d, |u|) == 0;
  }

  lemma {:induction false} OneMoreRead(s: State, t: State, e: State, count: nat)
    requires s.ring.Valid() && t.ring.Valid() && count > 0 && s.ring.Unread() != []
    requires t.ring.Unread() == s.ring.Unread()[1..] && t.delivered == s.delivered + [s.ring.Unread()[0]]
    requires t.received == s.received && t.overrun == s.overrun && ReadDone(t, e, count - 1)
    ensures ReadDone(s, e, count)
  {
    hide Ring.Unread;
    var u := s.ring.Unread();
    var n := Min(count - 1, |u[1..]|);
    assert u[..n + 1] == [u[0]] + u[1..][..n] && u[n + 1..] == u[1..][n..];
  }

  /** A read that waits comes to its end once there is data: it looks, locks, copies and unlocks. */
  lemma {:induction false} ReadCompletes(s: State, count: nat) returns (states: seq<State>, actions: seq<Action>)
    requires Guarded(s) && s.ring.Valid() && s.handlers == [] && s.main == Waiting(count)
             && s.ring.read != s.ring.write
    ensures Path(states, actions) && states[0] == s && ReadDone(s, states[|states| - 1], count)
  {
    hide Ring.Unread;
    var r := s.(main := Ready(count));
    var c := r.(cpu := r.cpu.Lock(), main := Copying(count, 0));
    states, actions := CopyEnds(c, count, 0);
    assert Next(r, c, ReaderLock) && Next(s, r, Look);
    StepFirst(r, ReaderLock, states, actions);
    StepFirst(s, Look, [r] + states, [ReaderLock] + actions);
    states, actions := [s] + ([r] + states), [Look] + ([ReaderLock] + actions);
  }

  /** An interrupt is seen by nothing but the ring: the handler stores its byte and all else is as it
      was when it returns. */
  lemma {:induction false} HandlerCompletes(s: State, b: bv8) returns (states: seq<State>, actions: seq<Action>)
    requires Guarded(s) && s.ring.Valid() && s.cpu.on
    ensures Path(states, actions) && states[0] == s && actions != [] && actions[0] == Interrupt
    ensures states[|states| - 1] == s.(ring := s.ring.Stored(b).Advanced(), received := s.received + [b],
                                       overrun := s.overrun || s.ring.Count() == LEN - 1)
  {
    hide Ring.Unread, Ring.Count, Ring.Advanced, Ring.Stored, Next;
    var s1 := s.(cpu := Cpu(false, false), handlers := [Entered]);
    var s2 := s1.(cpu := Cpu(false, true), handlers := [Working]);
    var s3 := s2.(handlers := [Locked]);
    var s4 := s3.(ring := s.ring.Stored(b), handlers := [Holding]);
    var s5 := s4.(ring := s.ring.Stored(b).Advanced(), handlers := [Filled], received := s.received + [b],
                  overrun := s.overrun || s.ring.Count() == LEN - 1);
    states := [s, s1, s2, s3, s4, s5, s5.(handlers := [Working]), s5.(cpu := Cpu(false, false), handlers := [Leaving]),
               s5.(cpu := Cpu(true, false), handlers := [])];
    actions := [Interrupt, SetFlag, HandlerLock, Store(b), Advance, HandlerUnlock, ClearFlag, Return];
    HandlerPath(s, b, s4, s5);
    HandlerStarts(s, b);
    HandlerLeaves(s5);
  }

  lemma {:induction false} HandlerStarts(s: State, b: bv8)
    requires s.handlers == [] && s.cpu == Cpu(true, false) && s.ring.Valid()
    ensures var s1 := s.(cpu := Cpu(false, false), handlers := [Entered]);
            var s2 := s1.(cpu := Cpu(false, true), handlers := [Working]);
            var s3 := s2.(handlers := [Locked]);
            var s4 := s3.(ring := s.ring.Stored(b), handlers := [Holding]);
            Next(s, s1, Interrupt) && Next(s1, s2, SetFlag) && Next(s2, s3, HandlerLock) && Next(s3, s4, Store(b))
  {
    assert [] + [Entered] == [Entered];
  }

  lemma {:induction false} HandlerLeaves(s: State)
    requires s.cpu == Cpu(false, true) && s.handlers == [Filled]
    ensures var s6 := s.(handlers := [Working]);
            var s7 := s.(cpu := Cpu(false, false), handlers := [Leaving]);
            var s8 := s.(cpu := Cpu(true, false), handlers := []);
            Next(s, s6, HandlerUnlock) && Next(s6, s7, ClearFlag) && Next(s7, s8, Return)
  {}

  /** The step that makes the byte stored a received one. */
  lemma {:induction false} HandlerPath(s: State, b: bv8, s4: State, s5: State)
    requires s.ring.Valid() && s4 == s.(cpu := Cpu(false, true), ring := s.ring.Stored(b), handlers := [Holding])
    requires s5 == s4.(ring := s.ring.Stored(b).Advanced(), handlers := [Filled], received := s.received + [b],
                       overrun := s.overrun || s.ring.Count() == LEN - 1)
    ensures Next(s4, s5, Advance)
  {
    assert s4.ring.buf[s4.ring.write] == b && s4.ring.Count() == s.ring.Count();
  }

  /** A read for `count` bytes gives that many at most, and at least one if it asks for any. */
  lemma {:induction false} ReadsEnd(states: seq<State>, actions: seq<Action>, i: nat)
    requires Run(states, actions) && i < |actions| && actions[i] == ReaderUnlock && !states[i].overrun
    ensures var m := states[i].main;
            m.Copying? && m.done <= m.count && (m.count > 0 ==> m.done > 0)
  {
    RunIsGood(states, actions, i);
    assert Next(states[i], states[i + 1], actions[i]);
  }
}
