/**
 The writer-preferring read/write lock: three counters behind a condition variable.  Every
 critical section, sleep and wake-up of every thread is one step; any number of threads.
 */
module RwLock {

  datatype Counters = Counters(readers: int, writer: bool, waiting: int)

  /** The guard a reader sleeps on. */
  predicate ReadBlocked(c: Counters) {
    c.writer || c.waiting > 0
  }

  /** The guard a writer sleeps on. */
  predicate WriteBlocked(c: Counters) {
    c.writer || c.readers > 0
  }

  /** The lock object; each method is the code between two points where the mutex is released. */
  class Lock {
    var readers: int
    var writer: bool
    var waitingWriters: int

    constructor ()
      ensures Value() == Counters(0, false, 0)
    {
      readers, writer, waitingWriters := 0, false, 0;
    }

    function Value(): Counters
      reads this
    {
      Counters(readers, writer, waitingWriters)
    }

    /** One pass of the reader's loop: enter, or go to sleep. */
    method TryRead() returns (entered: bool)
      modifies this
      ensures entered == !ReadBlocked(old(Value()))
      ensures Value() == if entered then AddReader(old(Value())) else old(Value())
    {
      if writer || waitingWriters > 0 {
        return false;
      }
      readers := readers + 1;
      return true;
    }

    method ReleaseRead() returns (notifyAll: bool)
      modifies this
      ensures Value() == DropReader(old(Value())) && notifyAll == (Value().readers == 0)
    {
      readers := readers - 1;
      notifyAll := readers == 0;
    }

    /** A writer announces itself before its first look at the guard. */
    method AnnounceWrite()
      modifies this
      ensures Value() == Announce(old(Value()))
    {
      waitingWriters := waitingWriters + 1;
    }

    method TryWrite() returns (entered: bool)
      modifies this
      ensures entered == !WriteBlocked(old(Value()))
      ensures Value() == if entered then TakeWrite(old(Value())) else old(Value())
    {
      if writer || readers > 0 {
        return false;
      }
      waitingWriters := waitingWriters - 1;
      writer := true;
      return true;
    }

    method ReleaseWrite()
      modifies this
      ensures Value() == DropWriter(old(Value()))
    {
      writer := false;
    }
  }

  function AddReader(c: Counters): Counters { c.(readers := c.readers + 1) }

  function DropReader(c: Counters): Counters { c.(readers := c.readers - 1) }

  function Announce(c: Counters): Counters { c.(waiting := c.waiting + 1) }

  function TakeWrite(c: Counters): Counters { c.(waiting := c.waiting - 1, writer := true) }

  function DropWriter(c: Counters): Counters { c.(writer := false) }

  // ---------------------------------------------------------------- the protocol

  datatype Pc = Idle | ReadCalled | ReadAsleep | ReadWoken | Reading | WriteCalled | WriteAsleep | WriteWoken | Writing

  type Thread = string

  datatype State = State(c: Counters, pc: map<Thread, Pc>)

  datatype Step =
    | CallRead(t: Thread) | CallWrite(t: Thread)
    | TryReadStep(t: Thread) | TryWriteStep(t: Thread)
    | EndRead(t: Thread) | EndWrite(t: Thread)
    | Spurious(t: Thread)

  function Wake(p: Pc): Pc {
    match p
    case ReadAsleep => ReadWoken
    case WriteAsleep => WriteWoken
    case _ => p
  }

  /** `notify_all`: every sleeper becomes runnable. */
  function WakeAll(pc: map<Thread, Pc>): map<Thread, Pc> {
    map t | t in pc :: Wake(pc[t])
  }

  predicate Enabled(s: State, a: Step) {
    a.t in s.pc &&
    match a
    case CallRead(t) => s.pc[t] == Idle
    case CallWrite(t) => s.pc[t] == Idle
    case TryReadStep(t) => s.pc[t] in {ReadCalled, ReadWoken}
    case TryWriteStep(t) => s.pc[t] in {WriteCalled, WriteWoken}
    case EndRead(t) => s.pc[t] == Reading
    case EndWrite(t) => s.pc[t] == Writing
    case Spurious(t) => s.pc[t] in {ReadAsleep, WriteAsleep}
  }

  function Next(s: State, a: Step): State
    requires Enabled(s, a)
  {
    match a
    case CallRead(t) => s.(pc := s.pc[t := ReadCalled])
    case CallWrite(t) => s.(pc := s.pc[t := WriteCalled])
    case TryReadStep(t) =>
      if ReadBlocked(s.c) then s.(pc := s.pc[t := ReadAsleep]) else State(AddReader(s.c), s.pc[t := Reading])
    case TryWriteStep(t) =>
      var c := if s.pc[t] == WriteCalled then Announce(s.c) else s.c;
      if WriteBlocked(c) then State(c, s.pc[t := WriteAsleep]) else State(TakeWrite(c), s.pc[t := Writing])
    case EndRead(t) =>
      var c := DropReader(s.c);
      var pc := s.pc[t := Idle];
      State(c, if c.readers == 0 then WakeAll(pc) else pc)
    case EndWrite(t) => State(DropWriter(s.c), WakeAll(s.pc[t := Idle]))
    case Spurious(t) => s.(pc := s.pc[t := Wake(s.pc[t])])
  }

  // ---------------------------------------------------------------- the invariant

  function At(pc: map<Thread, Pc>, ps: set<Pc>): set<Thread> {
    set t | t in pc && pc[t] in ps
  }

  /** The counters count exactly the threads they are about. */
  predicate CountsExact(s: State) {
    && s.c.readers == |At(s.pc, {Reading})|
    && s.c.waiting == |At(s.pc, {WriteAsleep, WriteWoken})|
    && |At(s.pc, {Writing})| == if s.c.writer then 1 else 0
  }

  predicate Exclusive(s: State) {
    s.c.writer ==> s.c.readers == 0
  }

  /** No thread sleeps on a guard that is already false. */
  predicate NoLostWakeup(s: State) {
    forall t :: t in s.pc ==>
      (s.pc[t] == ReadAsleep ==> ReadBlocked(s.c)) && (s.pc[t] == WriteAsleep ==> WriteBlocked(s.c))
  }

  predicate Inv(s: State) {
    CountsExact(s) && Exclusive(s) && NoLostWakeup(s)
  }

  lemma Member(ts: set<Thread>, t: Thread)
    requires t in ts
    ensures |ts| > 0
  {
    assert |ts - {t}| == |ts| - 1;
  }

  lemma MoveOne(pc: map<Thread, Pc>, t: Thread, p: Pc, ps: set<Pc>)
    requires t in pc
    ensures |At(pc[t := p], ps)| == |At(pc, ps)| - (if pc[t] in ps then 1 else 0) + (if p in ps then 1 else 0)
  {
    var before, after := At(pc, ps), At(pc[t := p], ps);
    if p in ps {
      assert after == before + {t};
    } else {
      assert after == before - {t};
    }
  }

  lemma WakeKeeps(pc: map<Thread, Pc>)
    ensures At(WakeAll(pc), {Reading}) == At(pc, {Reading})
    ensures At(WakeAll(pc), {Writing}) == At(pc, {Writing})
    ensures At(WakeAll(pc), {WriteAsleep, WriteWoken}) == At(pc, {WriteAsleep, WriteWoken})
  {
    WakeKeepsClass(pc, {Reading});
    WakeKeepsClass(pc, {Writing});
    WakeKeepsClass(pc, {WriteAsleep, WriteWoken});
  }

  lemma WakeKeepsClass(pc: map<Thread, Pc>, ps: set<Pc>)
    requires forall p :: Wake(p) in ps <==> p in ps
    ensures At(WakeAll(pc), ps) == At(pc, ps)
  {
    forall t | t in pc
      ensures t in At(WakeAll(pc), ps) <==> t in At(pc, ps)
    {
      assert WakeAll(pc)[t] == Wake(pc[t]);
    }
  }

  lemma MoveCounts(s: State, t: Thread, p: Pc)
    requires t in s.pc && CountsExact(s)
    ensures |At(s.pc[t := p], {Reading})| ==
            s.c.readers - (if s.pc[t] == Reading then 1 else 0) + (if p == Reading then 1 else 0)
    ensures |At(s.pc[t := p], {WriteAsleep, WriteWoken})| ==
            s.c.waiting - (if s.pc[t] in {WriteAsleep, WriteWoken} then 1 else 0) + (if p in {WriteAsleep, WriteWoken} then 1 else 0)
    ensures |At(s.pc[t := p], {Writing})| ==
            (if s.c.writer then 1 else 0) - (if s.pc[t] == Writing then 1 else 0) + (if p == Writing then 1 else 0)
  {
    MoveOne(s.pc, t, p, {Reading});
    MoveOne(s.pc, t, p, {WriteAsleep, WriteWoken});
    MoveOne(s.pc, t, p, {Writing});
  }

  lemma StepKeepsInv(s: State, a: Step)
    requires Inv(s) && Enabled(s, a)
    ensures Inv(Next(s, a))
  {
    var s' := Next(s, a);
    match a
    case CallRead(t) => MoveCounts(s, t, ReadCalled);
    case CallWrite(t) => MoveCounts(s, t, WriteCalled);
    case TryReadStep(t) =>
      MoveCounts(s, t, s'.pc[t]);
    case TryWriteStep(t) =>
      MoveCounts(s, t, s'.pc[t]);
    case EndRead(t) =>
      MoveCounts(s, t, Idle);
      WakeKeeps(s.pc[t := Idle]);
      Member(At(s.pc, {Reading}), t);
    case EndWrite(t) =>
      MoveCounts(s, t, Idle);
      WakeKeeps(s.pc[t := Idle]);
    case Spurious(t) => MoveCounts(s, t, Wake(s.pc[t]));
  }

  predicate Runs(s: State, run: seq<Step>)
    decreases |run|
  {
    run == [] || (Enabled(s, run[0]) && Runs(Next(s, run[0]), run[1..]))
  }

  function After(s: State, run: seq<Step>): State
    requires Runs(s, run)
    decreases |run|
  {
    if run == [] then s else After(Next(s, run[0]), run[1..])
  }

  function Start(threads: set<Thread>): State {
    State(Counters(0, false, 0), map t | t in threads :: Idle)
  }

  lemma {:induction false} RunKeepsInv(s: State, run: seq<Step>)
    requires Inv(s) && Runs(s, run)
    ensures Inv(After(s, run))
    decreases |run|
  {
    if run != [] {
      StepKeepsInv(s, run[0]);
      RunKeepsInv(Next(s, run[0]), run[1..]);
    }
  }

  lemma StartInv(threads: set<Thread>)
    ensures Inv(Start(threads))
  {
    var pc := Start(threads).pc;
    assert At(pc, {Reading}) == {} && At(pc, {Writing}) == {} && At(pc, {WriteAsleep, WriteWoken}) == {};
  }

  /** In every reachable state a thread holding the write side excludes every other holder, and
      the counters are exact; nobody sleeps on a false guard. */
  lemma MutualExclusion(threads: set<Thread>, run: seq<Step>, t: Thread, u: Thread)
    requires Runs(Start(threads), run)
    requires var s := After(Start(threads), run); t in s.pc && u in s.pc && t != u && s.pc[t] == Writing
    ensures var s := After(Start(threads), run);
            s.pc[u] != Reading && s.pc[u] != Writing && s.c.writer && s.c.readers == 0 && NoLostWakeup(s)
  {
    var s := After(Start(threads), run);
    StartInv(threads);
    RunKeepsInv(Start(threads), run);
    assert t in At(s.pc, {Writing});
    assert At(s.pc, {Writing}) == {t} by {
      OnlyOne(At(s.pc, {Writing}), t);
    }
    assert u !in At(s.pc, {Writing});
    assert At(s.pc, {Reading}) == {};
    assert u !in At(s.pc, {Reading});
  }

  lemma OnlyOne(ts: set<Thread>, t: Thread)
    requires |ts| <= 1 && t in ts
    ensures ts == {t}
  {
    var rest := ts - {t};
    assert |rest| == |ts| - 1;
    assert rest == {};
    assert ts == rest + {t};
  }

  // ---------------------------------------------------------------- writer preference

  predicate WriterWaits(s: State, t: Thread) {
    t in s.pc && s.pc[t] in {WriteAsleep, WriteWoken}
  }

  /** Every state of the run, both ends included, has `t` waiting to write. */
  predicate WaitsThroughout(s: State, run: seq<Step>, t: Thread)
    requires Runs(s, run)
    decreases |run|
  {
    WriterWaits(s, t) && (run == [] || WaitsThroughout(Next(s, run[0]), run[1..], t))
  }

  /** As long as some writer waits, no thread becomes a reader. */
  lemma {:induction false} NoReaderOvertakes(s: State, run: seq<Step>, t: Thread)
    requires Inv(s) && Runs(s, run) && WaitsThroughout(s, run, t)
    ensures At(After(s, run).pc, {Reading}) <= At(s.pc, {Reading})
    decreases |run|
  {
    if run != [] {
      var a := run[0];
      var s1 := Next(s, a);
      Member(At(s.pc, {WriteAsleep, WriteWoken}), t);
      assert s.c.waiting > 0;
      if a.EndRead? || a.EndWrite? {
        WakeKeeps(s.pc[a.t := Idle]);
      }
      assert At(s1.pc, {Reading}) <= At(s.pc, {Reading});
      StepKeepsInv(s, a);
      NoReaderOvertakes(s1, run[1..], t);
    }
  }

  // ---------------------------------------------------------------- progress

  /** Steps threads take by themselves once their calls are made. */
  predicate Internal(a: Step) {
    a.TryReadStep? || a.TryWriteStep? || a.EndRead? || a.EndWrite?
  }

  lemma Someone(ts: set<Thread>) returns (t: Thread)
    requires |ts| > 0
    ensures t in ts
  {
    assert ts != {};
    t :| t in ts;
  }

  /** If any thread waits, some thread can take a step of its own: the protocol never deadlocks. */
  lemma NeverStuck(s: State, t: Thread) returns (a: Step)
    requires Inv(s) && t in s.pc && s.pc[t] != Idle
    ensures Internal(a) && Enabled(s, a)
  {
    var p := s.pc[t];
    if p in {ReadCalled, ReadWoken} {
      a := TryReadStep(t);
    } else if p in {WriteCalled, WriteWoken} {
      a := TryWriteStep(t);
    } else if p == Reading {
      a := EndRead(t);
    } else if p == Writing {
      a := EndWrite(t);
    } else if s.c.writer {
      var w := Someone(At(s.pc, {Writing}));
      a := EndWrite(w);
    } else if s.c.readers > 0 {
      var r := Someone(At(s.pc, {Reading}));
      a := EndRead(r);
    } else {
      var w := Someone(At(s.pc, {WriteAsleep, WriteWoken}));
      a := TryWriteStep(w);
    }
  }

  const BUSY: set<Pc> := {ReadCalled, ReadAsleep, ReadWoken, Reading, WriteCalled, WriteAsleep, WriteWoken, Writing}

  const AWAKE: set<Pc> := {ReadCalled, ReadWoken, WriteCalled, WriteWoken}

  /** Unfinished requests weigh more than all the wake-ups one of them can cause. */
  function Weight(s: State): nat {
    |At(s.pc, BUSY)| * (|s.pc| + 1) + |At(s.pc, AWAKE)|
  }

  lemma WakeBounds(pc: map<Thread, Pc>)
    ensures At(WakeAll(pc), BUSY) == At(pc, BUSY)
    ensures |At(WakeAll(pc), AWAKE)| <= |pc|
    ensures |WakeAll(pc)| == |pc|
  {
    assert WakeAll(pc).Keys == pc.Keys;
    WakeKeepsClass(pc, BUSY);
    SubsetSize(At(WakeAll(pc), AWAKE), pc.Keys);
  }

  lemma {:induction false} SubsetSize(a: set<Thread>, b: set<Thread>)
    requires a <= b
    ensures |a| <= |b|
  {
    if a != {} {
      var x: Thread :| x in a;
      SubsetSize(a - {x}, b - {x});
    }
  }

  lemma OneFewer(a: nat, b: nat, n: nat, x: nat)
    requires a == b + 1 && x <= n
    ensures b * (n + 1) + x < a * (n + 1)
  {
    assert a * (n + 1) == b * (n + 1) + (n + 1);
  }

  lemma ReleaseShrinks(s: State, a: Step)
    requires (a.EndRead? || a.EndWrite?) && Enabled(s, a)
    ensures Weight(Next(s, a)) < Weight(s)
  {
    var pc := s.pc[a.t := Idle];
    assert pc.Keys == s.pc.Keys;
    MoveOne(s.pc, a.t, Idle, BUSY);
    WakeBounds(pc);
    SubsetSize(At(pc, AWAKE), pc.Keys);
    var pc' := Next(s, a).pc;
    assert |pc'| == |s.pc| && |At(pc', BUSY)| == |At(s.pc, BUSY)| - 1;
    OneFewer(|At(s.pc, BUSY)|, |At(pc', BUSY)|, |s.pc|, |At(pc', AWAKE)|);
  }

  /** One thread moves from awake to asleep or inside: as busy as before, one fewer awake. */
  lemma MoveShrinks(pc: map<Thread, Pc>, t: Thread, p: Pc)
    requires t in pc && pc[t] in AWAKE && p in BUSY && p !in AWAKE
    ensures var pc' := pc[t := p];
            |pc'| == |pc| && |At(pc', BUSY)| == |At(pc, BUSY)| && |At(pc', AWAKE)| == |At(pc, AWAKE)| - 1
  {
    assert pc[t := p].Keys == pc.Keys;
    MoveOne(pc, t, p, BUSY);
    MoveOne(pc, t, p, AWAKE);
  }

  lemma TryShrinks(s: State, a: Step)
    requires (a.TryReadStep? || a.TryWriteStep?) && Enabled(s, a)
    ensures Weight(Next(s, a)) < Weight(s)
  {
    var p := Next(s, a).pc[a.t];
    assert Next(s, a).pc == s.pc[a.t := p];
    MoveShrinks(s.pc, a.t, p);
  }

  /** Every step a thread takes by itself brings the system strictly closer to quiet. */
  lemma InternalStepsShrink(s: State, a: Step)
    requires Internal(a) && Enabled(s, a)
    ensures Weight(Next(s, a)) < Weight(s)
  {
    if a.EndRead? || a.EndWrite? { ReleaseShrinks(s, a); } else { TryShrinks(s, a); }
  }

  predicate AllInternal(run: seq<Step>) {
    forall i :: 0 <= i < |run| ==> Internal(run[i])
  }

  lemma {:induction false} RunsAreShort(s: State, run: seq<Step>)
    requires Inv(s) && Runs(s, run) && AllInternal(run)
    ensures |run| + Weight(After(s, run)) <= Weight(s)
    decreases |run|
  {
    if run != [] {
      InternalStepsShrink(s, run[0]);
      StepKeepsInv(s, run[0]);
      RunsAreShort(Next(s, run[0]), run[1..]);
    }
  }

  /** No starvation: however the threads of any reachable state are scheduled, as long as no new
      call arrives they stop after a bounded number of steps, and a schedule that cannot be
      continued has served and released every request. */
  lemma EveryRequestIsServed(threads: set<Thread>, before: seq<Step>, run: seq<Step>)
    requires Runs(Start(threads), before) && Runs(After(Start(threads), before), run) && AllInternal(run)
    ensures |run| <= Weight(After(Start(threads), before))
    ensures var s := After(After(Start(threads), before), run);
            (forall a :: Internal(a) ==> !Enabled(s, a)) ==> forall t :: t in s.pc ==> s.pc[t] == Idle
  {
    var s0 := After(Start(threads), before);
    StartInv(threads);
    RunKeepsInv(Start(threads), before);
    RunsAreShort(s0, run);
    RunKeepsInv(s0, run);
    var s := After(s0, run);
    forall t | t in s.pc && (forall a :: Internal(a) ==> !Enabled(s, a))
      ensures s.pc[t] == Idle
    {
      if s.pc[t] != Idle {
        var a := NeverStuck(s, t);
      }
    }
  }

  // ---------------------------------------------------------------- an interrupted wait

  /** An exception out of a writer's wait undoes its announcement and wakes nobody. */
  function Interrupted(s: State, t: Thread): State
    requires WriterWaits(s, t)
  {
    State(s.c.(waiting := s.c.waiting - 1), s.pc[t := Idle])
  }

  /** An interrupted writer loses a wake-up exactly when it was the only reason readers sleep:
      no writer holds the lock, no other writer waits, and some reader is asleep. */
  lemma InterruptLosesWakeupIff(s: State, t: Thread)
    requires Inv(s) && WriterWaits(s, t)
    ensures NoLostWakeup(Interrupted(s, t)) <==>
            s.c.writer || s.c.waiting > 1 || forall u :: u in s.pc ==> s.pc[u] != ReadAsleep
  {
    var s' := Interrupted(s, t);
    Member(At(s.pc, {WriteAsleep, WriteWoken}), t);
    if !(s.c.writer || s.c.waiting > 1) && exists u :: u in s.pc && s.pc[u] == ReadAsleep {
      var u :| u in s.pc && s.pc[u] == ReadAsleep;
      assert s'.pc[u] == ReadAsleep;
    }
    if s.c.writer || s.c.waiting > 1 || forall u :: u in s.pc ==> s.pc[u] != ReadAsleep {
      forall u | u in s'.pc
        ensures s'.pc[u] == ReadAsleep ==> ReadBlocked(s'.c)
        ensures s'.pc[u] == WriteAsleep ==> WriteBlocked(s'.c)
      {
        if u != t {
          assert s'.pc[u] == s.pc[u];
        }
      }
    }
  }

  lemma RunCons(s: State, a: Step, rest: seq<Step>)
    requires Enabled(s, a)
    ensures Runs(s, [a] + rest) <==> Runs(Next(s, a), rest)
    ensures Runs(s, [a] + rest) ==> After(s, [a] + rest) == After(Next(s, a), rest)
  {
    assert ([a] + rest)[1..] == rest;
  }

  /** A reader holds the lock, a writer waits, a second reader queues behind the writer; the first
      reader leaves and wakes both, and the second reader goes back to sleep behind the writer. */
  const QUEUE: seq<Step> := [CallRead("t0")] + ([TryReadStep("t0")] + ([CallWrite("t1")] + ([TryWriteStep("t1")] +
                            ([CallRead("t2")] + ([TryReadStep("t2")] + ([EndRead("t0")] + ([TryReadStep("t2")] + [])))))))

  const THREE: set<Thread> := {"t0", "t1", "t2"}

  /** Everyone idle but for readers asleep, on a lock that nobody holds or wants. */
  predicate Stranded(s: State) {
    s.c == Counters(0, false, 0) && (forall u :: u in s.pc ==> s.pc[u] in {Idle, ReadAsleep}) &&
    exists u :: u in s.pc && s.pc[u] == ReadAsleep
  }

  function Trio(c: Counters, p0: Pc, p1: Pc, p2: Pc): State {
    State(c, map["t0" := p0, "t1" := p1, "t2" := p2])
  }

  lemma QueueStart()
    ensures Start(THREE) == Trio(Counters(0, false, 0), Idle, Idle, Idle)
  {
    assert Start(THREE).pc == map["t0" := Idle, "t1" := Idle, "t2" := Idle];
  }

  lemma WakeTrio(p0: Pc, p1: Pc, p2: Pc)
    ensures WakeAll(map["t0" := p0, "t1" := p1, "t2" := p2]) == map["t0" := Wake(p0), "t1" := Wake(p1), "t2" := Wake(p2)]
  {
  }

  lemma QueueOpens()
    ensures Next(Trio(Counters(0, false, 0), Idle, Idle, Idle), CallRead("t0")) == Trio(Counters(0, false, 0), ReadCalled, Idle, Idle)
    ensures Next(Trio(Counters(0, false, 0), ReadCalled, Idle, Idle), TryReadStep("t0")) == Trio(Counters(1, false, 0), Reading, Idle, Idle)
    ensures Next(Trio(Counters(1, false, 0), Reading, Idle, Idle), CallWrite("t1")) == Trio(Counters(1, false, 0), Reading, WriteCalled, Idle)
    ensures Next(Trio(Counters(1, false, 0), Reading, WriteCalled, Idle), TryWriteStep("t1")) ==
            Trio(Counters(1, false, 1), Reading, WriteAsleep, Idle)
  {
  }

  lemma QueueTurns()
    ensures Next(Trio(Counters(1, false, 1), Reading, WriteAsleep, Idle), CallRead("t2")) ==
            Trio(Counters(1, false, 1), Reading, WriteAsleep, ReadCalled)
    ensures Next(Trio(Counters(1, false, 1), Reading, WriteAsleep, ReadCalled), TryReadStep("t2")) ==
            Trio(Counters(1, false, 1), Reading, WriteAsleep, ReadAsleep)
  {
  }

  lemma QueueReleases()
    ensures Next(Trio(Counters(1, false, 1), Reading, WriteAsleep, ReadAsleep), EndRead("t0")) ==
            Trio(Counters(0, false, 1), Idle, WriteWoken, ReadWoken)
    ensures Next(Trio(Counters(0, false, 1), Idle, WriteWoken, ReadWoken), TryReadStep("t2")) ==
            Trio(Counters(0, false, 1), Idle, WriteWoken, ReadAsleep)
  {
    WakeTrio(Idle, WriteAsleep, ReadAsleep);
  }

  lemma QueueRuns()
    ensures Runs(Start(THREE), QUEUE) && After(Start(THREE), QUEUE) == Trio(Counters(0, false, 1), Idle, WriteWoken, ReadAsleep)
  {
    var none: seq<Step> := [];
    var r7 := [TryReadStep("t2")] + none;
    var r6 := [EndRead("t0")] + r7;
    var r5 := [TryReadStep("t2")] + r6;
    var r4 := [CallRead("t2")] + r5;
    var r3 := [TryWriteStep("t1")] + r4;
    var r2 := [CallWrite("t1")] + r3;
    var r1 := [TryReadStep("t0")] + r2;
    QueueStart();
    QueueOpens();
    QueueTurns();
    QueueReleases();
    RunCons(Trio(Counters(0, false, 1), Idle, WriteWoken, ReadWoken), TryReadStep("t2"), none);
    RunCons(Trio(Counters(1, false, 1), Reading, WriteAsleep, ReadAsleep), EndRead("t0"), r7);
    RunCons(Trio(Counters(1, false, 1), Reading, WriteAsleep, ReadCalled), TryReadStep("t2"), r6);
    RunCons(Trio(Counters(1, false, 1), Reading, WriteAsleep, Idle), CallRead("t2"), r5);
    RunCons(Trio(Counters(1, false, 0), Reading, WriteCalled, Idle), TryWriteStep("t1"), r4);
    RunCons(Trio(Counters(1, false, 0), Reading, Idle, Idle), CallWrite("t1"), r3);
    RunCons(Trio(Counters(0, false, 0), ReadCalled, Idle, Idle), TryReadStep("t0"), r2);
    RunCons(Trio(Counters(0, false, 0), Idle, Idle, Idle), CallRead("t0"), r1);
  }

  /** A stranded reader: nothing the threads do by themselves helps it, only a new call or a
      spurious wake-up. */
  lemma StrandedNeedsHelp(s: State, a: Step)
    requires Stranded(s) && Enabled(s, a)
    ensures a.CallRead? || a.CallWrite? || a.Spurious?
  {
  }

  /** Interrupting the writer at that point strands the second reader for good: the lock is free,
      nobody waits, everyone else is idle, and it sleeps. */
  lemma InterruptStrandsReader()
    ensures Runs(Start(THREE), QUEUE) && WriterWaits(After(Start(THREE), QUEUE), "t1")
    ensures var s := Interrupted(After(Start(THREE), QUEUE), "t1");
            && Stranded(s) && "t2" in s.pc && s.pc["t2"] == ReadAsleep
            && forall a :: Internal(a) ==> !Enabled(s, a)
  {
    QueueRuns();
    var s := Interrupted(After(Start(THREE), QUEUE), "t1");
    assert s.pc == map["t0" := Idle, "t1" := Idle, "t2" := ReadAsleep];
    assert s.pc["t2"] == ReadAsleep;
    forall a | Internal(a) ensures !Enabled(s, a) {
      if Enabled(s, a) { StrandedNeedsHelp(s, a); }
    }
  }
}
