/** BiasedReadWriteLock: four counters under a mutex, two condition variables. The sections under
    the mutex are atomic; the signal that follows a release is a step of its own. */
module RwLock {

  // ---------------------------------------------------------------- the counters

  datatype Counters = Counters(activeWriters: int, activeReaders: int, waitingReaders: int, waitingWriters: int)

  predicate AllowReader(c: Counters) {
    c.activeWriters == 0
  }

  predicate AllowWriter(c: Counters) {
    c.activeWriters == 0 && c.activeReaders == 0
  }

  function AdmitReader(c: Counters): Counters {
    c.(waitingReaders := c.waitingReaders - 1, activeReaders := c.activeReaders + 1)
  }

  function AdmitWriter(c: Counters): Counters {
    c.(waitingWriters := c.waitingWriters - 1, activeWriters := c.activeWriters + 1)
  }

  /** The lock object. Each method is one stretch of code under the mutex: up to a wait, from a
      wait on, or a release. */
  class BiasedReadWriteLock {
    var activeWriters: int
    var activeReaders: int
    var waitingReaders: int
    var waitingWriters: int

    ghost function Value(): Counters
      reads this
    {
      Counters(activeWriters, activeReaders, waitingReaders, waitingWriters)
    }

    constructor ()
      ensures Value() == Counters(0, 0, 0, 0)
    {
      activeWriters, activeReaders, waitingReaders, waitingWriters := 0, 0, 0, 0;
    }

    /** The loop test of beforeRead, and its exit when the reader may go on. */
    method TryRead() returns (granted: bool)
      modifies this
      ensures granted == AllowReader(old(Value()))
      ensures Value() == if granted then AdmitReader(old(Value())) else old(Value())
    {
      granted := activeWriters == 0;
      if granted {
        waitingReaders := waitingReaders - 1;
        activeReaders := activeReaders + 1;
      }
    }

    method BeforeRead() returns (granted: bool)
      modifies this
      ensures var c := old(Value()).(waitingReaders := old(waitingReaders) + 1);
              granted == AllowReader(c) && Value() == if granted then AdmitReader(c) else c
    {
      waitingReaders := waitingReaders + 1;
      granted := TryRead();
    }

    method TryWrite() returns (granted: bool)
      modifies this
      ensures granted == AllowWriter(old(Value()))
      ensures Value() == if granted then AdmitWriter(old(Value())) else old(Value())
    {
      granted := activeWriters == 0 && activeReaders == 0;
      if granted {
        waitingWriters := waitingWriters - 1;
        activeWriters := activeWriters + 1;
      }
    }

    method BeforeWrite() returns (granted: bool)
      modifies this
      ensures var c := old(Value()).(waitingWriters := old(waitingWriters) + 1);
              granted == AllowWriter(c) && Value() == if granted then AdmitWriter(c) else c
    {
      waitingWriters := waitingWriters + 1;
      granted := TryWrite();
    }

    method AfterRead() returns (wakeReader: bool, wakeWriter: bool)
      modifies this
      ensures Value() == old(Value()).(activeReaders := old(activeReaders) - 1)
      ensures Leaving(wakeReader, wakeWriter) == Release(Value())
    {
      activeReaders := activeReaders - 1;
      wakeReader := waitingReaders > 0;
      wakeWriter := waitingWriters > 0;
    }

    method AfterWrite() returns (wakeReader: bool, wakeWriter: bool)
      modifies this
      ensures Value() == old(Value()).(activeWriters := old(activeWriters) - 1)
      ensures Leaving(wakeReader, wakeWriter) == Release(Value())
    {
      activeWriters := activeWriters - 1;
      wakeReader := waitingReaders > 0;
      wakeWriter := waitingWriters > 0;
    }
  }

  // ---------------------------------------------------------------- threads

  type Thread = nat

  /** Blocked threads are in the wait queue of their condition; woken ones have left it and must
      test again. Leaving threads have released the lock and not signalled yet. */
  datatype Pc =
    | Idle
    | BlockedReader | WokenReader | Reading
    | BlockedWriter | WokenWriter | Writing
    | Leaving(wakeReader: bool, wakeWriter: bool)

  /** The end of a release, behind the mutex: which condition is signalled. */
  method Wake(wakeReader: bool, wakeWriter: bool) returns (signalled: Pc)
    ensures signalled == SignalTarget(Leaving(wakeReader, wakeWriter))
  {
    if wakeWriter {
      return BlockedWriter;
    } else if wakeReader {
      return BlockedReader;
    }
    return Idle;
  }

  datatype State = State(counters: Counters, pc: map<Thread, Pc>)

  datatype Event =
    | StartRead(t: Thread) | RetestRead(t: Thread) | StopRead(t: Thread)
    | StartWrite(t: Thread) | RetestWrite(t: Thread) | StopWrite(t: Thread)
    | Signal(t: Thread, woken: Thread)
    | Spurious(t: Thread)

  function Those(pc: map<Thread, Pc>, p: Pc): set<Thread> {
    set t | t in pc && pc[t] == p
  }

  function Count(pc: map<Thread, Pc>, p: Pc): nat {
    |Those(pc, p)|
  }

  function Release(c: Counters): Pc {
    Leaving(c.waitingReaders > 0, c.waitingWriters > 0)
  }

  /** A release signals a writer if one waits, else a reader if one waits; the signal wakes one
      thread of that queue, and is lost when the queue is empty. */
  function SignalTarget(p: Pc): Pc
    requires p.Leaving?
  {
    if p.wakeWriter then BlockedWriter else if p.wakeReader then BlockedReader else Idle
  }

  function Woken(p: Pc): Pc {
    if p == BlockedWriter then WokenWriter else WokenReader
  }

  ghost predicate Enabled(s: State, e: Event) {
    match e
    case StartRead(t) => t in s.pc && s.pc[t] == Idle
    case RetestRead(t) => t in s.pc && s.pc[t] == WokenReader
    case StopRead(t) => t in s.pc && s.pc[t] == Reading
    case StartWrite(t) => t in s.pc && s.pc[t] == Idle
    case RetestWrite(t) => t in s.pc && s.pc[t] == WokenWriter
    case StopWrite(t) => t in s.pc && s.pc[t] == Writing
    case Signal(t, w) =>
      && t in s.pc && s.pc[t].Leaving?
      && var q := SignalTarget(s.pc[t]);
         (q != Idle && Those(s.pc, q) != {} ==> w in s.pc && s.pc[w] == q)
    case Spurious(t) => t in s.pc && (s.pc[t] == BlockedReader || s.pc[t] == BlockedWriter)
  }

  function Enter(c: Counters, pc: map<Thread, Pc>, t: Thread, reader: bool): State {
    if reader then
      if AllowReader(c) then State(AdmitReader(c), pc[t := Reading]) else State(c, pc[t := BlockedReader])
    else
      if AllowWriter(c) then State(AdmitWriter(c), pc[t := Writing]) else State(c, pc[t := BlockedWriter])
  }

  ghost function Step(s: State, e: Event): State
    requires Enabled(s, e)
  {
    var c := s.counters;
    match e
    case StartRead(t) => Enter(c.(waitingReaders := c.waitingReaders + 1), s.pc, t, true)
    case RetestRead(t) => Enter(c, s.pc, t, true)
    case StartWrite(t) => Enter(c.(waitingWriters := c.waitingWriters + 1), s.pc, t, false)
    case RetestWrite(t) => Enter(c, s.pc, t, false)
    case StopRead(t) =>
      var c' := c.(activeReaders := c.activeReaders - 1);
      State(c', s.pc[t := Release(c')])
    case StopWrite(t) =>
      var c' := c.(activeWriters := c.activeWriters - 1);
      State(c', s.pc[t := Release(c')])
    case Signal(t, w) =>
      var q := SignalTarget(s.pc[t]);
      if q == Idle || Those(s.pc, q) == {} then State(c, s.pc[t := Idle])
      else State(c, s.pc[t := Idle][w := Woken(q)])
    case Spurious(t) => State(c, s.pc[t := Woken(s.pc[t])])
  }

  // ---------------------------------------------------------------- invariants

  /** The counters count the threads. */
  ghost predicate Counted(s: State) {
    && s.counters.activeReaders == Count(s.pc, Reading)
    && s.counters.activeWriters == Count(s.pc, Writing)
    && s.counters.waitingReaders == Count(s.pc, BlockedReader) + Count(s.pc, WokenReader)
    && s.counters.waitingWriters == Count(s.pc, BlockedWriter) + Count(s.pc, WokenWriter)
  }

  ghost predicate Exclusive(c: Counters) {
    c.activeWriters <= 1 && (c.activeWriters == 1 ==> c.activeReaders == 0)
  }

  ghost predicate Active(p: Pc) {
    p == Reading || p == Writing
  }

  ghost predicate Awake(p: Pc) {
    p == WokenReader || p == WokenWriter
  }

  ghost predicate Blocked(p: Pc) {
    p == BlockedReader || p == BlockedWriter
  }

  /** t will let a blocked thread go on: it holds the lock, or is about to test it, or is about to
      signal a queue that is not empty. */
  ghost predicate Helps(s: State, t: Thread) {
    && t in s.pc
    && (Active(s.pc[t]) || Awake(s.pc[t]) ||
        (s.pc[t].Leaving? && SignalTarget(s.pc[t]) != Idle && Those(s.pc, SignalTarget(s.pc[t])) != {}))
  }

  ghost predicate NoLostWakeup(s: State) {
    (exists b :: b in s.pc && Blocked(s.pc[b])) ==> exists t :: Helps(s, t)
  }

  ghost predicate Inv(s: State) {
    Sound(s) && NoLostWakeup(s)
  }

  // ---------------------------------------------------------------- counting

  lemma Move(pc: map<Thread, Pc>, t: Thread, q: Pc)
    requires t in pc && pc[t] != q
    ensures Count(pc[t := q], q) == Count(pc, q) + 1
    ensures Count(pc[t := q], pc[t]) == Count(pc, pc[t]) - 1
    ensures forall r :: r != q && r != pc[t] ==> Count(pc[t := q], r) == Count(pc, r)
  {
    var pc' := pc[t := q];
    assert Those(pc', q) == Those(pc, q) + {t};
    assert Those(pc', pc[t]) == Those(pc, pc[t]) - {t};
    forall r | r != q && r != pc[t] ensures Count(pc', r) == Count(pc, r) {
      assert Those(pc', r) == Those(pc, r);
    }
  }

  lemma Someone(pc: map<Thread, Pc>, p: Pc)
    ensures Count(pc, p) > 0 <==> exists t :: t in pc && pc[t] == p
  {
    if Count(pc, p) > 0 {
      var t :| t in Those(pc, p);
    }
    if t :| t in pc && pc[t] == p {
      assert t in Those(pc, p);
    }
  }

  // ---------------------------------------------------------------- every step keeps the invariant

  function One(p: Pc, q: Pc): nat {
    if p == q then 1 else 0
  }

  /** When t goes from p to q, only the counts of p and q change. */
  ghost predicate Shifted(pc: map<Thread, Pc>, pc': map<Thread, Pc>, p: Pc, q: Pc, r: Pc) {
    Count(pc', r) == Count(pc, r) + One(q, r) - One(p, r)
  }

  ghost predicate AllShifted(pc: map<Thread, Pc>, pc': map<Thread, Pc>, p: Pc, q: Pc) {
    && Shifted(pc, pc', p, q, Reading) && Shifted(pc, pc', p, q, Writing)
    && Shifted(pc, pc', p, q, BlockedReader) && Shifted(pc, pc', p, q, WokenReader)
    && Shifted(pc, pc', p, q, BlockedWriter) && Shifted(pc, pc', p, q, WokenWriter)
  }

  lemma MoveAll(pc: map<Thread, Pc>, t: Thread, q: Pc)
    requires t in pc && pc[t] != q
    ensures AllShifted(pc, pc[t := q], pc[t], q)
  {
    MoveOne(pc, t, q, Reading);
    MoveOne(pc, t, q, Writing);
    MoveOne(pc, t, q, BlockedReader);
    MoveOne(pc, t, q, WokenReader);
    MoveOne(pc, t, q, BlockedWriter);
    MoveOne(pc, t, q, WokenWriter);
  }

  lemma MoveOne(pc: map<Thread, Pc>, t: Thread, q: Pc, r: Pc)
    requires t in pc && pc[t] != q
    ensures Shifted(pc, pc[t := q], pc[t], q, r)
  {
    Move(pc, t, q);
  }

  ghost predicate Sound(s: State) {
    Counted(s) && Exclusive(s.counters)
  }

  lemma CountedEnter(s: State, t: Thread, reader: bool, arriving: bool)
    requires Sound(s) && t in s.pc
    requires s.pc[t] == if arriving then Idle else if reader then WokenReader else WokenWriter
    ensures var c := s.counters;
            var c' := if !arriving then c else if reader then c.(waitingReaders := c.waitingReaders + 1)
                      else c.(waitingWriters := c.waitingWriters + 1);
            Sound(Enter(c', s.pc, t, reader))
  {
    var c := s.counters;
    var c' := if !arriving then c else if reader then c.(waitingReaders := c.waitingReaders + 1)
              else c.(waitingWriters := c.waitingWriters + 1);
    var q := Enter(c', s.pc, t, reader).pc[t];
    MoveAll(s.pc, t, q);
  }

  lemma CountedRelease(s: State, t: Thread, p: Pc, reader: bool)
    requires Sound(s) && t in s.pc && p.Leaving? && s.pc[t] == if reader then Reading else Writing
    ensures var c := s.counters;
            var c' := if reader then c.(activeReaders := c.activeReaders - 1)
                      else c.(activeWriters := c.activeWriters - 1);
            Sound(State(c', s.pc[t := p]))
  {
    MoveAll(s.pc, t, p);
  }

  lemma CountedWake(s: State, t: Thread)
    requires Sound(s) && t in s.pc && Blocked(s.pc[t])
    ensures Sound(State(s.counters, s.pc[t := Woken(s.pc[t])]))
  {
    MoveAll(s.pc, t, Woken(s.pc[t]));
  }

  lemma CountedQuit(s: State, t: Thread)
    requires Sound(s) && t in s.pc && s.pc[t].Leaving?
    ensures Sound(State(s.counters, s.pc[t := Idle]))
  {
    MoveAll(s.pc, t, Idle);
  }

  lemma CountedStep(s: State, e: Event)
    requires Sound(s) && Enabled(s, e)
    ensures Sound(Step(s, e))
  {
    match e
    case StartRead(t) => CountedEnter(s, t, true, true);
    case RetestRead(t) => CountedEnter(s, t, true, false);
    case StartWrite(t) => CountedEnter(s, t, false, true);
    case RetestWrite(t) => CountedEnter(s, t, false, false);
    case StopRead(t) => CountedRelease(s, t, Step(s, e).pc[t], true);
    case StopWrite(t) => CountedRelease(s, t, Step(s, e).pc[t], false);
    case Signal(t, w) =>
      CountedQuit(s, t);
      var q := SignalTarget(s.pc[t]);
      if q != Idle && Those(s.pc, q) != {} {
        CountedWake(State(s.counters, s.pc[t := Idle]), w);
      }
    case Spurious(t) => CountedWake(s, t);
  }

  /** A thread that enters is active, or is blocked by one that is. */
  lemma EnterHelped(s: State, t: Thread, reader: bool, c: Counters)
    requires Counted(s) && t in s.pc && !Active(s.pc[t])
    requires c.activeWriters == s.counters.activeWriters && c.activeReaders == s.counters.activeReaders
    ensures exists h :: Helps(Enter(c, s.pc, t, reader), h)
  {
    var s' := Enter(c, s.pc, t, reader);
    if Active(s'.pc[t]) {
      assert Helps(s', t);
    } else {
      Someone(s.pc, Writing);
      Someone(s.pc, Reading);
      var h :| h in s.pc && Active(s.pc[h]);
      assert Helps(s', h);
    }
  }

  /** A thread that leaves with threads waiting signals one of them, or one is awake already. */
  lemma ReleaseHelped(s': State, t: Thread)
    requires Counted(s') && t in s'.pc && s'.pc[t] == Release(s'.counters)
    requires exists b :: b in s'.pc && Blocked(s'.pc[b])
    ensures exists h :: Helps(s', h)
  {
    Someone(s'.pc, BlockedReader);
    Someone(s'.pc, BlockedWriter);
    Someone(s'.pc, WokenReader);
    Someone(s'.pc, WokenWriter);
    if s'.counters.waitingWriters > 0 {
      if h :| h in s'.pc && s'.pc[h] == WokenWriter {
        assert Helps(s', h);
      } else {
        assert Helps(s', t);
      }
    } else {
      if h :| h in s'.pc && s'.pc[h] == WokenReader {
        assert Helps(s', h);
      } else {
        assert Helps(s', t);
      }
    }
  }

  lemma HelpedSignal(s: State, t: Thread, w: Thread)
    requires Inv(s) && Enabled(s, Signal(t, w))
    ensures NoLostWakeup(Step(s, Signal(t, w)))
  {
    var s' := Step(s, Signal(t, w));
    var q := SignalTarget(s.pc[t]);
    if q != Idle && Those(s.pc, q) != {} {
      assert Helps(s', w);
    } else if b :| b in s'.pc && Blocked(s'.pc[b]) {
      assert s.pc[b] == s'.pc[b];
      var h :| Helps(s, h);
      SignalsNobody(s, t, w, h);
    }
  }

  /** A signal to an empty queue leaves all other helpers what they are. */
  lemma SignalsNobody(s: State, t: Thread, w: Thread, h: Thread)
    requires Inv(s) && Enabled(s, Signal(t, w)) && Helps(s, h)
    requires var q := SignalTarget(s.pc[t]); q == Idle || Those(s.pc, q) == {}
    ensures Helps(Step(s, Signal(t, w)), h)
  {
    var s' := Step(s, Signal(t, w));
    assert forall r :: r != Idle && !r.Leaving? ==> Those(s'.pc, r) == Those(s.pc, r);
  }

  lemma HelpedStep(s: State, e: Event)
    requires Inv(s) && Enabled(s, e)
    ensures NoLostWakeup(Step(s, e))
  {
    var s' := Step(s, e);
    CountedStep(s, e);
    match e
    case StartRead(t) => EnterHelped(s, t, true, s.counters.(waitingReaders := s.counters.waitingReaders + 1));
    case RetestRead(t) => EnterHelped(s, t, true, s.counters);
    case StartWrite(t) => EnterHelped(s, t, false, s.counters.(waitingWriters := s.counters.waitingWriters + 1));
    case RetestWrite(t) => EnterHelped(s, t, false, s.counters);
    case StopRead(t) =>
      if exists b :: b in s'.pc && Blocked(s'.pc[b]) {
        ReleaseHelped(s', t);
      }
    case StopWrite(t) =>
      if exists b :: b in s'.pc && Blocked(s'.pc[b]) {
        ReleaseHelped(s', t);
      }
    case Signal(t, w) => HelpedSignal(s, t, w);
    case Spurious(t) => assert Helps(s', t);
  }

  ghost predicate Run(s: State, es: seq<Event>, end: State)
    decreases |es|
  {
    if es == [] then s == end else Enabled(s, es[0]) && Run(Step(s, es[0]), es[1..], end)
  }

  /** A new lock with all threads outside. */
  function Start(threads: set<Thread>): State {
    State(Counters(0, 0, 0, 0), map t | t in threads :: Idle)
  }

  lemma StartInv(threads: set<Thread>)
    ensures Inv(Start(threads))
  {
    var pc := Start(threads).pc;
    assert Those(pc, Reading) == Those(pc, Writing) == {};
    assert Those(pc, BlockedReader) == Those(pc, WokenReader) == {};
    assert Those(pc, BlockedWriter) == Those(pc, WokenWriter) == {};
  }

  lemma {:induction false} RunKeeps(s: State, es: seq<Event>, end: State)
    requires Inv(s) && Run(s, es, end)
    ensures Inv(end)
    decreases |es|
  {
    if es != [] {
      CountedStep(s, es[0]);
      HelpedStep(s, es[0]);
      RunKeeps(Step(s, es[0]), es[1..], end);
    }
  }

  /** Main result: in every interleaving a writer is alone. */
  lemma MutualExclusion(threads: set<Thread>, es: seq<Event>, s: State, t: Thread, u: Thread)
    requires Run(Start(threads), es, s) && t in s.pc && u in s.pc && t != u && s.pc[t] == Writing
    ensures !Active(s.pc[u])
  {
    StartInv(threads);
    RunKeeps(Start(threads), es, s);
    Someone(s.pc, Writing);
    Someone(s.pc, Reading);
    if s.pc[u] == Writing {
      assert {t, u} <= Those(s.pc, Writing);
      TwoAreTwo(t, u, Those(s.pc, Writing));
    }
  }

  lemma TwoAreTwo(t: Thread, u: Thread, all: set<Thread>)
    requires t != u && {t, u} <= all
    ensures |all| >= 2
  {
    assert u in all - {t};
    assert |all| == |all - {t}| + 1;
  }

  /** Main result: no wakeup is lost. While a thread is blocked, another one is active, awake, or
      about to signal a queue that is not empty; so the threads are never all blocked or idle. */
  lemma NoDeadlock(threads: set<Thread>, es: seq<Event>, s: State)
    requires Run(Start(threads), es, s)
    requires exists b :: b in s.pc && Blocked(s.pc[b])
    ensures exists t :: Helps(s, t)
  {
    StartInv(threads);
    RunKeeps(Start(threads), es, s);
  }

  // ---------------------------------------------------------------- the bias towards writers

  /** Main result: the exact rule. In every reachable state an arriving reader gets the lock if and
      only if no thread is writing; how many writers wait does not matter. */
  lemma ReaderEntersExact(threads: set<Thread>, es: seq<Event>, s: State, t: Thread)
    requires Run(Start(threads), es, s) && Enabled(s, StartRead(t))
    ensures Step(s, StartRead(t)).pc[t] == Reading <==> forall u :: u in s.pc ==> s.pc[u] != Writing
  {
    StartInv(threads);
    RunKeeps(Start(threads), es, s);
    Someone(s.pc, Writing);
  }

  ghost predicate Waits(s: State, blocked: Pc, woken: Pc) {
    exists t :: t in s.pc && (s.pc[t] == blocked || s.pc[t] == woken)
  }

  /** Main result: the wakeups prefer writers. In every reachable state a thread that gives the lock
      back signals the writers if one waits, else the readers if one waits, else nobody; and a signal
      wakes one blocked thread of that queue, and no other. */
  lemma WakeupsPreferWriters(threads: set<Thread>, es: seq<Event>, s: State, t: Thread, e: Event)
    requires Run(Start(threads), es, s) && Enabled(s, e) && (e == StopRead(t) || e == StopWrite(t))
    ensures var s' := Step(s, e);
            && s'.pc[t].Leaving?
            && (SignalTarget(s'.pc[t]) == BlockedWriter <==> Waits(s, BlockedWriter, WokenWriter))
            && (SignalTarget(s'.pc[t]) == BlockedReader <==>
                !Waits(s, BlockedWriter, WokenWriter) && Waits(s, BlockedReader, WokenReader))
            && (SignalTarget(s'.pc[t]) == Idle <==>
                !Waits(s, BlockedWriter, WokenWriter) && !Waits(s, BlockedReader, WokenReader))
  {
    StartInv(threads);
    RunKeeps(Start(threads), es, s);
    Someone(s.pc, BlockedWriter);
    Someone(s.pc, WokenWriter);
    Someone(s.pc, BlockedReader);
    Someone(s.pc, WokenReader);
  }

  lemma SignalWakesOne(s: State, t: Thread, w: Thread, x: Thread)
    requires Enabled(s, Signal(t, w)) && x in s.pc && x != t
    ensures var s' := Step(s, Signal(t, w));
            && s'.pc[t] == Idle
            && (s.pc[t].wakeWriter && x == w && s.pc[x] == BlockedWriter ==> s'.pc[x] == WokenWriter)
            && (!s.pc[t].wakeWriter && s.pc[t].wakeReader && x == w && s.pc[x] == BlockedReader ==>
                  s'.pc[x] == WokenReader)
            && (x != w || !Blocked(s.pc[x]) ==> s'.pc[x] == s.pc[x])
            && (s.pc[t].wakeWriter && s.pc[x] == BlockedReader ==> s'.pc[x] == BlockedReader)
  {
    if s.pc[x] == BlockedWriter {
      assert x in Those(s.pc, BlockedWriter);
    } else if s.pc[x] == BlockedReader {
      assert x in Those(s.pc, BlockedReader);
    }
  }

  predicate WaitsToWrite(s: State, t: Thread) {
    t in s.pc && (s.pc[t] == BlockedWriter || s.pc[t] == WokenWriter)
  }

  /** A run in which t waits to write in every state but the last. */
  ghost predicate KeepsWaiting(s: State, es: seq<Event>, end: State, t: Thread)
    requires Run(s, es, end)
    decreases |es|
  {
    es == [] || (WaitsToWrite(s, t) && KeepsWaiting(Step(s, es[0]), es[1..], end, t))
  }

  /** How often a thread gets the lock for reading. */
  ghost function Entries(s: State, es: seq<Event>, end: State): nat
    requires Run(s, es, end)
    decreases |es|
  {
    if es == [] then 0
    else
      var t := es[0].t;
      (if (es[0].StartRead? || es[0].RetestRead?) && Step(s, es[0]).pc[t] == Reading then 1 else 0)
      + Entries(Step(s, es[0]), es[1..], end)
  }

  /** Thread a reads, thread b is outside, and thread 2 waits to write. */
  function Overtaking(a: Thread, b: Thread): State
    requires {a, b} == {0, 1}
  {
    State(Counters(0, 1, 0, 1), map[a := Reading, b := Idle, 2 := BlockedWriter])
  }

  /** b enters, a leaves, wakes the writer, and the writer finds the lock taken again. */
  function Overtake(a: Thread, b: Thread): seq<Event> {
    [StartRead(b), StopRead(a), Signal(a, 2), RetestWrite(2)]
  }

  /** The states in between. */
  function Entered(a: Thread, b: Thread): State {
    State(Counters(0, 2, 0, 1), map[a := Reading, b := Reading, 2 := BlockedWriter])
  }

  function Left(a: Thread, b: Thread): State {
    State(Counters(0, 1, 0, 1), map[a := Leaving(false, true), b := Reading, 2 := BlockedWriter])
  }

  function Signalled(a: Thread, b: Thread): State {
    State(Counters(0, 1, 0, 1), map[a := Idle, b := Reading, 2 := WokenWriter])
  }

  lemma EnterAndLeave(a: Thread, b: Thread)
    requires a != b && a != 2 && b != 2 && {a, b} == {0, 1}
    ensures Enabled(Overtaking(a, b), StartRead(b)) && Step(Overtaking(a, b), StartRead(b)) == Entered(a, b)
    ensures Enabled(Entered(a, b), StopRead(a)) && Step(Entered(a, b), StopRead(a)) == Left(a, b)
  {
  }

  lemma SignalAndRetest(a: Thread, b: Thread)
    requires a != b && a != 2 && b != 2 && {a, b} == {0, 1}
    ensures Enabled(Left(a, b), Signal(a, 2)) && Step(Left(a, b), Signal(a, 2)) == Signalled(a, b)
    ensures Enabled(Signalled(a, b), RetestWrite(2)) && Step(Signalled(a, b), RetestWrite(2)) == Overtaking(b, a)
  {
    assert 2 in Those(Left(a, b).pc, BlockedWriter);
  }

  lemma TwoThreads(a: Thread, b: Thread)
    requires {a, b} == {0, 1}
    ensures a != b && a != 2 && b != 2
  {
    assert 0 in {a, b} && 1 in {a, b} && a in {0, 1} && b in {0, 1};
  }

  lemma OvertakeOnce(a: Thread, b: Thread, es: seq<Event>, end: State)
    requires {a, b} == {0, 1} && Run(Overtaking(b, a), es, end) && KeepsWaiting(Overtaking(b, a), es, end, 2)
    ensures Run(Overtaking(a, b), Overtake(a, b) + es, end)
    ensures KeepsWaiting(Overtaking(a, b), Overtake(a, b) + es, end, 2)
    ensures Entries(Overtaking(a, b), Overtake(a, b) + es, end) == Entries(Overtaking(b, a), es, end) + 1
  {
    TwoThreads(a, b);
    EnterAndLeave(a, b);
    TriesInVain(a, b, es, end);
    var es2 := [Signal(a, 2)] + ([RetestWrite(2)] + es);
    var es1 := [StopRead(a)] + es2;
    OneMore(Entered(a, b), StopRead(a), es2, end);
    OneMore(Overtaking(a, b), StartRead(b), es1, end);
    OvertakeThen(a, b, es);
  }

  lemma OvertakeThen(a: Thread, b: Thread, es: seq<Event>)
    ensures Overtake(a, b) + es == [StartRead(b)] + ([StopRead(a)] + ([Signal(a, 2)] + ([RetestWrite(2)] + es)))
  {
  }

  /** The writer is woken, and finds the lock taken. */
  lemma TriesInVain(a: Thread, b: Thread, es: seq<Event>, end: State)
    requires {a, b} == {0, 1} && Run(Overtaking(b, a), es, end) && KeepsWaiting(Overtaking(b, a), es, end, 2)
    ensures var es2 := [Signal(a, 2)] + ([RetestWrite(2)] + es);
            && Run(Left(a, b), es2, end) && KeepsWaiting(Left(a, b), es2, end, 2)
            && Entries(Left(a, b), es2, end) == Entries(Overtaking(b, a), es, end)
  {
    TwoThreads(a, b);
    SignalAndRetest(a, b);
    OneMore(Signalled(a, b), RetestWrite(2), es, end);
    OneMore(Left(a, b), Signal(a, 2), [RetestWrite(2)] + es, end);
  }

  lemma OneMore(s: State, e: Event, es: seq<Event>, end: State)
    requires Enabled(s, e) && Run(Step(s, e), es, end)
    ensures Run(s, [e] + es, end)
    ensures KeepsWaiting(Step(s, e), es, end, 2) && WaitsToWrite(s, 2) ==> KeepsWaiting(s, [e] + es, end, 2)
    ensures Entries(s, [e] + es, end) == Entries(Step(s, e), es, end)
              + if (e.StartRead? || e.RetestRead?) && Step(s, e).pc[e.t] == Reading then 1 else 0
  {
    assert ([e] + es)[1..] == es;
  }

  lemma {:induction false} OvertakeOften(a: Thread, b: Thread, n: nat) returns (es: seq<Event>, end: State)
    requires {a, b} == {0, 1}
    ensures Run(Overtaking(a, b), es, end) && KeepsWaiting(Overtaking(a, b), es, end, 2) && WaitsToWrite(end, 2)
    ensures Entries(Overtaking(a, b), es, end) == n
    decreases n
  {
    if n == 0 {
      es, end := [], Overtaking(a, b);
    } else {
      var more: seq<Event>;
      more, end := OvertakeOften(b, a, n - 1);
      OvertakeOnce(a, b, more, end);
      es := Overtake(a, b) + more;
    }
  }

  const FIRST: seq<Event> := [StartRead(0), StartWrite(2)]

  lemma FirstOvertaking()
    ensures Run(Start({0, 1, 2}), FIRST, Overtaking(0, 1))
  {
    var s0, s2 := Start({0, 1, 2}), Overtaking(0, 1);
    var s1 := State(Counters(0, 1, 0, 0), map[0 := Reading, 1 := Idle, 2 := Idle]);
    assert s0.pc == map[0 := Idle, 1 := Idle, 2 := Idle];
    assert Step(s0, FIRST[0]) == s1;
    assert Step(s1, FIRST[1]) == s2;
    OneMore(s1, FIRST[1], [], s2);
    OneMore(s0, FIRST[0], [FIRST[1]], s2);
    assert [FIRST[0]] + [FIRST[1]] == FIRST;
  }

  /** Main result: the lock does not prefer writers. For every n there is a run of three threads in
      which one, once it has asked to write, waits all the time while others start reading n times. */
  lemma WriterStarves(n: nat)
    ensures exists mid, es, end ::
              && Run(Start({0, 1, 2}), FIRST, mid) && mid.pc[2] == BlockedWriter && Run(mid, es, end)
              && KeepsWaiting(mid, es, end, 2) && WaitsToWrite(end, 2) && Entries(mid, es, end) == n
  {
    FirstOvertaking();
    var es, end := OvertakeOften(0, 1, n);
  }
}
