/** base3/rwlock.h: the write-preferring read-write lock, with any number of threads. */
module RwLock {
  import opened Text

  // ----- the code: four counters under one mutex -----

  /** The counters, as they are while a thread holds the mutex. */
  datatype Counters = Counters(readers: nat, writers: nat, readWaiters: nat, writeWaiters: nat)

  predicate ReadBlocked(c: Counters)
  {
    c.writers > 0 || c.writeWaiters > 0
  }

  predicate WriteBlocked(c: Counters)
  {
    c.readers > 0 || c.writers > 0
  }

  // What each stretch of code under the mutex does to the counters.

  function EnterRead(c: Counters): Counters
  {
    if ReadBlocked(c) then c.(readWaiters := c.readWaiters + 1) else c.(readers := c.readers + 1)
  }

  function ResumeRead(c: Counters): Counters
    requires c.readWaiters > 0
  {
    if ReadBlocked(c) then c else c.(readWaiters := c.readWaiters - 1, readers := c.readers + 1)
  }

  function LeaveRead(c: Counters): Counters
    requires c.readers > 0
  {
    c.(readers := c.readers - 1)
  }

  function EnterWrite(c: Counters): Counters
  {
    if WriteBlocked(c) then c.(writeWaiters := c.writeWaiters + 1) else c.(writers := 1)
  }

  function ResumeWrite(c: Counters): Counters
    requires c.writeWaiters > 0
  {
    if WriteBlocked(c) then c else c.(writeWaiters := c.writeWaiters - 1, writers := 1)
  }

  function LeaveWrite(c: Counters): Counters
  {
    c.(writers := 0)
  }

  /** Each method of the class is one stretch of source code between taking the mutex and giving it up,
      by returning or by waiting on a condition variable. */
  class ReadWriteLock {
    var readers: nat
    var writers: nat
    var readWaiters: nat
    var writeWaiters: nat

    constructor ()
      ensures State() == Counters(0, 0, 0, 0)
    {
      readers, writers, readWaiters, writeWaiters := 0, 0, 0, 0;
    }

    function State(): Counters
      reads this
    {
      Counters(readers, writers, readWaiters, writeWaiters)
    }

    /** ReadLock up to its return or its first wait. */
    method ReadLockEnter() returns (waits: bool)
      modifies this
      ensures waits == old(ReadBlocked(State()))
      ensures State() == EnterRead(old(State()))
    {
      if writers > 0 || writeWaiters > 0 {
        readWaiters := readWaiters + 1;
        return true;
      }
      readers := readers + 1;
      waits := false;
    }

    /** ReadLock after cond_read_.wait returns, up to its return or its next wait. */
    method ReadLockResume() returns (waits: bool)
      requires readWaiters > 0
      modifies this
      ensures waits == old(ReadBlocked(State()))
      ensures State() == ResumeRead(old(State()))
    {
      if writers > 0 || writeWaiters > 0 {
        return true;
      }
      readWaiters := readWaiters - 1;
      readers := readers + 1;
      waits := false;
    }

    method ReadUnlock() returns (notifyWriter: bool)
      requires readers > 0
      modifies this
      ensures State() == LeaveRead(old(State())) && notifyWriter == (writeWaiters > 0)
    {
      readers := readers - 1;
      notifyWriter := writeWaiters > 0;
    }

    method WriteLockEnter() returns (waits: bool)
      modifies this
      ensures waits == old(WriteBlocked(State()))
      ensures State() == EnterWrite(old(State()))
    {
      if readers > 0 || writers > 0 {
        writeWaiters := writeWaiters + 1;
        return true;
      }
      writers := 1;
      waits := false;
    }

    method WriteLockResume() returns (waits: bool)
      requires writeWaiters > 0
      modifies this
      ensures waits == old(WriteBlocked(State()))
      ensures State() == ResumeWrite(old(State()))
    {
      if readers > 0 || writers > 0 {
        return true;
      }
      writeWaiters := writeWaiters - 1;
      writers := 1;
      waits := false;
    }

    method WriteUnlock() returns (notifyWriter: bool, notifyReaders: bool)
      requires writers == 1
      modifies this
      ensures State() == LeaveWrite(old(State()))
      ensures notifyWriter == (writeWaiters > 0) && notifyReaders == (writeWaiters == 0 && readWaiters > 0)
    {
      writers := 0;
      notifyWriter := writeWaiters > 0;
      notifyReaders := !notifyWriter && readWaiters > 0;
    }
  }

  // ----- the protocol: threads and condition variables -----

  /** Where a thread is. A `Woken` thread has been signalled (or woke by itself) and will take the
      mutex and look at the counters again. */
  datatype Place = Outside | ReadAsleep | ReadWoken | Reading | WriteAsleep | WriteWoken | Writing

  datatype State = State(c: Counters, threads: map<nat, Place>)

  const INIT := State(Counters(0, 0, 0, 0), map[])

  function PlaceOf(s: State, t: nat): Place
  {
    if t in s.threads then s.threads[t] else Outside
  }

  datatype Event =
    | ReadLock
    | ReadResume
    | ReadUnlock(signalled: Option<nat>)    // the thread that notify_one picks
    | WriteLock
    | WriteResume
    | WriteUnlock(signalled: Option<nat>)
    | Spurious                              // a wait returns without a signal

  /** notify_one on cond_write_: any one sleeping writer, none if there is none. */
  predicate Picks(threads: map<nat, Place>, notify: bool, w: Option<nat>)
  {
    if notify && (exists t :: t in threads && threads[t].WriteAsleep?) then
      w.Some? && w.value in threads && threads[w.value].WriteAsleep?
    else
      w.None?
  }

  predicate Enabled(s: State, t: nat, e: Event)
  {
    var at := PlaceOf(s, t);
    match e
    case ReadLock => at.Outside?
    case WriteLock => at.Outside?
    case ReadResume => at.ReadWoken? && s.c.readWaiters > 0
    case WriteResume => at.WriteWoken? && s.c.writeWaiters > 0
    case ReadUnlock(w) => at.Reading? && s.c.readers > 0 && Picks(s.threads, s.c.writeWaiters > 0, w)
    case WriteUnlock(w) => at.Writing? && Picks(s.threads, s.c.writeWaiters > 0, w)
    case Spurious => at.ReadAsleep? || at.WriteAsleep?
  }

  function Signal(threads: map<nat, Place>, w: Option<nat>): map<nat, Place>
  {
    if w.Some? then threads[w.value := WriteWoken] else threads
  }

  /** notify_all on cond_read_. */
  function WakeReaders(threads: map<nat, Place>): map<nat, Place>
  {
    map t | t in threads :: if threads[t].ReadAsleep? then ReadWoken else threads[t]
  }

  function Apply(s: State, t: nat, e: Event): State
    requires Enabled(s, t, e)
  {
    var c, m := s.c, s.threads;
    match e
    case ReadLock => State(EnterRead(c), m[t := if ReadBlocked(c) then ReadAsleep else Reading])
    case ReadResume => State(ResumeRead(c), m[t := if ReadBlocked(c) then ReadAsleep else Reading])
    case ReadUnlock(w) => State(LeaveRead(c), Signal(m[t := Outside], w))
    case WriteLock => State(EnterWrite(c), m[t := if WriteBlocked(c) then WriteAsleep else Writing])
    case WriteResume => State(ResumeWrite(c), m[t := if WriteBlocked(c) then WriteAsleep else Writing])
    case WriteUnlock(w) =>
      if c.writeWaiters > 0 then State(LeaveWrite(c), Signal(m[t := Outside], w))
      else State(LeaveWrite(c), if c.readWaiters > 0 then WakeReaders(m[t := Outside]) else m[t := Outside])
    case Spurious =>
      State(c, m[t := if m[t].ReadAsleep? then ReadWoken else WriteWoken])
  }

  function Exec(s: State, events: seq<(nat, Event)>): Option<State>
    decreases |events|
  {
    if events == [] then Some(s)
    else if Enabled(s, events[0].0, events[0].1) then Exec(Apply(s, events[0].0, events[0].1), events[1..])
    else None
  }

  // ----- counting threads -----

  function At(m: map<nat, Place>, p: Place): set<nat>
  {
    set t | t in m && m[t] == p
  }

  function Count(m: map<nat, Place>, p: Place): nat
  {
    |At(m, p)|
  }

  function Unit(b: bool): nat
  {
    if b then 1 else 0
  }

  /** Moving one thread changes two counts by one. */
  lemma CountMove(m: map<nat, Place>, t: nat, to: Place, p: Place)
    requires to != Outside || t in m
    ensures p != Outside ==> Count(m[t := to], p) + Unit(t in m && m[t] == p) == Count(m, p) + Unit(to == p)
  {
    hide At;
    AtMove(m, t, to, p);
  }

  lemma AtMove(m: map<nat, Place>, t: nat, to: Place, p: Place)
    ensures At(m[t := to], p) == if to == p then At(m, p) + {t} else At(m, p) - {t}
    ensures t in At(m, p) <==> t in m && m[t] == p
  {
  }

  lemma CountWake(m: map<nat, Place>, p: Place)
    ensures Count(WakeReaders(m), p) == if p == ReadAsleep then 0
                                        else if p == ReadWoken then Count(m, ReadAsleep) + Count(m, ReadWoken)
                                        else Count(m, p)
  {
    var w := WakeReaders(m);
    if p == ReadAsleep {
      assert At(w, p) == {};
    } else if p == ReadWoken {
      assert At(w, p) == At(m, ReadAsleep) + At(m, ReadWoken);
      assert At(m, ReadAsleep) !! At(m, ReadWoken);
    } else {
      assert At(w, p) == At(m, p);
    }
  }

  lemma CountWakes(m: map<nat, Place>)
    ensures forall p :: Count(WakeReaders(m), p) == if p == ReadAsleep then 0
                                                    else if p == ReadWoken then Count(m, ReadAsleep) + Count(m, ReadWoken)
                                                    else Count(m, p)
  {
    forall p: Place
      ensures Count(WakeReaders(m), p) == if p == ReadAsleep then 0
                                          else if p == ReadWoken then Count(m, ReadAsleep) + Count(m, ReadWoken)
                                          else Count(m, p)
    {
      CountWake(m, p);
    }
  }

  lemma CountPositive(m: map<nat, Place>, p: Place)
    ensures Count(m, p) > 0 <==> exists t :: t in m && m[t] == p
  {
    if Count(m, p) > 0 {
      var t :| t in At(m, p);
    }
    if t :| t in m && m[t] == p {
      assert t in At(m, p);
    }
  }

  // ----- the invariant -----

  /** The counters are the numbers of threads at each place; at most one writer, and then no reader;
      no lost wakeup for writers; readers sleep only behind a writer. */
  predicate Inv(s: State)
  {
    var c, m := s.c, s.threads;
    && c.readers == Count(m, Reading)
    && c.writers == Count(m, Writing)
    && c.readWaiters == Count(m, ReadAsleep) + Count(m, ReadWoken)
    && c.writeWaiters == Count(m, WriteAsleep) + Count(m, WriteWoken)
    && c.writers <= 1
    && (c.writers == 1 ==> c.readers == 0)
    && (c.readers == 0 && c.writers == 0 && c.writeWaiters > 0 ==> Count(m, WriteWoken) > 0)
    && (Count(m, ReadAsleep) > 0 ==> c.writers > 0 || c.writeWaiters > 0)
  }

  lemma CountMoves(m: map<nat, Place>, t: nat, to: Place)
    requires to != Outside || t in m
    ensures forall p :: p != Outside ==>
              Count(m[t := to], p) + Unit(t in m && m[t] == p) == Count(m, p) + Unit(to == p)
  {
    forall p: Place | p != Outside
      ensures Count(m[t := to], p) + Unit(t in m && m[t] == p) == Count(m, p) + Unit(to == p)
    {
      CountMove(m, t, to, p);
    }
  }

  lemma LeaveKeepsInv(s: State, t: nat, w: Option<nat>, s': State)
    requires Inv(s) && t in s.threads && s.threads[t] in {Reading, Writing}
    requires Picks(s.threads, s.c.writeWaiters > 0, w)
    requires s.c.writeWaiters > 0 || s.threads[t] == Reading
    requires s'.threads == Signal(s.threads[t := Outside], w)
    requires s.threads[t] == Reading ==> s.c.readers > 0
    requires s'.c == if s.threads[t] == Reading then LeaveRead(s.c) else LeaveWrite(s.c)
    ensures Inv(s')
  {
    hide Count;
    var m := s.threads;
    var n := m[t := Outside];
    CountMoves(m, t, Outside);
    CountPositive(m, WriteAsleep);
    if w.Some? {
      CountMoves(n, w.value, WriteWoken);
    }
  }

  lemma ReaderStepKeepsInv(s: State, t: nat, e: Event)
    requires Inv(s) && Enabled(s, t, e) && (e.ReadLock? || e.ReadResume?)
    ensures Inv(Apply(s, t, e))
  {
    hide Count;
    CountMoves(s.threads, t, if ReadBlocked(s.c) then ReadAsleep else Reading);
  }

  lemma WriterStepKeepsInv(s: State, t: nat, e: Event)
    requires Inv(s) && Enabled(s, t, e) && (e.WriteLock? || e.WriteResume?)
    ensures Inv(Apply(s, t, e))
  {
    hide Count;
    CountMoves(s.threads, t, if WriteBlocked(s.c) then WriteAsleep else Writing);
  }

  lemma SpuriousKeepsInv(s: State, t: nat)
    requires Inv(s) && Enabled(s, t, Spurious)
    ensures Inv(Apply(s, t, Spurious))
  {
    hide Count;
    CountMoves(s.threads, t, if s.threads[t].ReadAsleep? then ReadWoken else WriteWoken);
  }

  lemma WriteUnlockKeepsInv(s: State, t: nat, w: Option<nat>)
    requires Inv(s) && Enabled(s, t, WriteUnlock(w))
    ensures Inv(Apply(s, t, WriteUnlock(w)))
  {
    hide Count;
    CountPositive(s.threads, Writing);
    if s.c.writeWaiters > 0 {
      LeaveKeepsInv(s, t, w, Apply(s, t, WriteUnlock(w)));
    } else {
      CountMoves(s.threads, t, Outside);
      CountWakes(s.threads[t := Outside]);
    }
  }

  /** Every step of every thread keeps the invariant. */
  lemma StepKeepsInv(s: State, t: nat, e: Event)
    requires Inv(s) && Enabled(s, t, e)
    ensures Inv(Apply(s, t, e))
  {
    hide Inv, Count;
    match e
    case ReadLock => ReaderStepKeepsInv(s, t, e);
    case ReadResume => ReaderStepKeepsInv(s, t, e);
    case WriteLock => WriterStepKeepsInv(s, t, e);
    case WriteResume => WriterStepKeepsInv(s, t, e);
    case ReadUnlock(w) => LeaveKeepsInv(s, t, w, Apply(s, t, e));
    case WriteUnlock(w) => WriteUnlockKeepsInv(s, t, w);
    case Spurious => SpuriousKeepsInv(s, t);
  }

  lemma {:induction false} RunKeepsInv(s: State, events: seq<(nat, Event)>)
    requires Inv(s) && Exec(s, events).Some?
    ensures Inv(Exec(s, events).value)
    decreases |events|
  {
    hide Inv, Apply, Enabled;
    if events != [] {
      StepKeepsInv(s, events[0].0, events[0].1);
      RunKeepsInv(Apply(s, events[0].0, events[0].1), events[1..]);
    }
  }

  /** The states of all runs. */
  ghost predicate Reachable(s: State)
  {
    exists events :: Exec(INIT, events) == Some(s)
  }

  lemma ReachableInv(s: State)
    requires Reachable(s)
    ensures Inv(s)
  {
    var events :| Exec(INIT, events) == Some(s);
    forall p: Place ensures Count(INIT.threads, p) == 0 {
      assert At(INIT.threads, p) == {};
    }
    RunKeepsInv(INIT, events);
  }

  /** Never a reader and a writer inside, never two writers. */
  lemma MutualExclusion(s: State, t: nat, u: nat)
    requires Reachable(s) && t != u && PlaceOf(s, t) == Writing
    ensures PlaceOf(s, u) !in {Reading, Writing}
  {
    hide Reachable;
    ReachableInv(s);
    CountPositive(s.threads, Writing);
    CountPositive(s.threads, Reading);
    if PlaceOf(s, u) == Writing {
      assert {t, u} <= At(s.threads, Writing);
      SubsetSize({t, u}, At(s.threads, Writing));
    }
  }

  lemma SubsetSize<T>(a: set<T>, b: set<T>)
    requires a <= b
    ensures |a| <= |b|
  {
    assert b == a + (b - a);
  }

  /** The four counters are the numbers of threads inside and waiting; a mutex holder that decrements
      one never takes it below zero. */
  lemma CountersAreThreadCounts(s: State)
    requires Reachable(s)
    ensures s.c.readers == |At(s.threads, Reading)| && s.c.writers == |At(s.threads, Writing)|
    ensures s.c.readWaiters == |At(s.threads, ReadAsleep) + At(s.threads, ReadWoken)|
    ensures s.c.writeWaiters == |At(s.threads, WriteAsleep) + At(s.threads, WriteWoken)|
  {
    hide Reachable;
    ReachableInv(s);
    assert At(s.threads, ReadAsleep) !! At(s.threads, ReadWoken);
    assert At(s.threads, WriteAsleep) !! At(s.threads, WriteWoken);
  }

  /** No thread becomes a reader while a writer holds the lock or waits for it. */
  lemma WritersAreServedFirst(s: State, t: nat, e: Event, u: nat)
    requires Reachable(s) && Enabled(s, t, e)
    requires PlaceOf(s, u) != Reading && PlaceOf(Apply(s, t, e), u) == Reading
    ensures At(s.threads, Writing) + At(s.threads, WriteAsleep) + At(s.threads, WriteWoken) == {}
  {
    hide Reachable, Inv, Count;
    ReachableInv(s);
    BecomesReader(s, t, e, u);
    NoWriters(s);
  }

  lemma BecomesReader(s: State, t: nat, e: Event, u: nat)
    requires Enabled(s, t, e)
    requires PlaceOf(s, u) != Reading && PlaceOf(Apply(s, t, e), u) == Reading
    ensures !ReadBlocked(s.c)
  {
    hide Picks;
  }

  lemma NoWriters(s: State)
    requires Inv(s) && !ReadBlocked(s.c)
    ensures At(s.threads, Writing) + At(s.threads, WriteAsleep) + At(s.threads, WriteWoken) == {}
  {
    assert Count(s.threads, Writing) == 0;
  }

  /** The event that lets a woken thread look at the counters again. */
  function ResumeOf(at: Place): Event
  {
    if at.WriteWoken? then WriteResume else ReadResume
  }

  /** Thread t has been signalled, and if it runs now it gets the lock. */
  predicate CanEnter(s: State, t: nat)
  {
    && PlaceOf(s, t) in {ReadWoken, WriteWoken}
    && Enabled(s, t, ResumeOf(PlaceOf(s, t)))
    && PlaceOf(Apply(s, t, ResumeOf(PlaceOf(s, t))), t) in {Reading, Writing}
  }

  /** No lost wakeup: whenever the lock is free and threads wait for it, one of them has been
      signalled and enters as soon as it runs. A waiting writer is preferred; without one, every
      waiting reader is awake. */
  lemma FreeLockIsNeverStuck(s: State)
    requires Reachable(s)
    requires At(s.threads, Reading) == {} && At(s.threads, Writing) == {}
    ensures At(s.threads, WriteAsleep) + At(s.threads, WriteWoken) != {} ==>
              exists t :: PlaceOf(s, t) == WriteWoken && CanEnter(s, t)
    ensures At(s.threads, WriteAsleep) + At(s.threads, WriteWoken) == {} ==>
              At(s.threads, ReadAsleep) == {} && forall t :: PlaceOf(s, t) == ReadWoken ==> CanEnter(s, t)
  {
    hide Reachable;
    ReachableInv(s);
    CountPositive(s.threads, WriteAsleep);
    CountPositive(s.threads, WriteWoken);
    CountPositive(s.threads, ReadAsleep);
    CountPositive(s.threads, ReadWoken);
    if At(s.threads, WriteAsleep) + At(s.threads, WriteWoken) != {} {
      var t :| t in At(s.threads, WriteWoken);
      assert CanEnter(s, t);
    }
  }

  /** A thread that is inside can always leave, and one that was woken can always look again: no
      counter is ever decremented below zero. */
  lemma NoUnderflow(s: State, t: nat)
    requires Reachable(s)
    ensures PlaceOf(s, t) == ReadWoken ==> Enabled(s, t, ReadResume)
    ensures PlaceOf(s, t) == WriteWoken ==> Enabled(s, t, WriteResume)
    ensures PlaceOf(s, t) == Reading ==> exists w :: Enabled(s, t, ReadUnlock(w))
    ensures PlaceOf(s, t) == Writing ==> s.c.writers == 1 && exists w :: Enabled(s, t, WriteUnlock(w))
    ensures !WriteBlocked(s.c) ==> s.c.writers == 0
  {
    hide Reachable;
    ReachableInv(s);
    CountPositive(s.threads, Writing);
    CountPositive(s.threads, ReadWoken);
    CountPositive(s.threads, WriteWoken);
    CountPositive(s.threads, Reading);
    var w := SomePick(s.threads, s.c.writeWaiters > 0);
    if PlaceOf(s, t) == Reading {
      assert Enabled(s, t, ReadUnlock(w));
    } else if PlaceOf(s, t) == Writing {
      assert Enabled(s, t, WriteUnlock(w));
    }
  }

  lemma SomePick(threads: map<nat, Place>, notify: bool) returns (w: Option<nat>)
    ensures Picks(threads, notify, w)
  {
    w := None;
    if notify {
      if t: nat :| t in threads && threads[t].WriteAsleep? {
        w := Some(t);
      }
    }
  }

  /** How far the threads are from being outside: asleep 3, woken 2, inside 1. */
  function Distance(s: State): nat
  {
    var m := s.threads;
    3 * Count(m, ReadAsleep) + 3 * Count(m, WriteAsleep) + 2 * Count(m, ReadWoken) + 2 * Count(m, WriteWoken)
    + Count(m, Reading) + Count(m, Writing)
  }

  predicate Progress(s: State, t: nat, e: Event)
  {
    && Enabled(s, t, e)
    && !e.ReadLock? && !e.WriteLock? && !e.Spurious?
    && Distance(Apply(s, t, e)) < Distance(s)
  }

  lemma LeaveProgress(s: State, t: nat, w: Option<nat>)
    requires Inv(s) && t in s.threads && s.threads[t] in {Reading, Writing}
    requires Picks(s.threads, s.c.writeWaiters > 0, w)
    requires s.threads[t] == Reading ==> s.c.readers > 0
    ensures Progress(s, t, if s.threads[t] == Reading then ReadUnlock(w) else WriteUnlock(w))
  {
    hide Count, Inv;
    var m := s.threads;
    var n := m[t := Outside];
    CountMoves(m, t, Outside);
    if w.Some? {
      CountMoves(n, w.value, WriteWoken);
    }
    CountWakes(n);
  }

  lemma EnterProgress(s: State, t: nat)
    requires CanEnter(s, t)
    ensures Progress(s, t, ResumeOf(PlaceOf(s, t)))
  {
    hide Count;
    var to := PlaceOf(Apply(s, t, ResumeOf(PlaceOf(s, t))), t);
    CountMoves(s.threads, t, to);
  }

  /** In every reachable state with a thread inside or waiting, some thread can make progress
      without new arrivals, time-outs or luck. */
  lemma SomeProgress(s: State) returns (t: nat, e: Event)
    requires Reachable(s) && Distance(s) > 0
    ensures Progress(s, t, e)
  {
    hide Reachable, Inv, Distance, Progress, CanEnter, Picks;
    ReachableInv(s);
    var w := SomePick(s.threads, s.c.writeWaiters > 0);
    if At(s.threads, Reading) != {} {
      t :| t in At(s.threads, Reading);
      ReadersCounted(s, t);
      LeaveProgress(s, t, w);
      e := ReadUnlock(w);
    } else if At(s.threads, Writing) != {} {
      t :| t in At(s.threads, Writing);
      LeaveProgress(s, t, w);
      e := WriteUnlock(w);
    } else {
      t := SomeEnters(s);
      EnterProgress(s, t);
      e := ResumeOf(PlaceOf(s, t));
    }
  }

  lemma ReadersCounted(s: State, t: nat)
    requires Inv(s) && t in At(s.threads, Reading)
    ensures s.c.readers > 0
  {
    CountPositive(s.threads, Reading);
  }

  lemma SomeEnters(s: State) returns (t: nat)
    requires Reachable(s) && Distance(s) > 0
    requires At(s.threads, Reading) == {} && At(s.threads, Writing) == {}
    ensures CanEnter(s, t)
  {
    hide Reachable, CanEnter;
    FreeLockIsNeverStuck(s);
    if At(s.threads, WriteAsleep) + At(s.threads, WriteWoken) != {} {
      t :| PlaceOf(s, t) == WriteWoken && CanEnter(s, t);
    } else {
      assert At(s.threads, WriteAsleep) == {} && At(s.threads, WriteWoken) == {};
      t :| t in At(s.threads, ReadWoken);
    }
  }

  lemma {:induction false} ExecSnoc(s: State, events: seq<(nat, Event)>, t: nat, e: Event)
    requires Exec(s, events).Some? && Enabled(Exec(s, events).value, t, e)
    ensures Exec(s, events + [(t, e)]) == Some(Apply(Exec(s, events).value, t, e))
    decreases |events|
  {
    hide Enabled, Apply;
    var all := events + [(t, e)];
    if events == [] {
      assert all[1..] == [];
    } else {
      assert all[1..] == events[1..] + [(t, e)];
      ExecSnoc(Apply(s, events[0].0, events[0].1), events[1..], t, e);
    }
  }

  lemma ReachableStep(s: State, t: nat, e: Event)
    requires Reachable(s) && Enabled(s, t, e)
    ensures Reachable(Apply(s, t, e))
  {
    hide Enabled, Apply, Exec;
    var events :| Exec(INIT, events) == Some(s);
    ExecSnoc(INIT, events, t, e);
  }

  /** From every reachable state the threads can all get in and out again, each step being one that
      some thread can take by itself: the lock never ends in a state it cannot leave. */
  lemma {:induction false} EveryStateDrains(s: State) returns (events: seq<(nat, Event)>)
    requires Reachable(s)
    ensures Exec(s, events).Some? && forall t :: PlaceOf(Exec(s, events).value, t) == Outside
    ensures forall i :: 0 <= i < |events| ==> events[i].1 !in {ReadLock, WriteLock, Spurious}
    ensures |events| <= Distance(s)
    decreases Distance(s)
  {
    hide Reachable, Distance, Enabled, Apply;
    if Distance(s) == 0 {
      NobodyLeft(s);
      events := [];
    } else {
      var t, e := SomeProgress(s);
      ReachableStep(s, t, e);
      var rest := EveryStateDrains(Apply(s, t, e));
      events := [(t, e)] + rest;
      assert events[1..] == rest;
    }
  }

  lemma NobodyLeft(s: State)
    requires Distance(s) == 0
    ensures forall t :: PlaceOf(s, t) == Outside
  {
    forall t ensures PlaceOf(s, t) == Outside {
      if t in s.threads {
        CountPositive(s.threads, s.threads[t]);
      }
    }
  }

  // ----- every schedule ends -----

  /** Neither an arrival nor a wakeup without a signal. */
  predicate IsOwnStep(e: Event)
  {
    !e.ReadLock? && !e.WriteLock? && !e.Spurious?
  }

  function WokenCount(m: map<nat, Place>): nat
  {
    Count(m, ReadWoken) + Count(m, WriteWoken)
  }

  function WaitingCount(m: map<nat, Place>): nat
  {
    WokenCount(m) + Count(m, ReadAsleep) + Count(m, WriteAsleep)
  }

  function BusyCount(m: map<nat, Place>): nat
  {
    WaitingCount(m) + Count(m, Reading) + Count(m, Writing)
  }

  /** Fewer threads inside or waiting; or as many, and fewer waiting; or as many, and fewer woken. */
  predicate Lower(m: map<nat, Place>, n: map<nat, Place>)
  {
    || BusyCount(m) < BusyCount(n)
    || (BusyCount(m) == BusyCount(n) && WaitingCount(m) < WaitingCount(n))
    || (BusyCount(m) == BusyCount(n) && WaitingCount(m) == WaitingCount(n) && WokenCount(m) < WokenCount(n))
  }

  /** Every step that is neither an arrival nor spurious brings the threads nearer to being outside, in
      this order. */
  lemma StepLowers(s: State, t: nat, e: Event)
    requires Enabled(s, t, e) && IsOwnStep(e)
    ensures Lower(Apply(s, t, e).threads, s.threads)
  {
    hide Count;
    var m := s.threads;
    var to := PlaceOf(Apply(s, t, e), t);
    match e
    case ReadResume => CountMoves(m, t, to);
    case WriteResume => CountMoves(m, t, to);
    case ReadUnlock(w) => LeaveLowers(m, t, w);
    case WriteUnlock(w) => LeaveLowers(m, t, w);
  }

  lemma LeaveLowers(m: map<nat, Place>, t: nat, w: Option<nat>)
    requires t in m && m[t] in {Reading, Writing} && (w.Some? ==> w.value in m && m[w.value] == WriteAsleep)
    ensures BusyCount(Signal(m[t := Outside], w)) < BusyCount(m)
    ensures BusyCount(WakeReaders(m[t := Outside])) < BusyCount(m) && BusyCount(m[t := Outside]) < BusyCount(m)
  {
    hide Count;
    var n := m[t := Outside];
    CountMoves(m, t, Outside);
    if w.Some? {
      CountMoves(n, w.value, WriteWoken);
    }
    CountWakes(n);
  }

  /** The triple as one number, for at most n busy threads. */
  function Rank(m: map<nat, Place>, n: nat): nat
  {
    (BusyCount(m) * (n + 1) + WaitingCount(m)) * (n + 1) + WokenCount(m)
  }

  lemma RankFalls(a: nat, w: nat, k: nat, a': nat, w': nat, k': nat, n: nat)
    requires a' < a || (a' == a && w' < w) || (a' == a && w' == w && k' < k)
    requires w' <= n && k' <= n
    ensures (a' * (n + 1) + w') * (n + 1) + k' < (a * (n + 1) + w) * (n + 1) + k
  {
    if a' < a {
      OneDigit(a, w, a', w', n);
      OneDigit(a * (n + 1) + w, k, a' * (n + 1) + w', k', n);
    } else if w' < w {
      OneDigit(a * (n + 1) + w, k, a * (n + 1) + w', k', n);
    }
  }

  /** A smaller leading digit outweighs the last one. */
  lemma OneDigit(x: nat, d: nat, x': nat, d': nat, n: nat)
    requires x' < x && d' <= n
    ensures x' * (n + 1) + d' < x * (n + 1) + d
  {
    Mono(x' + 1, x, n + 1);
    assert (x' + 1) * (n + 1) == x' * (n + 1) + n + 1;
  }

  lemma Mono(x: nat, y: nat, m: nat)
    requires x <= y
    ensures x * m <= y * m
  {
  }

  /** Without arrivals and spurious wakeups every schedule of n threads that are inside or waiting ends,
      after less than (n + 1)^3 steps. */
  lemma {:induction false} SchedulesEnd(s: State, events: seq<(nat, Event)>, n: nat)
    requires Exec(s, events).Some? && BusyCount(s.threads) <= n
    requires forall i :: 0 <= i < |events| ==> IsOwnStep(events[i].1)
    ensures |events| <= Rank(s.threads, n)
    decreases |events|
  {
    hide Enabled, Apply, BusyCount, WaitingCount, WokenCount;
    if events != [] {
      var next := Apply(s, events[0].0, events[0].1);
      StepLowers(s, events[0].0, events[0].1);
      NotMoreThanBusy(next.threads);
      SchedulesEnd(next, events[1..], n);
      RankFalls(BusyCount(s.threads), WaitingCount(s.threads), WokenCount(s.threads),
                BusyCount(next.threads), WaitingCount(next.threads), WokenCount(next.threads), n);
    }
  }

  lemma NotMoreThanBusy(m: map<nat, Place>)
    ensures WokenCount(m) <= WaitingCount(m) <= BusyCount(m)
  {
  }

  lemma {:induction false} ReachableRun(s: State, events: seq<(nat, Event)>)
    requires Reachable(s) && Exec(s, events).Some?
    ensures Reachable(Exec(s, events).value)
    decreases |events|
  {
    hide Reachable, Enabled, Apply;
    if events != [] {
      ReachableStep(s, events[0].0, events[0].1);
      ReachableRun(Apply(s, events[0].0, events[0].1), events[1..]);
    }
  }

  /** And when it cannot be continued, every thread is outside: no choice of which thread runs next, and of
      which sleeper a signal wakes, leaves anybody behind. */
  lemma EveryScheduleDrains(s: State, events: seq<(nat, Event)>)
    requires Reachable(s) && Exec(s, events).Some?
    requires forall t, e :: IsOwnStep(e) ==> !Enabled(Exec(s, events).value, t, e)
    ensures forall t :: PlaceOf(Exec(s, events).value, t) == Outside
  {
    hide Reachable, Exec, Enabled, Distance, Apply;
    ReachableRun(s, events);
    var end := Exec(s, events).value;
    if Distance(end) > 0 {
      var t, e := SomeProgress(end);
    } else {
      NobodyLeft(end);
    }
  }
}
