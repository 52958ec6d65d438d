/** Allocate in a process with several threads: `last_id_` is one static variable of the process. The code
    reads it for the lock name, again for the file name after the lock is taken, and again for the id of
    the Writer. Calls of one process that do not overlap are sessions of module Store; overlapping ones
    are not, and then records can overlap.
  */
module Process {
  import opened Text
  import opened Bytes
  import opened Paths
  import opened Record
  import opened Store
  import StoreSafety
  import Url

  type Id = n: nat | n < INT_MAX

  datatype Thread =
    | Out                                                   // no call, no Writer
    | Looking(req: Request, loops: nat)                     // top of the loop
    | LookingAgain(req: Request, held: Id, loops: nat)      // the lock name is made, the first attempt failed
    | Holding(req: Request, held: Id, loops: nat)           // lock taken
    | Creating(req: Request, held: Id, id: Id, loops: nat)  // the file name is made too
    | Filling(req: Request, held: Id, id: Id, header: seq<byte>, done: nat)
    | Found(req: Request, held: Id, id: Id, offset: nat)    // about to fill in the Writer
    | Using(w: Writer, held: Id)
    | Writing(w: Writer, held: Id, job: Job, done: nat)
    | Stopped

  /** `last` is the static variable of each process; a process without an entry still has -1 there. */
  datatype Shared = Shared(
    files: map<Path, seq<byte>>,
    locks: set<Path>,
    threads: map<nat, Thread>,
    last: map<nat, Id>,
    acks: seq<Ack>)

  datatype Move = Sys(e: Event) | Return   // Return fills in the Writer and ends Allocate

  function ThreadOf(s: Shared, p: nat): Thread
  {
    if p in s.threads then s.threads[p] else Out
  }

  function LastOf(s: Shared, process: nat): Id
  {
    if process in s.last then s.last[process] else 0
  }

  // The moves in four groups, as the code makes them.

  predicate OfLock(e: Event)
  {
    e.Begin? || e.TryLock? || e.RetryLock?
  }

  predicate OfStat(e: Event)
  {
    e.Stat? || e.NoParent?
  }

  predicate OfCreate(e: Event)
  {
    e.Create? || e.HeadChunk? || e.HeadDone?
  }

  predicate CanLock(cfg: Config, s: Shared, c: Thread, id: Id, e: Event)
    requires OfLock(e)
  {
    match e
    case Begin(req, start) => c.Out? && start < INT_MAX
    case TryLock(rand, won) => c.Looking? && (won ==> LockOf(cfg, NextId(cfg, id, c.loops, rand)) !in s.locks)
    case RetryLock(dirMade, won) =>
      && c.LookingAgain?
      && (dirMade && won ==> LockOf(cfg, c.held) !in s.locks)
      && (dirMade && !won ==> id + 1 < INT_MAX)
  }

  predicate CanStat(c: Thread, id: Id, e: Event)
    requires OfStat(e)
  {
    if e.Stat? then c.Holding? && id + 1 < INT_MAX else c.Creating?
  }

  predicate CanCreate(c: Thread, e: Event)
    requires OfCreate(e)
  {
    match e
    case Create(made, header) => c.Creating? && |header| == BUNDLE_HEADER
    case HeadChunk(n) => c.Filling? && c.done + n <= |c.header|
    case HeadDone => c.Filling?
  }

  predicate CanUse(c: Thread, e: Event)
    requires !OfLock(e) && !OfStat(e) && !OfCreate(e)
  {
    match e
    case StartWrite(batch, data, user, junk) =>
      && c.Using? && !c.w.spent
      && Total(|data|) <= INT_MAX && |junk| == Total(|data|)
      && c.w.info.offset % 0x1_0000_0000 != 0xffff_ffff
    case Refused(batch, size) => c.Using? && !c.w.spent
    case StoreChunk(n) => c.Writing? && c.done + n <= |c.job.bytes|
    case StoreDone(errno) => c.Writing?
    case Release => c.Using?
    case Crash => !c.Out? && !c.Stopped?
  }

  predicate CanStep(cfg: Config, home: nat -> nat, s: Shared, p: nat, m: Move)
  {
    var c, id := ThreadOf(s, p), LastOf(s, home(p));
    if m.Return? then c.Found?
    else if OfLock(m.e) then CanLock(cfg, s, c, id, m.e)
    else if OfStat(m.e) then CanStat(c, id, m.e)
    else if OfCreate(m.e) then CanCreate(c, m.e)
    else CanUse(c, m.e)
  }

  function Goes(s: Shared, p: nat, c: Thread): Shared
  {
    s.(threads := s.threads[p := c])
  }

  function Counted(s: Shared, process: nat, id: Id): Shared
  {
    s.(last := s.last[process := id])
  }

  function Freed(cfg: Config, s: Shared, held: Id): Shared
  {
    s.(locks := s.locks - {LockOf(cfg, held)})
  }

  /** Begin, and the two attempts at the lock. */
  function LockStep(cfg: Config, s: Shared, p: nat, q: nat, e: Event): Shared
    requires Runnable(cfg) && OfLock(e) && CanLock(cfg, s, ThreadOf(s, p), LastOf(s, q), e)
  {
    var c, id := ThreadOf(s, p), LastOf(s, q);
    match e
    case Begin(req, start) =>
      Goes(if q in s.last then s else Counted(s, q, start), p, Looking(Stripped(req), 0))
    case TryLock(rand, won) =>
      var next := NextId(cfg, id, c.loops, rand);
      if won then Goes(Counted(s, q, next).(locks := s.locks + {LockOf(cfg, next)}), p, Holding(c.req, next, c.loops + 1))
      else Goes(Counted(s, q, next), p, LookingAgain(c.req, next, c.loops + 1))
    case RetryLock(dirMade, won) =>
      if !dirMade then Goes(s, p, Out)
      else if won then Goes(s.(locks := s.locks + {LockOf(cfg, c.held)}), p, Holding(c.req, c.held, c.loops))
      else Goes(Counted(s, q, id + 1), p, Looking(c.req, c.loops))
  }

  /** A look at the bundle whose name is made from the static variable as it is now. */
  function StatStep(cfg: Config, s: Shared, p: nat, q: nat, e: Event): Shared
    requires Runnable(cfg) && OfStat(e) && CanStat(ThreadOf(s, p), LastOf(s, q), e)
  {
    var c, id := ThreadOf(s, p), LastOf(s, q);
    if e.NoParent? then Goes(Freed(cfg, s, c.held), p, Out)
    else
      var f := BundleFile(cfg, c.req.prefix, id);
      if e.failed then Goes(Counted(s, q, id + 1), p, Looking(c.req, c.loops))
      else if f !in s.files then Goes(s, p, Creating(c.req, c.held, id, c.loops))
      else if |s.files[f]| + Total(c.req.size) > cfg.maxBundleSize then
        Goes(Counted(Freed(cfg, s, c.held), q, id + 1), p, Looking(c.req, c.loops))
      else Goes(s, p, Found(c.req, c.held, id, |s.files[f]|))
  }

  function BytesIn(s: Shared, f: Path): seq<byte>
  {
    if f in s.files then s.files[f] else []
  }

  function CreateStep(cfg: Config, s: Shared, p: nat, e: Event): Shared
    requires Runnable(cfg) && OfCreate(e) && CanCreate(ThreadOf(s, p), e)
  {
    var c := ThreadOf(s, p);
    var f := BundleFile(cfg, c.req.prefix, c.id);
    match e
    case Create(made, header) =>
      if made then Goes(s.(files := s.files[f := []]), p, Filling(c.req, c.held, c.id, header, 0))
      else Goes(Freed(cfg, s, c.held), p, Out)
    case HeadChunk(n) =>
      Goes(s.(files := s.files[f := WriteAt(BytesIn(s, f), c.done, c.header[c.done..c.done + n])]), p,
           Filling(c.req, c.held, c.id, c.header, c.done + n))
    case HeadDone =>
      if c.done == |c.header| then Goes(s, p, Found(c.req, c.held, c.id, BUNDLE_HEADER))
      else Goes(Freed(cfg, s, c.held), p, Out)
  }

  /** A step of the methods of a Writer, or the end of a thread. */
  function UseStep(cfg: Config, s: Shared, p: nat, e: Event): Shared
    requires !OfLock(e) && !OfStat(e) && !OfCreate(e) && CanUse(ThreadOf(s, p), e)
  {
    var c := ThreadOf(s, p);
    match e
    case StartWrite(batch, data, user, junk) => Goes(s, p, Writing(c.w, c.held, NewJob(cfg, c.w, batch, data, user, junk), 0))
    case Refused(batch, size) => Goes(s, p, Using(if batch then c.w.(info := c.w.info.(size := size)) else c.w, c.held))
    case StoreChunk(n) =>
      var f := c.w.file;
      Goes(s.(files := s.files[f := WriteAt(BytesIn(s, f), c.w.info.offset + c.done, c.job.bytes[c.done..c.done + n])]), p,
           Writing(c.w, c.held, c.job, c.done + n))
    case StoreDone(errno) =>
      var code := if c.done == |c.job.bytes| then 0 else errno;
      var acks := if code == 0 then s.acks + [Ack(c.w.file, InfoOf(c.w, c.job), c.job, c.done)] else s.acks;
      Goes(s.(acks := acks), p, Using(AfterWrite(c.w, c.job, code), c.held))
    case Release => Goes(Freed(cfg, s, c.held), p, Out)
    case Crash => Goes(s, p, Stopped)
  }

  /** The Writer gets the file name from before and the id from the static variable as it is now. */
  function ReturnStep(cfg: Config, s: Shared, p: nat, q: nat): Shared
    requires Runnable(cfg) && ThreadOf(s, p).Found?
  {
    var c := ThreadOf(s, p);
    var info := Url.Info(LastOf(s, q), c.offset, c.req.size, c.req.prefix, c.req.postfix);
    Goes(s, p, Using(Writer(BundleFile(cfg, c.req.prefix, c.id), info, false), c.held))
  }

  function DoStep(cfg: Config, home: nat -> nat, s: Shared, p: nat, m: Move): Shared
    requires Runnable(cfg) && CanStep(cfg, home, s, p, m)
  {
    if m.Return? then ReturnStep(cfg, s, p, home(p))
    else if OfLock(m.e) then LockStep(cfg, s, p, home(p), m.e)
    else if OfStat(m.e) then StatStep(cfg, s, p, home(p), m.e)
    else if OfCreate(m.e) then CreateStep(cfg, s, p, m.e)
    else UseStep(cfg, s, p, m.e)
  }

  /** The state after the moves in order; None if one cannot be made. */
  function Run(cfg: Config, home: nat -> nat, s: Shared, moves: seq<(nat, Move)>): Option<Shared>
    requires Runnable(cfg)
    decreases |moves|
  {
    if moves == [] then Some(s)
    else if CanStep(cfg, home, s, moves[0].0, moves[0].1) then
      Run(cfg, home, DoStep(cfg, home, s, moves[0].0, moves[0].1), moves[1..])
    else None
  }

  function Start(files: map<Path, seq<byte>>, locks: set<Path>): Shared
  {
    Shared(files, locks, map[], map[], [])
  }

  // ----- one call at a time -----

  predicate InFlight(c: Thread)
  {
    c.Looking? || c.LookingAgain? || c.Holding? || c.Creating? || c.Filling? || c.Found?
  }

  /** No other thread of the process of p is inside Allocate. */
  predicate Alone(home: nat -> nat, s: Shared, p: nat)
  {
    forall q :: q in s.threads && q != p && home(q) == home(p) ==> !InFlight(s.threads[q])
  }

  /** In this run no Allocate begins while another one of the same process is under way. */
  predicate OneAtATime(cfg: Config, home: nat -> nat, s: Shared, moves: seq<(nat, Move)>)
    requires Runnable(cfg)
    decreases |moves|
  {
    moves != [] && CanStep(cfg, home, s, moves[0].0, moves[0].1) ==>
      && (moves[0].1.Sys? && moves[0].1.e.Begin? ==> Alone(home, s, moves[0].0))
      && OneAtATime(cfg, home, DoStep(cfg, home, s, moves[0].0, moves[0].1), moves[1..])
  }

  /** The three ids of a call agree with the static variable while it is under way. */
  predicate Sync(c: Thread, last: Id)
  {
    match c
    case LookingAgain(_, held, _) => held == last
    case Holding(_, held, _) => held == last
    case Creating(_, held, id, _) => held == last && id == last
    case Filling(_, held, id, _, _) => held == last && id == last
    case Found(_, held, id, _) => held == last && id == last
    case Using(w, held) => w.info.id == held
    case Writing(w, held, _, _) => w.info.id == held
    case _ => true
  }

  predicate Coherent(home: nat -> nat, s: Shared)
  {
    && (forall p :: p in s.threads ==> Sync(s.threads[p], LastOf(s, home(p))))
    && (forall p :: p in s.threads && InFlight(s.threads[p]) ==> Alone(home, s, p) && home(p) in s.last)
  }

  // ----- the protocol underneath -----

  function SessionIn(cfg: Config, c: Thread, last: Id): Session
    requires Usable(cfg.levels)
  {
    match c
    case Out => Idle
    case Looking(req, loops) => Session.Trying(req, last, loops)
    case LookingAgain(req, held, loops) => Session.Retrying(req, held, loops)
    case Holding(req, held, loops) => Session.Owning(req, held, loops)
    case Creating(req, _, id, loops) => Session.Making(req, id, loops)
    case Filling(req, _, id, header, done) => Session.Heading(req, id, header, done)
    case Found(req, _, id, offset) => Open(NewWriter(cfg, req, id, offset))
    case Using(w, _) => Open(w)
    case Writing(w, _, job, done) => Session.Storing(w, job, done)
    case Stopped => Session.Dead
  }

  /** The state of the protocol that this state stands for. */
  function Under(cfg: Config, home: nat -> nat, s: Shared): State
    requires Usable(cfg.levels)
  {
    State(s.files, s.locks, map p | p in s.threads :: SessionIn(cfg, s.threads[p], LastOf(s, home(p))), s.acks)
  }

  /** The event of the protocol that a move is; filling in the Writer is none. */
  function EventOf(home: nat -> nat, s: Shared, p: nat, m: Move): seq<(nat, Event)>
  {
    if m.Return? then []
    else if m.e.Begin? && home(p) in s.last then [(p, Begin(m.e.req, s.last[home(p)]))]
    else [(p, m.e)]
  }

  // ----- one step -----

  /** Only the thread that moved has changed, and the static variable at most of its process. */
  ghost predicate OnlyOne(home: nat -> nat, s: Shared, s': Shared, p: nat)
  {
    && p in s'.threads && s'.threads == s.threads[p := s'.threads[p]]
    && (forall q :: q != home(p) ==> LastOf(s', q) == LastOf(s, q))
    && (forall q :: q in s.last ==> q in s'.last)
  }

  predicate Begins(m: Move)
  {
    m.Sys? && m.e.Begin?
  }

  /** What a move does: it changes its own thread and at most the static variable of its process; only a
      call that is under way or begins uses that variable, and afterwards it agrees with it. */
  ghost predicate Orderly(cfg: Config, home: nat -> nat, s: Shared, p: nat, m: Move)
    requires Runnable(cfg) && CanStep(cfg, home, s, p, m)
  {
    var s' := DoStep(cfg, home, s, p, m);
    && OnlyOne(home, s, s', p)
    && Sync(ThreadOf(s', p), LastOf(s', home(p)))
    && (InFlight(ThreadOf(s', p)) || LastOf(s', home(p)) != LastOf(s, home(p)) ==> InFlight(ThreadOf(s, p)) || Begins(m))
    && (InFlight(ThreadOf(s', p)) ==> home(p) in s'.last)
  }

  lemma StepIsOrderly(cfg: Config, home: nat -> nat, s: Shared, p: nat, m: Move)
    requires Runnable(cfg) && CanStep(cfg, home, s, p, m) && Sync(ThreadOf(s, p), LastOf(s, home(p)))
    requires InFlight(ThreadOf(s, p)) ==> home(p) in s.last
    ensures Orderly(cfg, home, s, p, m)
  {
    hide Orderly, CanStep;
    if m.Return? {
      ReturnIsOrderly(cfg, home, s, p, m);
    } else if OfLock(m.e) {
      LockIsOrderly(cfg, home, s, p, m);
    } else if OfStat(m.e) {
      StatIsOrderly(cfg, home, s, p, m);
    } else if OfCreate(m.e) {
      CreateIsOrderly(cfg, home, s, p, m);
    } else if m.e.StoreChunk? || m.e.StoreDone? {
      WriteIsOrderly(cfg, home, s, p, m);
    } else {
      UseIsOrderly(cfg, home, s, p, m);
    }
  }

  lemma LockIsOrderly(cfg: Config, home: nat -> nat, s: Shared, p: nat, m: Move)
    requires Runnable(cfg) && CanStep(cfg, home, s, p, m) && Sync(ThreadOf(s, p), LastOf(s, home(p)))
    requires InFlight(ThreadOf(s, p)) ==> home(p) in s.last
    requires m.Sys? && OfLock(m.e)
    ensures Orderly(cfg, home, s, p, m)
  {
    hide BundleFile, LockFile, WriteAt, RecordBytes, BuildUrl;
    hide CanStat, StatStep, CanCreate, CreateStep, CanUse, UseStep, ReturnStep;
  }

  lemma StatIsOrderly(cfg: Config, home: nat -> nat, s: Shared, p: nat, m: Move)
    requires Runnable(cfg) && CanStep(cfg, home, s, p, m) && Sync(ThreadOf(s, p), LastOf(s, home(p)))
    requires InFlight(ThreadOf(s, p)) ==> home(p) in s.last
    requires m.Sys? && OfStat(m.e)
    ensures Orderly(cfg, home, s, p, m)
  {
    hide BundleFile, LockFile, WriteAt, RecordBytes, BuildUrl;
    hide CanLock, LockStep, CanCreate, CreateStep, CanUse, UseStep, ReturnStep;
  }

  lemma CreateIsOrderly(cfg: Config, home: nat -> nat, s: Shared, p: nat, m: Move)
    requires Runnable(cfg) && CanStep(cfg, home, s, p, m) && Sync(ThreadOf(s, p), LastOf(s, home(p)))
    requires InFlight(ThreadOf(s, p)) ==> home(p) in s.last
    requires m.Sys? && OfCreate(m.e)
    ensures Orderly(cfg, home, s, p, m)
  {
    hide BundleFile, LockFile, WriteAt, RecordBytes, BuildUrl;
    hide CanLock, LockStep, CanStat, StatStep, CanUse, UseStep, ReturnStep;
  }

  lemma ReturnIsOrderly(cfg: Config, home: nat -> nat, s: Shared, p: nat, m: Move)
    requires Runnable(cfg) && CanStep(cfg, home, s, p, m) && Sync(ThreadOf(s, p), LastOf(s, home(p)))
    requires InFlight(ThreadOf(s, p)) ==> home(p) in s.last
    requires m.Return?
    ensures Orderly(cfg, home, s, p, m)
  {
    hide BundleFile, LockFile, WriteAt, RecordBytes, BuildUrl, NewJob, InfoOf;
    hide CanLock, LockStep, CanStat, StatStep, CanCreate, CreateStep;
  }

  lemma WriteIsOrderly(cfg: Config, home: nat -> nat, s: Shared, p: nat, m: Move)
    requires Runnable(cfg) && CanStep(cfg, home, s, p, m) && Sync(ThreadOf(s, p), LastOf(s, home(p)))
    requires InFlight(ThreadOf(s, p)) ==> home(p) in s.last
    requires m.Sys? && (m.e.StoreChunk? || m.e.StoreDone?)
    ensures Orderly(cfg, home, s, p, m)
  {
    hide BundleFile, LockFile, WriteAt, RecordBytes, BuildUrl, NewJob, InfoOf;
    hide CanLock, LockStep, CanStat, StatStep, CanCreate, CreateStep, ReturnStep;
  }

  lemma UseIsOrderly(cfg: Config, home: nat -> nat, s: Shared, p: nat, m: Move)
    requires Runnable(cfg) && CanStep(cfg, home, s, p, m) && Sync(ThreadOf(s, p), LastOf(s, home(p)))
    requires InFlight(ThreadOf(s, p)) ==> home(p) in s.last
    requires m.Sys? && (m.e.StartWrite? || m.e.Refused? || m.e.Release? || m.e.Crash?)
    ensures Orderly(cfg, home, s, p, m)
  {
    hide BundleFile, LockFile, WriteAt, RecordBytes, BuildUrl, NewJob, InfoOf;
    hide CanLock, LockStep, CanStat, StatStep, CanCreate, CreateStep, ReturnStep;
  }

  lemma StepKeepsCoherent(cfg: Config, home: nat -> nat, s: Shared, p: nat, m: Move)
    requires Runnable(cfg) && CanStep(cfg, home, s, p, m) && Coherent(home, s)
    requires Begins(m) ==> Alone(home, s, p)
    ensures Coherent(home, DoStep(cfg, home, s, p, m))
  {
    hide CanStep, DoStep;
    var s' := DoStep(cfg, home, s, p, m);
    StepIsOrderly(cfg, home, s, p, m);
  }

  /** What the other sessions look like underneath does not depend on the move. */
  lemma OthersUnder(cfg: Config, home: nat -> nat, s: Shared, p: nat, m: Move)
    requires Runnable(cfg) && CanStep(cfg, home, s, p, m) && Coherent(home, s)
    requires Begins(m) ==> Alone(home, s, p)
    ensures var s' := DoStep(cfg, home, s, p, m);
            Under(cfg, home, s').sessions
            == Under(cfg, home, s).sessions[p := SessionIn(cfg, ThreadOf(s', p), LastOf(s', home(p)))]
  {
    hide CanStep, DoStep, BundleFile;
    var s' := DoStep(cfg, home, s, p, m);
    StepIsOrderly(cfg, home, s, p, m);
  }

  /** One move is one event of the protocol, or none. */
  lemma StepRefines(cfg: Config, home: nat -> nat, s: Shared, p: nat, m: Move)
    requires Runnable(cfg) && CanStep(cfg, home, s, p, m) && Coherent(home, s)
    requires Begins(m) ==> Alone(home, s, p)
    ensures Exec(cfg, Under(cfg, home, s), EventOf(home, s, p, m)) == Some(Under(cfg, home, DoStep(cfg, home, s, p, m)))
  {
    hide CanStep, DoStep, Coherent, Enabled, Apply, SessionIn, BundleFile, Exec;
    OthersUnder(cfg, home, s, p, m);
    var u := Under(cfg, home, s);
    if m.Return? {
      StoreSafety.ExecNothing(cfg, u);
      ReturnIsNothing(cfg, home, s, p);
    } else {
      var e := EventOf(home, s, p, m)[0].1;
      StepUnder(cfg, home, s, p, m, e);
      assert Matches(cfg, home, s, p, m, e);
      assert EventOf(home, s, p, m) == [(p, e)];
      OneEvent(cfg, u, p, e);
    }
  }

  lemma OneEvent(cfg: Config, s: State, p: nat, e: Event)
    requires Runnable(cfg) && Enabled(cfg, s, p, e)
    ensures Exec(cfg, s, [(p, e)]) == Some(Apply(cfg, s, p, e))
  {
    hide Enabled, Apply;
    assert [(p, e)][1..] == [];
  }

  lemma ReturnIsNothing(cfg: Config, home: nat -> nat, s: Shared, p: nat)
    requires Runnable(cfg) && CanStep(cfg, home, s, p, Return) && Coherent(home, s)
    requires var s' := DoStep(cfg, home, s, p, Return);
             Under(cfg, home, s').sessions
             == Under(cfg, home, s).sessions[p := SessionIn(cfg, ThreadOf(s', p), LastOf(s', home(p)))]
    ensures Under(cfg, home, DoStep(cfg, home, s, p, Return)) == Under(cfg, home, s)
  {
    hide BundleFile, CanLock, LockStep, CanStat, StatStep, CanCreate, CreateStep, CanUse, UseStep;
    var s', u := DoStep(cfg, home, s, p, Return), Under(cfg, home, s);
    assert u.sessions[p] == SessionIn(cfg, ThreadOf(s', p), LastOf(s, home(p)));
    assert u.sessions[p := u.sessions[p]] == u.sessions;
  }

  /** The move is that event, seen from the protocol; what it does to the sessions is known already. */
  ghost predicate Matches(cfg: Config, home: nat -> nat, s: Shared, p: nat, m: Move, e: Event)
    requires Runnable(cfg) && CanStep(cfg, home, s, p, m)
  {
    var u, s' := Under(cfg, home, s), DoStep(cfg, home, s, p, m);
    u.sessions[p := SessionIn(cfg, ThreadOf(s', p), LastOf(s', home(p)))] == Under(cfg, home, s').sessions ==>
      Enabled(cfg, u, p, e) && Apply(cfg, u, p, e) == Under(cfg, home, s')
  }

  lemma StepUnder(cfg: Config, home: nat -> nat, s: Shared, p: nat, m: Move, e: Event)
    requires Runnable(cfg) && CanStep(cfg, home, s, p, m) && Coherent(home, s) && m.Sys?
    requires e == EventOf(home, s, p, m)[0].1
    ensures Matches(cfg, home, s, p, m, e)
  {
    hide Matches, CanStep, Coherent;
    if OfLock(m.e) {
      LockUnder(cfg, home, s, p, m, e);
    } else if OfStat(m.e) {
      StatUnder(cfg, home, s, p, m, e);
    } else if OfCreate(m.e) {
      CreateUnder(cfg, home, s, p, m, e);
    } else if m.e.StoreChunk? {
      ChunkUnder(cfg, home, s, p, m, e);
    } else if m.e.StoreDone? {
      DoneUnder(cfg, home, s, p, m, e);
    } else {
      UseUnder(cfg, home, s, p, m, e);
    }
  }

  lemma LockUnder(cfg: Config, home: nat -> nat, s: Shared, p: nat, m: Move, e: Event)
    requires Runnable(cfg) && CanStep(cfg, home, s, p, m) && Coherent(home, s) && m.Sys?
    requires e == EventOf(home, s, p, m)[0].1 && OfLock(m.e)
    ensures Matches(cfg, home, s, p, m, e)
  {
    hide BundleFile, LockFile, WriteAt, RecordBytes, BuildUrl, Coherent, Under;
    hide CanStat, StatStep, CanCreate, CreateStep, CanUse, UseStep, ReturnStep;
    SessionUnder(cfg, home, s, p);
    FieldsUnder(cfg, home, s);
    FieldsUnder(cfg, home, DoStep(cfg, home, s, p, m));
  }

  lemma StatUnder(cfg: Config, home: nat -> nat, s: Shared, p: nat, m: Move, e: Event)
    requires Runnable(cfg) && CanStep(cfg, home, s, p, m) && Coherent(home, s) && m.Sys?
    requires e == EventOf(home, s, p, m)[0].1 && OfStat(m.e)
    ensures Matches(cfg, home, s, p, m, e)
  {
    hide BundleFile, LockFile, WriteAt, RecordBytes, BuildUrl, Coherent, Under;
    hide CanLock, LockStep, CanCreate, CreateStep, CanUse, UseStep, ReturnStep;
    SessionUnder(cfg, home, s, p);
    FieldsUnder(cfg, home, s);
    FieldsUnder(cfg, home, DoStep(cfg, home, s, p, m));
  }

  lemma CreateUnder(cfg: Config, home: nat -> nat, s: Shared, p: nat, m: Move, e: Event)
    requires Runnable(cfg) && CanStep(cfg, home, s, p, m) && Coherent(home, s) && m.Sys?
    requires e == EventOf(home, s, p, m)[0].1 && OfCreate(m.e)
    ensures Matches(cfg, home, s, p, m, e)
  {
    hide BundleFile, LockFile, WriteAt, RecordBytes, BuildUrl, Coherent, Under;
    hide CanLock, LockStep, CanStat, StatStep, CanUse, UseStep, ReturnStep;
    SessionUnder(cfg, home, s, p);
    FieldsUnder(cfg, home, s);
    FieldsUnder(cfg, home, DoStep(cfg, home, s, p, m));
  }

  lemma ChunkUnder(cfg: Config, home: nat -> nat, s: Shared, p: nat, m: Move, e: Event)
    requires Runnable(cfg) && CanStep(cfg, home, s, p, m) && Coherent(home, s) && m.Sys?
    requires e == EventOf(home, s, p, m)[0].1 && m.e.StoreChunk?
    ensures Matches(cfg, home, s, p, m, e)
  {
    hide BundleFile, LockFile, WriteAt, RecordBytes, BuildUrl, Coherent, Under, AfterWrite, InfoOf;
    hide CanLock, LockStep, CanStat, StatStep, CanCreate, CreateStep;
    SessionUnder(cfg, home, s, p);
    FieldsUnder(cfg, home, s);
    FieldsUnder(cfg, home, DoStep(cfg, home, s, p, m));
  }

  lemma DoneUnder(cfg: Config, home: nat -> nat, s: Shared, p: nat, m: Move, e: Event)
    requires Runnable(cfg) && CanStep(cfg, home, s, p, m) && Coherent(home, s) && m.Sys?
    requires e == EventOf(home, s, p, m)[0].1 && m.e.StoreDone?
    ensures Matches(cfg, home, s, p, m, e)
  {
    hide BundleFile, LockFile, WriteAt, RecordBytes, BuildUrl, Coherent, Under, AfterWrite, InfoOf;
    hide CanLock, LockStep, CanStat, StatStep, CanCreate, CreateStep;
    SessionUnder(cfg, home, s, p);
    FieldsUnder(cfg, home, s);
    FieldsUnder(cfg, home, DoStep(cfg, home, s, p, m));
  }

  lemma UseUnder(cfg: Config, home: nat -> nat, s: Shared, p: nat, m: Move, e: Event)
    requires Runnable(cfg) && CanStep(cfg, home, s, p, m) && Coherent(home, s) && m.Sys?
    requires e == EventOf(home, s, p, m)[0].1 && (m.e.StartWrite? || m.e.Refused? || m.e.Release? || m.e.Crash?)
    ensures Matches(cfg, home, s, p, m, e)
  {
    hide BundleFile, LockFile, WriteAt, RecordBytes, BuildUrl, Coherent, Under, AfterWrite, InfoOf, NewJob;
    hide CanLock, LockStep, CanStat, StatStep, CanCreate, CreateStep;
    SessionUnder(cfg, home, s, p);
    FieldsUnder(cfg, home, s);
    FieldsUnder(cfg, home, DoStep(cfg, home, s, p, m));
  }

  lemma FieldsUnder(cfg: Config, home: nat -> nat, s: Shared)
    requires Usable(cfg.levels)
    ensures Under(cfg, home, s) == State(s.files, s.locks, Under(cfg, home, s).sessions, s.acks)
  {
  }

  lemma SessionUnder(cfg: Config, home: nat -> nat, s: Shared, p: nat)
    requires Usable(cfg.levels) && Coherent(home, s)
    ensures SessionOf(Under(cfg, home, s), p) == SessionIn(cfg, ThreadOf(s, p), LastOf(s, home(p)))
    ensures Sync(ThreadOf(s, p), LastOf(s, home(p))) && (InFlight(ThreadOf(s, p)) ==> home(p) in s.last)
  {
    hide BundleFile;
  }

  // ----- runs -----

  /** A run in which the calls of a process do not overlap is a run of the protocol. */
  lemma {:induction false} RunRefines(cfg: Config, home: nat -> nat, s: Shared, moves: seq<(nat, Move)>)
    returns (events: seq<(nat, Event)>)
    requires Runnable(cfg) && Coherent(home, s) && Run(cfg, home, s, moves).Some? && OneAtATime(cfg, home, s, moves)
    ensures Coherent(home, Run(cfg, home, s, moves).value)
    ensures Exec(cfg, Under(cfg, home, s), events) == Some(Under(cfg, home, Run(cfg, home, s, moves).value))
    decreases |moves|
  {
    hide Coherent, CanStep, DoStep, Under, EventOf, Exec;
    if moves == [] {
      StoreSafety.ExecNothing(cfg, Under(cfg, home, s));
      events := [];
    } else {
      var p, m := moves[0].0, moves[0].1;
      StepRefines(cfg, home, s, p, m);
      StepKeepsCoherent(cfg, home, s, p, m);
      var rest := RunRefines(cfg, home, DoStep(cfg, home, s, p, m), moves[1..]);
      StoreSafety.ExecConcat(cfg, Under(cfg, home, s), EventOf(home, s, p, m), rest);
      events := EventOf(home, s, p, m) + rest;
    }
  }

  /** A run from the start to s and on to s', the calls of a process one at a time all the way. */
  predicate Passes(cfg: Config, home: nat -> nat, files: map<Path, seq<byte>>, locks: set<Path>,
                   before: seq<(nat, Move)>, s: Shared, after: seq<(nat, Move)>, s': Shared)
  {
    && Sound(cfg)
    && Run(cfg, home, Start(files, locks), before) == Some(s) && OneAtATime(cfg, home, Start(files, locks), before)
    && Run(cfg, home, s, after) == Some(s') && OneAtATime(cfg, home, s, after)
  }

  lemma PassesReaches(cfg: Config, home: nat -> nat, files: map<Path, seq<byte>>, locks: set<Path>,
                      before: seq<(nat, Move)>, s: Shared, after: seq<(nat, Move)>, s': Shared)
    returns (b: seq<(nat, Event)>, a: seq<(nat, Event)>)
    requires Passes(cfg, home, files, locks, before, s, after, s')
    ensures Sound(cfg) && StoreSafety.Reaches(cfg, files, locks, b, Under(cfg, home, s), a, Under(cfg, home, s'))
  {
    hide Run, OneAtATime, Exec, SessionIn;
    var start := Start(files, locks);
    assert Under(cfg, home, start).sessions == map[];
    assert Under(cfg, home, start) == Init(files, locks);
    b := RunRefines(cfg, home, start, before);
    a := RunRefines(cfg, home, s, after);
  }

  /** With one Allocate at a time in each process, any number of processes and threads: what acknowledged
      writes put out stays disjoint and permanent. */
  lemma RecordsAreSafe(cfg: Config, home: nat -> nat, files: map<Path, seq<byte>>, locks: set<Path>,
                       before: seq<(nat, Move)>, s: Shared, after: seq<(nat, Move)>, s': Shared, i: nat, j: nat)
    requires Passes(cfg, home, files, locks, before, s, after, s')
    requires i < |s.acks| && j < |s.acks| && i != j && s.acks[i].out > 0 && s.acks[j].out > 0
    ensures s.acks <= s'.acks && StoreSafety.Stored(s'.files, s.acks[i])
    ensures s.acks[i].file == s.acks[j].file ==>
              StoreSafety.End(s.acks[i]) <= s.acks[j].info.offset || StoreSafety.End(s.acks[j]) <= s.acks[i].info.offset
  {
    hide Passes, StoreSafety.Stored, StoreSafety.Reaches, SessionIn;
    var b, a := PassesReaches(cfg, home, files, locks, before, s, after, s');
    StoreSafety.RecordsAreDisjointAndPermanent(cfg, files, locks, b, Under(cfg, home, s), a, Under(cfg, home, s'), i, j);
  }

  /** And the URL of a write with header and data out reads back in every later state. */
  lemma UrlsReadBack(cfg: Config, home: nat -> nat, files: map<Path, seq<byte>>, locks: set<Path>,
                     before: seq<(nat, Move)>, s: Shared, after: seq<(nat, Move)>, s': Shared, i: nat)
    requires Passes(cfg, home, files, locks, before, s, after, s')
    requires i < |s.acks| && StoreSafety.Readable(cfg, s.acks[i].info)
    requires s.acks[i].out >= Needed(|s.acks[i].job.data|, s.acks[i].info.size)
    ensures var a, r := s.acks[i], ReadUrl(cfg, s'.files, s.acks[i].job.url);
            a.info.size == |a.job.data| <==> r.ReadOk? && r.data == a.job.data
  {
    hide Passes, StoreSafety.Readable, StoreSafety.Reaches, SessionIn, ReadUrl;
    var b, a := PassesReaches(cfg, home, files, locks, before, s, after, s');
    StoreSafety.ReadAfterWrite(cfg, files, locks, b, Under(cfg, home, s), a, Under(cfg, home, s'), i);
  }

  // ----- two calls at a time -----

  function OneProcess(p: nat): nat
  {
    0
  }

  /** Some run takes the first state to the second. */
  ghost predicate Leads(cfg: Config, s: Shared, end: Shared)
    requires Runnable(cfg)
  {
    exists moves :: Run(cfg, OneProcess, s, moves) == Some(end)
  }

  lemma {:induction false} RunSnoc(cfg: Config, home: nat -> nat, s: Shared, moves: seq<(nat, Move)>, p: nat, m: Move)
    requires Runnable(cfg) && Run(cfg, home, s, moves).Some? && CanStep(cfg, home, Run(cfg, home, s, moves).value, p, m)
    ensures Run(cfg, home, s, moves + [(p, m)]) == Some(DoStep(cfg, home, Run(cfg, home, s, moves).value, p, m))
    decreases |moves|
  {
    hide CanStep, DoStep;
    var all := moves + [(p, m)];
    if moves == [] {
      assert all[1..] == [];
    } else {
      assert all[1..] == moves[1..] + [(p, m)];
      RunSnoc(cfg, home, DoStep(cfg, home, s, moves[0].0, moves[0].1), moves[1..], p, m);
    }
  }

  lemma OneMore(cfg: Config, s0: Shared, s: Shared, p: nat, m: Move, s': Shared)
    requires Runnable(cfg) && Leads(cfg, s0, s) && CanStep(cfg, OneProcess, s, p, m) && DoStep(cfg, OneProcess, s, p, m) == s'
    ensures Leads(cfg, s0, s')
  {
    hide CanStep, DoStep, Run;
    var moves: seq<(nat, Move)> :| Run(cfg, OneProcess, s0, moves) == Some(s);
    RunSnoc(cfg, OneProcess, s0, moves, p, m);
  }

  lemma OneMoreLock(cfg: Config, s0: Shared, s: Shared, p: nat, e: Event, s': Shared)
    requires Runnable(cfg) && Leads(cfg, s0, s) && OfLock(e) && CanLock(cfg, s, ThreadOf(s, p), LastOf(s, 0), e)
    requires LockStep(cfg, s, p, 0, e) == s'
    ensures Leads(cfg, s0, s')
  {
    hide CanLock, LockStep, Leads;
    OneMore(cfg, s0, s, p, Sys(e), s');
  }

  lemma OneMoreUse(cfg: Config, s0: Shared, s: Shared, p: nat, e: Event, s': Shared)
    requires Runnable(cfg) && Leads(cfg, s0, s) && !OfLock(e) && !OfStat(e) && !OfCreate(e) && CanUse(ThreadOf(s, p), e)
    requires UseStep(cfg, s, p, e) == s'
    ensures Leads(cfg, s0, s')
  {
    hide CanUse, UseStep, Leads;
    OneMore(cfg, s0, s, p, Sys(e), s');
  }

  /** Two threads of one process. */
  function Two(files: map<Path, seq<byte>>, locks: set<Path>, a: Thread, b: Thread, last: Id, acks: seq<Ack>): Shared
  {
    Shared(files, locks, map[0 := a, 1 := b], map[0 := last], acks)
  }

  /** The second thread finds the first id locked. */
  lemma FirstLocked(cfg: Config, files: map<Path, seq<byte>>, req: Request, n: nat)
    requires Runnable(cfg) && cfg.bundleCountPerDay >= 2 && n + 2 < INT_MAX && !Rooted(req)
    ensures Leads(cfg, Start(files, {}), Two(files, {LockOf(cfg, n)}, Holding(req, n, 1), Looking(req, 0), n, []))
  {
    hide LockFile, Leads;
    var s0 := Start(files, {});
    Stays(cfg, s0);
    var s1 := Shared(files, {}, map[0 := Looking(req, 0)], map[0 := n], []);
    OneMoreLock(cfg, s0, s0, 0, Begin(req, n), s1);
    var s2 := Two(files, {}, Looking(req, 0), Looking(req, 0), n, []);
    OneMoreLock(cfg, s0, s1, 1, Begin(req, n), s2);
    OneMoreLock(cfg, s0, s2, 0, TryLock(0, true), Two(files, {LockOf(cfg, n)}, Holding(req, n, 1), Looking(req, 0), n, []));
  }

  /** A thread that finds the current id locked goes on to the next one. */
  lemma NextLocked(cfg: Config, s0: Shared, s: Shared, p: nat, req: Request, n: nat)
    requires Runnable(cfg) && cfg.bundleCountPerDay >= 2 && n + 2 < INT_MAX && Leads(cfg, s0, s)
    requires ThreadOf(s, p) == Looking(req, 0) && LastOf(s, 0) == n && LockOf(cfg, n + 1) !in s.locks
    ensures Leads(cfg, s0, s.(locks := s.locks + {LockOf(cfg, n + 1)}, threads := s.threads[p := Holding(req, n + 1, 2)],
                              last := s.last[0 := n + 1]))
  {
    hide LockFile, Leads;
    var s1 := s.(threads := s.threads[p := LookingAgain(req, n, 1)], last := s.last[0 := n]);
    OneMoreLock(cfg, s0, s, p, TryLock(0, false), s1);
    var s2 := s.(threads := s.threads[p := Looking(req, 1)], last := s.last[0 := n + 1]);
    OneMoreLock(cfg, s0, s1, p, RetryLock(true, false), s2);
    var s3 := s.(locks := s.locks + {LockOf(cfg, n + 1)}, threads := s.threads[p := Holding(req, n + 1, 2)],
                 last := s.last[0 := n + 1]);
    OneMoreLock(cfg, s0, s2, p, TryLock(0, true), s3);
  }

  /** Both threads take the locks of different ids; the static variable is at the second. */
  lemma BothLocked(cfg: Config, files: map<Path, seq<byte>>, req: Request, n: nat)
    requires Runnable(cfg) && cfg.bundleCountPerDay >= 2 && n + 2 < INT_MAX && !Rooted(req)
    ensures Leads(cfg, Start(files, {}),
                  Two(files, {LockOf(cfg, n), LockOf(cfg, n + 1)}, Holding(req, n, 1), Holding(req, n + 1, 2), n + 1, []))
  {
    hide LockFile, Run, Leads;
    var s0 := Start(files, {});
    LockNamesId(LockDir(cfg), n, n + 1);
    FirstLocked(cfg, files, req, n);
    var s3 := Two(files, {LockOf(cfg, n)}, Holding(req, n, 1), Looking(req, 0), n, []);
    NextLocked(cfg, s0, s3, 1, req, n);
    assert s3.threads[1 := Holding(req, n + 1, 2)] == map[0 := Holding(req, n, 1), 1 := Holding(req, n + 1, 2)];
    assert s3.last[0 := n + 1] == map[0 := n + 1];
    assert s3.locks + {LockOf(cfg, n + 1)} == {LockOf(cfg, n), LockOf(cfg, n + 1)};
  }

  lemma Stays(cfg: Config, s: Shared)
    requires Runnable(cfg)
    ensures Leads(cfg, s, s)
  {
    assert Run(cfg, OneProcess, s, []) == Some(s);
  }

  /** A thread that holds a lock looks at the bundle of the static variable, and gets a Writer for it. */
  lemma LooksAndReturns(cfg: Config, s0: Shared, s: Shared, p: nat, req: Request, held: Id, loops: nat)
    requires Runnable(cfg) && Leads(cfg, s0, s) && ThreadOf(s, p) == Holding(req, held, loops) && LastOf(s, 0) + 1 < INT_MAX
    requires var f := BundleFile(cfg, req.prefix, LastOf(s, 0));
             f in s.files && |s.files[f]| + Total(req.size) <= cfg.maxBundleSize
    ensures var w := NewWriter(cfg, req, LastOf(s, 0), |s.files[BundleFile(cfg, req.prefix, LastOf(s, 0))]|);
            Leads(cfg, s0, Goes(s, p, Using(w, held)))
  {
    hide LockFile, BundleFile, Run, Leads, CanLock, LockStep, CanCreate, CreateStep, CanUse, UseStep;
    var id := LastOf(s, 0);
    var offset := |s.files[BundleFile(cfg, req.prefix, id)]|;
    var s1 := Goes(s, p, Found(req, held, id, offset));
    OneMore(cfg, s0, s, p, Sys(Stat(false)), s1);
    var s2 := Goes(s1, p, Using(NewWriter(cfg, req, id, offset), held));
    OneMore(cfg, s0, s1, p, Return, s2);
    assert s2 == Goes(s, p, Using(NewWriter(cfg, req, id, offset), held));
  }

  /** Both then look at the bundle of the second id, and get the same Writer. */
  lemma BothUse(cfg: Config, req: Request, content: seq<byte>, n: nat)
    requires Runnable(cfg) && cfg.bundleCountPerDay >= 2 && n + 2 < INT_MAX && !Rooted(req)
    requires |content| + Total(req.size) <= cfg.maxBundleSize
    ensures var f := BundleFile(cfg, req.prefix, n + 1);
            var w := NewWriter(cfg, req, n + 1, |content|);
            Leads(cfg, Start(map[f := content], {}),
                  Two(map[f := content], {LockOf(cfg, n), LockOf(cfg, n + 1)}, Using(w, n), Using(w, n + 1), n + 1, []))
  {
    hide LockFile, BundleFile, Run, Leads;
    var f := BundleFile(cfg, req.prefix, n + 1);
    var files, locks := map[f := content], {LockOf(cfg, n), LockOf(cfg, n + 1)};
    var s0, w := Start(files, {}), NewWriter(cfg, req, n + 1, |content|);
    BothLocked(cfg, files, req, n);
    var s6 := Two(files, locks, Holding(req, n, 1), Holding(req, n + 1, 2), n + 1, []);
    LooksAndReturns(cfg, s0, s6, 0, req, n, 1);
    var s8 := Two(files, locks, Using(w, n), Holding(req, n + 1, 2), n + 1, []);
    assert Goes(s6, 0, Using(w, n)) == s8;
    LooksAndReturns(cfg, s0, s8, 1, req, n + 1, 2);
    assert Goes(s8, 1, Using(w, n + 1)) == Two(files, locks, Using(w, n), Using(w, n + 1), n + 1, []);
  }

  /** A complete plain Write of a thread. */
  lemma WholeWrite(cfg: Config, s0: Shared, s: Shared, p: nat, w: Writer, held: Id, data: seq<byte>, junk: seq<byte>)
    requires Runnable(cfg) && Leads(cfg, s0, s) && ThreadOf(s, p) == Using(w, held) && w.file in s.files
    requires !w.spent && w.info.offset % 0x1_0000_0000 != 0xffff_ffff && Total(|data|) <= INT_MAX && |junk| == Total(|data|)
    ensures var job := NewJob(cfg, w, false, data, [], junk);
            Leads(cfg, s0, s.(files := s.files[w.file := WriteAt(s.files[w.file], w.info.offset, job.bytes)],
                              threads := s.threads[p := Using(w.(spent := true), held)],
                              acks := s.acks + [Ack(w.file, w.info, job, |job.bytes|)]))
  {
    hide WriteAt, RecordBytes, BuildUrl, Leads;
    var job := NewJob(cfg, w, false, data, [], junk);
    assert job.bytes[0..0 + |job.bytes|] == job.bytes;
    var files := s.files[w.file := WriteAt(s.files[w.file], w.info.offset, job.bytes)];
    var s1 := Goes(s, p, Writing(w, held, job, 0));
    OneMoreUse(cfg, s0, s, p, StartWrite(false, data, [], junk), s1);
    var s2 := Goes(s1.(files := files), p, Writing(w, held, job, |job.bytes|));
    OneMoreUse(cfg, s0, s1, p, StoreChunk(|job.bytes|), s2);
    var s3 := Goes(s2.(acks := s.acks + [Ack(w.file, w.info, job, |job.bytes|)]), p, Using(w.(spent := true), held));
    OneMoreUse(cfg, s0, s2, p, StoreDone(0), s3);
    assert s3.threads == s.threads[p := Using(w.(spent := true), held)];
  }

  /** A complete plain Write of thread 0, then one of thread 1. */
  lemma BothWrite(cfg: Config, s0: Shared, f: Path, content: seq<byte>, locks: set<Path>, w: Writer, h: Id, h': Id, last: Id,
                  a: seq<byte>, b: seq<byte>, junk: seq<byte>, junk': seq<byte>)
    requires Runnable(cfg) && w.file == f && !w.spent && w.info.offset % 0x1_0000_0000 != 0xffff_ffff
    requires Total(|a|) <= INT_MAX && Total(|b|) <= INT_MAX && |junk| == Total(|a|) && |junk'| == Total(|b|)
    requires Leads(cfg, s0, Two(map[f := content], locks, Using(w, h), Using(w, h'), last, []))
    ensures var job, job' := NewJob(cfg, w, false, a, [], junk), NewJob(cfg, w, false, b, [], junk');
            var files := map[f := WriteAt(WriteAt(content, w.info.offset, job.bytes), w.info.offset, job'.bytes)];
            var x := w.(spent := true);
            Leads(cfg, s0, Two(files, locks, Using(x, h), Using(x, h'), last,
                               [Ack(f, w.info, job, |job.bytes|), Ack(f, w.info, job', |job'.bytes|)]))
  {
    hide WriteAt, NewJob, Run, Leads;
    var job, job' := NewJob(cfg, w, false, a, [], junk), NewJob(cfg, w, false, b, [], junk');
    var x, at := w.(spent := true), w.info.offset;
    var f0, f1 := map[f := content], map[f := WriteAt(content, at, job.bytes)];
    var f2 := map[f := WriteAt(WriteAt(content, at, job.bytes), at, job'.bytes)];
    var ack, ack' := Ack(f, w.info, job, |job.bytes|), Ack(f, w.info, job', |job'.bytes|);
    assert f0[f := WriteAt(content, at, job.bytes)] == f1;
    assert f1[f := WriteAt(WriteAt(content, at, job.bytes), at, job'.bytes)] == f2;
    var t0 := Two(f0, locks, Using(w, h), Using(w, h'), last, []);
    WholeWrite(cfg, s0, t0, 0, w, h, a, junk);
    var t1 := Two(f1, locks, Using(x, h), Using(w, h'), last, [ack]);
    assert t0.threads[0 := Using(x, h)] == t1.threads && t0.acks + [ack] == t1.acks;
    WholeWrite(cfg, s0, t1, 1, w, h', b, junk');
    var t2 := Two(f2, locks, Using(x, h), Using(x, h'), last, [ack, ack']);
    assert t1.threads[1 := Using(x, h')] == t2.threads && t1.acks + [ack'] == t2.acks;
  }

  /** Whatever the settings: two threads of one process that are inside Allocate together can get one bundle
      and one offset, under two locks. Both writes return 0, and of the first record nothing is left where
      the second went out. */
  lemma TwoCallsOverlap(cfg: Config, req: Request, content: seq<byte>, n: nat, a: seq<byte>, b: seq<byte>,
                        junk: seq<byte>, junk': seq<byte>)
    returns (s: Shared)
    requires Runnable(cfg) && cfg.bundleCountPerDay >= 2 && n + 2 < INT_MAX && !Rooted(req)
    requires |content| + Total(req.size) <= cfg.maxBundleSize && |content| % 0x1_0000_0000 != 0xffff_ffff
    requires Total(|a|) <= INT_MAX && Total(|b|) <= INT_MAX && |junk| == Total(|a|) && |junk'| == Total(|b|)
    ensures var f := BundleFile(cfg, req.prefix, n + 1);
            && Leads(cfg, Start(map[f := content], {}), s)
            && |s.acks| == 2 && s.acks[0].job.data == a && s.acks[1].job.data == b
            && (forall i :: 0 <= i < 2 ==>
                  s.acks[i].file == f && s.acks[i].info.offset == |content| && s.acks[i].out == |s.acks[i].job.bytes|)
            && s.files == map[f := WriteAt(WriteAt(content, |content|, s.acks[0].job.bytes), |content|, s.acks[1].job.bytes)]
  {
    hide Leads, LockFile, BundleFile, WriteAt, RecordBytes, BuildUrl;
    var f := BundleFile(cfg, req.prefix, n + 1);
    var w, locks := NewWriter(cfg, req, n + 1, |content|), {LockOf(cfg, n), LockOf(cfg, n + 1)};
    BothUse(cfg, req, content, n);
    BothWrite(cfg, Start(map[f := content], {}), f, content, locks, w, n, n + 1, n + 1, a, b, junk, junk');
    var job, job' := NewJob(cfg, w, false, a, [], junk), NewJob(cfg, w, false, b, [], junk');
    var x := w.(spent := true);
    var files := map[f := WriteAt(WriteAt(content, |content|, job.bytes), |content|, job'.bytes)];
    s := Two(files, locks, Using(x, n), Using(x, n + 1), n + 1,
             [Ack(f, w.info, job, |job.bytes|), Ack(f, w.info, job', |job'.bytes|)]);
  }
}
