/** Writer::Allocate and Writer::Release, as code on the shared file system. Each turn of the loop is
    tied to the protocol events it performs.
  */
module AllocateCode {
  import opened Text
  import opened Bytes
  import opened Paths
  import opened Record
  import opened Store
  import opened WriterCode
  import StoreSafety

  /** How the environment answers during one turn of the loop. */
  datatype Turn = Turn(
    rand: nat,           // rand()
    open1: bool,         // the lock file can be created if it does not exist
    dirs: bool,          // the lock directory exists or can be made
    open2: bool,         // the same as open1, at the second attempt
    statFails: bool,     // lstat fails with another error than ENOENT
    parent: bool,        // the bundle's directory exists or can be made
    create: bool,        // the bundle file can be created
    header: seq<byte>,   // the bundle header with the current time
    headOut: nat)        // bytes of it that write(2) puts out

  predicate TurnOk(t: Turn)
  {
    |t.header| == BUNDLE_HEADER && t.headOut <= BUNDLE_HEADER
  }

  /** A protocol run of session p from s0 through `events` to s, which is where fs is now. */
  ghost predicate At(cfg: Config, fs: FileSystem, s0: State, events: seq<(nat, Event)>, s: State)
    reads fs
  {
    && Runnable(cfg)
    && Exec(cfg, s0, events) == Some(s)
    && s.files == fs.files && s.locks == fs.locks && s.acks == s0.acks
  }

  /** Session p has gone on from `earlier`: the new events are all its own. */
  predicate GoesOn(p: nat, earlier: seq<(nat, Event)>, events: seq<(nat, Event)>)
  {
    earlier <= events && forall i :: |earlier| <= i < |events| ==> events[i].0 == p
  }

  // ----- what the answers of the environment lead to -----

  datatype Status = Failed | Again | Got

  /** The files and lock files of one moment. */
  datatype Disk = Disk(files: map<Path, seq<byte>>, locks: set<Path>)

  /** Where a call stands: the id in last_id_, the offset found, and the disk. */
  datatype Standing = Standing(status: Status, id: nat, offset: nat, disk: Disk)

  function DiskOf(fs: FileSystem): Disk
    reads fs
  {
    Disk(fs.files, fs.locks)
  }

  /** Part 1 of a turn. */
  function Locking(cfg: Config, d: Disk, id0: nat, loops: nat, t: Turn): Standing
  {
    var id := NextId(cfg, id0, loops, t.rand);
    var free := LockOf(cfg, id) !in d.locks;
    if free && (t.open1 || (t.dirs && t.open2)) then Standing(Got, id, 0, d.(locks := d.locks + {LockOf(cfg, id)}))
    else if t.dirs then Standing(Again, id + 1, 0, d)
    else Standing(Failed, id, 0, d)
  }

  /** Does the bundle have no room for the request? */
  predicate Full(cfg: Config, d: Disk, f: Path, req: Request)
  {
    f in d.files && |d.files[f]| + Total(req.size) > cfg.maxBundleSize
  }

  /** Parts 2 and 3 of a turn, under the lock. */
  function Checking(cfg: Config, d: Disk, req: Request, id: nat, t: Turn): Standing
    requires Usable(cfg.levels) && id < INT_MAX && TurnOk(t)
  {
    var f, unlocked := BundleFile(cfg, req.prefix, id), d.locks - {LockOf(cfg, id)};
    if t.statFails then Standing(Again, id + 1, 0, d)
    else if Full(cfg, d, f, req) then Standing(Again, id + 1, 0, d.(locks := unlocked))
    else if f in d.files then Standing(Got, id, |d.files[f]|, d)
    else if !t.parent || !t.create then Standing(Failed, id, 0, d.(locks := unlocked))
    else
      var files := d.files[f := WriteAt([], 0, t.header[0..t.headOut])];
      if t.headOut == BUNDLE_HEADER then Standing(Got, id, BUNDLE_HEADER, d.(files := files))
      else Standing(Failed, id, 0, Disk(files, unlocked))
  }

  /** One whole turn. */
  function OneTurn(cfg: Config, d: Disk, req: Request, id: nat, loops: nat, t: Turn): (r: Standing)
    requires Usable(cfg.levels) && id < INT_MAX && cfg.bundleCountPerDay + 100 <= INT_MAX && TurnOk(t)
    ensures r.id <= id + 2 || r.id <= cfg.bundleCountPerDay + 101
  {
    var locking := Locking(cfg, d, id, loops, t);
    if locking.status.Got? then Checking(cfg, locking.disk, req, locking.id, t) else locking
  }

  /** The settings, the first id and the number of turns keep all ids in a C int. */
  predicate InRange(cfg: Config, start: nat, turns: seq<Turn>)
  {
    && Runnable(cfg)
    && (forall i :: 0 <= i < |turns| ==> TurnOk(turns[i]))
    && start + 2 * |turns| + 2 < INT_MAX && cfg.bundleCountPerDay + 2 * |turns| + 103 < INT_MAX
  }

  /** The loop: turns are made until one does not end with another try. */
  function AfterTurns(cfg: Config, d: Disk, req: Request, start: nat, turns: seq<Turn>): (r: Standing)
    requires InRange(cfg, start, turns)
    ensures r.id <= start + 2 * |turns| || r.id <= cfg.bundleCountPerDay + 101 + 2 * |turns|
  {
    if turns == [] then Standing(Again, start, 0, d)
    else
      var n := |turns| - 1;
      var before := AfterTurns(cfg, d, req, start, turns[..n]);
      if before.status.Again? then OneTurn(cfg, before.disk, req, before.id, n, turns[n]) else before
  }

  /** Turn i is made, from this standing. */
  predicate Reached(cfg: Config, d: Disk, req: Request, start: nat, turns: seq<Turn>, i: nat)
    requires InRange(cfg, start, turns) && i < |turns|
  {
    AfterTurns(cfg, d, req, start, turns[..i]).status.Again?
  }

  /** How turn i ends. */
  function TurnAt(cfg: Config, d: Disk, req: Request, start: nat, turns: seq<Turn>, i: nat): Standing
    requires InRange(cfg, start, turns) && i < |turns|
  {
    var before := AfterTurns(cfg, d, req, start, turns[..i]);
    OneTurn(cfg, before.disk, req, before.id, i, turns[i])
  }

  /** Once a turn has ended the call, no later one is made. */
  lemma {:induction false} EndedEarly(cfg: Config, d: Disk, req: Request, start: nat, turns: seq<Turn>, i: nat)
    requires InRange(cfg, start, turns) && i <= |turns| && !AfterTurns(cfg, d, req, start, turns[..i]).status.Again?
    ensures AfterTurns(cfg, d, req, start, turns) == AfterTurns(cfg, d, req, start, turns[..i])
    decreases |turns|
  {
    hide OneTurn;
    if i == |turns| {
      assert turns[..i] == turns;
    } else {
      var n := |turns| - 1;
      assert turns[..n][..i] == turns[..i];
      EndedEarly(cfg, d, req, start, turns[..n], i);
    }
  }

  /** A turn that is made goes on from the turns before it, and may end the call. */
  lemma TurnMade(cfg: Config, d: Disk, req: Request, start: nat, turns: seq<Turn>, i: nat)
    requires InRange(cfg, start, turns) && i < |turns| && Reached(cfg, d, req, start, turns, i)
    ensures var turn := TurnAt(cfg, d, req, start, turns, i);
            && AfterTurns(cfg, d, req, start, turns[..i + 1]) == turn
            && (!turn.status.Again? ==> AfterTurns(cfg, d, req, start, turns) == turn)
  {
    hide OneTurn;
    assert turns[..i + 1][..i] == turns[..i];
    if !TurnAt(cfg, d, req, start, turns, i).status.Again? {
      EndedEarly(cfg, d, req, start, turns, i + 1);
    }
  }

  /** The call ends with a Writer, or with nothing, exactly when some turn that is made ends so. */
  lemma {:induction false} EndsIff(cfg: Config, d: Disk, req: Request, start: nat, turns: seq<Turn>)
    requires InRange(cfg, start, turns)
    ensures var end := AfterTurns(cfg, d, req, start, turns);
            && (end.status.Got? <==> exists i :: 0 <= i < |turns| && Reached(cfg, d, req, start, turns, i)
                                                 && TurnAt(cfg, d, req, start, turns, i).status.Got?)
            && (end.status.Failed? <==> exists i :: 0 <= i < |turns| && Reached(cfg, d, req, start, turns, i)
                                                    && TurnAt(cfg, d, req, start, turns, i).status.Failed?)
  {
    var end := AfterTurns(cfg, d, req, start, turns);
    forall i | 0 <= i < |turns| && Reached(cfg, d, req, start, turns, i)
               && !TurnAt(cfg, d, req, start, turns, i).status.Again?
      ensures end == TurnAt(cfg, d, req, start, turns, i)
    {
      TurnMade(cfg, d, req, start, turns, i);
    }
    if !end.status.Again? {
      var i := LastTurn(cfg, d, req, start, turns);
    }
  }

  /** The turn that ended the call. */
  lemma {:induction false} LastTurn(cfg: Config, d: Disk, req: Request, start: nat, turns: seq<Turn>) returns (i: nat)
    requires InRange(cfg, start, turns) && !AfterTurns(cfg, d, req, start, turns).status.Again?
    ensures i < |turns| && Reached(cfg, d, req, start, turns, i)
    ensures TurnAt(cfg, d, req, start, turns, i) == AfterTurns(cfg, d, req, start, turns)
    decreases |turns|
  {
    hide OneTurn;
    i := |turns| - 1;
    if !AfterTurns(cfg, d, req, start, turns[..i]).status.Again? {
      var n := i;
      i := LastTurn(cfg, d, req, start, turns[..n]);
      assert turns[..n][..i] == turns[..i];
    }
  }

  /** Turn i is made, takes a lock and then cannot look at the bundle: the FileLock object is dropped. */
  predicate Leaks(cfg: Config, d: Disk, req: Request, start: nat, turns: seq<Turn>, i: nat)
    requires InRange(cfg, start, turns) && i < |turns|
  {
    && Reached(cfg, d, req, start, turns, i) && turns[i].statFails
    && var before := AfterTurns(cfg, d, req, start, turns[..i]);
       Locking(cfg, before.disk, before.id, i, turns[i]).status.Got?
  }

  lemma LocksOfTurn(cfg: Config, d: Disk, req: Request, id: nat, loops: nat, t: Turn)
    requires Usable(cfg.levels) && id < INT_MAX && cfg.bundleCountPerDay + 100 <= INT_MAX && TurnOk(t)
    ensures var r, l := OneTurn(cfg, d, req, id, loops, t), LockOf(cfg, NextId(cfg, id, loops, t.rand));
            if t.statFails && Locking(cfg, d, id, loops, t).status.Got? then
              !r.status.Got? && l !in d.locks && r.disk.locks == d.locks + {l}
            else if r.status.Got? then l == LockOf(cfg, r.id) && l !in d.locks && r.disk.locks == d.locks + {l}
            else r.disk.locks == d.locks
  {
    hide LockFile, BundleFile, WriteAt;
  }

  lemma AddedOne(a: set<Path>, b: set<Path>, l: Path)
    requires a <= b && l !in b
    ensures b + {l} != a && (b + {l} == a + {l} <==> a == b)
  {
    if b + {l} == a + {l} {
      assert b == (b + {l}) - {l} && a == (a + {l}) - {l};
    }
  }

  /** The lock files from before, and that of the Writer. */
  function WantedLocks(cfg: Config, d: Disk, end: Standing): set<Path>
  {
    if end.status.Got? then d.locks + {LockOf(cfg, end.id)} else d.locks
  }

  /** What Allocate leaves locked: the lock files from before and that of the Writer, and nothing else
      exactly when no lstat failed under a lock. */
  lemma {:induction false} LocksLeftIff(cfg: Config, d: Disk, req: Request, start: nat, turns: seq<Turn>)
    requires InRange(cfg, start, turns)
    ensures var end := AfterTurns(cfg, d, req, start, turns);
            && WantedLocks(cfg, d, end) <= end.disk.locks
            && (end.status.Got? ==> LockOf(cfg, end.id) !in d.locks)
            && (end.disk.locks == WantedLocks(cfg, d, end)
                <==> forall i :: 0 <= i < |turns| ==> !Leaks(cfg, d, req, start, turns, i))
    decreases |turns|
  {
    hide OneTurn, Locking, LockOf, NextId;
    if turns != [] {
      var n := |turns| - 1;
      var front := turns[..n];
      LocksLeftIff(cfg, d, req, start, front);
      assert forall i :: 0 <= i < n ==> front[..i] == turns[..i];
      assert forall i :: 0 <= i < n ==> Leaks(cfg, d, req, start, turns, i) == Leaks(cfg, d, req, start, front, i);
      var before, end := AfterTurns(cfg, d, req, start, front), AfterTurns(cfg, d, req, start, turns);
      var leaks := Leaks(cfg, d, req, start, turns, n);
      if before.status.Again? {
        var l := LockOf(cfg, NextId(cfg, before.id, n, turns[n].rand));
        LocksOfTurn(cfg, before.disk, req, before.id, n, turns[n]);
        assert leaks <==> turns[n].statFails && Locking(cfg, before.disk, before.id, n, turns[n]).status.Got?;
        if end.status.Got? || leaks {
          AddedOne(d.locks, before.disk.locks, l);
        }
      } else {
        assert !leaks;
      }
      assert (forall i :: 0 <= i < |turns| ==> !Leaks(cfg, d, req, start, turns, i))
        <==> (forall i :: 0 <= i < n ==> !Leaks(cfg, d, req, start, front, i)) && !leaks;
    }
  }

  /** Truncate or create the bundle and write its header; false when not all of it went out. */
  method CreateBundle(fs: FileSystem, file: Path, t: Turn) returns (ok: bool)
    requires TurnOk(t)
    modifies fs`files
    ensures fs.files == if t.create then old(fs.files)[file := []][file := WriteAt([], 0, t.header[0..t.headOut])]
                                    else old(fs.files)
    ensures ok <==> t.create && t.headOut == BUNDLE_HEADER
  {
    if !t.create {
      return false;
    }
    fs.files := fs.files[file := []];
    fs.files := fs.files[file := WriteAt(fs.files[file], 0, t.header[0..t.headOut])];
    ok := t.headOut == BUNDLE_HEADER;
  }

  /** Part 1 of a turn: take the lock file of the id, making the lock directory if need be. */
  method TakeLock(fs: FileSystem, cfg: Config, t: Turn, req: Request, id0: nat, loops: nat,
                  ghost s0: State, ghost p: nat, ghost events0: seq<(nat, Event)>, ghost sa: State)
    returns (status: Status, id: nat, lock: FileLock, ghost events: seq<(nat, Event)>, ghost s: State)
    requires At(cfg, fs, s0, events0, sa) && SessionOf(sa, p) == Trying(req, id0, loops)
    requires id0 + 1 < INT_MAX && cfg.bundleCountPerDay + 101 < INT_MAX
    modifies fs`locks
    ensures At(cfg, fs, s0, events, s) && GoesOn(p, events0, events)
    ensures Standing(status, id, 0, DiskOf(fs)) == Locking(cfg, old(DiskOf(fs)), id0, loops, t)
    ensures var free := LockOf(cfg, NextId(cfg, id0, loops, t.rand)) !in old(fs.locks);
            && (status.Got? <==> free && (t.open1 || (t.dirs && t.open2)))
            && (status.Failed? <==> !(free && t.open1) && !t.dirs)
    ensures id <= id0 + 1 || id <= cfg.bundleCountPerDay + 100
    ensures status.Failed? ==> SessionOf(s, p) == Idle
    ensures status.Again? ==> SessionOf(s, p) == Trying(req, id, loops + 1)
    ensures status.Got? ==> SessionOf(s, p) == Owning(req, id, loops + 1)
                            && fresh(lock) && lock.locked && lock.lockfile == LockOf(cfg, id)
  {
    hide BundleFile, LockFile, WriteAt, RecordBytes, Exec, Apply, Enabled;
    s, events := LockEvents(cfg, t, req, id0, loops, s0, p, events0, sa);
    id := id0;
    if loops + 1 > cfg.bundleCountPerDay {
      id := cfg.bundleCountPerDay + t.rand % 100;
    }
    lock := new FileLock(LockFile(LockDir(cfg), id));
    var won := lock.TryLock(fs, t.open1);
    if won {
      status := Got;
      return;
    }
    if !t.dirs {
      lock.Destroy(fs);
      status := Failed;
      return;
    }
    won := lock.TryLock(fs, t.open2);
    if won {
      status := Got;
    } else {
      id := id + 1;
      lock.Destroy(fs);
      status := Again;
    }
  }

  /** The protocol side of TakeLock. */
  lemma LockEvents(cfg: Config, t: Turn, req: Request, id0: nat, loops: nat,
                   s0: State, p: nat, events0: seq<(nat, Event)>, sa: State)
    returns (s: State, events: seq<(nat, Event)>)
    requires Runnable(cfg) && Exec(cfg, s0, events0) == Some(sa) && SessionOf(sa, p) == Trying(req, id0, loops)
    requires id0 + 1 < INT_MAX && cfg.bundleCountPerDay + 101 < INT_MAX
    ensures Exec(cfg, s0, events) == Some(s) && s.acks == sa.acks && GoesOn(p, events0, events)
    ensures var r := Locking(cfg, Disk(sa.files, sa.locks), id0, loops, t);
            && Disk(s.files, s.locks) == r.disk
            && SessionOf(s, p) == match r.status
                                  case Got => Owning(req, r.id, loops + 1)
                                  case Again => Trying(req, r.id, loops + 1)
                                  case Failed => Idle
  {
    hide LockFile, Exec;
    var id := NextId(cfg, id0, loops, t.rand);
    var free := LockOf(cfg, id) !in sa.locks;
    var e := TryLock(t.rand, free && t.open1);
    StoreSafety.ExecSnoc(cfg, s0, events0, p, e);
    s, events := Apply(cfg, sa, p, e), events0 + [(p, e)];
    if !(free && t.open1) {
      e := RetryLock(t.dirs, t.dirs && free && t.open2);
      StoreSafety.ExecSnoc(cfg, s0, events, p, e);
      s, events := Apply(cfg, s, p, e), events + [(p, e)];
    }
  }

  /** Parts 2 and 3 of a turn: look at the bundle file under the lock, create it if it is missing. */
  method CheckBundle(fs: FileSystem, cfg: Config, t: Turn, req: Request, id0: nat, loops: nat, lock: FileLock,
                     ghost s0: State, ghost p: nat, ghost events0: seq<(nat, Event)>, ghost sa: State)
    returns (status: Status, id: nat, offset: nat, ghost events: seq<(nat, Event)>, ghost s: State)
    requires At(cfg, fs, s0, events0, sa) && SessionOf(sa, p) == Owning(req, id0, loops) && TurnOk(t)
    requires id0 + 1 < INT_MAX && lock.locked && lock.lockfile == LockOf(cfg, id0)
    modifies fs
    ensures At(cfg, fs, s0, events, s) && GoesOn(p, events0, events) && id <= id0 + 1
    ensures Standing(status, id, offset, DiskOf(fs)) == Checking(cfg, old(DiskOf(fs)), req, id0, t)
    ensures var f := BundleFile(cfg, req.prefix, id0);
            && (status.Again? <==> t.statFails || Full(cfg, old(DiskOf(fs)), f, req))
            && (status.Failed? <==> !t.statFails && f !in old(fs.files)
                                    && !(t.parent && t.create && t.headOut == BUNDLE_HEADER))
    ensures status.Failed? ==> SessionOf(s, p) == Idle
    ensures status.Again? ==> SessionOf(s, p) == Trying(req, id, loops)
    ensures status.Got? ==> id == id0 && SessionOf(s, p) == Open(NewWriter(cfg, req, id, offset))
                            && NewWriter(cfg, req, id, offset).file in fs.files
  {
    hide BundleFile, LockFile, WriteAt, RecordBytes, Exec, Apply, Enabled;
    s, events := CheckEvents(cfg, t, req, id0, loops, s0, p, events0, sa);
    id, offset := id0, 0;
    var file := BundleFile(cfg, req.prefix, id);
    if t.statFails {
      id := id + 1;       // the lock object is dropped without being destroyed
      status := Again;
    } else if file in fs.files {
      if |fs.files[file]| + Align1K(FILE_HEADER + req.size) > cfg.maxBundleSize {
        id := id + 1;
        lock.Destroy(fs);
        status := Again;
      } else {
        offset := |fs.files[file]|;
        status := Got;
      }
    } else if !t.parent {
      lock.Destroy(fs);
      status := Failed;
    } else {
      var ok := CreateBundle(fs, file, t);
      if ok {
        offset := BUNDLE_HEADER;
        status := Got;
      } else {
        lock.Destroy(fs);
        status := Failed;
      }
    }
  }

  /** The protocol side of CheckBundle. */
  lemma CheckEvents(cfg: Config, t: Turn, req: Request, id: nat, loops: nat,
                    s0: State, p: nat, events0: seq<(nat, Event)>, sa: State)
    returns (s: State, events: seq<(nat, Event)>)
    requires Runnable(cfg) && Exec(cfg, s0, events0) == Some(sa) && SessionOf(sa, p) == Owning(req, id, loops)
    requires id + 1 < INT_MAX && TurnOk(t)
    ensures Exec(cfg, s0, events) == Some(s) && s.acks == sa.acks && GoesOn(p, events0, events)
    ensures var r := Checking(cfg, Disk(sa.files, sa.locks), req, id, t);
            && Disk(s.files, s.locks) == r.disk
            && SessionOf(s, p) == match r.status
                                  case Got => Open(NewWriter(cfg, req, r.id, r.offset))
                                  case Again => Trying(req, r.id, loops)
                                  case Failed => Idle
  {
    hide BundleFile, LockFile, WriteAt, Exec;
    var f := BundleFile(cfg, req.prefix, id);
    var e := Stat(t.statFails);
    StoreSafety.ExecSnoc(cfg, s0, events0, p, e);
    s, events := Apply(cfg, sa, p, e), events0 + [(p, e)];
    if !t.statFails && f !in sa.files {
      if t.parent {
        ghost var before := events;
        s, events := CreateEvents(cfg, t, req, id, loops, s0, p, before, s);
        TwoPuts(sa.files, f, [], WriteAt([], 0, t.header[0..t.headOut]));
      } else {
        e := NoParent;
        StoreSafety.ExecSnoc(cfg, s0, events, p, e);
        s, events := Apply(cfg, s, p, e), events + [(p, e)];
      }
    }
  }

  lemma TwoPuts(files: map<Path, seq<byte>>, f: Path, a: seq<byte>, b: seq<byte>)
    ensures files[f := a][f := b] == files[f := b]
  {
  }

  /** The protocol side of CreateBundle. */
  lemma CreateEvents(cfg: Config, t: Turn, req: Request, id: nat, loops: nat,
                     s0: State, p: nat, events0: seq<(nat, Event)>, sa: State)
    returns (s: State, events: seq<(nat, Event)>)
    requires Runnable(cfg) && Exec(cfg, s0, events0) == Some(sa) && SessionOf(sa, p) == Making(req, id, loops) && TurnOk(t)
    requires id < INT_MAX
    ensures Exec(cfg, s0, events) == Some(s) && s.acks == sa.acks && GoesOn(p, events0, events)
    ensures var f := BundleFile(cfg, req.prefix, id);
            s.files == if t.create then sa.files[f := []][f := WriteAt([], 0, t.header[0..t.headOut])] else sa.files
    ensures if t.create && t.headOut == BUNDLE_HEADER then
              SessionOf(s, p) == Open(NewWriter(cfg, req, id, BUNDLE_HEADER)) && s.locks == sa.locks
            else
              SessionOf(s, p) == Idle && s.locks == sa.locks - {LockOf(cfg, id)}
  {
    hide BundleFile, LockFile, WriteAt, RecordBytes, Exec;
    var e := Create(t.create, t.header);
    StoreSafety.ExecSnoc(cfg, s0, events0, p, e);
    s, events := Apply(cfg, sa, p, e), events0 + [(p, e)];
    if t.create {
      e := HeadChunk(t.headOut);
      StoreSafety.ExecSnoc(cfg, s0, events, p, e);
      s, events := Apply(cfg, s, p, e), events + [(p, e)];
      e := HeadDone;
      StoreSafety.ExecSnoc(cfg, s0, events, p, e);
      s, events := Apply(cfg, s, p, e), events + [(p, e)];
    }
  }

  /** The whole of Allocate, for as many turns as the environment is described for. It is a run of the
      protocol: it ends with the Writer the protocol hands out, with nothing, or still trying. */
  method Allocate(fs: FileSystem, cfg: Config, req: Request, start: nat, turns: seq<Turn>, ghost s0: State, ghost p: nat)
    returns (result: Option<WriterObject>, lastId: nat, ghost events: seq<(nat, Event)>, ghost s: State)
    requires InRange(cfg, start, turns) && s0.files == fs.files && s0.locks == fs.locks && SessionOf(s0, p) == Idle
    modifies fs
    ensures At(cfg, fs, s0, events, s) && GoesOn(p, [], events)
    ensures var end := AfterTurns(cfg, old(DiskOf(fs)), Stripped(req), start, turns);
            && DiskOf(fs) == end.disk && lastId == end.id
            && (result.Some? <==> end.status.Got?)
            && (result.Some? ==> result.value.Abs() == NewWriter(cfg, Stripped(req), end.id, end.offset))
            && SessionOf(s, p) == match end.status
                                  case Got => Open(NewWriter(cfg, Stripped(req), end.id, end.offset))
                                  case Failed => Idle
                                  case Again => Trying(Stripped(req), end.id, |turns|)
    ensures result.Some? ==>
              && IsSession(cfg, fs, s, p, result.value.Abs())
              && !result.value.spent && result.value.cfg == cfg && lastId == result.value.info.id
              && result.value.filelock.locked && result.value.filelock.lockfile == LockOf(cfg, lastId)
  {
    hide BundleFile, LockFile, Exec, At, AfterTurns, Locking, Checking, Full;
    var r := Stripped(req);
    ghost var was := DiskOf(fs);
    lastId := start;
    var none: seq<(nat, Event)> := [];
    StoreSafety.ExecNothing(cfg, s0);
    StoreSafety.ExecSnoc(cfg, s0, none, p, Begin(req, start));
    s, events := Apply(cfg, s0, p, Begin(req, start)), none + [(p, Begin(req, start))];
    assert At(cfg, fs, s0, events, s) by {
      BeganAt(cfg, fs, s0, events, s, p, req, start);
    }
    NoTurns(cfg, was, r, start, turns);
    for i := 0 to |turns|
      invariant At(cfg, fs, s0, events, s) && GoesOn(p, [], events) && SessionOf(s, p) == Trying(r, lastId, i)
      invariant StandsAt(AfterTurns(cfg, was, r, start, turns[..i]), lastId, DiskOf(fs))
    {
      TurnMade(cfg, was, r, start, turns, i);
      var status, lock, offset;
      status, lastId, lock, events, s := TakeLock(fs, cfg, turns[i], r, lastId, i, s0, p, events, s);
      if status.Failed? {
        return None, lastId, events, s;
      }
      if status.Got? {
        status, lastId, offset, events, s := CheckBundle(fs, cfg, turns[i], r, lastId, i + 1, lock, s0, p, events, s);
        if status.Failed? {
          return None, lastId, events, s;
        }
        if status.Got? {
          var w := new WriterObject(cfg, NewWriter(cfg, r, lastId, offset), lock);
          GotSession(cfg, fs, s0, events, s, p, w.Abs());
          return Some(w), lastId, events, s;
        }
      }
    }
    result := None;
  }

  /** The loop goes on, with this id and this disk. */
  predicate StandsAt(s: Standing, id: nat, d: Disk)
  {
    s.status.Again? && s.id == id && s.disk == d
  }

  lemma NoTurns(cfg: Config, d: Disk, req: Request, start: nat, turns: seq<Turn>)
    requires InRange(cfg, start, turns)
    ensures StandsAt(AfterTurns(cfg, d, req, start, turns[..0]), start, d) && turns[..|turns|] == turns
  {
  }

  lemma BeganAt(cfg: Config, fs: FileSystem, s0: State, events: seq<(nat, Event)>, s: State, p: nat, req: Request, start: nat)
    requires Runnable(cfg) && s0.files == fs.files && s0.locks == fs.locks && SessionOf(s0, p) == Idle && start < INT_MAX
    requires s == Apply(cfg, s0, p, Begin(req, start)) && Exec(cfg, s0, events) == Some(s)
    ensures At(cfg, fs, s0, events, s)
  {
    hide Exec;
  }

  lemma GotSession(cfg: Config, fs: FileSystem, s0: State, events: seq<(nat, Event)>, s: State, p: nat, w: Writer)
    requires At(cfg, fs, s0, events, s) && SessionOf(s, p) == Open(w) && 0 <= w.info.id < INT_MAX && w.file in fs.files
    ensures IsSession(cfg, fs, s, p, w)
  {
    hide Exec;
  }

  /** Release deletes the FileLock, which removes the lock file. */
  method Release(fs: FileSystem, w: WriterObject, ghost s: State, ghost p: nat) returns (ghost after: State)
    requires IsSession(w.cfg, fs, s, p, w.Abs())
    requires w.filelock.locked && w.filelock.lockfile == LockOf(w.cfg, w.info.id)
    modifies fs`locks
    ensures Exec(w.cfg, s, [(p, Event.Release)]) == Some(after)
    ensures after.files == fs.files && after.locks == fs.locks && SessionOf(after, p) == Idle && after.acks == s.acks
  {
    hide BundleFile, LockFile, Exec, WriteAt, RecordBytes;
    var none: seq<(nat, Event)> := [];
    StoreSafety.ExecNothing(w.cfg, s);
    StoreSafety.ExecSnoc(w.cfg, s, none, p, Event.Release);
    assert none + [(p, Event.Release)] == [(p, Event.Release)];
    after := Apply(w.cfg, s, p, Event.Release);
    w.filelock.Destroy(fs);
  }
}
