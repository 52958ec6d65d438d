/** Safety of the bundle store over whole runs. */
module StoreSafety {
  import opened Arith
  import opened Text
  import opened Bytes
  import opened Paths
  import opened Record
  import opened Store
  import Url

  // ----- ownership -----

  /** The bundle (prefix and id) whose lock a session holds. */
  datatype Bundle = Bundle(prefix: string, id: int)

  function Owned(c: Session): Option<Bundle>
  {
    match c
    case Owning(req, id, _) => Some(Bundle(req.prefix, id))
    case Making(req, id, _) => Some(Bundle(req.prefix, id))
    case Heading(req, id, _, _) => Some(Bundle(req.prefix, id))
    case Open(w) => Some(Bundle(w.info.prefix, w.info.id))
    case Storing(w, _, _) => Some(Bundle(w.info.prefix, w.info.id))
    case _ => None
  }

  function FileOf(cfg: Config, b: Bundle): Path
    requires Usable(cfg.levels) && 0 <= b.id <= INT_MAX
  {
    BundleFile(cfg, b.prefix, b.id)
  }

  /** One file belongs to one bundle id, so it is never guarded by two locks. */
  lemma FileHasOneId(cfg: Config, a: Bundle, b: Bundle)
    requires Sound(cfg) && 0 <= a.id <= INT_MAX && 0 <= b.id <= INT_MAX
    requires FileOf(cfg, a) == FileOf(cfg, b)
    ensures a.id == b.id
  {
    PathNamesId(PathJoin(cfg.storage, a.prefix), a.id, PathJoin(cfg.storage, b.prefix), b.id, cfg.levels);
  }

  // ----- the invariant -----

  /** The end of the byte range that an acknowledged write put out. */
  function End(a: Ack): nat
  {
    a.info.offset + a.out
  }

  /** What the write put out is in the file. */
  predicate Stored(files: map<Path, seq<byte>>, a: Ack)
  {
    && a.file in files && a.out <= |a.job.bytes|
    && (a.out > 0 ==> OnDisk(files[a.file], a.info.offset, a.job.bytes[..a.out]))
  }

  predicate AllStored(files: map<Path, seq<byte>>, acks: seq<Ack>)
  {
    forall i :: 0 <= i < |acks| ==> Stored(files, acks[i])
  }

  /** The ranges of one file lie one after the other, in the order of their writes. */
  predicate Ordered(acks: seq<Ack>)
  {
    forall i, j :: 0 <= i < j < |acks| && acks[i].out > 0 && acks[i].file == acks[j].file
                   ==> End(acks[i]) <= acks[j].info.offset
  }

  /** What was acknowledged is what Write and the URL printer make of the arguments. */
  predicate WellMade(cfg: Config, a: Ack)
    requires Usable(cfg.levels)
  {
    && 0 <= a.info.id <= INT_MAX
    && a.file == BundleFile(cfg, a.info.prefix, a.info.id)
    && JobOk(cfg, a.info, a.job)
  }

  predicate JobOk(cfg: Config, info: Url.Info, job: Job)
  {
    && Total(|job.data|) <= INT_MAX && |job.junk| == Total(|job.data|)
    && job.url == BuildUrl(cfg, info)
    && job.bytes == RecordBytes(job.junk, job.url, job.data, job.user)
    && (job.batch ==> info.size == |job.data|)
  }

  /** Nothing that was put out into the file reaches beyond `offset`. */
  predicate Ahead(acks: seq<Ack>, file: Path, offset: nat)
  {
    forall i :: 0 <= i < |acks| && acks[i].out > 0 && acks[i].file == file ==> End(acks[i]) <= offset
  }

  predicate WriterOk(cfg: Config, s: State, w: Writer)
    requires Usable(cfg.levels)
  {
    && 0 <= w.info.id < INT_MAX
    && w.file == BundleFile(cfg, w.info.prefix, w.info.id)
    && w.file in s.files
    && (!w.spent ==> Ahead(s.acks, w.file, w.info.offset))
  }

  predicate SessionOk(cfg: Config, s: State, c: Session)
    requires Usable(cfg.levels)
  {
    && IdsOk(c)
    && (Owned(c).Some? ==> LockOf(cfg, Owned(c).value.id) in s.locks)
    && match c
       case Making(req, id, _) => BundleFile(cfg, req.prefix, id) !in s.files
       case Heading(req, id, header, done) =>
         && |header| == BUNDLE_HEADER && done <= |header|
         && BundleFile(cfg, req.prefix, id) in s.files
         && Ahead(s.acks, BundleFile(cfg, req.prefix, id), 0)
       case Open(w) => WriterOk(cfg, s, w)
       case Storing(w, job, done) =>
         && WriterOk(cfg, s, w) && !w.spent
         && JobOk(cfg, InfoOf(w, job), job)
         && done <= |job.bytes|
         && (done > 0 ==>
              && w.info.offset + done <= |s.files[w.file]|
              && s.files[w.file][w.info.offset..w.info.offset + done] == job.bytes[..done])
       case _ => true
  }

  /** No two sessions hold the same lock. */
  predicate Exclusive(s: State)
  {
    forall p, q :: p in s.sessions && q in s.sessions && p != q
                   && Owned(s.sessions[p]).Some? && Owned(s.sessions[q]).Some?
                   ==> Owned(s.sessions[p]).value.id != Owned(s.sessions[q]).value.id
  }

  ghost predicate Inv(cfg: Config, s: State)
  {
    && Sound(cfg)
    && AllStored(s.files, s.acks)
    && Ordered(s.acks)
    && (forall i :: 0 <= i < |s.acks| ==> WellMade(cfg, s.acks[i]))
    && (forall p :: p in s.sessions ==> SessionOk(cfg, s, s.sessions[p]))
    && Exclusive(s)
  }

  // ----- one step keeps the invariant -----

  /** What a step of session p may do to the shared state while it owns bundle b: change the file of
      b, free or keep its lock, and append a record to the history. */
  ghost predicate Local(cfg: Config, s: State, s': State, p: nat, b: Bundle)
    requires Usable(cfg.levels) && 0 <= b.id <= INT_MAX
  {
    var f := FileOf(cfg, b);
    && s'.sessions == s.sessions[p := SessionOf(s', p)]
    && (forall g :: g != f ==> (g in s.files <==> g in s'.files))
    && (forall g :: g != f && g in s.files ==> s'.files[g] == s.files[g])
    && (forall l :: l in s.locks && l != LockOf(cfg, b.id) ==> l in s'.locks)
    && (s'.acks == s.acks
        || (|s'.acks| == |s.acks| + 1 && s'.acks[..|s.acks|] == s.acks && s'.acks[|s.acks|].file == f))
  }

  /** Another session does not notice: it owns another bundle, hence another file and lock. */
  lemma OthersUnaffected(cfg: Config, s: State, s': State, p: nat, b: Bundle, q: nat)
    requires Inv(cfg, s) && p in s.sessions && q in s.sessions && p != q
    requires Owned(s.sessions[p]) == Some(b) && 0 <= b.id <= INT_MAX
    requires Local(cfg, s, s', p, b)
    ensures SessionOk(cfg, s', s.sessions[q])
  {
    hide LockFile, BundleFile, PathJoin, WriteAt, JobOk;
    var c := s.sessions[q];
    if Owned(c).Some? {
      var o := Owned(c).value;
      assert o.id != b.id;
      if LockOf(cfg, o.id) == LockOf(cfg, b.id) {
        LockNamesId(LockDir(cfg), o.id, b.id);
      }
      if FileOf(cfg, o) == FileOf(cfg, b) {
        FileHasOneId(cfg, o, b);
      }
    }
  }

  lemma LocalKeepsInv(cfg: Config, s: State, s': State, p: nat, b: Bundle)
    requires Inv(cfg, s) && p in s.sessions
    requires Owned(s.sessions[p]) == Some(b) && 0 <= b.id <= INT_MAX
    requires Local(cfg, s, s', p, b)
    requires SessionOk(cfg, s', SessionOf(s', p))
    requires Owned(SessionOf(s', p)).Some? ==> Owned(SessionOf(s', p)).value.id == b.id
    requires AllStored(s'.files, s'.acks) && Ordered(s'.acks)
    requires forall i :: 0 <= i < |s'.acks| ==> WellMade(cfg, s'.acks[i])
    ensures Inv(cfg, s')
  {
    forall q | q in s'.sessions ensures SessionOk(cfg, s', s'.sessions[q]) {
      if q != p {
        OthersUnaffected(cfg, s, s', p, b, q);
      }
    }
  }

  /** A session that owns nothing and changes neither files nor the history. */
  lemma QuietKeepsInv(cfg: Config, s: State, s': State, p: nat)
    requires Inv(cfg, s)
    requires s' == s.(sessions := s.sessions[p := SessionOf(s', p)])
    requires Owned(SessionOf(s', p)).None? && IdsOk(SessionOf(s', p))
    ensures Inv(cfg, s')
  {
    hide LockFile, BundleFile, JobOk, AllStored, Ordered, WellMade;
    forall q | q in s'.sessions ensures SessionOk(cfg, s', s'.sessions[q]) {
      if q != p {
        assert SessionOk(cfg, s, s.sessions[q]);
      }
    }
  }

  /** Winning a lock file: O_EXCL says it did not exist, so nobody holds it. */
  lemma AcquireKeepsInv(cfg: Config, s: State, s': State, p: nat, req: Request, id: nat, loops: nat)
    requires Inv(cfg, s) && id < INT_MAX
    requires LockOf(cfg, id) !in s.locks
    requires s' == s.(locks := s.locks + {LockOf(cfg, id)}, sessions := s.sessions[p := Owning(req, id, loops)])
    ensures Inv(cfg, s')
  {
    hide LockFile, BundleFile, JobOk;
    forall q | q in s'.sessions ensures SessionOk(cfg, s', s'.sessions[q]) {
      if q != p {
        assert SessionOk(cfg, s, s.sessions[q]);
      }
    }
  }

  /** Giving a lock back, or keeping it, without touching files or history. */
  lemma OwnerMoves(cfg: Config, s: State, s': State, p: nat, b: Bundle)
    requires Inv(cfg, s) && p in s.sessions && Owned(s.sessions[p]) == Some(b) && 0 <= b.id <= INT_MAX
    requires s'.sessions == s.sessions[p := SessionOf(s', p)]
    requires s'.files == s.files && s'.acks == s.acks
    requires s'.locks == s.locks || s'.locks == s.locks - {LockOf(cfg, b.id)}
    requires SessionOk(cfg, s', SessionOf(s', p))
    requires Owned(SessionOf(s', p)).Some? ==> Owned(SessionOf(s', p)).value.id == b.id
    ensures Inv(cfg, s')
  {
    hide LockFile, BundleFile, JobOk;
    LocalKeepsInv(cfg, s, s', p, b);
  }

  lemma StatKeepsInv(cfg: Config, s: State, p: nat, failed: bool)
    requires Inv(cfg, s) && p in s.sessions && s.sessions[p].Owning?
    requires Enabled(cfg, s, p, Stat(failed))
    ensures Inv(cfg, Apply(cfg, s, p, Stat(failed)))
  {
    hide LockFile, BundleFile, JobOk;
    var c := s.sessions[p];
    var s' := Apply(cfg, s, p, Stat(failed));
    OwnerMoves(cfg, s, s', p, Bundle(c.req.prefix, c.id));
  }

  lemma CreateKeepsInv(cfg: Config, s: State, p: nat, made: bool, header: seq<byte>)
    requires Inv(cfg, s) && p in s.sessions && s.sessions[p].Making?
    requires Enabled(cfg, s, p, Create(made, header))
    ensures Inv(cfg, Apply(cfg, s, p, Create(made, header)))
  {
    hide LockFile, BundleFile, JobOk;
    var c := s.sessions[p];
    var b := Bundle(c.req.prefix, c.id);
    var s' := Apply(cfg, s, p, Create(made, header));
    if made {
      LocalKeepsInv(cfg, s, s', p, b);
    } else {
      OwnerMoves(cfg, s, s', p, b);
    }
  }

  /** Bytes written at or after `offset` leave every record that ends there or before in place. */
  lemma WriteBehind(s: State, f: Path, offset: nat, at: nat, bytes: seq<byte>)
    requires AllStored(s.files, s.acks) && f in s.files && Ahead(s.acks, f, offset) && offset <= at
    ensures AllStored(s.files[f := WriteAt(s.files[f], at, bytes)], s.acks)
  {
    var was, now := s.files[f], WriteAt(s.files[f], at, bytes);
    forall i | 0 <= i < |s.acks|
      ensures Stored(s.files[f := now], s.acks[i])
    {
      var a := s.acks[i];
      assert Stored(s.files, a);
      if a.file == f && a.out > 0 {
        assert End(a) <= offset;
        assert now[a.info.offset..End(a)] == was[a.info.offset..End(a)];
      }
    }
  }

  lemma HeadChunkKeepsInv(cfg: Config, s: State, p: nat, n: nat)
    requires Inv(cfg, s) && p in s.sessions && s.sessions[p].Heading?
    requires Enabled(cfg, s, p, HeadChunk(n))
    ensures Inv(cfg, Apply(cfg, s, p, HeadChunk(n)))
  {
    hide LockFile, BundleFile, JobOk, WriteAt;
    var c := s.sessions[p];
    var b := Bundle(c.req.prefix, c.id);
    var s' := Apply(cfg, s, p, HeadChunk(n));
    WriteBehind(s, FileOf(cfg, b), 0, c.done, c.header[c.done..c.done + n]);
    LocalKeepsInv(cfg, s, s', p, b);
  }

  lemma HeadDoneKeepsInv(cfg: Config, s: State, p: nat)
    requires Inv(cfg, s) && p in s.sessions && s.sessions[p].Heading?
    ensures Inv(cfg, Apply(cfg, s, p, HeadDone))
  {
    hide LockFile, BundleFile, JobOk, AllStored, Ordered, WellMade;
    var c := s.sessions[p];
    OwnerMoves(cfg, s, Apply(cfg, s, p, HeadDone), p, Bundle(c.req.prefix, c.id));
  }

  lemma StoreChunkKeepsInv(cfg: Config, s: State, p: nat, n: nat)
    requires Inv(cfg, s) && p in s.sessions && s.sessions[p].Storing?
    requires Enabled(cfg, s, p, StoreChunk(n))
    ensures Inv(cfg, Apply(cfg, s, p, StoreChunk(n)))
  {
    hide LockFile, BundleFile, JobOk, WriteAt, AllStored, Ordered, WellMade, Ahead;
    var c := s.sessions[p];
    assert SessionOk(cfg, s, c);
    ChunkKeepsInv(cfg, s, p, c.w, c.job, c.done, n);
  }

  lemma ChunkKeepsInv(cfg: Config, s: State, p: nat, w: Writer, job: Job, done: nat, n: nat)
    requires Inv(cfg, s) && p in s.sessions && s.sessions[p] == Storing(w, job, done) && done + n <= |job.bytes|
    requires SessionOk(cfg, s, Storing(w, job, done)) && w.file in s.files
    ensures
      var chunk := job.bytes[done..done + n];
      Inv(cfg, s.(files := s.files[w.file := WriteAt(s.files[w.file], w.info.offset + done, chunk)],
                  sessions := s.sessions[p := Storing(w, job, done + n)]))
  {
    hide LockFile, BundleFile, JobOk, WriteAt, AllStored, Ordered, WellMade;
    var f, off, chunk := w.file, w.info.offset, job.bytes[done..done + n];
    var s' := s.(files := s.files[f := WriteAt(s.files[f], off + done, chunk)], sessions := s.sessions[p := Storing(w, job, done + n)]);
    WriteBehind(s, f, off, off + done, chunk);
    WrittenSoFar(s.files[f], off, job.bytes, done, n);
    LocalKeepsInv(cfg, s, s', p, Bundle(w.info.prefix, w.info.id));
  }

  /** The part of a record on disk grows by what a chunk adds. */
  lemma WrittenSoFar(file: seq<byte>, off: nat, bytes: seq<byte>, done: nat, n: nat)
    requires done + n <= |bytes|
    requires done > 0 ==> off + done <= |file| && file[off..off + done] == bytes[..done]
    ensures var r := WriteAt(file, off + done, bytes[done..done + n]);
            done + n > 0 ==> off + done + n <= |r| && r[off..off + done + n] == bytes[..done + n]
  {
    hide WriteAt;
    var r := WriteAt(file, off + done, bytes[done..done + n]);
    if n == 0 {
      assert bytes[done..done + n] == [];
      NothingWritten(file, off + done);
    } else {
      AfterWriteAt(file, off + done, bytes[done..done + n]);
      forall i | 0 <= i < done + n ensures r[off + i] == bytes[i] {
        if i < done {
          assert file[off..off + done][i] == bytes[..done][i];
        } else {
          assert bytes[done..done + n][i - done] == bytes[i];
        }
      }
    }
  }

  lemma StoreDoneKeepsInv(cfg: Config, s: State, p: nat, w: Writer, job: Job, done: nat, errno: nat)
    requires Inv(cfg, s) && p in s.sessions && s.sessions[p] == Storing(w, job, done)
    ensures Inv(cfg, Finish(s, p, w, job, done, errno))
  {
    hide LockFile, BundleFile, WriteAt, AllStored, Ordered, JobOk, Ahead, WellMade;
    var s' := Finish(s, p, w, job, done, errno);
    var b := Bundle(w.info.prefix, w.info.id);
    assert SessionOk(cfg, s, s.sessions[p]);
    if s'.acks == s.acks {
      OwnerMoves(cfg, s, s', p, b);
    } else {
      var a := s'.acks[|s.acks|];
      AckOfDone(cfg, s, w, job, done);
      AckJoins(s, a, w, job);
      if job.batch {
        AckAhead(s, a, AfterWrite(w, job, 0));
      }
      LocalKeepsInv(cfg, s, s', p, b);
    }
  }

  /** What the invariant says about a record that write(2) has finished with. */
  lemma AckOfDone(cfg: Config, s: State, w: Writer, job: Job, done: nat)
    requires Usable(cfg.levels) && SessionOk(cfg, s, Storing(w, job, done))
    ensures Ahead(s.acks, w.file, w.info.offset) && |job.bytes| == Total(|job.data|)
    ensures WellMade(cfg, Ack(w.file, InfoOf(w, job), job, done))
    ensures Stored(s.files, Ack(w.file, InfoOf(w, job), job, done))
  {
    hide BundleFile, LockFile, BuildUrl, RecordBytes;
  }

  /** After a batch write the writer stands behind the record it just wrote. */
  lemma AckAhead(s: State, a: Ack, w: Writer)
    requires Ahead(s.acks, a.file, a.info.offset) && w.file == a.file
    requires w.info.offset >= End(a)
    ensures Ahead(s.acks + [a], w.file, w.info.offset)
  {
  }

  /** A finished write joins the history behind everything that was put out into its file. */
  lemma AckJoins(s: State, a: Ack, w: Writer, job: Job)
    requires AllStored(s.files, s.acks) && Ordered(s.acks)
    requires a.file == w.file && a.info.offset == w.info.offset && a.job == job
    requires Ahead(s.acks, a.file, a.info.offset)
    requires Stored(s.files, a)
    ensures AllStored(s.files, s.acks + [a]) && Ordered(s.acks + [a])
  {
  }

  lemma StartWriteKeepsInv(cfg: Config, s: State, p: nat, batch: bool, data: seq<byte>, user: seq<byte>, junk: seq<byte>)
    requires Inv(cfg, s) && p in s.sessions && s.sessions[p].Open?
    requires Enabled(cfg, s, p, StartWrite(batch, data, user, junk))
    ensures Inv(cfg, Apply(cfg, s, p, StartWrite(batch, data, user, junk)))
  {
    hide LockFile, BundleFile, WriteAt, AllStored, Ordered, BuildUrl, RecordBytes, WellMade;
    var w := s.sessions[p].w;
    OwnerMoves(cfg, s, Apply(cfg, s, p, StartWrite(batch, data, user, junk)), p, Bundle(w.info.prefix, w.info.id));
  }

  lemma WriterStepKeepsInv(cfg: Config, s: State, p: nat, e: Event)
    requires Inv(cfg, s) && p in s.sessions && s.sessions[p].Open?
    requires Enabled(cfg, s, p, e) && (e.Refused? || e.Release?)
    ensures Inv(cfg, Apply(cfg, s, p, e))
  {
    hide LockFile, BundleFile, WriteAt, AllStored, Ordered, WellMade, JobOk;
    var w := s.sessions[p].w;
    OwnerMoves(cfg, s, Apply(cfg, s, p, e), p, Bundle(w.info.prefix, w.info.id));
  }

  lemma LockStepKeepsInv(cfg: Config, s: State, p: nat, e: Event)
    requires Inv(cfg, s) && Enabled(cfg, s, p, e) && (e.TryLock? || e.RetryLock?)
    ensures Inv(cfg, Apply(cfg, s, p, e))
  {
    hide LockFile, BundleFile, AllStored, Ordered, WellMade, JobOk, Exclusive, SessionOk, WriteAt, RecordBytes;
    var c := SessionOf(s, p);
    var s' := Apply(cfg, s, p, e);
    if e.TryLock? {
      var id := NextId(cfg, c.id, c.loops, e.rand);
      if e.won {
        AcquireKeepsInv(cfg, s, s', p, c.req, id, c.loops + 1);
      } else {
        QuietKeepsInv(cfg, s, s', p);
      }
    } else if e.dirMade && e.won {
      AcquireKeepsInv(cfg, s, s', p, c.req, c.id, c.loops);
    } else {
      QuietKeepsInv(cfg, s, s', p);
    }
  }

  lemma NoParentKeepsInv(cfg: Config, s: State, p: nat)
    requires Inv(cfg, s) && p in s.sessions && s.sessions[p].Making?
    requires Enabled(cfg, s, p, NoParent)
    ensures Inv(cfg, Apply(cfg, s, p, NoParent))
  {
    hide LockFile, BundleFile, WriteAt, AllStored, Ordered, WellMade, JobOk;
    var c := s.sessions[p];
    OwnerMoves(cfg, s, Apply(cfg, s, p, NoParent), p, Bundle(c.req.prefix, c.id));
  }

  lemma BeginOrCrashKeepsInv(cfg: Config, s: State, p: nat, e: Event)
    requires Inv(cfg, s) && Enabled(cfg, s, p, e) && (e.Begin? || e.Crash?)
    ensures Inv(cfg, Apply(cfg, s, p, e))
  {
    hide LockFile, BundleFile, AllStored, Ordered, WellMade, JobOk, Exclusive, SessionOk, WriteAt, RecordBytes;
    QuietKeepsInv(cfg, s, Apply(cfg, s, p, e), p);
  }

  /** Every system call of every session keeps the invariant. */
  lemma StepKeepsInv(cfg: Config, s: State, p: nat, e: Event)
    requires Inv(cfg, s) && Enabled(cfg, s, p, e)
    ensures Inv(cfg, Apply(cfg, s, p, e))
  {
    hide Inv, BundleFile, LockFile, WriteAt, RecordBytes, NextId, NewJob;
    assert Sound(cfg) by {
      InvIsSound(cfg, s);
    }
    match e
    case Begin(_, _) => BeginOrCrashKeepsInv(cfg, s, p, e);
    case Crash => BeginOrCrashKeepsInv(cfg, s, p, e);
    case TryLock(_, _) => LockStepKeepsInv(cfg, s, p, e);
    case RetryLock(_, _) => LockStepKeepsInv(cfg, s, p, e);
    case Stat(failed) => StatKeepsInv(cfg, s, p, failed);
    case NoParent => NoParentKeepsInv(cfg, s, p);
    case Create(made, header) => CreateKeepsInv(cfg, s, p, made, header);
    case HeadChunk(n) => HeadChunkKeepsInv(cfg, s, p, n);
    case HeadDone => HeadDoneKeepsInv(cfg, s, p);
    case StartWrite(batch, data, user, junk) => StartWriteKeepsInv(cfg, s, p, batch, data, user, junk);
    case Refused(_, _) => WriterStepKeepsInv(cfg, s, p, e);
    case StoreChunk(n) => StoreChunkKeepsInv(cfg, s, p, n);
    case StoreDone(errno) =>
      var c := s.sessions[p];
      StoreDoneKeepsInv(cfg, s, p, c.w, c.job, c.done, errno);
    case Release => WriterStepKeepsInv(cfg, s, p, e);
  }

  lemma InvIsSound(cfg: Config, s: State)
    requires Inv(cfg, s)
    ensures Sound(cfg)
  {
  }

  // ----- whole runs -----

  /** Every state of every run satisfies the invariant. */
  lemma {:induction false} RunsKeepInv(cfg: Config, s: State, events: seq<(nat, Event)>)
    requires Inv(cfg, s) && Sound(cfg)
    requires Exec(cfg, s, events).Some?
    ensures Inv(cfg, Exec(cfg, s, events).value)
    decreases |events|
  {
    hide Inv, Apply, Enabled;
    if events != [] {
      StepKeepsInv(cfg, s, events[0].0, events[0].1);
      RunsKeepInv(cfg, Apply(cfg, s, events[0].0, events[0].1), events[1..]);
    }
  }

  /** The history only grows. */
  lemma {:induction false} HistoryGrows(cfg: Config, s: State, events: seq<(nat, Event)>)
    requires Runnable(cfg) && Exec(cfg, s, events).Some?
    ensures s.acks <= Exec(cfg, s, events).value.acks
    decreases |events|
  {
    hide BundleFile, WriteAt, RecordBytes, LockFile;
    if events != [] {
      HistoryGrows(cfg, Apply(cfg, s, events[0].0, events[0].1), events[1..]);
    }
  }

  lemma InitIsSafe(cfg: Config, files: map<Path, seq<byte>>, locks: set<Path>)
    requires Sound(cfg)
    ensures Inv(cfg, Init(files, locks))
  {
  }

  /** A run that reaches s and goes on to s'. */
  predicate Reaches(cfg: Config, files: map<Path, seq<byte>>, locks: set<Path>,
                    before: seq<(nat, Event)>, s: State, after: seq<(nat, Event)>, s': State)
  {
    && Sound(cfg)
    && Exec(cfg, Init(files, locks), before) == Some(s)
    && Exec(cfg, s, after) == Some(s')
  }

  /** In every run, whatever crashes, torn writes and interleavings it has: at most one session holds
      a Writer or is creating a bundle for any one file. */
  lemma OneOwnerPerFile(cfg: Config, files: map<Path, seq<byte>>, locks: set<Path>, events: seq<(nat, Event)>,
                        s: State, p: nat, q: nat)
    requires Sound(cfg) && Exec(cfg, Init(files, locks), events) == Some(s)
    requires p in s.sessions && q in s.sessions && p != q
    requires Owned(s.sessions[p]).Some? && Owned(s.sessions[q]).Some?
    ensures var a, b := Owned(s.sessions[p]).value, Owned(s.sessions[q]).value;
            && 0 <= a.id <= INT_MAX && 0 <= b.id <= INT_MAX
            && FileOf(cfg, a) != FileOf(cfg, b)
            && {LockOf(cfg, a.id), LockOf(cfg, b.id)} <= s.locks
  {
    hide BundleFile, LockFile, JobOk, AllStored, Ordered, WellMade, Exec;
    InitIsSafe(cfg, files, locks);
    RunsKeepInv(cfg, Init(files, locks), events);
    var a, b := Owned(s.sessions[p]).value, Owned(s.sessions[q]).value;
    assert SessionOk(cfg, s, s.sessions[p]) && SessionOk(cfg, s, s.sessions[q]);
    if FileOf(cfg, a) == FileOf(cfg, b) {
      FileHasOneId(cfg, a, b);
    }
  }

  /** In every run, the byte ranges that any two writes put out into one file, complete ones and short
      ones that returned 0, are disjoint, and at every later moment each of them still holds exactly the
      bytes that were put out. */
  lemma RecordsAreDisjointAndPermanent(cfg: Config, files: map<Path, seq<byte>>, locks: set<Path>,
                                       before: seq<(nat, Event)>, s: State, after: seq<(nat, Event)>, s': State,
                                       i: nat, j: nat)
    requires Reaches(cfg, files, locks, before, s, after, s')
    requires i < |s.acks| && j < |s.acks| && i != j && s.acks[i].out > 0 && s.acks[j].out > 0
    ensures s.acks <= s'.acks
    ensures Stored(s.files, s.acks[i]) && Stored(s'.files, s.acks[i])
    ensures s.acks[i].file == s.acks[j].file ==>
              End(s.acks[i]) <= s.acks[j].info.offset || End(s.acks[j]) <= s.acks[i].info.offset
  {
    hide BundleFile, LockFile, JobOk, WellMade, Exec, Stored;
    RunsKeepInv(cfg, Init(files, locks), before);
    RunsKeepInv(cfg, s, after);
    HistoryGrows(cfg, s, after);
    assert s'.acks[i] == s.acks[i];
  }

  /** The URL of an acknowledged write can be parsed back (see Url for when that is so). */
  predicate Readable(cfg: Config, info: Url.Info)
  {
    && Url.FieldsOk(info) && Url.PostfixOk(info.postfix)
    && (if cfg.scheme.Simple? then info.prefix != [] else Url.UrlHash(info) != 0xffff_ffff)
  }

  lemma UrlParsesBack(cfg: Config, info: Url.Info)
    requires Readable(cfg, info)
    ensures ExtractUrl(cfg, BuildUrl(cfg, info)) == Some(info) && BuildUrl(cfg, info) != []
  {
    hide Url.UrlHash, Url.PostfixOk, Url.HashText, Url.EncodedName, Url.SimpleName;
    if cfg.scheme.Simple? {
      Url.SimpleRoundTripIff(info, "");
    } else {
      Url.EncodedRoundTripIff(info);
    }
  }

  lemma ReadStored(cfg: Config, files: map<Path, seq<byte>>, a: Ack)
    requires Usable(cfg.levels) && WellMade(cfg, a) && Stored(files, a) && Readable(cfg, a.info)
    requires a.out >= Needed(|a.job.data|, a.info.size)
    ensures a.info.size <= |a.job.data| ==>
              ReadUrl(cfg, files, a.job.url)
              == ReadOk(a.job.data[..a.info.size], Overlay(a.job.junk[16 + URL_SIZE..FILE_HEADER], a.job.user))
    ensures a.info.size > |a.job.data| ==> ReadUrl(cfg, files, a.job.url) == ReadError(EIO)
  {
    hide Readable, ReadAt, RecordBytes, Overlay, BuildUrl, ExtractUrl, Bid2Filename, PathJoin;
    UrlParsesBack(cfg, a.info);
    ReadRecord(files[a.file], a.info.offset, a.job.junk, a.job.url, a.job.data, a.job.user, a.info.size, a.out);
  }

  /** Read after write, over whole runs: once a write has returned 0 with the header and the data out, be
      it complete or not, reading its URL in any later state yields the written data, exactly when the size
      in the URL is the size of the data. The first bytes of the user block are the user data supplied. */
  lemma ReadAfterWrite(cfg: Config, files: map<Path, seq<byte>>, locks: set<Path>,
                       before: seq<(nat, Event)>, s: State, after: seq<(nat, Event)>, s': State, i: nat)
    requires Reaches(cfg, files, locks, before, s, after, s')
    requires i < |s.acks| && Readable(cfg, s.acks[i].info)
    requires s.acks[i].out >= Needed(|s.acks[i].job.data|, s.acks[i].info.size)
    ensures var a, r := s.acks[i], ReadUrl(cfg, s'.files, s.acks[i].job.url);
            && (a.info.size == |a.job.data| <==> r.ReadOk? && r.data == a.job.data)
            && (r.ReadOk? ==> |r.user| == USER_SIZE
                              && forall k :: 0 <= k < USER_SIZE && k < |a.job.user| ==> r.user[k] == a.job.user[k])
    ensures s.acks[i].job.batch ==> s.acks[i].info.size == |s.acks[i].job.data|
  {
    hide BundleFile, LockFile, BuildUrl, Exec, Stored, RecordBytes, Readable, ReadUrl;
    InitIsSafe(cfg, files, locks);
    RunsKeepInv(cfg, Init(files, locks), before);
    RunsKeepInv(cfg, s, after);
    HistoryGrows(cfg, s, after);
    assert s'.acks[i] == s.acks[i];
    ReadStored(cfg, s'.files, s.acks[i]);
  }

  // ----- where the promise needs its conditions -----

  /** Two ids that name one file but lock two different lock files. */
  predicate TwoLocks(cfg: Config, prefix: string, a: nat, b: nat)
    requires Usable(cfg.levels)
  {
    && a <= INT_MAX && b <= INT_MAX
    && BundleFile(cfg, prefix, a) == BundleFile(cfg, prefix, b)
    && LockOf(cfg, a) != LockOf(cfg, b)
  }

  /** The exclusion that everything rests on is gone exactly for settings with level1 > level2. */
  lemma TwoLocksForOneFileIff(cfg: Config, prefix: string)
    requires Usable(cfg.levels)
    ensures (exists a: nat, b: nat :: TwoLocks(cfg, prefix, a, b)) <==> cfg.levels.level1 > cfg.levels.level2
  {
    hide LockFile, Bid2Filename, PathJoin, Usable, Free;
    var l := cfg.levels;
    if l.level1 > l.level2 {
      SmallAndEqual(l);
      LockNamesId(LockDir(cfg), 0, l.level2);
      assert TwoLocks(cfg, prefix, 0, l.level2);
    } else {
      forall a: nat, b: nat | TwoLocks(cfg, prefix, a, b) ensures false {
        FileHasOneId(cfg.(bundleCountPerDay := 0), Bundle(prefix, a), Bundle(prefix, b));
      }
    }
  }

  lemma SmallAndEqual(l: Levels)
    requires Usable(l) && l.level1 > l.level2
    ensures Bid2Filename(0, l) == Bid2Filename(l.level2, l) && 0 < l.level2 <= INT_MAX
  {
    hide Bid2Filename;
    SameName(0, l.level2, l);
    DivModUnique(l.level2, l.level1, 0, l.level2);
    DivModUnique(l.level2, l.level2, 1, 0);
    DivModUnique(0, l.level1, 0, 0);
    DivModUnique(0, l.level2, 0, 0);
  }

  lemma {:induction false} ExecSnoc(cfg: Config, s: State, events: seq<(nat, Event)>, p: nat, e: Event)
    requires Runnable(cfg) && Exec(cfg, s, events).Some?
    requires Enabled(cfg, Exec(cfg, s, events).value, p, e)
    ensures Exec(cfg, s, events + [(p, e)]) == Some(Apply(cfg, Exec(cfg, s, events).value, p, e))
    decreases |events|
  {
    hide Enabled, Apply;
    var all := events + [(p, e)];
    if events == [] {
      assert all[1..] == [];
    } else {
      assert all[1..] == events[1..] + [(p, e)];
      ExecSnoc(cfg, Apply(cfg, s, events[0].0, events[0].1), events[1..], p, e);
    }
  }

  lemma {:induction false} ExecConcat(cfg: Config, s: State, a: seq<(nat, Event)>, b: seq<(nat, Event)>)
    requires Runnable(cfg) && Exec(cfg, s, a).Some?
    ensures Exec(cfg, s, a + b) == Exec(cfg, Exec(cfg, s, a).value, b)
    decreases |a|
  {
    hide Enabled, Apply;
    if a == [] {
      assert a + b == b;
    } else {
      assert (a + b)[1..] == a[1..] + b;
      ExecConcat(cfg, Apply(cfg, s, a[0].0, a[0].1), a[1..], b);
    }
  }

  /** The system calls of one Allocate that finds no lock and no bundle. */
  function FirstAllocate(req: Request, header: seq<byte>): seq<(nat, Event)>
  {
    [(0, Begin(req, 0))] + [(0, TryLock(0, true))] + [(0, Stat(false))] + [(0, Create(true, header))]
    + [(0, HeadChunk(BUNDLE_HEADER))] + [(0, HeadDone)]
  }

  /** A state with one session. */
  function One(files: map<Path, seq<byte>>, locks: set<Path>, c: Session, acks: seq<Ack>): State
  {
    State(files, locks, map[0 := c], acks)
  }

  lemma OneGoto(files: map<Path, seq<byte>>, locks: set<Path>, c: Session, d: Session, acks: seq<Ack>)
    ensures Goto(One(files, locks, c, acks), 0, d) == One(files, locks, d, acks)
    ensures Goto(State(files, locks, map[], acks), 0, d) == One(files, locks, d, acks)
  {
    assert map[0 := c][0 := d] == map[0 := d];
    var none: map<nat, Session> := map[];
    assert none[0 := d] == map[0 := d];
  }

  lemma OneFile(f: Path, x: seq<byte>, y: seq<byte>, l: Path)
    ensures map[f := x][f := y] == map[f := y]
    ensures var none: map<Path, seq<byte>> := map[]; none[f := x] == map[f := x]
    ensures {} + {l} == {l}
  {
  }

  /** They leave the caller with a Writer at offset 1024 of a new bundle. */
  lemma FirstAllocateOpens(cfg: Config, req: Request, header: seq<byte>)
    requires Runnable(cfg) && !Rooted(req) && cfg.bundleCountPerDay > 0 && |header| == BUNDLE_HEADER
    ensures var f := BundleFile(cfg, req.prefix, 0);
            Exec(cfg, Init(map[], {}), FirstAllocate(req, header))
            == Some(One(map[f := header], {LockOf(cfg, 0)}, Open(NewWriter(cfg, req, 0, BUNDLE_HEADER)), []))
  {
    hide LockFile, BundleFile, Exec, WriteAt, Goto;
    var f, init, l := BundleFile(cfg, req.prefix, 0), Init(map[], {}), LockOf(cfg, 0);
    OneFile(f, [], header, l);
    ExecNothing(cfg, init);
    var c1, c2, c3 := Trying(req, 0, 0), Owning(req, 0, 1), Making(req, 0, 1);
    ExecSnoc(cfg, init, [], 0, Begin(req, 0));
    var e1 := [(0, Begin(req, 0))];
    assert [] + e1 == e1;
    OneGoto(map[], {}, Idle, c1, []);
    assert Exec(cfg, init, e1) == Some(One(map[], {}, c1, []));
    ExecSnoc(cfg, init, e1, 0, TryLock(0, true));
    var e2 := e1 + [(0, TryLock(0, true))];
    OneGoto(map[], {l}, c1, c2, []);
    assert Exec(cfg, init, e2) == Some(One(map[], {l}, c2, []));
    ExecSnoc(cfg, init, e2, 0, Stat(false));
    var e3 := e2 + [(0, Stat(false))];
    OneGoto(map[], {l}, c2, c3, []);
    assert Exec(cfg, init, e3) == Some(One(map[], {l}, c3, []));
    FirstCreate(cfg, init, e3, req, header);
  }

  lemma FirstCreate(cfg: Config, init: State, e3: seq<(nat, Event)>, req: Request, header: seq<byte>)
    requires Runnable(cfg) && |header| == BUNDLE_HEADER
    requires Exec(cfg, init, e3) == Some(One(map[], {LockOf(cfg, 0)}, Making(req, 0, 1), []))
    ensures var f := BundleFile(cfg, req.prefix, 0);
            Exec(cfg, init, e3 + [(0, Create(true, header))] + [(0, HeadChunk(BUNDLE_HEADER))] + [(0, HeadDone)])
            == Some(One(map[f := header], {LockOf(cfg, 0)}, Open(NewWriter(cfg, req, 0, BUNDLE_HEADER)), []))
  {
    hide LockFile, BundleFile, Exec, WriteAt, Goto;
    var f, l := BundleFile(cfg, req.prefix, 0), LockOf(cfg, 0);
    var c3, c4, c5 := Making(req, 0, 1), Heading(req, 0, header, 0), Heading(req, 0, header, BUNDLE_HEADER);
    OneFile(f, [], header, l);
    ExecSnoc(cfg, init, e3, 0, Create(true, header));
    var e4 := e3 + [(0, Create(true, header))];
    OneGoto(map[f := []], {l}, c3, c4, []);
    assert Exec(cfg, init, e4) == Some(One(map[f := []], {l}, c4, []));
    ExecSnoc(cfg, init, e4, 0, HeadChunk(BUNDLE_HEADER));
    var e5 := e4 + [(0, HeadChunk(BUNDLE_HEADER))];
    WriteAtNothing(header);
    OneGoto(map[f := header], {l}, c4, c5, []);
    assert Exec(cfg, init, e5) == Some(One(map[f := header], {l}, c5, []));
    ExecSnoc(cfg, init, e5, 0, HeadDone);
    OneGoto(map[f := header], {l}, c5, Open(NewWriter(cfg, req, 0, BUNDLE_HEADER)), []);
  }

  lemma ExecNothing(cfg: Config, s: State)
    requires Runnable(cfg)
    ensures Exec(cfg, s, []) == Some(s)
  {
  }

  lemma WriteAtNothing(bytes: seq<byte>)
    ensures WriteAt([], 0, bytes[0..|bytes|]) == bytes
  {
    assert bytes[0..|bytes|] == bytes;
    assert WriteAt([], 0, bytes)[0..|bytes|] == bytes;
  }

  /** A write can return 0 although nothing was written: write(2) is short, and errno is a stale 0.
      Here a fresh store gets one plain Write of one byte; its URL then reads as an I/O error. */
  lemma ShortWriteCanReturnZero(cfg: Config, req: Request, header: seq<byte>, junk: seq<byte>)
    requires Runnable(cfg) && !Rooted(req) && req.size == 1 && cfg.bundleCountPerDay > 0
    requires |header| == BUNDLE_HEADER && |junk| == Total(1)
    requires Readable(cfg, Url.Info(0, BUNDLE_HEADER, 1, req.prefix, req.postfix))
    ensures var events := FirstAllocate(req, header) + [(0, StartWrite(false, [65], [], junk))] + [(0, StoreDone(0))];
            var end := Exec(cfg, Init(map[], {}), events);
            && end.Some? && |end.value.acks| == 1 && end.value.acks[0].out == 0
            && ReadUrl(cfg, end.value.files, end.value.acks[0].job.url) == ReadError(EIO)
  {
    hide LockFile, BundleFile, Exec, Readable, BuildUrl, ExtractUrl, Apply, Enabled, FirstAllocate;
    var f, init, info := BundleFile(cfg, req.prefix, 0), Init(map[], {}), Url.Info(0, BUNDLE_HEADER, 1, req.prefix, req.postfix);
    var l, w := LockOf(cfg, 0), Writer(f, info, false);
    var job := NewJob(cfg, w, false, [65], [], junk);
    FirstAllocateOpens(cfg, req, header);
    ShortSteps(cfg, map[f := header], {l}, w, [65], junk);
    var e6, start := FirstAllocate(req, header), StartWrite(false, [65], [], junk);
    ExecSnoc(cfg, init, e6, 0, start);
    ExecSnoc(cfg, init, e6 + [(0, start)], 0, StoreDone(0));
    UrlParsesBack(cfg, info);
    NothingThere(cfg, f, header, info);
  }

  /** A plain Write whose write(2) puts out nothing and leaves errno at 0. */
  lemma ShortSteps(cfg: Config, files: map<Path, seq<byte>>, locks: set<Path>, w: Writer, data: seq<byte>, junk: seq<byte>)
    requires Runnable(cfg) && 0 <= w.info.id < INT_MAX && !w.spent && w.info.offset < 0xffff_ffff
    requires Total(|data|) <= INT_MAX && |junk| == Total(|data|)
    ensures var s, start, job := One(files, locks, Open(w), []), StartWrite(false, data, [], junk), NewJob(cfg, w, false, data, [], junk);
            && Enabled(cfg, s, 0, start)
            && Apply(cfg, s, 0, start) == One(files, locks, Storing(w, job, 0), [])
            && Enabled(cfg, Apply(cfg, s, 0, start), 0, StoreDone(0))
            && Apply(cfg, Apply(cfg, s, 0, start), 0, StoreDone(0))
               == One(files, locks, Open(w.(spent := true)), [Ack(w.file, w.info, job, 0)])
  {
    hide LockFile, BundleFile, WriteAt, RecordBytes, BuildUrl, Goto;
    var job := NewJob(cfg, w, false, data, [], junk);
    OneGoto(files, locks, Open(w), Storing(w, job, 0), []);
    var a, none: seq<Ack> := Ack(w.file, w.info, job, 0), [];
    assert none + [a] == [a];
    OneGoto(files, locks, Storing(w, job, 0), Open(w.(spent := true)), [a]);
    assert Finish(One(files, locks, Storing(w, job, 0), []), 0, w, job, 0, 0)
        == Goto(One(files, locks, Storing(w, job, 0), [a]), 0, Open(w.(spent := true)));
  }

  lemma NothingThere(cfg: Config, f: Path, header: seq<byte>, info: Url.Info)
    requires Usable(cfg.levels) && |header| == BUNDLE_HEADER && info.id == 0 && info.offset == BUNDLE_HEADER
    requires f == BundleFile(cfg, info.prefix, 0)
    requires ExtractUrl(cfg, BuildUrl(cfg, info)) == Some(info) && BuildUrl(cfg, info) != []
    ensures ReadUrl(cfg, map[f := header], BuildUrl(cfg, info)) == ReadError(EIO)
  {
    hide BuildUrl, ExtractUrl, PathJoin, Bid2Filename;
  }
}
