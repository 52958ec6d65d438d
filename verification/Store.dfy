/** The bundle store as a protocol: any number of sessions (one Writer::Allocate, its writes, its
    Release) interleave their system calls on a shared file system, and may crash at any point.
    The only coordination is a lock file per bundle id, created with O_EXCL.
  */
module Store {
  import opened Text
  import opened Bytes
  import opened Paths
  import opened Record
  import Url

  type Path = string

  datatype Scheme = Simple | Encoded

  /** What all sessions on one store share. */
  datatype Config = Config(
    storage: Path,
    lockPath: Option<Path>,
    scheme: Scheme,
    levels: Levels,
    maxBundleSize: nat,
    bundleCountPerDay: nat)

  const INT_MAX := 0x7fff_ffff

  /** Settings under which the code computes file names and keeps ids in C ints. */
  predicate Runnable(cfg: Config)
  {
    Usable(cfg.levels) && cfg.bundleCountPerDay + 100 <= INT_MAX
  }

  /** Settings under which, besides, a file name has one bundle id. */
  predicate Sound(cfg: Config)
  {
    Runnable(cfg) && cfg.levels.level1 <= cfg.levels.level2
  }

  function LockDir(cfg: Config): Path
  {
    match cfg.lockPath
    case None => PathJoin(cfg.storage, ".lock")
    case Some(dir) => dir
  }

  function LockOf(cfg: Config, id: nat): Path
  {
    LockFile(LockDir(cfg), id)
  }

  function BundleFile(cfg: Config, prefix: string, id: nat): Path
    requires Usable(cfg.levels) && id <= INT_MAX
  {
    PathJoin(PathJoin(cfg.storage, prefix), Bid2Filename(id, cfg.levels))
  }

  function BuildUrl(cfg: Config, info: Url.Info): string
  {
    if cfg.scheme.Simple? then Url.BuildSimple(info, "") else Url.BuildWithEncode(info)
  }

  function ExtractUrl(cfg: Config, url: string): Option<Url.Info>
  {
    if cfg.scheme.Simple? then Url.ExtractSimple(url) else Url.ExtractWithEncode(url)
  }

  // ----- state -----

  /** The arguments of Allocate, the leading slash of the prefix already stripped. */
  datatype Request = Request(prefix: string, postfix: string, size: nat)

  predicate Rooted(r: Request)
  {
    r.prefix != [] && r.prefix[0] == '/'
  }

  function Stripped(r: Request): Request
  {
    if Rooted(r) then r.(prefix := r.prefix[1..]) else r
  }

  /** A Writer object. `spent` marks that a plain Write has returned 0: that call does not move the
      offset, so the object must not write again. */
  datatype Writer = Writer(file: Path, info: Url.Info, spent: bool)

  /** One call of Write or BatchWrite, with the buffer it hands to write(2). */
  datatype Job = Job(batch: bool, url: string, data: seq<byte>, user: seq<byte>, junk: seq<byte>, bytes: seq<byte>)

  datatype Session =
    | Idle                                                          // outside Allocate, no Writer
    | Trying(req: Request, id: nat, loops: nat)                     // top of the loop
    | Retrying(req: Request, id: nat, loops: nat)                   // first TryLock failed
    | Owning(req: Request, id: nat, loops: nat)                     // lock held, about to lstat
    | Making(req: Request, id: nat, loops: nat)                     // lstat said ENOENT
    | Heading(req: Request, id: nat, header: seq<byte>, done: nat)  // writing the bundle header
    | Open(w: Writer)                                               // the caller holds a Writer
    | Storing(w: Writer, job: Job, done: nat)                       // inside write(2)
    | Dead                                                          // crashed; its lock file stays

  /** A write that returned 0, and how many bytes of its buffer write(2) put out. When that is not all
      of them, write(2) was short and the returned errno happened to be 0. */
  datatype Ack = Ack(file: Path, info: Url.Info, job: Job, out: nat)

  datatype State = State(
    files: map<Path, seq<byte>>,
    locks: set<Path>,
    sessions: map<nat, Session>,
    acks: seq<Ack>)     // history: every write that returned 0, in order

  function SessionOf(s: State, p: nat): Session
  {
    if p in s.sessions then s.sessions[p] else Idle
  }

  // ----- steps -----

  datatype Event =
    | Begin(req: Request, start: nat)            // Allocate is called; last_id_ is at `start`
    | TryLock(rand: nat, won: bool)              // open(O_EXCL | O_CREAT)
    | RetryLock(dirMade: bool, won: bool)        // mkdirs(lock_dir), then open(O_EXCL | O_CREAT) again
    | Stat(failed: bool)                         // lstat; `failed` is an error other than ENOENT
    | NoParent                                   // mkdirs(parent) fails
    | Create(made: bool, header: seq<byte>)    // open(O_CREAT | O_TRUNC)
    | HeadChunk(n: nat)                          // write(2) of the bundle header makes progress
    | HeadDone                                   // and returns
    | StartWrite(batch: bool, data: seq<byte>, user: seq<byte>, junk: seq<byte>)
    | Refused(batch: bool, size: nat)            // open or lseek of the bundle fails
    | StoreChunk(n: nat)                         // write(2) of the record makes progress
    | StoreDone(errno: nat)                      // and returns; `errno` is what a short write leaves
    | Release
    | Crash

  /** The id the loop tries: after `bundleCountPerDay` turns a random one from the next hundred. */
  function NextId(cfg: Config, id: nat, loops: nat, rand: nat): nat
  {
    if loops + 1 > cfg.bundleCountPerDay then cfg.bundleCountPerDay + rand % 100 else id
  }

  function NewJob(cfg: Config, w: Writer, batch: bool, data: seq<byte>, user: seq<byte>, junk: seq<byte>): Job
    requires |junk| == Total(|data|)
  {
    var url := BuildUrl(cfg, (if batch then w.info.(size := |data|) else w.info));
    Job(batch, url, data, user, junk, RecordBytes(junk, url, data, user))
  }

  /** Bundle ids stay in the range of a C int. */
  predicate IdsOk(c: Session)
  {
    match c
    case Trying(_, id, _) => id < INT_MAX
    case Retrying(_, id, _) => id < INT_MAX
    case Owning(_, id, _) => id < INT_MAX
    case Making(_, id, _) => id < INT_MAX
    case Heading(_, id, _, _) => id < INT_MAX
    case Open(w) => 0 <= w.info.id < INT_MAX
    case Storing(w, _, _) => 0 <= w.info.id < INT_MAX
    case _ => true
  }

  predicate Enabled(cfg: Config, s: State, p: nat, e: Event)
  {
    var c := SessionOf(s, p);
    && IdsOk(c)
    && match e
    case Begin(req, start) => c.Idle? && start < INT_MAX
    case TryLock(rand, won) =>
      && c.Trying?
      && (won ==> LockOf(cfg, NextId(cfg, c.id, c.loops, rand)) !in s.locks)
    case RetryLock(dirMade, won) =>
      && c.Retrying?
      && (dirMade && won ==> LockOf(cfg, c.id) !in s.locks)
      && (dirMade && !won ==> c.id + 1 < INT_MAX)
    case Stat(failed) => c.Owning? && c.id + 1 < INT_MAX
    case NoParent => c.Making?
    case Create(made, header) => c.Making? && |header| == BUNDLE_HEADER
    case HeadChunk(n) => c.Heading? && c.done + n <= |c.header|
    case HeadDone => c.Heading?
    case StartWrite(batch, data, user, junk) =>
      && c.Open? && !c.w.spent
      && Total(|data|) <= INT_MAX && |junk| == Total(|data|)
      && c.w.info.offset % 0x1_0000_0000 != 0xffff_ffff   // otherwise lseek looks like an error
    case Refused(batch, size) => c.Open? && !c.w.spent
    case StoreChunk(n) => c.Storing? && c.done + n <= |c.job.bytes|
    case StoreDone(errno) => c.Storing?
    case Release => c.Open?
    case Crash => !c.Idle? && !c.Dead?
  }

  /** The Writer that Allocate returns at the end of its loop. */
  function NewWriter(cfg: Config, req: Request, id: nat, offset: nat): Writer
    requires Usable(cfg.levels) && id <= INT_MAX
  {
    Writer(BundleFile(cfg, req.prefix, id), Url.Info(id, offset, req.size, req.prefix, req.postfix), false)
  }

  /** The writer after write(2) returned and `code` is returned to the caller. */
  function AfterWrite(w: Writer, job: Job, code: nat): Writer
  {
    if job.batch then
      var info := w.info.(size := |job.data|);
      w.(info := if code == 0 then info.(offset := w.info.offset + Total(|job.data|)) else info)
    else
      w.(spent := code == 0)
  }

  /** The Info whose URL the caller gets for this write. */
  function InfoOf(w: Writer, job: Job): Url.Info
  {
    if job.batch then w.info.(size := |job.data|) else w.info
  }

  function Goto(s: State, p: nat, c: Session): State
  {
    s.(sessions := s.sessions[p := c])
  }

  function Unlocked(cfg: Config, s: State, id: nat): State
  {
    s.(locks := s.locks - {LockOf(cfg, id)})
  }

  function Content(s: State, f: Path): seq<byte>
  {
    if f in s.files then s.files[f] else []
  }

  /** write(2) has returned after `done` bytes: a full write returns 0, a short one returns errno. */
  function Finish(s: State, p: nat, w: Writer, job: Job, done: nat, errno: nat): State
  {
    var code := if done == |job.bytes| then 0 else errno;
    var acks := if code == 0 then s.acks + [Ack(w.file, InfoOf(w, job), job, done)] else s.acks;
    Goto(s.(acks := acks), p, Open(AfterWrite(w, job, code)))
  }

  /** The state after event e of session p. */
  function Apply(cfg: Config, s: State, p: nat, e: Event): State
    requires Runnable(cfg) && Enabled(cfg, s, p, e)
  {
    var c := SessionOf(s, p);
    match e
    case Begin(req, start) => Goto(s, p, Trying(Stripped(req), start, 0))
    case TryLock(rand, won) =>
      var id := NextId(cfg, c.id, c.loops, rand);
      if won then
        Goto(s.(locks := s.locks + {LockOf(cfg, id)}), p, Owning(c.req, id, c.loops + 1))
      else
        Goto(s, p, Retrying(c.req, id, c.loops + 1))
    case RetryLock(dirMade, won) =>
      if !dirMade then Goto(s, p, Idle)
      else if won then Goto(s.(locks := s.locks + {LockOf(cfg, c.id)}), p, Owning(c.req, c.id, c.loops))
      else Goto(s, p, Trying(c.req, c.id + 1, c.loops))
    case Stat(failed) =>
      var f := BundleFile(cfg, c.req.prefix, c.id);
      if failed then
        Goto(s, p, Trying(c.req, c.id + 1, c.loops))      // the FileLock object is leaked: still locked
      else if f !in s.files then
        Goto(s, p, Making(c.req, c.id, c.loops))
      else if |s.files[f]| + Total(c.req.size) > cfg.maxBundleSize then
        Goto(Unlocked(cfg, s, c.id), p, Trying(c.req, c.id + 1, c.loops))
      else
        Goto(s, p, Open(NewWriter(cfg, c.req, c.id, |s.files[f]|)))
    case NoParent => Goto(Unlocked(cfg, s, c.id), p, Idle)
    case Create(made, header) =>
      var f := BundleFile(cfg, c.req.prefix, c.id);
      if made then Goto(s.(files := s.files[f := []]), p, Heading(c.req, c.id, header, 0))
      else Goto(Unlocked(cfg, s, c.id), p, Idle)
    case HeadChunk(n) =>
      var f := BundleFile(cfg, c.req.prefix, c.id);
      Goto(s.(files := s.files[f := WriteAt(Content(s, f), c.done, c.header[c.done..c.done + n])]), p,
           Heading(c.req, c.id, c.header, c.done + n))
    case HeadDone =>
      if c.done == |c.header| then Goto(s, p, Open(NewWriter(cfg, c.req, c.id, BUNDLE_HEADER)))
      else Goto(Unlocked(cfg, s, c.id), p, Idle)
    case StartWrite(batch, data, user, junk) =>
      Goto(s, p, Storing(c.w, NewJob(cfg, c.w, batch, data, user, junk), 0))
    case Refused(batch, size) =>
      Goto(s, p, Open(if batch then c.w.(info := c.w.info.(size := size)) else c.w))
    case StoreChunk(n) =>
      Goto(s.(files := s.files[c.w.file := WriteAt(Content(s, c.w.file), c.w.info.offset + c.done, c.job.bytes[c.done..c.done + n])]),
           p, Storing(c.w, c.job, c.done + n))
    case StoreDone(errno) => Finish(s, p, c.w, c.job, c.done, errno)
    case Release => Goto(Unlocked(cfg, s, c.w.info.id), p, Idle)
    case Crash => Goto(s, p, Dead)
  }

  // ----- runs -----

  /** Any earlier contents, any lock files left behind, and no session yet. */
  function Init(files: map<Path, seq<byte>>, locks: set<Path>): State
  {
    State(files, locks, map[], [])
  }

  /** The state after the events in order, each by the session it names; None if one is not enabled. */
  function Exec(cfg: Config, s: State, events: seq<(nat, Event)>): Option<State>
    requires Runnable(cfg)
    decreases |events|
  {
    if events == [] then Some(s)
    else if Enabled(cfg, s, events[0].0, events[0].1) then
      Exec(cfg, Apply(cfg, s, events[0].0, events[0].1), events[1..])
    else None
  }

  // ----- reading -----

  const ENOENT := 2
  const BAD_URL := -1

  /** Reader::Read on a URL, on the files of one moment. */
  function ReadUrl(cfg: Config, files: map<Path, seq<byte>>, url: string): ReadResult
    requires Usable(cfg.levels)
  {
    if url == [] then ReadError(BAD_URL)
    else match ExtractUrl(cfg, url)
      case None => ReadError(BAD_URL)
      case Some(info) =>
        var root := PathJoin(cfg.storage, info.prefix);
        var file := PathJoin(root, Bid2Filename(info.id % 0x1_0000_0000, cfg.levels));
        if file !in files then ReadError(ENOENT)
        else ReadAt(files[file], info.offset, info.size, info.size)
  }
}
