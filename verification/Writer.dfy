/** The store's own code, step by step: FileLock, the record buffer, Write, BatchWrite and the
    Allocate loop, working on a shared file system object. Each method is tied to the protocol of
    module Store: what it does is what a sequence of protocol events does.
  */
module WriterCode {
  import opened Text
  import opened Bytes
  import opened Paths
  import opened Record
  import opened Store
  import Url
  import StoreSafety

  class FileSystem {
    var files: map<Path, seq<byte>>
    var locks: set<Path>
  }

  /** bundle/filelock.h. */
  class FileLock {
    const lockfile: Path
    var locked: bool

    constructor (name: Path)
      ensures lockfile == name && !locked
    {
      lockfile := name;
      locked := false;
    }

    /** open(O_EXCL | O_CREAT); `allowed` is false when it fails although the name is free. */
    method TryLock(fs: FileSystem, allowed: bool) returns (won: bool)
      modifies this, fs`locks
      ensures won == locked == (allowed && lockfile !in old(fs.locks))
      ensures fs.locks == if won then old(fs.locks) + {lockfile} else old(fs.locks)
    {
      locked := allowed && lockfile !in fs.locks;
      if locked {
        fs.locks := fs.locks + {lockfile};
      }
      won := locked;
    }

    /** Removes the lock file if this object locked it. The flag stays set. */
    method Unlock(fs: FileSystem)
      modifies fs`locks
      ensures fs.locks == if locked then old(fs.locks) - {lockfile} else old(fs.locks)
    {
      if locked {
        fs.locks := fs.locks - {lockfile};
      }
    }

    /** The destructor. */
    method Destroy(fs: FileSystem)
      modifies fs`locks
      ensures fs.locks == if locked then old(fs.locks) - {lockfile} else old(fs.locks)
    {
      if locked {
        Unlock(fs);
      }
    }
  }

  /** An explicit Unlock followed by the destructor frees the lock that another object has taken in
      between: the store never calls Unlock itself, and must not. */
  method UnlockThenDestroyFreesAnother(fs: FileSystem, name: Path) returns (other: FileLock)
    requires name !in fs.locks
    modifies fs`locks
    ensures other.lockfile == name && other.locked && name !in fs.locks
  {
    var first := new FileLock(name);
    var won := first.TryLock(fs, true);
    first.Unlock(fs);
    other := new FileLock(name);
    won := other.TryLock(fs, true);
    first.Destroy(fs);
  }

  // ----- the record buffer -----

  /** The order in which the header fields are stored does not matter. */
  lemma PutHeader(junk: seq<byte>, a: seq<byte>, b: seq<byte>, c: seq<byte>, d: seq<byte>, u: seq<byte>)
    requires |a| == |b| == |c| == |d| == 4 && |u| == URL_SIZE && |junk| >= FILE_HEADER
    ensures Put(Put(Put(Put(Put(junk, 0, a), 12, d), 4, b), 8, c), 16, u)
            == a + b + c + d + u + junk[16 + URL_SIZE..]
  {
    var x1 := Put(junk, 0, a);
    var x2 := Put(x1, 12, d);
    assert x2[..4] == a && x2[12..16] == d && x2[16..] == junk[16..];
    var x3 := Put(x2, 4, b);
    assert x3[8..] == x2[8..] && x3[12..16] == x2[12..16] && x3[16..] == x2[16..];
    assert x3[..8] == a + b && x3[12..16] == d && x3[16..] == junk[16..];
    var x4 := Put(x3, 8, c);
    assert x4[..16] == a + b + c + d && x4[16..] == junk[16..];
  }

  lemma PutRest(head: seq<byte>, junk: seq<byte>, user: seq<byte>, data: seq<byte>)
    requires |head| == 16 + URL_SIZE && |junk| == Total(|data|)
    ensures var t := if |user| < USER_SIZE then |user| else USER_SIZE;
            Put(Put(head + junk[16 + URL_SIZE..], 16 + URL_SIZE, user[..t]), FILE_HEADER, data)
            == head + Overlay(junk[16 + URL_SIZE..FILE_HEADER], user) + data + junk[FILE_HEADER + |data|..]
  {
    var t := if |user| < USER_SIZE then |user| else USER_SIZE;
    var o := Overlay(junk[16 + URL_SIZE..FILE_HEADER], user);
    assert o == user[..t] + junk[16 + URL_SIZE + t..FILE_HEADER];
    assert Put(head + junk[16 + URL_SIZE..], 16 + URL_SIZE, user[..t]) == head + o + junk[FILE_HEADER..];
  }

  /** Write fills a fresh, uninitialised buffer: header fields, URL, user data, content. */
  method FillRecord(content: array<byte>, url: string, data: seq<byte>, user: seq<byte>)
    requires content.Length == Total(|data|)
    modifies content
    ensures content[..] == RecordBytes(old(content[..]), url, data, user)
  {
    hide ToLE, StrNCopy, Put, Overlay, Align1K;
    ghost var junk := content[..];
    Copy(content, 0, ToLE(MAGIC, 4));
    Copy(content, 12, ToLE(|data|, 4));
    Copy(content, 4, ToLE(VERSION, 4));
    Copy(content, 8, ToLE(FILE_NORMAL, 4));
    Copy(content, 16, StrNCopy(OfString(url), URL_SIZE));
    var t := if |user| < USER_SIZE then |user| else USER_SIZE;
    Copy(content, 16 + URL_SIZE, user[..t]);
    Copy(content, FILE_HEADER, data);
    PutHeader(junk, ToLE(MAGIC, 4), ToLE(VERSION, 4), ToLE(FILE_NORMAL, 4), ToLE(|data|, 4), StrNCopy(OfString(url), URL_SIZE));
    PutRest(HeaderStart(url, |data|), junk, user, data);
  }

  function HeaderStart(url: string, size: nat): seq<byte>
  {
    ToLE(MAGIC, 4) + ToLE(VERSION, 4) + ToLE(FILE_NORMAL, 4) + ToLE(size, 4) + StrNCopy(OfString(url), URL_SIZE)
  }

  // ----- Write and BatchWrite -----

  /** Session p of protocol state s is this Writer on this file system. */
  ghost predicate IsSession(cfg: Config, fs: FileSystem, s: State, p: nat, w: Writer)
    reads fs
  {
    && Runnable(cfg)
    && s.files == fs.files && s.locks == fs.locks
    && SessionOf(s, p) == Open(w) && 0 <= w.info.id < INT_MAX && w.file in s.files
  }

  /** The protocol events of one write call. */
  function WriteEvents(p: nat, batch: bool, data: seq<byte>, user: seq<byte>, junk: seq<byte>, env: WriteEnv,
                       refused: bool): seq<(nat, Event)>
  {
    if refused then [(p, Refused(batch, |data|))]
    else [(p, StartWrite(batch, data, user, junk))] + [(p, StoreChunk(env.out))] + [(p, StoreDone(env.errno))]
  }

  /** What the call returned is what the history says about it. */
  predicate Acknowledged(cfg: Config, s: State, events: seq<(nat, Event)>, code: nat, written: nat)
    requires Runnable(cfg) && Exec(cfg, s, events).Some?
  {
    var acks := Exec(cfg, s, events).value.acks;
    if code == 0 then
      && |acks| == |s.acks| + 1 && acks[..|s.acks|] == s.acks
      && var a := acks[|s.acks|]; written == if a.out == |a.job.bytes| then |a.job.data| else 0
    else
      acks == s.acks && written == 0
  }

  lemma RefusedExec(cfg: Config, s: State, p: nat, w: Writer, batch: bool, size: nat)
    requires Runnable(cfg) && SessionOf(s, p) == Open(w) && !w.spent && 0 <= w.info.id < INT_MAX
    ensures Exec(cfg, s, [(p, Refused(batch, size))])
            == Some(Goto(s, p, Open(if batch then w.(info := w.info.(size := size)) else w)))
  {
    hide BundleFile, LockFile, WriteAt, RecordBytes, BuildUrl;
    var events := [(p, Refused(batch, size))];
    assert events[1..] == [];
    StoreSafety.ExecNothing(cfg, Apply(cfg, s, p, Refused(batch, size)));
  }

  /** The three events of a write, one by one. */
  lemma WriteSteps(cfg: Config, s: State, p: nat, w: Writer, start: Event, out: nat, errno: nat)
    requires Runnable(cfg) && SessionOf(s, p) == Open(w) && w.file in s.files
    requires start.StartWrite? && Enabled(cfg, s, p, start) && out <= |start.junk|
    ensures var job := NewJob(cfg, w, start.batch, start.data, start.user, start.junk);
            var s1 := Goto(s, p, Storing(w, job, 0));
            var files := s.files[w.file := WriteAt(s.files[w.file], w.info.offset, job.bytes[..out])];
            var s2 := Goto(s.(files := files), p, Storing(w, job, out));
            && Apply(cfg, s, p, start) == s1
            && Enabled(cfg, s1, p, StoreChunk(out)) && Apply(cfg, s1, p, StoreChunk(out)) == s2
            && Enabled(cfg, s2, p, StoreDone(errno)) && Apply(cfg, s2, p, StoreDone(errno)) == Finish(s2, p, w, job, out, errno)
  {
    hide BundleFile, LockFile, WriteAt, RecordBytes, BuildUrl, Finish;
    var job := NewJob(cfg, w, start.batch, start.data, start.user, start.junk);
    assert job.bytes[0..0 + out] == job.bytes[..out];
    assert s.sessions[p := Storing(w, job, 0)][p := Storing(w, job, out)] == s.sessions[p := Storing(w, job, out)];
  }

  lemma WriteExec(cfg: Config, s: State, p: nat, w: Writer, batch: bool, data: seq<byte>, user: seq<byte>,
                  junk: seq<byte>, env: WriteEnv)
    requires Runnable(cfg) && SessionOf(s, p) == Open(w) && !w.spent && 0 <= w.info.id < INT_MAX && w.file in s.files
    requires Total(|data|) <= INT_MAX && |junk| == Total(|data|) && env.out <= |junk|
    requires w.info.offset % 0x1_0000_0000 != 0xffff_ffff
    ensures var job := NewJob(cfg, w, batch, data, user, junk);
            var end := Exec(cfg, s, WriteEvents(p, batch, data, user, junk, env, false));
            && end.Some?
            && end.value.files == s.files[w.file := WriteAt(s.files[w.file], w.info.offset, job.bytes[..env.out])]
            && end.value.locks == s.locks
            && SessionOf(end.value, p) == Open(AfterWrite(w, job, if env.out == |job.bytes| then 0 else env.errno))
            && end.value.acks == if env.out == |job.bytes| || env.errno == 0
                                 then s.acks + [Ack(w.file, InfoOf(w, job), job, env.out)] else s.acks
  {
    hide BundleFile, LockFile, WriteAt, RecordBytes, BuildUrl, Exec, Apply;
    var start, chunk, done := StartWrite(batch, data, user, junk), StoreChunk(env.out), StoreDone(env.errno);
    assert Enabled(cfg, s, p, start);
    hide Enabled;
    var none: seq<(nat, Event)> := [];
    WriteSteps(cfg, s, p, w, start, env.out, env.errno);
    StoreSafety.ExecNothing(cfg, s);
    StoreSafety.ExecSnoc(cfg, s, none, p, start);
    assert none + [(p, start)] == [(p, start)];
    StoreSafety.ExecSnoc(cfg, s, [(p, start)], p, chunk);
    StoreSafety.ExecSnoc(cfg, s, [(p, start)] + [(p, chunk)], p, done);
  }

  /** How the environment answers one write call: open or lseek may fail; write(2) puts out `out`
      bytes; a short write leaves `errno`, which can be 0. */
  datatype WriteEnv = WriteEnv(refused: bool, code: nat, out: nat, errno: nat)

  class WriterObject {
    const cfg: Config
    var filename: Path
    var info: Url.Info
    var filelock: FileLock
    ghost var spent: bool

    constructor (cfg: Config, w: Writer, lock: FileLock)
      ensures this.cfg == cfg && filelock == lock && Abs() == w
    {
      this.cfg := cfg;
      filename := w.file;
      info := w.info;
      filelock := lock;
      spent := w.spent;
    }

    /** This object as the protocol sees it. */
    ghost function Abs(): Writer
      reads this
    {
      Writer(filename, info, spent)
    }

    function EnsureUrl(): string
      reads this
    {
      BuildUrl(cfg, info)
    }

    /** The static Write: fill the buffer, write it at the offset. */
    method WriteBytes(fs: FileSystem, url: string, data: seq<byte>, user: seq<byte>, content: array<byte>, env: WriteEnv)
      returns (code: nat, written: nat)
      requires filename in fs.files && content.Length == Total(|data|) <= INT_MAX
      requires env.refused ==> env.code != 0
      requires env.out <= content.Length
      modifies fs`files, content
      ensures env.refused || info.offset % 0x1_0000_0000 == 0xffff_ffff ==> code != 0 && written == 0 && fs.files == old(fs.files)
      ensures !env.refused && info.offset % 0x1_0000_0000 != 0xffff_ffff ==>
                var bytes := RecordBytes(old(content[..]), url, data, user);
                && fs.files == old(fs.files)[filename := WriteAt(old(fs.files[filename]), info.offset, bytes[..env.out])]
                && code == (if env.out == |bytes| then 0 else env.errno)
                && written == (if env.out == |bytes| then |data| else 0)
                && (|old(fs.files[filename])| <= info.offset ==>
                      (OnDisk(fs.files[filename], info.offset, bytes) <==> env.out == |bytes|))
      ensures code == 0 && data != [] ==> (written == |data| <==> env.out == content.Length)
    {
      written := 0;
      if env.refused {
        return env.code, 0;
      }
      if info.offset % 0x1_0000_0000 == 0xffff_ffff {
        return EIO, 0;
      }
      FillRecord(content, url, data, user);
      if |fs.files[filename]| <= info.offset {
        OnDiskIff(fs.files[filename], info.offset, content[..], env.out);
      }
      fs.files := fs.files[filename := WriteAt(fs.files[filename], info.offset, content[..][..env.out])];
      if env.out != content.Length {
        return env.errno, 0;
      }
      code, written := 0, |data|;
    }

    /** The protocol event for a call that gets no further than open or lseek. */
    ghost predicate RefusedBy(env: WriteEnv)
      reads this
    {
      env.refused || info.offset % 0x1_0000_0000 == 0xffff_ffff
    }

    method Write(fs: FileSystem, data: seq<byte>, user: seq<byte>, content: array<byte>, env: WriteEnv,
                 ghost s: State, ghost p: nat) returns (code: nat, written: nat, ghost events: seq<(nat, Event)>)
      requires IsSession(cfg, fs, s, p, Abs()) && !spent && Total(|data|) <= INT_MAX
      requires content.Length == Total(|data|) && env.out <= content.Length && (env.refused ==> env.code != 0)
      modifies fs`files, content, this`spent
      ensures events == WriteEvents(p, false, data, user, old(content[..]), env, old(RefusedBy(env)))
      ensures Exec(cfg, s, events).Some?
              && IsSession(cfg, fs, Exec(cfg, s, events).value, p, Abs())
      ensures Acknowledged(cfg, s, events, code, written)
      ensures code == 0 && data != [] ==> (written == |data| <==> env.out == content.Length)
    {
      hide RecordBytes, WriteAt, BuildUrl, Exec, BundleFile, LockFile;
      events := WriteEvents(p, false, data, user, content[..], env, RefusedBy(env));
      ghost var w, junk := Abs(), content[..];
      var url := EnsureUrl();
      code, written := WriteBytes(fs, url, data, user, content, env);
      if RefusedBy(env) {
        RefusedExec(cfg, s, p, w, false, |data|);
      } else {
        WriteExec(cfg, s, p, w, false, data, user, junk, env);
      }
      spent := code == 0;
    }

    method BatchWrite(fs: FileSystem, data: seq<byte>, user: seq<byte>, content: array<byte>, env: WriteEnv,
                      ghost s: State, ghost p: nat)
      returns (code: nat, written: nat, url: string, ghost events: seq<(nat, Event)>)
      requires IsSession(cfg, fs, s, p, Abs()) && !spent && Total(|data|) <= INT_MAX
      requires content.Length == Total(|data|) && env.out <= content.Length && (env.refused ==> env.code != 0)
      modifies fs`files, content, this`info
      ensures events == WriteEvents(p, true, data, user, old(content[..]), env, old(RefusedBy(env)))
      ensures Exec(cfg, s, events).Some?
              && IsSession(cfg, fs, Exec(cfg, s, events).value, p, Abs())
      ensures Acknowledged(cfg, s, events, code, written)
      ensures code == 0 && data != [] ==> (written == |data| <==> env.out == content.Length)
      ensures code == 0 ==> url == Exec(cfg, s, events).value.acks[|s.acks|].job.url
    {
      hide RecordBytes, WriteAt, BuildUrl, Exec, BundleFile, LockFile;
      events := WriteEvents(p, true, data, user, content[..], env, RefusedBy(env));
      ghost var w, junk := Abs(), content[..];
      info := info.(size := |data|);
      url := EnsureUrl();
      code, written := WriteBytes(fs, url, data, user, content, env);
      if RefusedBy(env) {
        RefusedExec(cfg, s, p, w, true, |data|);
      } else {
        WriteExec(cfg, s, p, w, true, data, user, junk, env);
      }
      if code == 0 {
        info := info.(offset := info.offset + Total(|data|));
      }
    }
  }

  /** What reading the URL of a Writer comes down to. */
  lemma ReadUrlIs(cfg: Config, files: map<Path, seq<byte>>, w: Writer)
    requires Usable(cfg.levels) && 0 <= w.info.id <= INT_MAX && w.file == BundleFile(cfg, w.info.prefix, w.info.id)
    requires w.file in files && StoreSafety.Readable(cfg, w.info)
    ensures ReadUrl(cfg, files, BuildUrl(cfg, w.info)) == ReadAt(files[w.file], w.info.offset, w.info.size, w.info.size)
  {
    hide StoreSafety.Readable, ReadAt, BuildUrl, ExtractUrl, Bid2Filename, PathJoin;
    StoreSafety.UrlParsesBack(cfg, w.info);
  }

  /** Two plain Writes of one Writer, the first one complete. The object still has its offset and its URL,
      so the second lands on the first record. From then on the URL reads the first content back exactly
      when the length field still allows it (that of the second record, once 16 bytes are out) and the second
      content has the same bytes, as far as it went out. */
  method WriteTwice(fs: FileSystem, w: WriterObject, a: seq<byte>, user: seq<byte>, content: array<byte>, envA: WriteEnv,
                    b: seq<byte>, user': seq<byte>, content': array<byte>, envB: WriteEnv)
    returns (code: nat, written: nat)
    requires Usable(w.cfg.levels) && 0 <= w.info.id <= INT_MAX && w.filename == BundleFile(w.cfg, w.info.prefix, w.info.id)
    requires w.filename in fs.files && w.info.offset % 0x1_0000_0000 != 0xffff_ffff && w.info.size == |a|
    requires content != content' && content.Length == Total(|a|) <= INT_MAX && content'.Length == Total(|b|) <= INT_MAX
    requires !envA.refused && envA.out == content.Length && !envB.refused && envB.out <= content'.Length
    modifies fs`files, content, content'
    ensures code == (if envB.out == content'.Length then 0 else envB.errno)
    ensures
      var first := RecordBytes(old(content[..]), w.EnsureUrl(), a, user);
      var second := RecordBytes(old(content'[..]), w.EnsureUrl(), b, user')[..envB.out];
      fs.files == old(fs.files)[w.filename := WriteAt(WriteAt(old(fs.files[w.filename]), w.info.offset, first), w.info.offset, second)]
    ensures StoreSafety.Readable(w.cfg, w.info) ==>
      var r := ReadUrl(w.cfg, fs.files, w.EnsureUrl());
      r.ReadOk? && r.data == a
      <==> |a| <= MixedLength(|a|, |b|, envB.out)
           && forall i :: 0 <= i < |a| && FILE_HEADER + i < envB.out ==> i < |b| && b[i] == a[i]
    ensures envB.out >= 16 ==> MixedLength(|a|, |b|, envB.out) == |b|
  {
    hide RecordBytes, WriteAt, BuildUrl, BundleFile, StoreSafety.Readable, ReadUrl, MixedLength;
    MixedLengthIs(|a|, |b|, envB.out);
    var url := w.EnsureUrl();
    ghost var first := RecordBytes(content[..], url, a, user);
    ghost var was := fs.files[w.filename];
    var junk' := content'[..];
    code, written := w.WriteBytes(fs, url, a, user, content, envA);
    assert first[..envA.out] == first;
    code, written := w.WriteBytes(fs, url, b, user', content', envB);
    if StoreSafety.Readable(w.cfg, w.info) {
      ReadUrlIs(w.cfg, fs.files, w.Abs());
      OverwrittenReadsIff(was, w.info.offset, old(content[..]), url, a, user, junk', b, user', envB.out);
    }
  }
}
