/** Why the settings must keep file_count_level_1 at most file_count_level_2: a run in which two writes
    that both return 0 put their records into the same bytes. */
module Overlap {
  import opened Paths
  import opened Bytes
  import opened Text
  import opened Record
  import opened Store
  import opened WriterCode
  import StoreSafety
  import Url

  /** Some run takes the first state to the second. */
  ghost predicate Leads(cfg: Config, s: State, end: State)
    requires Runnable(cfg)
  {
    exists events :: Exec(cfg, s, events) == Some(end)
  }

  lemma LeadsOn(cfg: Config, s: State, mid: State, end: State)
    requires Runnable(cfg) && Leads(cfg, s, mid) && Leads(cfg, mid, end)
    ensures Leads(cfg, s, end)
  {
    hide Exec;
    var a: seq<(nat, Event)> :| Exec(cfg, s, a) == Some(mid);
    var b: seq<(nat, Event)> :| Exec(cfg, mid, b) == Some(end);
    StoreSafety.ExecConcat(cfg, s, a, b);
    assert Exec(cfg, s, a + b) == Some(end);
  }

  /** The system calls of an Allocate that takes the lock at once and finds the bundle. */
  function OpenEvents(p: nat, req: Request, id: nat): seq<(nat, Event)>
  {
    [(p, Begin(req, id))] + [(p, TryLock(0, true))] + [(p, Stat(false))]
  }

  lemma ThreeMoves(m: map<nat, Session>, p: nat, c: Session, d: Session, e: Session)
    ensures m[p := c][p := d][p := e] == m[p := e]
  {
  }

  lemma OpenExisting(cfg: Config, s: State, p: nat, req: Request, id: nat)
    requires Runnable(cfg) && cfg.bundleCountPerDay > 0 && SessionOf(s, p) == Idle && !Rooted(req)
    requires id + 1 < INT_MAX && LockOf(cfg, id) !in s.locks
    requires var f := BundleFile(cfg, req.prefix, id); f in s.files && |s.files[f]| + Total(req.size) <= cfg.maxBundleSize
    ensures var w := NewWriter(cfg, req, id, |s.files[BundleFile(cfg, req.prefix, id)]|);
            Leads(cfg, s, State(s.files, s.locks + {LockOf(cfg, id)}, s.sessions[p := Open(w)], s.acks))
  {
    hide BundleFile, LockFile, Exec, WriteAt, RecordBytes;
    var none: seq<(nat, Event)> := [];
    var w := NewWriter(cfg, req, id, |s.files[BundleFile(cfg, req.prefix, id)]|);
    StoreSafety.ExecNothing(cfg, s);
    StoreSafety.ExecSnoc(cfg, s, none, p, Begin(req, id));
    assert none + [(p, Begin(req, id))] == [(p, Begin(req, id))];
    StoreSafety.ExecSnoc(cfg, s, [(p, Begin(req, id))], p, TryLock(0, true));
    StoreSafety.ExecSnoc(cfg, s, [(p, Begin(req, id))] + [(p, TryLock(0, true))], p, Stat(false));
    ThreeMoves(s.sessions, p, Trying(req, id, 0), Owning(req, id, 1), Open(w));
    assert Exec(cfg, s, OpenEvents(p, req, id))
        == Some(State(s.files, s.locks + {LockOf(cfg, id)}, s.sessions[p := Open(w)], s.acks));
  }

  /** A complete write of an open session. */
  lemma WriteAll(cfg: Config, s: State, p: nat, w: Writer, data: seq<byte>, junk: seq<byte>)
    returns (end: State)
    requires Runnable(cfg) && SessionOf(s, p) == Open(w) && !w.spent && 0 <= w.info.id < INT_MAX && w.file in s.files
    requires Total(|data|) <= INT_MAX && |junk| == Total(|data|) && w.info.offset % 0x1_0000_0000 != 0xffff_ffff
    ensures Leads(cfg, s, end)
    ensures var job := NewJob(cfg, w, false, data, [], junk);
            && end.files == s.files[w.file := WriteAt(s.files[w.file], w.info.offset, job.bytes)]
            && end.acks == s.acks + [Ack(w.file, w.info, job, |job.bytes|)]
            && (forall q :: q != p ==> SessionOf(end, q) == SessionOf(s, q))
  {
    hide BundleFile, LockFile, WriteAt, RecordBytes, BuildUrl, Exec;
    var env := WriteEnv(false, 0, Total(|data|), 0);
    WriteExec(cfg, s, p, w, false, data, [], junk, env);
    var job := NewJob(cfg, w, false, data, [], junk);
    assert job.bytes[..env.out] == job.bytes;
    OthersStay(cfg, s, p, WriteEvents(p, false, data, [], junk, env, false));
    end := Exec(cfg, s, WriteEvents(p, false, data, [], junk, env, false)).value;
  }

  /** A session changes only by its own events. */
  lemma {:induction false} OthersStay(cfg: Config, s: State, p: nat, events: seq<(nat, Event)>)
    requires Runnable(cfg) && forall i :: 0 <= i < |events| ==> events[i].0 == p
    ensures Exec(cfg, s, events).Some? ==> forall q :: q != p ==> SessionOf(Exec(cfg, s, events).value, q) == SessionOf(s, q)
    decreases |events|
  {
    hide BundleFile, LockFile, WriteAt, RecordBytes, BuildUrl, Enabled;
    if events != [] && Enabled(cfg, s, events[0].0, events[0].1) {
      OneStays(cfg, s, p, events[0].1);
      hide Apply;
      OthersStay(cfg, Apply(cfg, s, p, events[0].1), p, events[1..]);
    }
  }

  lemma OneStays(cfg: Config, s: State, p: nat, e: Event)
    requires Runnable(cfg) && Enabled(cfg, s, p, e)
    ensures forall q :: q != p ==> SessionOf(Apply(cfg, s, p, e), q) == SessionOf(s, q)
  {
    hide BundleFile, LockFile, WriteAt, RecordBytes, BuildUrl;
  }

  /** Sessions 0 and 1 both open the bundle, under ids that lock different files. */
  lemma OpenBoth(cfg: Config, req: Request, content: seq<byte>) returns (end: State)
    requires Runnable(cfg) && cfg.levels.level1 > cfg.levels.level2 && cfg.levels.level2 + 1 < INT_MAX && cfg.bundleCountPerDay > 0
    requires !Rooted(req) && |content| + Total(req.size) <= cfg.maxBundleSize
    ensures var f, n := BundleFile(cfg, req.prefix, 0), cfg.levels.level2;
            && Leads(cfg, Init(map[f := content], {}), end) && end.files == map[f := content] && end.acks == []
            && SessionOf(end, 0) == Open(Writer(f, Url.Info(0, |content|, req.size, req.prefix, req.postfix), false))
            && SessionOf(end, 1) == Open(Writer(f, Url.Info(n, |content|, req.size, req.prefix, req.postfix), false))
  {
    hide LockFile, PathJoin, Bid2Filename, Leads, WriteAt, RecordBytes, Usable;
    var f, n := BundleFile(cfg, req.prefix, 0), cfg.levels.level2;
    StoreSafety.SmallAndEqual(cfg.levels);
    LockNamesId(LockDir(cfg), 0, n);
    assert BundleFile(cfg, req.prefix, n) == f;
    hide BundleFile;
    var s0 := Init(map[f := content], {});
    var w, w' := NewWriter(cfg, req, 0, |content|), NewWriter(cfg, req, n, |content|);
    OpenExisting(cfg, s0, 0, req, 0);
    var mid := State(s0.files, s0.locks + {LockOf(cfg, 0)}, s0.sessions[0 := Open(w)], s0.acks);
    OpenExisting(cfg, mid, 1, req, n);
    end := State(mid.files, mid.locks + {LockOf(cfg, n)}, mid.sessions[1 := Open(w')], mid.acks);
    LeadsOn(cfg, s0, mid, end);
  }

  /** Two sessions that have one file open at one offset write one after the other. */
  lemma WriteBoth(cfg: Config, s: State, w: Writer, w': Writer, content: seq<byte>, a: seq<byte>, b: seq<byte>,
                  junk: seq<byte>, junk': seq<byte>) returns (end: State)
    requires Runnable(cfg) && SessionOf(s, 0) == Open(w) && SessionOf(s, 1) == Open(w')
    requires w.file == w'.file && s.files == map[w.file := content] && s.acks == []
    requires !w.spent && !w'.spent && 0 <= w.info.id < INT_MAX && 0 <= w'.info.id < INT_MAX
    requires w.info.offset == w'.info.offset == |content| && |content| % 0x1_0000_0000 != 0xffff_ffff
    requires Total(|a|) <= INT_MAX && Total(|b|) <= INT_MAX && |junk| == Total(|a|) && |junk'| == Total(|b|)
    ensures Leads(cfg, s, end)
    ensures var job, job' := NewJob(cfg, w, false, a, [], junk), NewJob(cfg, w', false, b, [], junk');
            && end.acks == [Ack(w.file, w.info, job, |job.bytes|), Ack(w.file, w'.info, job', |job'.bytes|)]
            && job.data == a && job'.data == b
            && end.files == map[w.file := WriteAt(WriteAt(content, |content|, job.bytes), |content|, job'.bytes)]
  {
    hide LockFile, BundleFile, Leads, WriteAt, RecordBytes, Usable, BuildUrl;
    var job, job' := NewJob(cfg, w, false, a, [], junk), NewJob(cfg, w', false, b, [], junk');
    var mid := WriteAll(cfg, s, 0, w, a, junk);
    StoreSafety.OneFile(w.file, content, WriteAt(content, |content|, job.bytes), []);
    end := WriteAll(cfg, mid, 1, w', b, junk');
    StoreSafety.OneFile(w.file, mid.files[w.file], end.files[w.file], []);
    LeadsOn(cfg, s, mid, end);
  }

  /** For all settings with level1 > level2 (and room for the example): sessions 0 and 1 open one bundle
      under the ids 0 and level2, write any two contents, and both are told that it worked. The records
      have the same offset, so where the second went out nothing of the first is left. */
  lemma RecordsOverlap(cfg: Config, req: Request, content: seq<byte>, a: seq<byte>, b: seq<byte>,
                       junk: seq<byte>, junk': seq<byte>)
    returns (s: State)
    requires Runnable(cfg) && cfg.levels.level1 > cfg.levels.level2 && cfg.levels.level2 + 1 < INT_MAX && cfg.bundleCountPerDay > 0
    requires !Rooted(req) && |content| + Total(req.size) <= cfg.maxBundleSize
    requires |content| % 0x1_0000_0000 != 0xffff_ffff
    requires Total(|a|) <= INT_MAX && Total(|b|) <= INT_MAX && |junk| == Total(|a|) && |junk'| == Total(|b|)
    ensures Leads(cfg, Init(map[BundleFile(cfg, req.prefix, 0) := content], {}), s)
    ensures |s.acks| == 2 && s.acks[0].job.data == a && s.acks[1].job.data == b
    ensures forall i :: 0 <= i < 2 ==>
              s.acks[i].out == |s.acks[i].job.bytes| && s.acks[i].file == BundleFile(cfg, req.prefix, 0)
              && s.acks[i].info.offset == |content|
    ensures s.files == map[BundleFile(cfg, req.prefix, 0) :=
              WriteAt(WriteAt(content, |content|, s.acks[0].job.bytes), |content|, s.acks[1].job.bytes)]
  {
    hide LockFile, BundleFile, Leads, WriteAt, RecordBytes, Usable, NewJob;
    var s0 := Init(map[BundleFile(cfg, req.prefix, 0) := content], {});
    var s1 := OpenBoth(cfg, req, content);
    s := WriteBoth(cfg, s1, SessionOf(s1, 0).w, SessionOf(s1, 1).w, content, a, b, junk, junk');
    LeadsOn(cfg, s0, s1, s);
  }
}
