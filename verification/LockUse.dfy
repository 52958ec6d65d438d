/** Several FileLock objects on one lock file (bundle/filelock.h): when does one of them remove the
    file that another one made?
  */
module LockUse {
  import opened Text
  import opened Store
  import opened WriterCode

  datatype Use =
    | Try(obj: nat, allowed: bool)   // TryLock; `allowed` is false when open fails although the name is free
    | Unlock(obj: nat)               // Unlock, called by hand
    | Destroy(obj: nat)              // the destructor

  /** The objects whose flag is set, and which of them made the lock file that is there. */
  datatype Holding = Holding(flags: set<nat>, file: Option<nat>)

  function Step(h: Holding, u: Use): Holding
  {
    match u
    case Try(o, allowed) =>
      if allowed && h.file.None? then Holding(h.flags + {o}, Some(o)) else Holding(h.flags - {o}, h.file)
    case Unlock(o) => if o in h.flags then h.(file := None) else h
    case Destroy(o) => if o in h.flags then h.(file := None) else h
  }

  /** Where a sequence of uses leads. */
  function After(us: seq<Use>): Holding
  {
    if us == [] then Holding({}, None) else Step(After(us[..|us| - 1]), us[|us| - 1])
  }

  predicate Gone(us: seq<Use>, o: nat)
  {
    exists k :: 0 <= k < |us| && us[k] == Destroy(o)
  }

  /** No object is used after its destructor. */
  predicate Proper(us: seq<Use>)
  {
    forall n :: 0 <= n < |us| ==> !Gone(us[..n], us[n].obj)
  }

  /** Use n removes the lock file: the flag of its object is set. */
  predicate RemovesAt(us: seq<Use>, n: nat)
    requires n < |us|
  {
    !us[n].Try? && us[n].obj in After(us[..n]).flags
  }

  /** Use n removes the lock file of another object. */
  predicate RobsAt(us: seq<Use>, n: nat)
    requires n < |us|
  {
    RemovesAt(us, n) && After(us[..n]).file.Some? && After(us[..n]).file.value != us[n].obj
  }

  /** Use k is the last TryLock of the object, and it succeeded. */
  predicate LockedAt(us: seq<Use>, o: nat, k: nat)
    requires k < |us|
  {
    us[k] == Try(o, true) && After(us[..k]).file.None? && NoTryAfter(us, o, k)
  }

  predicate NoTryAfter(us: seq<Use>, o: nat, k: nat)
  {
    forall m :: k < m < |us| ==> !(us[m].Try? && us[m].obj == o)
  }

  /** The object has locked, and since then the file was removed, by whomever. */
  predicate LostSince(us: seq<Use>, o: nat)
  {
    exists k, m :: 0 <= k < m < |us| && LockedAt(us, o, k) && RemovesAt(us, m)
  }

  /** The object has locked and since then called Unlock itself. */
  predicate UnlockedByHand(us: seq<Use>, o: nat)
  {
    exists k :: 0 <= k < |us| && us[k] == Unlock(o) && RemovesAt(us, k) && NoTryAfter(us, o, k)
  }

  /** The flag is set, but the file that is there, if any, is not the object's own. */
  predicate Stale(h: Holding, o: nat)
  {
    o in h.flags && h.file != Some(o)
  }

  // ----- the last use -----

  lemma Before(us: seq<Use>, u: Use, n: nat)
    requires n <= |us|
    ensures (us + [u])[..n] == us[..n] && (us + [u])[..|us|] == us
    ensures n < |us| ==> (us + [u])[n] == us[n]
    ensures n < |us| ==> (RemovesAt(us + [u], n) <==> RemovesAt(us, n)) && (RobsAt(us + [u], n) <==> RobsAt(us, n))
  {
  }

  lemma TryAfterSnoc(us: seq<Use>, u: Use, o: nat, k: nat)
    requires k < |us|
    ensures NoTryAfter(us + [u], o, k) <==> NoTryAfter(us, o, k) && !(u.Try? && u.obj == o)
  {
    var all := us + [u];
    if NoTryAfter(all, o, k) {
      forall m | k < m < |us| ensures !(us[m].Try? && us[m].obj == o) {
        assert all[m] == us[m];
      }
      assert all[|us|] == u;
    }
  }

  lemma LostSnoc(us: seq<Use>, u: Use, o: nat)
    ensures LostSince(us + [u], o)
            <==> !(u.Try? && u.obj == o)
                 && (LostSince(us, o) || (RemovesAt(us + [u], |us|) && exists k :: 0 <= k < |us| && LockedAt(us, o, k)))
  {
    hide After;
    var all := us + [u];
    forall k | 0 <= k < |us| ensures LockedAt(all, o, k) <==> LockedAt(us, o, k) && !(u.Try? && u.obj == o) {
      Before(us, u, k);
      TryAfterSnoc(us, u, o, k);
    }
    forall m | 0 <= m < |us| ensures RemovesAt(all, m) <==> RemovesAt(us, m) {
      Before(us, u, m);
    }
    if LostSince(all, o) {
      var k, m :| 0 <= k < m < |all| && LockedAt(all, o, k) && RemovesAt(all, m);
      assert LockedAt(us, o, k);
    }
    if !(u.Try? && u.obj == o) {
      if LostSince(us, o) {
        var k, m :| 0 <= k < m < |us| && LockedAt(us, o, k) && RemovesAt(us, m);
        assert LockedAt(all, o, k) && RemovesAt(all, m);
      }
      if RemovesAt(all, |us|) && exists k :: 0 <= k < |us| && LockedAt(us, o, k) {
        var k :| 0 <= k < |us| && LockedAt(us, o, k);
        assert LockedAt(all, o, k);
      }
    }
  }

  /** The flag of an object is set exactly when its last TryLock succeeded. */
  lemma {:induction false} FlagIff(us: seq<Use>, o: nat)
    ensures o in After(us).flags <==> exists k :: 0 <= k < |us| && LockedAt(us, o, k)
  {
    if us != [] {
      var front, u := us[..|us| - 1], us[|us| - 1];
      assert us == front + [u];
      FlagIff(front, o);
      forall k | 0 <= k < |front| ensures LockedAt(us, o, k) <==> LockedAt(front, o, k) && !(u.Try? && u.obj == o) {
        Before(front, u, k);
        TryAfterSnoc(front, u, o, k);
      }
      if u.Try? && u.obj == o {
        assert LockedAt(us, o, |front|) <==> u.allowed && After(front).file.None?;
      } else if o in After(us).flags {
        var k :| 0 <= k < |front| && LockedAt(front, o, k);
        assert LockedAt(us, o, k);
      }
    }
  }

  /** An object is stale exactly when its file was removed after it had locked. */
  lemma {:induction false} StaleIff(us: seq<Use>, o: nat)
    ensures Stale(After(us), o) <==> LostSince(us, o)
  {
    if us != [] {
      var front, u := us[..|us| - 1], us[|us| - 1];
      assert us == front + [u];
      StaleIff(front, o);
      LostSnoc(front, u, o);
      FlagIff(front, o);
      assert RemovesAt(us, |front|) <==> !u.Try? && u.obj in After(front).flags;
    }
  }

  /** Use n, an Unlock or a destructor, removes the lock file of another object exactly when the object
      had lost its own since it locked, and the name has been taken again. */
  lemma RobsIff(us: seq<Use>, n: nat)
    requires n < |us| && !us[n].Try?
    ensures RobsAt(us, n) <==> LostSince(us[..n], us[n].obj) && After(us[..n]).file.Some?
  {
    StaleIff(us[..n], us[n].obj);
  }

  // ----- who is the first -----

  predicate NoneRobs(us: seq<Use>)
  {
    forall n :: 0 <= n < |us| ==> !RobsAt(us, n)
  }

  lemma GoneSnoc(us: seq<Use>, u: Use, o: nat)
    ensures Gone(us + [u], o) <==> Gone(us, o) || u == Destroy(o)
  {
    var all := us + [u];
    if Gone(us, o) {
      var k :| 0 <= k < |us| && us[k] == Destroy(o);
      assert all[k] == Destroy(o);
    }
    assert all[|us|] == u;
  }

  lemma HandSnoc(us: seq<Use>, u: Use, o: nat)
    ensures UnlockedByHand(us + [u], o)
            <==> !(u.Try? && u.obj == o) && (UnlockedByHand(us, o) || (u == Unlock(o) && o in After(us).flags))
  {
    var all := us + [u];
    forall k | 0 <= k < |us|
      ensures RemovesAt(all, k) == RemovesAt(us, k) && all[k] == us[k]
      ensures NoTryAfter(all, o, k) <==> NoTryAfter(us, o, k) && !(u.Try? && u.obj == o)
    {
      Before(us, u, k);
      TryAfterSnoc(us, u, o, k);
    }
    assert all[..|us|] == us && all[|us|] == u;
    hide After;
    if UnlockedByHand(us, o) && !(u.Try? && u.obj == o) {
      var k :| 0 <= k < |us| && us[k] == Unlock(o) && RemovesAt(us, k) && NoTryAfter(us, o, k);
      assert all[k] == Unlock(o) && RemovesAt(all, k) && NoTryAfter(all, o, k);
    }
    if u == Unlock(o) && RemovesAt(all, |us|) {
      assert NoTryAfter(all, o, |us|);
    }
  }

  /** As long as nobody has removed another's file, an object is stale only by its own Unlock. */
  lemma {:induction false} StaleByHand(us: seq<Use>, o: nat)
    requires NoneRobs(us) && !Gone(us, o)
    ensures Stale(After(us), o) <==> UnlockedByHand(us, o)
  {
    if us != [] {
      var front, u := us[..|us| - 1], us[|us| - 1];
      assert us == front + [u];
      forall n | 0 <= n < |front| ensures !RobsAt(front, n) {
        Before(front, u, n);
        assert !RobsAt(us, n);
      }
      GoneSnoc(front, u, o);
      StaleByHand(front, o);
      HandSnoc(front, u, o);
      assert !RobsAt(us, |front|);
    }
  }

  /** The first removal of another's file: the object was unlocked by hand and the name was taken again. */
  lemma FirstRobberyIff(us: seq<Use>, n: nat)
    requires Proper(us) && n < |us| && !us[n].Try? && NoneRobs(us[..n])
    ensures RobsAt(us, n) <==> UnlockedByHand(us[..n], us[n].obj) && After(us[..n]).file.Some?
  {
    StaleByHand(us[..n], us[n].obj);
  }

  /** Without a call of Unlock, which is how the store uses the class, no object ever removes another's file. */
  lemma {:induction false} NeverByDestructors(us: seq<Use>)
    requires Proper(us) && forall n :: 0 <= n < |us| ==> !us[n].Unlock?
    ensures NoneRobs(us)
  {
    if us != [] {
      var n := |us| - 1;
      var front := us[..n];
      assert forall m :: 0 <= m < n ==> front[m] == us[m] && front[..m] == us[..m];
      NeverByDestructors(front);
      if !us[n].Try? {
        FirstRobberyIff(us, n);
      }
      assert us == front + [us[n]];
      forall m | 0 <= m < n ensures !RobsAt(us, m) {
        Before(front, us[n], m);
        assert !RobsAt(front, m);
      }
    }
  }

  /** After the first time it spreads: object 1, never unlocked by hand, removes the file of object 2. */
  lemma ItSpreads()
    ensures var us := [Try(0, true), Unlock(0), Try(1, true), Destroy(0), Try(2, true), Destroy(1)];
            Proper(us) && RobsAt(us, 3) && RobsAt(us, 5) && !UnlockedByHand(us[..5], 1)
  {
    var us := [Try(0, true), Unlock(0), Try(1, true), Destroy(0), Try(2, true), Destroy(1)];
    assert us[..1] == [Try(0, true)];
    assert us[..2] == [Try(0, true), Unlock(0)] && us[..2][..1] == us[..1];
    assert us[..3] == [Try(0, true), Unlock(0), Try(1, true)] && us[..3][..2] == us[..2];
    assert us[..4] == [Try(0, true), Unlock(0), Try(1, true), Destroy(0)] && us[..4][..3] == us[..3];
    assert us[..5] == [Try(0, true), Unlock(0), Try(1, true), Destroy(0), Try(2, true)] && us[..5][..4] == us[..4];
    assert us[..1][..0] == [];
    assert After(us[..1]) == Holding({0}, Some(0));
    assert After(us[..2]) == Holding({0}, None);
    assert After(us[..3]) == Holding({0, 1}, Some(1));
    assert After(us[..4]) == Holding({0, 1}, None);
    assert After(us[..5]) == Holding({0, 1, 2}, Some(2));
  }

  // ----- the code -----

  /** The objects do what the uses say. */
  method Drive(fs: FileSystem, name: Path, objs: seq<FileLock>, us: seq<Use>)
    requires forall i, j :: 0 <= i < j < |objs| ==> objs[i] != objs[j]
    requires forall i :: 0 <= i < |objs| ==> objs[i].lockfile == name && !objs[i].locked
    requires name !in fs.locks && forall n :: 0 <= n < |us| ==> us[n].obj < |objs|
    modifies fs`locks, objs
    ensures name in fs.locks <==> After(us).file.Some?
    ensures forall i :: 0 <= i < |objs| ==> (objs[i].locked <==> i in After(us).flags)
    ensures forall l :: l != name ==> (l in fs.locks <==> l in old(fs.locks))
  {
    for n := 0 to |us|
      invariant name in fs.locks <==> After(us[..n]).file.Some?
      invariant forall i :: 0 <= i < |objs| ==> (objs[i].locked <==> i in After(us[..n]).flags)
      invariant forall l :: l != name ==> (l in fs.locks <==> l in old(fs.locks))
    {
      assert us[..n + 1][..n] == us[..n];
      match us[n]
      case Try(o, allowed) => var won := objs[o].TryLock(fs, allowed);
      case Unlock(o) => objs[o].Unlock(fs);
      case Destroy(o) => objs[o].Destroy(fs);
    }
    assert us[..|us|] == us;
  }
}
