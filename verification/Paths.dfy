/** base3/pathops.cc, and the naming of bundle files and lock files in bundle/bundle.cc. */
module Paths {
  import opened Arith
  import opened Text

  /** The two numbers of `Setting` that spread bundle files over directories. */
  datatype Levels = Levels(level1: nat, level2: nat)

  /** The settings a program may run with: divisors that fit a positive C int. */
  predicate Usable(l: Levels)
  {
    0 < l.level1 < 0x8000_0000 && 0 < l.level2 < 0x8000_0000
  }

  predicate IsAbspath(path: string)
  {
    path != [] && path[0] == '/'
  }

  predicate IsDirectory(path: string)
  {
    path != [] && path[|path| - 1] == '/'
  }

  function PathJoin(a: string, b: string): string
  {
    if b == [] then a
    else if a == [] then b
    else if IsAbspath(b) then b
    else if IsDirectory(a) then a + b
    else a + "/" + b
  }

  lemma JoinEnds(a: string, b: string)
    requires b != []
    ensures var r := PathJoin(a, b); |r| >= |b| && r[|r| - |b|..] == b
  {
  }

  /** The k low hexadecimal digits of n, as printf pads them with zeros. */
  function Hex(n: nat, k: nat): (s: string)
    ensures |s| == k
    ensures forall i :: 0 <= i < k ==> s[i] != '/' && s[i] != '.'
  {
    if k == 0 then [] else Hex(n / 16, k - 1) + [HexDigit(n % 16)]
  }

  function Pow16(k: nat): (p: nat)
    ensures p > 0
  {
    if k == 0 then 1 else 16 * Pow16(k - 1)
  }

  lemma {:induction false} HexInjective(m: nat, n: nat, k: nat)
    requires m < Pow16(k) && n < Pow16(k)
    ensures Hex(m, k) == Hex(n, k) ==> m == n
  {
    if k > 0 && Hex(m, k) == Hex(n, k) {
      assert Hex(m, k)[..k - 1] == Hex(m / 16, k - 1) && Hex(n, k)[..k - 1] == Hex(n / 16, k - 1);
      assert Hex(m, k)[k - 1] == HexDigit(m % 16) && Hex(n, k)[k - 1] == HexDigit(n % 16);
      HexInjective(m / 16, n / 16, k - 1);
    }
  }

  /** `%08x/%08x`: 17 characters, so the 18-byte buffer never truncates. */
  function Bid2Filename(bid: nat, l: Levels): (s: string)
    requires Usable(l) && bid < 0x1_0000_0000
    ensures |s| == 17 && s[8] == '/' && s[0] != '/'
  {
    Hex(bid / l.level1, 8) + "/" + Hex(bid % l.level2, 8)
  }

  lemma Pow16Of8()
    ensures Pow16(8) == 0x1_0000_0000
  {
    assert Pow16(4) == 0x1_0000;
    assert Pow16(8) == 16 * 16 * 16 * 16 * Pow16(4);
  }

  /** Two ids share a file name exactly when they agree on both numbers. */
  lemma SameName(a: nat, b: nat, l: Levels)
    requires Usable(l) && a < 0x1_0000_0000 && b < 0x1_0000_0000
    ensures Bid2Filename(a, l) == Bid2Filename(b, l)
            <==> a / l.level1 == b / l.level1 && a % l.level2 == b % l.level2
  {
    var x, y := Bid2Filename(a, l), Bid2Filename(b, l);
    Pow16Of8();
    DivShrinks(a, l.level1);
    DivShrinks(b, l.level1);
    if x == y {
      assert x[..8] == Hex(a / l.level1, 8) && y[..8] == Hex(b / l.level1, 8);
      assert x[9..] == Hex(a % l.level2, 8) && y[9..] == Hex(b % l.level2, 8);
      HexInjective(a / l.level1, b / l.level1, 8);
      HexInjective(a % l.level2, b % l.level2, 8);
    }
  }

  /** No two bundle ids share a file, exactly for settings with level1 <= level2. */
  lemma NamesAreUniqueIff(l: Levels)
    requires Usable(l)
    ensures (forall a: nat, b: nat ::
               a < 0x1_0000_0000 && b < 0x1_0000_0000 && Bid2Filename(a, l) == Bid2Filename(b, l) ==> a == b)
            <==> l.level1 <= l.level2
  {
    hide Bid2Filename;
    if l.level1 <= l.level2 {
      forall a: nat, b: nat | a < 0x1_0000_0000 && b < 0x1_0000_0000 && Bid2Filename(a, l) == Bid2Filename(b, l)
        ensures a == b
      {
        SameName(a, b, l);
        if a <= b {
          SameQuotientAndRemainder(a, b, l.level1, l.level2);
        } else {
          SameQuotientAndRemainder(b, a, l.level1, l.level2);
        }
      }
    } else {
      var b := l.level2;
      SameName(0, b, l);
      DivModUnique(b, l.level1, 0, b);
      DivModUnique(b, l.level2, 1, 0);
      DivModUnique(0, l.level1, 0, 0);
      DivModUnique(0, l.level2, 0, 0);
      assert Bid2Filename(0, l) == Bid2Filename(b, l);
    }
  }

  /** A full path names one bundle id, whatever the directories in front of it. */
  lemma PathNamesId(root: string, a: nat, root': string, b: nat, l: Levels)
    requires Usable(l) && l.level1 <= l.level2 && a < 0x1_0000_0000 && b < 0x1_0000_0000
    requires PathJoin(root, Bid2Filename(a, l)) == PathJoin(root', Bid2Filename(b, l))
    ensures a == b
  {
    var p := PathJoin(root, Bid2Filename(a, l));
    JoinEnds(root, Bid2Filename(a, l));
    JoinEnds(root', Bid2Filename(b, l));
    assert p[|p| - 17..] == Bid2Filename(a, l) && p[|p| - 17..] == Bid2Filename(b, l);
    NamesAreUniqueIff(l);
  }

  /** The lock file of a bundle id. */
  function LockFile(lockDir: string, id: nat): string
  {
    PathJoin(lockDir, Dec(id))
  }

  lemma LockNamesId(lockDir: string, a: nat, b: nat)
    ensures LockFile(lockDir, a) == LockFile(lockDir, b) ==> a == b
  {
    var x, y := Dec(a), Dec(b);
    assert !IsAbspath(x) && !IsAbspath(y);
    if LockFile(lockDir, a) == LockFile(lockDir, b) {
      var pre := if lockDir == [] then [] else if IsDirectory(lockDir) then lockDir else lockDir + "/";
      assert LockFile(lockDir, a) == pre + x && LockFile(lockDir, b) == pre + y;
      assert x == (pre + x)[|pre|..] && y == (pre + y)[|pre|..];
      DecInjective(a, b);
    }
  }

  lemma BundleNameShape(bid: nat, l: Levels)
    requires Usable(l) && bid < 0x1_0000_0000
    ensures Bid2Filename(bid, l)[7] != 'k'
    ensures forall i :: 9 <= i < 17 ==> Bid2Filename(bid, l)[i] != '/'
  {
    HexHasNoK(bid / l.level1, 8, 7);
  }

  lemma HexHasNoK(n: nat, k: nat, i: nat)
    requires i < k
    ensures Hex(n, k)[i] != 'k'
  {
    if i < k - 1 {
      HexHasNoK(n / 16, k - 1, i);
    }
  }

  /** A path ending in "k/" and digits does not end in a bundle name. */
  lemma DigitsAfterK(dir: string, d: string, y: string, f: string)
    requires dir != [] && dir[|dir| - 1] == 'k' && AllDigits(d)
    requires |f| == 17 && f[8] == '/' && f[7] != 'k' && forall i :: 9 <= i < 17 ==> f[i] != '/'
    requires |y| >= 17 && y[|y| - 17..] == f
    ensures dir + "/" + d != y
  {
    var x := dir + "/" + d;
    assert forall i :: 0 <= i < 17 ==> y[|y| - 17 + i] == f[i];
    if |d| < 8 {
      assert x[|x| - |d| - 1] == '/' && y[|y| - |d| - 1] == f[16 - |d|];
    } else if |d| > 8 {
      assert x[|x| - 9] == d[|d| - 9] && y[|y| - 9] == f[8];
    } else {
      assert x[|x| - 10] == dir[|dir| - 1] && y[|y| - 10] == f[7];
    }
  }

  /** With the default lock directory `storage/.lock`, a lock file is never a bundle file. */
  lemma DefaultLockIsNoBundle(storage: string, root: string, a: nat, b: nat, l: Levels)
    requires Usable(l) && b < 0x1_0000_0000
    ensures LockFile(PathJoin(storage, ".lock"), a) != PathJoin(root, Bid2Filename(b, l))
  {
    hide Bid2Filename, Usable, PathJoin, LockFile, Dec;
    var dir, f := PathJoin(storage, ".lock"), Bid2Filename(b, l);
    LockDirEnds(storage);
    LockPathIs(dir, a);
    JoinEnds(root, f);
    BundleNameShape(b, l);
    DigitsAfterK(dir, Dec(a), PathJoin(root, f), f);
  }

  lemma LockDirEnds(storage: string)
    ensures var dir := PathJoin(storage, ".lock"); dir != [] && dir[|dir| - 1] == 'k'
  {
  }

  lemma LockPathIs(dir: string, id: nat)
    requires dir != [] && dir[|dir| - 1] == 'k'
    ensures LockFile(dir, id) == dir + "/" + Dec(id)
  {
    assert IsDigit(Dec(id)[0]);
  }
}
