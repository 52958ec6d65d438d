/** base3/consistenthash.h: a ring of server points, searched clockwise from a hash. */
module Ring {
  import opened Text

  /** A virtual point of server `desc`. */
  datatype Point = Point(point: nat, desc: string)

  const UINT32 := 0x1_0000_0000

  // ----- where the points of a server lie -----

  /** `%x`. */
  function Hex(n: nat): string
  {
    if n < 16 then [HexDigit(n)] else Hex(n / 16) + [HexDigit(n % 16)]
  }

  function VirtualName(desc: string, k: nat): string
  {
    desc + "-" + Hex(k)
  }

  function PointOf(func: string -> nat, desc: string, k: nat): Point
  {
    Point(func(VirtualName(desc, k)), desc)
  }

  /** The points of the first n turns of the inner loop for one server. */
  function ServerPoints(func: string -> nat, desc: string, n: nat): set<Point>
  {
    set k: nat | k < n :: PointOf(func, desc, k)
  }

  /** All points of a set of servers with their capacities. */
  function PointsOf(func: string -> nat, m: map<string, nat>): set<Point>
  {
    set d, p | d in m && p in ServerPoints(func, d, m[d]) :: p
  }

  /** The number of points, as a mathematical sum. */
  ghost function Total(m: map<string, nat>): nat
    decreases m.Keys
  {
    if m == map[] then 0
    else
      var d :| d in m;
      m[d] + Total(m - {d})
  }

  /** The sum does not depend on the order in which servers are taken. */
  lemma {:induction false} TotalSplits(m: map<string, nat>, d: string)
    requires d in m
    ensures Total(m) == m[d] + Total(m - {d})
    decreases m.Keys
  {
    var e :| e in m && Total(m) == m[e] + Total(m - {e});
    if e != d {
      TotalSplits(m - {e}, d);
      TotalSplits(m - {d}, e);
      assert m - {e} - {d} == m - {d} - {e};
    }
  }

  // ----- the clockwise successor -----

  predicate Sorted(points: seq<Point>)
  {
    forall i, j :: 0 <= i < j < |points| ==> points[i].point <= points[j].point
  }

  /** The reference definition: scan for the first point at or after the hash, else wrap around. */
  function Clockwise(points: seq<Point>, hash: nat): string
  {
    if points == [] then "" else Scan(points, hash, 0).desc
  }

  function Scan(points: seq<Point>, hash: nat, i: nat): Point
    requires points != [] && i <= |points|
    decreases |points| - i
  {
    if i == |points| then points[0]
    else if points[i].point >= hash then points[i]
    else Scan(points, hash, i + 1)
  }

  lemma {:induction false} ScanFinds(points: seq<Point>, hash: nat, i: nat, lo: nat)
    requires points != [] && i <= lo <= |points|
    requires forall j :: i <= j < lo ==> points[j].point < hash
    requires lo < |points| ==> points[lo].point >= hash
    ensures Scan(points, hash, i) == if lo < |points| then points[lo] else points[0]
    decreases lo - i
  {
    if i < lo {
      ScanFinds(points, hash, i + 1, lo);
    }
  }

  // ----- the class -----

  class Continuum {
    var servers: map<string, nat>
    var points: seq<Point>

    constructor ()
      ensures servers == map[] && points == []
    {
      servers, points := map[], [];
    }

    method Add(desc: string, capacity: nat)
      modifies this`servers
      ensures servers == old(servers)[desc := capacity]
    {
      servers := servers[desc := capacity];
    }

    method Remove(desc: string) returns (r: bool)
      modifies this`servers
      ensures servers == old(servers) - {desc} && r
    {
      servers := servers - {desc};
      r := true;
    }

    /** std::lower_bound, then wrap around. */
    method Locate(hash: nat) returns (desc: string)
      requires Sorted(points)
      ensures desc == Clockwise(points, hash)
    {
      var lo, hi := 0, |points|;
      while lo < hi
        invariant 0 <= lo <= hi <= |points|
        invariant forall j :: 0 <= j < lo ==> points[j].point < hash
        invariant forall j :: hi <= j < |points| ==> points[j].point >= hash
      {
        var mid := (lo + hi) / 2;
        if points[mid].point < hash {
          lo := mid + 1;
        } else {
          hi := mid;
        }
      }
      if points != [] {
        ScanFinds(points, hash, 0, lo);
      }
      if lo != |points| {
        desc := points[lo].desc;
      } else if points != [] {
        desc := points[0].desc;
      } else {
        desc := "";
      }
    }

    /** The first loop of Rebuild, in a 32-bit register. */
    method SumOfCapacities() returns (total: nat)
      ensures total == Total(servers) % UINT32
    {
      total := 0;
      var left := servers;
      while left != map[]
        invariant total == (Total(servers) - Total(left)) % UINT32 && Total(left) <= Total(servers)
        decreases left.Keys
      {
        var d :| d in left;
        TotalSplits(left, d);
        total := (total + left[d]) % UINT32;
        left := left - {d};
      }
    }

    /** Lays out the points of all servers. The sum of the capacities is a 32-bit register: when it
        comes out as zero nothing is rebuilt, and the old ring stays in use. */
    method Rebuild(func: string -> nat) returns (ok: bool)
      requires forall d, k: nat {:trigger VirtualName(d, k)} :: d in servers && k < servers[d] ==> |VirtualName(d, k)| <= 20
      modifies this`points
      ensures ok <==> Total(servers) % UINT32 != 0
      ensures !ok ==> points == old(points)
      ensures ok ==> Sorted(points) && |points| == Total(servers)
                     && (set p | p in points) == PointsOf(func, servers)
    {
      var total := SumOfCapacities();
      if total == 0 {
        return false;
      }
      var target: seq<Point> := [];
      var rest := servers;
      while rest != map[]
        invariant rest.Keys <= servers.Keys && forall d :: d in rest ==> rest[d] == servers[d]
        invariant |target| + Total(rest) == Total(servers)
        invariant (set p | p in target) == PointsOf(func, servers - rest.Keys)
        decreases rest.Keys
      {
        var d :| d in rest;
        TotalSplits(rest, d);
        ghost var was := target;
        target := AddServer(func, d, rest[d], target);
        PointsOfOneMore(func, servers, rest.Keys, d);
        SetOfConcat(was, target[|was|..]);
        assert target == was + target[|was|..];
        rest := rest - {d};
      }
      assert servers - rest.Keys == servers;
      points := Sort(target);
      ok := true;
    }

    /** The inner loop of Rebuild. */
    static method AddServer(func: string -> nat, d: string, capacity: nat, before: seq<Point>) returns (target: seq<Point>)
      ensures |target| == |before| + capacity && target[..|before|] == before
      ensures (set p | p in target[|before|..]) == ServerPoints(func, d, capacity)
    {
      target := before;
      for k := 0 to capacity
        invariant |target| == |before| + k && target[..|before|] == before
        invariant (set p | p in target[|before|..]) == ServerPoints(func, d, k)
      {
        ghost var tail := target[|before|..];
        target := target + [PointOf(func, d, k)];
        assert target[|before|..] == tail + [PointOf(func, d, k)];
        SetOfConcat(tail, [PointOf(func, d, k)]);
        OnePointMore(func, d, k);
      }
    }

    /** Stands for std::sort. */
    static method Sort(a: seq<Point>) returns (r: seq<Point>)
      ensures Sorted(r) && multiset(r) == multiset(a) && |r| == |a|
      ensures (set p | p in r) == (set p | p in a)
    {
      r := [];
      for i := 0 to |a|
        invariant Sorted(r) && multiset(r) == multiset(a[..i]) && |r| == i
      {
        r := Insert(r, a[i]);
        assert a[..i + 1] == a[..i] + [a[i]];
      }
      assert a[..|a|] == a;
      SameElements(r, a);
    }

    static method Insert(a: seq<Point>, p: Point) returns (r: seq<Point>)
      requires Sorted(a)
      ensures Sorted(r) && multiset(r) == multiset(a + [p]) && |r| == |a| + 1
    {
      var i := |a|;
      while i > 0 && a[i - 1].point > p.point
        invariant 0 <= i <= |a| && forall j :: i <= j < |a| ==> a[j].point > p.point
      {
        i := i - 1;
      }
      r := a[..i] + [p] + a[i..];
      SortedWithOneMore(a, p, i);
      SameWithOneMore(a, p, i);
    }
  }

  lemma SortedWithOneMore(a: seq<Point>, p: Point, i: nat)
    requires Sorted(a) && i <= |a|
    requires i > 0 ==> a[i - 1].point <= p.point
    requires forall j :: i <= j < |a| ==> a[j].point > p.point
    ensures Sorted(a[..i] + [p] + a[i..])
  {
    var r := a[..i] + [p] + a[i..];
    forall j, k | 0 <= j < k < |r| ensures r[j].point <= r[k].point {
      assert r[j] == if j < i then a[j] else if j == i then p else a[j - 1];
      assert r[k] == if k < i then a[k] else if k == i then p else a[k - 1];
    }
  }

  lemma SameWithOneMore(a: seq<Point>, p: Point, i: nat)
    requires i <= |a|
    ensures multiset(a[..i] + [p] + a[i..]) == multiset(a) + multiset{p} == multiset(a + [p])
  {
    assert a == a[..i] + a[i..];
    assert multiset(a) == multiset(a[..i]) + multiset(a[i..]);
  }

  lemma SetOfConcat<T>(a: seq<T>, b: seq<T>)
    ensures (set p | p in a + b) == (set p | p in a) + (set p | p in b)
  {
  }

  lemma SameElements<T>(a: seq<T>, b: seq<T>)
    requires multiset(a) == multiset(b)
    ensures (set p | p in a) == (set p | p in b)
  {
    forall p ensures p in a <==> p in b {
      assert p in a <==> p in multiset(a);
      assert p in b <==> p in multiset(b);
    }
  }

  lemma OnePointMore(func: string -> nat, d: string, k: nat)
    ensures ServerPoints(func, d, k + 1) == ServerPoints(func, d, k) + {PointOf(func, d, k)}
  {
  }

  lemma PointsOfOneMore(func: string -> nat, m: map<string, nat>, rest: set<string>, d: string)
    requires d in m && d in rest
    ensures PointsOf(func, m - (rest - {d})) == PointsOf(func, m - rest) + ServerPoints(func, d, m[d])
  {
    hide ServerPoints;
    var now, was := m - (rest - {d}), m - rest;
    forall p | p in PointsOf(func, now) ensures p in PointsOf(func, was) + ServerPoints(func, d, m[d]) {
      var e :| e in now && p in ServerPoints(func, e, now[e]);
      if e != d {
        assert e in was && p in ServerPoints(func, e, was[e]);
      }
    }
    forall p | p in PointsOf(func, was) ensures p in PointsOf(func, now) {
      var e :| e in was && p in ServerPoints(func, e, was[e]);
      assert e in now && p in ServerPoints(func, e, now[e]);
    }
    forall p | p in ServerPoints(func, d, m[d]) ensures p in PointsOf(func, now) {
      assert d in now && p in ServerPoints(func, d, now[d]);
    }
  }

  // ----- successors -----

  /** `points` is some sorted arrangement of the set `ps`. */
  predicate Arranges(points: seq<Point>, ps: set<Point>)
  {
    Sorted(points) && (set p | p in points) == ps
  }

  /** No two different points fall on the same place of the ring. */
  predicate CollisionFree(ps: set<Point>)
  {
    forall p, q :: p in ps && q in ps && p.point == q.point ==> p == q
  }

  /** p is the clockwise successor of the hash among ps. */
  predicate IsSuccessor(ps: set<Point>, hash: nat, p: Point)
  {
    && p in ps
    && if p.point >= hash then forall q :: q in ps && q.point >= hash ==> p.point <= q.point
       else (forall q :: q in ps ==> q.point < hash) && forall q :: q in ps ==> p.point <= q.point
  }

  lemma ScanStep(points: seq<Point>, hash: nat) returns (k: nat)
    requires points != []
    ensures k <= |points| && forall j :: 0 <= j < k ==> points[j].point < hash
    ensures k < |points| ==> points[k].point >= hash
  {
    k := 0;
    while k < |points| && points[k].point < hash
      invariant k <= |points| && forall j :: 0 <= j < k ==> points[j].point < hash
    {
      k := k + 1;
    }
  }

  /** The scan finds the successor, whatever the arrangement. */
  lemma ClockwiseIsSuccessor(points: seq<Point>, ps: set<Point>, hash: nat) returns (p: Point)
    requires Arranges(points, ps) && ps != {}
    ensures IsSuccessor(ps, hash, p) && p.desc == Clockwise(points, hash)
  {
    var q0 :| q0 in ps;
    assert q0 in points;
    var k := ScanStep(points, hash);
    ScanFinds(points, hash, 0, k);
    p := if k < |points| then points[k] else points[0];
    assert p in points;
    forall q | q in ps ensures q in points {
    }
  }

  lemma SuccessorIsUnique(ps: set<Point>, hash: nat, p: Point, q: Point)
    requires CollisionFree(ps) && IsSuccessor(ps, hash, p) && IsSuccessor(ps, hash, q)
    ensures p == q
  {
  }

  /** A ring and a larger ring whose extra points all belong to one server: a hash is served as before,
      or by that server in the larger ring. Only the points of the smaller ring must be free of collisions. */
  lemma LargerRing(small: seq<Point>, ps: set<Point>, large: seq<Point>, qs: set<Point>, d: string, hash: nat)
    requires Arranges(small, ps) && Arranges(large, qs) && ps <= qs && CollisionFree(ps)
    requires forall q :: q in qs && q !in ps ==> q.desc == d
    ensures Clockwise(large, hash) == Clockwise(small, hash) || Clockwise(large, hash) == d
  {
    if qs == {} {
      NoPoints(small);
      NoPoints(large);
    } else {
      var q := ClockwiseIsSuccessor(large, qs, hash);
      if q in ps {
        var p := ClockwiseIsSuccessor(small, ps, hash);
        assert IsSuccessor(ps, hash, q);
        SuccessorIsUnique(ps, hash, p, q);
      }
    }
  }

  lemma NoPoints(points: seq<Point>)
    requires Arranges(points, {})
    ensures points == []
  {
    assert points == [] || points[0] in points;
    var none: set<Point> := {};
    forall p ensures p !in points {
      assert p in (set q | q in points) <==> p in none;
    }
  }

  lemma PointsGrow(func: string -> nat, m: map<string, nat>, d: string, capacity: nat)
    requires d in m ==> m[d] <= capacity
    ensures PointsOf(func, m) <= PointsOf(func, m[d := capacity])
    ensures forall q :: q in PointsOf(func, m[d := capacity]) && q !in PointsOf(func, m) ==> q.desc == d
  {
    var n := m[d := capacity];
    forall p | p in PointsOf(func, m) ensures p in PointsOf(func, n) {
      var e :| e in m && p in ServerPoints(func, e, m[e]);
      assert e in n && p in ServerPoints(func, e, n[e]);
    }
    forall q | q in PointsOf(func, n) ensures q.desc == d || q in PointsOf(func, m) {
      var e :| e in n && q in ServerPoints(func, e, n[e]);
      if e != d {
        assert e in m && q in ServerPoints(func, e, m[e]);
      }
    }
  }

  /** Every point carries the name of a listed server. */
  lemma PointsAreNamed(func: string -> nat, m: map<string, nat>, p: Point)
    requires p in PointsOf(func, m)
    ensures p.desc in m
  {
  }

  // ----- arrangements and collisions -----

  /** A point put in front of those on its place. */
  ghost function InFront(points: seq<Point>, p: Point): seq<Point>
  {
    if points == [] || points[0].point >= p.point then [p] + points else [points[0]] + InFront(points[1..], p)
  }

  lemma {:induction false} InFrontHolds(points: seq<Point>, p: Point)
    ensures forall q :: q in InFront(points, p) <==> q == p || q in points
  {
    if points != [] && points[0].point < p.point {
      InFrontHolds(points[1..], p);
      assert points == [points[0]] + points[1..];
    }
  }

  lemma {:induction false} InFrontIsSorted(points: seq<Point>, p: Point)
    requires Sorted(points)
    ensures Sorted(InFront(points, p))
  {
    InFrontHolds(points, p);
    if points != [] && points[0].point < p.point {
      InFrontIsSorted(points[1..], p);
      InFrontHolds(points[1..], p);
      hide Sorted;
      FirstIsLeast(points[0], InFront(points[1..], p));
    } else {
      FirstIsLeast(p, points);
    }
  }

  lemma InFrontArranges(points: seq<Point>, p: Point)
    requires Sorted(points)
    ensures Sorted(InFront(points, p)) && (set q | q in InFront(points, p)) == (set q | q in points) + {p}
  {
    InFrontIsSorted(points, p);
    InFrontHolds(points, p);
  }

  lemma FirstIsLeast(p: Point, rest: seq<Point>)
    requires Sorted(rest) && forall q :: q in rest ==> q.point >= p.point
    ensures Sorted([p] + rest)
  {
    forall i | 0 <= i < |rest| ensures rest[i].point >= p.point {
      assert rest[i] in rest;
    }
  }

  lemma {:induction false} InFrontIsFound(points: seq<Point>, p: Point)
    ensures InFront(points, p) != [] && Clockwise(InFront(points, p), p.point) == p.desc
  {
    var k := InFrontAt(points, p);
    ScanFinds(InFront(points, p), p.point, 0, k);
  }

  lemma {:induction false} InFrontAt(points: seq<Point>, p: Point) returns (k: nat)
    ensures k < |InFront(points, p)| && InFront(points, p)[k] == p
    ensures forall j :: 0 <= j < k ==> InFront(points, p)[j].point < p.point
  {
    if points == [] || points[0].point >= p.point {
      k := 0;
    } else {
      k := InFrontAt(points[1..], p);
      k := k + 1;
    }
  }

  /** Every finite set of points has an arrangement. */
  lemma {:induction false} SomeArrangement(ps: set<Point>) returns (points: seq<Point>)
    ensures Arranges(points, ps)
    decreases |ps|
  {
    points := [];
    if ps != {} {
      var p :| p in ps;
      points := SomeArrangement(ps - {p});
      InFrontArranges(points, p);
      points := InFront(points, p);
      assert ps - {p} + {p} == ps;
    }
  }

  /** Any point can be the one that its place is served by. */
  lemma ArrangementWith(ps: set<Point>, p: Point) returns (points: seq<Point>)
    requires p in ps
    ensures Arranges(points, ps) && Clockwise(points, p.point) == p.desc
  {
    points := SomeArrangement(ps - {p});
    InFrontArranges(points, p);
    InFrontIsFound(points, p);
    points := InFront(points, p);
    assert ps - {p} + {p} == ps;
  }

  /** The set of points alone decides who serves which hash. */
  ghost predicate Determined(ps: set<Point>)
  {
    forall a, b, hash :: Arranges(a, ps) && Arranges(b, ps) ==> Clockwise(a, hash) == Clockwise(b, hash)
  }

  /** All arrangements of a set of points serve alike exactly when no two points collide. */
  lemma DeterminedIff(ps: set<Point>)
    ensures Determined(ps) <==> CollisionFree(ps)
  {
    if CollisionFree(ps) {
      forall a, b, hash | Arranges(a, ps) && Arranges(b, ps) ensures Clockwise(a, hash) == Clockwise(b, hash) {
        if ps == {} {
          NoPoints(a);
          NoPoints(b);
        } else {
          var p := ClockwiseIsSuccessor(a, ps, hash);
          var q := ClockwiseIsSuccessor(b, ps, hash);
          SuccessorIsUnique(ps, hash, p, q);
        }
      }
    } else {
      var p, q :| p in ps && q in ps && p.point == q.point && p != q;
      var a := ArrangementWith(ps, p);
      var b := ArrangementWith(ps, q);
      assert Clockwise(a, p.point) != Clockwise(b, p.point);
    }
  }

  /** The places are free of collisions exactly when the hash function keeps the virtual names of
      different servers apart. */
  lemma CollisionFreeIff(func: string -> nat, m: map<string, nat>)
    ensures CollisionFree(PointsOf(func, m))
            <==> forall d, e, i: nat, j: nat {:trigger PointOf(func, d, i), PointOf(func, e, j)} ::
                   d in m && e in m && i < m[d] && j < m[e] && PointOf(func, d, i).point == PointOf(func, e, j).point ==> d == e
  {
    forall d, i: nat | d in m && i < m[d] ensures PointOf(func, d, i) in PointsOf(func, m) {
      assert PointOf(func, d, i) in ServerPoints(func, d, m[d]);
    }
    forall p | p in PointsOf(func, m) ensures p.desc in m && exists i: nat :: i < m[p.desc] && p == PointOf(func, p.desc, i) {
    }
  }

  // ----- minimal disruption -----

  /** A removal moves the hashes of the removed server, all of them, and no other, however the two rings
      are arranged. */
  ghost predicate MovesExactly(ps: set<Point>, left: set<Point>, d: string)
  {
    forall before, after, hash :: Arranges(before, ps) && Arranges(after, left) ==>
      (Clockwise(after, hash) == Clockwise(before, hash) <==> Clockwise(before, hash) != d)
  }

  /** Removing a server moves exactly the hashes that it served, if and only if no two points of the
      servers that stay collide. The points of the removed server may collide with anything. */
  lemma RemovalIff(func: string -> nat, m: map<string, nat>, d: string)
    requires d in m && PointsOf(func, m - {d}) != {}
    ensures MovesExactly(PointsOf(func, m), PointsOf(func, m - {d}), d) <==> CollisionFree(PointsOf(func, m - {d}))
  {
    var ps, left := PointsOf(func, m), PointsOf(func, m - {d});
    assert m == (m - {d})[d := m[d]];
    PointsGrow(func, m - {d}, d, m[d]);
    forall p | p in left ensures p.desc != d {
      PointsAreNamed(func, m - {d}, p);
    }
    hide PointsOf;
    if CollisionFree(left) {
      forall before, after, hash | Arranges(before, ps) && Arranges(after, left)
        ensures Clockwise(after, hash) == Clockwise(before, hash) <==> Clockwise(before, hash) != d
      {
        LargerRing(after, left, before, ps, d, hash);
        var p := ClockwiseIsSuccessor(after, left, hash);
      }
    } else {
      var p, q :| p in left && q in left && p.point == q.point && p != q;
      var before := ArrangementWith(ps, p);
      var after := ArrangementWith(left, q);
      assert Clockwise(before, p.point) == p.desc != q.desc == Clockwise(after, p.point);
    }
  }

  /** An addition moves hashes to the new server only, however the two rings are arranged. */
  ghost predicate MovesOnlyTo(ps: set<Point>, more: set<Point>, d: string)
  {
    forall before, after, hash :: Arranges(before, ps) && Arranges(after, more) ==>
      Clockwise(after, hash) == Clockwise(before, hash) || Clockwise(after, hash) == d
  }

  /** Adding a server, or raising its capacity, moves hashes to that server only, if and only if no two
      points that were there before collide. */
  lemma AdditionIff(func: string -> nat, m: map<string, nat>, d: string, capacity: nat)
    requires d in m ==> m[d] <= capacity
    ensures MovesOnlyTo(PointsOf(func, m), PointsOf(func, m[d := capacity]), d) <==> CollisionFree(PointsOf(func, m))
  {
    var ps, more := PointsOf(func, m), PointsOf(func, m[d := capacity]);
    PointsGrow(func, m, d, capacity);
    hide PointsOf;
    if CollisionFree(ps) {
      forall before, after, hash | Arranges(before, ps) && Arranges(after, more)
        ensures Clockwise(after, hash) == Clockwise(before, hash) || Clockwise(after, hash) == d
      {
        LargerRing(before, ps, after, more, d, hash);
      }
    } else {
      var p, q :| p in ps && q in ps && p.point == q.point && p != q;
      var was, now := if q.desc == d then q else p, if q.desc == d then p else q;
      var before := ArrangementWith(ps, was);
      var after := ArrangementWith(more, now);
      assert Clockwise(before, p.point) == was.desc != now.desc == Clockwise(after, p.point) && now.desc != d;
    }
  }

  lemma RemovingMovesExactlyItsHashes(func: string -> nat, m: map<string, nat>, d: string,
                                      before: seq<Point>, after: seq<Point>, hash: nat)
    requires d in m && Arranges(before, PointsOf(func, m)) && Arranges(after, PointsOf(func, m - {d}))
    requires after != [] && CollisionFree(PointsOf(func, m - {d}))
    ensures Clockwise(after, hash) == Clockwise(before, hash) <==> Clockwise(before, hash) != d
  {
    assert after[0] in PointsOf(func, m - {d});
    hide PointsOf;
    RemovalIff(func, m, d);
  }

  lemma AddingMovesOnlyToIt(func: string -> nat, m: map<string, nat>, d: string, capacity: nat,
                            before: seq<Point>, after: seq<Point>, hash: nat)
    requires d in m ==> m[d] <= capacity
    requires Arranges(before, PointsOf(func, m)) && Arranges(after, PointsOf(func, m[d := capacity]))
    requires CollisionFree(PointsOf(func, m))
    ensures Clockwise(after, hash) == Clockwise(before, hash) || Clockwise(after, hash) == d
  {
    hide PointsOf;
    AdditionIff(func, m, d, capacity);
  }

  /** Two virtual names of different servers with one hash: what Rebuild promises leaves open which of the
      two comes first, and the hash is served by one or by the other. */
  lemma CollisionMovesHashes(func: string -> nat, m: map<string, nat>, d: string, i: nat, e: string, j: nat)
    returns (x: seq<Point>, y: seq<Point>)
    requires d in m && e in m && d != e && i < m[d] && j < m[e]
    requires func(VirtualName(d, i)) == func(VirtualName(e, j))
    ensures Arranges(x, PointsOf(func, m)) && Arranges(y, PointsOf(func, m))
    ensures Clockwise(x, func(VirtualName(d, i))) == d && Clockwise(y, func(VirtualName(d, i))) == e
    ensures !Determined(PointsOf(func, m))
  {
    var p, q := PointOf(func, d, i), PointOf(func, e, j);
    assert p in ServerPoints(func, d, m[d]) && q in ServerPoints(func, e, m[e]);
    x := ArrangementWith(PointsOf(func, m), p);
    y := ArrangementWith(PointsOf(func, m), q);
  }
}
