/** base3/pickle.cc, the payload: typed values laid out at four-byte steps and read back through an iterator. */
module PickleFormat {
  import opened Bytes
  import opened Text

  /** AlignInt. */
  function AlignInt(i: nat, alignment: nat): (r: nat)
    requires alignment > 0
  {
    i + (alignment - i % alignment) % alignment
  }

  /** AlignInt rounds up to the next multiple. */
  lemma AlignIntRoundsUp(i: nat, alignment: nat)
    requires alignment > 0
    ensures AlignInt(i, alignment) % alignment == 0 && i <= AlignInt(i, alignment) < i + alignment
  {
    var q, r := i / alignment, i % alignment;
    assert i == alignment * q + r;
    if r == 0 {
      assert AlignInt(i, alignment) == i by { Arith.DivModUnique(alignment, alignment, 1, 0); }
    } else {
      Arith.DivModUnique(alignment - r, alignment, 0, alignment - r);
      assert i + (alignment - r) == alignment * (q + 1) + 0;
      Arith.DivModUnique(i + (alignment - r), alignment, q + 1, 0);
    }
  }

  function Align4(n: nat): (r: nat)
    ensures r % 4 == 0 && n <= r < n + 4
  {
    AlignInt(n, 4)
  }

  // ----- values -----

  /** What the Write functions take. */
  datatype Value =
    | Bool(b: bool)
    | Int(n: int)
    | Long(n: int)
    | Size(n: int)
    | UInt32(n: int)
    | Int64(n: int)
    | UInt64(n: int)
    | Str(s: seq<byte>)
    | Data(s: seq<byte>)
    | Raw(s: seq<byte>)

  /** Which Read function to call; ReadBytes is told the length. */
  datatype Kind = KBool | KInt | KLong | KSize | KUInt32 | KInt64 | KUInt64 | KStr | KData | KRaw(length: int)

  function KindOf(v: Value): Kind
  {
    match v
    case Bool(_) => KBool
    case Int(_) => KInt
    case Long(_) => KLong
    case Size(_) => KSize
    case UInt32(_) => KUInt32
    case Int64(_) => KInt64
    case UInt64(_) => KUInt64
    case Str(_) => KStr
    case Data(_) => KData
    case Raw(s) => KRaw(|s|)
  }

  const INT_LIMIT: int := 0x8000_0000
  const INT64_LIMIT: int := 0x8000_0000_0000_0000

  /** The values of the C types on a 64-bit machine; the length of a string is an int. */
  predicate InRange(v: Value)
  {
    match v
    case Bool(_) => true
    case Int(n) => -INT_LIMIT <= n < INT_LIMIT
    case UInt32(n) => 0 <= n < 2 * INT_LIMIT
    case Long(n) => -INT64_LIMIT <= n < INT64_LIMIT
    case Int64(n) => -INT64_LIMIT <= n < INT64_LIMIT
    case Size(n) => 0 <= n < 2 * INT64_LIMIT
    case UInt64(n) => 0 <= n < 2 * INT64_LIMIT
    case Str(s) => |s| < INT_LIMIT
    case Data(s) => |s| < INT_LIMIT
    case Raw(s) => |s| < INT_LIMIT
  }

  predicate IsWord(k: Kind)
  {
    !k.KStr? && !k.KData? && !k.KRaw?
  }

  function Width(k: Kind): nat
    requires IsWord(k)
  {
    if k.KBool? || k.KInt? || k.KUInt32? then 4 else 8
  }

  predicate IsSigned(k: Kind)
  {
    k.KBool? || k.KInt? || k.KLong? || k.KInt64?
  }

  lemma Powers()
    ensures Pow256(4) == 2 * INT_LIMIT && Pow256(8) == 2 * INT64_LIMIT
  {
    assert Pow256(2) == 0x1_0000;
    assert Pow256(4) == 0x1_0000_0000;
    assert Pow256(6) == 0x1_0000_0000_0000;
  }

  /** The object representation of a number. */
  function StoreInt(n: int, width: nat): (b: seq<byte>)
    requires -(Pow256(width) as int) <= 2 * n && n < Pow256(width)
    ensures |b| == width
  {
    ToLE(if n < 0 then n + Pow256(width) else n, width)
  }

  function LoadInt(b: seq<byte>, signed: bool): int
  {
    if signed then Signed(FromLE(b), |b|) else FromLE(b)
  }

  lemma LoadsWhatWasStored(n: int, width: nat, signed: bool)
    requires if signed then -(Pow256(width) as int) <= 2 * n < Pow256(width) else 0 <= n < Pow256(width)
    ensures LoadInt(StoreInt(n, width), signed) == n
  {
    hide ToLE, FromLE, Pow256;
    var u := if n < 0 then n + Pow256(width) else n;
    LittleEndianRoundTrip(u, width);
    Arith.DivModUnique(u, Pow256(width), 0, u);
  }

  function NumberIn(v: Value): int
    requires IsWord(KindOf(v))
  {
    match v
    case Bool(b) => if b then 1 else 0
    case Int(n) => n
    case Long(n) => n
    case Size(n) => n
    case UInt32(n) => n
    case Int64(n) => n
    case UInt64(n) => n
  }

  function ValueOf(k: Kind, n: int): Value
    requires IsWord(k)
  {
    match k
    case KBool => Bool(n != 0)
    case KInt => Int(n)
    case KLong => Long(n)
    case KSize => Size(n)
    case KUInt32 => UInt32(n)
    case KInt64 => Int64(n)
    case KUInt64 => UInt64(n)
  }

  lemma WordInRange(v: Value)
    requires InRange(v) && IsWord(KindOf(v))
    ensures var p := Pow256(Width(KindOf(v)));
            if IsSigned(KindOf(v)) then -(p as int) <= 2 * NumberIn(v) < p else 0 <= NumberIn(v) < p
  {
    Powers();
  }

  // ----- the payload -----

  /** One WriteBytes call: the new bytes start at the next multiple of four. What lies in the gap is not specified. */
  ghost predicate Appended(p: seq<byte>, bytes: seq<byte>, q: seq<byte>)
  {
    |q| == Align4(|p|) + |bytes| && q[..|p|] == p && q[Align4(|p|)..] == bytes
  }

  /** The calls that a Write function makes, in order. */
  ghost predicate Written(p: seq<byte>, v: Value, q: seq<byte>)
    requires InRange(v)
  {
    if v.Raw? then Appended(p, v.s, q)
    else if v.Str? || v.Data? then
      Powers();
      exists m: seq<byte> :: Appended(p, StoreInt(|v.s|, 4), m) && Appended(m, v.s, q)
    else
      WordInRange(v);
      Appended(p, StoreInt(NumberIn(v), Width(KindOf(v))), q)
  }

  /** IteratorHasRoomFor and the copy behind it. */
  function Piece(p: seq<byte>, pos: nat, n: int): Option<seq<byte>>
  {
    if 0 <= n && pos + n <= |p| then Some(p[pos..pos + n]) else None
  }

  /** The outcome of a Read call; a failing one may have moved the iterator. */
  datatype Outcome = Done(v: Value, next: nat) | Failed(next: nat)

  function ReadNumber(p: seq<byte>, k: Kind, pos: nat): Outcome
    requires IsWord(k)
  {
    match Piece(p, pos, Width(k))
    case None => Failed(pos)
    case Some(b) => Done(ValueOf(k, LoadInt(b, IsSigned(k))), pos + Align4(Width(k)))
  }

  function ReadRaw(p: seq<byte>, n: int, pos: nat): Outcome
  {
    match Piece(p, pos, n)
    case None => Failed(pos)
    case Some(b) => Done(Raw(b), pos + Align4(n))
  }

  /** ReadString and ReadData: a length that must not be negative, then that many bytes. */
  function ReadCounted(p: seq<byte>, k: Kind, pos: nat): Outcome
  {
    var length := ReadNumber(p, KInt, pos);
    if length.Failed? || length.v.n < 0 then Failed(length.next)
    else
      var body := ReadRaw(p, length.v.n, length.next);
      if body.Failed? then body
      else Done(if k.KStr? then Str(body.v.s) else Data(body.v.s), body.next)
  }

  function Read(p: seq<byte>, k: Kind, pos: nat): Outcome
  {
    if k.KRaw? then ReadRaw(p, k.length, pos)
    else if k.KStr? || k.KData? then ReadCounted(p, k, pos)
    else ReadNumber(p, k, pos)
  }

  /** All values read from the front by successive calls, and where the iterator is then. */
  function ReadAll(p: seq<byte>, kinds: seq<Kind>): Option<(seq<Value>, nat)>
  {
    if kinds == [] then Some(([], 0))
    else
      match ReadAll(p, kinds[..|kinds| - 1])
      case None => None
      case Some(front) =>
        match Read(p, kinds[|kinds| - 1], front.1)
        case Failed(_) => None
        case Done(v, next) => Some((front.0 + [v], next))
  }

  function Kinds(vs: seq<Value>): (ks: seq<Kind>)
    ensures |ks| == |vs|
  {
    seq(|vs|, i requires 0 <= i < |vs| => KindOf(vs[i]))
  }

  /** Reading with the kinds of vs gives vs back and leaves the iterator at the end. */
  predicate ReadsBack(p: seq<byte>, vs: seq<Value>)
  {
    ReadAll(p, Kinds(vs)) == Some((vs, Align4(|p|)))
  }

  // ----- lemmas -----

  /** What can be read does not change when more is written behind it. */
  lemma ReadIsStable(p: seq<byte>, q: seq<byte>, k: Kind, pos: nat)
    requires p <= q && Read(p, k, pos).Done?
    ensures Read(q, k, pos) == Read(p, k, pos)
  {
    hide AlignInt, FromLE, Signed;
    PieceIsStable(p, q, pos, if IsWord(k) then Width(k) else 4);
    if k.KRaw? {
      PieceIsStable(p, q, pos, k.length);
    } else if k.KStr? || k.KData? {
      var length := ReadNumber(p, KInt, pos);
      PieceIsStable(p, q, length.next, length.v.n);
    }
  }

  lemma PieceIsStable(p: seq<byte>, q: seq<byte>, pos: nat, n: int)
    requires p <= q
    ensures Piece(p, pos, n).Some? ==> Piece(q, pos, n) == Piece(p, pos, n)
  {
    if 0 <= n && pos + n <= |p| {
      assert q[..|p|] == p;
      assert q[pos..pos + n] == p[pos..pos + n];
    }
  }

  lemma {:induction false} ReadAllIsStable(p: seq<byte>, q: seq<byte>, kinds: seq<Kind>)
    requires p <= q && ReadAll(p, kinds).Some?
    ensures ReadAll(q, kinds) == ReadAll(p, kinds)
    decreases |kinds|
  {
    hide Read;
    if kinds != [] {
      ReadAllIsStable(p, q, kinds[..|kinds| - 1]);
      ReadIsStable(p, q, kinds[|kinds| - 1], ReadAll(p, kinds[..|kinds| - 1]).value.1);
    }
  }

  lemma PieceOfAppended(p: seq<byte>, bytes: seq<byte>, q: seq<byte>)
    requires Appended(p, bytes, q)
    ensures Piece(q, Align4(|p|), |bytes|) == Some(bytes)
    ensures Align4(|p|) + Align4(|bytes|) == Align4(|q|)
  {
    hide AlignInt;
    var at := Align4(|p|);
    assert q[at..at + |bytes|] == q[at..];
    SumAligned(at, |bytes|);
  }

  lemma SumAligned(a: nat, n: nat)
    requires a % 4 == 0
    ensures Align4(a + n) == a + Align4(n)
  {
    hide AlignInt;
  }

  lemma AppendedIsLonger(p: seq<byte>, bytes: seq<byte>, q: seq<byte>)
    requires Appended(p, bytes, q)
    ensures p <= q
  {
  }

  /** A value that was written last is read at the place where it was put. */
  lemma ReadsWhatWasWritten(p: seq<byte>, v: Value, q: seq<byte>)
    requires InRange(v) && Written(p, v, q)
    ensures p <= q && Read(q, KindOf(v), Align4(|p|)) == Done(v, Align4(|q|))
  {
    hide AlignInt, LoadInt, StoreInt, Pow256, Appended;
    if v.Raw? {
      PieceOfAppended(p, v.s, q);
      AppendedIsLonger(p, v.s, q);
    } else if v.Str? || v.Data? {
      ReadsCounted(p, v, q);
    } else {
      WordInRange(v);
      var b := StoreInt(NumberIn(v), Width(KindOf(v)));
      PieceOfAppended(p, b, q);
      AppendedIsLonger(p, b, q);
      LoadsWhatWasStored(NumberIn(v), Width(KindOf(v)), IsSigned(KindOf(v)));
    }
  }

  lemma ReadsCounted(p: seq<byte>, v: Value, q: seq<byte>)
    requires (v.Str? || v.Data?) && InRange(v) && Written(p, v, q)
    ensures p <= q && ReadCounted(q, KindOf(v), Align4(|p|)) == Done(v, Align4(|q|))
  {
    hide AlignInt, LoadInt, StoreInt, Pow256, Appended;
    Powers();
    var b := StoreInt(|v.s|, 4);
    var m: seq<byte> :| Appended(p, b, m) && Appended(m, v.s, q);
    PieceOfAppended(p, b, m);
    PieceOfAppended(m, v.s, q);
    AppendedIsLonger(p, b, m);
    AppendedIsLonger(m, v.s, q);
    LoadsWhatWasStored(|v.s|, 4, true);
    PieceIsStable(m, q, Align4(|p|), 4);
  }

  /** Every further write extends what is read back by exactly its value. */
  lemma WriteExtendsReadBack(p: seq<byte>, vs: seq<Value>, v: Value, q: seq<byte>)
    requires ReadsBack(p, vs) && InRange(v) && Written(p, v, q)
    ensures ReadsBack(q, vs + [v])
  {
    hide Read, Written, AlignInt;
    ReadsWhatWasWritten(p, v, q);
    ReadAllIsStable(p, q, Kinds(vs));
    assert Kinds(vs + [v])[..|vs|] == Kinds(vs);
  }

  /** At the end no read of one byte or more succeeds. */
  lemma NothingMoreToRead(p: seq<byte>, k: Kind)
    requires k.KRaw? ==> k.length != 0
    ensures Read(p, k, Align4(|p|)) == Failed(Align4(|p|))
  {
  }

  /** Any sequence of writes into an empty pickle, read with the same types, gives the same values. */
  lemma {:induction false} RunReadsBack(payloads: seq<seq<byte>>, vs: seq<Value>)
    requires |payloads| == |vs| + 1 && payloads[0] == []
    requires forall i :: 0 <= i < |vs| ==> InRange(vs[i]) && Written(payloads[i], vs[i], payloads[i + 1])
    ensures ReadsBack(payloads[|vs|], vs)
    decreases |vs|
  {
    hide Written, ReadAll;
    if vs == [] {
      EmptyReadsBack();
    } else {
      var n := |vs| - 1;
      RunReadsBack(payloads[..|vs|], vs[..n]);
      WriteExtendsReadBack(payloads[n], vs[..n], vs[n], payloads[n + 1]);
      assert vs == vs[..n] + [vs[n]];
    }
  }

  lemma EmptyReadsBack()
    ensures ReadsBack([], [])
  {
  }

  /** A data block whose buffer was shortened after it was filled is a data block of the shorter content. */
  lemma TrimmedIsWritten(p: seq<byte>, d: seq<byte>, m: nat, q: seq<byte>)
    requires m <= |d| < INT_LIMIT && Pow256(4) == 2 * INT_LIMIT
    requires |q| == Align4(|p|) + 4 + m && q[..|p|] == p
    requires q[Align4(|p|)..Align4(|p|) + 4] == StoreInt(m, 4) && q[Align4(|p|) + 4..] == d[..m]
    ensures Written(p, Data(d[..m]), q)
  {
    hide AlignInt, StoreInt, Pow256;
    var mid := q[..Align4(|p|) + 4];
    assert Appended(p, StoreInt(|d[..m]|, 4), mid);
    assert Appended(mid, d[..m], q);
  }
}
