/** base3/pickle.cc, the object: a growing buffer that starts with a header, whose first field is the payload size. */
module PickleObject {
  import opened Bytes
  import opened Text
  import opened PickleFormat

  const PAYLOAD_UNIT: nat := 64
  /** The largest size_t marks a pickle that does not own its buffer. */
  const READ_ONLY: nat := 0xFFFF_FFFF_FFFF_FFFF
  const UINT32: nat := 0x1_0000_0000

  // ----- the bytes of a pickle -----

  /** A buffer h with a header of hs bytes in front of the payload. */
  predicate Fits(h: seq<byte>, hs: nat)
  {
    |h| >= 4 && hs % 4 == 0 && 4 <= hs && hs + FromLE(h[..4]) <= |h|
  }

  function PayloadIn(h: seq<byte>, hs: nat): (p: seq<byte>)
    requires Fits(h, hs)
    ensures |p| == FromLE(h[..4])
  {
    h[hs..hs + FromLE(h[..4])]
  }

  /** The part of the header that belongs to the user. */
  function ExtraIn(h: seq<byte>, hs: nat): seq<byte>
    requires Fits(h, hs)
  {
    h[4..hs]
  }

  /** Moving a pickle to another buffer keeps it when the header and the payload move along. */
  lemma Moved(h: seq<byte>, g: seq<byte>, hs: nat, n: nat)
    requires Fits(h, hs) && hs + FromLE(h[..4]) <= n <= |h| && n <= |g| && g[..n] == h[..n]
    ensures Fits(g, hs) && PayloadIn(g, hs) == PayloadIn(h, hs) && ExtraIn(g, hs) == ExtraIn(h, hs)
  {
    hide FromLE;
    assert h[..n][..4] == h[..4] && g[..n][..4] == g[..4];
    var k := hs + FromLE(h[..4]);
    assert h[..n][hs..k] == h[hs..k] && g[..n][hs..k] == g[hs..k];
    assert h[..n][4..hs] == h[4..hs] && g[..n][4..hs] == g[4..hs];
  }

  /** A larger size field: the old payload is the front of the new one. */
  lemma SizeRaised(h: seq<byte>, hs: nat, n: nat)
    requires Fits(h, hs) && hs + n <= |h| && n < UINT32
    ensures var g := Put(h, 0, ToLE(n, 4));
            && Fits(g, hs) && |PayloadIn(g, hs)| == n && ExtraIn(g, hs) == ExtraIn(h, hs)
            && PayloadIn(g, hs) == h[hs..hs + n]
            && (|PayloadIn(h, hs)| <= n ==> PayloadIn(g, hs)[..|PayloadIn(h, hs)|] == PayloadIn(h, hs))
  {
    hide FromLE, ToLE;
    var g := Put(h, 0, ToLE(n, 4));
    SizeField(n);
    assert g[..4] == ToLE(n, 4);
    assert g[hs..hs + n] == h[hs..hs + n];
    assert g[4..hs] == h[4..hs];
  }

  /** Storing behind the size field changes no size. */
  lemma StoredBehind(h: seq<byte>, hs: nat, at: nat, b: seq<byte>)
    requires Fits(h, hs) && hs <= at && at + |b| <= |h|
    ensures Fits(Put(h, at, b), hs) && ExtraIn(Put(h, at, b), hs) == ExtraIn(h, hs)
    ensures var n := FromLE(h[..4]);
            PayloadIn(Put(h, at, b), hs) == Put(h, at, b)[hs..hs + n]
  {
    hide FromLE;
    assert Put(h, at, b)[..4] == h[..4];
    assert Put(h, at, b)[4..hs] == h[4..hs];
  }

  lemma SizeFieldBound(b: seq<byte>)
    requires |b| == 4
    ensures FromLE(b) < UINT32
  {
    FromLEBound(b);
    Powers();
  }

  lemma SizeField(n: nat)
    requires n < UINT32
    ensures FromLE(ToLE(n, 4)) == n
  {
    LittleEndianRoundTrip(n, 4);
    Powers();
  }

  /** What View accepts: the size field leaves a header that is not empty and a multiple of four. */
  predicate FitsTogether(data: seq<byte>)
  {
    |data| >= 4 && FromLE(data[..4]) < |data| && (|data| - FromLE(data[..4])) % 4 == 0
  }

  /** The cast to uint32. */
  function Cut32(n: nat): (r: nat)
    ensures r < UINT32 && r <= n && (n < UINT32 ==> r == n)
  {
    n % UINT32
  }

  /** The payload size after `length` bytes at the next multiple of four. */
  function SizeWith(size: nat, length: nat): nat
  {
    Align4(size) + length
  }

  /** The payload size after a value. */
  function SizeWithValue(size: nat, v: Value): nat
  {
    if v.Raw? then SizeWith(size, |v.s|)
    else if v.Str? || v.Data? then SizeWith(SizeWith(size, 4), |v.s|)
    else SizeWith(size, Width(KindOf(v)))
  }

  // ----- memory -----

  /** The capacity that holds `needed` bytes: the old one, or at least twice as much in units of 64. */
  function Grown(capacity: nat, needed: nat): nat
  {
    if needed <= capacity then capacity
    else AlignInt(if capacity * 2 > needed then capacity * 2 else needed, PAYLOAD_UNIT)
  }

  /** realloc is not called, or grants what is asked for. */
  predicate Grants(capacity: nat, needed: nat, limit: nat)
  {
    needed <= capacity || Grown(capacity, needed) <= limit
  }

  /** Memory for a length, and then for that many bytes. */
  predicate GrantsCounted(capacity: nat, hs: nat, size: nat, n: nat, limit: nat)
  {
    && Grants(capacity, hs + SizeWith(size, 4), limit)
    && Grants(Grown(capacity, hs + SizeWith(size, 4)), hs + SizeWith(Cut32(SizeWith(size, 4)), n), limit)
  }

  predicate GrantsValue(capacity: nat, hs: nat, size: nat, v: Value, limit: nat)
  {
    if v.Str? || v.Data? then GrantsCounted(capacity, hs, size, |v.s|, limit)
    else Grants(capacity, hs + SizeWithValue(size, v), limit)
  }

  /** The capacity after a value was written behind a payload of this size. */
  function GrownBy(capacity: nat, hs: nat, size: nat, v: Value): nat
  {
    if v.Str? || v.Data? then
      Grown(Grown(capacity, hs + SizeWith(size, 4)), hs + SizeWith(Cut32(SizeWith(size, 4)), |v.s|))
    else
      Grown(capacity, hs + SizeWithValue(size, v))
  }

  /** Growing never takes more than twice what is needed, and less than 64 bytes of rounding. */
  lemma GrownBound(capacity: nat, needed: nat)
    ensures needed <= Grown(capacity, needed)
    ensures needed > capacity ==> capacity < Grown(capacity, needed) < 2 * needed + PAYLOAD_UNIT
  {
    hide AlignInt;
    AlignIntRoundsUp(if capacity * 2 > needed then capacity * 2 else needed, PAYLOAD_UNIT);
  }

  /** Padding stays inside an allocation whose size is a multiple of 64. */
  lemma PaddingFits(capacity: nat, start: nat, length: nat)
    requires capacity % PAYLOAD_UNIT == 0 && start % 4 == 0 && start + length <= capacity
    ensures start + Align4(length) <= capacity
  {
    hide AlignInt;
    InFours(capacity / PAYLOAD_UNIT, start / 4, Align4(length) / 4, length);
  }

  lemma InFours(q: nat, a: nat, b: nat, length: nat)
    requires 4 * b < length + 4 && 4 * a + length <= 64 * q
    ensures 4 * a + 4 * b <= 64 * q
  {
    assert a + b < 16 * q + 1;
  }

  class Pickle {
    var header: array?<byte>
    var headerSize: nat
    var capacity: nat
    var variableBufferOffset: nat

    ghost predicate Valid()
      reads this, header
    {
      if header == null then headerSize == 0 && capacity == READ_ONLY
      else Fits(header[..], headerSize)
           && (capacity == READ_ONLY || (capacity == header.Length && capacity % PAYLOAD_UNIT == 0))
    }

    ghost predicate Writable()
      reads this, header
    {
      Valid() && header != null && capacity != READ_ONLY
    }

    ghost function Payload(): seq<byte>
      requires Valid()
      reads this, header
    {
      if header == null then [] else PayloadIn(header[..], headerSize)
    }

    ghost function Extra(): seq<byte>
      requires Valid()
      reads this, header
    {
      if header == null then [] else ExtraIn(header[..], headerSize)
    }

    // ----- construction -----

    /** Pickle(int header_size). */
    constructor (size: nat)
      requires 4 <= size <= PAYLOAD_UNIT
      ensures Writable() && fresh(header) && Payload() == [] && headerSize == Align4(size)
      ensures variableBufferOffset == 0
    {
      headerSize := Align4(size);
      header := new byte[PAYLOAD_UNIT];
      capacity := PAYLOAD_UNIT;
      variableBufferOffset := 0;
      new;
      SizeField(0);
      Copy(header, 0, ToLE(0, 4));
      assert header[..][..4] == ToLE(0, 4);
    }

    /** Pickle(const char* data, int data_len): a view of bytes that came from elsewhere, taken only if they fit together. */
    constructor View(data: array<byte>)
      requires data.Length < INT_LIMIT
      ensures Valid() && capacity == READ_ONLY && variableBufferOffset == 0
      ensures header == null || header == data
      ensures header != null <==> FitsTogether(data[..])
      ensures header != null ==> headerSize == data.Length - FromLE(data[..4]) && Payload() == data[headerSize..]
    {
      hide FromLE, AlignInt;
      var size := 0;
      if data.Length >= 4 {
        assert data[..][..4] == data[..4];
        SizeFieldBound(data[..4]);
        // data_len - payload_size is computed in 32 bits
        size := (data.Length - FromLE(data[..4])) % UINT32;
      }
      if size > data.Length {
        size := 0;
      }
      if size != Align4(size) {
        size := 0;
      }
      headerSize, capacity, variableBufferOffset := size, READ_ONLY, 0;
      header := if size == 0 then null else data;
    }

    // ----- writing -----

    /** realloc, which grants at most `limit` bytes. */
    method Resize(newCapacity: nat, limit: nat) returns (ok: bool)
      requires capacity != READ_ONLY
      modifies this`header, this`capacity
      ensures ok <==> AlignInt(newCapacity, PAYLOAD_UNIT) <= limit
      ensures !ok ==> header == old(header) && capacity == old(capacity)
      ensures ok ==> header != null && fresh(header) && header.Length == capacity == AlignInt(newCapacity, PAYLOAD_UNIT)
      ensures ok && old(header) != null ==>
        var kept := if old(header).Length < header.Length then old(header).Length else header.Length;
        header[..][..kept] == old(header[..])[..kept]
    {
      hide AlignInt;
      var size := AlignInt(newCapacity, PAYLOAD_UNIT);
      if size > limit {
        return false;
      }
      var p := new byte[size];
      if header != null {
        var kept := if header.Length < size then header.Length else size;
        Copy(p, 0, header[..kept]);
        assert p[..][..kept] == header[..kept] == header[..][..kept];
      }
      header := p;
      capacity := size;
      ok := true;
    }

    /** The allocation of BeginWrite. */
    method Reserve(needed: nat, limit: nat) returns (ok: bool)
      requires Writable() && needed >= headerSize + |Payload()|
      modifies this`header, this`capacity
      ensures Writable() && (header == old(header) || fresh(header)) && Payload() == old(Payload()) && Extra() == old(Extra())
      ensures ok <==> Grants(old(capacity), needed, limit)
      ensures ok ==> needed <= capacity == Grown(old(capacity), needed)
      ensures !ok ==> header == old(header) && capacity == old(capacity)
    {
      hide AlignInt, FromLE, PayloadIn, ExtraIn;
      if needed > capacity {
        var wanted := if capacity * 2 > needed then capacity * 2 else needed;
        AlignIntRoundsUp(wanted, PAYLOAD_UNIT);
        var granted := Resize(wanted, limit);
        if !granted {
          return false;
        }
        Moved(old(header[..]), header[..], headerSize, old(capacity));
        NotTheMark(capacity);
      }
      ok := true;
    }

    /** header_->payload_size = n. */
    method SetPayloadSize(n: nat)
      requires Writable() && n < UINT32 && headerSize + n <= capacity
      modifies header
      ensures Writable() && Extra() == old(Extra()) && |Payload()| == n
      ensures |old(Payload())| <= n ==> Payload()[..|old(Payload())|] == old(Payload())
    {
      hide FromLE, ToLE, Put, PayloadIn, ExtraIn;
      SizeRaised(header[..], headerSize, n);
      Copy(header, 0, ToLE(n, 4));
    }

    /** Makes room for `length` bytes at the next multiple of four. The new size is cut to 32 bits. */
    method BeginWrite(length: nat, limit: nat) returns (ok: bool, dest: nat)
      requires Writable()
      modifies this`header, this`capacity, header
      ensures Writable() && (header == old(header) || fresh(header)) && Extra() == old(Extra())
      ensures ok <==> Grants(old(capacity), headerSize + SizeWith(|old(Payload())|, length), limit)
      ensures ok ==> capacity == Grown(old(capacity), headerSize + SizeWith(|old(Payload())|, length))
      ensures !ok ==> Payload() == old(Payload()) && header == old(header)
      ensures ok ==> |Payload()| == Cut32(SizeWith(|old(Payload())|, length))
      ensures ok && SizeWith(|old(Payload())|, length) < UINT32 ==> Payload()[..|old(Payload())|] == old(Payload())
      ensures ok ==> dest == headerSize + Align4(|old(Payload())|) && dest + Align4(length) <= header.Length
    {
      hide AlignInt, FromLE, PayloadIn, ExtraIn, Cut32, Fits, Grants, Grown;
      SizeFieldOf(header[..], headerSize);
      var offset := Align4(FromLE(header[..4]));
      assert header[..4] == header[..][..4];
      var newSize := offset + length;
      ok := Reserve(headerSize + newSize, limit);
      if !ok {
        return false, 0;
      }
      SetPayloadSize(Cut32(newSize));
      PaddingFits(capacity, headerSize + offset, length);
      dest := headerSize + offset;
    }

    /** Zeros up to the next multiple of four. */
    method EndWrite(dest: nat, length: nat)
      requires header != null && dest + Align4(length) <= header.Length
      modifies header
      ensures header[..] == Put(old(header[..]), dest + length, Zeros(Align4(length) - length))
    {
      if length % 4 != 0 {
        Copy(header, dest + length, Zeros(4 - length % 4));
      }
      assert Align4(length) == length + if length % 4 != 0 then 4 - length % 4 else 0;
    }

    /** The bytes are appended exactly when the new size fits the 32-bit size field. */
    method WriteBytes(data: seq<byte>, limit: nat) returns (ok: bool)
      requires Writable() && |data| < INT_LIMIT
      modifies this`header, this`capacity, header
      ensures Writable() && (header == old(header) || fresh(header)) && Extra() == old(Extra())
      ensures ok <==> Grants(old(capacity), headerSize + SizeWith(|old(Payload())|, |data|), limit)
      ensures ok ==> capacity == Grown(old(capacity), headerSize + SizeWith(|old(Payload())|, |data|))
      ensures !ok ==> Payload() == old(Payload())
      ensures ok ==> |Payload()| == Cut32(SizeWith(|old(Payload())|, |data|))
      ensures ok ==> (Appended(old(Payload()), data, Payload()) <==> SizeWith(|old(Payload())|, |data|) < UINT32)
    {
      hide AlignInt, FromLE, Zeros, Put, Fits, PayloadIn, ExtraIn, Appended, Cut32, Grants, Grown;
      var dest;
      ok, dest := BeginWrite(|data|, limit);
      if !ok {
        return;
      }
      var pad := Zeros(Align4(|data|) - |data|);
      StoredWithPad(header[..], headerSize, dest, data, pad);
      if SizeWith(|old(Payload())|, |data|) < UINT32 {
        WrittenBehind(header[..], headerSize, dest, data, pad);
        AppendedBehind(old(Payload()), Payload(), data);
      } else {
        NotAppended(old(Payload()), data);
      }
      Copy(header, dest, data);
      EndWrite(dest, |data|);
    }

    /** WriteString and WriteData: the length, then the bytes. */
    method WriteCounted(v: Value, limit: nat) returns (ok: bool)
      requires Writable() && InRange(v) && (v.Str? || v.Data?)
      modifies this`header, this`capacity, header
      ensures Writable() && (header == old(header) || fresh(header)) && Extra() == old(Extra())
      ensures ok <==> GrantsValue(old(capacity), headerSize, |old(Payload())|, v, limit)
      ensures ok ==> capacity == GrownBy(old(capacity), headerSize, |old(Payload())|, v)
      ensures ok ==> (Written(old(Payload()), v, Payload()) <==> SizeWithValue(|old(Payload())|, v) < UINT32)
      ensures !ok && SizeWithValue(|old(Payload())|, v) < UINT32 ==> old(Payload()) <= Payload()
    {
      hide AlignInt, StoreInt, FromLE, Pow256, Fits, PayloadIn, ExtraIn, Written, Grants, Grown, Cut32;
      Powers();
      ghost var p := Payload();
      PayloadBound(header[..], headerSize);
      ok := WriteBytes(StoreInt(|v.s|, 4), limit);
      if ok {
        ghost var m := Payload();
        PayloadBound(header[..], headerSize);
        if SizeWithValue(|p|, v) < UINT32 {
          AppendedIsLonger(p, StoreInt(|v.s|, 4), m);
        }
        ok := WriteBytes(v.s, limit);
        if ok {
          PayloadBound(header[..], headerSize);
          CountedIsWrittenIff(p, v, m, Payload());
        }
      }
    }

    /** WriteInt and its siblings, WriteString, WriteData and WriteBytes: the value is written exactly when
        the payload with it fits the 32-bit size field. */
    method Write(v: Value, limit: nat) returns (ok: bool)
      requires Writable() && InRange(v)
      modifies this`header, this`capacity, header
      ensures Writable() && (header == old(header) || fresh(header)) && Extra() == old(Extra())
      ensures ok <==> GrantsValue(old(capacity), headerSize, |old(Payload())|, v, limit)
      ensures ok ==> capacity == GrownBy(old(capacity), headerSize, |old(Payload())|, v)
      ensures ok ==> (Written(old(Payload()), v, Payload()) <==> SizeWithValue(|old(Payload())|, v) < UINT32)
      ensures !ok && SizeWithValue(|old(Payload())|, v) < UINT32 ==> old(Payload()) <= Payload()
    {
      hide AlignInt, StoreInt, FromLE, Pow256, Appended, Fits, PayloadIn, ExtraIn, Grants, Grown, Cut32;
      if v.Raw? {
        ok := WriteBytes(v.s, limit);
      } else if v.Str? || v.Data? {
        ok := WriteCounted(v, limit);
      } else {
        WordInRange(v);
        ok := WriteBytes(StoreInt(NumberIn(v), Width(KindOf(v))), limit);
      }
    }

    /** The first half of BeginWriteData: the length, and room for the bytes. */
    method BeginCounted(length: nat, limit: nat) returns (ok: bool, dest: nat)
      requires Writable() && length < INT_LIMIT && Align4(|Payload()|) + 4 + length < UINT32
      modifies this`header, this`capacity, header
      ensures Writable() && (header == old(header) || fresh(header)) && Extra() == old(Extra())
      ensures !ok ==> old(Payload()) <= Payload()
      ensures ok <==> GrantsCounted(old(capacity), headerSize, |old(Payload())|, length, limit)
      ensures ok ==>
        var p, at := old(Payload()), Align4(|old(Payload())|);
        && |Payload()| == at + 4 + length && Payload()[..|p|] == p && Payload()[at..at + 4] == StoreInt(length, 4)
        && dest == headerSize + at + 4 && dest + Align4(length) <= header.Length
    {
      hide AlignInt, StoreInt, FromLE, ToLE, Pow256, Put, Fits, PayloadIn, ExtraIn, Cut32, Appended, Grants, Grown, Align4;
      Powers();
      ok := WriteBytes(StoreInt(length, 4), limit);
      if !ok {
        return false, 0;
      }
      AppendedIsLonger(old(Payload()), StoreInt(length, 4), Payload());
      ghost var m := Payload();
      ok, dest := BeginWrite(length, limit);
      if ok {
        ReservedBehind(old(Payload()), StoreInt(length, 4), m, Payload(), length);
      }
    }

    /** The caller gets the address of a buffer inside the payload. */
    method BeginWriteData(length: int, limit: nat) returns (ok: bool, dest: nat)
      requires Writable() && variableBufferOffset == 0
      requires length < INT_LIMIT && Align4(|Payload()|) + 4 + length < UINT32 && Align4(|Payload()|) + 4 < UINT32
      modifies this, header
      ensures Writable() && (header == old(header) || fresh(header)) && Extra() == old(Extra())
      ensures !ok ==> old(Payload()) <= Payload() && variableBufferOffset == 0
      ensures ok <==> length >= 0 && GrantsCounted(old(capacity), headerSize, |old(Payload())|, length, limit)
      ensures ok ==>
        var p, at := old(Payload()), Align4(|old(Payload())|);
        && |Payload()| == at + 4 + length && Payload()[..|p|] == p && Payload()[at..at + 4] == StoreInt(length, 4)
        && variableBufferOffset == headerSize + at && dest == variableBufferOffset + 4
        && dest + length <= header.Length
    {
      hide AlignInt, StoreInt, FromLE, ToLE, Zeros, Put, Fits, PayloadIn, ExtraIn, GrantsCounted, Align4;
      Powers();
      if length < 0 {
        return false, 0;
      }
      ok, dest := BeginCounted(length, limit);
      if !ok {
        return false, 0;
      }
      variableBufferOffset := dest - 4;
      PaddedBehind(header[..], headerSize, Zeros(Align4(length) - length));
      EndWrite(dest, length);
    }

    /** Shortens the buffer of BeginWriteData. The length it was announced with must still stand in front of it. */
    method TrimWriteData(newLength: int)
      requires -INT_LIMIT <= newLength < INT_LIMIT
      requires Writable() && headerSize <= variableBufferOffset && variableBufferOffset + 4 <= headerSize + |Payload()|
      requires var at := variableBufferOffset - headerSize;
               0 <= LoadInt(Payload()[at..at + 4], true) <= |Payload()| - at - 4
      modifies header
      ensures Writable() && Extra() == old(Extra())
      ensures
        var p, at := old(Payload()), variableBufferOffset - headerSize;
        var length := LoadInt(p[at..at + 4], true);
        if 0 <= newLength <= length then
          Powers();
          Payload() == (p[..at] + StoreInt(newLength, 4) + p[at + 4..])[..|p| - (length - newLength)]
        else Payload() == p
    {
      hide AlignInt, StoreInt, LoadInt, FromLE, ToLE, Pow256, Put;
      Powers();
      ghost var h := header[..];
      var at := variableBufferOffset;
      WordInPayload(h, headerSize, at);
      var length := LoadInt(header[at..at + 4], true);
      if newLength < 0 || newLength > length {
        return;
      }
      var size := FromLE(header[..4]) - (length - newLength);
      assert header[..4] == h[..4];
      SizeFieldBound(h[..4]);
      Trimmed(h, headerSize, at, size, StoreInt(newLength, 4));
      Copy(header, 0, ToLE(size, 4));
      Copy(header, at, StoreInt(newLength, 4));
    }

    /** The use that BeginWriteData and TrimWriteData are meant for: reserve, fill, shorten at once. */
    method WriteDataAndTrim(d: seq<byte>, m: nat, limit: nat) returns (ok: bool)
      requires Writable() && variableBufferOffset == 0 && m <= |d| < INT_LIMIT
      requires Align4(|Payload()|) + 4 + |d| < UINT32
      modifies this, header
      ensures Writable() && (header == old(header) || fresh(header)) && Extra() == old(Extra())
      ensures ok <==> GrantsCounted(old(capacity), headerSize, |old(Payload())|, |d|, limit)
      ensures if ok then Written(old(Payload()), Data(d[..m]), Payload()) else old(Payload()) <= Payload()
    {
      hide AlignInt, StoreInt, LoadInt, FromLE, ToLE, Pow256, Put, Written, Fits, PayloadIn, ExtraIn, GrantsCounted, Align4;
      ghost var p := Payload();
      var dest;
      ok, dest := BeginWriteData(|d|, limit);
      if !ok {
        return;
      }
      Powers();
      LoadsWhatWasStored(|d|, 4, true);
      ghost var at, begun := Align4(|p|), Payload();
      WrittenBehind(header[..], headerSize, dest, d, []);
      PutNothing(Put(header[..], dest, d), dest + |d|);
      Copy(header, dest, d);
      FilledBuffer(p, begun, StoreInt(|d|, 4), d);
      TrimWriteData(m);
      TrimmedBuffer(p, begun[..at + 4] + d, StoreInt(m, 4), d, m);
      TrimmedIsWritten(p, d, m, Payload());
    }

    // ----- copies -----

    /** Pickle(const Pickle& other). The code aborts when the memory is refused. */
    constructor CopyOf(other: Pickle)
      requires other.Valid() && other.header != null
      ensures Writable() && fresh(header)
      ensures headerSize == other.headerSize && variableBufferOffset == other.variableBufferOffset
      ensures Payload() == other.Payload() && Extra() == other.Extra()
    {
      hide AlignInt, FromLE, PayloadIn, ExtraIn;
      var size := other.headerSize + FromLE(other.header[..4]);
      assert other.header[..4] == other.header[..][..4];
      headerSize, variableBufferOffset := other.headerSize, other.variableBufferOffset;
      capacity := AlignInt(size, PAYLOAD_UNIT);
      AlignIntRoundsUp(size, PAYLOAD_UNIT);
      header := new byte[AlignInt(size, PAYLOAD_UNIT)];
      new;
      FrontCopied(other.header[..], header[..], size);
      Moved(other.header[..], Put(header[..], 0, other.header[..size]), headerSize, size);
      NotTheMark(capacity);
      Copy(header, 0, other.header[..size]);
    }

    /** operator=, for two different objects. */
    method Assign(other: Pickle, limit: nat) returns (ok: bool)
      requires other != this && other.Valid() && other.header != null && Valid() && (header != null || capacity == READ_ONLY)
      modifies this
      ensures other.Valid() && other.Payload() == old(other.Payload()) && other.Extra() == old(other.Extra())
      ensures ok ==> Writable() && fresh(header) && Payload() == other.Payload() && Extra() == other.Extra()
      ensures ok ==> headerSize == other.headerSize && variableBufferOffset == other.variableBufferOffset
      ensures ok <==> AlignInt(other.headerSize + |other.Payload()|, PAYLOAD_UNIT) <= limit
    {
      hide AlignInt, FromLE, PayloadIn, ExtraIn;
      if capacity == READ_ONLY {
        header := null;
        capacity := 0;
      }
      if headerSize != other.headerSize {
        header := null;
        headerSize := other.headerSize;
      }
      var size := other.headerSize + FromLE(other.header[..4]);
      assert other.header[..4] == other.header[..][..4];
      AlignIntRoundsUp(size, PAYLOAD_UNIT);
      ok := Resize(size, limit);
      if !ok {
        return;
      }
      FrontCopied(other.header[..], header[..], size);
      Moved(other.header[..], Put(header[..], 0, other.header[..size]), headerSize, size);
      NotTheMark(capacity);
      Copy(header, 0, other.header[..size]);
      variableBufferOffset := other.variableBufferOffset;
    }

    // ----- reading -----

    /** The common part of the Read functions. `iter` counts from the start of the payload; None is the null iterator. */
    method ReadPiece(iter: Option<nat>, n: int) returns (ok: bool, bytes: seq<byte>, next: nat)
      requires Valid()
      ensures match Piece(Payload(), At(iter), n)
              case Some(b) => ok && bytes == b && next == At(iter) + Align4(n)
              case None => !ok && next == At(iter)
    {
      hide AlignInt, FromLE;
      next := At(iter);
      bytes := [];
      var payloadSize := 0;
      if header != null {
        payloadSize := FromLE(header[..4]);
        assert header[..4] == header[..][..4];
      }
      var start, end := headerSize + next, headerSize + payloadSize;
      if n < 0 || start > end || start + n > end {
        return false, bytes, next;
      }
      if header != null {
        bytes := header[start..start + n];
        assert bytes == header[..][start..start + n];
        SliceOfPayload(header[..], headerSize, next, n);
      }
      return true, bytes, next + Align4(n);
    }

    method ReadNumber(k: Kind, iter: Option<nat>) returns (r: Outcome)
      requires Valid() && IsWord(k)
      ensures r == PickleFormat.ReadNumber(Payload(), k, At(iter))
    {
      var ok, bytes, next := ReadPiece(iter, Width(k));
      r := if ok then Done(ValueOf(k, LoadInt(bytes, IsSigned(k))), next) else Failed(next);
    }

    /** ReadBool to ReadUInt64, ReadString, ReadData and ReadBytes. */
    method Read(k: Kind, iter: Option<nat>) returns (r: Outcome)
      requires Valid()
      ensures r == PickleFormat.Read(Payload(), k, At(iter))
    {
      hide AlignInt, LoadInt, FromLE, PayloadIn, ExtraIn, Fits, Piece;
      if k.KRaw? {
        var ok, bytes, next := ReadPiece(iter, k.length);
        r := if ok then Done(Raw(bytes), next) else Failed(next);
      } else if k.KStr? || k.KData? {
        var length := ReadNumber(KInt, iter);
        if length.Failed? || length.v.n < 0 {
          return Failed(length.next);
        }
        var ok, bytes, next := ReadPiece(Some(length.next), length.v.n);
        r := if ok then Done(if k.KStr? then Str(bytes) else Data(bytes), next) else Failed(next);
      } else {
        r := ReadNumber(k, iter);
      }
    }

    /** Successive reads through one iterator that starts out null. */
    method ReadAll(kinds: seq<Kind>) returns (ok: bool, vs: seq<Value>, iter: Option<nat>)
      requires Valid()
      ensures match PickleFormat.ReadAll(Payload(), kinds)
              case Some(r) => ok && vs == r.0 && At(iter) == r.1
              case None => !ok
    {
      vs, iter := [], None;
      for i := 0 to |kinds|
        invariant PickleFormat.ReadAll(Payload(), kinds[..i]) == Some((vs, At(iter)))
      {
        assert kinds[..i + 1][..i] == kinds[..i];
        var r := Read(kinds[i], iter);
        if r.Failed? {
          ReadAllFailsEarly(Payload(), kinds, i + 1);
          return false, vs, Some(r.next);
        }
        vs, iter := vs + [r.v], Some(r.next);
      }
      assert kinds[..|kinds|] == kinds;
      ok := true;
    }

    /** Written values come back, in order and with nothing left over. */
    method WriteThenRead(vs: seq<Value>, limit: nat) returns (ok: bool, back: seq<Value>, iter: Option<nat>)
      requires Writable() && Payload() == []
      requires forall i :: 0 <= i < |vs| ==> InRange(vs[i])
      requires SizeOfAll(vs) < UINT32
      modifies this`header, this`capacity, header
      ensures Writable()
      ensures ok <==> GrantsAll(old(capacity), headerSize, vs, limit)
      ensures 2 * (headerSize + SizeOfAll(vs)) + PAYLOAD_UNIT <= limit ==> ok
      ensures ok ==> back == vs && forall k: Kind :: (k.KRaw? ==> k.length != 0) ==> PickleFormat.Read(Payload(), k, At(iter)).Failed?
    {
      hide PickleFormat.ReadAll, PickleFormat.Read, Written, InRange, SizeWithValue, GrantsValue, GrownBy;
      hide AlignInt, Fits, PayloadIn, ExtraIn, FromLE;
      EmptyReadsBack();
      EnoughMemory(capacity, headerSize, vs, limit);
      for i := 0 to |vs|
        invariant Writable() && (header == old(header) || fresh(header))
        invariant ReadsBack(Payload(), vs[..i]) && |Payload()| == SizeOfAll(vs[..i])
        invariant GrantsAll(old(capacity), headerSize, vs[..i], limit) && capacity == GrownByAll(old(capacity), headerSize, vs[..i])
      {
        SizeGrows(vs, i + 1);
        assert vs[..i + 1][..i] == vs[..i];
        ghost var p := Payload();
        ok := Write(vs[i], limit);
        if !ok {
          GrantsFront(old(capacity), headerSize, vs, i + 1, limit);
          return false, [], None;
        }
        assert vs[..i + 1] == vs[..i] + [vs[i]];
        WriteExtendsReadBack(p, vs[..i], vs[i], Payload());
        WrittenLength(p, vs[i], Payload());
      }
      assert vs[..|vs|] == vs;
      ok, back, iter := ReadAll(Kinds(vs));
      forall k: Kind | k.KRaw? ==> k.length != 0 ensures PickleFormat.Read(Payload(), k, At(iter)).Failed? {
        NothingMoreToRead(Payload(), k);
      }
    }
  }

  /** Where the next read starts. */
  function At(iter: Option<nat>): nat
  {
    match iter
    case None => 0
    case Some(pos) => pos
  }

  /** The size of the payload that holds the values. */
  function SizeOfAll(vs: seq<Value>): nat
  {
    if vs == [] then 0 else SizeWithValue(SizeOfAll(vs[..|vs| - 1]), vs[|vs| - 1])
  }

  lemma {:induction false} SizeGrows(vs: seq<Value>, i: nat)
    requires i <= |vs|
    ensures SizeOfAll(vs[..i]) <= SizeOfAll(vs)
    decreases |vs|
  {
    hide AlignInt;
    if i == |vs| {
      assert vs[..i] == vs;
    } else {
      var front := vs[..|vs| - 1];
      SizeGrows(front, i);
      assert front[..i] == vs[..i];
    }
  }

  /** The capacity after the values were written one after the other into an empty pickle. */
  function GrownByAll(capacity: nat, hs: nat, vs: seq<Value>): nat
  {
    if vs == [] then capacity
    else
      var front := vs[..|vs| - 1];
      GrownBy(GrownByAll(capacity, hs, front), hs, SizeOfAll(front), vs[|vs| - 1])
  }

  /** Each of the values gets the memory it needs. */
  predicate GrantsAll(capacity: nat, hs: nat, vs: seq<Value>, limit: nat)
  {
    vs == [] ||
    var front := vs[..|vs| - 1];
    && GrantsAll(capacity, hs, front, limit)
    && GrantsValue(GrownByAll(capacity, hs, front), hs, SizeOfAll(front), vs[|vs| - 1], limit)
  }

  lemma {:induction false} GrantsFront(capacity: nat, hs: nat, vs: seq<Value>, i: nat, limit: nat)
    requires i <= |vs|
    ensures GrantsAll(capacity, hs, vs, limit) ==> GrantsAll(capacity, hs, vs[..i], limit)
    decreases |vs|
  {
    hide GrantsValue;
    if i == |vs| {
      assert vs[..i] == vs;
    } else {
      var front := vs[..|vs| - 1];
      GrantsFront(capacity, hs, front, i, limit);
      assert front[..i] == vs[..i];
    }
  }

  /** Twice what the values take, and a unit more, is enough: no write is refused. */
  lemma {:induction false} EnoughMemory(capacity: nat, hs: nat, vs: seq<Value>, limit: nat)
    requires SizeOfAll(vs) < UINT32
    ensures 2 * (hs + SizeOfAll(vs)) + PAYLOAD_UNIT <= limit ==> GrantsAll(capacity, hs, vs, limit)
  {
    if vs != [] && 2 * (hs + SizeOfAll(vs)) + PAYLOAD_UNIT <= limit {
      var front, v := vs[..|vs| - 1], vs[|vs| - 1];
      SizeGrows(vs, |vs| - 1);
      EnoughMemory(capacity, hs, front, limit);
      EnoughForOne(GrownByAll(capacity, hs, front), hs, SizeOfAll(front), v, limit);
    }
  }

  lemma EnoughForOne(capacity: nat, hs: nat, size: nat, v: Value, limit: nat)
    requires SizeWithValue(size, v) < UINT32 && 2 * (hs + SizeWithValue(size, v)) + PAYLOAD_UNIT <= limit
    ensures GrantsValue(capacity, hs, size, v, limit)
  {
    hide AlignInt, Grown, Cut32;
    if v.Str? || v.Data? {
      var first := hs + SizeWith(size, 4);
      GrownBound(capacity, first);
      GrownBound(Grown(capacity, first), hs + SizeWith(SizeWith(size, 4), |v.s|));
    } else {
      GrownBound(capacity, hs + SizeWithValue(size, v));
    }
  }

  lemma WrittenLength(p: seq<byte>, v: Value, q: seq<byte>)
    requires InRange(v) && Written(p, v, q)
    ensures |q| == SizeWithValue(|p|, v)
  {
    hide AlignInt, StoreInt;
    if v.Str? || v.Data? {
      Powers();
      var m: seq<byte> :| Appended(p, StoreInt(|v.s|, 4), m) && Appended(m, v.s, q);
    }
  }

  lemma {:induction false} ReadAllFailsEarly(p: seq<byte>, kinds: seq<Kind>, i: nat)
    requires i <= |kinds| && PickleFormat.ReadAll(p, kinds[..i]).None?
    ensures PickleFormat.ReadAll(p, kinds).None?
    decreases |kinds| - i
  {
    if i < |kinds| {
      assert kinds[..i + 1][..i] == kinds[..i];
      ReadAllFailsEarly(p, kinds, i + 1);
    } else {
      assert kinds[..i] == kinds;
    }
  }

  lemma FrontCopied(h: seq<byte>, g: seq<byte>, n: nat)
    requires n <= |h| && n <= |g|
    ensures |Put(g, 0, h[..n])| == |g| && Put(g, 0, h[..n])[..n] == h[..n]
  {
  }

  /** The bytes that data() and size() give out, taken in by View on the other side. */
  method Transfer(sent: Pickle) returns (received: Pickle)
    requires sent.Writable() && sent.headerSize + |sent.Payload()| < INT_LIMIT
    ensures fresh(received) && received.Valid() && received.header != null && received.headerSize == sent.headerSize
    ensures received.Payload() == sent.Payload()
  {
    hide FromLE;
    var h, hs := sent.header[..], sent.headerSize;
    var data := new byte[hs + FromLE(h[..4])];
    Copy(data, 0, h[..data.Length]);
    assert data[..] == h[..data.Length];
    assert data[..][..4] == h[..4] == data[..4];
    received := new Pickle.View(data);
    assert data[hs..] == data[..][hs..];
  }

  lemma PutNothing(h: seq<byte>, at: nat)
    requires at <= |h|
    ensures Put(h, at, []) == h
  {
  }

  lemma FilledBuffer(p: seq<byte>, begun: seq<byte>, word: seq<byte>, d: seq<byte>)
    requires |word| == 4 && |begun| == Align4(|p|) + 4 + |d| && begun[..|p|] == p && begun[Align4(|p|)..Align4(|p|) + 4] == word
    ensures var q := begun[..Align4(|p|) + 4] + d;
            q[..|p|] == p && q[Align4(|p|)..Align4(|p|) + 4] == word && q[Align4(|p|) + 4..] == d
  {
    hide AlignInt;
    var q := begun[..Align4(|p|) + 4] + d;
    assert q[..|p|] == begun[..|p|];
  }

  lemma TrimmedBuffer(p: seq<byte>, filled: seq<byte>, word: seq<byte>, d: seq<byte>, m: nat)
    requires |word| == 4 && |filled| == Align4(|p|) + 4 + |d| && filled[..|p|] == p && filled[Align4(|p|) + 4..] == d && m <= |d|
    ensures var q := (filled[..Align4(|p|)] + word + filled[Align4(|p|) + 4..])[..|filled| - (|d| - m)];
            q[..|p|] == p && q[Align4(|p|)..Align4(|p|) + 4] == word && q[Align4(|p|) + 4..] == d[..m]
  {
    hide AlignInt;
    var q := (filled[..Align4(|p|)] + word + filled[Align4(|p|) + 4..])[..|filled| - (|d| - m)];
    assert q[..|p|] == filled[..|p|];
    var a := Align4(|p|);
    FrontOfSum(filled[..a] + word, filled[a + 4..], m);
    assert q == filled[..a] + word + d[..m];
  }

  lemma FrontOfSum(s: seq<byte>, t: seq<byte>, m: nat)
    requires m <= |t|
    ensures (s + t)[..|s| + m] == s + t[..m]
  {
  }

  lemma SliceOfPayload(h: seq<byte>, hs: nat, pos: nat, n: nat)
    requires Fits(h, hs) && pos + n <= |PayloadIn(h, hs)|
    ensures h[hs + pos..hs + pos + n] == PayloadIn(h, hs)[pos..pos + n]
  {
    hide FromLE;
    var x, y := h[hs + pos..hs + pos + n], PayloadIn(h, hs)[pos..pos + n];
    assert |x| == |y| == n;
    forall i | 0 <= i < n ensures x[i] == y[i] {
      assert PayloadIn(h, hs)[pos + i] == h[hs + pos + i];
    }
  }

  lemma WordInPayload(h: seq<byte>, hs: nat, at: nat)
    requires Fits(h, hs) && hs <= at && at + 4 <= hs + |PayloadIn(h, hs)|
    ensures h[at..at + 4] == PayloadIn(h, hs)[at - hs..at - hs + 4]
  {
    SliceOfPayload(h, hs, at - hs, 4);
  }

  lemma Trimmed(h: seq<byte>, hs: nat, at: nat, size: nat, word: seq<byte>)
    requires Fits(h, hs) && hs <= at && at + 4 <= hs + size && size <= |PayloadIn(h, hs)| < UINT32 && |word| == 4
    ensures var p := PayloadIn(h, hs);
            var g := Put(Put(h, 0, ToLE(size, 4)), at, word);
            && Fits(g, hs) && ExtraIn(g, hs) == ExtraIn(h, hs)
            && PayloadIn(g, hs) == (p[..at - hs] + word + p[at - hs + 4..])[..size]
  {
    hide FromLE, ToLE;
    SizeRaised(h, hs, size);
    var g1 := Put(h, 0, ToLE(size, 4));
    StoredBehind(g1, hs, at, word);
    var p, g := PayloadIn(h, hs), Put(g1, at, word);
    assert g1[hs..] == h[hs..];
    var r := (p[..at - hs] + word + p[at - hs + 4..])[..size];
    assert |PayloadIn(g1, hs)| == size;
    forall i | 0 <= i < size ensures g[hs + i] == r[i] {
      assert p[i] == h[hs + i];
    }
    assert g[hs..hs + size] == r;
  }

  lemma ReservedBehind(p: seq<byte>, word: seq<byte>, m: seq<byte>, q: seq<byte>, length: nat)
    requires |word| == 4 && Appended(p, word, m) && |q| == SizeWith(|m|, length) && q[..|m|] == m
    ensures |m| == Align4(|p|) + 4 && Align4(|m|) == |m| && |q| == Align4(|p|) + 4 + length
    ensures q[..|p|] == p && q[Align4(|p|)..Align4(|p|) + 4] == word
  {
    hide AlignInt;
    var at := Align4(|p|);
    assert q[..|p|] == m[..|p|] by {
      assert forall i :: 0 <= i < |p| ==> q[i] == q[..|m|][i];
    }
    assert q[at..at + 4] == m[at..] by {
      assert forall i :: at <= i < at + 4 ==> q[i] == q[..|m|][i];
    }
  }

  lemma SizeFieldOf(h: seq<byte>, hs: nat)
    requires Fits(h, hs)
    ensures |h| >= 4 && FromLE(h[..4]) == |PayloadIn(h, hs)| && 4 <= hs && hs % 4 == 0 && hs + |PayloadIn(h, hs)| <= |h|
  {
    hide FromLE;
  }

  lemma PayloadBound(h: seq<byte>, hs: nat)
    requires Fits(h, hs)
    ensures |PayloadIn(h, hs)| < UINT32
  {
    SizeFieldBound(h[..4]);
  }

  /** Bytes and padding stored behind the header leave the size field and the header alone. */
  lemma StoredWithPad(h: seq<byte>, hs: nat, dest: nat, data: seq<byte>, pad: seq<byte>)
    requires Fits(h, hs) && hs <= dest && dest + |data| + |pad| <= |h|
    ensures var g := Put(Put(h, dest, data), dest + |data|, pad);
            Fits(g, hs) && ExtraIn(g, hs) == ExtraIn(h, hs) && |PayloadIn(g, hs)| == |PayloadIn(h, hs)|
  {
    hide FromLE;
    StoredBehind(h, hs, dest, data);
    var g1 := Put(h, dest, data);
    assert g1[..4] == h[..4];
    StoredBehind(g1, hs, dest + |data|, pad);
    assert Put(g1, dest + |data|, pad)[..4] == g1[..4];
  }

  lemma NotAppended(p: seq<byte>, data: seq<byte>)
    requires SizeWith(|p|, |data|) >= UINT32
    ensures forall q :: |q| < UINT32 ==> !Appended(p, data, q)
  {
  }

  lemma CountedIsWrittenIff(p: seq<byte>, v: Value, m: seq<byte>, q: seq<byte>)
    requires InRange(v) && (v.Str? || v.Data?) && |p| < UINT32 && |m| < UINT32 && |q| < UINT32 && Pow256(4) == UINT32
    requires Appended(p, StoreInt(|v.s|, 4), m) <==> SizeWith(|p|, 4) < UINT32
    requires Appended(m, v.s, q) <==> SizeWith(|m|, |v.s|) < UINT32
    ensures Written(p, v, q) <==> SizeWithValue(|p|, v) < UINT32
  {
    hide AlignInt, StoreInt, Pow256;
    if SizeWithValue(|p|, v) < UINT32 {
      assert Appended(p, StoreInt(|v.s|, 4), m);
    }
  }

  lemma WrittenBehind(h: seq<byte>, hs: nat, dest: nat, data: seq<byte>, pad: seq<byte>)
    requires Fits(h, hs) && hs <= dest && dest + |data| + |pad| <= |h| && dest + |data| == hs + |PayloadIn(h, hs)|
    ensures var g := Put(Put(h, dest, data), dest + |data|, pad);
            && Fits(g, hs) && ExtraIn(g, hs) == ExtraIn(h, hs)
            && PayloadIn(g, hs) == PayloadIn(h, hs)[..dest - hs] + data
  {
    hide FromLE;
    StoredBehind(h, hs, dest, data);
    var g1 := Put(h, dest, data);
    assert g1[..4] == h[..4];
    StoredBehind(g1, hs, dest + |data|, pad);
    var g := Put(g1, dest + |data|, pad);
    assert g[hs..dest + |data|] == h[hs..dest] + data;
  }

  lemma AppendedBehind(p: seq<byte>, begun: seq<byte>, data: seq<byte>)
    requires |begun| == Align4(|p|) + |data| && begun[..|p|] == p
    ensures Appended(p, data, begun[..Align4(|p|)] + data)
  {
    hide AlignInt;
    assert (begun[..Align4(|p|)] + data)[..|p|] == begun[..|p|];
  }

  lemma PaddedBehind(h: seq<byte>, hs: nat, pad: seq<byte>)
    requires Fits(h, hs) && hs + |PayloadIn(h, hs)| + |pad| <= |h|
    ensures var g := Put(h, hs + |PayloadIn(h, hs)|, pad);
            Fits(g, hs) && ExtraIn(g, hs) == ExtraIn(h, hs) && PayloadIn(g, hs) == PayloadIn(h, hs)
  {
    hide FromLE;
    StoredBehind(h, hs, hs + |PayloadIn(h, hs)|, pad);
  }

  lemma NotTheMark(capacity: nat)
    requires capacity % PAYLOAD_UNIT == 0
    ensures capacity != READ_ONLY
  {
  }
}
