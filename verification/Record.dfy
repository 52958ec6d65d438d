/** The layout of one stored file inside a bundle (bundle/bundle.h), how Writer::Write lays it out
    and how Reader::Read takes it apart. */
module Record {
  import opened Bytes

  const FILE_HEADER := 512
  const URL_SIZE := 256
  const USER_SIZE := 240
  const BUNDLE_HEADER := 1024

  const MAGIC := 0xE4E4E4E4
  const VERSION := 1
  const FILE_NORMAL := 1

  const EIO := 5

  function Align1K(v: nat): (r: nat)
    ensures r % 1024 == 0 && v <= r < v + 1024
  {
    var a := v % 1024;
    if a != 0 then v + 1024 - a else v
  }

  /** The room one stored file takes. */
  function Total(size: nat): (t: nat)
    ensures t >= FILE_HEADER + size
  {
    Align1K(FILE_HEADER + size)
  }

  function UpToNul(s: seq<byte>): (r: seq<byte>)
    ensures r <= s
  {
    if s == [] || s[0] == 0 then [] else [s[0]] + UpToNul(s[1..])
  }

  /** strncpy into an n-byte field: cut at n, or padded with zeros. */
  function StrNCopy(s: seq<byte>, n: nat): (r: seq<byte>)
    ensures |r| == n
  {
    var t := UpToNul(s);
    if |t| >= n then t[..n] else t + Zeros(n - |t|)
  }

  /** The first min(|src|, |dest|) bytes of dest replaced by src. */
  function Overlay(dest: seq<byte>, src: seq<byte>): (r: seq<byte>)
    ensures |r| == |dest|
    ensures forall i :: 0 <= i < |dest| && i < |src| ==> r[i] == src[i]
  {
    if |src| >= |dest| then src[..|dest|] else src + dest[|src|..]
  }

  function HeaderBytes(junk: seq<byte>, url: string, size: nat, user: seq<byte>): (h: seq<byte>)
    requires |junk| >= FILE_HEADER
    ensures |h| == FILE_HEADER
  {
    ToLE(MAGIC, 4) + ToLE(VERSION, 4) + ToLE(FILE_NORMAL, 4) + ToLE(size, 4)
    + StrNCopy(OfString(url), URL_SIZE)
    + Overlay(junk[16 + URL_SIZE..FILE_HEADER], user)
  }

  /** The buffer handed to write(2). `junk` is what the fresh buffer held: the source sets neither
      the user data that is missing nor the padding at the end. */
  function RecordBytes(junk: seq<byte>, url: string, data: seq<byte>, user: seq<byte>): (r: seq<byte>)
    requires |junk| == Total(|data|)
    ensures |r| == Total(|data|)
  {
    HeaderBytes(junk, url, |data|, user) + data + junk[FILE_HEADER + |data|..]
  }

  /** lseek and write: a gap before the offset reads as zeros, and writing nothing changes nothing. */
  function WriteAt(file: seq<byte>, offset: nat, bytes: seq<byte>): (r: seq<byte>)
    ensures |r| >= |file|
    ensures bytes != [] ==> offset + |bytes| <= |r| && r[offset..offset + |bytes|] == bytes
    ensures forall i :: 0 <= i < |file| && i < offset ==> r[i] == file[i]
  {
    var end := offset + |bytes|;
    if bytes == [] then file
    else
      seq(if end < |file| then |file| else end, i requires 0 <= i =>
        if offset <= i < end then bytes[i - offset] else if i < |file| then file[i] else 0)
  }

  /** The bytes stand in the file at the offset. */
  predicate OnDisk(file: seq<byte>, offset: nat, bytes: seq<byte>)
  {
    offset + |bytes| <= |file| && file[offset..offset + |bytes|] == bytes
  }

  /** Where the file did not reach beyond the offset, a write leaves the whole buffer on disk exactly
      when write(2) put out all of it. */
  lemma OnDiskIff(file: seq<byte>, offset: nat, bytes: seq<byte>, out: nat)
    requires |file| <= offset && out <= |bytes| && bytes != []
    ensures OnDisk(WriteAt(file, offset, bytes[..out]), offset, bytes) <==> out == |bytes|
  {
    if out == |bytes| {
      assert bytes[..out] == bytes;
    }
  }

  /** How far the file reaches after a write, and what its bytes are. */
  predicate IsWrite(file: seq<byte>, offset: nat, bytes: seq<byte>, r: seq<byte>)
  {
    var end := offset + |bytes|;
    && |r| == (if end < |file| then |file| else end)
    && forall i :: 0 <= i < |r| ==>
         r[i] == if offset <= i < end then bytes[i - offset] else if i < |file| then file[i] else 0
  }

  lemma AfterWriteAt(file: seq<byte>, offset: nat, bytes: seq<byte>)
    requires bytes != []
    ensures IsWrite(file, offset, bytes, WriteAt(file, offset, bytes))
  {
  }

  lemma TwoWrites(file: seq<byte>, offset: nat, a: seq<byte>, b: seq<byte>, once: seq<byte>, x: seq<byte>, y: seq<byte>)
    requires IsWrite(file, offset, a, once) && IsWrite(once, offset + |a|, b, x) && IsWrite(file, offset, a + b, y)
    ensures x == y
  {
    assert |x| == |y|;
    forall i | 0 <= i < |x| ensures x[i] == y[i] {
    }
  }

  lemma NothingWritten(file: seq<byte>, offset: nat)
    ensures WriteAt(file, offset, []) == file
  {
  }

  /** Writing in two pieces is writing at once. */
  lemma WriteAtTwice(file: seq<byte>, offset: nat, a: seq<byte>, b: seq<byte>)
    ensures WriteAt(WriteAt(file, offset, a), offset + |a|, b) == WriteAt(file, offset, a + b)
  {
    hide WriteAt, IsWrite;
    var once := WriteAt(file, offset, a);
    if a == [] {
      assert a + b == b;
      NothingWritten(file, offset);
    } else if b == [] {
      assert a + b == a;
      NothingWritten(once, offset + |a|);
    } else {
      AfterWriteAt(file, offset, a);
      AfterWriteAt(once, offset + |a|, b);
      AfterWriteAt(file, offset, a + b);
      TwoWrites(file, offset, a, b, once, WriteAt(once, offset + |a|, b), WriteAt(file, offset, a + b));
    }
  }

  datatype ReadResult =
    | ReadOk(data: seq<byte>, user: seq<byte>)
    | ReadShort(data: seq<byte>)   // fewer bytes than asked for: the code returns whatever errno holds
    | ReadError(code: int)

  function Field(h: seq<byte>, i: nat): nat
    requires i + 4 <= |h|
  {
    FromLE(h[i..i + 4])
  }

  /** Reader::Read on an open file. */
  function ReadAt(file: seq<byte>, offset: nat, length: nat, bufSize: nat): ReadResult
  {
    if |file| < offset + FILE_HEADER then ReadError(EIO)
    else
      var h := file[offset..offset + FILE_HEADER];
      if Field(h, 0) != MAGIC then ReadError(EIO)
      else if Field(h, 4) != VERSION then ReadError(EIO)
      else if Field(h, 12) < length then ReadError(EIO)
      else if Field(h, 8) != FILE_NORMAL then ReadError(EIO)
      else
        var rsize := if length > bufSize then bufSize else length;
        var start := offset + FILE_HEADER;
        if |file| < start + rsize then ReadShort(file[start..])
        else ReadOk(file[start..start + rsize], h[16 + URL_SIZE..])
  }

  lemma SliceOfSlice<T>(s: seq<T>, a: nat, b: nat, c: nat, d: nat)
    requires a <= b <= |s| && c <= d <= b - a
    ensures s[a..b][c..d] == s[a + c..a + d]
  {
    var x, y := s[a..b][c..d], s[a + c..a + d];
    assert |x| == |y|;
    forall i | 0 <= i < |x| ensures x[i] == y[i] {
    }
  }

  /** The header and the start of the data in the first `out` bytes of header, data and padding. */
  lemma FrontParts(h: seq<byte>, d: seq<byte>, pad: seq<byte>, out: nat, k: nat)
    requires k <= |d| && |h| + k <= out <= |h| + |d| + |pad|
    ensures var r := (h + d + pad)[..out];
            r[..|h|] == h && r[|h|..|h| + k] == d[..k]
  {
    var r := (h + d + pad)[..out];
    forall i | 0 <= i < |h| ensures r[..|h|][i] == h[i] {
    }
    forall i | 0 <= i < k ensures r[|h|..|h| + k][i] == d[..k][i] {
      assert r[|h| + i] == d[i];
    }
  }

  lemma Pow256Of4()
    ensures Pow256(4) == 0x1_0000_0000
  {
    assert Pow256(2) == 65536;
  }

  lemma FieldsOfHeader(junk: seq<byte>, url: string, size: nat, user: seq<byte>)
    requires |junk| >= FILE_HEADER && size < 0x1_0000_0000
    ensures var h := HeaderBytes(junk, url, size, user);
            && Field(h, 0) == MAGIC && Field(h, 4) == VERSION && Field(h, 8) == FILE_NORMAL
            && Field(h, 12) == size
            && h[16..16 + URL_SIZE] == StrNCopy(OfString(url), URL_SIZE)
            && h[16 + URL_SIZE..] == Overlay(junk[16 + URL_SIZE..FILE_HEADER], user)
  {
    hide ToLE, FromLE, StrNCopy, Overlay, Pow256;
    var h := HeaderBytes(junk, url, size, user);
    assert h[0..4] == ToLE(MAGIC, 4);
    assert h[4..8] == ToLE(VERSION, 4);
    assert h[8..12] == ToLE(FILE_NORMAL, 4);
    assert h[12..16] == ToLE(size, 4);
    LittleEndianRoundTrip(MAGIC, 4);
    LittleEndianRoundTrip(VERSION, 4);
    LittleEndianRoundTrip(FILE_NORMAL, 4);
    LittleEndianRoundTrip(size, 4);
    Pow256Of4();
  }

  /** How many bytes of a record a reader looks at who asks for `length` bytes of content. */
  function Needed(size: nat, length: nat): nat
  {
    FILE_HEADER + if length <= size then length else 0
  }

  /** A record whose first bytes are in place reads back exactly when it is asked for by its own length;
      asking for more is refused, asking for less gives a prefix. The user block holds what was supplied. */
  lemma ReadRecord(file: seq<byte>, offset: nat, junk: seq<byte>, url: string, data: seq<byte>, user: seq<byte>, length: nat,
                   out: nat)
    requires |junk| == Total(|data|) && |data| < 0x1_0000_0000
    requires Needed(|data|, length) <= out <= Total(|data|)
    requires OnDisk(file, offset, RecordBytes(junk, url, data, user)[..out])
    ensures length > |data| ==> ReadAt(file, offset, length, length) == ReadError(EIO)
    ensures length <= |data| ==>
              ReadAt(file, offset, length, length) == ReadOk(data[..length], Overlay(junk[16 + URL_SIZE..FILE_HEADER], user))
  {
    hide HeaderBytes, Overlay, Field;
    var h := HeaderBytes(junk, url, |data|, user);
    FieldsOfHeader(junk, url, |data|, user);
    FrontParts(h, data, junk[FILE_HEADER + |data|..], out, if length <= |data| then length else 0);
    SliceOfSlice(file, offset, offset + out, 0, FILE_HEADER);
    if length <= |data| {
      SliceOfSlice(file, offset, offset + out, FILE_HEADER, FILE_HEADER + length);
    }
  }

  /** Right after a write at the end of the file, the data read back exactly when the header and all of
      the data went out; the padding behind them does not matter. */
  lemma ReadsBackAtReturnIff(file: seq<byte>, offset: nat, junk: seq<byte>, url: string, data: seq<byte>, user: seq<byte>, out: nat)
    requires |junk| == Total(|data|) && |data| < 0x1_0000_0000 && |file| <= offset && out <= Total(|data|)
    ensures var g := WriteAt(file, offset, RecordBytes(junk, url, data, user)[..out]);
            var r := ReadAt(g, offset, |data|, |data|);
            r.ReadOk? && r.data == data <==> out >= FILE_HEADER + |data|
  {
    hide HeaderBytes, Overlay, Field;
    var bytes := RecordBytes(junk, url, data, user)[..out];
    if out >= FILE_HEADER + |data| {
      ReadRecord(WriteAt(file, offset, bytes), offset, junk, url, data, user, |data|, out);
      assert data[..|data|] == data;
    }
  }

  /** What stands at the offset after a second write there: its bytes, then what is left of the first. */
  lemma Overwritten(file: seq<byte>, offset: nat, first: seq<byte>, second: seq<byte>, i: nat)
    requires first != [] && i < |first|
    ensures var g := WriteAt(WriteAt(file, offset, first), offset, second);
            |g| >= offset + |first| && g[offset + i] == if i < |second| then second[i] else first[i]
  {
    var once := WriteAt(file, offset, first);
    assert once[offset + i] == once[offset..offset + |first|][i];
    var g := WriteAt(once, offset, second);
    if i < |second| {
      assert g[offset + i] == g[offset..offset + |second|][i];
    }
  }

  /** How many bytes of the length field the first `out` bytes of a record hold. */
  function LengthBytesOut(out: nat): (k: nat)
    ensures k <= 4
  {
    if out <= 12 then 0 else if out >= 16 then 4 else out - 12
  }

  /** The length field of a record of length a on which the first `out` bytes of one of length b were laid. */
  function MixedLength(a: nat, b: nat, out: nat): nat
  {
    FromLE(ToLE(b, 4)[..LengthBytesOut(out)] + ToLE(a, 4)[LengthBytesOut(out)..])
  }

  lemma MixedLengthIs(a: nat, b: nat, out: nat)
    requires a < 0x1_0000_0000 && b < 0x1_0000_0000
    ensures out <= 12 ==> MixedLength(a, b, out) == a
    ensures out >= 16 ==> MixedLength(a, b, out) == b
  {
    hide ToLE, FromLE, Pow256;
    LittleEndianRoundTrip(a, 4);
    LittleEndianRoundTrip(b, 4);
    Pow256Of4();
    assert ToLE(b, 4)[..0] + ToLE(a, 4)[0..] == ToLE(a, 4);
    assert ToLE(b, 4)[..4] + ToLE(a, 4)[4..] == ToLE(b, 4);
  }

  /** The four numbers of the header after the second write: only the length can have changed. */
  lemma MixedNumbers(junk: seq<byte>, url: string, a: seq<byte>, user: seq<byte>, junk': seq<byte>, b: seq<byte>, user': seq<byte>,
                     out: nat, h: seq<byte>)
    requires |junk| == Total(|a|) && |junk'| == Total(|b|) && out <= Total(|b|) && |h| >= 16
    requires forall i :: 0 <= i < 16 ==>
               h[i] == if i < out then RecordBytes(junk', url, b, user')[i] else RecordBytes(junk, url, a, user)[i]
    ensures Field(h, 0) == MAGIC && Field(h, 4) == VERSION && Field(h, 8) == FILE_NORMAL
    ensures Field(h, 12) == MixedLength(|a|, |b|, out)
  {
    hide ToLE, FromLE, StrNCopy, Overlay, Pow256, OfString;
    var x, y := RecordBytes(junk, url, a, user), RecordBytes(junk', url, b, user');
    var front := ToLE(MAGIC, 4) + ToLE(VERSION, 4) + ToLE(FILE_NORMAL, 4);
    assert x[..16] == front + ToLE(|a|, 4) && y[..16] == front + ToLE(|b|, 4);
    forall i | 0 <= i < 16 ensures h[i] == if i < out then (front + ToLE(|b|, 4))[i] else (front + ToLE(|a|, 4))[i] {
      assert x[..16][i] == x[i] && y[..16][i] == y[i];
    }
    assert h[..12] == front;
    assert h[0..4] == ToLE(MAGIC, 4) && h[4..8] == ToLE(VERSION, 4) && h[8..12] == ToLE(FILE_NORMAL, 4);
    var k := LengthBytesOut(out);
    assert h[12..16] == ToLE(|b|, 4)[..k] + ToLE(|a|, 4)[k..];
    LittleEndianRoundTrip(MAGIC, 4);
    LittleEndianRoundTrip(VERSION, 4);
    LittleEndianRoundTrip(FILE_NORMAL, 4);
    Pow256Of4();
  }

  /** A record on which the first bytes of a second one were laid: the first content can still be read by
      its length exactly when the length field still allows it and the content that was laid over it has
      the same bytes. With 12 bytes or fewer out the field is that of the first record, with 16 or more
      that of the second. */
  lemma OverwrittenReadsIff(file: seq<byte>, offset: nat, junk: seq<byte>, url: string, a: seq<byte>, user: seq<byte>,
                            junk': seq<byte>, b: seq<byte>, user': seq<byte>, out: nat)
    requires |junk| == Total(|a|) && |junk'| == Total(|b|) && |a| < 0x1_0000_0000 && |b| < 0x1_0000_0000 && out <= Total(|b|)
    ensures var g := WriteAt(WriteAt(file, offset, RecordBytes(junk, url, a, user)), offset, RecordBytes(junk', url, b, user')[..out]);
            var r := ReadAt(g, offset, |a|, |a|);
            r.ReadOk? && r.data == a
            <==> |a| <= MixedLength(|a|, |b|, out)
                 && forall i :: 0 <= i < |a| && FILE_HEADER + i < out ==> i < |b| && b[i] == a[i]
  {
    hide HeaderBytes, Field, WriteAt, MixedLength;
    var x, y := RecordBytes(junk, url, a, user), RecordBytes(junk', url, b, user')[..out];
    var g := WriteAt(WriteAt(file, offset, x), offset, y);
    var h := g[offset..];
    forall i | 0 <= i < |x| ensures |h| >= |x| && h[i] == if i < out then y[i] else x[i] {
      Overwritten(file, offset, x, y, i);
    }
    assert |g| >= offset + |x| by { Overwritten(file, offset, x, y, 0); }
    MixedNumbers(junk, url, a, user, junk', b, user', out, g[offset..offset + FILE_HEADER]);
    MixedLengthIs(|a|, |b|, out);
    if |a| <= MixedLength(|a|, |b|, out) {
      var start := offset + FILE_HEADER;
      var d := g[start..start + |a|];
      forall i | 0 <= i < |a| ensures d[i] == if FILE_HEADER + i < out then b[i] else a[i] {
        assert d[i] == h[FILE_HEADER + i];
        assert x[FILE_HEADER + i] == a[i];
      }
    }
  }
}
