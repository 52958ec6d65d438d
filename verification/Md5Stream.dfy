/** base3/md5.cc: a context that is fed piece by piece computes the digest of the padded message. */
module Md5Stream {
  import opened Arith
  import opened Bytes
  import opened Md5
  import opened Pieces
  import opened Text

  const TWO32: nat := 0x1_0000_0000
  const TWO64: nat := 0x1_0000_0000_0000_0000

  // ----- sections 3.1 to 3.5 of RFC 1321 -----

  const INIT := State(0x67452301, 0xefcdab89, 0x98badcfe, 0x10325476)

  /** The number of zero bytes after the byte 0x80. */
  function ZeroCount(n: nat): (k: nat)
    ensures (n + 1 + k) % 64 == 56 && (n + 1 + k + 8) % 64 == 0 && k < 64
  {
    (55 - n) % 64
  }

  /** Sections 3.1 and 3.2: a one bit, zero bits, and the bit length modulo 2^64. */
  function Padded(m: seq<byte>): (p: seq<byte>)
    ensures |p| % 64 == 0
  {
    m + [0x80] + Zeros(ZeroCount(|m|)) + ToLE(8 * |m| % TWO64, 8)
  }

  function WordValue(b0: int, b1: int, b2: int, b3: int): int
  {
    (b3 * 0x100 + b2) * 0x1_0000 + (b1 * 0x100 + b0)
  }

  /** Four bytes, low-order byte first. */
  function WordOf(b: seq<byte>): bv32
    requires |b| == 4
  {
    WordValue(b[0], b[1], b[2], b[3]) as bv32
  }

  function Words(block: seq<byte>): (x: seq<bv32>)
    requires |block| == 64
    ensures |x| == 16
  {
    seq(16, i requires 0 <= i < 16 => WordOf(block[4 * i..4 * i + 4]))
  }

  function OfBlock(st: State, block: seq<byte>): State
    requires |block| == 64
  {
    Compress(st, Words(block))
  }

  /** Section 3.4: one block after the other; an incomplete last block is left out. */
  function Fold(st: State, s: seq<byte>): State
    decreases |s|
  {
    if |s| < 64 then st else Fold(OfBlock(st, s[..64]), s[64..])
  }

  /** Section 3.5: the registers, low-order byte first. */
  function Digest(st: State): (d: seq<byte>)
    ensures |d| == 16
  {
    ToLE(st.a as nat, 4) + ToLE(st.b as nat, 4) + ToLE(st.c as nat, 4) + ToLE(st.d as nat, 4)
  }

  function MD5(m: seq<byte>): (d: seq<byte>)
    ensures |d| == 16
  {
    Digest(Fold(INIT, Padded(m)))
  }

  // ----- lemmas about the fold -----

  lemma {:induction false} FoldConcat(st: State, s: seq<byte>, t: seq<byte>)
    requires |s| % 64 == 0
    ensures Fold(st, s + t) == Fold(Fold(st, s), t)
    decreases |s|
  {
    hide OfBlock;
    if s == [] {
      assert s + t == t;
    } else {
      assert (s + t)[..64] == s[..64] && (s + t)[64..] == s[64..] + t;
      FoldConcat(OfBlock(st, s[..64]), s[64..], t);
    }
  }

  lemma FoldBlock(st: State, s: seq<byte>, block: seq<byte>)
    requires |s| % 64 == 0 && |block| == 64
    ensures Fold(st, s + block) == OfBlock(Fold(st, s), block)
  {
    hide OfBlock;
    FoldConcat(st, s, block);
    assert block[..64] == block;
  }

  /** Storing 64 bits as two words is storing them as eight bytes. */
  lemma TwoWords(lo: nat, hi: nat)
    requires lo < TWO32 && hi < TWO32
    ensures ToLE(lo + TWO32 * hi, 8) == ToLE(lo, 4) + ToLE(hi, 4)
  {
    LowBytes(lo, hi, 4);
  }

  lemma {:induction false} LowBytes(lo: nat, hi: nat, k: nat)
    requires lo < Pow256(k)
    ensures ToLE(lo + Pow256(k) * hi, k + 4) == ToLE(lo, k) + ToLE(hi, 4)
    decreases k
  {
    hide ToLE, Pow256;
    ToLEStep(lo, k);
    PowStep(k);
    if k == 0 {
      assert lo + Pow256(k) * hi == hi;
    } else {
      var q := Pow256(k - 1) * hi;
      TimesAnother256(Pow256(k - 1), hi);
      assert lo + Pow256(k) * hi == lo + 256 * q;
      OneByteLess(lo, q);
      LowBytes(lo / 256, hi, k - 1);
      ToLEStep(lo + 256 * q, k + 4);
    }
  }

  lemma OneByteLess(lo: nat, q: nat)
    ensures (lo + 256 * q) % 256 == lo % 256 && (lo + 256 * q) / 256 == lo / 256 + q
  {
  }

  lemma TimesAnother256(p: nat, hi: nat)
    ensures 256 * p * hi == 256 * (p * hi)
  {
  }

  lemma PowStep(k: nat)
    ensures Pow256(k) == if k == 0 then 1 else 256 * Pow256(k - 1)
  {
  }

  lemma ToLEStep(n: nat, k: nat)
    ensures ToLE(n, k) == if k == 0 then [] else [n % 256] + ToLE(n / 256, k - 1)
  {
  }

  // ----- the code -----

  lemma BytesOfWord(b0: byte, b1: byte, b2: byte, b3: byte)
    ensures var t := WordValue(b0, b1, b2, b3);
            t % 0x100 == b0 && t / 0x100 % 0x100 == b1 && t / 0x1_0000 % 0x100 == b2 && t / 0x100_0000 == b3
  {
    var t := WordValue(b0, b1, b2, b3);
    assert t == b0 + 0x100 * (b1 + 0x100 * (b2 + 0x100 * (b3 as int)));
    assert t / 0x100 == b1 + 0x100 * (b2 + 0x100 * (b3 as int));
    assert t / 0x1_0000 == b2 + 0x100 * (b3 as int);
  }

  /** byteReverse: on a little-endian machine every word is loaded and stored back as it was. */
  method ByteReverse(a: array<byte>, longs: nat)
    requires 1 <= longs && 4 * longs <= a.Length
    modifies a
    ensures a[..] == old(a[..])
  {
    var i := 0;
    while i < longs
      invariant 0 <= i <= longs
      invariant a[..] == old(a[..])
    {
      var t := WordValue(a[4 * i], a[4 * i + 1], a[4 * i + 2], a[4 * i + 3]);
      BytesOfWord(a[4 * i], a[4 * i + 1], a[4 * i + 2], a[4 * i + 3]);
      a[4 * i], a[4 * i + 1], a[4 * i + 2], a[4 * i + 3] := t % 0x100, t / 0x100 % 0x100, t / 0x1_0000 % 0x100, t / 0x100_0000;
      i := i + 1;
    }
  }

  /** The two-word bit counter, modulo 2^64. */
  function CountOf(lo: nat, hi: nat): nat
  {
    lo + TWO32 * hi
  }

  /** What the counter holds after n more bytes: the low word, and the high word with the carry. */
  function Low(t: nat, n: nat): (lo: nat)
    ensures lo < TWO32
  {
    (t + 8 * (n % TWO32) % TWO32) % TWO32
  }

  function High(t: nat, hi: nat, n: nat): nat
  {
    ((if Low(t, n) < t then (hi + 1) % TWO32 else hi) + n / 0x2000_0000 % TWO32) % TWO32
  }

  lemma LowAdds(t: nat, n: nat)
    requires t < TWO32
    ensures t + 8 * n == Low(t, n) + TWO32 * ((if Low(t, n) < t then 1 else 0) + n / 0x2000_0000)
  {
    var low := 8 * (n % TWO32) % TWO32;
    EightTimes(n);
    CarryOut(t, low);
  }

  /** The low word of 8n, and the words above it. */
  lemma EightTimes(n: nat)
    ensures 8 * n == 8 * (n % TWO32) % TWO32 + TWO32 * (n / 0x2000_0000)
  {
    var m, k, r := n % TWO32, n / TWO32, n % TWO32 % 0x2000_0000;
    var h := m / 0x2000_0000;
    assert n == 0x2000_0000 * (8 * k + h) + r;
    DivModUnique(n, 0x2000_0000, 8 * k + h, r);
    assert 8 * m == TWO32 * h + 8 * r;
    DivModUnique(8 * m, TWO32, h, 8 * r);
  }

  lemma CarryOut(t: nat, low: nat)
    requires t < TWO32 && low < TWO32
    ensures var sum := (t + low) % TWO32; t + low == sum + TWO32 * (if sum < t then 1 else 0)
  {
  }

  lemma HighAdds(t: nat, hi: nat, n: nat)
    ensures High(t, hi, n) == (hi + (if Low(t, n) < t then 1 else 0) + n / 0x2000_0000) % TWO32
  {
    hide Low;
  }

  /** The carry is right: the counter moves by 8 for every byte, modulo 2^64. */
  lemma AddToCount(t: nat, hi: nat, n: nat)
    requires t < TWO32 && hi < TWO32
    ensures CountOf(Low(t, n), High(t, hi, n)) == (CountOf(t, hi) + 8 * n) % TWO64
  {
    hide Low, High;
    LowAdds(t, n);
    HighAdds(t, hi, n);
    CountWraps(t, hi, n, Low(t, n), (if Low(t, n) < t then 1 else 0) + n / 0x2000_0000);
  }

  lemma CountWraps(t: nat, hi: nat, n: nat, lo: nat, up: nat)
    requires lo < TWO32 && t + 8 * n == lo + TWO32 * up
    ensures CountOf(lo, (hi + up) % TWO32) == (CountOf(t, hi) + 8 * n) % TWO64
  {
    var q := (hi + up) / TWO32;
    assert CountOf(t, hi) + 8 * n == CountOf(lo, (hi + up) % TWO32) + TWO64 * q;
  }

  lemma CountOfLonger(n: nat, k: nat)
    ensures (8 * n % TWO64 + 8 * k) % TWO64 == 8 * (n + k) % TWO64
  {
  }

  /** The counter tells how many bytes wait in the block. */
  lemma HeldFromCount(lo: nat, hi: nat, n: nat)
    requires CountOf(lo, hi) == 8 * n % TWO64
    ensures lo / 8 % 64 == n % 64
  {
    var q := 8 * n / TWO64;
    var z := 0x80_0000 * hi + 0x80_0000_0000_0000 * q;
    assert 8 * n == lo + TWO32 * hi + TWO64 * q;
    assert lo == 8 * (n - 64 * z);
    LowSixBits(n, z);
  }

  lemma LowSixBits(n: nat, z: int)
    requires n - 64 * z >= 0
    ensures 8 * (n - 64 * z) / 8 % 64 == n % 64
  {
    assert 8 * (n - 64 * z) / 8 == n - 64 * z;
  }

  /** The complete blocks of what was fed, and the rest. */
  function Whole(fed: seq<byte>): seq<byte>
  {
    fed[..|fed| - |fed| % 64]
  }

  function Part(fed: seq<byte>): (p: seq<byte>)
    ensures |p| == |fed| % 64
  {
    fed[|fed| - |fed| % 64..]
  }

  lemma WholeAndPart(fed: seq<byte>)
    ensures fed == Whole(fed) + Part(fed) && |Whole(fed)| % 64 == 0
  {
  }

  lemma MultipleOf64(m: nat, r: nat)
    requires m % 64 == 0
    ensures (m + r) % 64 == r % 64
  {
    var q := m / 64;
    assert m + r == 64 * q + r;
  }

  lemma WholeOfConcat(w: seq<byte>, p: seq<byte>)
    requires |w| % 64 == 0 && |p| < 64
    ensures Whole(w + p) == w && Part(w + p) == p
  {
    MultipleOf64(|w|, |p|);
    assert |w + p| - |w + p| % 64 == |w|;
  }

  /** `st` and the first bytes of `block` stand for the bytes fed so far. */
  ghost predicate Absorbed(st: State, block: seq<byte>, fed: seq<byte>)
    requires |block| == 64
  {
    st == Fold(INIT, Whole(fed)) && block[..|fed| % 64] == Part(fed)
  }

  lemma AbsorbSome(st: State, block: seq<byte>, fed: seq<byte>, data: seq<byte>)
    requires |block| == 64 && Absorbed(st, block, fed) && |fed| % 64 + |data| < 64
    ensures Absorbed(st, Put(block, |fed| % 64, data), fed + data)
  {
    hide Fold, Whole, Part;
    WholeAndPart(fed);
    WholeOfConcat(Whole(fed), Part(fed) + data);
    assert Whole(fed) + (Part(fed) + data) == fed + data;
    assert Put(block, |fed| % 64, data)[..|fed| % 64 + |data|] == block[..|fed| % 64] + data;
  }

  lemma PutExtends(block: seq<byte>, at: nat, head: seq<byte>)
    requires at + |head| <= |block|
    ensures Put(block, at, head)[..at + |head|] == block[..at] + head
  {
  }

  lemma PutAtEnd(block: seq<byte>, at: nat, head: seq<byte>)
    requires at + |head| == |block|
    ensures Put(block, at, head) == block[..at] + head
  {
  }

  lemma AbsorbHead(st: State, block: seq<byte>, fed: seq<byte>, head: seq<byte>)
    requires |block| == 64 && Absorbed(st, block, fed) && |fed| % 64 + |head| == 64
    ensures OfBlock(st, Put(block, |fed| % 64, head)) == Fold(INIT, fed + head)
    ensures |fed + head| % 64 == 0
  {
    hide Fold, OfBlock, Whole, Part, Put;
    WholeAndPart(fed);
    PutAtEnd(block, |fed| % 64, head);
    assert fed + head == Whole(fed) + (Part(fed) + head);
    MultipleOf64(|Whole(fed)|, 64);
    FoldBlock(INIT, Whole(fed), Part(fed) + head);
  }

  lemma AbsorbNothing(st: State, block: seq<byte>, fed: seq<byte>)
    requires |block| == 64 && Absorbed(st, block, fed) && |fed| % 64 == 0
    ensures st == Fold(INIT, fed)
  {
    assert Whole(fed) == fed;
  }

  lemma AbsorbBlock(fed: seq<byte>, block: seq<byte>, chunk: seq<byte>)
    requires |block| == 64 == |chunk| && |fed| % 64 == 0
    ensures OfBlock(Fold(INIT, fed), Put(block, 0, chunk)) == Fold(INIT, fed + chunk)
    ensures |fed + chunk| % 64 == 0
  {
    hide Fold, OfBlock;
    assert Put(block, 0, chunk) == chunk;
    MultipleOf64(|fed|, 64);
    FoldBlock(INIT, fed, chunk);
  }

  lemma AbsorbTail(block: seq<byte>, fed: seq<byte>, tail: seq<byte>)
    requires |block| == 64 && |fed| % 64 == 0 && |tail| < 64
    ensures Absorbed(Fold(INIT, fed), Put(block, 0, tail), fed + tail)
  {
    hide Fold, Whole, Part;
    WholeOfConcat(fed, tail);
    MultipleOf64(|fed|, |tail|);
    assert Put(block, 0, tail)[..|tail|] == tail;
  }

  function LengthBytes(m: seq<byte>): (b: seq<byte>)
    ensures |b| == 8
  {
    ToLE(8 * |m| % TWO64, 8)
  }

  lemma PaddedFromPart(m: seq<byte>)
    ensures Padded(m) == Whole(m) + (Part(m) + [0x80] + Zeros(ZeroCount(|m|)) + LengthBytes(m))
  {
    hide Whole, Part, Zeros, ToLE;
    WholeAndPart(m);
  }

  lemma ZeroCountFromPart(m: seq<byte>)
    ensures ZeroCount(|m|) == if |Part(m)| < 56 then 55 - |Part(m)| else 119 - |Part(m)|
  {
  }

  lemma ZerosConcat(a: nat, b: nat)
    ensures Zeros(a + b) == Zeros(a) + Zeros(b)
  {
  }

  /** Up to 55 waiting bytes: the padding fits into their block. */
  lemma OneLastBlock(m: seq<byte>)
    requires |m| % 64 < 56
    ensures OfBlock(Fold(INIT, Whole(m)), Part(m) + [0x80] + Zeros(55 - |m| % 64) + LengthBytes(m)) == Fold(INIT, Padded(m))
  {
    hide Fold, OfBlock, Whole, Part, Zeros, LengthBytes, Padded, ZeroCount;
    PaddedFromPart(m);
    ZeroCountFromPart(m);
    WholeAndPart(m);
    FoldBlock(INIT, Whole(m), Part(m) + [0x80] + Zeros(55 - |m| % 64) + LengthBytes(m));
  }

  /** More than 55: the length goes into a block of its own. */
  lemma TwoLastBlocks(m: seq<byte>)
    requires |m| % 64 >= 56
    ensures OfBlock(OfBlock(Fold(INIT, Whole(m)), Part(m) + [0x80] + Zeros(63 - |m| % 64)), Zeros(56) + LengthBytes(m))
            == Fold(INIT, Padded(m))
  {
    hide Fold, OfBlock, Whole, Part, Zeros, LengthBytes, Padded, ZeroCount;
    PaddedFromPart(m);
    ZeroCountFromPart(m);
    WholeAndPart(m);
    ZerosConcat(63 - |m| % 64, 56);
    var first, second := Part(m) + [0x80] + Zeros(63 - |m| % 64), Zeros(56) + LengthBytes(m);
    assert Padded(m) == Whole(m) + first + second;
    MultipleOf64(|Whole(m)|, 64);
    FoldBlock(INIT, Whole(m), first);
    FoldBlock(INIT, Whole(m) + first, second);
  }

  lemma DigestHalf(st: State)
    ensures Digest(st)[8..] == ToLE(st.c as nat, 4) + ToLE(st.d as nat, 4)
  {
    hide ToLE;
  }

  class Context {
    var buf: State
    var bits0: nat
    var bits1: nat
    const input: array<byte>
    ghost var fed: seq<byte>

    ghost predicate Valid()
      reads this, input
    {
      && input.Length == 64
      && bits0 < TWO32 && bits1 < TWO32 && CountOf(bits0, bits1) == 8 * |fed| % TWO64
      && Absorbed(buf, input[..], fed)
    }

    /** MD5Init. */
    constructor ()
      ensures Valid() && fed == [] && fresh(input)
    {
      buf, bits0, bits1 := INIT, 0, 0;
      input := new byte[64];
      fed := [];
    }

    /** byteReverse and MD5Transform on the full block. */
    method Process()
      requires input.Length == 64
      modifies this`buf, input
      ensures input[..] == old(input[..]) && buf == OfBlock(old(buf), input[..])
    {
      hide Compress;
      ByteReverse(input, 16);
      buf := Transform(buf, Words(input[..]));
    }

    /** The counter part of MD5Update. */
    method AddBits(len: nat)
      requires bits0 < TWO32 && bits1 < TWO32
      modifies this`bits0, this`bits1
      ensures bits0 == Low(old(bits0), len) && bits1 == High(old(bits0), old(bits1), len) < TWO32
    {
      var t := bits0;
      bits0 := (t + 8 * (len % TWO32) % TWO32) % TWO32;
      if bits0 < t {
        bits1 := (bits1 + 1) % TWO32;
      }
      bits1 := (bits1 + len / 0x2000_0000 % TWO32) % TWO32;
    }

    /** MD5Update. */
    method Update(data: seq<byte>)
      requires Valid()
      modifies this, input
      ensures Valid() && fed == old(fed) + data
    {
      hide Fold, OfBlock, Put, Low, High, CountOf, Absorbed;
      var t := bits0;
      AddToCount(bits0, bits1, |data|);
      CountOfLonger(|fed|, |data|);
      HeldFromCount(bits0, bits1, |fed|);
      AddBits(|data|);
      ghost var was := fed;
      fed := fed + data;
      t := t / 8 % 64;

      var pos := 0;
      if t != 0 {
        var room := 64 - t;
        if |data| < room {
          AbsorbSome(buf, input[..], was, data);
          Copy(input, t, data);
          return;
        }
        AbsorbHead(buf, input[..], was, data[..room]);
        Copy(input, t, data[..room]);
        Process();
        pos := room;
      } else {
        AbsorbNothing(buf, input[..], was);
        assert was + data[..0] == was;
      }
      while |data| - pos >= 64
        invariant pos <= |data| && |was + data[..pos]| % 64 == 0
        invariant buf == Fold(INIT, was + data[..pos])
        invariant CountOf(bits0, bits1) == 8 * |fed| % TWO64 && bits0 < TWO32 && bits1 < TWO32
        invariant fed == was + data
      {
        AbsorbBlock(was + data[..pos], input[..], data[pos..pos + 64]);
        assert was + data[..pos + 64] == was + data[..pos] + data[pos..pos + 64];
        Copy(input, 0, data[pos..pos + 64]);
        Process();
        pos := pos + 64;
      }
      AbsorbTail(input[..], was + data[..pos], data[pos..]);
      assert was + data == was + data[..pos] + data[pos..];
      Copy(input, 0, data[pos..]);
    }

    /** The padding part of MD5Final: what is missing afterwards is the length and one transformation. */
    method Pad()
      requires Valid()
      modifies this`buf, input
      ensures OfBlock(buf, input[..56] + LengthBytes(fed)) == Fold(INIT, Padded(fed))
    {
      hide Fold, OfBlock, Zeros, LengthBytes, Padded, Whole, Part, Put, CountOf;
      HeldFromCount(bits0, bits1, |fed|);
      var count := bits0 / 8 % 64;
      input[count] := 0x80;
      assert input[..count + 1] == Part(fed) + [0x80];
      var p := count + 1;
      count := 63 - count;
      if count < 8 {
        PutAtEnd(input[..], p, Zeros(count));
        Copy(input, p, Zeros(count));
        Process();
        TwoLastBlocks(fed);
        PutExtends(input[..], 0, Zeros(56));
        Copy(input, 0, Zeros(56));
        assert input[..56] == Zeros(56);
      } else {
        OneLastBlock(fed);
        PutExtends(input[..], p, Zeros(count - 8));
        Copy(input, p, Zeros(count - 8));
      }
    }

    /** MD5Final. `sizeof(ctx)` is the size of a pointer, so the wipe at the end reaches only the first two registers:
        the other two, half of the digest, stay in the context. */
    method Final() returns (digest: seq<byte>)
      requires Valid()
      modifies this, input
      ensures digest == MD5(fed) && fed == old(fed)
      ensures buf.a == 0 == buf.b && ToLE(buf.c as nat, 4) + ToLE(buf.d as nat, 4) == digest[8..]
    {
      hide Fold, OfBlock, LengthBytes, Padded, ToLE, CountOf, Absorbed, Digest;
      Pad();
      ByteReverse(input, 14);
      StoreLength();
      Process();
      digest := Digest(buf);
      DigestHalf(buf);
      buf := buf.(a := 0, b := 0);
    }

    /** Words 14 and 15 of the block. */
    method StoreLength()
      requires input.Length == 64 && bits0 < TWO32 && bits1 < TWO32 && CountOf(bits0, bits1) == 8 * |fed| % TWO64
      modifies input
      ensures input[..] == old(input[..56]) + LengthBytes(fed)
    {
      hide ToLE;
      TwoWords(bits0, bits1);
      Copy(input, 56, ToLE(bits0, 4));
      Copy(input, 60, ToLE(bits1, 4));
    }
  }

  // ----- whole messages -----

  /** However the message is cut up, feeding the pieces in order gives the digest of the whole. */
  method DigestOfPieces(chunks: seq<seq<byte>>) returns (digest: seq<byte>)
    ensures digest == MD5(Concat(chunks))
  {
    hide MD5;
    var ctx := new Context();
    for i := 0 to |chunks|
      invariant ctx.Valid() && fresh(ctx) && fresh(ctx.input)
      invariant ctx.fed == Concat(chunks[..i])
    {
      ctx.Update(chunks[i]);
      assert chunks[..i + 1][..i] == chunks[..i];
    }
    assert chunks[..|chunks|] == chunks;
    digest := ctx.Final();
  }

  /** MD5Sum. */
  method Sum(data: seq<byte>) returns (digest: seq<byte>)
    ensures digest == MD5(data)
  {
    hide MD5;
    var ctx := new Context();
    ctx.Update(data);
    assert [] + data == data;
    digest := ctx.Final();
  }

  // ----- the text form of a digest -----

  function NibbleValue(c: char): nat
  {
    if '0' <= c <= '9' then c as nat - '0' as nat else if 'a' <= c <= 'f' then c as nat - 'a' as nat + 10 else 0
  }

  /** The bytes that a string of digit pairs stands for. */
  function FromBase16(s: string): seq<int>
  {
    if |s| < 2 then [] else [16 * NibbleValue(s[0]) + NibbleValue(s[1])] + FromBase16(s[2..])
  }

  /** MD5DigestToBase16 loses nothing: the digits read back as the digest. */
  method DigestToBase16(digest: seq<byte>) returns (s: string)
    ensures |s| == 2 * |digest|
    ensures FromBase16(s) == digest
  {
    s := "";
    assert FromBase16("") == [];
    for i := 0 to |digest|
      invariant |s| == 2 * i && FromBase16(s) == digest[..i]
    {
      hide FromBase16, HexDigit;
      var pair := [HexDigit(digest[i] / 16), HexDigit(digest[i] % 16)];
      FromBase16Concat(s, pair);
      PairReadsBack(digest[i]);
      assert digest[..i + 1] == digest[..i] + [digest[i]];
      s := s + pair;
    }
    assert digest[..|digest|] == digest;
  }

  lemma PairReadsBack(b: byte)
    ensures FromBase16([HexDigit(b / 16), HexDigit(b % 16)]) == [b]
  {
    hide HexDigit, NibbleValue;
    var pair := [HexDigit(b / 16), HexDigit(b % 16)];
    NibbleReadsBack(b / 16);
    NibbleReadsBack(b % 16);
    assert pair[2..] == [];
  }

  lemma NibbleReadsBack(n: nat)
    requires n < 16
    ensures NibbleValue(HexDigit(n)) == n
  {
  }

  lemma {:induction false} FromBase16Concat(s: string, t: string)
    requires |s| % 2 == 0
    ensures FromBase16(s + t) == FromBase16(s) + FromBase16(t)
    decreases |s|
  {
    if s == [] {
      assert s + t == t;
    } else {
      assert (s + t)[2..] == s[2..] + t;
      FromBase16Concat(s[2..], t);
    }
  }
}
