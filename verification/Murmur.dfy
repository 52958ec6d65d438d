/** bundle/murmurhash2.cc: the 32-bit MurmurHash2 family on a little-endian machine.

    The loops only route bytes to the mixing arithmetic, so everything about them is stated and
    proved for an arbitrary `Mixer`; `MURMUR` is the arithmetic of the source.
  */
module Murmur {
  import opened Pieces

  type Bytes = seq<bv8>

  /** The three places where the source does arithmetic on the running hash. */
  datatype Mixer = Mixer(
    mix: (bv32, bv32) -> bv32,  // the macros `mmix` and `MIX`, the body of the word loop
    scale: bv32 -> bv32,        // `h *= m` after the tail bytes
    finish: bv32 -> bv32)       // the final shifts

  const M: bv32 := 0x5bd1e995

  function MurmurMix(h: bv32, k: bv32): bv32
  {
    var k1 := k * M;
    var k2 := (k1 ^ (k1 >> 24)) * M;
    (h * M) ^ k2
  }

  function MurmurScale(h: bv32): bv32
  {
    h * M
  }

  function MurmurFinish(h: bv32): bv32
  {
    var h1 := (h ^ (h >> 13)) * M;
    h1 ^ (h1 >> 15)
  }

  const MURMUR := Mixer(MurmurMix, MurmurScale, MurmurFinish)

  // ----- words -----

  /** Four bytes loaded as a little-endian word. */
  function Word(b0: bv8, b1: bv8, b2: bv8, b3: bv8): bv32
  {
    (b0 as bv32) | ((b1 as bv32) << 8) | ((b2 as bv32) << 16) | ((b3 as bv32) << 24)
  }

  function WordAt(s: Bytes, i: nat): bv32
    requires i + 4 <= |s|
  {
    Word(s[i], s[i + 1], s[i + 2], s[i + 3])
  }

  /** Up to three bytes as a word; the missing high bytes are zero. */
  function TailWord(t: Bytes): bv32
    requires |t| < 4
  {
    Word(if |t| > 0 then t[0] else 0, if |t| > 1 then t[1] else 0, if |t| > 2 then t[2] else 0, 0)
  }

  /** A length as the unsigned word it converts to. */
  function LengthWord(n: nat): bv32
  {
    Wrap(n) as bv32
  }

  /** Unsigned 32-bit wrap-around. */
  function Wrap(n: nat): (w: nat)
    ensures w < 0x1_0000_0000
  {
    n % 0x1_0000_0000
  }

  // ----- one-shot definitions -----

  /** Mixes in the whole words of s, in order. */
  function Body(m: Mixer, h: bv32, s: Bytes): bv32
    decreases |s|
  {
    if |s| < 4 then h else Body(m, m.mix(h, WordAt(s, 0)), s[4..])
  }

  /** The bytes after the last whole word. */
  function Rest(s: Bytes): (t: Bytes)
    ensures |t| == |s| % 4
  {
    s[|s| - |s| % 4..]
  }

  function TailMix(m: Mixer, h: bv32, t: Bytes): bv32
    requires |t| < 4
  {
    if t == [] then h else m.scale(h ^ TailWord(t))
  }

  /** MurmurHash2 as one expression: seed and length, then whole words, then the tail. */
  function Hash2(m: Mixer, s: Bytes, seed: bv32): bv32
  {
    m.finish(TailMix(m, Body(m, seed ^ LengthWord(|s|), s), Rest(s)))
  }

  /** MurmurHash2A as one expression: whole words, then the tail word, then the length. */
  function Hash2A(m: Mixer, s: Bytes, seed: bv32): bv32
  {
    m.finish(m.mix(m.mix(Body(m, seed, s), TailWord(Rest(s))), LengthWord(|s|)))
  }

  /** One turn of a word loop. */
  lemma BodyStep(m: Mixer, h: bv32, s: Bytes, pos: nat)
    requires pos + 4 <= |s|
    ensures Body(m, h, s[pos..]) == Body(m, m.mix(h, WordAt(s, pos)), s[pos + 4..])
  {
    assert s[pos..][4..] == s[pos + 4..];
    assert WordAt(s[pos..], 0) == WordAt(s, pos);
  }

  /** What is left when a word loop ends. */
  lemma BodyEnd(m: Mixer, h: bv32, s: Bytes, pos: nat)
    requires pos <= |s| < pos + 4 && pos % 4 == 0
    ensures Body(m, h, s[pos..]) == h && s[pos..] == Rest(s)
  {
    assert |s| - |s| % 4 == pos;
  }

  /** Hashing a prefix of whole words and going on from there is hashing everything. */
  lemma {:induction false} BodyAppend(m: Mixer, h: bv32, s: Bytes, t: Bytes)
    requires |s| % 4 == 0
    ensures Body(m, h, s + t) == Body(m, Body(m, h, s), t)
    decreases |s|
  {
    if s == [] {
      assert s + t == t;
    } else {
      assert (s + t)[4..] == s[4..] + t;
      assert WordAt(s + t, 0) == WordAt(s, 0);
      BodyAppend(m, m.mix(h, WordAt(s, 0)), s[4..], t);
    }
  }

  lemma BodyOneWord(m: Mixer, h: bv32, w: Bytes)
    requires |w| == 4
    ensures Body(m, h, w) == m.mix(h, WordAt(w, 0))
  {
    assert |w[4..]| < 4;
  }

  // ----- facts about shifts -----

  lemma TailOfNothing()
    ensures TailWord([]) == 0
  {
  }

  lemma XorOne(h: bv32, a: bv8)
    ensures h ^ Word(a, 0, 0, 0) == h ^ (a as bv32)
  {
  }

  lemma XorTwo(h: bv32, a: bv8, b: bv8)
    ensures h ^ Word(a, b, 0, 0) == (h ^ ((b as bv32) << 8)) ^ (a as bv32)
  {
  }

  lemma XorThree(h: bv32, a: bv8, b: bv8, c: bv8)
    ensures h ^ Word(a, b, c, 0) == ((h ^ ((c as bv32) << 16)) ^ ((b as bv32) << 8)) ^ (a as bv32)
  {
  }

  // ----- the loops -----

  /** The `switch(len)` after the word loop, with its fall-through cases. */
  method MixTailBytes(m: Mixer, h0: bv32, data: Bytes, pos: nat) returns (h: bv32)
    requires pos <= |data| < pos + 4
    ensures h == TailMix(m, h0, data[pos..])
  {
    hide Word;
    h := h0;
    var len := |data| - pos;
    if len == 3 {
      h := h ^ ((data[pos + 2] as bv32) << 16);
      XorThree(h0, data[pos], data[pos + 1], data[pos + 2]);
    }
    if len >= 2 {
      h := h ^ ((data[pos + 1] as bv32) << 8);
      XorTwo(h0, data[pos], data[pos + 1]);
    }
    if len >= 1 {
      h := h ^ (data[pos] as bv32);
      XorOne(h0, data[pos]);
      h := m.scale(h);
    }
  }

  method MurmurHash2(m: Mixer, data: Bytes, seed: bv32) returns (h: bv32)
    requires |data| < 0x8000_0000
    ensures h == Hash2(m, data, seed)
  {
    hide LengthWord;
    h := seed ^ LengthWord(|data|);
    ghost var h0 := h;
    var pos := 0;
    while |data| - pos >= 4
      invariant 0 <= pos <= |data| && pos % 4 == 0
      invariant Body(m, h, data[pos..]) == Body(m, h0, data)
    {
      var k := WordAt(data, pos);
      BodyStep(m, h, data, pos);
      h := m.mix(h, k);
      pos := pos + 4;
    }
    BodyEnd(m, h, data, pos);
    h := MixTailBytes(m, h, data, pos);
    h := m.finish(h);
  }

  /** The same loop with the word put together from bytes, so that it works on any machine. */
  method MurmurHashNeutral2(m: Mixer, data: Bytes, seed: bv32) returns (h: bv32)
    requires |data| < 0x8000_0000
    ensures h == Hash2(m, data, seed)
  {
    hide LengthWord;
    h := seed ^ LengthWord(|data|);
    ghost var h0 := h;
    var pos := 0;
    while |data| - pos >= 4
      invariant 0 <= pos <= |data| && pos % 4 == 0
      invariant Body(m, h, data[pos..]) == Body(m, h0, data)
    {
      var k := data[pos] as bv32;
      k := k | ((data[pos + 1] as bv32) << 8);
      k := k | ((data[pos + 2] as bv32) << 16);
      k := k | ((data[pos + 3] as bv32) << 24);
      BodyStep(m, h, data, pos);
      h := m.mix(h, k);
      pos := pos + 4;
    }
    BodyEnd(m, h, data, pos);
    h := MixTailBytes(m, h, data, pos);
    h := m.finish(h);
  }

  /** `switch(n)` collecting n bytes into a zero register, high byte first, with fall-through. */
  method GatherBytes(data: Bytes, pos: nat, n: nat) returns (d: bv32)
    requires n < 4 && pos + n <= |data|
    ensures d == TailWord(data[pos..pos + n])
  {
    hide Word, WithByte;
    d := 0;
    TailOfNothing();
    if n == 3 {
      d := WithByte(d, data[pos + 2], 2);
      OrThree(data[pos], data[pos + 1], data[pos + 2]);
    }
    if n >= 2 {
      d := WithByte(d, data[pos + 1], 1);
      OrTwo(data[pos], data[pos + 1]);
    }
    if n >= 1 {
      d := WithByte(d, data[pos], 0);
      OrOne(data[pos]);
    }
  }

  lemma OrOne(a: bv8)
    ensures Word(a, 0, 0, 0) == WithByte(0, a, 0)
  {
  }

  lemma OrTwo(a: bv8, b: bv8)
    ensures Word(a, b, 0, 0) == WithByte(WithByte(0, b, 1), a, 0)
  {
  }

  lemma OrThree(a: bv8, b: bv8, c: bv8)
    ensures Word(a, b, c, 0) == WithByte(WithByte(WithByte(0, c, 2), b, 1), a, 0)
  {
  }

  /** `x >> (8 * bytes)`. */
  function Down(x: bv32, bytes: nat): bv32
    requires bytes < 4
  {
    if bytes == 0 then x else if bytes == 1 then x >> 8 else if bytes == 2 then x >> 16 else x >> 24
  }

  /** `x << (8 * bytes)`. */
  function Up(x: bv32, bytes: nat): bv32
    requires bytes < 4
  {
    if bytes == 0 then x else if bytes == 1 then x << 8 else if bytes == 2 then x << 16 else x << 24
  }

  /** What the aligned loop puts together: the carried bytes of `t` below the low bytes of `d`. */
  function Joined(t: bv32, d: bv32, align: nat): bv32
    requires 1 <= align < 4
  {
    Or(Down(t, align), Up(d, 4 - align))
  }

  /** `x | y`. */
  function Or(x: bv32, y: bv32): bv32
  {
    x | y
  }

  /** One more byte above the n bytes of a register. */
  function WithByte(t: bv32, b: bv8, n: nat): bv32
    requires n < 4
  {
    Or(t, Up(b as bv32, n))
  }

  /** Shifting a register up and down again keeps the bytes that were not pushed out. */
  lemma UpDown(t: Bytes, align: nat)
    requires 1 <= align < 4 && |t| == 4 - align
    ensures Down(Up(TailWord(t), align), align) == TailWord(t)
  {
    hide Word, Up, Down;
    if align == 1 {
      UpDown3(t[0], t[1], t[2]);
    } else if align == 2 {
      UpDown2(t[0], t[1]);
    } else {
      UpDown1(t[0]);
    }
  }

  lemma UpDown3(a: bv8, b: bv8, c: bv8)
    ensures Down(Up(Word(a, b, c, 0), 1), 1) == Word(a, b, c, 0)
  {
  }

  lemma UpDown2(a: bv8, b: bv8)
    ensures Down(Up(Word(a, b, 0, 0), 2), 2) == Word(a, b, 0, 0)
  {
  }

  lemma UpDown1(a: bv8)
    ensures Down(Up(Word(a, 0, 0, 0), 3), 3) == Word(a, 0, 0, 0)
  {
  }

  /** Joining the carried bytes with the next register gives back the bytes in memory order. */
  lemma JoinRegisters(t: Bytes, u: Bytes, align: nat)
    requires 1 <= align < 4 && |t| == 4 - align && |u| <= align
    ensures |u| == align ==> Or(TailWord(t), Up(TailWord(u), 4 - align)) == WordAt(t + u, 0)
    ensures |u| < align ==> Or(TailWord(t), Up(TailWord(u), 4 - align)) == TailWord(t + u)
  {
    hide Word, Up, Down, Or;
    var u0 := if |u| > 0 then u[0] else 0;
    var u1 := if |u| > 1 then u[1] else 0;
    var u2 := if |u| > 2 then u[2] else 0;
    if align == 1 {
      Join1(t[0], t[1], t[2], u0);
    } else if align == 2 {
      Join2(t[0], t[1], u0, u1);
    } else {
      Join3(t[0], u0, u1, u2);
    }
  }

  lemma Join1(a: bv8, b: bv8, c: bv8, d: bv8)
    ensures Or(Word(a, b, c, 0), Up(Word(d, 0, 0, 0), 3)) == Word(a, b, c, d)
  {
  }

  lemma Join2(a: bv8, b: bv8, c: bv8, d: bv8)
    ensures Or(Word(a, b, 0, 0), Up(Word(c, d, 0, 0), 2)) == Word(a, b, c, d)
  {
  }

  lemma Join3(a: bv8, b: bv8, c: bv8, d: bv8)
    ensures Or(Word(a, 0, 0, 0), Up(Word(b, c, d, 0), 1)) == Word(a, b, c, d)
  {
  }

  /** A whole next word: its low bytes complete the carried ones. */
  lemma SplitUp(w: Bytes, align: nat)
    requires 1 <= align < 4 && |w| == 4
    ensures Up(WordAt(w, 0), 4 - align) == Up(TailWord(w[..align]), 4 - align)
  {
    hide Word, Up, Down, Top1, Top2, Top3;
    if align == 1 {
      PushOut1(w[0], w[1], w[2], w[3]);
      PushOut1(w[0], 0, 0, 0);
    } else if align == 2 {
      PushOut2(w[0], w[1], w[2], w[3]);
      PushOut2(w[0], w[1], 0, 0);
    } else {
      PushOut3(w[0], w[1], w[2], w[3]);
      PushOut3(w[0], w[1], w[2], 0);
    }
  }

  /** A whole next word: its high bytes are carried on. */
  lemma SplitDown(w: Bytes, align: nat)
    requires 1 <= align < 4 && |w| == 4
    ensures Down(WordAt(w, 0), align) == TailWord(w[align..])
  {
    hide Word, Up, Down;
    if align == 1 {
      SplitDown1(w[0], w[1], w[2], w[3]);
    } else if align == 2 {
      SplitDown2(w[0], w[1], w[2], w[3]);
    } else {
      SplitDown3(w[0], w[1], w[2], w[3]);
    }
  }

  /** One, two or three bytes in the high bytes of a register. */
  function Top1(a: bv8): bv32
  {
    (a as bv32) << 24
  }

  function Top2(a: bv8, b: bv8): bv32
  {
    ((a as bv32) << 16) | ((b as bv32) << 24)
  }

  function Top3(a: bv8, b: bv8, c: bv8): bv32
  {
    ((a as bv32) << 8) | ((b as bv32) << 16) | ((c as bv32) << 24)
  }

  lemma PushOut1(a: bv8, b: bv8, c: bv8, d: bv8)
    ensures Up(Word(a, b, c, d), 3) == Top1(a)
  {
  }

  lemma PushOut2(a: bv8, b: bv8, c: bv8, d: bv8)
    ensures Up(Word(a, b, c, d), 2) == Top2(a, b)
  {
  }

  lemma PushOut3(a: bv8, b: bv8, c: bv8, d: bv8)
    ensures Up(Word(a, b, c, d), 1) == Top3(a, b, c)
  {
  }

  lemma SplitDown1(a: bv8, b: bv8, c: bv8, d: bv8)
    ensures Down(Word(a, b, c, d), 1) == Word(b, c, d, 0)
  {
  }

  lemma SplitDown2(a: bv8, b: bv8, c: bv8, d: bv8)
    ensures Down(Word(a, b, c, d), 2) == Word(c, d, 0, 0)
  {
  }

  lemma SplitDown3(a: bv8, b: bv8, c: bv8, d: bv8)
    ensures Down(Word(a, b, c, d), 3) == Word(d, 0, 0, 0)
  {
  }

  lemma WordOfSlice(s: Bytes, i: nat)
    requires i + 4 <= |s|
    ensures WordAt(s[i..i + 4], 0) == WordAt(s, i)
  {
  }

  /** One turn of the aligned loop: the register pair yields the unaligned word at q. */
  lemma AlignedStep(data: Bytes, q: nat, align: nat, t: bv32)
    requires 1 <= align < 4 && q + 8 - align <= |data|
    requires Down(t, align) == TailWord(data[q..q + 4 - align])
    ensures Joined(t, WordAt(data, q + 4 - align), align) == WordAt(data, q)
    ensures Down(WordAt(data, q + 4 - align), align) == TailWord(data[q + 4..q + 8 - align])
  {
    hide Word, Up, Down, Or, TailWord;
    var pos := q + 4 - align;
    var w := data[pos..pos + 4];
    SplitUp(w, align);
    SplitDown(w, align);
    assert w[..align] == data[pos..pos + align];
    JoinRegisters(data[q..pos], w[..align], align);
    assert data[q..pos] + data[pos..pos + align] == data[q..q + 4];
    WordOfSlice(data, pos);
    WordOfSlice(data, q);
    assert w[align..] == data[q + 4..q + 8 - align];
  }

  /** MurmurHash2 with aligned reads only; `align` is the address of the first byte modulo 4. */
  method MurmurHashAligned2(m: Mixer, data: Bytes, align: nat, seed: bv32) returns (h: bv32)
    requires |data| < 0x8000_0000 && align < 4
    ensures h == Hash2(m, data, seed)
  {
    hide Word, Up, Down, Joined, TailWord, WordAt, Body, LengthWord;
    if align == 0 || |data| < 4 {
      h := MurmurHash2(m, data, seed);
      return;
    }
    h := seed ^ LengthWord(|data|);
    ghost var h0 := h;
    var t := GatherBytes(data, 0, 4 - align);
    t := Up(t, align);
    UpDown(data[0..4 - align], align);
    var pos := 4 - align;
    ghost var q := 0;
    while |data| - pos >= 4
      invariant pos == q + 4 - align <= |data| && q % 4 == 0
      invariant Down(t, align) == TailWord(data[q..pos])
      invariant Body(m, h, data[q..]) == Body(m, h0, data)
    {
      AlignedStep(data, q, align, t);
      BodyStep(m, h, data, q);
      var d := WordAt(data, pos);
      t := Joined(t, d, align);
      h := m.mix(h, t);
      t := d;
      pos := pos + 4;
      q := q + 4;
    }
    h := AlignedFinish(m, h, data, align, pos, t, q);
    h := m.finish(h);
  }

  lemma FinishWhole(m: Mixer, h: bv32, s: Bytes, q: nat)
    requires q % 4 == 0 && q + 4 <= |s| < q + 8
    ensures Body(m, h, s[q..]) == m.mix(h, WordAt(s, q)) && Rest(s) == s[q + 4..]
  {
    hide WordAt;
    BodyStep(m, h, s, q);
    BodyEnd(m, m.mix(h, WordAt(s, q)), s, q + 4);
  }

  lemma FinishShort(m: Mixer, h: bv32, s: Bytes, q: nat)
    requires q % 4 == 0 && q < |s| < q + 4
    ensures TailMix(m, Body(m, h, s[q..]), Rest(s)) == m.scale(h ^ TailWord(s[q..]))
  {
    hide TailWord;
    BodyEnd(m, h, s, q);
  }

  /** The leftover of the aligned loop: the carried bytes, completed to a word if enough are left. */
  method AlignedFinish(m: Mixer, h0: bv32, data: Bytes, align: nat, start: nat, t: bv32, ghost q: nat)
    returns (h: bv32)
    requires 1 <= align < 4 && start == q + 4 - align <= |data| < start + 4 && q % 4 == 0
    requires Down(t, align) == TailWord(data[q..start])
    ensures h == TailMix(m, Body(m, h0, data[q..]), Rest(data))
  {
    hide Word, Up, Down, Joined, TailWord, WordAt, Body, Rest, TailMix;
    h := h0;
    var pos := start;
    var len := |data| - pos;
    if len >= align {
      var d := GatherBytes(data, pos, align);
      CarryWhole(data, q, align, t);
      FinishWhole(m, h0, data, q);
      h := m.mix(h, Joined(t, d, align));
      pos := pos + align;
      h := MixTailBytes(m, h, data, pos);
    } else {
      var d := GatherBytes(data, pos, len);
      CarryShort(data, q, align, t);
      FinishShort(m, h0, data, q);
      h := m.scale(h ^ Joined(t, d, align));
    }
  }

  lemma CarryWhole(data: Bytes, q: nat, align: nat, t: bv32)
    requires 1 <= align < 4 && q + 4 <= |data|
    requires Down(t, align) == TailWord(data[q..q + 4 - align])
    ensures Joined(t, TailWord(data[q + 4 - align..q + 4 - align + align]), align) == WordAt(data, q)
  {
    hide Word, Up, Down, Or, TailWord;
    var pos := q + 4 - align;
    JoinRegisters(data[q..pos], data[pos..pos + align], align);
    assert data[q..pos] + data[pos..pos + align] == data[q..q + 4];
    WordOfSlice(data, q);
  }

  lemma CarryShort(data: Bytes, q: nat, align: nat, t: bv32)
    requires 1 <= align < 4 && q + 4 - align <= |data| < q + 4
    requires Down(t, align) == TailWord(data[q..q + 4 - align])
    ensures var pos := q + 4 - align;
            Joined(t, TailWord(data[pos..pos + (|data| - pos)]), align) == TailWord(data[q..])
  {
    hide Word, Up, Down, Or, TailWord, WordAt;
    var pos := q + 4 - align;
    JoinRegisters(data[q..pos], data[pos..|data|], align);
    assert data[q..pos] + data[pos..|data|] == data[q..];
  }

  method MurmurHash2A(m: Mixer, data: Bytes, seed: bv32) returns (h: bv32)
    requires |data| < 0x8000_0000
    ensures h == Hash2A(m, data, seed)
  {
    hide LengthWord;
    h := seed;
    var pos := 0;
    while |data| - pos >= 4
      invariant 0 <= pos <= |data| && pos % 4 == 0
      invariant Body(m, h, data[pos..]) == Body(m, seed, data)
    {
      var k := WordAt(data, pos);
      BodyStep(m, h, data, pos);
      h := m.mix(h, k);
      pos := pos + 4;
    }
    BodyEnd(m, h, data, pos);
    var t := GatherBytes(data, pos, |data| - pos);
    assert data[pos..pos + (|data| - pos)] == data[pos..];
    h := m.mix(h, t);
    h := m.mix(h, LengthWord(|data|));
    h := m.finish(h);
  }

  /** The incremental form of MurmurHash2A. */
  class CMurmurHash2A {
    const m: Mixer
    var hash: bv32
    var tail: bv32
    var count: nat
    var size: nat
    ghost var seed: bv32
    ghost var whole: Bytes  // the bytes already mixed into the hash
    ghost var pending: Bytes   // the bytes waiting in the tail register

    /** Everything added since Begin. */
    ghost function Fed(): Bytes
      reads this
    {
      whole + pending
    }

    ghost predicate Absorbed()
      reads this
    {
      && |whole| % 4 == 0 && |pending| < 4
      && count == |pending|
      && tail == TailWord(pending)
      && hash == Body(m, seed, whole)
    }

    ghost predicate Valid()
      reads this
    {
      Absorbed() && size == Wrap(|Fed()|)
    }

    constructor (m: Mixer)
      ensures this.m == m
    {
      this.m := m;
      new;
      Begin(0);
    }

    method Begin(seed: bv32)
      modifies this
      ensures Valid() && Fed() == [] && this.seed == seed
    {
      hash := seed;
      tail := 0;
      count := 0;
      size := 0;
      this.seed := seed;
      whole, pending := [], [];
      TailOfNothing();
    }

    /** One byte into the tail register; a full register is mixed into the hash. */
    method MixByte(b: bv8)
      requires Absorbed()
      modifies this`hash, this`tail, this`count, this`whole, this`pending
      ensures Absorbed() && Fed() == old(Fed()) + [b]
    {
      hide Word, Up, WithByte, WordAt, TailWord, Body;
      ghost var grown := pending + [b];
      assert whole + grown == Fed() + [b];
      TailGrows(pending, b);
      tail := WithByte(tail, b, count);
      count := count + 1;
      if count == 4 {
        WholeWord(m, seed, whole, grown);
        hash := m.mix(hash, tail);
        tail := 0;
        count := 0;
        TailOfNothing();
        whole, pending := whole + grown, [];
      } else {
        pending := grown;
      }
    }

    /** Consumes bytes one at a time while fewer than four are left or the register is in use. */
    method MixTail(data: Bytes, from: nat) returns (pos: nat)
      requires from <= |data| && Absorbed()
      modifies this`hash, this`tail, this`count, this`whole, this`pending
      ensures from <= pos <= |data| && Absorbed() && Fed() == old(Fed()) + data[from..pos]
      ensures pos == |data| || (|data| - pos >= 4 && count == 0)
    {
      hide Word, WordAt, TailWord, Body;
      pos := from;
      while pos != |data| && (|data| - pos < 4 || count != 0)
        invariant from <= pos <= |data| && Absorbed() && Fed() == old(Fed()) + data[from..pos]
        decreases |data| - pos
      {
        MixByte(data[pos]);
        assert data[from..pos + 1] == data[from..pos] + [data[pos]];
        Regroup(old(Fed()), data[from..pos], [data[pos]]);
        pos := pos + 1;
      }
    }

    /** The word loop of Add, entered with an empty register. */
    method MixWords(data: Bytes, from: nat) returns (pos: nat)
      requires from <= |data| && Absorbed() && (from == |data| || count == 0)
      modifies this`hash, this`whole
      ensures from <= pos <= |data| < pos + 4 && Absorbed() && Fed() == old(Fed()) + data[from..pos]
    {
      hide Word, WordAt, TailWord, Body;
      pos := from;
      assert data[from..from] == [];
      while |data| - pos >= 4
        invariant from <= pos <= |data| && Absorbed() && (count == 0 || pos == |data|) && Fed() == old(Fed()) + data[from..pos]
      {
        var k := WordAt(data, pos);
        ghost var w := data[pos..pos + 4];
        WordOfSlice(data, pos);
        WholeWord(m, seed, whole, w);
        hash := m.mix(hash, k);
        assert pending == [] && Fed() == whole;
        whole := whole + w;
        assert data[from..pos + 4] == data[from..pos] + w;
        Regroup(old(Fed()), data[from..pos], w);
        pos := pos + 4;
      }
    }

    method Add(data: Bytes)
      requires Valid() && |data| < 0x8000_0000
      modifies this
      ensures Valid() && Fed() == old(Fed()) + data && seed == old(seed)
    {
      hide Word, TailWord, Body, Wrap;
      SizeWraps(|Fed()|, |data|);
      size := Wrap(size + |data|);
      var pos := MixTail(data, 0);
      ghost var first := pos;
      pos := MixWords(data, pos);
      ghost var second := pos;
      pos := MixTail(data, pos);
      assert data[0..first] + data[first..second] + data[second..pos] == data;
    }

    /** The digest of everything fed; the object needs a new Begin afterwards. */
    method End() returns (h: bv32)
      requires Valid()
      modifies this`hash
      ensures h == Hash2A(m, Fed(), seed)
    {
      hide TailWord, LengthWord;
      SplitAtTail(m, seed, whole, pending);
      assert LengthWord(size) == LengthWord(|Fed()|) by {
        LengthOfWrapped(|Fed()|);
      }
      hash := m.mix(hash, tail);
      hash := m.mix(hash, LengthWord(size));
      hash := m.finish(hash);
      h := hash;
    }
  }

  lemma LengthOfWrapped(n: nat)
    ensures LengthWord(Wrap(n)) == LengthWord(n)
  {
    SizeWraps(n, 0);
  }

  /** The tail after whole words is what the one-shot loop leaves over. */
  lemma SplitAtTail(m: Mixer, h: bv32, s: Bytes, t: Bytes)
    requires |s| % 4 == 0 && |t| < 4
    ensures Rest(s + t) == t && Body(m, h, s + t) == Body(m, h, s)
  {
    hide WordAt;
    BodyAppend(m, h, s, t);
    assert |s + t| % 4 == |t|;
  }

  /** A whole word after whole words. */
  lemma WholeWord(m: Mixer, h: bv32, s: Bytes, w: Bytes)
    requires |s| % 4 == 0 && |w| == 4
    ensures Body(m, h, s + w) == m.mix(Body(m, h, s), WordAt(w, 0))
  {
    BodyAppend(m, h, s, w);
    BodyOneWord(m, Body(m, h, s), w);
  }

  lemma TailGrows(t: Bytes, b: bv8)
    requires |t| < 4
    ensures |t| < 3 ==> WithByte(TailWord(t), b, |t|) == TailWord(t + [b])
    ensures |t| == 3 ==> WithByte(TailWord(t), b, |t|) == WordAt(t + [b], 0)
  {
    hide Word, WithByte;
    if |t| == 0 {
      Grow0(b);
    } else if |t| == 1 {
      Grow1(t[0], b);
    } else if |t| == 2 {
      Grow2(t[0], t[1], b);
    } else {
      Grow3(t[0], t[1], t[2], b);
    }
  }

  lemma Grow0(b: bv8)
    ensures WithByte(Word(0, 0, 0, 0), b, 0) == Word(b, 0, 0, 0)
  {
  }

  lemma Grow1(a: bv8, b: bv8)
    ensures WithByte(Word(a, 0, 0, 0), b, 1) == Word(a, b, 0, 0)
  {
  }

  lemma Grow2(a: bv8, b: bv8, c: bv8)
    ensures WithByte(Word(a, b, 0, 0), c, 2) == Word(a, b, c, 0)
  {
  }

  lemma Grow3(a: bv8, b: bv8, c: bv8, d: bv8)
    ensures WithByte(Word(a, b, c, 0), d, 3) == Word(a, b, c, d)
  {
  }

  lemma SizeWraps(a: nat, b: nat)
    ensures Wrap(Wrap(a) + b) == Wrap(a + b)
    ensures Wrap(Wrap(a)) == Wrap(a)
  {
  }

  /** Feeding a message in any chunks gives the one-shot hash of the whole message. */
  method HashChunks(m: Mixer, chunks: seq<Bytes>, seed: bv32) returns (h: bv32)
    requires forall i :: 0 <= i < |chunks| ==> |chunks[i]| < 0x8000_0000
    ensures h == Hash2A(m, Concat(chunks), seed)
  {
    hide Hash2A, Body, TailWord, Wrap;
    var hasher := new CMurmurHash2A(m);
    hasher.Begin(seed);
    for i := 0 to |chunks|
      invariant hasher.Valid() && hasher.seed == seed && hasher.Fed() == Concat(chunks[..i])
    {
      hasher.Add(chunks[i]);
      assert chunks[..i + 1][..i] == chunks[..i];
      assert Concat(chunks[..i + 1]) == Concat(chunks[..i]) + chunks[i];
    }
    assert chunks[..|chunks|] == chunks;
    h := hasher.End();
  }
}
