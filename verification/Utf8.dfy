/** base3/stringencode.cc: utf8_encode and utf8_decode, for values of up to 21 bits. */
module Utf8 {
  import opened Bytes

  const LARGEST: nat := 0x1F_FFFF

  type CodeValue = v: nat | v <= 0x1F_FFFF

  // ----- the bit tests -----

  /** The masks of utf8_decode are tests for ranges. */
  lemma MasksAreRanges(b: bv8)
    ensures (b & 0x80 == 0x00 <==> b < 0x80) && (b & 0xC0 == 0x80 <==> 0x80 <= b < 0xC0)
    ensures (b & 0xE0 == 0xC0 <==> 0xC0 <= b < 0xE0) && (b & 0xF0 == 0xE0 <==> 0xE0 <= b < 0xF0)
    ensures b & 0xF8 == 0xF0 <==> 0xF0 <= b < 0xF8
  {
  }

  /** 10xxxxxx. */
  predicate IsTrailer(b: byte)
  {
    0x80 <= b < 0xC0
  }

  // ----- one value -----

  /** utf8_encode with room for `room` bytes; nothing when the value is too large or does not fit. */
  function EncodeInto(value: nat, room: nat): (b: seq<byte>)
    ensures |b| <= room && |b| <= 4
  {
    if value <= 0x7F && room >= 1 then [value]
    else if value <= 0x7FF && room >= 2 then [0xC0 + value / 0x40, 0x80 + value % 0x40]
    else if value <= 0xFFFF && room >= 3 then [0xE0 + value / 0x1000, 0x80 + value / 0x40 % 0x40, 0x80 + value % 0x40]
    else if value <= LARGEST && room >= 4 then
      [0xF0 + value / 0x4_0000, 0x80 + value / 0x1000 % 0x40, 0x80 + value / 0x40 % 0x40, 0x80 + value % 0x40]
    else []
  }

  /** The shortest form. */
  function Encode(value: CodeValue): (b: seq<byte>)
    ensures 1 <= |b| <= 4
  {
    EncodeInto(value, 4)
  }

  /** The payload bits: the low k bits for a modulus of 2^k. */
  function Bits(b: byte, modulus: nat): (n: int)
    requires modulus > 0
  {
    b as int % modulus
  }

  /** utf8_decode: how many bytes were used, zero for a malformed sequence, and the value. */
  function Decode(s: seq<byte>): (r: (nat, CodeValue))
    requires s != []
    ensures r.0 <= |s| && r.0 <= 4
  {
    if s[0] < 0x80 then (1, s[0])
    else if |s| < 2 || !IsTrailer(s[1]) then (0, 0)
    else if 0xC0 <= s[0] < 0xE0 then (2, Bits(s[0], 0x20) * 0x40 + Bits(s[1], 0x40))
    else if |s| < 3 || !IsTrailer(s[2]) then (0, 0)
    else if 0xE0 <= s[0] < 0xF0 then (3, Bits(s[0], 0x10) * 0x1000 + Bits(s[1], 0x40) * 0x40 + Bits(s[2], 0x40))
    else if |s| < 4 || !IsTrailer(s[3]) then (0, 0)
    else if 0xF0 <= s[0] < 0xF8 then
      (4, Bits(s[0], 8) * 0x4_0000 + Bits(s[1], 0x40) * 0x1000 + Bits(s[2], 0x40) * 0x40 + Bits(s[3], 0x40))
    else (0, 0)
  }

  lemma LeadBits(q: nat)
    requires q < 0x40
    ensures Bits(0x80 + q, 0x40) == q
    ensures q < 0x20 ==> Bits(0xC0 + q, 0x20) == q
    ensures q < 0x10 ==> Bits(0xE0 + q, 0x10) == q
    ensures q < 8 ==> Bits(0xF0 + q, 8) == q
  {
  }

  /** The digits of a number to the base 64. */
  lemma Digits2(a: nat, b: nat)
    requires b < 0x40
    ensures (a * 0x40 + b) / 0x40 == a && (a * 0x40 + b) % 0x40 == b
  {
  }

  lemma Digits3(a: nat, b: nat, c: nat)
    requires b < 0x40 && c < 0x40
    ensures var v := a * 0x1000 + b * 0x40 + c; v / 0x1000 == a && v / 0x40 % 0x40 == b && v % 0x40 == c
  {
    Digits2(a * 0x40 + b, c);
    Digits2(a, b);
  }

  lemma Digits4(a: nat, b: nat, c: nat, d: nat)
    requires b < 0x40 && c < 0x40 && d < 0x40
    ensures var v := a * 0x4_0000 + b * 0x1000 + c * 0x40 + d;
            v / 0x4_0000 == a && v / 0x1000 % 0x40 == b && v / 0x40 % 0x40 == c && v % 0x40 == d
  {
    Digits2(a * 0x1000 + b * 0x40 + c, d);
    Digits3(a, b, c);
  }

  lemma DigitsOf2(v: nat)
    ensures v == v / 0x40 * 0x40 + v % 0x40
  {
  }

  lemma DigitsOf3(v: nat)
    ensures v == v / 0x1000 * 0x1000 + v / 0x40 % 0x40 * 0x40 + v % 0x40
  {
    var a := v / 0x40;
    DigitsOf2(v);
    DigitsOf2(a);
    assert a / 0x40 == v / 0x1000;
  }

  lemma DigitsOf4(v: nat)
    ensures v == v / 0x4_0000 * 0x4_0000 + v / 0x1000 % 0x40 * 0x1000 + v / 0x40 % 0x40 * 0x40 + v % 0x40
  {
    var b := v / 0x1000;
    DigitsOf3(v);
    DigitsOf2(b);
    assert b / 0x40 == v / 0x4_0000;
  }

  lemma RoundTrip2(a: nat, b: nat, rest: seq<byte>)
    requires a < 0x20 && b < 0x40
    ensures Decode([0xC0 + a, 0x80 + b] + rest) == (2, a * 0x40 + b)
  {
    hide Bits;
    LeadBits(a);
    LeadBits(b);
  }

  lemma RoundTrip3(a: nat, b: nat, c: nat, rest: seq<byte>)
    requires a < 0x10 && b < 0x40 && c < 0x40
    ensures Decode([0xE0 + a, 0x80 + b, 0x80 + c] + rest) == (3, a * 0x1000 + b * 0x40 + c)
  {
    hide Bits;
    LeadBits(a);
    LeadBits(b);
    LeadBits(c);
  }

  lemma RoundTrip4(a: nat, b: nat, c: nat, d: nat, rest: seq<byte>)
    requires a < 8 && b < 0x40 && c < 0x40 && d < 0x40
    ensures Decode([0xF0 + a, 0x80 + b, 0x80 + c, 0x80 + d] + rest) == (4, a * 0x4_0000 + b * 0x1000 + c * 0x40 + d)
  {
    hide Bits;
    LeadBits(a);
    LeadBits(b);
    LeadBits(c);
    LeadBits(d);
  }

  lemma RoundTripOf2(value: CodeValue, rest: seq<byte>)
    requires 0x7F < value <= 0x7FF
    ensures Decode(Encode(value) + rest) == (|Encode(value)|, value)
  {
    hide Decode;
    DigitsOf2(value);
    RoundTrip2(value / 0x40, value % 0x40, rest);
  }

  lemma RoundTripOf3(value: CodeValue, rest: seq<byte>)
    requires 0x7FF < value <= 0xFFFF
    ensures Decode(Encode(value) + rest) == (|Encode(value)|, value)
  {
    hide Decode;
    DigitsOf3(value);
    RoundTrip3(value / 0x1000, value / 0x40 % 0x40, value % 0x40, rest);
  }

  lemma RoundTripOf4(value: CodeValue, rest: seq<byte>)
    requires 0xFFFF < value <= LARGEST
    ensures Decode(Encode(value) + rest) == (|Encode(value)|, value)
  {
    hide Decode;
    DigitsOf4(value);
    RoundTrip4(value / 0x4_0000, value / 0x1000 % 0x40, value / 0x40 % 0x40, value % 0x40, rest);
  }

  /** Decoding inverts encoding for every value up to 0x1FFFFF, whatever follows. */
  lemma RoundTrip(value: CodeValue, rest: seq<byte>)
    ensures Decode(Encode(value) + rest) == (|Encode(value)|, value)
  {
    if value > 0x7F {
      hide Decode, Encode;
      if value <= 0x7FF {
        RoundTripOf2(value, rest);
      } else if value <= 0xFFFF {
        RoundTripOf3(value, rest);
      } else {
        RoundTripOf4(value, rest);
      }
    }
  }

  lemma BitsBound(b: byte)
    ensures 0 <= Bits(b, 0x40) < 0x40 && 0 <= Bits(b, 0x20) < 0x20 && 0 <= Bits(b, 0x10) < 0x10 && 0 <= Bits(b, 8) < 8
    ensures 0x80 <= b < 0xC0 ==> b == 0x80 + Bits(b, 0x40)
    ensures 0xC0 <= b < 0xE0 ==> b == 0xC0 + Bits(b, 0x20)
    ensures 0xE0 <= b < 0xF0 ==> b == 0xE0 + Bits(b, 0x10)
    ensures 0xF0 <= b < 0xF8 ==> b == 0xF0 + Bits(b, 8)
  {
  }

  /** The largest value that has a form shorter than n bytes. */
  function Shorter(n: nat): int
  {
    if n == 1 then -1 else if n == 2 then 0x7F else if n == 3 then 0x7FF else 0xFFFF
  }

  lemma ReencodesOf1(s: seq<byte>)
    requires s != [] && Decode(s).0 == 1
    ensures Encode(Decode(s).1) == s[..1] <==> Decode(s).1 > Shorter(1)
  {
    hide Bits;
    BitsBound(s[0]);
  }

  lemma ReencodesOf2(s: seq<byte>)
    requires s != [] && Decode(s).0 == 2
    ensures Encode(Decode(s).1) == s[..2] <==> Decode(s).1 > Shorter(2)
  {
    hide Bits;
    BitsBound(s[0]);
    BitsBound(s[1]);
    Digits2(Bits(s[0], 0x20), Bits(s[1], 0x40));
  }

  lemma ReencodesOf3(s: seq<byte>)
    requires s != [] && Decode(s).0 == 3
    ensures Encode(Decode(s).1) == s[..3] <==> Decode(s).1 > Shorter(3)
  {
    hide Bits;
    BitsBound(s[0]);
    BitsBound(s[1]);
    BitsBound(s[2]);
    Digits3(Bits(s[0], 0x10), Bits(s[1], 0x40), Bits(s[2], 0x40));
  }

  lemma ReencodesOf4(s: seq<byte>)
    requires s != [] && Decode(s).0 == 4
    ensures Encode(Decode(s).1) == s[..4] <==> Decode(s).1 > Shorter(4)
  {
    hide Bits;
    BitsBound(s[0]);
    BitsBound(s[1]);
    BitsBound(s[2]);
    BitsBound(s[3]);
    Digits4(Bits(s[0], 8), Bits(s[1], 0x40), Bits(s[2], 0x40), Bits(s[3], 0x40));
  }

  /** The decoder accepts over-long forms: re-encoding gives the same bytes exactly when the form was the shortest. */
  lemma ReencodesIff(s: seq<byte>)
    requires s != [] && Decode(s).0 > 0
    ensures Encode(Decode(s).1) == s[..Decode(s).0] <==> Decode(s).1 > Shorter(Decode(s).0)
  {
    var n := Decode(s).0;
    assert n <= 4;
    hide Decode, Encode, Shorter;
    if n == 1 {
      ReencodesOf1(s);
    } else if n == 2 {
      ReencodesOf2(s);
    } else if n == 3 {
      ReencodesOf3(s);
    } else {
      ReencodesOf4(s);
    }
  }

  /** An over-long form of zero: it is taken, and encoding gives another. */
  lemma LongFormIsTaken()
    ensures Decode([0xC0, 0x80]) == (2, 0) && Encode(0) == [0]
  {
  }

  // ----- texts -----

  function EncodeAll(values: seq<CodeValue>): seq<byte>
  {
    if values == [] then [] else Encode(values[0]) + EncodeAll(values[1..])
  }

  /** Some values, each in its shortest form. */
  ghost predicate IsUtf8(s: seq<byte>)
  {
    exists values: seq<CodeValue> :: s == EncodeAll(values)
  }
}
