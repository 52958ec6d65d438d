/** base3/stringencode.cc: URL and XML escaping of byte strings, in buffers of any size. */
module StringEncode {
  import opened Bytes
  import opened Pieces
  import opened Text

  // ----- the class table -----

  /** URL_UNSAFE. */
  predicate UrlUnsafe(ch: byte)
  {
    ch <= 32 || 34 <= ch <= 38 || ch == 43 || ch == 44 || ch == 47 || 58 <= ch <= 64 || 91 <= ch <= 94 || ch == 96
    || 123 <= ch <= 125 || ch == 127
  }

  /** XML_UNSAFE and HTML_UNSAFE: the quotes, '&', '<' and '>'. */
  predicate MarkupUnsafe(ch: byte)
  {
    ch == 34 || ch == 38 || ch == 39 || ch == 60 || ch == 62
  }

  // ----- hexadecimal digits -----

  function HexEncode(val: nat): (c: byte)
    requires val < 16
  {
    HexDigit(val) as int
  }

  /** On any char: a signed char is compared with '9', and the difference is cut to a byte. */
  function HexDecode(ch: byte): byte
  {
    var signed := if ch < 128 then ch as int else ch - 256;
    var lower := if 65 <= ch <= 90 then signed + 32 else signed;
    (if signed <= 57 then signed - 48 else lower - 97 + 10) % 256
  }

  /** Bitwise or. */
  function BitOr(a: nat, b: nat): nat
    decreases a + b
  {
    if a == 0 then b else if b == 0 then a
    else (if a % 2 == 1 || b % 2 == 1 then 1 else 0) + 2 * BitOr(a / 2, b / 2)
  }

  /** (hex_decode(a) << 4) | hex_decode(b), stored in a char. */
  function HexPair(a: byte, b: byte): byte
  {
    BitOr(16 * HexDecode(a) as int, HexDecode(b)) % 256
  }

  lemma OrOfNibbles(hi: nat, lo: nat)
    requires lo < 16
    ensures BitOr(16 * hi, lo) == 16 * hi + lo
  {
    hide BitOr;
    OrOfEven(8 * hi, lo);
    OrOfEven(4 * hi, lo / 2);
    OrOfEven(2 * hi, lo / 4);
    OrOfEven(hi, lo / 8);
    OrWithZero(hi);
    assert lo / 2 / 2 == lo / 4 && lo / 4 / 2 == lo / 8 && lo / 8 / 2 == 0;
  }

  lemma OrWithZero(a: nat)
    ensures BitOr(a, 0) == a
  {
  }

  lemma OrOfEven(a: nat, b: nat)
    ensures BitOr(2 * a, b) == b % 2 + 2 * BitOr(a, b / 2)
  {
    assert 2 * a % 2 == 0 && 2 * a / 2 == a;
  }

  lemma HexDigitReadsBack(val: nat)
    requires val < 16
    ensures HexDecode(HexEncode(val)) == val
  {
  }

  lemma HexPairReadsBack(ch: byte)
    ensures HexPair(HexEncode(ch / 16), HexEncode(ch % 16)) == ch
  {
    hide HexDecode, HexEncode, BitOr;
    HexDigitReadsBack(ch / 16);
    HexDigitReadsBack(ch % 16);
    OrOfNibbles(ch / 16, ch % 16);
  }

  // ----- encoding byte by byte -----

  function EncodeWith(esc: byte -> seq<byte>, s: seq<byte>): seq<byte>
  {
    if s == [] then [] else esc(s[0]) + EncodeWith(esc, s[1..])
  }

  /** What an encoder leaves in a buffer with room for `room` bytes: it stops before the first code that does not fit. */
  function EncodeFitting(esc: byte -> seq<byte>, s: seq<byte>, room: nat): (r: seq<byte>)
    ensures |r| <= room
  {
    if s == [] || |esc(s[0])| > room then [] else esc(s[0]) + EncodeFitting(esc, s[1..], room - |esc(s[0])|)
  }

  /** The buffer gets the whole code if and only if there is room for it. */
  lemma {:induction false} FitsIff(esc: byte -> seq<byte>, s: seq<byte>, room: nat)
    ensures EncodeFitting(esc, s, room) == EncodeWith(esc, s) <==> |EncodeWith(esc, s)| <= room
  {
    if s != [] && |esc(s[0])| <= room {
      FitsIff(esc, s[1..], room - |esc(s[0])|);
      if EncodeFitting(esc, s, room) == EncodeWith(esc, s) {
        assert EncodeFitting(esc, s, room)[|esc(s[0])|..] == EncodeFitting(esc, s[1..], room - |esc(s[0])|);
        assert EncodeWith(esc, s)[|esc(s[0])|..] == EncodeWith(esc, s[1..]);
      }
    }
  }

  /** A cut never falls inside a code: the buffer holds the code of a prefix, and one more byte would not fit. */
  lemma {:induction false} CutsBetweenCodes(esc: byte -> seq<byte>, s: seq<byte>, room: nat) returns (k: nat)
    ensures k <= |s| && EncodeFitting(esc, s, room) == EncodeWith(esc, s[..k])
    ensures k < |s| ==> |EncodeWith(esc, s[..k])| + |esc(s[k])| > room
  {
    if s == [] || |esc(s[0])| > room {
      k := 0;
    } else {
      var n := CutsBetweenCodes(esc, s[1..], room - |esc(s[0])|);
      k := n + 1;
      assert s[..k][1..] == s[1..][..n];
    }
  }

  /** One turn of an encoding loop. */
  lemma FittingStep(esc: byte -> seq<byte>, s: seq<byte>, pos: nat, room: nat)
    requires pos < |s|
    ensures EncodeFitting(esc, s[pos..], room)
            == if |esc(s[pos])| > room then [] else esc(s[pos]) + EncodeFitting(esc, s[pos + 1..], room - |esc(s[pos])|)
  {
    assert s[pos..][1..] == s[pos + 1..];
  }

  /** The end of the source, or of a buffer when every code takes a byte. */
  lemma FittingEnd(esc: byte -> seq<byte>, s: seq<byte>, pos: nat, room: nat)
    requires pos <= |s| && (pos == |s| || room == 0) && forall ch: byte :: esc(ch) != []
    ensures EncodeFitting(esc, s[pos..], room) == []
  {
  }

  lemma {:induction false} LengthBound(esc: byte -> seq<byte>, s: seq<byte>, n: nat)
    requires forall ch: byte :: |esc(ch)| <= n
    ensures |EncodeWith(esc, s)| <= n * |s|
  {
    if s != [] {
      LengthBound(esc, s[1..], n);
      assert n * |s| == n * |s[1..]| + n;
    }
  }

  /** Stores a code at the end of what is in the buffer. */
  method Emit(buffer: array<byte>, at: nat, code: seq<byte>)
    requires at + |code| <= buffer.Length
    modifies buffer
    ensures buffer[..at + |code|] == old(buffer[..at]) + code
    ensures buffer[at + |code|..] == old(buffer[at + |code|..])
  {
    Copy(buffer, at, code);
    assert buffer[..at + |code|] == buffer[..][..at + |code|];
    assert buffer[at + |code|..] == buffer[..][at + |code|..];
  }

  // ----- URLs -----

  function UrlCode(ch: byte): (c: seq<byte>)
    ensures 1 <= |c| <= 3
  {
    if UrlUnsafe(ch) then [37, HexEncode(ch / 16), HexEncode(ch % 16)] else [ch]
  }

  function UrlEncode(s: seq<byte>): seq<byte>
  {
    EncodeWith(UrlCode, s)
  }

  function UrlDecode(s: seq<byte>): seq<byte>
  {
    if s == [] then []
    else if s[0] == 43 then [32] + UrlDecode(s[1..])
    else if s[0] == 37 && |s| > 2 then [HexPair(s[1], s[2])] + UrlDecode(s[3..])
    else [s[0]] + UrlDecode(s[1..])
  }

  /** Every byte string survives, with a buffer of 3n + 1 bytes for the code. */
  lemma {:induction false} UrlRoundTrip(s: seq<byte>)
    ensures UrlDecode(UrlEncode(s)) == s && |UrlEncode(s)| <= 3 * |s|
  {
    if s != [] {
      UrlRoundTrip(s[1..]);
      hide HexPair, HexEncode;
      var tail := UrlEncode(s[1..]);
      HexPairReadsBack(s[0]);
      assert UrlEncode(s) == UrlCode(s[0]) + tail;
      assert UrlEncode(s)[|UrlCode(s[0])|..] == tail;
      assert s == [s[0]] + s[1..];
    }
  }

  /** No byte of the code needs escaping again, except the percent sign. */
  lemma {:induction false} UrlCodeIsSafe(s: seq<byte>, i: nat)
    requires i < |UrlEncode(s)|
    ensures !UrlUnsafe(UrlEncode(s)[i]) || UrlEncode(s)[i] == 37
  {
    var c := UrlCode(s[0]);
    if i >= |c| {
      UrlCodeIsSafe(s[1..], i - |c|);
    }
  }

  lemma UrlCodeIs(ch: byte)
    ensures UrlCode(ch) == if UrlUnsafe(ch) then [37, HexEncode(ch / 16), HexEncode(ch % 16)] else [ch]
  {
  }

  /** url_encode. */
  method UrlEncodeInto(buffer: array<byte>, source: seq<byte>) returns (r: nat)
    modifies buffer
    ensures if buffer.Length == 0 then r == 0
            else r < buffer.Length && buffer[r] == 0 && buffer[..r] == EncodeFitting(UrlCode, source, buffer.Length - 1)
  {
    hide UrlUnsafe, HexEncode, EncodeFitting, UrlCode;
    if buffer.Length == 0 {
      return 0;
    }
    ghost var all := EncodeFitting(UrlCode, source, buffer.Length - 1);
    var srcpos, bufpos := 0, 0;
    assert source[0..] == source;
    while srcpos < |source| && bufpos + 1 < buffer.Length
      invariant srcpos <= |source| && bufpos < buffer.Length
      invariant all == buffer[..bufpos] + EncodeFitting(UrlCode, source[srcpos..], buffer.Length - 1 - bufpos)
    {
      ghost var was, room := buffer[..bufpos], buffer.Length - 1 - bufpos;
      var ch := source[srcpos];
      UrlCodeIs(ch);
      FittingStep(UrlCode, source, srcpos, room);
      srcpos := srcpos + 1;
      if UrlUnsafe(ch) {
        if bufpos + 3 >= buffer.Length {
          buffer[bufpos] := 0;
          return bufpos;
        }
        Emit(buffer, bufpos, [37, HexEncode(ch / 16), HexEncode(ch % 16)]);
        bufpos := bufpos + 3;
      } else {
        Emit(buffer, bufpos, [ch]);
        bufpos := bufpos + 1;
      }
      assert buffer[..bufpos] == was + UrlCode(ch);
      Regroup(was, UrlCode(ch), EncodeFitting(UrlCode, source[srcpos..], room - |UrlCode(ch)|));
    }
    FittingEnd(UrlCode, source, srcpos, buffer.Length - 1 - bufpos);
    buffer[bufpos] := 0;
    r := bufpos;
  }

  /** url_decode. */
  method UrlDecodeInto(buffer: array<byte>, source: seq<byte>) returns (r: nat)
    modifies buffer
    ensures if buffer.Length == 0 then r == 0
            else r < buffer.Length && buffer[r] == 0 && buffer[..r] <= UrlDecode(source)
                 && (buffer[..r] == UrlDecode(source) || r == buffer.Length - 1)
  {
    hide HexPair, UrlDecode;
    if buffer.Length == 0 {
      return 0;
    }
    var srcpos, bufpos := 0, 0;
    assert source[0..] == source;
    while srcpos < |source| && bufpos + 1 < buffer.Length
      invariant srcpos <= |source| && bufpos < buffer.Length
      invariant UrlDecode(source) == buffer[..bufpos] + UrlDecode(source[srcpos..])
    {
      ghost var was := buffer[..bufpos];
      var ch := source[srcpos];
      UrlDecodeStep(source, srcpos);
      srcpos := srcpos + 1;
      if ch == 43 {
        buffer[bufpos] := 32;
      } else if ch == 37 && srcpos + 1 < |source| {
        buffer[bufpos] := HexPair(source[srcpos], source[srcpos + 1]);
        srcpos := srcpos + 2;
      } else {
        buffer[bufpos] := ch;
      }
      bufpos := bufpos + 1;
      assert buffer[..bufpos] == was + [buffer[bufpos - 1]];
    }
    UrlDecodeEnd();
    assert srcpos == |source| ==> source[srcpos..] == [];
    buffer[bufpos] := 0;
    r := bufpos;
  }

  lemma UrlDecodeStep(s: seq<byte>, pos: nat)
    requires pos < |s|
    ensures UrlDecode(s[pos..])
            == if s[pos] == 43 then [32] + UrlDecode(s[pos + 1..])
               else if s[pos] == 37 && pos + 2 < |s| then [HexPair(s[pos + 1], s[pos + 2])] + UrlDecode(s[pos + 3..])
               else [s[pos]] + UrlDecode(s[pos + 1..])
  {
    assert s[pos..][1..] == s[pos + 1..];
    if pos + 2 < |s| {
      assert s[pos..][3..] == s[pos + 3..];
    }
  }

  lemma UrlDecodeEnd()
    ensures UrlDecode([]) == []
  {
  }
}
