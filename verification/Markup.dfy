/** base3/stringencode.cc: xml_encode, html_encode and the decoder that the two share. */
module Markup {
  import opened Bytes
  import opened StringEncode
  import opened Text
  import opened Pieces
  import Utf8

  // ----- strtoul -----

  const ULONG_MAX: nat := 0xFFFF_FFFF_FFFF_FFFF

  /** The value of a digit, or the base for any other character. */
  function DigitIn(c: byte, base: nat): (d: nat)
    requires base == 10 || base == 16
    ensures d <= base
  {
    if 48 <= c <= 57 then c - 48
    else if base == 16 && 65 <= c <= 70 then c - 55
    else if base == 16 && 97 <= c <= 102 then c - 87
    else base
  }

  function SpaceCount(t: seq<byte>): (n: nat)
    ensures n <= |t| && (n < |t| ==> !IsSpace(t[n] as char))
  {
    if t == [] || !IsSpace(t[0] as char) then 0 else 1 + SpaceCount(t[1..])
  }

  function DigitCount(t: seq<byte>, base: nat): (n: nat)
    requires base == 10 || base == 16
    ensures n <= |t| && (forall i :: 0 <= i < n ==> DigitIn(t[i], base) < base) && (n < |t| ==> DigitIn(t[n], base) == base)
  {
    if t == [] || DigitIn(t[0], base) == base then 0 else 1 + DigitCount(t[1..], base)
  }

  function NumberIn(t: seq<byte>, base: nat): nat
    requires base == 10 || base == 16
  {
    if t == [] then 0 else NumberIn(t[..|t| - 1], base) * base + DigitIn(t[|t| - 1], base)
  }

  /** Behind the spaces and a sign. */
  function SignEnd(t: seq<byte>): (j: nat)
    ensures j <= |t|
  {
    var i := SpaceCount(t);
    if i < |t| && (t[i] == 43 || t[i] == 45) then i + 1 else i
  }

  function Negated(t: seq<byte>): bool
  {
    var i := SpaceCount(t);
    i < |t| && t[i] == 45
  }

  /** An 0x in front of a digit. */
  predicate HasHexPrefix(t: seq<byte>, j: nat)
  {
    j + 2 < |t| && t[j] == 48 && (t[j + 1] == 120 || t[j + 1] == 88) && DigitIn(t[j + 2], 16) < 16
  }

  function DigitsStart(t: seq<byte>, base: nat): (j: nat)
    requires base == 10 || base == 16
    ensures j <= |t|
  {
    if base == 16 && HasHexPrefix(t, SignEnd(t)) then SignEnd(t) + 2 else SignEnd(t)
  }

  /** The value, saturated and negated in 64 bits, and the number of characters used: none when there is no digit. */
  function FromDigits(t: seq<byte>, j: nat, base: nat, negated: bool): (r: (nat, nat))
    requires (base == 10 || base == 16) && j <= |t|
    ensures r.1 <= |t| && (r.1 == 0 || r.1 > j)
  {
    var k := DigitCount(t[j..], base);
    if k == 0 then (0, 0)
    else
      var n := NumberIn(t[j..j + k], base);
      (if n > ULONG_MAX then ULONG_MAX else if negated && n > 0 then ULONG_MAX + 1 - n else n, j + k)
  }

  function Strtoul(t: seq<byte>, base: nat): (r: (nat, nat))
    requires base == 10 || base == 16
    ensures r.1 <= |t|
  {
    FromDigits(t, DigitsStart(t, base), base, Negated(t))
  }

  // ----- decoding -----

  /** A numeric reference `&#...;` at the front of s: its value and its length. */
  function Reference(s: seq<byte>): (r: Option<(nat, nat)>)
    requires |s| >= 2
    ensures r.Some? ==> 3 <= r.value.1 <= |s|
    ensures r.Some? && r.value.0 > 0 ==> 4 <= r.value.1
  {
    var hex := |s| > 2 && s[2] == 120;
    var start := if hex then 3 else 2;
    var number := Strtoul(s[start..], if hex then 16 else 10);
    var end := start + number.1;
    if end < |s| && s[end] == 59 then Some((number.0, end + 1)) else None
  }

  /** The named references and what they stand for, with the ampersand already read. */
  function Named(t: seq<byte>): (r: Option<(byte, nat)>)
    ensures r.Some? ==> r.value.1 <= |t|
  {
    if [108, 116, 59] <= t then Some((60, 3))                // lt;
    else if [103, 116, 59] <= t then Some((62, 3))           // gt;
    else if [97, 112, 111, 115, 59] <= t then Some((39, 5))  // apos;
    else if [113, 117, 111, 116, 59] <= t then Some((34, 5)) // quot;
    else if [97, 109, 112, 59] <= t then Some((38, 4))       // amp;
    else None
  }

  /** One turn of the decoder: what it stores and how much it reads, or nothing at an invalid sequence. */
  function DecodeOne(s: seq<byte>): (r: Option<(seq<byte>, nat)>)
    requires s != []
    ensures r.Some? ==> 0 < r.value.1 <= |s| && |r.value.0| <= r.value.1
  {
    if s[0] != 38 then Some(([s[0]], 1))
    else
      match Named(s[1..])
      case Some(n) => Some(([n.0], 1 + n.1))
      case None =>
        if |s| < 2 || s[1] != 35 then None
        else
          match Reference(s)
          case None => None
          case Some(n) => if n.0 <= Utf8.LARGEST then Some((Utf8.Encode(n.0), n.1)) else None
  }

  /** xml_decode and html_decode, with a buffer that is longer than the source. */
  function Decode(s: seq<byte>): (r: seq<byte>)
    ensures |r| <= |s|
  {
    if s == [] then []
    else
      match DecodeOne(s)
      case None => []
      case Some(step) => step.0 + Decode(s[step.1..])
  }

  // ----- encoding -----

  function XmlCode(ch: byte): (c: seq<byte>)
    ensures 1 <= |c| <= 6
  {
    if ch == 60 then [38, 108, 116, 59]
    else if ch == 62 then [38, 103, 116, 59]
    else if ch == 39 then [38, 97, 112, 111, 115, 59]
    else if ch == 34 then [38, 113, 117, 111, 116, 59]
    else if ch == 38 then [38, 97, 109, 112, 59]
    else [ch]
  }

  function XmlEncode(s: seq<byte>): seq<byte>
  {
    EncodeWith(XmlCode, s)
  }

  /** &#39; for the apostrophe, which has no name in HTML. */
  function HtmlCode(ch: byte): (c: seq<byte>)
    ensures 1 <= |c| <= 6
  {
    if ch == 39 then [38, 35, 51, 57, 59] else XmlCode(ch)
  }

  /** The character at the front of s: a byte that is not part of valid UTF-8 stands for itself. */
  function Character(s: seq<byte>): (r: (nat, Utf8.CodeValue))
    requires s != []
    ensures 0 < r.0 <= |s|
  {
    if Utf8.Decode(s).0 > 0 then Utf8.Decode(s) else (1, s[0])
  }

  function ReferenceTo(value: nat): seq<byte>
  {
    [38, 35] + OfString(Dec(value)) + [59]
  }

  /** One turn of html_encode. */
  function HtmlEncodeOne(s: seq<byte>): (r: (seq<byte>, nat))
    requires s != []
    ensures r.0 != [] && 0 < r.1 <= |s|
  {
    if s[0] < 128 then (HtmlCode(s[0]), 1) else (ReferenceTo(Character(s).1), Character(s).0)
  }

  function HtmlEncode(s: seq<byte>): seq<byte>
  {
    if s == [] then [] else HtmlEncodeOne(s).0 + HtmlEncode(s[HtmlEncodeOne(s).1..])
  }

  /** The characters that html_encode finds in s. */
  function Characters(s: seq<byte>): seq<Utf8.CodeValue>
  {
    if s == [] then [] else [Character(s).1] + Characters(s[Character(s).0..])
  }

  // ----- round trips -----

  lemma DecodeStep(code: seq<byte>, rest: seq<byte>, plain: seq<byte>)
    requires code != [] && DecodeOne(code + rest) == Some((plain, |code|))
    ensures Decode(code + rest) == plain + Decode(rest)
  {
    hide DecodeOne;
    assert (code + rest)[|code|..] == rest;
  }

  lemma XmlCodeDecodes(ch: byte, rest: seq<byte>)
    ensures DecodeOne(XmlCode(ch) + rest) == Some(([ch], |XmlCode(ch)|))
  {
    hide Reference;
    if MarkupUnsafe(ch) {
      var name := XmlCode(ch)[1..];
      assert (XmlCode(ch) + rest)[1..] == name + rest;
      assert name <= name + rest && (name + rest)[0] == name[0] && (name + rest)[1] == name[1];
    }
  }

  /** xml_decode undoes xml_encode on every byte string. */
  lemma {:induction false} XmlRoundTrip(s: seq<byte>)
    ensures Decode(XmlEncode(s)) == s
  {
    hide XmlCode, DecodeOne;
    if s != [] {
      XmlCodeDecodes(s[0], XmlEncode(s[1..]));
      DecodeStep(XmlCode(s[0]), XmlEncode(s[1..]), [s[0]]);
      XmlRoundTrip(s[1..]);
      assert s == [s[0]] + s[1..];
    }
  }

  /** Nothing in the code can be mistaken for markup: every special byte is an ampersand. */
  lemma {:induction false} XmlCodeIsSafe(s: seq<byte>, i: nat)
    requires i < |XmlEncode(s)|
    ensures !MarkupUnsafe(XmlEncode(s)[i]) || XmlEncode(s)[i] == 38
  {
    var c := XmlCode(s[0]);
    if i >= |c| {
      XmlCodeIsSafe(s[1..], i - |c|);
    }
  }

  /** The digits of a number, as bytes. */
  function DecBytes(n: nat): seq<byte>
  {
    OfString(Dec(n))
  }

  lemma DigitCharIs(d: nat)
    requires d < 10
    ensures DigitChar(d) as int % 256 == 48 + d && DigitIn(48 + d, 10) == d
  {
  }

  lemma {:induction false} DecBytesAreDigits(n: nat)
    ensures DecBytes(n) != [] && forall i :: 0 <= i < |DecBytes(n)| ==> DigitIn(DecBytes(n)[i], 10) < 10 && 48 <= DecBytes(n)[i] <= 57
    ensures NumberIn(DecBytes(n), 10) == n
  {
    hide DigitIn;
    var d := DecBytes(n);
    DigitCharIs(n % 10);
    if n >= 10 {
      DecBytesAreDigits(n / 10);
      assert d == DecBytes(n / 10) + [48 + n % 10];
      assert d[..|d| - 1] == DecBytes(n / 10);
    } else {
      assert d == [48 + n % 10] && d[..0] == [];
    }
  }

  lemma {:induction false} DigitCountIs(t: seq<byte>, n: nat)
    requires n < |t| && DigitIn(t[n], 10) == 10
    requires forall i :: 0 <= i < n ==> DigitIn(t[i], 10) < 10
    ensures DigitCount(t, 10) == n
  {
    if n > 0 {
      DigitCountIs(t[1..], n - 1);
    }
  }

  lemma StrtoulReadsDec(n: nat, rest: seq<byte>)
    requires n <= ULONG_MAX
    ensures Strtoul(DecBytes(n) + [59] + rest, 10) == (n, |DecBytes(n)|)
  {
    hide NumberIn, OfString, Dec;
    var d := DecBytes(n);
    var t := d + [59] + rest;
    DecBytesAreDigits(n);
    assert t[0] == d[0] && !IsSpace(t[0] as char);
    assert SpaceCount(t) == 0 && DigitsStart(t, 10) == 0;
    assert t[0..] == t;
    DigitCountIs(t, |d|);
    assert t[0..|d|] == d;
  }

  lemma ReferenceDecodes(n: Utf8.CodeValue, rest: seq<byte>)
    ensures DecodeOne(ReferenceTo(n) + rest) == Some((Utf8.Encode(n), |ReferenceTo(n)|))
  {
    hide Strtoul, OfString, Dec;
    var d := DecBytes(n);
    var s := ReferenceTo(n) + rest;
    DecBytesAreDigits(n);
    StrtoulReadsDec(n, rest);
    assert s[2] == d[0];
    assert s[2..] == d + [59] + rest;
    assert s[1..][0] == 35;
    assert Named(s[1..]) == None;
  }

  lemma Apostrophe()
    ensures HtmlCode(39) == ReferenceTo(39)
  {
    assert Dec(39) == Dec(3) + [DigitChar(9)];
  }

  lemma HtmlOneDecodes(s: seq<byte>, rest: seq<byte>)
    requires s != []
    ensures var one := HtmlEncodeOne(s);
            DecodeOne(one.0 + rest) == Some((Utf8.Encode(Character(s).1), |one.0|)) && one.1 == Character(s).0
  {
    hide DecodeOne, ReferenceTo, XmlCode;
    if s[0] >= 128 {
      ReferenceDecodes(Character(s).1, rest);
    } else if s[0] == 39 {
      Apostrophe();
      ReferenceDecodes(39, rest);
    } else {
      XmlCodeDecodes(s[0], rest);
    }
  }

  /** html_decode(html_encode(s)) is s read as UTF-8 and written again, stray bytes as characters of their own. */
  lemma {:induction false} HtmlGivesCharacters(s: seq<byte>)
    ensures Decode(HtmlEncode(s)) == Utf8.EncodeAll(Characters(s))
  {
    hide DecodeOne, HtmlEncodeOne, Character;
    if s != [] {
      var one := HtmlEncodeOne(s);
      var tail := s[one.1..];
      HtmlOneDecodes(s, HtmlEncode(tail));
      DecodeStep(one.0, HtmlEncode(tail), Utf8.Encode(Character(s).1));
      HtmlGivesCharacters(tail);
      AllOfCons(Character(s).1, Characters(tail));
    }
  }

  lemma AllOfCons(v: Utf8.CodeValue, vs: seq<Utf8.CodeValue>)
    ensures Utf8.EncodeAll([v] + vs) == Utf8.Encode(v) + Utf8.EncodeAll(vs)
  {
    assert ([v] + vs)[1..] == vs;
  }

  /** The characters of a well-formed text are the values that it was made of. */
  lemma {:induction false} CharactersOfText(vs: seq<Utf8.CodeValue>)
    ensures Characters(Utf8.EncodeAll(vs)) == vs
  {
    if vs != [] {
      hide Utf8.Encode, Utf8.Decode;
      var rest := Utf8.EncodeAll(vs[1..]);
      var s := Utf8.Encode(vs[0]) + rest;
      Utf8.RoundTrip(vs[0], rest);
      assert s[|Utf8.Encode(vs[0])|..] == rest;
      CharactersOfText(vs[1..]);
      assert Character(s) == (|Utf8.Encode(vs[0])|, vs[0]);
      hide Character;
      assert Characters(s) == [vs[0]] + Characters(rest);
    }
  }

  /** HTML decoding undoes encoding exactly on the texts that utf8_encode can produce. */
  lemma HtmlRoundTripIff(s: seq<byte>)
    ensures Decode(HtmlEncode(s)) == s <==> Utf8.IsUtf8(s)
  {
    HtmlGivesCharacters(s);
    if Utf8.IsUtf8(s) {
      var vs: seq<Utf8.CodeValue> :| s == Utf8.EncodeAll(vs);
      CharactersOfText(vs);
    }
  }

  /** A stray byte comes back as its character, in two bytes. */
  lemma StrayByteGrows()
    ensures Decode(HtmlEncode([0x80])) == [0xC2, 0x80] && !Utf8.IsUtf8([0x80])
  {
    var s: seq<byte> := [0x80];
    assert Characters(s) == [0x80];
    assert Utf8.EncodeAll([0x80]) == Utf8.Encode(0x80);
    HtmlGivesCharacters(s);
    HtmlRoundTripIff(s);
  }

  // ----- strtoul beyond the end -----

  lemma {:induction false} SpaceCountOfMore(t: seq<byte>, u: seq<byte>)
    ensures if SpaceCount(t) < |t| then SpaceCount(t + u) == SpaceCount(t) else SpaceCount(t + u) >= |t|
    decreases |t|
  {
    if t != [] && IsSpace(t[0] as char) {
      assert (t + u)[1..] == t[1..] + u;
      SpaceCountOfMore(t[1..], u);
    }
  }

  lemma {:induction false} DigitCountOfMore(t: seq<byte>, u: seq<byte>, base: nat)
    requires base == 10 || base == 16
    ensures if DigitCount(t, base) < |t| then DigitCount(t + u, base) == DigitCount(t, base) else DigitCount(t + u, base) >= |t|
    decreases |t|
  {
    hide DigitIn;
    if t != [] && DigitIn(t[0], base) < base {
      assert (t + u)[1..] == t[1..] + u;
      DigitCountOfMore(t[1..], u, base);
    }
  }

  /** The test behind the call of strtoul: it stopped inside t, at a semicolon. */
  predicate StopsAtSemicolon(t: seq<byte>, r: (nat, nat))
  {
    r.1 < |t| && t[r.1] == 59
  }

  lemma FirstIsNoSemicolon(t: seq<byte>)
    requires SpaceCount(t) > 0 || SignEnd(t) > 0
    ensures t[0] != 59
  {
  }

  lemma EndOfDigits(t: seq<byte>, j: nat, base: nat, negated: bool)
    requires (base == 10 || base == 16) && j <= |t|
    ensures var k := DigitCount(t[j..], base);
            FromDigits(t, j, base, negated).1 == if k == 0 then 0 else j + k
  {
    hide DigitCount, NumberIn;
  }

  lemma SameDigits(t: seq<byte>, t': seq<byte>, j: nat, base: nat, negated: bool)
    requires (base == 10 || base == 16) && j <= |t| && j <= |t'|
    requires var k := DigitCount(t[j..], base);
             DigitCount(t'[j..], base) == k && t'[j..][..k] == t[j..][..k]
    ensures FromDigits(t', j, base, negated) == FromDigits(t, j, base, negated)
  {
    hide DigitCount, NumberIn;
    var k := DigitCount(t[j..], base);
    assert t'[j..j + k] == t'[j..][..k];
    assert t[j..j + k] == t[j..][..k];
  }

  lemma FromDigitsOfMore(t: seq<byte>, u: seq<byte>, j: nat, base: nat, negated: bool)
    requires (base == 10 || base == 16) && j <= |t| && (t != [] && j > 0 ==> t[0] != 59)
    ensures var r, r' := FromDigits(t, j, base, negated), FromDigits(t + u, j, base, negated);
            StopsAtSemicolon(t, r') || StopsAtSemicolon(t, r) ==> r' == r
  {
    hide DigitCount, FromDigits;
    var k := DigitCount(t[j..], base);
    DigitCountOfMore(t[j..], u, base);
    assert (t + u)[j..] == t[j..] + u;
    EndOfDigits(t, j, base, negated);
    EndOfDigits(t + u, j, base, negated);
    if k < |t| - j {
      assert (t[j..] + u)[..k] == t[j..][..k];
      SameDigits(t, t + u, j, base, negated);
    }
  }

  lemma SameSign(t: seq<byte>, u: seq<byte>)
    requires SpaceCount(t) < |t|
    ensures SignEnd(t + u) == SignEnd(t) && Negated(t + u) == Negated(t)
  {
    SpaceCountOfMore(t, u);
    assert (t + u)[SpaceCount(t)] == t[SpaceCount(t)];
  }

  /** A prefix 0x that lies half outside: the digits found by strtoul lie outside, and without them only the 0 is a number. */
  lemma SplitPrefix(t: seq<byte>, u: seq<byte>)
    requires HasHexPrefix(t + u, SignEnd(t)) && !HasHexPrefix(t, SignEnd(t)) && SpaceCount(t) < |t| && SignEnd(t + u) == SignEnd(t)
    ensures !StopsAtSemicolon(t, Strtoul(t + u, 16)) && !StopsAtSemicolon(t, Strtoul(t, 16))
  {
    hide SpaceCount, SignEnd, FromDigits, Negated, DigitCount, HasHexPrefix;
    var j := SignEnd(t);
    PrefixSplits(t, u, j);
    EndOfDigits(t, j, 16, Negated(t));
    EndOfDigits(t + u, j + 2, 16, Negated(t + u));
    if j == |t| {
      FirstIsNoSemicolon(t);
    }
  }

  lemma PrefixSplits(t: seq<byte>, u: seq<byte>, j: nat)
    requires HasHexPrefix(t + u, j) && !HasHexPrefix(t, j) && j <= |t|
    ensures |t| <= j + 2 < |t + u|
    ensures DigitCount((t + u)[j + 2..], 16) >= 1
    ensures j == |t| ==> DigitCount(t[j..], 16) == 0
    ensures j < |t| ==> DigitCount(t[j..], 16) == 1 && (j + 1 < |t| ==> t[j + 1] != 59)
  {
    assert forall i :: 0 <= i < |t| ==> (t + u)[i] == t[i];
    assert (t + u)[j + 2..][0] == (t + u)[j + 2];
    if j < |t| {
      ZeroIsADigit(t[j..]);
    }
  }

  lemma ZeroIsADigit(t: seq<byte>)
    requires t != [] && t[0] == 48 && (|t| == 1 || (|t| == 2 && DigitIn(t[1], 16) == 16))
    ensures DigitCount(t, 16) == 1
  {
    if |t| == 2 {
      assert t[1..][0] == t[1];
    } else {
      assert t[1..] == [];
    }
  }

  lemma SamePrefix(t: seq<byte>, u: seq<byte>, j: nat)
    requires HasHexPrefix(t, j)
    ensures HasHexPrefix(t + u, j)
  {
  }

  /** strtoul may read past the end of the source, but then the test rejects its result: what follows has no influence. */
  lemma WhatFollowsIsIgnored(t: seq<byte>, u: seq<byte>, base: nat)
    requires base == 10 || base == 16
    ensures StopsAtSemicolon(t, Strtoul(t + u, base)) || StopsAtSemicolon(t, Strtoul(t, base))
            ==> Strtoul(t + u, base) == Strtoul(t, base)
  {
    hide FromDigits, SpaceCount, HasHexPrefix, SignEnd, Negated, Strtoul;
    if SpaceCount(t) == |t| {
      OnlySpaces(t, u, base);
    } else {
      SameSign(t, u);
      var j := SignEnd(t);
      if base == 16 && HasHexPrefix(t, j) {
        SamePrefix(t, u, j);
      }
      if base == 16 && HasHexPrefix(t + u, j) && !HasHexPrefix(t, j) {
        SplitPrefix(t, u);
      } else {
        SameStart(t, u, base);
      }
    }
  }

  lemma OnlySpaces(t: seq<byte>, u: seq<byte>, base: nat)
    requires (base == 10 || base == 16) && SpaceCount(t) == |t|
    ensures !StopsAtSemicolon(t, Strtoul(t + u, base)) && !StopsAtSemicolon(t, Strtoul(t, base))
  {
    hide SpaceCount, DigitCount, NumberIn;
    SpaceCountOfMore(t, u);
    if t != [] {
      FirstIsNoSemicolon(t);
    }
  }

  lemma SameStart(t: seq<byte>, u: seq<byte>, base: nat)
    requires (base == 10 || base == 16) && SpaceCount(t) < |t|
    requires SignEnd(t + u) == SignEnd(t) && Negated(t + u) == Negated(t)
    requires base == 16 ==> HasHexPrefix(t + u, SignEnd(t)) == HasHexPrefix(t, SignEnd(t))
    ensures StopsAtSemicolon(t, Strtoul(t + u, base)) || StopsAtSemicolon(t, Strtoul(t, base))
            ==> Strtoul(t + u, base) == Strtoul(t, base)
  {
    hide FromDigits, SpaceCount, SignEnd, Negated;
    if DigitsStart(t, base) > 0 {
      if SignEnd(t) > 0 {
        FirstIsNoSemicolon(t);
      }
    }
    FromDigitsOfMore(t, u, DigitsStart(t, base), base, Negated(t));
  }

  // ----- the loops -----

  /** xml_encode. */
  method XmlEncodeInto(buffer: array<byte>, source: seq<byte>) returns (r: nat)
    modifies buffer
    ensures if buffer.Length == 0 then r == 0
            else r < buffer.Length && buffer[r] == 0 && buffer[..r] == EncodeFitting(XmlCode, source, buffer.Length - 1)
  {
    hide XmlCode, EncodeFitting;
    if buffer.Length == 0 {
      return 0;
    }
    ghost var all := EncodeFitting(XmlCode, source, buffer.Length - 1);
    var srcpos, bufpos := 0, 0;
    assert source[0..] == source;
    while srcpos < |source| && bufpos + 1 < buffer.Length
      invariant srcpos <= |source| && bufpos < buffer.Length
      invariant all == buffer[..bufpos] + EncodeFitting(XmlCode, source[srcpos..], buffer.Length - 1 - bufpos)
    {
      ghost var was := buffer[..bufpos];
      FittingStep(XmlCode, source, srcpos, buffer.Length - 1 - bufpos);
      var code := XmlCode(source[srcpos]);
      srcpos := srcpos + 1;
      if bufpos + |code| >= buffer.Length {
        buffer[bufpos] := 0;
        return bufpos;
      }
      Emit(buffer, bufpos, code);
      bufpos := bufpos + |code|;
      assert buffer[..bufpos] == was + code;
    }
    FittingEnd(XmlCode, source, srcpos, buffer.Length - 1 - bufpos);
    buffer[bufpos] := 0;
    r := bufpos;
  }

  /** What html_encode leaves in a buffer with room for `room` bytes. */
  function HtmlFitting(s: seq<byte>, room: nat): (r: seq<byte>)
    ensures |r| <= room
  {
    if s == [] || |HtmlEncodeOne(s).0| > room then []
    else HtmlEncodeOne(s).0 + HtmlFitting(s[HtmlEncodeOne(s).1..], room - |HtmlEncodeOne(s).0|)
  }

  lemma {:induction false} HtmlFitsWhole(s: seq<byte>, room: nat)
    requires |HtmlEncode(s)| <= room
    ensures HtmlFitting(s, room) == HtmlEncode(s)
    decreases |s|
  {
    hide HtmlEncodeOne;
    if s != [] {
      HtmlFitsWhole(s[HtmlEncodeOne(s).1..], room - |HtmlEncodeOne(s).0|);
    }
  }

  /** html_encode. */
  method HtmlEncodeInto(buffer: array<byte>, source: seq<byte>) returns (r: nat)
    modifies buffer
    ensures if buffer.Length == 0 then r == 0
            else r < buffer.Length && buffer[r] == 0 && buffer[..r] == HtmlFitting(source, buffer.Length - 1)
  {
    hide HtmlEncodeOne, HtmlFitting;
    if buffer.Length == 0 {
      return 0;
    }
    var srcpos, bufpos := 0, 0;
    assert source[0..] == source;
    ghost var all := HtmlFitting(source, buffer.Length - 1);
    while srcpos < |source| && bufpos + 1 < buffer.Length
      invariant srcpos <= |source| && bufpos < buffer.Length
      invariant all == buffer[..bufpos] + HtmlFitting(source[srcpos..], buffer.Length - 1 - bufpos)
    {
      ghost var was := buffer[..bufpos];
      HtmlFittingAt(source, srcpos, buffer.Length - 1 - bufpos);
      var code, next := HtmlEncodeOneAt(source, srcpos);
      srcpos := next;
      if bufpos + |code| >= buffer.Length {
        buffer[bufpos] := 0;
        return bufpos;
      }
      Emit(buffer, bufpos, code);
      bufpos := bufpos + |code|;
      assert buffer[..bufpos] == was + code;
    }
    HtmlFittingEnd(source[srcpos..], buffer.Length - 1 - bufpos);
    buffer[bufpos] := 0;
    r := bufpos;
  }

  /** The body of the encoding loop: the code of the next character, and where to go on. */
  method HtmlEncodeOneAt(source: seq<byte>, pos: nat) returns (code: seq<byte>, next: nat)
    requires pos < |source|
    ensures code == HtmlEncodeOne(source[pos..]).0 && next == pos + HtmlEncodeOne(source[pos..]).1
  {
    hide HtmlCode, ReferenceTo, Character;
    if source[pos] < 128 {
      return HtmlCode(source[pos]), pos + 1;
    }
    var found := Character(source[pos..]);
    return ReferenceTo(found.1), pos + found.0;
  }

  lemma HtmlFittingAt(s: seq<byte>, pos: nat, room: nat)
    requires pos < |s|
    ensures var one := HtmlEncodeOne(s[pos..]);
            HtmlFitting(s[pos..], room) == if |one.0| > room then [] else one.0 + HtmlFitting(s[pos + one.1..], room - |one.0|)
  {
    hide HtmlEncodeOne;
    assert s[pos..][HtmlEncodeOne(s[pos..]).1..] == s[pos + HtmlEncodeOne(s[pos..]).1..];
  }

  lemma HtmlFittingEnd(s: seq<byte>, room: nat)
    requires s == [] || room == 0
    ensures HtmlFitting(s, room) == []
  {
    hide HtmlEncodeOne;
  }

  /** Only the part of the decoder that calls strtoul sees what follows the source in memory. */
  function ReferenceInMemory(s: seq<byte>, after: seq<byte>): Option<(nat, nat)>
    requires |s| >= 2
  {
    var hex := |s| > 2 && s[2] == 120;
    var start := if hex then 3 else 2;
    var number := Strtoul((s + after)[start..], if hex then 16 else 10);
    var end := start + number.1;
    if end < |s| && s[end] == 59 then Some((number.0, end + 1)) else None
  }

  lemma ReferenceIsLocal(s: seq<byte>, after: seq<byte>)
    requires |s| >= 2
    ensures ReferenceInMemory(s, after) == Reference(s)
  {
    hide Strtoul;
    var hex := |s| > 2 && s[2] == 120;
    var start := if hex then 3 else 2;
    assert (s + after)[start..] == s[start..] + after;
    WhatFollowsIsIgnored(s[start..], after, if hex then 16 else 10);
  }

  // ----- decoding into a buffer -----

  /** What the decoder stores with `room` places, the last of which it keeps free unless a character of
      several bytes takes it. */
  function DecodeFitting(s: seq<byte>, room: nat): (r: seq<byte>)
    ensures |r| <= room
    decreases |s|
  {
    if s == [] || room <= 1 then []
    else
      match DecodeOne(s)
      case None => []
      case Some(step) =>
        if |step.0| > room then [] else step.0 + DecodeFitting(s[step.1..], room - |step.0|)
  }

  /** The pieces that the decoder stores, in order, when there is room for all. */
  function Turns(s: seq<byte>): seq<seq<byte>>
    decreases |s|
  {
    if s == [] then []
    else
      match DecodeOne(s)
      case None => []
      case Some(step) => [step.0] + Turns(s[step.1..])
  }

  lemma {:induction false} DecodeIsTurns(s: seq<byte>)
    ensures Decode(s) == Concat(Turns(s))
    decreases |s|
  {
    hide DecodeOne;
    if s != [] && DecodeOne(s).Some? {
      var step := DecodeOne(s).value;
      DecodeIsTurns(s[step.1..]);
      ConcatFront(step.0, Turns(s[step.1..]));
    }
  }

  /** A turn that stores several bytes is a numeric reference. */
  lemma SeveralBytesAreReference(s: seq<byte>)
    requires s != [] && DecodeOne(s).Some?
    ensures DecodeOne(s).value.0 != []
    ensures |DecodeOne(s).value.0| >= 2 ==> |s| >= 2 && s[0] == 38 && s[1] == 35 && Reference(s).Some?
  {
    hide Reference, Utf8.EncodeInto;
  }

  /** The decoder stores the beginning of the decoded text, and all of it in a buffer longer than the source. */
  lemma {:induction false} FittingIsPrefix(s: seq<byte>, room: nat)
    ensures DecodeFitting(s, room) <= Decode(s)
    ensures room > |s| ==> DecodeFitting(s, room) == Decode(s)
    decreases |s|
  {
    hide DecodeOne;
    if s != [] && room > 1 && DecodeOne(s).Some? {
      var step := DecodeOne(s).value;
      if |step.0| <= room {
        FittingIsPrefix(s[step.1..], room - |step.0|);
      }
    }
  }

  /** How many bytes the pieces up to number k make. */
  function EndOf(ts: seq<seq<byte>>, k: nat): nat
    requires k < |ts|
  {
    |Concat(ts[..k + 1])|
  }

  /** Some piece of several bytes ends exactly where the buffer ends. */
  ghost predicate FilledToTheEnd(ts: seq<seq<byte>>, room: nat)
  {
    exists k :: 0 <= k < |ts| && |ts[k]| >= 2 && EndOf(ts, k) == room
  }

  lemma EndOfShift(plain: seq<byte>, ts: seq<seq<byte>>, k: nat)
    requires k <= |ts|
    ensures EndOf([plain] + ts, k) == |plain| + if k == 0 then 0 else EndOf(ts, k - 1)
  {
    var all := [plain] + ts;
    assert all[..k + 1] == [plain] + ts[..k];
    ConcatFront(plain, ts[..k]);
    if k == 0 {
      assert ts[..k] == [];
    }
  }

  lemma EndOfAtLeast(ts: seq<seq<byte>>, k: nat)
    requires k < |ts|
    ensures EndOf(ts, k) >= |ts[k]|
  {
    assert ts[..k + 1][..k] == ts[..k];
  }

  lemma FilledShift(plain: seq<byte>, ts: seq<seq<byte>>, room: nat)
    requires plain != []
    ensures FilledToTheEnd([plain] + ts, room)
            <==> (|plain| >= 2 && |plain| == room) || (|plain| <= room && FilledToTheEnd(ts, room - |plain|))
  {
    hide EndOf;
    var all := [plain] + ts;
    EndOfShift(plain, ts, 0);
    if FilledToTheEnd(all, room) {
      var k :| 0 <= k < |all| && |all[k]| >= 2 && EndOf(all, k) == room;
      EndOfShift(plain, ts, k);
      assert k > 0 ==> all[k] == ts[k - 1];
    }
    if |plain| >= 2 && |plain| == room {
      assert |all[0]| >= 2 && EndOf(all, 0) == room;
    }
    if |plain| <= room && FilledToTheEnd(ts, room - |plain|) {
      var k :| 0 <= k < |ts| && |ts[k]| >= 2 && EndOf(ts, k) == room - |plain|;
      EndOfShift(plain, ts, k + 1);
      assert all[k + 1] == ts[k];
    }
  }

  /** The terminator goes behind what was stored. It falls outside the buffer exactly when a numeric
      reference whose character takes several bytes ends where the buffer ends. */
  lemma {:induction false} TerminatorOutsideIff(s: seq<byte>, room: nat)
    requires room > 0
    ensures |DecodeFitting(s, room)| == room <==> FilledToTheEnd(Turns(s), room)
    decreases |s|
  {
    hide DecodeOne, FilledToTheEnd;
    if s == [] || DecodeOne(s).None? {
      NothingFills(room);
    } else {
      var step := DecodeOne(s).value;
      var ts := Turns(s[step.1..]);
      SeveralBytesAreReference(s);
      FilledShift(step.0, ts, room);
      if room > |step.0| {
        TerminatorOutsideIff(s[step.1..], room - |step.0|);
      } else {
        FilledNot(ts);
      }
    }
  }

  lemma NothingFills(room: nat)
    ensures !FilledToTheEnd([], room)
  {
  }

  lemma FilledNot(ts: seq<seq<byte>>)
    ensures !FilledToTheEnd(ts, 0)
  {
    hide EndOf;
    forall k | 0 <= k < |ts| ensures EndOf(ts, k) >= |ts[k]| {
      EndOfAtLeast(ts, k);
    }
  }

  /** The source `&#200;` and a buffer of two places: both are taken, and the terminator goes to the third. */
  lemma TerminatorOutside()
    ensures |DecodeFitting([38, 35, 50, 48, 48, 59], 2)| == 2
  {
    var s := [38, 35, 50, 48, 48, 59];
    assert Dec(200) == Dec(20) + [DigitChar(0)] && Dec(20) == Dec(2) + [DigitChar(0)];
    assert s == ReferenceTo(200) + [];
    hide Dec;
    ReferenceDecodes(200, []);
    assert s[6..] == [];
  }

  /** The body of the decoding loop: what to store in the `room` places that are left, and where to go on. */
  method DecodeOneAt(source: seq<byte>, pos: nat, after: seq<byte>, room: nat) returns (ok: bool, plain: seq<byte>, next: nat)
    requires pos < |source| && room > 1
    ensures match DecodeOne(source[pos..])
            case Some(step) =>
              if |step.0| <= room then ok && plain == step.0 && next == pos + step.1 else !ok
            case None => !ok
  {
    hide Named, Reference, ReferenceInMemory, Utf8.EncodeInto;
    var rest := source[pos..];
    if rest[0] != 38 {
      return true, [rest[0]], pos + 1;
    }
    var named := Named(rest[1..]);
    if named.Some? {
      return true, [named.value.0], pos + 1 + named.value.1;
    }
    if |rest| < 2 || rest[1] != 35 {
      return false, [], pos;
    }
    ReferenceIsLocal(rest, after);
    var n := ReferenceInMemory(rest, after);
    if n.None? {
      return false, [], pos;
    }
    plain := Utf8.EncodeInto(n.value.0, room);
    RoomToEncode(n.value.0, room);
    return plain != [], plain, pos + n.value.1;
  }

  lemma FittingAt(s: seq<byte>, pos: nat, room: nat)
    requires pos < |s| && room > 1
    ensures DecodeFitting(s[pos..], room)
            == match DecodeOne(s[pos..])
               case None => []
               case Some(step) => if |step.0| > room then [] else step.0 + DecodeFitting(s[pos + step.1..], room - |step.0|)
  {
    hide DecodeOne;
    match DecodeOne(s[pos..])
    case None =>
    case Some(step) => assert s[pos..][step.1..] == s[pos + step.1..];
  }

  /** Stores code; what lies behind it is as it was in `before`. */
  method EmitBehind(memory: array<byte>, at: nat, code: seq<byte>, ghost before: seq<byte>)
    requires at + |code| <= memory.Length == |before| && memory[at..] == before[at..]
    modifies memory
    ensures memory[..at + |code|] == old(memory[..at]) + code
    ensures memory[at + |code|..] == before[at + |code|..]
  {
    DropTwice(memory[..], at, |code|);
    DropTwice(before, at, |code|);
    assert memory[..][at..] == memory[at..];
    Emit(memory, at, code);
  }

  method Terminate(memory: array<byte>, at: nat, ghost before: seq<byte>)
    requires at < memory.Length == |before| && memory[at..] == before[at..]
    modifies memory
    ensures memory[..at] == old(memory[..at]) && memory[at] == 0 && memory[at + 1..] == before[at + 1..]
  {
    assert memory[at..][1..] == memory[at + 1..] && before[at..][1..] == before[at + 1..];
    memory[at] := 0;
  }

  /** xml_decode and html_decode for every buffer: the first `buflen` places of the memory. `after` is what
      follows the source. The terminator goes behind what was stored, and nothing behind it changes. */
  method DecodeInto(memory: array<byte>, buflen: nat, source: seq<byte>, after: seq<byte>) returns (r: nat)
    requires buflen < memory.Length
    modifies memory
    ensures buflen == 0 ==> r == 0 && memory[..] == old(memory[..])
    ensures buflen > 0 ==>
              && r <= buflen && memory[..r] == DecodeFitting(source, buflen) && memory[r] == 0
              && memory[r + 1..] == old(memory[r + 1..])
              && (r == buflen <==> FilledToTheEnd(Turns(source), buflen))
    ensures buflen > |source| ==> r < buflen && memory[..r] == Decode(source)
  {
    hide DecodeOne, DecodeFitting, FilledToTheEnd, Turns, Decode;
    if buflen == 0 {
      return 0;
    }
    TerminatorOutsideIff(source, buflen);
    FittingIsPrefix(source, buflen);
    var srcpos, bufpos := 0, 0;
    assert source[0..] == source;
    while srcpos < |source| && bufpos + 1 < buflen
      invariant 0 <= srcpos <= |source| && 0 <= bufpos <= buflen
      invariant DecodeFitting(source, buflen) == memory[..bufpos] + DecodeFitting(source[srcpos..], buflen - bufpos)
      invariant memory[bufpos..] == old(memory[..])[bufpos..]
    {
      ghost var was := memory[..bufpos];
      FittingAt(source, srcpos, buflen - bufpos);
      var ok, plain, next := DecodeOneAt(source, srcpos, after, buflen - bufpos);
      if !ok {
        Terminate(memory, bufpos, old(memory[..]));
        return bufpos;
      }
      EmitBehind(memory, bufpos, plain, old(memory[..]));
      bufpos := bufpos + |plain|;
      srcpos := next;
      Regroup(was, plain, DecodeFitting(source[srcpos..], buflen - bufpos));
    }
    NothingFits(source[srcpos..], buflen - bufpos);
    Terminate(memory, bufpos, old(memory[..]));
    r := bufpos;
  }

  lemma NothingFits(s: seq<byte>, room: nat)
    requires s == [] || room <= 1
    ensures DecodeFitting(s, room) == []
  {
  }

  lemma RoomToEncode(value: nat, room: nat)
    ensures Utf8.EncodeInto(value, room)
            == if value <= Utf8.LARGEST && |Utf8.Encode(value)| <= room then Utf8.Encode(value) else []
  {
  }
}
