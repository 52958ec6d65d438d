/** URL printing and parsing in bundle/bundle.cc, both schemes. */
module Url {
  import opened Text
  import opened Sixty
  import Murmur

  /** The fields of `Info` that a URL carries. */
  datatype Info = Info(id: int, offset: nat, size: nat, prefix: string, postfix: string)

  const SEPARATORS: set<char> := {',', '/', '.', '_'}

  /** A bundle id is a C int. */
  predicate IsInt(v: int)
  {
    -0x8000_0000 <= v < 0x8000_0000
  }

  /** Conversion of a 64-bit value to a C int. */
  function ToInt(v: int): (i: int)
    ensures IsInt(i)
    ensures IsInt(v) ==> i == v
  {
    (v + 0x8000_0000) % 0x1_0000_0000 - 0x8000_0000
  }

  /** Conversion of a 64-bit value to size_t. */
  function ToSize(v: int): (n: nat)
    ensures 0 <= v <= MAX_INT64 ==> n == v
  {
    v % 0x1_0000_0000_0000_0000
  }

  /** A postfix the parsers can give back: a dot, then neither dot nor slash. */
  predicate PostfixOk(postfix: string)
  {
    postfix != [] && postfix[0] == '.' && forall i :: 1 <= i < |postfix| ==> postfix[i] != '.' && postfix[i] != '/'
  }

  /** Ids, offsets and sizes as the allocator produces them. */
  predicate FieldsOk(info: Info)
  {
    0 <= info.id && IsInt(info.id) && info.offset <= MAX_INT64 && info.size <= MAX_INT64
  }

  // ----- cutting a URL at its last slash and its last dot -----

  /** The start of the name part: after the last slash, or the whole URL. */
  function NameStart(u: string): (i: nat)
    ensures i <= |u|
  {
    RFind(u, '/') + 1
  }

  /** `u.substr(0, last_slash)`: everything when there is no slash. */
  function PrefixOf(u: string): string
  {
    var slash := RFind(u, '/');
    if slash < 0 then u else u[..slash]
  }

  /** `u.substr(last_slash + 1, dot - last_slash - 1)` for a URL that has a dot. A dot before the
      slash makes the length wrap around, and the rest of the URL is taken. */
  function NamePart(u: string): string
    requires RFind(u, '.') >= 0
  {
    var dot, start := RFind(u, '.'), NameStart(u);
    if dot < start then u[start..] else u[start..dot]
  }

  /** What a printed URL is cut into. */
  lemma CutPrinted(prefix: string, name: string, postfix: string)
    requires PostfixOk(postfix) && Free(name, {'.', '/'})
    ensures var u := prefix + "/" + name + postfix;
            RFind(u, '.') >= 0 && u[RFind(u, '.')..] == postfix
            && PrefixOf(u) == prefix && NamePart(u) == name
  {
    var u := prefix + "/" + name + postfix;
    var slash, dot := |prefix|, |prefix| + 1 + |name|;
    assert u[slash] == '/' && u[dot] == '.';
    assert u[dot..] == postfix && u[slash + 1..dot] == name && u[..slash] == prefix;
    forall j | slash < j < |u| ensures u[j] != '/' {
      if j < dot {
        assert u[j] == name[j - slash - 1];
      } else if j > dot {
        assert u[j] == postfix[j - dot];
      }
    }
    forall j | dot < j < |u| ensures u[j] != '.' {
      assert u[j] == postfix[j - dot];
    }
    RFindIs(u, '/', slash);
    RFindIs(u, '.', dot);
  }

  /** Only such a postfix, behind this prefix, comes back from cutting at the last dot and slash. */
  lemma CutGivesBack(prefix: string, name: string, postfix: string)
    requires Free(name, {'.', '/'})
    requires var u := prefix + "/" + name + postfix;
             RFind(u, '.') >= 0 && u[RFind(u, '.')..] == postfix && PrefixOf(u) == prefix
    ensures PostfixOk(postfix)
  {
    var u := prefix + "/" + name + postfix;
    var dot, slash := RFind(u, '.'), RFind(u, '/');
    assert |u| == dot + |postfix| && dot == |prefix| + 1 + |name|;
    assert u[|prefix|] == '/';
    assert slash == |prefix|;
    forall j | 1 <= j < |postfix| ensures postfix[j] != '.' && postfix[j] != '/' {
      assert u[dot + j] == postfix[j];
    }
  }

  // ----- the encoded scheme -----

  /** The text whose hash guards a URL. */
  function HashText(info: Info): string
  {
    info.prefix + "/" + DecInt(info.id) + "_" + Dec(info.offset) + "_" + Dec(info.size) + "_" + info.postfix
  }

  function LowByte(v: nat): bv8
  {
    (v % 256) as bv8
  }

  function BytesOf(s: string): (b: seq<bv8>)
    ensures |b| == |s|
  {
    seq(|s|, i requires 0 <= i < |s| => LowByte(s[i] as int))
  }

  function UrlHash(info: Info): (h: nat)
    ensures h < 0x1_0000_0000
  {
    Murmur.Hash2(Murmur.MURMUR, BytesOf(HashText(info)), 0) as int
  }

  function EncodedName(info: Info, hash: nat): string
  {
    ToSixty(Wrap64(info.id)) + "_" + ToSixty(Wrap64(info.offset)) + "_" + ToSixty(Wrap64(info.size)) + "_" + ToSixty(hash)
  }

  function PrintEncoded(info: Info, hash: nat): string
  {
    info.prefix + "/" + EncodedName(info, hash) + info.postfix
  }

  function BuildWithEncode(info: Info): string
  {
    PrintEncoded(info, UrlHash(info))
  }

  /** The parser up to the hash comparison: the fields and the hash found in the URL. */
  function ParseEncoded(u: string): Option<(Info, nat)>
  {
    if RFind(u, '.') < 0 then None
    else
      var parts := Split(NamePart(u), SEPARATORS);
      if |parts| != 4 then None
      else
        var info := Info(ToInt(FromSixty(parts[0])), ToSize(FromSixty(parts[1])), ToSize(FromSixty(parts[2])),
                         PrefixOf(u), u[RFind(u, '.')..]);
        Some((info, FromSixty(parts[3]) % 0x1_0000_0000))
  }

  function ExtractWithEncode(u: string): Option<Info>
  {
    match ParseEncoded(u)
    case None => None
    case Some((info, hash)) =>
      if hash == 0xffff_ffff then None
      else if UrlHash(info) != hash then None
      else Some(info)
  }

  lemma {:induction false} DigitsFree(n: nat)
    ensures Free(Digits(n), SEPARATORS)
  {
    if n >= 60 {
      DigitsFree(n / 60);
    }
  }

  lemma EncodedNameSplits(info: Info, hash: nat)
    requires FieldsOk(info)
    ensures Free(EncodedName(info, hash), {'.', '/'})
    ensures Split(EncodedName(info, hash), SEPARATORS)
            == [ToSixty(info.id), ToSixty(info.offset), ToSixty(info.size), ToSixty(hash)]
  {
    var a, b, c, d := ToSixty(info.id), ToSixty(info.offset), ToSixty(info.size), ToSixty(hash);
    DigitsFree(info.id);
    DigitsFree(info.offset);
    DigitsFree(info.size);
    DigitsFree(hash);
    JoinFour(a, b, c, d);
    SplitJoin([a, b, c, d], '_', SEPARATORS);
    ConcatFree(a, b, c, d);
  }

  lemma JoinFour(a: string, b: string, c: string, d: string)
    ensures Join([a, b, c, d], '_') == a + "_" + b + "_" + c + "_" + d
  {
    assert [a, b, c, d][1..] == [b, c, d] && [b, c, d][1..] == [c, d] && [c, d][1..] == [d];
    assert Join([c, d], '_') == c + "_" + d;
    assert Join([b, c, d], '_') == b + "_" + (c + "_" + d);
  }

  lemma ConcatFree(a: string, b: string, c: string, d: string)
    requires Free(a, SEPARATORS) && Free(b, SEPARATORS) && Free(c, SEPARATORS) && Free(d, SEPARATORS)
    ensures Free(a + "_" + b + "_" + c + "_" + d, {'.', '/'})
  {
  }

  /** Parsing undoes printing, for any hash, with a good postfix. */
  lemma ParsePrintEncoded(info: Info, hash: nat)
    requires FieldsOk(info) && PostfixOk(info.postfix) && hash < 0x1_0000_0000
    ensures ParseEncoded(PrintEncoded(info, hash)) == Some((info, hash))
  {
    hide Split, FromSixty, ToSixty, EncodedName, Free, RFind, Canonical;
    EncodedNameSplits(info, hash);
    CutPrinted(info.prefix, EncodedName(info, hash), info.postfix);
    FromToSixty(info.id);
    FromToSixty(info.offset);
    FromToSixty(info.size);
    FromToSixty(hash);
  }

  /** The encoded scheme reads back what it prints exactly when the postfix is one dot followed by
      no dot or slash and the hash is not the error code. */
  lemma EncodedRoundTripIff(info: Info)
    requires FieldsOk(info)
    ensures ExtractWithEncode(BuildWithEncode(info)) == Some(info)
            <==> PostfixOk(info.postfix) && UrlHash(info) != 0xffff_ffff
  {
    hide UrlHash, EncodedName, Split, Free, RFind;
    var hash := UrlHash(info);
    var u := PrintEncoded(info, hash);
    if PostfixOk(info.postfix) {
      ParsePrintEncoded(info, hash);
    } else if ExtractWithEncode(u) == Some(info) {
      EncodedNameSplits(info, hash);
      CutGivesBack(info.prefix, EncodedName(info, hash), info.postfix);
    }
  }

  lemma RefusedByHash(info: Info)
    requires FieldsOk(info) && PostfixOk(info.postfix) && UrlHash(info) == 0xffff_ffff
    ensures ExtractWithEncode(BuildWithEncode(info)) == None
  {
    hide UrlHash, EncodedName, Split, Free, RFind;
    ParsePrintEncoded(info, UrlHash(info));
  }

  /** Such URLs exist: this one has a good postfix, its hash is the error code, and it is not accepted. */
  lemma GoodUrlIsRefused()
    ensures var info := Info(0, 0, 0, "aaaF", ".yUNn");
            && FieldsOk(info) && PostfixOk(info.postfix) && UrlHash(info) == 0xffff_ffff
            && ExtractWithEncode(BuildWithEncode(info)) == None
  {
    var info := Info(0, 0, 0, "aaaF", ".yUNn");
    HashTextIs();
    assert PostfixOk(info.postfix) && FieldsOk(info);
    hide HashText, BytesOf, Murmur.Hash2, ExtractWithEncode, BuildWithEncode, PostfixOk, FieldsOk;
    HashOfSixteen();
    RefusedByHash(info);
  }

  lemma HashTextIs()
    ensures HashText(Info(0, 0, 0, "aaaF", ".yUNn")) == "aaaF/0_0_0_.yUNn"
  {
    assert Dec(0) == "0";
  }

  /** The hash of the sixteen bytes of `aaaF/0_0_0_.yUNn`, word by word. */
  lemma HashOfSixteen()
    ensures Murmur.Hash2(Murmur.MURMUR, BytesOf("aaaF/0_0_0_.yUNn"), 0) == 0xffff_ffff
  {
    hide BytesOf, Murmur.WordAt, Murmur.Word, Murmur.MurmurMix, Murmur.MurmurFinish;
    WordOf("aaaF/0_0_0_.yUNn", 0, 97, 97, 97, 70);
    WordOf("aaaF/0_0_0_.yUNn", 4, 47, 48, 95, 48);
    WordOf("aaaF/0_0_0_.yUNn", 8, 95, 48, 95, 46);
    WordOf("aaaF/0_0_0_.yUNn", 12, 121, 85, 78, 110);
    FourWords(BytesOf("aaaF/0_0_0_.yUNn"));
    FourMixes();
  }

  lemma FourMixes()
    ensures Murmur.MurmurMix(0x10, Murmur.Word(97, 97, 97, 70)) == 0x19e6_908e
    ensures Murmur.MurmurMix(0x19e6_908e, Murmur.Word(47, 48, 95, 48)) == 0x7c9a_aa00
    ensures Murmur.MurmurMix(0x7c9a_aa00, Murmur.Word(95, 48, 95, 46)) == 0xb0d7_db5d
    ensures Murmur.MurmurMix(0xb0d7_db5d, Murmur.Word(121, 85, 78, 110)) == 0x7d54_a792
    ensures Murmur.MurmurFinish(0x7d54_a792) == 0xffff_ffff
  {
  }

  lemma WordOf(text: string, i: nat, a: bv8, b: bv8, c: bv8, d: bv8)
    requires i + 4 <= |text|
    requires text[i] as int == a as int && text[i + 1] as int == b as int && text[i + 2] as int == c as int && text[i + 3] as int == d as int
    ensures Murmur.WordAt(BytesOf(text), i) == Murmur.Word(a, b, c, d)
  {
    hide Murmur.Word;
    ByteOf(text, i, a);
    ByteOf(text, i + 1, b);
    ByteOf(text, i + 2, c);
    ByteOf(text, i + 3, d);
  }

  lemma ByteOf(text: string, i: nat, a: bv8)
    requires i < |text| && text[i] as int == a as int
    ensures BytesOf(text)[i] == a
  {
    hide LowByte;
    LowByteIs(text[i] as int, a);
  }

  lemma LowByteIs(v: nat, a: bv8)
    requires v == a as int
    ensures LowByte(v) == a
  {
    hide LowByte;
    LowByteOfSmall(v);
    ThereAndBack(a);
  }

  lemma LowByteOfSmall(v: nat)
    requires v < 256
    ensures LowByte(v) == v as bv8
  {
    assert v % 256 == v;
  }

  lemma ThereAndBack(a: bv8)
    ensures (a as int) as bv8 == a
  {
  }

  lemma LengthSixteen()
    ensures 0 ^ Murmur.LengthWord(16) == 0x10
  {
    assert Murmur.Wrap(16) == 16;
    assert (16 as nat) as bv32 == 16;
  }

  lemma FourWords(s: seq<bv8>)
    requires |s| == 16
    ensures var h := 0x10;
            Murmur.Hash2(Murmur.MURMUR, s, 0)
            == Murmur.MurmurFinish(Murmur.MurmurMix(Murmur.MurmurMix(Murmur.MurmurMix(Murmur.MurmurMix(h,
                 Murmur.WordAt(s, 0)), Murmur.WordAt(s, 4)), Murmur.WordAt(s, 8)), Murmur.WordAt(s, 12)))
  {
    hide Murmur.MurmurMix, Murmur.MurmurFinish, Murmur.WordAt, Murmur.LengthWord;
    var m, h := Murmur.MURMUR, 0 ^ Murmur.LengthWord(16);
    LengthSixteen();
    assert s[0..] == s;
    Murmur.BodyStep(m, h, s, 0);
    h := m.mix(h, Murmur.WordAt(s, 0));
    Murmur.BodyStep(m, h, s, 4);
    h := m.mix(h, Murmur.WordAt(s, 4));
    Murmur.BodyStep(m, h, s, 8);
    h := m.mix(h, Murmur.WordAt(s, 8));
    Murmur.BodyStep(m, h, s, 12);
    h := m.mix(h, Murmur.WordAt(s, 12));
    Murmur.BodyEnd(m, h, s, 16);
  }

  // ----- the simple scheme -----

  function SkipSpaces(s: string): string
    decreases |s|
  {
    if s != [] && IsSpace(s[0]) then SkipSpaces(s[1..]) else s
  }

  function DigitPrefix(s: string): (d: string)
    ensures AllDigits(d)
    decreases |s|
  {
    if s != [] && IsDigit(s[0]) then [s[0]] + DigitPrefix(s[1..]) else []
  }

  /** atol on a 64-bit machine: white space, a sign, digits; out-of-range values saturate. */
  function Atol(s: string): int
  {
    var t := SkipSpaces(s);
    if t != [] && t[0] == '-' then
      var v := -(DigitsValue(DigitPrefix(t[1..])) as int);
      if v < -MAX_INT64 - 1 then -MAX_INT64 - 1 else v
    else
      var v := DigitsValue(DigitPrefix(if t != [] && t[0] == '+' then t[1..] else t));
      if v > MAX_INT64 then MAX_INT64 else v
  }

  function SimpleName(info: Info, name: string): string
  {
    (if info.id != -1 then DecInt(info.id) else name) + "," + Dec(info.offset) + "," + Dec(info.size)
  }

  /** `name` is printed in place of the id when the id is -1. */
  function BuildSimple(info: Info, name: string): string
  {
    (if info.prefix != [] then info.prefix + "/" else []) + SimpleName(info, name) + info.postfix
  }

  function ExtractSimple(u: string): Option<Info>
  {
    if RFind(u, '.') < 0 then None
    else
      var parts := Split(NamePart(u), SEPARATORS);
      if |parts| < 3 then None
      else Some(Info(ToInt(Atol(parts[0])), ToSize(Atol(parts[1])), ToSize(Atol(parts[2])),
                     PrefixOf(u), u[RFind(u, '.')..]))
  }

  lemma {:induction false} DigitPrefixOfDigits(s: string)
    requires AllDigits(s)
    ensures DigitPrefix(s) == s
  {
    if s != [] {
      DigitPrefixOfDigits(s[1..]);
    }
  }

  lemma AtolDigits(n: nat)
    requires n <= MAX_INT64 + 1
    ensures n <= MAX_INT64 ==> Atol(Dec(n)) == n
    ensures Atol("-" + Dec(n)) == -(n as int)
  {
    hide DigitPrefix, DigitsValue, Dec;
    var d := Dec(n);
    assert IsDigit(d[0]);
    assert ("-" + d)[1..] == d;
    DigitPrefixOfDigits(d);
    DecRoundTrip(n);
  }

  lemma AtolDec(v: int)
    requires -MAX_INT64 - 1 <= v <= MAX_INT64
    ensures Atol(DecInt(v)) == v
  {
    hide Atol, Dec;
    AtolDigits(if v < 0 then -v else v);
  }

  lemma DecIntFree(v: int)
    ensures Free(DecInt(v), SEPARATORS)
  {
    var n: nat := if v < 0 then -v else v;
    assert AllDigits(Dec(n));
  }

  lemma SimpleNameSplits(info: Info, name: string)
    requires info.id != -1
    ensures Free(SimpleName(info, name), {'.', '/'}) && SimpleName(info, name) != []
    ensures Split(SimpleName(info, name), SEPARATORS) == [DecInt(info.id), Dec(info.offset), Dec(info.size)]
  {
    var a, b, c := DecInt(info.id), Dec(info.offset), Dec(info.size);
    DecIntFree(info.id);
    DecIntFree(info.offset);
    DecIntFree(info.size);
    assert [a, b, c][1..] == [b, c] && [b, c][1..] == [c];
    assert Join([b, c], ',') == b + "," + c;
    assert Join([a, b, c], ',') == a + "," + b + "," + c;
    SplitJoin([a, b, c], ',', SEPARATORS);
  }

  lemma ParsePrintSimple(info: Info, name: string)
    requires IsInt(info.id) && info.id != -1 && info.offset <= MAX_INT64 && info.size <= MAX_INT64
    requires info.prefix != [] && PostfixOk(info.postfix)
    ensures ExtractSimple(BuildSimple(info, name)) == Some(info)
  {
    hide Split, Atol, SimpleName, Free, DecInt, Dec, RFind;
    SimpleNameSplits(info, name);
    CutPrinted(info.prefix, SimpleName(info, name), info.postfix);
    AtolDec(info.id);
    AtolDec(info.offset);
    AtolDec(info.size);
    DecOfNat(info.offset);
    DecOfNat(info.size);
  }

  lemma DecOfNat(n: nat)
    ensures DecInt(n) == Dec(n)
  {
  }

  /** The simple scheme reads back what it prints exactly when there is a prefix and the postfix is
      one dot followed by no dot or slash. */
  lemma SimpleRoundTripIff(info: Info, name: string)
    requires IsInt(info.id) && info.id != -1 && info.offset <= MAX_INT64 && info.size <= MAX_INT64
    ensures ExtractSimple(BuildSimple(info, name)) == Some(info)
            <==> info.prefix != [] && PostfixOk(info.postfix)
  {
    var u := BuildSimple(info, name);
    if info.prefix != [] && PostfixOk(info.postfix) {
      ParsePrintSimple(info, name);
    } else if ExtractSimple(u) == Some(info) {
      SimpleNameSplits(info, name);
      if info.prefix != [] {
        CutGivesBack(info.prefix, SimpleName(info, name), info.postfix);
      } else {
        NoPrefixIsNotReadBack(SimpleName(info, name), info.postfix);
      }
    }
  }

  /** Without a slash the parsers take the whole URL for the prefix. */
  lemma NoPrefixIsNotReadBack(name: string, postfix: string)
    requires name != [] && Free(name, {'.', '/'})
    ensures PrefixOf(name + postfix) != []
  {
    var u := name + postfix;
    assert u[0] == name[0];
  }
}
