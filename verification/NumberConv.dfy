/** base3/string_number_conversions.cc: printing and parsing decimal integers of a given width. */
module NumberConv {
  import opened Bytes
  import opened Text
  import opened Arith

  // ----- widths -----

  /** The signed integers of `size` bytes lie in -Half(size) .. Half(size) - 1. */
  function Half(size: nat): (h: nat)
    requires size > 0
    ensures h >= 128
  {
    HalfIsLarge(size);
    Pow256(size) / 2
  }

  lemma HalfIsLarge(size: nat)
    requires size > 0
    ensures Pow256(size) % 2 == 0 && Pow256(size) >= 256
  {
    var p := Pow256(size - 1);
    assert Pow256(size) == 256 * p;
    EvenMultiple(p);
  }

  lemma EvenMultiple(p: nat)
    requires p > 0
    ensures 256 * p % 2 == 0 && 256 * p >= 256
  {
    assert 256 * p == 2 * (128 * p);
  }

  predicate InRange(v: int, size: nat)
    requires size > 0
  {
    -(Half(size) as int) <= v < Half(size)
  }

  // ----- parsing -----

  /** How many of the first characters satisfy isspace. */
  function Spaces(s: string): (n: nat)
    ensures n <= |s| && (forall i :: 0 <= i < n ==> IsSpace(s[i])) && (n < |s| ==> !IsSpace(s[n]))
  {
    if s == "" || !IsSpace(s[0]) then 0 else 1 + Spaces(s[1..])
  }

  function Digits(s: string): (n: nat)
    ensures n <= |s| && (forall i :: 0 <= i < n ==> IsDigit(s[i])) && (n < |s| ==> !IsDigit(s[n]))
  {
    if s == "" || !IsDigit(s[0]) then 0 else 1 + Digits(s[1..])
  }

  /** The largest magnitude that fits behind a sign. */
  function Limit(negative: bool, size: nat): nat
    requires size > 0
  {
    if negative then Half(size) else Half(size) - 1
  }

  function WithSign(negative: bool, n: nat): int
  {
    if negative then -(n as int) else n
  }

  /** What is parsed behind the sign: whether all of it is a number that fits, and the saturated value of its leading digits. */
  function Magnitude(body: string, limit: nat): (bool, nat)
  {
    var v := DigitsValue(body[..Digits(body)]);
    (body != "" && Digits(body) == |body| && v <= limit, if v <= limit then v else limit)
  }

  predicate HasSign(s: string)
  {
    s != "" && (s[0] == '-' || s[0] == '+')
  }

  /** StringToInt and StringToInt64. */
  function Parse(s: string, size: nat): (bool, int)
    requires size > 0
  {
    var t := s[Spaces(s)..];
    var negative := t != "" && t[0] == '-';
    var m := Magnitude(if HasSign(t) then t[1..] else t, Limit(negative, size));
    (m.0 && Spaces(s) == 0, WithSign(negative, m.1))
  }

  // ----- what the parser accepts -----

  /** s is the number v in the usual notation: an optional sign and at least one digit. */
  predicate Denotes(s: string, v: int)
  {
    var body := if HasSign(s) then s[1..] else s;
    body != "" && AllDigits(body) && v == WithSign(s[0] == '-', DigitsValue(body))
  }

  lemma DigitsIsAll(s: string)
    ensures Digits(s) == |s| <==> AllDigits(s)
  {
  }

  /** The parser says yes exactly to the numbers that fit, and then returns the number. */
  lemma ParsesExactlyNumbers(s: string, size: nat, v: int)
    requires size > 0
    ensures Parse(s, size) == (true, v) <==> Denotes(s, v) && InRange(v, size)
  {
    hide Half;
    assert s[0..] == s;
    var body := if HasSign(s) then s[1..] else s;
    DigitsIsAll(body);
    assert body[..|body|] == body;
    if body != "" && AllDigits(body) {
      assert IsDigit(body[0]);
      assert Spaces(s) == 0;
    }
    if Spaces(s) == 0 && s != "" && s[0] == '-' {
      assert Limit(true, size) == Half(size);
    }
  }

  /** Leading white space makes the answer false, but the number behind it is still delivered. */
  lemma {:induction false} LeadingSpace(c: char, s: string, size: nat)
    requires size > 0 && IsSpace(c)
    ensures Parse([c] + s, size) == (false, Parse(s, size).1)
  {
    hide Half, Magnitude;
    var cs := [c] + s;
    assert cs[1..] == s;
    assert cs[Spaces(cs)..] == s[Spaces(s)..];
  }

  /** The value is always one of the type, whatever the text. */
  lemma ParsedValueFits(s: string, size: nat)
    requires size > 0
    ensures InRange(Parse(s, size).1, size)
  {
    hide Half;
  }

  // ----- printing -----

  /** Parsing undoes printing for every value, the minimum included. */
  lemma RoundTrip(v: int, size: nat)
    requires size > 0 && InRange(v, size)
    ensures Parse(DecInt(v), size) == (true, v)
  {
    hide Half, Parse;
    var n: nat := if v < 0 then -v else v;
    DecRoundTrip(n);
    var s := DecInt(v);
    assert IsDigit(Dec(n)[0]);
    assert v < 0 ==> s[1..] == Dec(n);
    ParsesExactlyNumbers(s, size, v);
  }

  // ----- the parsing loop -----

  /** Division and remainder of C++, which round toward zero. */
  function Quotient(a: int, b: nat): int
    requires b > 0
  {
    if a < 0 then -(-a / b) else a / b
  }

  function Remainder(a: int, b: nat): int
    requires b > 0
  {
    a - b * Quotient(a, b)
  }

  /** CheckBounds for both signs: whether appending the digit would leave the type. */
  predicate WouldOverflow(output: int, digit: nat, negative: bool, size: nat)
    requires size > 0
  {
    var min, max := -(Half(size) as int), Half(size) - 1;
    if negative then
      output < Quotient(min, 10) || (output == Quotient(min, 10) && digit > 0 - Remainder(min, 10))
    else
      output > Quotient(max, 10) || (output == Quotient(max, 10) && digit > Remainder(max, 10))
  }

  /** The test by division is exact: it refuses precisely the digits that do not fit. */
  lemma WouldOverflowIff(n: nat, digit: nat, negative: bool, size: nat)
    requires size > 0 && digit < 10
    ensures WouldOverflow(WithSign(negative, n), digit, negative, size) <==> 10 * n + digit > Limit(negative, size)
  {
    hide Half;
    var limit := Limit(negative, size);
    assert limit == 10 * (limit / 10) + limit % 10;
  }

  lemma {:induction false} MoreDigitsAreLarger(s: string, i: nat)
    requires i <= |s| && AllDigits(s)
    ensures DigitsValue(s[..i]) <= DigitsValue(s)
  {
    if i < |s| {
      MoreDigitsAreLarger(s[..|s| - 1], i);
      assert s[..|s| - 1][..i] == s[..i];
    } else {
      assert s[..i] == s;
    }
  }

  lemma OneMoreDigit(s: string, i: nat)
    requires i < |s| && AllDigits(s[..i]) && IsDigit(s[i])
    ensures AllDigits(s[..i + 1]) && DigitsValue(s[..i + 1]) == 10 * DigitsValue(s[..i]) + (s[i] as int - '0' as int)
  {
    assert s[..i + 1][..i] == s[..i];
  }

  lemma {:induction false} DigitsFrom(s: string, i: nat)
    requires i <= |s| && AllDigits(s[..i])
    ensures i <= Digits(s) && (i < |s| && !IsDigit(s[i]) ==> Digits(s) == i)
  {
    if i > 0 {
      assert s[0] == s[..i][0];
      assert s[..i][1..] == s[1..][..i - 1];
      DigitsFrom(s[1..], i - 1);
    }
  }

  /** Positive::Invoke and Negative::Invoke. The assertions say that no step leaves the type. */
  method ParseBody(body: string, negative: bool, size: nat) returns (ok: bool, output: int)
    requires size > 0
    ensures (ok, output) == (Magnitude(body, Limit(negative, size)).0, WithSign(negative, Magnitude(body, Limit(negative, size)).1))
  {
    hide Half, WouldOverflow, Digits;
    output := 0;
    if body == "" {
      return false, output;
    }
    var i := 0;
    while i < |body|
      invariant i <= |body| && AllDigits(body[..i]) && DigitsValue(body[..i]) <= Limit(negative, size)
      invariant output == WithSign(negative, DigitsValue(body[..i]))
    {
      DigitsFrom(body, i);
      if !IsDigit(body[i]) {
        return false, output;
      }
      var digit := body[i] as int - '0' as int;
      OneMoreDigit(body, i);
      ghost var n := DigitsValue(body[..i]);
      if i != 0 {
        WouldOverflowIff(n, digit, negative, size);
        if WouldOverflow(output, digit, negative, size) {
          TooLarge(body, i + 1, Limit(negative, size));
          output := if negative then -(Half(size) as int) else Half(size) - 1;
          return false, output;
        }
        output := output * 10;
        assert InRange(output, size);
      }
      output := if negative then output - digit else output + digit;
      assert InRange(output, size);
      i := i + 1;
    }
    assert body[..i] == body;
    DigitsFrom(body, i);
    ok := true;
  }

  lemma TooLarge(s: string, i: nat, limit: nat)
    requires i <= |s| && AllDigits(s[..i]) && DigitsValue(s[..i]) > limit
    ensures Magnitude(s, limit) == (false, limit)
  {
    DigitsFrom(s, i);
    var d := Digits(s);
    assert s[..d][..i] == s[..i];
    MoreDigitsAreLarger(s[..d], i);
  }

  /** IteratorRangeToNumber::Invoke. */
  method ParseNumber(s: string, size: nat) returns (valid: bool, output: int)
    requires size > 0
    ensures (valid, output) == Parse(s, size)
  {
    hide Half, Magnitude, Spaces;
    valid := true;
    var begin := 0;
    assert s[0..] == s;
    while begin < |s| && IsSpace(s[begin])
      invariant begin <= |s| && Spaces(s) == begin + Spaces(s[begin..])
      invariant valid <==> begin == 0
    {
      SpaceFirst(s[begin..]);
      assert s[begin..][1..] == s[begin + 1..];
      valid := false;
      begin := begin + 1;
    }
    NoSpaceFirst(s[begin..]);
    var ok;
    if begin != |s| && s[begin] == '-' {
      assert s[begin..][1..] == s[begin + 1..];
      ok, output := ParseBody(s[begin + 1..], true, size);
    } else {
      if begin != |s| && s[begin] == '+' {
        assert s[begin..][1..] == s[begin + 1..];
        ok, output := ParseBody(s[begin + 1..], false, size);
      } else {
        ok, output := ParseBody(s[begin..], false, size);
      }
    }
    valid := valid && ok;
  }

  lemma SpaceFirst(t: string)
    requires t != "" && IsSpace(t[0])
    ensures Spaces(t) == 1 + Spaces(t[1..])
  {
  }

  lemma NoSpaceFirst(t: string)
    requires t == "" || !IsSpace(t[0])
    ensures Spaces(t) == 0
  {
  }

  // ----- the printing loop -----

  function Pow10(k: nat): (p: nat)
    ensures p > 0
  {
    if k == 0 then 1 else 10 * Pow10(k - 1)
  }

  lemma {:induction false} DecLength(n: nat, k: nat)
    requires k > 0 && n < Pow10(k)
    ensures |Dec(n)| <= k
  {
    if n >= 10 {
      assert Pow10(1) == 10;
      DecLength(n / 10, k - 1);
    }
  }

  lemma Pow10Three(k: nat)
    ensures Pow10(k + 3) == 1000 * Pow10(k)
  {
    assert Pow10(k + 2) == 100 * Pow10(k);
  }

  /** Three digits a byte, and from two bytes on one to spare for the sign of a signed number. */
  lemma {:induction false} ThreeDigitsAByte(size: nat)
    requires size > 0
    ensures Pow256(size) <= Pow10(3 * size)
    ensures size > 1 ==> 10 * Pow256(size) < 2 * Pow10(3 * size)
  {
    Pow10Three(3 * size - 3);
    if size > 1 {
      ThreeDigitsAByte(size - 1);
    }
    if size <= 2 {
      Pow10Three(0);
      assert Pow256(1) == 256;
    }
  }

  /** The loop of IntToString, from the back of the buffer. The assertions are those of the code: the first place is never reached. */
  method PrintBackwards(value: nat, negative: bool, size: nat) returns (s: string)
    requires |Dec(value)| + (if negative then 1 else 0) <= 3 * size
    ensures s == (if negative then "-" else "") + Dec(value)
  {
    hide Dec;
    var buffer := new char[3 * size + 1];
    var it := buffer.Length;
    var res := value;
    while true
      invariant 1 + |Dec(res)| + (if negative then 1 else 0) <= it <= buffer.Length
      invariant Dec(value) == Dec(res) + buffer[it..]
      decreases res
    {
      ghost var was := buffer[it..];
      DecStep(res);
      it := it - 1;
      assert it != 0;
      buffer[it] := DigitChar(res % 10);
      assert buffer[it..] == [DigitChar(res % 10)] + was;
      res := res / 10;
      if res == 0 {
        if negative {
          was := buffer[it..];
          it := it - 1;
          assert it != 0;
          buffer[it] := '-';
          assert buffer[it..] == ['-'] + was;
        }
        return buffer[it..];
      }
    }
  }

  lemma DecStep(n: nat)
    ensures Dec(n) == (if n < 10 then "" else Dec(n / 10)) + [DigitChar(n % 10)]
  {
  }

  /** IntToString and Int64ToString, for every width of two bytes or more. Negating the minimum wraps to itself as unsigned. */
  method IntToString(value: int, size: nat) returns (s: string)
    requires size > 1 && InRange(value, size)
    ensures s == DecInt(value)
  {
    var negative := value < 0;
    var res := (if negative then -value else value) % Pow256(size);
    ThreeDigitsAByte(size);
    DecLengthOfMagnitude(value, size);
    s := PrintBackwards(res, negative, size);
  }

  lemma DecLengthOfMagnitude(value: int, size: nat)
    requires size > 1 && InRange(value, size)
    ensures var n := if value < 0 then -value else value;
            n % Pow256(size) == n && |Dec(n)| + (if value < 0 then 1 else 0) <= 3 * size
  {
    var n := if value < 0 then -value else value;
    ThreeDigitsAByte(size);
    assert Pow10(3 * size) == 10 * Pow10(3 * size - 1);
    DivModUnique(n, Pow256(size), 0, n);
    DecLength(n, 3 * size - 1);
  }

  /** UintToString and Uint64ToString. */
  method UintToString(value: nat, size: nat) returns (s: string)
    requires size > 0 && value < Pow256(size)
    ensures s == Dec(value)
  {
    ThreeDigitsAByte(size);
    DecLength(value, 3 * size);
    s := PrintBackwards(value, false, size);
  }

  /** Printed and parsed again. */
  method PrintAndParse(value: int, size: nat) returns (valid: bool, back: int)
    requires size > 1 && InRange(value, size)
    ensures valid && back == value
  {
    RoundTrip(value, size);
    var s := IntToString(value, size);
    valid, back := ParseNumber(s, size);
  }
}
