/** bundle/sixty.h: numbers in base 60, with the wrap-around of 64-bit signed arithmetic. */
module Sixty {
  import opened Arith

  const MAX_INT64 := 0x7fff_ffff_ffff_ffff

  /** What a 64-bit signed register holds after computing x. */
  function Wrap64(x: int): (w: int)
    ensures -MAX_INT64 - 1 <= w <= MAX_INT64
    ensures -MAX_INT64 - 1 <= x <= MAX_INT64 ==> w == x
  {
    (x + 0x8000_0000_0000_0000) % 0x1_0000_0000_0000_0000 - 0x8000_0000_0000_0000
  }

  /** `SixtyChar`: A-Z and a-z without I and i, then 0-9. */
  function SixtyChar(d: nat): (c: char)
    requires d < 60
    ensures CharIndex(c) == d
    ensures c !in {'/', '.', ',', '_'}
  {
    if d < 8 then ('A' as int + d) as char
    else if d < 25 then ('J' as int + d - 8) as char
    else if d < 33 then ('a' as int + d - 25) as char
    else if d < 50 then ('j' as int + d - 33) as char
    else ('0' as int + d - 50) as char
  }

  /** `CharTable`: -1 marks a character of the range '0'..'z' that is not a digit. */
  function CharIndex(c: char): (d: int)
    ensures -1 <= d < 60
  {
    if '0' <= c <= '9' then 50 + (c as int - '0' as int)
    else if 'A' <= c <= 'H' then c as int - 'A' as int
    else if 'J' <= c <= 'Z' then 8 + (c as int - 'J' as int)
    else if 'a' <= c <= 'h' then 25 + (c as int - 'a' as int)
    else if 'j' <= c <= 'z' then 33 + (c as int - 'j' as int)
    else -1
  }

  lemma CharOfIndex(c: char)
    requires CharIndex(c) >= 0
    ensures SixtyChar(CharIndex(c)) == c
  {
  }

  /** `PowTable`. */
  function Pow60(k: nat): (p: nat)
    ensures p > 0
  {
    if k == 0 then 1 else 60 * Pow60(k - 1)
  }

  function Digits(n: nat): (s: string)
    ensures s != []
  {
    if n < 60 then [SixtyChar(n)] else Digits(n / 60) + [SixtyChar(n % 60)]
  }

  function ToSixty(number: int): string
  {
    if number < 0 then "" else Digits(number)
  }

  function Accumulate(s: string, j: nat, ten: int): int
    requires j <= |s|
    decreases |s| - j
  {
    if j == |s| then ten
    else if s[j] < '0' || s[j] > 'z' then -1
    else
      var sum := Wrap64(ten + Wrap64(CharIndex(s[j]) * Pow60(|s| - j - 1)));
      if sum < 0 then -1 else Accumulate(s, j + 1, sum)
  }

  function FromSixty(s: string): int
  {
    if |s| > 11 || |s| == 0 then -1 else Accumulate(s, 0, 0)
  }

  // ----- the loops of the source -----

  function Reverse(s: string): (r: string)
    ensures |r| == |s|
  {
    if s == [] then [] else [s[|s| - 1]] + Reverse(s[..|s| - 1])
  }

  method ToSixtyLoop(number: int) returns (result: string)
    requires number <= MAX_INT64
    ensures result == ToSixty(number)
  {
    hide SixtyChar;
    if number < 0 {
      return "";
    }
    var n := number;
    result := [SixtyChar(n % 60)];
    n := n / 60;
    while n != 0
      invariant n >= 0
      invariant ToSixty(number) == (if n == 0 then [] else Digits(n)) + Reverse(result)
      decreases n
    {
      ghost var before := result;
      result := result + [SixtyChar(n % 60)];
      assert result[..|result| - 1] == before;
      n := n / 60;
    }
    result := Reverse(result);
  }

  method FromSixtyLoop(s: string) returns (ten: int)
    requires |s| < 0x8000_0000
    ensures ten == FromSixty(s)
  {
    var size := |s|;
    if size > 11 || size == 0 {
      return -1;
    }
    ten := 0;
    for j := 0 to size
      invariant FromSixty(s) == Accumulate(s, j, ten)
    {
      var c := s[j];
      if c < '0' || c > 'z' {
        return -1;
      }
      var index := CharIndex(c);
      ten := Wrap64(ten + Wrap64(index * Pow60(size - j - 1)));
      if ten < 0 {
        return -1;
      }
    }
  }

  // ----- what the codec means -----

  predicate Alphabet(s: string)
  {
    forall i :: 0 <= i < |s| ==> CharIndex(s[i]) >= 0
  }

  /** The number that a string of digits denotes. */
  function Value(s: string): nat
    requires Alphabet(s)
  {
    if s == [] then 0 else 60 * Value(s[..|s| - 1]) + CharIndex(s[|s| - 1])
  }

  lemma {:induction false} DigitsMean(n: nat)
    ensures Alphabet(Digits(n)) && Value(Digits(n)) == n
    ensures CharIndex(Digits(n)[0]) == 0 ==> |Digits(n)| == 1
  {
    var s := Digits(n);
    if n >= 60 {
      DigitsMean(n / 60);
      assert s[..|s| - 1] == Digits(n / 60);
      assert s[0] == Digits(n / 60)[0];
    } else {
      assert s[..0] == [];
    }
  }

  /** What the digit at j adds to the value. */
  function Place(s: string, j: nat): int
    requires j < |s|
  {
    CharIndex(s[j]) * Pow60(|s| - j - 1)
  }

  /** What the first j digits are worth, shifted to their place. */
  function Worth(s: string, j: nat): int
    requires Alphabet(s) && j <= |s|
  {
    Value(s[..j]) * Pow60(|s| - j)
  }

  lemma ShiftDigit(v: nat, d: nat, p: nat)
    ensures (60 * v + d) * p == v * (60 * p) + d * p
    ensures v * (60 * p) >= 0 && d * p >= 0
  {
    assert (60 * v + d) * p == 60 * v * p + d * p;
    MulNonNegative(v, 60 * p);
    MulNonNegative(d, p);
  }

  lemma NothingIsWorthNothing(s: string)
    requires Alphabet(s)
    ensures Worth(s, 0) == 0
  {
    assert s[..0] == [];
  }

  lemma WorthStep(s: string, j: nat)
    requires Alphabet(s) && j < |s|
    ensures Worth(s, j + 1) == Worth(s, j) + Place(s, j) && Worth(s, j) >= 0 && Place(s, j) >= 0
  {
    assert s[..j + 1][..j] == s[..j];
    ShiftDigit(Value(s[..j]), CharIndex(s[j]), Pow60(|s| - j - 1));
  }

  /** A digit string is worth its first digits, shifted, plus the rest. */
  lemma {:induction false} PrefixWorth(s: string, j: nat)
    requires Alphabet(s) && j <= |s|
    ensures Worth(s, j) <= Value(s) && (j == |s| ==> Worth(s, j) == Value(s))
    decreases |s| - j
  {
    if j == |s| {
      assert s[..j] == s;
    } else {
      hide Value, Pow60, Worth, Place, Alphabet;
      WorthStep(s, j);
      PrefixWorth(s, j + 1);
    }
  }

  /** One turn of the loop, where the sum with the digit is in range. */
  lemma AccumulateDigit(s: string, j: nat, ten: int)
    requires j < |s| && CharIndex(s[j]) >= 0 && Place(s, j) >= 0 && 0 <= ten && ten + Place(s, j) <= MAX_INT64
    ensures Accumulate(s, j, ten) == Accumulate(s, j + 1, ten + Place(s, j))
  {
    hide Pow60;
  }

  /** No partial sum overflows when the whole value is in range. */
  lemma {:induction false} AccumulateIsValue(s: string, j: nat)
    requires Alphabet(s) && j <= |s| && Value(s) <= MAX_INT64
    ensures Accumulate(s, j, Worth(s, j)) == Value(s)
    decreases |s| - j
  {
    hide Value, Pow60, Worth, Place, CharIndex;
    PrefixWorth(s, j);
    if j < |s| {
      WorthStep(s, j);
      PrefixWorth(s, j + 1);
      AccumulateDigit(s, j, Worth(s, j));
      AccumulateIsValue(s, j + 1);
    }
  }

  /** Without a leading zero digit, each digit multiplies the value by sixty. */
  lemma {:induction false} LongIsLarge(s: string)
    requires s != [] && Alphabet(s) && (CharIndex(s[0]) > 0 || |s| == 1)
    ensures |s| > 1 ==> Value(s) >= Pow60(|s| - 1)
  {
    if |s| > 1 {
      assert s[..|s| - 1][0] == s[0];
      LongIsLarge(s[..|s| - 1]);
      if |s| == 2 {
        assert s[..1][..0] == [];
        assert Value(s[..1]) >= 1;
        assert Pow60(1) == 60 * Pow60(0);
      }
    }
  }

  lemma Pow60Of11()
    ensures Pow60(11) > MAX_INT64 + 1
  {
    assert Pow60(3) == 216000;
    assert Pow60(6) == 60 * 60 * 60 * Pow60(3);
    assert Pow60(9) == 60 * 60 * 60 * Pow60(6);
    assert Pow60(11) == 60 * 60 * Pow60(9);
  }

  lemma {:induction false} PowGrows(j: nat, k: nat)
    requires j <= k
    ensures Pow60(j) <= Pow60(k)
  {
    if j < k {
      PowGrows(j, k - 1);
    }
  }

  /** The strings that ToSixty can print: digits, no leading zero, in range. */
  predicate Canonical(s: string)
  {
    s != [] && Alphabet(s) && (CharIndex(s[0]) == 0 ==> |s| == 1) && Value(s) <= MAX_INT64
  }

  lemma CanonicalIsShort(s: string)
    requires Canonical(s)
    ensures |s| <= 11
  {
    if |s| > 11 {
      LongIsLarge(s);
      PowGrows(11, |s| - 1);
      Pow60Of11();
      assert false;
    }
  }

  lemma CanonicalDecodes(s: string)
    requires Canonical(s)
    ensures FromSixty(s) == Value(s)
  {
    hide Value, Pow60, Worth, CharIndex, Accumulate;
    CanonicalIsShort(s);
    NothingIsWorthNothing(s);
    AccumulateIsValue(s, 0);
  }

  /** Decoding undoes encoding for every non-negative 64-bit number. */
  lemma FromToSixty(n: nat)
    requires n <= MAX_INT64
    ensures Canonical(ToSixty(n)) && FromSixty(ToSixty(n)) == n
  {
    DigitsMean(n);
    CanonicalDecodes(ToSixty(n));
  }

  lemma {:induction false} CanonicalIsDigits(s: string)
    requires s != [] && Alphabet(s) && (CharIndex(s[0]) == 0 ==> |s| == 1)
    ensures Digits(Value(s)) == s
  {
    var v, d := Value(s), CharIndex(s[|s| - 1]);
    CharOfIndex(s[|s| - 1]);
    if |s| == 1 {
      assert s[..0] == [];
    } else {
      var rest := s[..|s| - 1];
      assert rest[0] == s[0];
      CanonicalIsDigits(rest);
      if Value(rest) == 0 {
        LongIsLarge(rest);
        assert false;
      }
      assert v / 60 == Value(rest) && v % 60 == d;
      assert s == rest + [s[|s| - 1]];
    }
  }

  lemma AccumulateSign(s: string, j: nat, ten: int)
    requires j <= |s| && ten >= 0 && ten <= MAX_INT64
    ensures -1 <= Accumulate(s, j, ten) <= MAX_INT64
    decreases |s| - j
  {
    if j < |s| && '0' <= s[j] <= 'z' {
      var sum := Wrap64(ten + Wrap64(CharIndex(s[j]) * Pow60(|s| - j - 1)));
      if sum >= 0 {
        AccumulateSign(s, j + 1, sum);
      }
    }
  }

  /** Encoding undoes decoding exactly on the canonical strings. */
  lemma ToFromSixtyIff(s: string)
    requires s != []
    ensures ToSixty(FromSixty(s)) == s <==> Canonical(s)
  {
    if Canonical(s) {
      CanonicalDecodes(s);
      CanonicalIsDigits(s);
    }
    if |s| <= 11 {
      AccumulateSign(s, 0, 0);
    }
    var n := FromSixty(s);
    if n >= 0 && ToSixty(n) == s {
      FromToSixty(n);
    }
  }

  // ----- what the decoder refuses -----

  /** The characters that the alphabet check lets through to the table. */
  predicate InSpan(s: string)
  {
    forall i :: 0 <= i < |s| ==> '0' <= s[i] <= 'z'
  }

  /** The sum after j turns, without wrap-around; a character outside the alphabet counts as -1. */
  function Partial(s: string, j: nat): int
    requires j <= |s|
  {
    if j == 0 then 0 else Partial(s, j - 1) + CharIndex(s[j - 1]) * Pow60(|s| - j)
  }

  /** The first character that is not the zero digit is outside the alphabet. */
  predicate LeadsBad(s: string)
  {
    exists k :: 0 <= k < |s| && CharIndex(s[k]) == -1 && forall i :: 0 <= i < k ==> CharIndex(s[i]) == 0
  }

  /** Some sum leaves the signed 64-bit numbers on the side that looks negative. */
  predicate Overflows(s: string)
  {
    exists k :: 0 <= k <= |s| && Partial(s, k) > 0 && Wrap64(Partial(s, k)) < 0
  }

  /** The turn of the loop for character k is the one that returns -1, if the loop gets there. */
  predicate StopsAt(s: string, k: nat)
    requires k < |s|
  {
    !('0' <= s[k] <= 'z') || Wrap64(Partial(s, k + 1)) < 0
  }

  lemma PartialStep(s: string, j: nat)
    requires j < |s|
    ensures Partial(s, j + 1) == Partial(s, j) + CharIndex(s[j]) * Pow60(|s| - j - 1)
    ensures Pow60(|s| - j) == 60 * Pow60(|s| - j - 1)
  {
  }

  lemma WrapShift(x: int, k: int)
    ensures Wrap64(x + 0x1_0000_0000_0000_0000 * k) == Wrap64(x)
  {
    var m, y := 0x1_0000_0000_0000_0000, x + 0x8000_0000_0000_0000;
    DivModIdentity(y, m);
    DivModUnique(y + m * k, m, y / m + k, y % m);
  }

  lemma WrapIsShift(x: int) returns (k: int)
    ensures Wrap64(x) == x + 0x1_0000_0000_0000_0000 * k
  {
    var y := x + 0x8000_0000_0000_0000;
    DivModIdentity(y, 0x1_0000_0000_0000_0000);
    k := -(y / 0x1_0000_0000_0000_0000);
  }

  lemma WrapOfSum(p: int, x: int)
    ensures Wrap64(Wrap64(p) + Wrap64(x)) == Wrap64(p + x)
  {
    var k := WrapIsShift(p);
    var l := WrapIsShift(x);
    hide Wrap64;
    WrapShift(p + x, k + l);
  }

  lemma AccumulateStep(s: string, j: nat)
    requires j < |s| && Wrap64(Partial(s, j)) >= 0
    ensures Accumulate(s, j, Wrap64(Partial(s, j)))
            == if StopsAt(s, j) then -1 else Accumulate(s, j + 1, Wrap64(Partial(s, j + 1)))
  {
    hide Wrap64, CharIndex, Pow60, Partial;
    PartialStep(s, j);
    WrapOfSum(Partial(s, j), CharIndex(s[j]) * Pow60(|s| - j - 1));
  }

  /** The loop returns -1 exactly when it meets a character outside the span or a wrapped sum below zero. */
  lemma {:induction false} AccumulateRefusesIff(s: string, j: nat)
    requires j <= |s| && Wrap64(Partial(s, j)) >= 0
    ensures Accumulate(s, j, Wrap64(Partial(s, j))) == -1
            <==> exists k :: j <= k < |s| && StopsAt(s, k)
    ensures Accumulate(s, j, Wrap64(Partial(s, j))) != -1 ==> Accumulate(s, j, Wrap64(Partial(s, j))) == Wrap64(Partial(s, |s|))
    decreases |s| - j
  {
    hide Wrap64, CharIndex, Pow60, Partial;
    if j < |s| {
      AccumulateStep(s, j);
      hide Accumulate;
      if StopsAt(s, j) {
      } else {
        AccumulateRefusesIff(s, j + 1);
      }
    }
  }

  lemma DigitTimes(d: int, p: nat)
    requires -1 <= d < 60
    ensures -(p as int) <= d * p <= 59 * p
    ensures d >= 1 ==> d * p >= p
  {
    MulDistributes(p, d, -1);
    MulDistributes(p, 59, d);
    MulNonNegative(p, d + 1);
    MulNonNegative(p, 59 - d);
    if d >= 1 {
      MulAtLeast(p, d);
    }
  }

  lemma {:induction false} PartialBelow(s: string, j: nat)
    requires j <= |s|
    ensures Partial(s, j) <= Pow60(|s|) - Pow60(|s| - j)
  {
    if j > 0 {
      hide Partial, Pow60;
      PartialBelow(s, j - 1);
      PartialStep(s, j - 1);
      DigitTimes(CharIndex(s[j - 1]), Pow60(|s| - j));
    }
  }

  predicate Zeros(s: string, j: nat)
    requires j <= |s|
  {
    forall i :: 0 <= i < j ==> CharIndex(s[i]) == 0
  }

  /** While the first digit that counts is a good one the sum stays above what the rest can take away. */
  lemma {:induction false} PartialAbove(s: string, j: nat)
    requires j <= |s| && !LeadsBad(s)
    ensures (Zeros(s, j) && Partial(s, j) == 0) || Partial(s, j) >= Pow60(|s| - j)
  {
    if j > 0 {
      FirstDigitIsGood(s, j);
      hide Partial, Pow60, LeadsBad, Zeros, CharIndex;
      PartialAbove(s, j - 1);
      PartialStep(s, j - 1);
      DigitTimes(CharIndex(s[j - 1]), Pow60(|s| - j));
    }
  }

  lemma FirstDigitIsGood(s: string, j: nat)
    requires 0 < j <= |s| && !LeadsBad(s)
    ensures Zeros(s, j - 1) ==> CharIndex(s[j - 1]) >= 0 && (CharIndex(s[j - 1]) == 0 ==> Zeros(s, j))
  {
    if Zeros(s, j - 1) {
      assert CharIndex(s[j - 1]) != -1;
    }
  }

  lemma {:induction false} PartialOfZeros(s: string, j: nat)
    requires j <= |s| && forall i :: 0 <= i < j ==> CharIndex(s[i]) == 0
    ensures Partial(s, j) == 0
  {
    if j > 0 {
      PartialOfZeros(s, j - 1);
    }
  }

  lemma Pow60Of10()
    ensures Pow60(10) == 604661760000000000
  {
    assert Pow60(2) == 3600;
    assert Pow60(4) == 60 * 60 * Pow60(2);
    assert Pow60(6) == 60 * 60 * Pow60(4);
    assert Pow60(8) == 60 * 60 * Pow60(6);
  }

  lemma LeadsBadStops(s: string) returns (k: nat)
    requires |s| <= 11 && LeadsBad(s)
    ensures k < |s| && StopsAt(s, k)
  {
    hide CharIndex, Pow60, Partial;
    k :| 0 <= k < |s| && CharIndex(s[k]) == -1 && forall i :: 0 <= i < k ==> CharIndex(s[i]) == 0;
    PartialOfZeros(s, k);
    PowGrows(|s| - k - 1, 10);
    Pow60Of10();
    PartialStep(s, k);
  }

  lemma OverflowStops(s: string) returns (k: nat)
    requires Overflows(s)
    ensures k < |s| && StopsAt(s, k)
  {
    hide Wrap64, CharIndex, Pow60;
    var n: nat :| n <= |s| && Partial(s, n) > 0 && Wrap64(Partial(s, n)) < 0;
    k := n - 1;
  }

  lemma StopsOnlyThen(s: string, k: nat)
    requires k < |s| && StopsAt(s, k)
    ensures !InSpan(s) || LeadsBad(s) || Overflows(s)
  {
    hide CharIndex, Pow60, Partial, LeadsBad;
    if InSpan(s) && !LeadsBad(s) {
      PartialAbove(s, k + 1);
      assert Wrap64(Partial(s, k + 1)) < 0;
    }
  }

  /** What FromSixty refuses, on every string that is not too long: characters outside the span, a character
      outside the alphabet in front of every digit that counts, and sums that wrap below zero. Everything
      else is taken for a number, bad characters further back included. */
  lemma RefusedIff(s: string)
    requires 1 <= |s| <= 11
    ensures FromSixty(s) == -1 <==> !InSpan(s) || LeadsBad(s) || Overflows(s)
    ensures FromSixty(s) != -1 ==> FromSixty(s) == Wrap64(Partial(s, |s|))
  {
    assert Wrap64(Partial(s, 0)) == 0;
    hide Accumulate, Wrap64, Partial, CharIndex, Pow60, LeadsBad, Overflows;
    AccumulateRefusesIff(s, 0);
    if !InSpan(s) {
      var i :| 0 <= i < |s| && !('0' <= s[i] <= 'z');
      assert StopsAt(s, i);
    }
    if LeadsBad(s) {
      var k := LeadsBadStops(s);
    }
    if Overflows(s) {
      var k := OverflowStops(s);
    }
    if k: nat :| k < |s| && StopsAt(s, k) {
      StopsOnlyThen(s, k);
    }
  }

  /** Up to ten characters no sum wraps, so only the first character that counts decides. */
  lemma ShortIsRefusedIff(s: string)
    requires 1 <= |s| <= 10
    ensures FromSixty(s) == -1 <==> !InSpan(s) || LeadsBad(s)
    ensures FromSixty(s) != -1 ==> FromSixty(s) == Partial(s, |s|)
  {
    hide FromSixty, CharIndex, Pow60;
    RefusedIff(s);
    PowGrows(|s|, 10);
    Pow60Of10();
    forall k | 0 <= k <= |s| ensures Partial(s, k) <= 604661760000000000 {
      PartialBelow(s, k);
    }
    if InSpan(s) && !LeadsBad(s) {
      PartialAbove(s, |s|);
    }
  }

  /** An instance: `I` is not in the alphabet, but it comes behind a digit that counts. */
  lemma BadCharacterAccepted()
    ensures CharIndex('I') == -1 && FromSixty("BI") == 59
  {
    var s := "BI";
    assert Pow60(1) == 60 && Pow60(0) == 1;
    assert CharIndex(s[0]) == 1 && CharIndex(s[1]) == -1;
    assert Partial(s, 1) == 60 && Partial(s, 2) == 59;
    ShortIsRefusedIff(s);
  }
}
