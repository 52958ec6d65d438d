/** Text as the code prints and cuts it: digits, searching from the end, splitting. */
module Text {

  datatype Option<T> = None | Some(value: T)

  predicate IsDigit(c: char)
  {
    '0' <= c <= '9'
  }

  predicate AllDigits(s: string)
  {
    forall i :: 0 <= i < |s| ==> IsDigit(s[i])
  }

  function DigitChar(d: nat): (c: char)
    requires d < 10
    ensures IsDigit(c) && c as int == '0' as int + d
  {
    ('0' as int + d) as char
  }

  /** isspace. */
  predicate IsSpace(c: char)
  {
    c == ' ' || '\t' <= c <= '\r'
  }

  /** A hexadecimal digit, as printf and the encoders write it. */
  function HexDigit(d: nat): (c: char)
    requires d < 16
    ensures IsDigit(c) || 'a' <= c <= 'f'
  {
    if d < 10 then ('0' as int + d) as char else ('a' as int + d - 10) as char
  }

  /** What `ostream << n` prints for a non-negative number. */
  function Dec(n: nat): (s: string)
    ensures s != [] && AllDigits(s)
  {
    if n < 10 then [DigitChar(n)] else Dec(n / 10) + [DigitChar(n % 10)]
  }

  /** What `ostream << v` prints for a signed number. */
  function DecInt(v: int): string
  {
    if v < 0 then "-" + Dec(-v) else Dec(v)
  }

  /** The number a string of digits denotes. */
  function DigitsValue(s: string): nat
    requires AllDigits(s)
  {
    if s == [] then 0 else 10 * DigitsValue(s[..|s| - 1]) + (s[|s| - 1] as int - '0' as int)
  }

  lemma {:induction false} DecRoundTrip(n: nat)
    ensures DigitsValue(Dec(n)) == n
  {
    var s := Dec(n);
    if n < 10 {
      assert s[..0] == [];
    } else {
      DecRoundTrip(n / 10);
      assert s[..|s| - 1] == Dec(n / 10);
    }
  }

  lemma DecInjective(m: nat, n: nat)
    ensures Dec(m) == Dec(n) ==> m == n
  {
    DecRoundTrip(m);
    DecRoundTrip(n);
  }

  /** std::string::rfind(c): the last position of c, or -1 for npos. */
  function RFind(s: string, c: char): (i: int)
    ensures -1 <= i < |s|
    ensures i >= 0 ==> s[i] == c
    ensures forall j :: i < j < |s| ==> s[j] != c
  {
    if s == [] then -1
    else if s[|s| - 1] == c then |s| - 1
    else RFind(s[..|s| - 1], c)
  }

  /** The postcondition of RFind names one position only. */
  lemma RFindIs(s: string, c: char, i: int)
    requires -1 <= i < |s|
    requires i >= 0 ==> s[i] == c
    requires forall j :: i < j < |s| ==> s[j] != c
    ensures RFind(s, c) == i
  {
  }

  /** boost::split with token compression off: the pieces between separators, empty ones kept. */
  function Split(s: string, seps: set<char>): (r: seq<string>)
    ensures |r| >= 1
  {
    SplitFrom(s, [], seps)
  }

  function SplitFrom(s: string, piece: string, seps: set<char>): (r: seq<string>)
    ensures |r| >= 1
    decreases |s|
  {
    if s == [] then [piece]
    else if s[0] in seps then [piece] + SplitFrom(s[1..], [], seps)
    else SplitFrom(s[1..], piece + [s[0]], seps)
  }

  predicate Free(s: string, seps: set<char>)
  {
    forall i :: 0 <= i < |s| ==> s[i] !in seps
  }

  function Join(parts: seq<string>, sep: char): string
    requires parts != []
  {
    if |parts| == 1 then parts[0] else parts[0] + [sep] + Join(parts[1..], sep)
  }

  /** Splitting undoes joining when no part holds a separator. */
  lemma {:induction false} SplitJoin(parts: seq<string>, sep: char, seps: set<char>)
    requires parts != [] && sep in seps
    requires forall i :: 0 <= i < |parts| ==> Free(parts[i], seps)
    ensures Split(Join(parts, sep), seps) == parts
  {
    if |parts| == 1 {
      SplitFree(parts[0], [], [], seps);
      assert parts[0] + [] == parts[0];
    } else {
      var rest := [sep] + Join(parts[1..], sep);
      assert Join(parts, sep) == parts[0] + rest;
      SplitFree(parts[0], rest, [], seps);
      assert rest[1..] == Join(parts[1..], sep);
      assert [] + parts[0] == parts[0];
      SplitJoin(parts[1..], sep, seps);
    }
  }

  lemma {:induction false} SplitFree(a: string, rest: string, piece: string, seps: set<char>)
    requires Free(a, seps)
    ensures SplitFrom(a + rest, piece, seps) == SplitFrom(rest, piece + a, seps)
    decreases |a|
  {
    if a == [] {
      assert a + rest == rest && piece + a == piece;
    } else {
      assert (a + rest)[1..] == a[1..] + rest;
      assert (piece + [a[0]]) + a[1..] == piece + a;
      SplitFree(a[1..], rest, piece + [a[0]], seps);
    }
  }
}
