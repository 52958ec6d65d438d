/** base3/md5.cc: the compression function against RFC 1321. */
module Md5 {

  /** The four registers. */
  datatype State = State(a: bv32, b: bv32, c: bv32, d: bv32)

  // ----- section 3.4 of RFC 1321 -----

  function F(x: bv32, y: bv32, z: bv32): bv32 { (x & y) | (!x & z) }

  function G(x: bv32, y: bv32, z: bv32): bv32 { (x & z) | (y & !z) }

  function H(x: bv32, y: bv32, z: bv32): bv32 { x ^ y ^ z }

  function I(x: bv32, y: bv32, z: bv32): bv32 { y ^ (x | !z) }

  function RoundFunction(round: nat, x: bv32, y: bv32, z: bv32): bv32
    requires round < 4
  {
    if round == 0 then F(x, y, z) else if round == 1 then G(x, y, z) else if round == 2 then H(x, y, z) else I(x, y, z)
  }

  /** The additive constants, T[1] to T[64] in the standard. */
  function T(i: nat): bv32
    requires i < 64
  {
    var j := i % 16;
    if i < 16 then [0xd76aa478, 0xe8c7b756, 0x242070db, 0xc1bdceee, 0xf57c0faf, 0x4787c62a, 0xa8304613, 0xfd469501,
      0x698098d8, 0x8b44f7af, 0xffff5bb1, 0x895cd7be, 0x6b901122, 0xfd987193, 0xa679438e, 0x49b40821][j]
    else if i < 32 then [0xf61e2562, 0xc040b340, 0x265e5a51, 0xe9b6c7aa, 0xd62f105d, 0x02441453, 0xd8a1e681, 0xe7d3fbc8,
      0x21e1cde6, 0xc33707d6, 0xf4d50d87, 0x455a14ed, 0xa9e3e905, 0xfcefa3f8, 0x676f02d9, 0x8d2a4c8a][j]
    else if i < 48 then [0xfffa3942, 0x8771f681, 0x6d9d6122, 0xfde5380c, 0xa4beea44, 0x4bdecfa9, 0xf6bb4b60, 0xbebfbc70,
      0x289b7ec6, 0xeaa127fa, 0xd4ef3085, 0x04881d05, 0xd9d4d039, 0xe6db99e5, 0x1fa27cf8, 0xc4ac5665][j]
    else [0xf4292244, 0x432aff97, 0xab9423a7, 0xfc93a039, 0x655b59c3, 0x8f0ccc92, 0xffeff47d, 0x85845dd1,
      0x6fa87e4f, 0xfe2ce6e0, 0xa3014314, 0x4e0811a1, 0xf7537e82, 0xbd3af235, 0x2ad7d2bb, 0xeb86d391][j]
  }

  /** Which message word a step takes: every round walks through all sixteen with its own stride. */
  function WordIndex(i: nat): (k: nat)
    requires i < 64
    ensures k < 16
  {
    var j := i % 16;
    if i < 16 then j else if i < 32 then (1 + 5 * j) % 16 else if i < 48 then (5 + 3 * j) % 16 else 7 * j % 16
  }

  /** The rotation amounts, four a round. */
  function Shift(i: nat): (s: nat)
    requires i < 64
    ensures 0 < s < 32
  {
    var j := i % 4;
    if i < 16 then [7, 12, 17, 22][j] else if i < 32 then [5, 9, 14, 20][j]
    else if i < 48 then [4, 11, 16, 23][j] else [6, 10, 15, 21][j]
  }

  function RotateLeft(w: bv32, s: nat): bv32
    requires 0 < s < 32
  {
    (w << s) | (w >> (32 - s))
  }

  /** a = b + ((a + f + X[k] + T[i]) <<< s). */
  function NewRegister(a: bv32, b: bv32, f: bv32, word: bv32, t: bv32, s: nat): bv32
    requires 0 < s < 32
  {
    b + RotateLeft(a + f + word + t, s)
  }

  /** One operation [abcd k s i]; the result is listed in the role order of the next operation. */
  function Operation(i: nat, st: State, x: seq<bv32>): State
    requires i < 64 && |x| == 16
  {
    State(st.d, NewRegister(st.a, st.b, RoundFunction(i / 16, st.b, st.c, st.d), x[WordIndex(i)], T(i), Shift(i)), st.b, st.c)
  }

  /** The first n operations. */
  function Operations(n: nat, st: State, x: seq<bv32>): State
    requires n <= 64 && |x| == 16
  {
    if n == 0 then st else Operation(n - 1, Operations(n - 1, st, x), x)
  }

  function AddRegisters(st: State, r: State): State
  {
    State(st.a + r.a, st.b + r.b, st.c + r.c, st.d + r.d)
  }

  /** The compression of one block of sixteen words. */
  function Compress(st: State, x: seq<bv32>): State
    requires |x| == 16
  {
    AddRegisters(st, Operations(64, st, x))
  }

  // ----- MD5Transform -----

  function F1(x: bv32, y: bv32, z: bv32): bv32 { z ^ (x & (y ^ z)) }

  function F2(x: bv32, y: bv32, z: bv32): bv32 { F1(z, x, y) }

  function F3(x: bv32, y: bv32, z: bv32): bv32 { x ^ y ^ z }

  function F4(x: bv32, y: bv32, z: bv32): bv32 { y ^ (x | !z) }

  lemma F1IsF(x: bv32, y: bv32, z: bv32)
    ensures F1(x, y, z) == F(x, y, z)
  {
    assert z ^ (x & (y ^ z)) == (x & y) | (!x & z);
  }

  lemma F2IsG(x: bv32, y: bv32, z: bv32)
    ensures F2(x, y, z) == G(x, y, z)
  {
    assert y ^ (z & (x ^ y)) == (x & z) | (y & !z);
  }

  function SourceFunction(round: nat, x: bv32, y: bv32, z: bv32): bv32
    requires round < 4
  {
    if round == 0 then F1(x, y, z) else if round == 1 then F2(x, y, z) else if round == 2 then F3(x, y, z) else F4(x, y, z)
  }

  lemma SourceFunctionIsStandard(round: nat, x: bv32, y: bv32, z: bv32)
    requires round < 4
    ensures SourceFunction(round, x, y, z) == RoundFunction(round, x, y, z)
  {
    hide F1, F2, F, G;
    F1IsF(x, y, z);
    F2IsG(x, y, z);
  }

  /** The word subscripts of the 64 lines of MD5Transform, as they are listed. */
  function Words1(j: nat): nat
    requires j < 16
  {
    [0, 1, 2, 3, 4, 5, 6, 7, 8, 9, 10, 11, 12, 13, 14, 15][j]
  }

  function Words2(j: nat): nat
    requires j < 16
  {
    [1, 6, 11, 0, 5, 10, 15, 4, 9, 14, 3, 8, 13, 2, 7, 12][j]
  }

  function Words3(j: nat): nat
    requires j < 16
  {
    [5, 8, 11, 14, 1, 4, 7, 10, 13, 0, 3, 6, 9, 12, 15, 2][j]
  }

  function Words4(j: nat): nat
    requires j < 16
  {
    [0, 7, 14, 5, 12, 3, 10, 1, 8, 15, 6, 13, 4, 11, 2, 9][j]
  }

  function SourceIndex(i: nat): nat
    requires i < 64
  {
    var j := i % 16;
    if i < 16 then Words1(j) else if i < 32 then Words2(j) else if i < 48 then Words3(j) else Words4(j)
  }

  /** The shift counts of the 64 lines, as they are listed. */
  function Shifts1(j: nat): nat
    requires j < 16
  {
    [7, 12, 17, 22, 7, 12, 17, 22, 7, 12, 17, 22, 7, 12, 17, 22][j]
  }

  function Shifts2(j: nat): nat
    requires j < 16
  {
    [5, 9, 14, 20, 5, 9, 14, 20, 5, 9, 14, 20, 5, 9, 14, 20][j]
  }

  function Shifts3(j: nat): nat
    requires j < 16
  {
    [4, 11, 16, 23, 4, 11, 16, 23, 4, 11, 16, 23, 4, 11, 16, 23][j]
  }

  function Shifts4(j: nat): nat
    requires j < 16
  {
    [6, 10, 15, 21, 6, 10, 15, 21, 6, 10, 15, 21, 6, 10, 15, 21][j]
  }

  function SourceShift(i: nat): nat
    requires i < 64
  {
    var j := i % 16;
    if i < 16 then Shifts1(j) else if i < 32 then Shifts2(j) else if i < 48 then Shifts3(j) else Shifts4(j)
  }

  lemma Words1AreStandard(j: nat)
    requires j < 16
    ensures Words1(j) == j
  {
  }

  lemma Words2AreStandard(j: nat)
    requires j < 16
    ensures Words2(j) == (1 + 5 * j) % 16
  {
  }

  lemma Words3AreStandard(j: nat)
    requires j < 16
    ensures Words3(j) == (5 + 3 * j) % 16
  {
  }

  lemma Words4AreStandard(j: nat)
    requires j < 16
    ensures Words4(j) == 7 * j % 16
  {
  }

  lemma Shifts1AreStandard(j: nat)
    requires j < 16
    ensures Shifts1(j) == [7, 12, 17, 22][j % 4]
  {
  }

  lemma Shifts2AreStandard(j: nat)
    requires j < 16
    ensures Shifts2(j) == [5, 9, 14, 20][j % 4]
  {
  }

  lemma Shifts3AreStandard(j: nat)
    requires j < 16
    ensures Shifts3(j) == [4, 11, 16, 23][j % 4]
  {
  }

  lemma Shifts4AreStandard(j: nat)
    requires j < 16
    ensures Shifts4(j) == [6, 10, 15, 21][j % 4]
  {
  }

  lemma IndexIsStandard(i: nat)
    requires i < 64
    ensures SourceIndex(i) == WordIndex(i)
  {
    hide Words1, Words2, Words3, Words4;
    var j := i % 16;
    if i < 16 {
      Words1AreStandard(j);
    } else if i < 32 {
      Words2AreStandard(j);
    } else if i < 48 {
      Words3AreStandard(j);
    } else {
      Words4AreStandard(j);
    }
  }

  lemma ShiftIsStandard(i: nat)
    requires i < 64
    ensures SourceShift(i) == Shift(i)
  {
    hide Shifts1, Shifts2, Shifts3, Shifts4;
    var j := i % 16;
    assert j % 4 == i % 4;
    if i < 16 {
      Shifts1AreStandard(j);
    } else if i < 32 {
      Shifts2AreStandard(j);
    } else if i < 48 {
      Shifts3AreStandard(j);
    } else {
      Shifts4AreStandard(j);
    }
  }

  /** The 64 lines name the words and the shifts of the standard. */
  lemma LinesAreStandard(i: nat)
    requires i < 64
    ensures SourceIndex(i) == WordIndex(i) && SourceShift(i) == Shift(i)
  {
    hide SourceIndex, WordIndex, SourceShift, Shift;
    IndexIsStandard(i);
    ShiftIsStandard(i);
  }

  /** The macro MD5STEP: the new value of the register w. */
  function Step(f: bv32, w: bv32, x: bv32, word: bv32, t: bv32, s: nat): bv32
    requires 0 < s < 32
  {
    RotateLeft(w + (f + (word + t)), s) + x
  }

  lemma SumsAgree(w: bv32, f: bv32, x: bv32, t: bv32)
    ensures w + (f + (x + t)) == w + f + x + t
  {
  }

  lemma SumsCommute(a: bv32, b: bv32)
    ensures a + b == b + a
  {
  }

  lemma StepIsNewRegister(f: bv32, w: bv32, x: bv32, word: bv32, t: bv32, s: nat)
    requires 0 < s < 32
    ensures Step(f, w, x, word, t, s) == NewRegister(w, x, f, word, t, s)
  {
    hide RotateLeft;
    SumsAgree(w, f, word, t);
    SumsCommute(x, RotateLeft(w + f + word + t, s));
  }

  /** What one line of MD5Transform stores, for the line number and the registers in the order of its macro call. */
  function Line(i: nat, st: State, x: seq<bv32>): bv32
    requires i < 64 && |x| == 16
  {
    LinesAreStandard(i);
    Step(SourceFunction(i / 16, st.b, st.c, st.d), st.a, st.b, x[SourceIndex(i)], T(i), SourceShift(i))
  }

  /** One line of MD5Transform is the corresponding operation of the standard. */
  lemma LineIsOperation(i: nat, st: State, x: seq<bv32>)
    requires i < 64 && |x| == 16
    ensures Operation(i, st, x) == State(st.d, Line(i, st, x), st.b, st.c)
  {
    hide RoundFunction, SourceFunction, T, WordIndex, Shift, SourceIndex, SourceShift, Step, NewRegister;
    LinesAreStandard(i);
    SourceFunctionIsStandard(i / 16, st.b, st.c, st.d);
    StepIsNewRegister(RoundFunction(i / 16, st.b, st.c, st.d), st.a, st.b, x[WordIndex(i)], T(i), Shift(i));
  }

  lemma OperationsNone(st: State, x: seq<bv32>)
    requires |x| == 16
    ensures Operations(0, st, x) == st
  {
  }

  /** MD5Transform: the lines in groups of four, which between them update each register once. */
  method Transform(buf: State, x: seq<bv32>) returns (r: State)
    requires |x| == 16
    ensures r == Compress(buf, x)
  {
    hide Line, Operation, Operations, AddRegisters;
    OperationsNone(buf, x);
    var a, b, c, d := buf.a, buf.b, buf.c, buf.d;
    for i := 0 to 16
      invariant State(a, b, c, d) == Operations(4 * i, buf, x)
    {
      ghost var st := State(a, b, c, d);
      a := Line(4 * i, State(a, b, c, d), x);
      d := Line(4 * i + 1, State(d, a, b, c), x);
      c := Line(4 * i + 2, State(c, d, a, b), x);
      b := Line(4 * i + 3, State(b, c, d, a), x);
      FourLines(4 * i, st, x);
      FourOperations(4 * i, buf, x);
    }
    r := AddRegisters(buf, State(a, b, c, d));
  }

  /** Four lines bring the registers back to their own places. */
  lemma FourLines(n: nat, st: State, x: seq<bv32>)
    requires n + 4 <= 64 && |x| == 16
    ensures
      var a := Line(n, st, x);
      var d := Line(n + 1, State(st.d, a, st.b, st.c), x);
      var c := Line(n + 2, State(st.c, d, a, st.b), x);
      var b := Line(n + 3, State(st.b, c, d, a), x);
      State(a, b, c, d) == Operation(n + 3, Operation(n + 2, Operation(n + 1, Operation(n, st, x), x), x), x)
  {
    hide Line, Operation;
    var a := Line(n, st, x);
    var d := Line(n + 1, State(st.d, a, st.b, st.c), x);
    var c := Line(n + 2, State(st.c, d, a, st.b), x);
    LineIsOperation(n, st, x);
    LineIsOperation(n + 1, State(st.d, a, st.b, st.c), x);
    LineIsOperation(n + 2, State(st.c, d, a, st.b), x);
    LineIsOperation(n + 3, State(st.b, c, d, a), x);
  }

  lemma FourOperations(n: nat, st: State, x: seq<bv32>)
    requires n + 4 <= 64 && |x| == 16
    ensures Operations(n + 4, st, x)
            == Operation(n + 3, Operation(n + 2, Operation(n + 1, Operation(n, Operations(n, st, x), x), x), x), x)
  {
    hide Operation;
    assert Operations(n + 2, st, x) == Operation(n + 1, Operations(n + 1, st, x), x);
    assert Operations(n + 3, st, x) == Operation(n + 2, Operations(n + 2, st, x), x);
  }
}
