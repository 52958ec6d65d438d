/** Bytes, C strings as bytes, and little-endian integers as the code lays them out in memory. */
module Bytes {
  import opened Arith

  type byte = x: int | 0 <= x < 256

  /** 256 to the power k: the number of values that fit in k bytes. */
  function Pow256(k: nat): (p: nat)
    ensures p > 0
  {
    if k == 0 then 1 else 256 * Pow256(k - 1)
  }

  /** The k low bytes of n, least significant byte first. */
  function ToLE(n: nat, k: nat): (b: seq<byte>)
    ensures |b| == k
  {
    if k == 0 then [] else [n % 256] + ToLE(n / 256, k - 1)
  }

  function FromLE(b: seq<byte>): nat
  {
    if b == [] then 0 else b[0] + 256 * FromLE(b[1..])
  }

  /** Storing n in k bytes and loading it back keeps n modulo 256^k, which is the C conversion. */
  lemma {:induction false} LittleEndianRoundTrip(n: nat, k: nat)
    ensures FromLE(ToLE(n, k)) == n % Pow256(k)
  {
    if k > 0 {
      LittleEndianRoundTrip(n / 256, k - 1);
      assert ToLE(n, k)[1..] == ToLE(n / 256, k - 1);
      DivModPow(n, Pow256(k - 1));
    }
  }

  lemma DivModPow(n: nat, p: nat)
    requires p > 0
    ensures n % (256 * p) == n % 256 + 256 * ((n / 256) % p)
  {
    var q, r := n / 256, n % 256;
    var s, t := q / p, q % p;
    assert n == (256 * p) * s + (256 * t + r) by {
      assert q == p * s + t;
      assert 256 * q == (256 * p) * s + 256 * t;
    }
    assert 0 <= 256 * t + r < 256 * p;
    DivModUnique(n, 256 * p, s, 256 * t + r);
  }

  lemma FromLEBound(b: seq<byte>)
    ensures FromLE(b) < Pow256(|b|)
  {
    if b != [] {
      FromLEBound(b[1..]);
    }
  }

  lemma {:induction false} ToLEOfFromLE(b: seq<byte>)
    ensures ToLE(FromLE(b), |b|) == b
  {
    if b != [] {
      ToLEOfFromLE(b[1..]);
      assert FromLE(b) % 256 == b[0] && FromLE(b) / 256 == FromLE(b[1..]);
      assert b == [b[0]] + b[1..];
    }
  }

  /** Two's complement: the signed value of k bytes. */
  function Signed(u: nat, k: nat): int
  {
    if 2 * u < Pow256(k) then u else u - Pow256(k)
  }

  /** The bytes of a C string; characters are taken modulo 256. */
  function OfString(s: string): (b: seq<byte>)
    ensures |b| == |s|
  {
    seq(|s|, i requires 0 <= i < |s| => s[i] as int % 256)
  }

  function Zeros(n: nat): (b: seq<byte>)
    ensures |b| == n && forall i :: 0 <= i < n ==> b[i] == 0
  {
    seq(n, i => 0)
  }

  function Put(s: seq<byte>, at: nat, bytes: seq<byte>): (r: seq<byte>)
    requires at + |bytes| <= |s|
    ensures |r| == |s|
  {
    s[..at] + bytes + s[at + |bytes|..]
  }

  lemma PutOneMore(s: seq<byte>, at: nat, b: seq<byte>, i: nat)
    requires at + |b| <= |s| && i < |b|
    ensures Put(s, at, b[..i])[at + i := b[i]] == Put(s, at, b[..i + 1])
  {
  }

  lemma PutAll(s: seq<byte>, at: nat, b: seq<byte>)
    requires at + |b| <= |s|
    ensures Put(s, at, b[..0]) == s && b[..|b|] == b
  {
  }

  /** memcpy into the buffer. */
  method Copy(content: array<byte>, at: nat, bytes: seq<byte>)
    requires at + |bytes| <= content.Length
    modifies content
    ensures content[..] == Put(old(content[..]), at, bytes)
  {
    ghost var was := content[..];
    hide Put;
    PutAll(was, at, bytes);
    for i := 0 to |bytes|
      invariant content[..] == Put(was, at, bytes[..i])
    {
      ghost var now := content[..];
      content[at + i] := bytes[i];
      assert content[..] == now[at + i := bytes[i]];
      PutOneMore(was, at, bytes, i);
    }
  }
}
