/** Messages that are handed over piece by piece. */
module Pieces {

  /** The message that the pieces make up. */
  function Concat<T>(pieces: seq<seq<T>>): seq<T>
  {
    if pieces == [] then [] else Concat(pieces[..|pieces| - 1]) + pieces[|pieces| - 1]
  }

  lemma {:induction false} ConcatFront<T>(piece: seq<T>, pieces: seq<seq<T>>)
    ensures Concat([piece] + pieces) == piece + Concat(pieces)
    decreases |pieces|
  {
    var all := [piece] + pieces;
    if pieces == [] {
      assert all[..0] == [];
    } else {
      assert all[..|all| - 1] == [piece] + pieces[..|pieces| - 1];
      ConcatFront(piece, pieces[..|pieces| - 1]);
    }
  }

  lemma Regroup<T>(a: seq<T>, b: seq<T>, c: seq<T>)
    ensures a + (b + c) == (a + b) + c
  {
  }

  lemma DropTwice<T>(s: seq<T>, a: nat, b: nat)
    requires a + b <= |s|
    ensures s[a..][b..] == s[a + b..]
  {
  }
}
