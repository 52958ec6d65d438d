/** base3/string_tokenizer.h: tokens between delimiters, with quoted stretches and delimiters as tokens if wanted. */
module Tokenizer {
  import opened Text

  /** The settings of one tokenizer. */
  datatype Style = Style(delims: set<char>, quotes: set<char>, returnDelims: bool)

  datatype Token = Token(begin: nat, end: nat, isDelim: bool)

  // ----- AdvanceOne -----

  datatype AdvanceState = AdvanceState(inQuote: bool, inEscape: bool, quoteChar: char)

  const START := AdvanceState(false, false, '\0')

  /** Whether the character belongs to the token, and the state after it. */
  function AdvanceOne(style: Style, state: AdvanceState, c: char): (bool, AdvanceState)
  {
    if state.inQuote then
      (true, if state.inEscape then state.(inEscape := false)
             else if c == '\\' then state.(inEscape := true)
             else if c == state.quoteChar then state.(inQuote := false)
             else state)
    else if c in style.delims then (false, state)
    else (true, state.(quoteChar := c, inQuote := c in style.quotes))
  }

  // ----- the two ways to find the next token -----

  /** The end of a token that FullGetNext has reached with the given state. */
  function FullEnd(style: Style, s: string, state: AdvanceState, pos: nat): (end: nat)
    requires pos <= |s|
    ensures pos <= end <= |s|
    decreases |s| - pos
  {
    if pos < |s| && AdvanceOne(style, state, s[pos]).0 then FullEnd(style, s, AdvanceOne(style, state, s[pos]).1, pos + 1) else pos
  }

  function FullNext(style: Style, s: string, pos: nat): (t: Option<Token>)
    requires pos <= |s|
    ensures t.Some? ==> pos <= t.value.begin < t.value.end <= |s|
    decreases |s| - pos
  {
    if pos == |s| then None
    else if AdvanceOne(style, START, s[pos]).0 then
      Some(Token(pos, FullEnd(style, s, AdvanceOne(style, START, s[pos]).1, pos + 1), false))
    else if style.returnDelims then Some(Token(pos, pos + 1, true))
    else FullNext(style, s, pos + 1)
  }

  function QuickEnd(delims: set<char>, s: string, pos: nat): (end: nat)
    requires pos <= |s|
    ensures pos <= end <= |s|
    decreases |s| - pos
  {
    if pos < |s| && s[pos] !in delims then QuickEnd(delims, s, pos + 1) else pos
  }

  function QuickNext(delims: set<char>, s: string, pos: nat): (t: Option<Token>)
    requires pos <= |s|
    ensures t.Some? ==> pos <= t.value.begin < t.value.end <= |s|
    decreases |s| - pos
  {
    if pos == |s| then None
    else if s[pos] !in delims then Some(Token(pos, QuickEnd(delims, s, pos + 1), false))
    else QuickNext(delims, s, pos + 1)
  }

  /** All tokens from a position on. */
  function Tokens(style: Style, s: string, pos: nat): seq<Token>
    requires pos <= |s|
    decreases |s| - pos
  {
    match FullNext(style, s, pos)
    case None => []
    case Some(t) => [t] + Tokens(style, s, t.end)
  }

  function TextOf(s: string, t: Token): string
    requires t.begin <= t.end <= |s|
  {
    s[t.begin..t.end]
  }

  // ----- the fast path -----

  lemma {:induction false} SameEnd(style: Style, s: string, state: AdvanceState, pos: nat)
    requires style.quotes == {} && pos <= |s| && !state.inQuote
    ensures FullEnd(style, s, state, pos) == QuickEnd(style.delims, s, pos)
    decreases |s| - pos
  {
    if pos < |s| && s[pos] !in style.delims {
      SameEnd(style, s, AdvanceOne(style, state, s[pos]).1, pos + 1);
    }
  }

  /** Without quotes and options the quick search finds what the full one finds, from every position. */
  lemma {:induction false} QuickIsFull(style: Style, s: string, pos: nat)
    requires style.quotes == {} && !style.returnDelims && pos <= |s|
    ensures QuickNext(style.delims, s, pos) == FullNext(style, s, pos)
    decreases |s| - pos
  {
    if pos < |s| {
      if s[pos] !in style.delims {
        SameEnd(style, s, AdvanceOne(style, START, s[pos]).1, pos + 1);
      } else {
        QuickIsFull(style, s, pos + 1);
      }
    }
  }

  // ----- nothing is lost -----

  function Texts(s: string, ts: seq<Token>): string
    requires forall t :: t in ts ==> t.begin <= t.end <= |s|
  {
    if ts == [] then "" else TextOf(s, ts[0]) + Texts(s, ts[1..])
  }

  lemma {:induction false} TokensInside(style: Style, s: string, pos: nat)
    requires pos <= |s|
    ensures forall t :: t in Tokens(style, s, pos) ==> t.begin <= t.end <= |s|
    decreases |s| - pos
  {
    hide FullNext;
    match FullNext(style, s, pos)
    case None =>
    case Some(t) => TokensInside(style, s, t.end);
  }

  /** With RETURN_DELIMS the tokens, put together, are the input, whatever the quotes. */
  lemma {:induction false} TokensAreTheInput(style: Style, s: string, pos: nat)
    requires style.returnDelims && pos <= |s|
    ensures forall t :: t in Tokens(style, s, pos) ==> t.begin <= t.end <= |s|
    ensures Texts(s, Tokens(style, s, pos)) == s[pos..]
    decreases |s| - pos
  {
    TokensInside(style, s, pos);
    if pos < |s| {
      var t := FullNext(style, s, pos).value;
      assert t.begin == pos;
      hide FullNext;
      TokensAreTheInput(style, s, t.end);
      assert Tokens(style, s, pos)[1..] == Tokens(style, s, t.end);
      assert s[pos..] == s[pos..t.end] + s[t.end..];
    }
  }

  function WithoutDelims(ts: seq<Token>): seq<Token>
  {
    if ts == [] then [] else (if ts[0].isDelim then [] else [ts[0]]) + WithoutDelims(ts[1..])
  }

  /** Returning the delimiters changes nothing else: leave them out and the other tokens are the same. */
  lemma {:induction false} DelimsAreExtra(style: Style, s: string, pos: nat)
    requires style.returnDelims && pos <= |s|
    ensures WithoutDelims(Tokens(style, s, pos)) == Tokens(style.(returnDelims := false), s, pos)
    decreases |s| - pos
  {
    var plain := style.(returnDelims := false);
    if pos < |s| {
      var t := FullNext(style, s, pos).value;
      assert Tokens(style, s, pos)[1..] == Tokens(style, s, t.end);
      DelimsAreExtra(style, s, t.end);
      if t.isDelim {
        assert FullNext(plain, s, pos) == FullNext(plain, s, pos + 1);
      } else {
        SameEndOfBoth(style, s, AdvanceOne(style, START, s[pos]).1, pos + 1);
      }
    }
  }

  lemma {:induction false} SameEndOfBoth(style: Style, s: string, state: AdvanceState, pos: nat)
    requires pos <= |s|
    ensures FullEnd(style.(returnDelims := false), s, state, pos) == FullEnd(style, s, state, pos)
    decreases |s| - pos
  {
    if pos < |s| && AdvanceOne(style, state, s[pos]).0 {
      SameEndOfBoth(style, s, AdvanceOne(style, state, s[pos]).1, pos + 1);
    }
  }

  // ----- tokens and splitting -----

  function NonEmpty(parts: seq<string>): seq<string>
  {
    if parts == [] then [] else (if parts[0] == "" then [] else [parts[0]]) + NonEmpty(parts[1..])
  }

  function QuickTexts(delims: set<char>, s: string, pos: nat): seq<string>
    requires pos <= |s|
    decreases |s| - pos
  {
    match QuickNext(delims, s, pos)
    case None => []
    case Some(t) => [TextOf(s, t)] + QuickTexts(delims, s, t.end)
  }

  lemma NonEmptyCons(part: string, rest: seq<string>)
    ensures NonEmpty([part] + rest) == (if part == "" then [] else [part]) + NonEmpty(rest)
  {
    assert ([part] + rest)[1..] == rest;
  }

  lemma SkipsDelim(delims: set<char>, s: string, pos: nat)
    requires pos < |s| && s[pos] in delims
    ensures QuickTexts(delims, s, pos) == QuickTexts(delims, s, pos + 1)
  {
    assert QuickNext(delims, s, pos) == QuickNext(delims, s, pos + 1);
  }

  /** The piece under way ends where the quick search ends. */
  lemma {:induction false} PieceEnds(delims: set<char>, s: string, start: nat, pos: nat)
    requires start < pos <= |s|
    ensures NonEmpty(SplitFrom(s[pos..], s[start..pos], delims))
            == [s[start..QuickEnd(delims, s, pos)]] + QuickTexts(delims, s, QuickEnd(delims, s, pos))
    decreases |s| - pos, 1
  {
    if pos == |s| {
      assert s[pos..] == "";
      assert QuickTexts(delims, s, pos) == [];
    } else {
      assert s[pos..][1..] == s[pos + 1..];
      if s[pos] in delims {
        hide NonEmpty, QuickTexts;
        SplitsAtDelims(delims, s, pos + 1);
        NonEmptyCons(s[start..pos], SplitFrom(s[pos + 1..], [], delims));
        SkipsDelim(delims, s, pos);
      } else {
        hide NonEmpty, QuickTexts;
        assert s[start..pos] + [s[pos]] == s[start..pos + 1];
        PieceEnds(delims, s, start, pos + 1);
      }
    }
  }

  /** Without quotes and options the tokens are the non-empty pieces between the delimiters. */
  lemma {:induction false} SplitsAtDelims(delims: set<char>, s: string, pos: nat)
    requires pos <= |s|
    ensures QuickTexts(delims, s, pos) == NonEmpty(Split(s[pos..], delims))
    decreases |s| - pos, 0
  {
    if pos < |s| {
      assert s[pos..][1..] == s[pos + 1..];
      if s[pos] in delims {
        SplitsAtDelims(delims, s, pos + 1);
        NonEmptyCons("", SplitFrom(s[pos + 1..], [], delims));
        SkipsDelim(delims, s, pos);
      } else {
        assert s[pos..pos + 1] == [] + [s[pos]];
        PieceEnds(delims, s, pos, pos + 1);
      }
    }
  }

  // ----- the class -----

  class StringTokenizer {
    const s: string
    const delims: set<char>
    var quotes: set<char>
    var returnDelims: bool
    var tokenBegin: nat
    var tokenEnd: nat
    var tokenIsDelim: bool

    predicate Valid()
      reads this
    {
      tokenBegin <= tokenEnd <= |s|
    }

    function StyleOf(): Style
      reads this
    {
      Style(delims, quotes, returnDelims)
    }

    /** What GetNext leaves behind. */
    predicate Shows(t: Option<Token>, more: bool)
      reads this
    {
      match t
      case None => !more && tokenBegin == tokenEnd == |s| && !tokenIsDelim
      case Some(t) => more && tokenBegin == t.begin && tokenEnd == t.end && tokenIsDelim == t.isDelim
    }

    constructor (s: string, delims: set<char>)
      ensures Valid() && this.s == s && this.delims == delims && quotes == {} && !returnDelims && tokenEnd == 0
    {
      this.s, this.delims, quotes, returnDelims := s, delims, {}, false;
      tokenBegin, tokenEnd, tokenIsDelim := 0, 0, false;
    }

    method QuickGetNext() returns (more: bool)
      requires Valid()
      modifies this`tokenBegin, this`tokenEnd, this`tokenIsDelim
      ensures Valid() && Shows(QuickNext(delims, s, old(tokenEnd)), more)
    {
      tokenIsDelim := false;
      while true
        invariant tokenEnd <= |s| && !tokenIsDelim
        invariant QuickNext(delims, s, tokenEnd) == QuickNext(delims, s, old(tokenEnd))
        decreases |s| - tokenEnd
      {
        tokenBegin := tokenEnd;
        if tokenEnd == |s| {
          return false;
        }
        tokenEnd := tokenEnd + 1;
        if s[tokenBegin] !in delims {
          break;
        }
      }
      while tokenEnd != |s| && s[tokenEnd] !in delims
        invariant tokenBegin < tokenEnd <= |s| && !tokenIsDelim
        invariant QuickNext(delims, s, old(tokenEnd)) == Some(Token(tokenBegin, QuickEnd(delims, s, tokenEnd), false))
        decreases |s| - tokenEnd
      {
        tokenEnd := tokenEnd + 1;
      }
      more := true;
    }

    method FullGetNext() returns (more: bool)
      requires Valid()
      modifies this`tokenBegin, this`tokenEnd, this`tokenIsDelim
      ensures Valid() && Shows(FullNext(StyleOf(), s, old(tokenEnd)), more)
    {
      hide AdvanceOne;
      var state := START;
      tokenIsDelim := false;
      while true
        invariant tokenEnd <= |s| && !tokenIsDelim && state == START
        invariant FullNext(StyleOf(), s, tokenEnd) == FullNext(StyleOf(), s, old(tokenEnd))
        decreases |s| - tokenEnd
      {
        tokenBegin := tokenEnd;
        if tokenEnd == |s| {
          return false;
        }
        tokenEnd := tokenEnd + 1;
        var step := AdvanceOne(StyleOf(), state, s[tokenBegin]);
        DelimLeavesState(StyleOf(), state, s[tokenBegin]);
        state := step.1;
        if step.0 {
          break;
        }
        if returnDelims {
          tokenIsDelim := true;
          return true;
        }
      }
      while tokenEnd != |s|
        invariant tokenBegin < tokenEnd <= |s| && !tokenIsDelim
        invariant FullNext(StyleOf(), s, old(tokenEnd)) == Some(Token(tokenBegin, FullEnd(StyleOf(), s, state, tokenEnd), false))
        decreases |s| - tokenEnd
      {
        var step := AdvanceOne(StyleOf(), state, s[tokenEnd]);
        if !step.0 {
          break;
        }
        state := step.1;
        tokenEnd := tokenEnd + 1;
      }
      more := true;
    }

    method GetNext() returns (more: bool)
      requires Valid()
      modifies this`tokenBegin, this`tokenEnd, this`tokenIsDelim
      ensures Valid() && Shows(FullNext(StyleOf(), s, old(tokenEnd)), more)
    {
      if quotes == {} && !returnDelims {
        QuickIsFull(StyleOf(), s, tokenEnd);
        more := QuickGetNext();
      } else {
        more := FullGetNext();
      }
    }
  }

  lemma DelimLeavesState(style: Style, state: AdvanceState, c: char)
    ensures !AdvanceOne(style, state, c).0 ==> AdvanceOne(style, state, c).1 == state
  {
  }

  /** `while (t.GetNext())`: the loop ends, and its tokens are all the tokens. */
  method Collect(t: StringTokenizer) returns (tokens: seq<Token>)
    requires t.Valid() && t.tokenEnd == 0
    modifies t`tokenBegin, t`tokenEnd, t`tokenIsDelim
    ensures tokens == Tokens(t.StyleOf(), t.s, 0)
  {
    hide FullNext;
    tokens := [];
    var more := t.GetNext();
    while more
      invariant t.Valid()
      invariant more ==> Tokens(t.StyleOf(), t.s, 0)
                         == tokens + [Token(t.tokenBegin, t.tokenEnd, t.tokenIsDelim)] + Tokens(t.StyleOf(), t.s, t.tokenEnd)
      invariant !more ==> Tokens(t.StyleOf(), t.s, 0) == tokens
      decreases |t.s| - t.tokenEnd, more
    {
      tokens := tokens + [Token(t.tokenBegin, t.tokenEnd, t.tokenIsDelim)];
      more := t.GetNext();
    }
  }
}
