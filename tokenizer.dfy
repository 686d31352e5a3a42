/** `DefaultTokenizer`: splits a pattern into tokens. The `match*` rules are
    functions of the code-point stream they look at (its value, a `CpTape`);
    `Tokenize` is the loop that applies them until the stream is empty. */
module Tokenizer {
  import opened Wrappers
  import opened Utf16
  import opened CodePointStreams
  import opened Tokens

  const INVALID_PATTERN := "Invalid pattern."

  /** `TokenizerState` (not part of this model): a rule either did not match, or
      matched a token and leaves the stream after it. */
  datatype TokenizerState = NoMatch(unread: CpTape) | Matched(unread: CpTape, token: Token)

  predicate IsHexDigit(c: int)
  {
    '0' as int <= c <= '9' as int || 'a' as int <= c <= 'f' as int || 'A' as int <= c <= 'F' as int
  }

  predicate IsOperator(c: int)
  {
    c == '?' as int || c == '*' as int || c == '+' as int || c == '(' as int || c == ')' as int
  }

  /** Four hex digits start at position `j`. */
  predicate HexDigitsAt(cps: seq<int>, j: nat)
  {
    j + 4 <= |cps| && IsHexDigit(cps[j]) && IsHexDigit(cps[j + 1]) && IsHexDigit(cps[j + 2]) && IsHexDigit(cps[j + 3])
  }

  /** A `\u` at position `i` that is not followed by four hex digits. */
  predicate BadEscapeAt(cps: seq<int>, i: nat)
  {
    i + 1 < |cps| && cps[i] == '\\' as int && cps[i + 1] == 'u' as int && !HexDigitsAt(cps, i + 2)
  }

  predicate HasBadEscape(cps: seq<int>)
  {
    exists i: nat | i < |cps| :: BadEscapeAt(cps, i)
  }

  /** The form of every token the tokenizer produces. */
  predicate WellFormed(t: Token)
  {
    match t.kind
    case OPTIONAL => t.text == ['?' as int]
    case ZERO_OR_MORE => t.text == ['*' as int]
    case ONE_OR_MORE => t.text == ['+' as int]
    case OPEN_PARENTHESIS => t.text == ['(' as int]
    case CLOSE_PARENTHESIS => t.text == [')' as int]
    case UNICODE_CODE_POINT =>
      |t.text| == 6 && t.text[0] == '\\' as int && t.text[1] == 'u' as int && HexDigitsAt(t.text, 2)
    case CODE_POINT => |t.text| == 1 && !IsOperator(t.text[0])
  }

  /** The code point at position `k` of a stream, as the stream reports it. */
  function At(s: CpTape, k: nat): CpRead
  {
    if k < |s.cps| then CodePoint(s.cps[k]) else if s.corrupt then CpCorrupt else CpEof
  }

  /** A matched token is a non-empty prefix of the stream and leaves the rest. */
  ghost predicate Consumes(s: CpTape, st: TokenizerState)
  {
    st.Matched? ==>
      var k := |st.token.text|;
      1 <= k <= |s.cps| && st.token.text == s.cps[..k] && st.unread == CpTape(s.cps[k..], s.corrupt) &&
      WellFormed(st.token)
  }

  /** `matchSingleCodePoint`: the head equals `c`, which becomes the token text. */
  function MatchSingleCodePoint(s: CpTape, kind: TokenType, c: int): (r: Result<TokenizerState>)
    ensures r.Err? <==> s.cps == [] && s.corrupt
    ensures r.Ok? ==> (r.value.Matched? <==> |s.cps| > 0 && s.cps[0] == c)
    ensures r.Ok? && r.value.Matched? ==> r.value.token == Token(kind, [c]) && r.value.unread == Rest(s)
    ensures r.Ok? && r.value.NoMatch? ==> r.value.unread == s
  {
    var empty :- IsEmptyOf(s);
    if !empty && s.cps[0] == c then Ok(Matched(Rest(s), Token(kind, [c]))) else Ok(NoMatch(s))
  }

  /** The four hex digits of a `\u` escape, checked from position `i`; any other
      code point, or the end of the pattern, is "Invalid pattern.". */
  function MatchHexDigits(s: CpTape, i: nat): (r: Result<TokenizerState>)
    requires 2 <= i <= 6 && i <= |s.cps|
    requires s.cps[0] == '\\' as int && s.cps[1] == 'u' as int
    requires forall k :: 2 <= k < i ==> IsHexDigit(s.cps[k])
    ensures r.Ok? <==> HexDigitsAt(s.cps, 2)
    ensures r.Err? && !s.corrupt ==> r == Err(INVALID_PATTERN)
    ensures r.Err? && !BadEscapeAt(s.cps, 0) ==> s.corrupt
    ensures r.Ok? ==> r.value.Matched? && r.value.token.kind == UNICODE_CODE_POINT && Consumes(s, r.value)
    decreases 6 - i
  {
    if i == 6 then Ok(Matched(CpTape(s.cps[6..], s.corrupt), Token(UNICODE_CODE_POINT, s.cps[..6])))
    else
      match At(s, i)
      case CpCorrupt => Err(CORRUPT_STREAM)
      case CpEof => Err(INVALID_PATTERN)
      case CodePoint(d) => if IsHexDigit(d) then MatchHexDigits(s, i + 1) else Err(INVALID_PATTERN)
  }

  /** `matchUnicodeCodePoint`: `\u` and four hex digits; a `\` not followed by
      `u` is no match. */
  function MatchUnicodeCodePoint(s: CpTape): (r: Result<TokenizerState>)
    ensures r.Err? ==> s.corrupt || BadEscapeAt(s.cps, 0)
    ensures BadEscapeAt(s.cps, 0) ==> r.Err?
    ensures r.Err? && !s.corrupt ==> r == Err(INVALID_PATTERN)
    ensures r.Ok? && r.value.NoMatch? ==> r.value.unread == s
    ensures r.Ok? && r.value.Matched? ==> r.value.token.kind == UNICODE_CODE_POINT && Consumes(s, r.value)
    ensures r.Ok? && r.value.NoMatch? && |s.cps| > 0 && s.cps[0] == '\\' as int ==>
              !(|s.cps| > 1 && s.cps[1] == 'u' as int)
  {
    match At(s, 0)
    case CpCorrupt => Err(CORRUPT_STREAM)
    case CpEof => Ok(NoMatch(s))
    case CodePoint(c) =>
      if c != '\\' as int then Ok(NoMatch(s))
      else
        match At(s, 1)
        case CpCorrupt => Err(CORRUPT_STREAM)
        case CpEof => Ok(NoMatch(s))
        case CodePoint(u) => if u != 'u' as int then Ok(NoMatch(s)) else MatchHexDigits(s, 2)
  }

  /** `matchAny`: any code point becomes a CODE_POINT token. */
  function MatchAny(s: CpTape): (r: Result<TokenizerState>)
    ensures r.Err? <==> s.cps == [] && s.corrupt
    ensures r.Ok? ==> (r.value.Matched? <==> |s.cps| > 0)
    ensures r.Ok? && r.value.Matched? ==> r.value.token == Token(CODE_POINT, [s.cps[0]]) && r.value.unread == Rest(s)
    ensures r.Ok? && r.value.NoMatch? ==> r.value.unread == s
  {
    var empty :- IsEmptyOf(s);
    if !empty then Ok(Matched(Rest(s), Token(CODE_POINT, [s.cps[0]]))) else Ok(NoMatch(s))
  }

  /** The rules in priority order: `?`, `*`, `+`, `(`, `)`, `\uXXXX`, any. */
  function NextToken(s: CpTape): (r: Result<TokenizerState>)
    ensures r.Err? ==> s.corrupt || BadEscapeAt(s.cps, 0)
    ensures BadEscapeAt(s.cps, 0) ==> r.Err?
    ensures r.Err? && !s.corrupt ==> r == Err(INVALID_PATTERN)
    ensures r.Ok? && |s.cps| > 0 ==> r.value.Matched?
    ensures r.Ok? ==> Consumes(s, r.value)
  {
    var q := MatchSingleCodePoint(s, OPTIONAL, '?' as int);
    if q.Err? || q.value.Matched? then q else
    var z := MatchSingleCodePoint(s, ZERO_OR_MORE, '*' as int);
    if z.Err? || z.value.Matched? then z else
    var o := MatchSingleCodePoint(s, ONE_OR_MORE, '+' as int);
    if o.Err? || o.value.Matched? then o else
    var op := MatchSingleCodePoint(s, OPEN_PARENTHESIS, '(' as int);
    if op.Err? || op.value.Matched? then op else
    var cl := MatchSingleCodePoint(s, CLOSE_PARENTHESIS, ')' as int);
    if cl.Err? || cl.value.Matched? then cl else
    var u := MatchUnicodeCodePoint(s);
    if u.Err? || u.value.Matched? then u else
    MatchAny(s)
  }

  /** What `tokenize` produces for a pattern stream. */
  function TokenizeSpec(s: CpTape): Result<seq<Token>>
    decreases |s.cps|
  {
    var empty :- IsEmptyOf(s);
    if empty then Ok([])
    else
      var st :- NextToken(s);
      if st.NoMatch? then Ok([])
      else
        var rest :- TokenizeSpec(st.unread);
        Ok([st.token] + rest)
  }

  function Prefixed(tokens: seq<Token>, r: Result<seq<Token>>): Result<seq<Token>>
  {
    if r.Ok? then Ok(tokens + r.value) else r
  }

  /** `tokenize(pattern)`: the tokens of a pattern, read until the stream is
      empty. */
  method Tokenize(pattern: seq<CodeUnit>) returns (r: Result<seq<Token>>)
    ensures r == TokenizeSpec(DecodeAll(UnitTape(pattern, false)))
  {
    var result: seq<Token> := [];
    var s := DecodeAll(UnitTape(pattern, false));
    ghost var whole := s;
    assert Prefixed(result, TokenizeSpec(s)) == TokenizeSpec(whole) by {
      if TokenizeSpec(s).Ok? {
        assert [] + TokenizeSpec(s).value == TokenizeSpec(s).value;
      }
    }
    while true
      invariant Prefixed(result, TokenizeSpec(s)) == TokenizeSpec(whole)
      decreases |s.cps|
    {
      var empty :- IsEmptyOf(s);
      if empty {
        assert result + [] == result;
        break;
      }
      var state := MatchSingleCodePoint(s, OPTIONAL, '?' as int);
      if state.Ok? && !state.value.Matched? {
        state := MatchSingleCodePoint(s, ZERO_OR_MORE, '*' as int);
      }
      if state.Ok? && !state.value.Matched? {
        state := MatchSingleCodePoint(s, ONE_OR_MORE, '+' as int);
      }
      if state.Ok? && !state.value.Matched? {
        state := MatchSingleCodePoint(s, OPEN_PARENTHESIS, '(' as int);
      }
      if state.Ok? && !state.value.Matched? {
        state := MatchSingleCodePoint(s, CLOSE_PARENTHESIS, ')' as int);
      }
      if state.Ok? && !state.value.Matched? {
        state := MatchUnicodeCodePoint(s);
      }
      if state.Ok? && !state.value.Matched? {
        state := MatchAny(s);
      }
      assert state == NextToken(s);
      if state.Err? {
        return Err(state.message);
      }
      if state.value.Matched? {
        TokenizeStep(s, result);
        result := result + [state.value.token];
      } else {
        // a non-empty stream always matches `matchAny`
        assert false;
        break;
      }
      s := state.value.unread;
    }
    return Ok(result);
  }

  /** One loop step: the token matched at the head of `s` moves to the result. */
  lemma TokenizeStep(s: CpTape, result: seq<Token>)
    requires s.cps != [] && NextToken(s).Ok? && NextToken(s).value.Matched?
    ensures Prefixed(result + [NextToken(s).value.token], TokenizeSpec(NextToken(s).value.unread))
              == Prefixed(result, TokenizeSpec(s))
  {
    var st := NextToken(s).value;
    var next := TokenizeSpec(st.unread);
    assert IsEmptyOf(s) == Ok(false);
    assert TokenizeSpec(s) == Prefixed([st.token], next);
    if next.Ok? {
      assert (result + [st.token]) + next.value == result + ([st.token] + next.value);
    }
  }

  function Texts(tokens: seq<Token>): seq<int>
  {
    if tokens == [] then [] else tokens[0].text + Texts(tokens[1..])
  }

  /** The token texts concatenate back to the pattern, every token is well
      formed, and there are at most as many tokens as code points. */
  lemma {:induction false} TokenizeRoundTrip(s: CpTape)
    requires TokenizeSpec(s).Ok?
    ensures !s.corrupt
    ensures Texts(TokenizeSpec(s).value) == s.cps
    ensures |TokenizeSpec(s).value| <= |s.cps|
    ensures forall t | t in TokenizeSpec(s).value :: WellFormed(t)
    decreases |s.cps|
  {
    if s.cps != [] {
      TokenizeCons(s);
      var st := NextToken(s).value;
      TokenizeRoundTrip(st.unread);
      TextsCons(st.token, TokenizeSpec(st.unread).value);
    }
  }

  /** A non-empty pattern that tokenizes: its first token, then the rest. */
  lemma TokenizeCons(s: CpTape)
    requires s.cps != [] && TokenizeSpec(s).Ok?
    ensures NextToken(s).Ok? && NextToken(s).value.Matched?
    ensures var st := NextToken(s).value;
      && TokenizeSpec(st.unread).Ok?
      && TokenizeSpec(s).value == [st.token] + TokenizeSpec(st.unread).value
      && s.cps == st.token.text + st.unread.cps && st.unread.corrupt == s.corrupt
      && |st.unread.cps| < |s.cps| && WellFormed(st.token)
  {
    assert IsEmptyOf(s) == Ok(false);
    var st := NextToken(s).value;
    var k := |st.token.text|;
    assert s.cps == s.cps[..k] + s.cps[k..];
  }

  lemma TextsCons(t: Token, rest: seq<Token>)
    ensures Texts([t] + rest) == t.text + Texts(rest)
  {
    assert ([t] + rest)[1..] == rest;
  }

  /** A bad escape inside the pattern after position `k` is one in the rest. */
  lemma BadEscapeShift(cps: seq<int>, k: nat)
    requires k <= |cps|
    requires forall i: nat :: i < k ==> !BadEscapeAt(cps, i)
    ensures HasBadEscape(cps) <==> HasBadEscape(cps[k..])
  {
    if HasBadEscape(cps) {
      var i: nat :| i < |cps| && BadEscapeAt(cps, i);
      assert i >= k;
      assert BadEscapeAt(cps[k..], i - k);
    }
    if HasBadEscape(cps[k..]) {
      var i: nat :| i < |cps[k..]| && BadEscapeAt(cps[k..], i);
      assert BadEscapeAt(cps, i + k);
    }
  }

  /** No bad escape starts inside a token. */
  lemma NoBadEscapeInToken(s: CpTape, st: TokenizerState)
    requires st.Matched? && Consumes(s, st)
    ensures forall i: nat :: 0 < i < |st.token.text| ==> !BadEscapeAt(s.cps, i)
  {
    forall i: nat | 0 < i < |st.token.text|
      ensures !BadEscapeAt(s.cps, i)
    {
      assert st.token.kind == UNICODE_CODE_POINT;
      assert s.cps[i] == st.token.text[i];
    }
  }

  /** Tokenizing fails exactly when the pattern is corrupt UTF-16 or holds a
      `\u` not followed by four hex digits; for a well-formed pattern the only
      failure is "Invalid pattern.". */
  lemma {:induction false} TokenizeSucceedsIff(s: CpTape)
    ensures TokenizeSpec(s).Ok? <==> !s.corrupt && !HasBadEscape(s.cps)
    ensures TokenizeSpec(s).Err? && !s.corrupt ==> TokenizeSpec(s) == Err(INVALID_PATTERN)
    decreases |s.cps|
  {
    if s.cps == [] {
      assert !HasBadEscape(s.cps);
    } else {
      var r := NextToken(s);
      if r.Err? {
        if !s.corrupt {
          assert BadEscapeAt(s.cps, 0);
        }
      } else {
        var st := r.value;
        TokenizeSucceedsIff(st.unread);
        NoBadEscapeInToken(s, st);
        if BadEscapeAt(s.cps, 0) {
          assert false;
        }
        BadEscapeShift(s.cps, |st.token.text|);
      }
    }
  }
}
