/** `regex2.Regex`: the lexer `Words.toList` and the decoder `CodePoints`
    that feeds it. The decoder walks a string by `CodePointState`s; as
    written, a surrogate pair is combined from the high surrogate twice, and
    `codePoints` and `toList` here do the same. `NextCodePoint` and
    `DecodeFrom` are the corrected step and loop beside them. */
module Regex2 {
  import opened Wrappers
  import opened Utf16
  import opened JavaStrings
  import opened Decimal

  type Text = seq<CodeUnit>

  /** What `charAt` throws at the end of the text (its message is the JDK's). */
  const STRING_INDEX_OUT_OF_BOUNDS := "StringIndexOutOfBoundsException"
  /** The message of `toList` when the pattern ends inside an escape. */
  const ESCAPE_AT_END := "Pattern ended with an escape ('\\')."

  // ---------------------------------------------------------------------
  // CodePoints
  // ---------------------------------------------------------------------

  /** A position in a text; the index may be the text's length. */
  datatype CodePointState = CodePointState(text: Text, index: nat)
  {
    ghost predicate Valid()
    {
      index <= |text|
    }
  }

  /** The checked constructor: the index must lie in `0..|text|`; a negative
      index and one past the length are refused with their own messages. */
  function NewState(text: Text, index: int): (r: Result<CodePointState>)
    ensures r.Ok? <==> 0 <= index <= |text|
    ensures r.Ok? ==> r.value.text == text && r.value.index == index && r.value.Valid()
    ensures index < 0 ==> r == Err("Invalid index: " + Show(index) + ".")
    ensures index > |text| ==> r == Err("Invalid index: " + Show(index) + " >= " + Show(|text|) + ".")
  {
    if index < 0 then Err("Invalid index: " + Show(index) + ".")
    else if index > |text| then Err("Invalid index: " + Show(index) + " >= " + Show(|text|) + ".")
    else Ok(CodePointState(text, index))
  }

  /** The `IllegalStateException` message of `nextCodePoint` for a surrogate at
      `index` that does not start a pair: a leading low surrogate, a high
      surrogate at the last index, or one followed by something else. Units
      are written as `\u` and their decimal value, as the Java concatenation
      does. */
  function CorruptMessage(text: Text, index: nat): string
    requires index < |text|
  {
    var ch := text[index];
    if !IsHighSurrogate(ch) then "Corrupt stream: expected a high surrogate at index " + Show(index) + "."
    else if index + 1 == |text| then "Corrupt stream: high surrogate (\\u" + Show(ch) + ") at last index."
    else
      "Corrupt stream: high surrogate (\\u" + Show(ch) + ") without low surrogate (\\u" + Show(text[index + 1])
        + ") at index " + Show(index) + "."
  }

  /** `nextCodePoint` as written: the pair's second half is taken from the
      high surrogate again, so `toCodePoint` gets the high surrogate twice. */
  function NextCodePointAsWritten(queue: seq<int>, state: CodePointState): (r: Result<(seq<int>, CodePointState)>)
    requires state.Valid()
    ensures state.index == |state.text| ==> r == Err(STRING_INDEX_OUT_OF_BOUNDS)
    ensures state.index < |state.text| ==>
      var codePoint := CodePointAt(state.text, state.index);
      && (r.Ok? <==> !IsSurrogate(codePoint))
      && (r.Ok? ==> r.value == (queue + [AsWrittenValue(codePoint)], CodePointState(state.text, state.index + CharCount(codePoint))))
      && (r.Err? ==> r.message == CorruptMessage(state.text, state.index))
  {
    var text, index := state.text, state.index;
    if index == |text| then Err(STRING_INDEX_OUT_OF_BOUNDS)
    else
      var ch := text[index];
      if !IsSurrogate(ch) then Ok((queue + [ch], CodePointState(text, index + 1)))
      else if !IsHighSurrogate(ch) then Err(CorruptMessage(text, index))
      else if index + 1 == |text| then Err(CorruptMessage(text, index))
      else if !IsLowSurrogate(text[index + 1]) then Err(CorruptMessage(text, index))
      else
        var lowSurrogate := ch;
        PairValue(ch, text[index + 1]);
        Ok((queue + [ToCodePoint(ch, lowSurrogate)], CodePointState(text, index + 2)))
  }

  /** The value the as-written step gives a code point: a supplementary one
      becomes `toCodePoint(hi, hi)` of its high surrogate `hi`; any other is
      kept. */
  function AsWrittenValue(codePoint: int): int
    requires 0 <= codePoint <= 0x10FFFF
  {
    if codePoint < 0x1_0000 then codePoint
    else
      var high := ToChars(codePoint)[0];
      ToCodePoint(high, high)
  }

  /** `AsWrittenValue` of each code point, in order. */
  function AsWrittenValues(cps: seq<int>): seq<int>
    requires forall k | 0 <= k < |cps| :: 0 <= cps[k] <= 0x10FFFF
  {
    if cps == [] then [] else [AsWrittenValue(cps[0])] + AsWrittenValues(cps[1..])
  }

  /** A pair's high surrogate is the first unit `toChars` writes for it. */
  lemma PairValue(high: CodeUnit, low: CodeUnit)
    requires IsHighSurrogate(high) && IsLowSurrogate(low)
    ensures AsWrittenValue(ToCodePoint(high, low)) == ToCodePoint(high, high)
  {
    PairIsEncoding(high, low);
  }

  /** Text without supplementary code points is decoded alike as written and
      corrected. */
  lemma {:induction false} AsWrittenValuesBelow(cps: seq<int>)
    requires forall k | 0 <= k < |cps| :: 0 <= cps[k] < 0x1_0000
    ensures AsWrittenValues(cps) == cps
  {
    if cps != [] {
      AsWrittenValuesBelow(cps[1..]);
    }
  }

  /** `nextCodePoint` with the low surrogate read where the check finds it:
      it appends the code point `codePointAt` reads, and fails exactly on a
      lone surrogate. */
  function NextCodePoint(queue: seq<int>, state: CodePointState): (r: Result<(seq<int>, CodePointState)>)
    requires state.Valid()
    ensures state.index == |state.text| ==> r == Err(STRING_INDEX_OUT_OF_BOUNDS)
    ensures state.index < |state.text| ==>
      var codePoint := CodePointAt(state.text, state.index);
      && (r.Ok? <==> !IsSurrogate(codePoint))
      && (r.Ok? ==> r.value == (queue + [codePoint], CodePointState(state.text, state.index + CharCount(codePoint))))
      && (r.Err? ==> r.message == CorruptMessage(state.text, state.index))
  {
    var text, index := state.text, state.index;
    if index == |text| then Err(STRING_INDEX_OUT_OF_BOUNDS)
    else
      var ch := text[index];
      if !IsSurrogate(ch) then Ok((queue + [ch], CodePointState(text, index + 1)))
      else if !IsHighSurrogate(ch) then Err(CorruptMessage(text, index))
      else if index + 1 == |text| then Err(CorruptMessage(text, index))
      else if !IsLowSurrogate(text[index + 1]) then Err(CorruptMessage(text, index))
      else
        var lowSurrogate := text[index + 1];
        Ok((queue + [ToCodePoint(ch, lowSurrogate)], CodePointState(text, index + 2)))
  }

  /** The rest of the `codePoints` loop from `index`, as written. */
  function DecodeAsWritten(text: Text, index: nat, queue: seq<int>): Result<seq<int>>
    requires index <= |text|
    decreases |text| - index
  {
    if index == |text| then Ok(queue)
    else
      var next :- NextCodePointAsWritten(queue, CodePointState(text, index));
      DecodeAsWritten(text, next.1.index, next.0)
  }

  /** The rest of the `codePoints` loop from `index`, with the corrected step. */
  function DecodeFrom(text: Text, index: nat, queue: seq<int>): Result<seq<int>>
    requires index <= |text|
    decreases |text| - index
  {
    if index == |text| then Ok(queue)
    else
      var next :- NextCodePoint(queue, CodePointState(text, index));
      DecodeFrom(text, next.1.index, next.0)
  }

  /** Every code point the walk of `text` visits is a scalar value: the text
      has no lone surrogate. */
  ghost predicate WellPaired(text: Text)
  {
    forall k | 0 <= k < |CodePointsOf(text)| :: !IsSurrogate(CodePointsOf(text)[k])
  }

  /** The corrected loop fails exactly on a lone surrogate, and otherwise
      appends the code points of the text, as `codePointAt` reads them. */
  lemma {:induction false} DecodeFromReads(text: Text, index: nat, queue: seq<int>)
    requires index <= |text|
    ensures DecodeFrom(text, index, queue).Ok? <==> WellPaired(text[index..])
    ensures DecodeFrom(text, index, queue).Ok? ==> DecodeFrom(text, index, queue).value == queue + CodePointsOf(text[index..])
    decreases |text| - index
  {
    if index < |text| {
      var codePoint := CodePointAt(text, index);
      var after := index + CharCount(codePoint);
      ToCharsAt(text, index);
      DecodeFromStep(text, index, queue);
      WellPairedStep(text, index);
      if !IsSurrogate(codePoint) {
        DecodeFromReads(text, after, queue + [codePoint]);
        CodePointsOfAt(text, index);
        Assoc(queue, [codePoint], CodePointsOf(text[after..]));
      }
    } else {
      assert text[index..] == [];
    }
  }

  /** One step of the corrected loop. */
  lemma DecodeFromStep(text: Text, index: nat, queue: seq<int>)
    requires index < |text|
    ensures var codePoint := CodePointAt(text, index);
      index + CharCount(codePoint) <= |text| &&
      DecodeFrom(text, index, queue) ==
        if IsSurrogate(codePoint) then Err(CorruptMessage(text, index))
        else DecodeFrom(text, index + CharCount(codePoint), queue + [codePoint])
  {
    ToCharsAt(text, index);
  }

  /** A text is well paired from `index` exactly when its first code point is
      no surrogate and the rest is well paired. */
  lemma WellPairedStep(text: Text, index: nat)
    requires index < |text|
    ensures var codePoint := CodePointAt(text, index);
      index + CharCount(codePoint) <= |text| &&
      (WellPaired(text[index..]) <==> !IsSurrogate(codePoint) && WellPaired(text[index + CharCount(codePoint)..]))
  {
    ToCharsAt(text, index);
    CodePointsOfAt(text, index);
    var codePoint := CodePointAt(text, index);
    var all := CodePointsOf(text[index..]);
    var rest := CodePointsOf(text[index + CharCount(codePoint)..]);
    assert all[0] == codePoint;
    assert forall k | 0 <= k < |rest| :: rest[k] == all[k + 1];
  }

  lemma Assoc(a: seq<int>, b: seq<int>, c: seq<int>)
    ensures a + b + c == a + (b + c)
  {
  }

  /** The code points of a well-paired text, written back with `toChars`,
      give the text: the corrected decoder loses nothing. */
  lemma DecodeRoundTrip(text: Text)
    requires WellPaired(text)
    ensures DecodeFrom(text, 0, []) == Ok(CodePointsOf(text))
    ensures CharsOf(CodePointsOf(text)) == text
  {
    DecodeFromReads(text, 0, []);
    assert text[0..] == text;
    assert [] + CodePointsOf(text) == CodePointsOf(text);
    CharsOfCodePointsOf(text);
  }

  /** Decoding the UTF-16 encoding of scalar values gives them back. */
  lemma DecodeOfEncoding(cps: seq<int>)
    requires forall k | 0 <= k < |cps| :: IsScalarValue(cps[k])
    ensures DecodeFrom(EncodeAll(cps), 0, []) == Ok(cps)
  {
    var text := EncodeAll(cps);
    CodePointsOfEncodeAll(cps);
    assert WellPaired(text);
    DecodeRoundTrip(text);
  }

  /** As written, the first supplementary code point U+10000, encoded as
      D800 DC00, decodes to FC00; corrected, it decodes to itself. */
  lemma AsWrittenPairDecode()
    ensures EncodeAll([0x1_0000]) == [0xD800, 0xDC00]
    ensures DecodeAsWritten([0xD800, 0xDC00], 0, []) == Ok([0xFC00])
    ensures DecodeFrom([0xD800, 0xDC00], 0, []) == Ok([0x1_0000])
  {
    var text: Text := [0xD800, 0xDC00];
    assert Encode(0x1_0000) == [0xD800, 0xDC00];
    assert EncodeAll([0x1_0000]) == Encode(0x1_0000) + EncodeAll([]);
    assert ToCodePoint(0xD800, 0xD800) == 0xFC00;
    assert CodePointAt(text, 0) == 0x1_0000;
    assert AsWrittenValue(0x1_0000) == 0xFC00;
    var first := NextCodePointAsWritten([], CodePointState(text, 0));
    assert first.Ok?;
    assert first.value.0 == [] + [AsWrittenValue(0x1_0000)];
    assert first.value.1 == CodePointState(text, 0 + CharCount(0x1_0000));
    assert first.value.0 == [0xFC00];
    assert first == Ok(([0xFC00], CodePointState(text, 2)));
    DecodeOfEncoding([0x1_0000]);
  }

  /** As written, the loop fails exactly where the corrected one does, on a
      lone surrogate, and otherwise appends the as-written value of each code
      point of the text. */
  lemma {:induction false} DecodeAsWrittenReads(text: Text, index: nat, queue: seq<int>)
    requires index <= |text|
    ensures DecodeAsWritten(text, index, queue).Ok? <==> WellPaired(text[index..])
    ensures DecodeAsWritten(text, index, queue).Ok? ==>
      DecodeAsWritten(text, index, queue).value == queue + AsWrittenValues(CodePointsOf(text[index..]))
    decreases |text| - index
  {
    if index < |text| {
      var codePoint := CodePointAt(text, index);
      var after := index + CharCount(codePoint);
      ToCharsAt(text, index);
      WellPairedStep(text, index);
      if !IsSurrogate(codePoint) {
        var value := AsWrittenValue(codePoint);
        assert DecodeAsWritten(text, index, queue) == DecodeAsWritten(text, after, queue + [value]);
        DecodeAsWrittenReads(text, after, queue + [value]);
        CodePointsOfAt(text, index);
        var rest := CodePointsOf(text[after..]);
        assert AsWrittenValues([codePoint] + rest) == [value] + AsWrittenValues(rest) by {
          assert ([codePoint] + rest)[1..] == rest;
        }
        Assoc(queue, [value], AsWrittenValues(rest));
      }
    } else {
      assert text[index..] == [];
    }
  }

  /** `codePoints(text)`: the loop that rebinds the queue and the state until
      the index reaches the length, with the as-written step. */
  method CodePoints(text: Text) returns (r: Result<seq<int>>)
    ensures r == DecodeAsWritten(text, 0, [])
    ensures r.Ok? <==> WellPaired(text)
    ensures r.Ok? ==> r.value == AsWrittenValues(CodePointsOf(text))
  {
    DecodeAsWrittenReads(text, 0, []);
    assert text[0..] == text;
    assert [] + AsWrittenValues(CodePointsOf(text)) == AsWrittenValues(CodePointsOf(text));
    var start := NewState(text, 0);
    var codePointState := start.value;
    var queue: seq<int> := [];
    while true
      invariant codePointState.Valid() && codePointState.text == text
      invariant DecodeAsWritten(text, codePointState.index, queue) == DecodeAsWritten(text, 0, [])
      decreases |text| - codePointState.index
    {
      if codePointState.index == |codePointState.text| {
        break;
      }
      var result :- NextCodePointAsWritten(queue, codePointState);
      queue := result.0;
      codePointState := result.1;
    }
    return Ok(queue);
  }

  // ---------------------------------------------------------------------
  // Words
  // ---------------------------------------------------------------------

  /** `Word`: a literal code point or one of the operators. */
  datatype Word = CodePointWord(codePoint: int) | Star | Plus | OptionalWord | Or | Left | Right

  const BACKSLASH := 0x5C

  /** The word an unescaped code point stands for. */
  function WordOf(codePoint: int): (w: Word)
    ensures w.CodePointWord? ==> w.codePoint == codePoint
  {
    if codePoint == '*' as int then Star
    else if codePoint == '+' as int then Plus
    else if codePoint == '?' as int then OptionalWord
    else if codePoint == '|' as int then Or
    else if codePoint == '(' as int then Left
    else if codePoint == ')' as int then Right
    else CodePointWord(codePoint)
  }

  /** The `toList` loop after the code points `cps`: the words so far and
      whether the last code point opened an escape. */
  function Lexed(cps: seq<int>): (r: (seq<Word>, bool))
    decreases |cps|
  {
    if cps == [] then ([], false)
    else LexStep(Lexed(cps[..|cps| - 1]), cps[|cps| - 1])
  }

  /** One pass of the loop body: an escaped code point is a literal, a
      backslash opens an escape, anything else is its word. */
  function LexStep(state: (seq<Word>, bool), codePoint: int): (seq<Word>, bool)
  {
    var (words, escape) := state;
    if escape then (words + [CodePointWord(codePoint)], false)
    else if codePoint == BACKSLASH then (words, true)
    else (words + [WordOf(codePoint)], false)
  }

  lemma LexedSnoc(cps: seq<int>, codePoint: int)
    ensures Lexed(cps + [codePoint]) == LexStep(Lexed(cps), codePoint)
  {
    assert (cps + [codePoint])[..|cps|] == cps;
  }

  /** What `toList` answers for the code points `cps`. */
  function Lex(cps: seq<int>): Result<seq<Word>>
  {
    var (words, escape) := Lexed(cps);
    if escape then Err(ESCAPE_AT_END) else Ok(words)
  }

  /** How many backslashes `cps` ends with. */
  function TrailingBackslashes(cps: seq<int>): (n: nat)
    ensures n <= |cps|
  {
    if cps == [] || cps[|cps| - 1] != BACKSLASH then 0
    else TrailingBackslashes(cps[..|cps| - 1]) + 1
  }

  /** The pattern is left inside an escape exactly when it ends with an odd
      run of backslashes, so `toList` fails exactly then. */
  lemma {:induction false} LexFails(cps: seq<int>)
    ensures Lexed(cps).1 <==> TrailingBackslashes(cps) % 2 == 1
    ensures Lex(cps).Err? <==> TrailingBackslashes(cps) % 2 == 1
    decreases |cps|
  {
    if cps != [] {
      LexFails(cps[..|cps| - 1]);
    }
  }

  /** How a word is written in a pattern: operators as their character, a
      literal that is an operator character or a backslash escaped. */
  function Spelled(w: Word): (cps: seq<int>)
    ensures 1 <= |cps| <= 2
  {
    match w
    case Star => ['*' as int]
    case Plus => ['+' as int]
    case OptionalWord => ['?' as int]
    case Or => ['|' as int]
    case Left => ['(' as int]
    case Right => [')' as int]
    case CodePointWord(c) => if c == BACKSLASH || !WordOf(c).CodePointWord? then [BACKSLASH, c] else [c]
  }

  function Spelling(words: seq<Word>): seq<int>
    decreases |words|
  {
    if words == [] then [] else Spelling(words[..|words| - 1]) + Spelled(words[|words| - 1])
  }

  /** Lexing a written word after any pattern that is not inside an escape
      adds exactly that word. */
  lemma LexedSpelled(cps: seq<int>, w: Word)
    requires !Lexed(cps).1
    ensures Lexed(cps + Spelled(w)) == (Lexed(cps).0 + [w], false)
  {
    var spelled := Spelled(w);
    SpelledShape(w);
    if |spelled| == 2 {
      LexedSnoc(cps, BACKSLASH);
      LexedSnoc(cps + [BACKSLASH], w.codePoint);
      assert cps + [BACKSLASH] + [w.codePoint] == cps + spelled;
    } else {
      LexedSnoc(cps, spelled[0]);
    }
  }

  /** A written word is one code point that lexes to it, or a backslash and
      the literal. */
  lemma SpelledShape(w: Word)
    ensures |Spelled(w)| == 1 ==> Spelled(w)[0] != BACKSLASH && WordOf(Spelled(w)[0]) == w
    ensures |Spelled(w)| == 2 ==> w.CodePointWord? && Spelled(w) == [BACKSLASH, w.codePoint]
  {
  }

  /** `toList` reads back every sequence of words from its spelling. */
  lemma {:induction false} LexSpelling(words: seq<Word>)
    ensures Lexed(Spelling(words)) == (words, false)
    ensures Lex(Spelling(words)) == Ok(words)
    decreases |words|
  {
    if words != [] {
      var init := words[..|words| - 1];
      LexSpelling(init);
      LexedSpelled(Spelling(init), words[|words| - 1]);
      assert init + [words[|words| - 1]] == words;
    }
  }

  /** `Words.toList(pattern)`: decode the pattern, then one pass with the
      `escape` flag. */
  method ToList(pattern: Text) returns (r: Result<seq<Word>>)
    ensures r.Err? <==> !WellPaired(pattern) || TrailingBackslashes(AsWrittenValues(CodePointsOf(pattern))) % 2 == 1
    ensures r.Ok? ==> r == Lex(AsWrittenValues(CodePointsOf(pattern)))
    ensures !WellPaired(pattern) ==> r.Err? && DecodeAsWritten(pattern, 0, []) == Err(r.message)
    ensures r.Err? && WellPaired(pattern) ==> r.message == ESCAPE_AT_END
  {
    var codePoints :- CodePoints(pattern);
    var words: seq<Word> := [];
    var escape := false;
    for i := 0 to |codePoints|
      invariant (words, escape) == Lexed(codePoints[..i])
    {
      var codePoint := codePoints[i];
      assert codePoints[..i + 1][..i] == codePoints[..i];
      if escape {
        words := words + [CodePointWord(codePoint)];
        escape := false;
        continue;
      }
      if codePoint == BACKSLASH {
        escape := true;
      } else {
        words := words + [WordOf(codePoint)];
      }
    }
    assert codePoints[..|codePoints|] == codePoints;
    LexFails(codePoints);
    if escape {
      return Err(ESCAPE_AT_END);
    }
    return Ok(words);
  }
}
