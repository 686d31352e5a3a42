/** `DefaultRegularExpression.matchExpression`: the recursive-descent compiler
    from tokens to basic instructions. `ParseSequence` and `Emit` are its
    reference definition: the first builds the expression tree the method
    walks, the second the code each sub-expression stands for. */
module Compiler {
  import opened Wrappers
  import opened Tokens
  import opened Tokenizer
  import opened BasicInstructions

  const NULL_POINTER := "NullPointerException"
  const EXPECTED_CLOSE := "Expected a ')'."
  const TOO_MANY_CLOSE := "Invalid pattern: too many ')'."

  /** The sub-expressions the compiler keeps on its deque. */
  datatype Expr =
    | Literal(codePoint: int)
    | Optional(body: Expr)
    | ZeroOrMore(body: Expr)
    | OneOrMore(body: Expr)
    | Group(items: seq<Expr>)

  /** The code of one sub-expression. */
  function Emit(e: Expr): seq<BasicInstruction>
    decreases e, 1
  {
    match e
    case Literal(c) => [BasicCodePoint(c)]
    case Optional(b) => var code := Emit(b); [BasicFork(|code| + 1)] + code
    case ZeroOrMore(b) => var code := Emit(b); [BasicFork(|code| + 2)] + code + [BasicJump(-(|code| + 1))]
    case OneOrMore(b) => var code := Emit(b); code + [BasicFork(-|code|)]
    case Group(items) => EmitAll(items)
  }

  /** The code of a sequence of sub-expressions, in order. */
  function EmitAll(items: seq<Expr>): seq<BasicInstruction>
    decreases items, 0
  {
    if items == [] then [] else EmitAll(items[..|items| - 1]) + Emit(items[|items| - 1])
  }

  predicate WellFormedTokens(tokens: seq<Token>)
  {
    forall k | 0 <= k < |tokens| :: WellFormed(tokens[k])
  }

  function HexDigitValue(c: int): (v: nat)
    requires IsHexDigit(c)
    ensures v < 16
  {
    if '0' as int <= c <= '9' as int then c - '0' as int
    else if 'a' as int <= c <= 'f' as int then c - 'a' as int + 10
    else c - 'A' as int + 10
  }

  /** `Integer.parseInt(digits, 16)` of the four digits after `\u`. */
  function HexValue(digits: seq<int>): (v: nat)
    requires forall k | 0 <= k < |digits| :: IsHexDigit(digits[k])
    decreases |digits|
  {
    if digits == [] then 0 else HexValue(digits[..|digits| - 1]) * 16 + HexDigitValue(digits[|digits| - 1])
  }

  function Pow16(n: nat): (p: nat)
    ensures p >= 1
  {
    if n == 0 then 1 else 16 * Pow16(n - 1)
  }

  /** `n` hex digits denote a value below 16^n; four of them one in 0..0xFFFF. */
  lemma {:induction false} HexValueBound(digits: seq<int>)
    requires forall k | 0 <= k < |digits| :: IsHexDigit(digits[k])
    ensures HexValue(digits) < Pow16(|digits|)
    ensures |digits| == 4 ==> HexValue(digits) < 0x1_0000
    decreases |digits|
  {
    if digits != [] {
      var prefix := digits[..|digits| - 1];
      HexValueBound(prefix);
      assert HexValue(digits) <= (Pow16(|prefix|) - 1) * 16 + 15;
    }
    if |digits| == 4 {
      assert Pow16(4) == 0x1_0000;
    }
  }

  /** The code point a literal token stands for. */
  function TokenCodePoint(t: Token): (c: int)
    requires WellFormed(t) && (t.kind == CODE_POINT || t.kind == UNICODE_CODE_POINT)
    ensures t.kind == UNICODE_CODE_POINT ==> 0 <= c < 0x1_0000
  {
    if t.kind == CODE_POINT then t.text[0]
    else
      assert forall k | 0 <= k < 4 :: IsHexDigit(t.text[2..][k]);
      HexValueBound(t.text[2..]);
      HexValue(t.text[2..])
  }

  /** What `matchExpression(level, tokens)` does, on the expression tree: from
      position `pos`, with `acc` on the deque, it returns the position where
      this level stopped (the end, or a `)` when `level > 0`) and the deque. */
  function ParseSequence(level: nat, tokens: seq<Token>, pos: nat, acc: seq<Expr>): (r: Result<(nat, seq<Expr>)>)
    requires pos <= |tokens| && WellFormedTokens(tokens)
    ensures r.Ok? ==> pos <= r.value.0 <= |tokens|
    ensures r.Ok? && r.value.0 < |tokens| ==> level > 0 && tokens[r.value.0].kind == CLOSE_PARENTHESIS
    decreases |tokens| - pos
  {
    if pos == |tokens| then Ok((pos, acc))
    else
      var t := tokens[pos];
      match t.kind
      case CODE_POINT => ParseSequence(level, tokens, pos + 1, acc + [Literal(TokenCodePoint(t))])
      case UNICODE_CODE_POINT => ParseSequence(level, tokens, pos + 1, acc + [Literal(TokenCodePoint(t))])
      case OPTIONAL =>
        if acc == [] then Err(NULL_POINTER)
        else ParseSequence(level, tokens, pos + 1, acc[..|acc| - 1] + [Optional(acc[|acc| - 1])])
      case ZERO_OR_MORE =>
        if acc == [] then Err(NULL_POINTER)
        else ParseSequence(level, tokens, pos + 1, acc[..|acc| - 1] + [ZeroOrMore(acc[|acc| - 1])])
      case ONE_OR_MORE =>
        if acc == [] then Err(NULL_POINTER)
        else ParseSequence(level, tokens, pos + 1, acc[..|acc| - 1] + [OneOrMore(acc[|acc| - 1])])
      case OPEN_PARENTHESIS =>
        var inner :- ParseSequence(level + 1, tokens, pos + 1, []);
        if inner.0 < |tokens| && tokens[inner.0].kind == CLOSE_PARENTHESIS then
          ParseSequence(level, tokens, inner.0 + 1, acc + [Group(inner.1)])
        else Err(EXPECTED_CLOSE)
      case CLOSE_PARENTHESIS =>
        if level == 0 then Err(TOO_MANY_CLOSE) else Ok((pos, acc))
  }

  predicate IsQuantifier(kind: TokenType)
  {
    kind == OPTIONAL || kind == ZERO_OR_MORE || kind == ONE_OR_MORE
  }

  /** The deque after a literal or a quantifier token. */
  function Apply(t: Token, acc: seq<Expr>): seq<Expr>
    requires WellFormed(t) && t.kind != OPEN_PARENTHESIS && t.kind != CLOSE_PARENTHESIS
    requires IsQuantifier(t.kind) ==> acc != []
  {
    if t.kind == OPTIONAL then acc[..|acc| - 1] + [Optional(acc[|acc| - 1])]
    else if t.kind == ZERO_OR_MORE then acc[..|acc| - 1] + [ZeroOrMore(acc[|acc| - 1])]
    else if t.kind == ONE_OR_MORE then acc[..|acc| - 1] + [OneOrMore(acc[|acc| - 1])]
    else acc + [Literal(TokenCodePoint(t))]
  }

  lemma ParseStep(level: nat, tokens: seq<Token>, p: nat, acc: seq<Expr>)
    requires p < |tokens| && WellFormedTokens(tokens)
    requires tokens[p].kind != OPEN_PARENTHESIS && tokens[p].kind != CLOSE_PARENTHESIS
    requires IsQuantifier(tokens[p].kind) ==> acc != []
    ensures ParseSequence(level, tokens, p, acc) == ParseSequence(level, tokens, p + 1, Apply(tokens[p], acc))
  {
  }

  /** Where a level stops: at the end, at a `)`, or at a quantifier with
      nothing before it. */
  lemma ParseExit(level: nat, tokens: seq<Token>, p: nat, acc: seq<Expr>)
    requires p <= |tokens| && WellFormedTokens(tokens)
    ensures p == |tokens| ==> ParseSequence(level, tokens, p, acc) == Ok((p, acc))
    ensures p < |tokens| && tokens[p].kind == CLOSE_PARENTHESIS ==>
      ParseSequence(level, tokens, p, acc) == if level == 0 then Err(TOO_MANY_CLOSE) else Ok((p, acc))
    ensures p < |tokens| && IsQuantifier(tokens[p].kind) && acc == [] ==>
      ParseSequence(level, tokens, p, acc) == Err(NULL_POINTER)
  {
  }

  /** A group: the inner level runs from after the `(`; its `)` is skipped. */
  lemma ParseGroup(level: nat, tokens: seq<Token>, p: nat, acc: seq<Expr>)
    requires p < |tokens| && WellFormedTokens(tokens) && tokens[p].kind == OPEN_PARENTHESIS
    ensures var inner := ParseSequence(level + 1, tokens, p + 1, []);
      ParseSequence(level, tokens, p, acc) ==
        if inner.Err? then Err(inner.message)
        else if inner.value.0 < |tokens| then ParseSequence(level, tokens, inner.value.0 + 1, acc + [Group(inner.value.1)])
        else Err(EXPECTED_CLOSE)
  {
  }

  lemma HoldsAppend(deque: seq<seq<BasicInstruction>>, acc: seq<Expr>, e: Expr)
    requires Holds(deque, acc)
    ensures Holds(deque + [Emit(e)], acc + [e])
  {
  }

  lemma HoldsReplaceLast(deque: seq<seq<BasicInstruction>>, acc: seq<Expr>, e: Expr)
    requires Holds(deque, acc) && acc != []
    ensures Holds(deque[..|deque| - 1] + [Emit(e)], acc[..|acc| - 1] + [e])
  {
  }

  /** The deque of code lists for a deque of sub-expressions, concatenated. */
  function Lowered(r: Result<(nat, seq<Expr>)>): Result<(nat, seq<BasicInstruction>)>
  {
    if r.Ok? then Ok((r.value.0, EmitAll(r.value.1))) else Err(r.message)
  }

  /** The basic program the constructor builds: the top-level code followed by
      one Success. */
  function Compiled(tokens: seq<Token>): Result<seq<BasicInstruction>>
    requires WellFormedTokens(tokens)
  {
    var top :- ParseSequence(0, tokens, 0, []);
    Ok(EmitAll(top.1) + [BasicSuccess])
  }

  function Flatten(deque: seq<seq<BasicInstruction>>): seq<BasicInstruction>
  {
    if deque == [] then [] else Flatten(deque[..|deque| - 1]) + deque[|deque| - 1]
  }

  /** The loop that appends every list on the deque, in order, to one list. */
  method Concatenate(deque: seq<seq<BasicInstruction>>) returns (all: seq<BasicInstruction>)
    ensures all == Flatten(deque)
  {
    all := [];
    var i := 0;
    while i < |deque|
      invariant i <= |deque|
      invariant all == Flatten(deque[..i])
    {
      assert deque[..i + 1][..i] == deque[..i];
      all := all + deque[i];
      i := i + 1;
    }
    assert deque[..i] == deque;
  }

  /** The deque holds the code of each sub-expression in `acc`. */
  ghost predicate Holds(deque: seq<seq<BasicInstruction>>, acc: seq<Expr>)
  {
    |deque| == |acc| && forall k | 0 <= k < |acc| :: deque[k] == Emit(acc[k])
  }

  lemma {:induction false} FlattenHolds(deque: seq<seq<BasicInstruction>>, acc: seq<Expr>)
    requires Holds(deque, acc)
    ensures Flatten(deque) == EmitAll(acc)
    decreases |acc|
  {
    if acc != [] {
      FlattenHolds(deque[..|deque| - 1], acc[..|acc| - 1]);
    }
  }

  /** The switch arms of `matchExpression` for a literal or a quantifier: a
      literal pushes its code point; a quantifier replaces the last list `E` on
      the deque (`n = |E|`) by `[Fork(n+1)] + E` for `?`, by `[Fork(n+2)] + E +
      [Jump(-(n+1))]` for `*` and by `E + [Fork(-n)]` for `+`; with nothing on
      the deque `pollLast` yields null and the arm fails. */
  method PushExpression(token: Token, deque: seq<seq<BasicInstruction>>, ghost acc: seq<Expr>)
    returns (r: Result<seq<seq<BasicInstruction>>>)
    requires WellFormed(token) && token.kind != OPEN_PARENTHESIS && token.kind != CLOSE_PARENTHESIS
    requires Holds(deque, acc)
    ensures r.Err? <==> IsQuantifier(token.kind) && acc == []
    ensures r.Err? ==> r.message == NULL_POINTER
    ensures r.Ok? ==> Holds(r.value, Apply(token, acc))
  {
    if IsQuantifier(token.kind) {
      r := PushQuantifier(token, deque, acc);
    } else {
      var pushed := PushLiteral(token, deque, acc);
      r := Ok(pushed);
    }
  }

  /** A literal pushes the one instruction matching its code point. */
  method PushLiteral(token: Token, deque: seq<seq<BasicInstruction>>, ghost acc: seq<Expr>)
    returns (r: seq<seq<BasicInstruction>>)
    requires WellFormed(token) && (token.kind == CODE_POINT || token.kind == UNICODE_CODE_POINT)
    requires Holds(deque, acc)
    ensures Holds(r, Apply(token, acc))
  {
    var codePoint;
    if token.kind == CODE_POINT {
      codePoint := token.text[0];
    } else {
      assert forall k | 0 <= k < 4 :: IsHexDigit(token.text[2..][k]);
      codePoint := HexValue(token.text[2..]);
    }
    assert [BasicCodePoint(codePoint)] == Emit(Literal(TokenCodePoint(token)));
    HoldsAppend(deque, acc, Literal(TokenCodePoint(token)));
    r := deque + [[BasicCodePoint(codePoint)]];
  }

  /** A quantifier replaces the last list on the deque; with none, the
      `pollLast` null makes the arm fail. */
  method PushQuantifier(token: Token, deque: seq<seq<BasicInstruction>>, ghost acc: seq<Expr>)
    returns (r: Result<seq<seq<BasicInstruction>>>)
    requires WellFormed(token) && IsQuantifier(token.kind)
    requires Holds(deque, acc)
    ensures r.Err? <==> acc == []
    ensures r.Err? ==> r.message == NULL_POINTER
    ensures r.Ok? ==> Holds(r.value, Apply(token, acc))
  {
    if deque == [] {
      return Err(NULL_POINTER);
    }
    var expression := deque[|deque| - 1];
    assert expression == Emit(acc[|acc| - 1]);
    var front := deque[..|deque| - 1];
    if token.kind == OPTIONAL {
      HoldsReplaceLast(deque, acc, Optional(acc[|acc| - 1]));
      r := Ok(front + [[BasicFork(|expression| + 1)] + expression]);
    } else if token.kind == ZERO_OR_MORE {
      HoldsReplaceLast(deque, acc, ZeroOrMore(acc[|acc| - 1]));
      r := Ok(front + [[BasicFork(|expression| + 2)] + expression + [BasicJump(-(|expression| + 1))]]);
    } else {
      HoldsReplaceLast(deque, acc, OneOrMore(acc[|acc| - 1]));
      r := Ok(front + [expression + [BasicFork(-|expression|)]]);
    }
  }

  /** `matchExpression(level, tokens)`: compiles from position `pos` until the
      end of the tokens or a `)` that closes this level, and returns where it
      stopped together with the single list the deque is reduced to. */
  method MatchExpression(level: nat, tokens: seq<Token>, pos: nat) returns (r: Result<(nat, seq<BasicInstruction>)>)
    requires pos <= |tokens| && WellFormedTokens(tokens)
    ensures r == Lowered(ParseSequence(level, tokens, pos, []))
    decreases |tokens| - pos, 1
  {
    var p := pos;
    var deque: seq<seq<BasicInstruction>> := [];
    ghost var acc: seq<Expr> := [];
    while p < |tokens|
      invariant pos <= p <= |tokens|
      invariant Holds(deque, acc)
      invariant ParseSequence(level, tokens, p, acc) == ParseSequence(level, tokens, pos, [])
      decreases |tokens| - p
    {
      var token := tokens[p];
      if token.kind == OPEN_PARENTHESIS {
        var group;
        ghost var grouped;
        group, grouped := PushGroup(level, tokens, p, deque, acc);
        if group.Err? {
          return Err(group.message);
        }
        deque, acc, p := group.value.1, grouped, group.value.0;
      } else if token.kind == CLOSE_PARENTHESIS {
        ParseExit(level, tokens, p, acc);
        if level == 0 {
          return Err(TOO_MANY_CLOSE);
        }
        r := Reduce(p, deque, acc);
        return;
      } else {
        var next := PushToken(level, tokens, p, deque, acc);
        if next.Err? {
          return Err(next.message);
        }
        deque, acc, p := next.value, Apply(token, acc), p + 1;
      }
    }
    ParseExit(level, tokens, p, acc);
    r := Reduce(p, deque, acc);
  }

  /** The `(` arm of `matchExpression`: the inner level is compiled by a
      recursive call, must stop at a `)`, and its code goes on the deque as
      one list; the result is the position after the `)` and the new deque. */
  method PushGroup(level: nat, tokens: seq<Token>, p: nat, deque: seq<seq<BasicInstruction>>, ghost acc: seq<Expr>)
    returns (r: Result<(nat, seq<seq<BasicInstruction>>)>, ghost grouped: seq<Expr>)
    requires p < |tokens| && WellFormedTokens(tokens) && tokens[p].kind == OPEN_PARENTHESIS
    requires Holds(deque, acc)
    ensures r.Err? ==> Lowered(ParseSequence(level, tokens, p, acc)) == Err(r.message)
    ensures r.Ok? ==> p < r.value.0 <= |tokens| && Holds(r.value.1, grouped)
    ensures r.Ok? ==> ParseSequence(level, tokens, p, acc) == ParseSequence(level, tokens, r.value.0, grouped)
    decreases |tokens| - p, 0
  {
    ghost var inner := ParseSequence(level + 1, tokens, p + 1, []);
    ParseGroup(level, tokens, p, acc);
    var group := MatchExpression(level + 1, tokens, p + 1);
    if group.Err? {
      return Err(group.message), acc;
    }
    if !(group.value.0 < |tokens| && tokens[group.value.0].kind == CLOSE_PARENTHESIS) {
      return Err(EXPECTED_CLOSE), acc;
    }
    assert group.value.1 == Emit(Group(inner.value.1));
    HoldsAppend(deque, acc, Group(inner.value.1));
    r := Ok((group.value.0 + 1, deque + [group.value.1]));
    grouped := acc + [Group(inner.value.1)];
  }

  /** One expression or quantifier token of a level, pushed onto the deque. */
  method PushToken(level: nat, tokens: seq<Token>, p: nat, deque: seq<seq<BasicInstruction>>, ghost acc: seq<Expr>)
    returns (r: Result<seq<seq<BasicInstruction>>>)
    requires p < |tokens| && WellFormedTokens(tokens) && Holds(deque, acc)
    requires tokens[p].kind != OPEN_PARENTHESIS && tokens[p].kind != CLOSE_PARENTHESIS
    ensures r.Err? ==> Lowered(ParseSequence(level, tokens, p, acc)) == Err(r.message)
    ensures r.Ok? ==> (IsQuantifier(tokens[p].kind) ==> acc != [])
    ensures r.Ok? ==> Holds(r.value, Apply(tokens[p], acc))
    ensures r.Ok? ==> ParseSequence(level, tokens, p, acc) == ParseSequence(level, tokens, p + 1, Apply(tokens[p], acc))
  {
    r := PushExpression(tokens[p], deque, acc);
    if r.Err? {
      ParseExit(level, tokens, p, acc);
    } else {
      ParseStep(level, tokens, p, acc);
    }
  }

  /** The end of a level: the deque is concatenated into one list. */
  method Reduce(p: nat, deque: seq<seq<BasicInstruction>>, ghost acc: seq<Expr>) returns (r: Result<(nat, seq<BasicInstruction>)>)
    requires Holds(deque, acc)
    ensures r == Lowered(Ok((p, acc)))
  {
    var all := Concatenate(deque);
    FlattenHolds(deque, acc);
    return Ok((p, all));
  }

  /** The successors of `b` at `pc` lie in `lo..hi`. */
  predicate FitsIn(b: BasicInstruction, pc: int, lo: int, hi: int)
  {
    match b
    case BasicCodePoint(_) => lo <= pc + 1 <= hi
    case BasicFork(d) => lo <= pc + 1 <= hi && lo <= pc + d <= hi
    case BasicJump(d) => lo <= pc + d <= hi
    case BasicSuccess => true
  }

  lemma FitsInMeans(b: BasicInstruction, pc: int, lo: int, hi: int)
    ensures FitsIn(b, pc, lo, hi) <==> forall q | q in NextProgramCounters(b, pc) :: lo <= q <= hi
  {
    match b
    case BasicCodePoint(_) => assert pc + 1 in NextProgramCounters(b, pc);
    case BasicFork(d) =>
      assert pc + 1 in NextProgramCounters(b, pc);
      assert pc + d in NextProgramCounters(b, pc);
    case BasicJump(d) => assert pc + d in NextProgramCounters(b, pc);
    case BasicSuccess =>
  }

  /** Code that only branches inside itself or to just past its end. */
  ghost predicate Closed(code: seq<BasicInstruction>)
  {
    forall pc | 0 <= pc < |code| :: FitsIn(code[pc], pc, 0, |code|)
  }

  /** Closed code placed after `pre` branches within its own slots. */
  lemma Embed(pre: seq<BasicInstruction>, code: seq<BasicInstruction>, post: seq<BasicInstruction>)
    requires Closed(code)
    ensures forall pc | |pre| <= pc < |pre| + |code| ::
      (pre + code + post)[pc] == code[pc - |pre|] && FitsIn((pre + code + post)[pc], pc, |pre|, |pre| + |code|)
  {
    forall pc | |pre| <= pc < |pre| + |code|
      ensures (pre + code + post)[pc] == code[pc - |pre|]
      ensures FitsIn((pre + code + post)[pc], pc, |pre|, |pre| + |code|)
    {
      assert FitsIn(code[pc - |pre|], pc - |pre|, 0, |code|);
    }
  }

  /** Every compiled sub-expression is closed and holds no Success. */
  lemma {:induction false} EmitShape(e: Expr)
    ensures Closed(Emit(e)) && BasicSuccess !in Emit(e)
    decreases e, 1
  {
    match e
    case Literal(_) =>
    case Optional(b) =>
      EmitShape(b);
      OptionalClosed(Emit(b));
    case ZeroOrMore(b) =>
      EmitShape(b);
      ZeroOrMoreClosed(Emit(b));
    case OneOrMore(b) =>
      EmitShape(b);
      OneOrMoreClosed(Emit(b));
    case Group(items) =>
      EmitAllShape(items);
  }

  lemma OptionalClosed(code: seq<BasicInstruction>)
    requires Closed(code) && BasicSuccess !in code
    ensures var wrapped := [BasicFork(|code| + 1)] + code;
      Closed(wrapped) && BasicSuccess !in wrapped
  {
    Embed([BasicFork(|code| + 1)], code, []);
    assert [BasicFork(|code| + 1)] + code + [] == [BasicFork(|code| + 1)] + code;
  }

  lemma ZeroOrMoreClosed(code: seq<BasicInstruction>)
    requires Closed(code) && BasicSuccess !in code
    ensures var wrapped := [BasicFork(|code| + 2)] + code + [BasicJump(-(|code| + 1))];
      Closed(wrapped) && BasicSuccess !in wrapped
  {
    Embed([BasicFork(|code| + 2)], code, [BasicJump(-(|code| + 1))]);
  }

  lemma OneOrMoreClosed(code: seq<BasicInstruction>)
    requires Closed(code) && BasicSuccess !in code
    ensures var wrapped := code + [BasicFork(-|code|)];
      Closed(wrapped) && BasicSuccess !in wrapped
  {
    Embed([], code, [BasicFork(-|code|)]);
    assert [] + code + [BasicFork(-|code|)] == code + [BasicFork(-|code|)];
  }

  lemma {:induction false} EmitAllShape(items: seq<Expr>)
    ensures Closed(EmitAll(items)) && BasicSuccess !in EmitAll(items)
    decreases items, 0
  {
    if items != [] {
      var front := EmitAll(items[..|items| - 1]);
      var last := Emit(items[|items| - 1]);
      EmitAllShape(items[..|items| - 1]);
      EmitShape(items[|items| - 1]);
      Embed([], front, last);
      Embed(front, last, []);
      assert [] + front + last == front + last + [] == EmitAll(items);
    }
  }

  /** The instructions a token contributes: one per literal, `?` and `+`, two
      per `*`, none per parenthesis. */
  function Weight(t: Token): nat
  {
    match t.kind
    case ZERO_OR_MORE => 2
    case OPEN_PARENTHESIS => 0
    case CLOSE_PARENTHESIS => 0
    case _ => 1
  }

  function TotalWeight(tokens: seq<Token>): nat
  {
    if tokens == [] then 0 else Weight(tokens[0]) + TotalWeight(tokens[1..])
  }

  lemma {:induction false} TotalWeightSplit(tokens: seq<Token>, a: nat, b: nat, c: nat)
    requires a <= b <= c <= |tokens|
    ensures TotalWeight(tokens[a..c]) == TotalWeight(tokens[a..b]) + TotalWeight(tokens[b..c])
    decreases b - a
  {
    if a < b {
      assert tokens[a..c][1..] == tokens[a + 1..c];
      assert tokens[a..b][1..] == tokens[a + 1..b];
      TotalWeightSplit(tokens, a + 1, b, c);
    } else {
      assert tokens[a..b] == [];
    }
  }

  lemma TotalWeightOne(tokens: seq<Token>, a: nat)
    requires a < |tokens|
    ensures TotalWeight(tokens[a..a + 1]) == Weight(tokens[a])
  {
    assert tokens[a..a + 1][1..] == [];
  }

  /** The code a level compiles grows by exactly the weight of the tokens it
      consumed. */
  lemma {:induction false} ParseWeight(level: nat, tokens: seq<Token>, pos: nat, acc: seq<Expr>)
    requires pos <= |tokens| && WellFormedTokens(tokens)
    requires ParseSequence(level, tokens, pos, acc).Ok?
    ensures var r := ParseSequence(level, tokens, pos, acc).value;
      |EmitAll(r.1)| == |EmitAll(acc)| + TotalWeight(tokens[pos..r.0])
    decreases |tokens| - pos, 1
  {
    ParseExit(level, tokens, pos, acc);
    if pos == |tokens| || tokens[pos].kind == CLOSE_PARENTHESIS {
      assert tokens[pos..pos] == [];
    } else if tokens[pos].kind == OPEN_PARENTHESIS {
      ParseWeightGroup(level, tokens, pos, acc);
    } else {
      ParseWeightStep(level, tokens, pos, acc);
    }
  }

  lemma {:induction false} ParseWeightGroup(level: nat, tokens: seq<Token>, pos: nat, acc: seq<Expr>)
    requires pos < |tokens| && WellFormedTokens(tokens) && tokens[pos].kind == OPEN_PARENTHESIS
    requires ParseSequence(level, tokens, pos, acc).Ok?
    ensures var r := ParseSequence(level, tokens, pos, acc).value;
      |EmitAll(r.1)| == |EmitAll(acc)| + TotalWeight(tokens[pos..r.0])
    decreases |tokens| - pos, 0
  {
    ParseGroupOk(level, tokens, pos, acc);
    var inner := ParseSequence(level + 1, tokens, pos + 1, []).value;
    var grouped := acc + [Group(inner.1)];
    var r := ParseSequence(level, tokens, inner.0 + 1, grouped).value;
    ParseWeight(level + 1, tokens, pos + 1, []);
    ParseWeight(level, tokens, inner.0 + 1, grouped);
    GroupWeightSum(tokens, pos, inner.0, r.0, acc, inner.1, r.1);
  }

  /** The weights of a group's two halves, added up. */
  lemma GroupWeightSum(tokens: seq<Token>, open: nat, close: nat, end: nat,
                       acc: seq<Expr>, body: seq<Expr>, all: seq<Expr>)
    requires open < close < end <= |tokens|
    requires tokens[open].kind == OPEN_PARENTHESIS && tokens[close].kind == CLOSE_PARENTHESIS
    requires |EmitAll(body)| == |EmitAll([])| + TotalWeight(tokens[open + 1..close])
    requires |EmitAll(all)| == |EmitAll(acc + [Group(body)])| + TotalWeight(tokens[close + 1..end])
    ensures |EmitAll(all)| == |EmitAll(acc)| + TotalWeight(tokens[open..end])
  {
    GroupWeight(tokens, open, close, end);
    EmitAllGroup(acc, body);
  }

  /** A group that compiles: the inner level stops at its `)`, and the outer
      level carries on after it. */
  lemma ParseGroupOk(level: nat, tokens: seq<Token>, pos: nat, acc: seq<Expr>)
    requires pos < |tokens| && WellFormedTokens(tokens) && tokens[pos].kind == OPEN_PARENTHESIS
    requires ParseSequence(level, tokens, pos, acc).Ok?
    ensures var inner := ParseSequence(level + 1, tokens, pos + 1, []);
      && inner.Ok? && inner.value.0 < |tokens|
      && ParseSequence(level, tokens, inner.value.0 + 1, acc + [Group(inner.value.1)]) == ParseSequence(level, tokens, pos, acc)
  {
    ParseGroup(level, tokens, pos, acc);
  }

  lemma EmitAllGroup(acc: seq<Expr>, body: seq<Expr>)
    ensures EmitAll(acc + [Group(body)]) == EmitAll(acc) + EmitAll(body)
  {
    assert (acc + [Group(body)])[..|acc|] == acc;
  }


  lemma {:induction false} ParseWeightStep(level: nat, tokens: seq<Token>, pos: nat, acc: seq<Expr>)
    requires pos < |tokens| && WellFormedTokens(tokens)
    requires tokens[pos].kind != OPEN_PARENTHESIS && tokens[pos].kind != CLOSE_PARENTHESIS
    requires ParseSequence(level, tokens, pos, acc).Ok?
    ensures var r := ParseSequence(level, tokens, pos, acc).value;
      |EmitAll(r.1)| == |EmitAll(acc)| + TotalWeight(tokens[pos..r.0])
    decreases |tokens| - pos, 0
  {
    ParseExit(level, tokens, pos, acc);
    ParseStep(level, tokens, pos, acc);
    var r := ParseSequence(level, tokens, pos, acc).value;
    var next := Apply(tokens[pos], acc);
    ParseWeight(level, tokens, pos + 1, next);
    TotalWeightSplit(tokens, pos, pos + 1, r.0);
    TotalWeightOne(tokens, pos);
    ApplyWeight(tokens[pos], acc);
  }

  lemma ApplyWeight(t: Token, acc: seq<Expr>)
    requires WellFormed(t) && t.kind != OPEN_PARENTHESIS && t.kind != CLOSE_PARENTHESIS
    requires IsQuantifier(t.kind) ==> acc != []
    ensures |EmitAll(Apply(t, acc))| == |EmitAll(acc)| + Weight(t)
  {
    var next := Apply(t, acc);
    if IsQuantifier(t.kind) {
      assert next[..|next| - 1] == acc[..|acc| - 1];
    } else {
      assert next[..|next| - 1] == acc;
    }
  }

  lemma GroupWeight(tokens: seq<Token>, open: nat, close: nat, end: nat)
    requires open < close < end <= |tokens|
    requires tokens[open].kind == OPEN_PARENTHESIS && tokens[close].kind == CLOSE_PARENTHESIS
    ensures TotalWeight(tokens[open..end]) == TotalWeight(tokens[open + 1..close]) + TotalWeight(tokens[close + 1..end])
  {
    TotalWeightSplit(tokens, open, open + 1, end);
    TotalWeightSplit(tokens, open + 1, close, end);
    TotalWeightSplit(tokens, close, close + 1, end);
    TotalWeightOne(tokens, open);
    TotalWeightOne(tokens, close);
  }

  /** The compiled basic program: its length is the weight of the tokens plus
      one, it ends in its only Success, and every successor of every
      instruction is an index of the program. */
  lemma CompiledShape(tokens: seq<Token>)
    requires WellFormedTokens(tokens) && Compiled(tokens).Ok?
    ensures var prog := Compiled(tokens).value;
      && |prog| == TotalWeight(tokens) + 1
      && prog[|prog| - 1] == BasicSuccess
      && (forall k | 0 <= k < |prog| - 1 :: prog[k] != BasicSuccess)
      && (forall pc, q | 0 <= pc < |prog| && q in NextProgramCounters(prog[pc], pc) :: 0 <= q < |prog|)
  {
    var top := ParseSequence(0, tokens, 0, []).value;
    var code := EmitAll(top.1);
    var prog := code + [BasicSuccess];
    ParseWeight(0, tokens, 0, []);
    assert tokens[0..top.0] == tokens;
    EmitAllShape(top.1);
    forall k | 0 <= k < |prog| - 1
      ensures prog[k] != BasicSuccess
    {
      assert prog[k] == code[k];
    }
    forall pc, q | 0 <= pc < |prog| && q in NextProgramCounters(prog[pc], pc)
      ensures 0 <= q < |prog|
    {
      if pc < |code| {
        assert prog[pc] == code[pc];
        FitsInMeans(code[pc], pc, 0, |code|);
      }
    }
  }
}
