/** `regex3.Regex.Builder`: the combinators that lay out a program. Every
    offset is relative to the instruction that carries it, so a program whose
    targets stay inside it can be pasted anywhere. */
module Regex3Builder {
  import opened Wrappers
  import Utf16
  import opened JavaStrings
  import opened Regex3CodePoint
  import Regex3CodePoints
  import opened Regex3Instruction
  import Regex3Vm

  type Program = seq<Instruction>

  // ---------------------------------------------------------------------
  // Layouts
  // ---------------------------------------------------------------------

  /** Every target of `p`'s instructions, with `p` placed at `base` in a
      program of length `total`, lies inside that program or just past its
      end: Single and Range move on to `pc+1`, Fork to `pc+1` and
      `pc+offset`, Jump to `pc+offset`. */
  ghost predicate Fits(p: Program, base: nat, total: nat)
  {
    forall pc | 0 <= pc < |p| :: FitsAt(p[pc], base + pc, total)
  }

  /** The targets of instruction `i` at `at` lie in `0..total`. */
  ghost predicate FitsAt(i: Instruction, at: int, total: nat)
  {
    && at + 1 <= total
    && (i.Fork? || i.Jump? ==> 0 <= at + i.offset <= total)
  }

  /** Every target stays inside the program or just past its end. */
  ghost predicate Closed(p: Program)
  {
    Fits(p, 0, |p|)
  }

  /** Every target lies inside the program, so a thread never leaves it. */
  ghost predicate WellFormed(p: Program)
  {
    forall pc | 0 <= pc < |p| ::
      && (!p[pc].Success? && !p[pc].Jump? ==> pc + 1 < |p|)
      && (p[pc].Fork? || p[pc].Jump? ==> 0 <= pc + p[pc].offset < |p|)
  }

  lemma FitsConcat(a: Program, b: Program, base: nat, total: nat)
    requires Fits(a, base, total) && Fits(b, base + |a|, total)
    ensures Fits(a + b, base, total)
  {
    var p := a + b;
    forall pc | 0 <= pc < |p|
      ensures FitsAt(p[pc], base + pc, total)
    {
      if pc >= |a| {
        assert p[pc] == b[pc - |a|];
        assert FitsAt(b[pc - |a|], base + |a| + (pc - |a|), total);
      } else {
        assert p[pc] == a[pc];
      }
    }
  }

  /** Offsets are relative: a closed program fits wherever it is placed. */
  lemma FitsShift(p: Program, base: nat, total: nat)
    requires Closed(p) && base + |p| <= total
    ensures Fits(p, base, total)
  {
  }

  /** Pasting closed programs one after the other keeps them closed. */
  lemma ClosedConcat(a: Program, b: Program)
    requires Closed(a) && Closed(b)
    ensures Closed(a + b)
  {
    FitsShift(a, 0, |a + b|);
    FitsShift(b, |a|, |a + b|);
    FitsConcat(a, b, 0, |a + b|);
  }

  /** A closed program followed by Success is well formed. */
  lemma ClosedThenSuccess(p: Program)
    requires Closed(p)
    ensures WellFormed(p + [Success])
  {
    forall pc | 0 <= pc < |p + [Success]|
      ensures !(p + [Success])[pc].Success? && !(p + [Success])[pc].Jump? ==> pc + 1 < |p + [Success]|
      ensures (p + [Success])[pc].Fork? || (p + [Success])[pc].Jump? ==> 0 <= pc + (p + [Success])[pc].offset < |p + [Success]|
    {
      if pc < |p| {
        assert (p + [Success])[pc] == p[pc];
      }
    }
  }

  /** `optional(E)`: a Fork past `E`, then `E`. */
  function OptionalOf(e: Program): (p: Program)
    ensures |p| == |e| + 1 && p[0] == Fork(|e| + 1) && p[1..] == e
  {
    [Fork(|e| + 1)] + e
  }

  /** Both ways out of the Fork of `optional(E)` stay in the layout: into `E`,
      or just past it. */
  lemma OptionalClosed(e: Program)
    requires Closed(e)
    ensures Closed(OptionalOf(e))
    ensures 0 + OptionalOf(e)[0].offset == |OptionalOf(e)|
  {
    var total := |e| + 1;
    assert Fits([Fork(|e| + 1)], 0, total);
    FitsShift(e, 1, total);
    FitsConcat([Fork(|e| + 1)], e, 0, total);
  }

  /** `zeroOrMore(E)`: a Fork past the loop, `E`, and a Jump back to the Fork. */
  function ZeroOrMoreOf(e: Program): (p: Program)
    ensures |p| == |e| + 2 && p[0] == Fork(|e| + 2) && p[1..|e| + 1] == e
    ensures p[|e| + 1] == Jump(-(|e| + 1))
  {
    [Fork(|e| + 2)] + e + [Jump(-(|e| + 1))]
  }

  /** The Fork leaves the loop just past its end; the Jump lands on the Fork. */
  lemma ZeroOrMoreClosed(e: Program)
    requires Closed(e)
    ensures Closed(ZeroOrMoreOf(e))
    ensures 0 + ZeroOrMoreOf(e)[0].offset == |ZeroOrMoreOf(e)|
    ensures (|e| + 1) + ZeroOrMoreOf(e)[|e| + 1].offset == 0
  {
    var total := |e| + 2;
    assert Fits([Fork(|e| + 2)], 0, total);
    FitsShift(e, 1, total);
    FitsConcat([Fork(|e| + 2)], e, 0, total);
    assert Fits([Jump(-(|e| + 1))], |e| + 1, total);
    FitsConcat([Fork(|e| + 2)] + e, [Jump(-(|e| + 1))], 0, total);
  }

  /** `firstOf(r1, ..., rk)`: each alternative but the last is guarded by a
      Fork that skips it and followed by a Jump to the end of the construct;
      the last alternative closes it. */
  function Alternatives(ps: seq<Program>): Program
    requires |ps| >= 1
  {
    if |ps| == 1 then ps[0]
    else
      var rest := Alternatives(ps[1..]);
      [Fork(|ps[0]| + 2)] + ps[0] + [Jump(|rest| + 1)] + rest
  }

  /** The sum of the alternatives' lengths. */
  function TotalLength(ps: seq<Program>): nat
  {
    if ps == [] then 0 else |ps[0]| + TotalLength(ps[1..])
  }

  /** The construct is Σ|ri| + 2(k-1) long. */
  lemma {:induction false} AlternativesLength(ps: seq<Program>)
    requires |ps| >= 1
    ensures |Alternatives(ps)| == TotalLength(ps) + 2 * (|ps| - 1)
  {
    if |ps| > 1 {
      AlternativesLength(ps[1..]);
    }
  }

  /** Where alternative `i`'s Fork stands in the construct. */
  function Start(ps: seq<Program>, i: nat): nat
    requires i < |ps|
  {
    if i == 0 then 0 else |ps[0]| + 2 + Start(ps[1..], i - 1)
  }

  /** Past the first alternative's Fork, body and Jump come the others. */
  lemma AlternativesAt(ps: seq<Program>, x: nat)
    requires |ps| >= 2 && x < |Alternatives(ps[1..])|
    ensures |ps[0]| + 2 + x < |Alternatives(ps)|
    ensures Alternatives(ps)[|ps[0]| + 2 + x] == Alternatives(ps[1..])[x]
  {
    var rest := Alternatives(ps[1..]);
    var head := [Fork(|ps[0]| + 2)] + ps[0] + [Jump(|rest| + 1)];
    assert Alternatives(ps) == head + rest;
  }

  /** The layout of `firstOf`: every alternative but the last starts with a
      Fork that skips the alternative and its Jump, and ends with a Jump that
      lands exactly at the end of the construct. */
  lemma {:induction false} AlternativesGuards(ps: seq<Program>, i: nat)
    requires |ps| >= 2 && i < |ps| - 1
    ensures var p, s := Alternatives(ps), Start(ps, i);
      && s + |ps[i]| + 2 <= |p|
      && p[s] == Fork(|ps[i]| + 2)
      && p[s + 1 + |ps[i]|].Jump?
      && (s + 1 + |ps[i]|) + p[s + 1 + |ps[i]|].offset == |p|
  {
    var p, rest := Alternatives(ps), Alternatives(ps[1..]);
    var n := |ps[0]|;
    var head := [Fork(n + 2)] + ps[0] + [Jump(|rest| + 1)];
    assert p == head + rest;
    if i == 0 {
      assert p[n + 1] == head[n + 1];
    } else {
      AlternativesGuards(ps[1..], i - 1);
      var s := Start(ps[1..], i - 1);
      assert ps[1..][i - 1] == ps[i];
      AlternativesAt(ps, s);
      AlternativesAt(ps, s + 1 + |ps[i]|);
    }
  }

  /** A construct of closed alternatives is closed. */
  lemma {:induction false} AlternativesClosed(ps: seq<Program>)
    requires |ps| >= 1 && forall i | 0 <= i < |ps| :: Closed(ps[i])
    ensures Closed(Alternatives(ps))
  {
    if |ps| > 1 {
      var rest := Alternatives(ps[1..]);
      AlternativesClosed(ps[1..]);
      var n := |ps[0]|;
      var total := n + 2 + |rest|;
      assert Fits([Fork(n + 2)], 0, total);
      FitsShift(ps[0], 1, total);
      FitsConcat([Fork(n + 2)], ps[0], 0, total);
      assert Fits([Jump(|rest| + 1)], n + 1, total);
      FitsConcat([Fork(n + 2)] + ps[0], [Jump(|rest| + 1)], 0, total);
      FitsShift(rest, n + 2, total);
      FitsConcat([Fork(n + 2)] + ps[0] + [Jump(|rest| + 1)], rest, 0, total);
    }
  }

  /** One Single per code point. */
  function Singles(cps: seq<int>): (p: Program)
    ensures |p| == |cps| && forall k | 0 <= k < |cps| :: p[k] == Single(CodePoint(cps[k]))
  {
    seq(|cps|, k requires 0 <= k < |cps| => Single(CodePoint(cps[k])))
  }

  /** The code points before the first one `CodePoint.of` refuses. */
  function DefinedPrefix(cps: seq<int>): (r: seq<int>)
    ensures r <= cps
    ensures forall k | 0 <= k < |r| :: IsDefined(r[k])
    ensures |r| < |cps| ==> !IsDefined(cps[|r|])
  {
    if cps == [] || !IsDefined(cps[0]) then [] else [cps[0]] + DefinedPrefix(cps[1..])
  }

  lemma SinglesClosed(cps: seq<int>)
    ensures Closed(Singles(cps))
  {
  }

  /** The programs of a list of builders, as they stand. */
  ghost function Programs(builders: seq<Builder>): (ps: seq<Program>)
    reads set i | 0 <= i < |builders| :: builders[i]
    ensures |ps| == |builders| && forall i | 0 <= i < |builders| :: ps[i] == builders[i].program
  {
    if builders == [] then [] else [builders[0].program] + Programs(builders[1..])
  }

  /** The arguments of `concat` as seen by `self`: another builder's program,
      or `None` for `self`. */
  ghost function Parts(self: Builder, builders: seq<Builder>): (parts: seq<Option<Program>>)
    reads set i | 0 <= i < |builders| :: builders[i]
    ensures |parts| == |builders|
    ensures forall i | 0 <= i < |builders| :: parts[i] == if builders[i] == self then None else Some(builders[i].program)
  {
    if builders == [] then []
    else [if builders[0] == self then None else Some(builders[0].program)] + Parts(self, builders[1..])
  }

  /** What `concat` leaves in `program`, starting from `start`: each argument
      appends the program it holds at that moment, so the receiver itself
      (`None`) appends everything so far. */
  function Concatenation(start: Program, parts: seq<Option<Program>>): Program
  {
    if parts == [] then start
    else
      var before := Concatenation(start, parts[..|parts| - 1]);
      before + (if parts[|parts| - 1].Some? then parts[|parts| - 1].value else before)
  }

  /** The concatenation of a list of programs. */
  function Concat(ps: seq<Program>): Program
  {
    if ps == [] then [] else Concat(ps[..|ps| - 1]) + ps[|ps| - 1]
  }

  /** Without the receiver among the arguments, `concat` appends the
      arguments' programs in argument order. */
  lemma {:induction false} ConcatenationOfOthers(start: Program, ps: seq<Program>)
    ensures Concatenation(start, seq(|ps|, i requires 0 <= i < |ps| => Some(ps[i]))) == start + Concat(ps)
  {
    if ps != [] {
      var parts := seq(|ps|, i requires 0 <= i < |ps| => Some(ps[i]));
      var init := ps[..|ps| - 1];
      ConcatenationOfOthers(start, init);
      assert parts[..|ps| - 1] == seq(|init|, i requires 0 <= i < |init| => Some(init[i]));
    }
  }

  lemma {:induction false} ConcatClosed(ps: seq<Program>)
    requires forall i | 0 <= i < |ps| :: Closed(ps[i])
    ensures Closed(Concat(ps))
  {
    if ps != [] {
      ConcatClosed(ps[..|ps| - 1]);
      ClosedConcat(Concat(ps[..|ps| - 1]), ps[|ps| - 1]);
    }
  }

  /** `concat` of closed programs, the receiver's included, is closed. */
  lemma {:induction false} ConcatenationClosed(start: Program, parts: seq<Option<Program>>)
    requires Closed(start) && forall i | 0 <= i < |parts| :: parts[i].Some? ==> Closed(parts[i].value)
    ensures Closed(Concatenation(start, parts))
  {
    if parts != [] {
      var before := Concatenation(start, parts[..|parts| - 1]);
      ConcatenationClosed(start, parts[..|parts| - 1]);
      ClosedConcat(before, (if parts[|parts| - 1].Some? then parts[|parts| - 1].value else before));
    }
  }

  // ---------------------------------------------------------------------
  // The builder
  // ---------------------------------------------------------------------

  class Builder {
    var program: Program

    constructor()
      ensures program == [] && Closed(program)
    {
      program := [];
    }

    /** `codePoint(char)`: a surrogate is refused. */
    method CodePointChar(ch: Utf16.CodeUnit) returns (r: Result<Builder>)
      modifies this
      ensures r.Ok? <==> !Utf16.IsSurrogate(ch)
      ensures r.Ok? ==> r.value == this && program == old(program) + [Single(CodePoint(ch))]
      ensures r.Err? ==> r.message == "Invalid code point: " + UnitText(ch) + " is a surrogate." && program == old(program)
    {
      var codePoint :- OfChar(ch);
      var self := CodePointValue(codePoint);
      return Ok(self);
    }

    /** `codePoint(high, low)`: only a surrogate pair is accepted. */
    method CodePointPair(highSurrogate: Utf16.CodeUnit, lowSurrogate: Utf16.CodeUnit) returns (r: Result<Builder>)
      modifies this
      ensures r.Ok? <==> Utf16.IsHighSurrogate(highSurrogate) && Utf16.IsLowSurrogate(lowSurrogate)
      ensures r.Ok? ==> r.value == this && program == old(program) + [Single(CodePoint(Utf16.ToCodePoint(highSurrogate, lowSurrogate)))]
      ensures r.Err? ==> r.message == OfPair(highSurrogate, lowSurrogate).message && program == old(program)
    {
      var codePoint :- OfPair(highSurrogate, lowSurrogate);
      var self := CodePointValue(codePoint);
      return Ok(self);
    }

    /** `codePoint(CodePoint)`: one Single, any code point, EOF included. */
    method CodePointValue(codePoint: CodePoint) returns (r: Builder)
      modifies this
      ensures r == this && program == old(program) + [Single(codePoint)]
    {
      program := program + [Single(codePoint)];
      return this;
    }

    /** `codePoints(CodePoints)`: one Range over the set's members. A built set
        is never empty: `build` refuses an empty one and `and` only adds. */
    method CodePointSet(codePoints: Regex3CodePoints.CodePoints) returns (r: Builder)
      requires codePoints.value.bits != {}
      modifies this
      ensures r == this && program == old(program) + [Range(codePoints.value.bits)]
    {
      program := program + [Range(codePoints.value.bits)];
      return this;
    }

    /** `codePoints(CodePoints.Builder)`: builds the set first, which fails
        when it is empty. */
    method CodePointSetBuilder(codePoints: Regex3CodePoints.Builder) returns (r: Result<Builder>)
      modifies this
      ensures r.Ok? <==> codePoints.codePoints.bits != {}
      ensures r.Ok? ==> r.value == this && program == old(program) + [Range(codePoints.codePoints.bits)]
      ensures r.Err? ==> r.message == Regex3CodePoints.EMPTY_CODE_POINTS && program == old(program)
    {
      var built :- codePoints.Build();
      var self := CodePointSet(built);
      return Ok(self);
    }

    /** `text(s)`: one Single per code point of `s`, in order. A code point
        `CodePoint.of` refuses stops the walk with the earlier ones already
        added. */
    method Text(text: Regex3Vm.Text) returns (r: Result<Builder>)
      modifies this
      ensures r.Ok? <==> AllDefined(CodePointsOf(text))
      ensures program == old(program) + Singles(DefinedPrefix(CodePointsOf(text)))
      ensures r.Ok? ==> r.value == this
      ensures r.Err? ==> var cps := CodePointsOf(text);
        |DefinedPrefix(cps)| < |cps| && r.message == InvalidValue(cps[|DefinedPrefix(cps)|])
    {
      TextWalk(text, 0, program);
      assert text[0..] == text;
      var index := 0;
      while index < |text|
        invariant 0 <= index <= |text|
        invariant TextFrom(text, index, program) == TextFrom(text, 0, old(program))
        decreases |text| - index
      {
        var codePoint := CodePointAt(text, index);
        var checked := OfInt(codePoint);
        if checked.Err? {
          return Err(checked.message);
        }
        program := program + [Single(checked.value)];
        index := index + CharCount(codePoint);
      }
      return Ok(this);
    }

    /** `concat(regexs...)`: each argument's program in argument order. */
    method Concat(regexs: seq<Builder>) returns (r: Builder)
      modifies this
      ensures r == this && program == Concatenation(old(program), old(Parts(this, regexs)))
    {
      ghost var parts := Parts(this, regexs);
      var i := 0;
      while i < |regexs|
        invariant 0 <= i <= |regexs|
        invariant forall k | 0 <= k < |regexs| :: regexs[k] != this ==> regexs[k].program == old(regexs[k].program)
        invariant program == Concatenation(old(program), parts[..i])
      {
        assert parts[..i + 1][..i] == parts[..i];
        program := program + regexs[i].program;
        i := i + 1;
      }
      assert parts[..i] == parts;
      return this;
    }

    /** `optional(regex)`: `[Fork(|E|+1)] ++ E`. The size is read before the
        Fork is added; when `regex` is this builder, `E` then includes it. */
    method Optional(regex: Builder) returns (r: Builder)
      modifies this
      ensures r == this
      ensures regex != this ==> program == old(program) + OptionalOf(regex.program)
      ensures regex == this ==> var e := old(program);
        program == e + [Fork(|e| + 1)] + e + [Fork(|e| + 1)]
    {
      var size := |regex.program|;
      program := program + [Fork(size + 1)];
      program := program + regex.program;
      return this;
    }

    /** `zeroOrMore(regex)`: `[Fork(|E|+2)] ++ E ++ [Jump(-(|E|+1))]`. The size
        is read again for the Jump, so a builder looping over itself gets the
        longer Jump. */
    method ZeroOrMore(regex: Builder) returns (r: Builder)
      modifies this
      ensures r == this
      ensures regex != this ==> program == old(program) + ZeroOrMoreOf(regex.program)
      ensures regex == this ==> var e := old(program);
        program == e + [Fork(|e| + 2)] + e + [Fork(|e| + 2)] + [Jump(-(2 * |e| + 3))]
    {
      program := program + [Fork(|regex.program| + 2)];
      program := program + regex.program;
      program := program + [Jump(-(|regex.program| + 1))];
      return this;
    }

    /** `firstOf(first, second, regexs...)`: the offset of the first Jump is
        computed up front, and each round lowers it by the next alternative's
        length plus its Fork and Jump. */
    method FirstOf(firstRegex: Builder, secondRegex: Builder, regexs: seq<Builder>) returns (r: Builder)
      requires firstRegex != this && secondRegex != this && forall i | 0 <= i < |regexs| :: regexs[i] != this
      modifies this
      ensures r == this
      ensures program == old(program) + Alternatives(old(Programs([firstRegex, secondRegex] + regexs)))
    {
      var builders := [firstRegex, secondRegex] + regexs;
      var ps := ProgramsOf(builders);
      assert ps == old(Programs(builders));
      var jumpOffset := FirstJumpOffset(secondRegex, regexs);
      assert ps[1..] == Programs([secondRegex] + regexs);
      RoundsBuildAlternatives(ps, 0, program);
      assert ps[0..] == ps;
      var next := 2;
      while true
        invariant 2 <= next <= |ps|
        invariant Rounds(ps, next - 2, jumpOffset, program) == old(program) + Alternatives(ps)
        decreases |ps| - next
      {
        RoundsStep(ps, next - 2, jumpOffset, program);
        Guard(ps[next - 2], jumpOffset);
        jumpOffset := jumpOffset - (2 + |ps[next - 1]|);
        if next == |ps| {
          break;
        }
        next := next + 1;
      }
      program := program + ps[next - 1];
      return this;
    }

    /** The programs of the alternatives, as `firstOf` reads them: none of
        them is the builder being extended, so they stay as they are. */
    static method ProgramsOf(builders: seq<Builder>) returns (ps: seq<Program>)
      ensures |ps| == |builders| && forall i | 0 <= i < |builders| :: ps[i] == builders[i].program
    {
      ps := [];
      var i := 0;
      while i < |builders|
        invariant i <= |builders|
        invariant |ps| == i && forall k | 0 <= k < i :: ps[k] == builders[k].program
      {
        ps := ps + [builders[i].program];
        i := i + 1;
      }
    }

    /** One round of `firstOf`: the Fork that skips `regex`, `regex`, and the
        Jump past the construct. */
    method Guard(regex: Program, jumpOffset: int)
      modifies this
      ensures program == old(program) + ([Fork(|regex| + 2)] + regex + [Jump(jumpOffset)])
    {
      program := program + [Fork(|regex| + 2)];
      program := program + regex;
      program := program + [Jump(jumpOffset)];
    }

    /** The loop of `firstOf` that sizes its first Jump: it lands past the
        second alternative and every later one with its Fork and Jump. */
    static method FirstJumpOffset(secondRegex: Builder, regexs: seq<Builder>) returns (jumpOffset: int)
      ensures jumpOffset == |Alternatives(Programs([secondRegex] + regexs))| + 1
    {
      ghost var ps := Programs([secondRegex] + regexs);
      jumpOffset := |secondRegex.program| + 1;
      var j := 0;
      while j < |regexs|
        invariant 0 <= j <= |regexs|
        invariant jumpOffset == |Alternatives(ps[..j + 1])| + 1
      {
        AlternativesSnoc(ps[..j + 2]);
        assert ps[..j + 2][..j + 1] == ps[..j + 1];
        jumpOffset := jumpOffset + |regexs[j].program| + 2;
        j := j + 1;
      }
      assert ps[..j + 1] == ps;
    }

    /** `build()`: appends the one Success and freezes the program. A closed
        program becomes a well-formed one. */
    method Build() returns (r: Regex3Vm.Regex)
      modifies this
      ensures program == old(program) + [Success]
      ensures fresh(r) && r.program == program
      ensures Closed(old(program)) ==> WellFormed(r.program)
    {
      if Closed(program) {
        ClosedThenSuccess(program);
      }
      program := program + [Success];
      r := new Regex3Vm.Regex(program);
    }
  }

  /** The rest of `text(s)` from `index`, with `program` built so far: the
      code point it refuses, if any, and the program it leaves. */
  ghost function TextFrom(text: Regex3Vm.Text, index: nat, program: Program): (Option<int>, Program)
    requires index <= |text|
    decreases |text| - index
  {
    if index == |text| then (None, program)
    else
      var codePoint := CodePointAt(text, index);
      if !IsDefined(codePoint) then (Some(codePoint), program)
      else TextFrom(text, index + CharCount(codePoint), program + [Single(CodePoint(codePoint))])
  }

  /** Every code point in `cps` is one `CodePoint.of` accepts. */
  ghost predicate AllDefined(cps: seq<int>)
  {
    forall k | 0 <= k < |cps| :: IsDefined(cps[k])
  }

  lemma ConsAllDefined(codePoint: int, rest: seq<int>)
    ensures AllDefined([codePoint] + rest) <==> IsDefined(codePoint) && AllDefined(rest)
  {
    var cps := [codePoint] + rest;
    if IsDefined(codePoint) && AllDefined(rest) {
      forall k | 0 <= k < |cps| ensures IsDefined(cps[k]) {
        if k > 0 { assert cps[k] == rest[k - 1]; }
      }
    }
    if AllDefined(cps) {
      assert IsDefined(cps[0]);
      forall k | 0 <= k < |rest| ensures IsDefined(rest[k]) {
        assert rest[k] == cps[k + 1];
      }
    }
  }

  lemma ConsDefinedPrefix(codePoint: int, rest: seq<int>)
    ensures DefinedPrefix([codePoint] + rest) == if IsDefined(codePoint) then [codePoint] + DefinedPrefix(rest) else []
  {
    assert ([codePoint] + rest)[1..] == rest;
  }

  lemma ConsSingles(codePoint: int, rest: seq<int>)
    ensures Singles([codePoint] + rest) == [Single(CodePoint(codePoint))] + Singles(rest)
  {
  }

  /** The walk from `index` adds the Singles of the defined prefix of the
      code points from there on, and succeeds when they are all defined. */
  lemma {:induction false} TextWalk(text: Regex3Vm.Text, index: nat, program: Program)
    requires index <= |text|
    ensures var cps := CodePointsOf(text[index..]);
      && TextFrom(text, index, program).1 == program + Singles(DefinedPrefix(cps))
      && (TextFrom(text, index, program).0 == None <==> AllDefined(cps))
      && (TextFrom(text, index, program).0.Some? ==>
            |DefinedPrefix(cps)| < |cps| && TextFrom(text, index, program).0.value == cps[|DefinedPrefix(cps)|])
    decreases |text| - index
  {
    if index < |text| {
      var codePoint := CodePointAt(text, index);
      ToCharsAt(text, index);
      CodePointsOfAt(text, index);
      var next := index + CharCount(codePoint);
      var rest := CodePointsOf(text[next..]);
      var cps := CodePointsOf(text[index..]);
      assert cps == [codePoint] + rest;
      ConsAllDefined(codePoint, rest);
      ConsDefinedPrefix(codePoint, rest);
      if IsDefined(codePoint) {
        var single := [Single(CodePoint(codePoint))];
        var grown := program + single;
        assert TextFrom(text, index, program) == TextFrom(text, next, grown);
        TextWalk(text, next, grown);
        ConsSingles(codePoint, DefinedPrefix(rest));
        ProgramAssoc(program, single, Singles(DefinedPrefix(rest)));
      } else {
        assert TextFrom(text, index, program) == (Some(codePoint), program);
        assert DefinedPrefix(cps) == [];
      }
    } else {
      assert text[index..] == [];
    }
  }

  lemma ProgramAssoc(a: Program, b: Program, c: Program)
    ensures a + b + c == a + (b + c)
  {
  }

  /** The rounds of the `firstOf` loop from round `k` on, with `program` and
      `jumpOffset` as they stand, and the last alternative after them. */
  ghost function Rounds(ps: seq<Program>, k: nat, jumpOffset: int, program: Program): Program
    requires k + 2 <= |ps|
    decreases |ps| - k
  {
    var grown := program + ([Fork(|ps[k]| + 2)] + ps[k] + [Jump(jumpOffset)]);
    if k + 2 == |ps| then grown + ps[k + 1]
    else Rounds(ps, k + 1, jumpOffset - (2 + |ps[k + 1]|), grown)
  }

  /** One round of the loop: the guarded alternative `k` is appended, and
      the rounds carry on from `k + 1` or end with the last alternative. */
  lemma RoundsStep(ps: seq<Program>, k: nat, jumpOffset: int, program: Program)
    requires k + 2 <= |ps|
    ensures var grown := program + ([Fork(|ps[k]| + 2)] + ps[k] + [Jump(jumpOffset)]);
      Rounds(ps, k, jumpOffset, program) ==
        if k + 2 == |ps| then grown + ps[k + 1]
        else Rounds(ps, k + 1, jumpOffset - (2 + |ps[k + 1]|), grown)
  {
  }

  /** Started with the offset that clears the alternatives after `k`, the
      rounds lay out the construct from alternative `k` on. */
  lemma {:induction false} RoundsBuildAlternatives(ps: seq<Program>, k: nat, program: Program)
    requires k + 2 <= |ps|
    ensures Rounds(ps, k, |Alternatives(ps[k + 1..])| + 1, program) == program + Alternatives(ps[k..])
    decreases |ps| - k
  {
    AlternativesUnfold(ps, k, program);
    var jumpOffset := |Alternatives(ps[k + 1..])| + 1;
    var grown := program + ([Fork(|ps[k]| + 2)] + ps[k] + [Jump(jumpOffset)]);
    if k + 2 == |ps| {
      assert ps[k + 1..] == [ps[k + 1]];
    } else {
      AlternativesUnfold(ps, k + 1, grown);
      RoundsBuildAlternatives(ps, k + 1, grown);
    }
  }

  /** The construct from alternative `k` on, one level unfolded, after
      `emitted`. */
  lemma AlternativesUnfold(ps: seq<Program>, k: nat, emitted: Program)
    requires k < |ps| - 1
    ensures emitted + Alternatives(ps[k..])
      == (emitted + [Fork(|ps[k]| + 2)] + ps[k] + [Jump(|Alternatives(ps[k + 1..])| + 1)]) + Alternatives(ps[k + 1..])
  {
    assert ps[k..][1..] == ps[k + 1..];
  }

  /** Adding a last alternative lengthens the construct by the alternative
      plus a Fork and a Jump. */
  lemma {:induction false} AlternativesSnoc(ps: seq<Program>)
    requires |ps| >= 2
    ensures |Alternatives(ps)| == |Alternatives(ps[..|ps| - 1])| + |ps[|ps| - 1]| + 2
  {
    if |ps| > 2 {
      AlternativesSnoc(ps[1..]);
      assert ps[1..][..|ps| - 2] == ps[..|ps| - 1][1..];
    }
  }
}
