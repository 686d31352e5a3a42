/** `BasicInstruction`: the compiler's output before linking. Fork and Jump are
    "ephemeral" (they only redirect control); CodePoint and Success are
    "matchers" and survive linking. */
module BasicInstructions {
  import opened Wrappers
  import opened Instructions

  const NOT_AN_EPHEMERAL := "Not an ephemeral instruction."
  const NOT_A_MATCHER := "Not a matcher instruction."

  datatype BasicInstruction =
    | BasicCodePoint(codePoint: int)
    | BasicFork(delta: int)
    | BasicJump(delta: int)
    | BasicSuccess

  predicate IsEphemeral(b: BasicInstruction)
  {
    b.BasicFork? || b.BasicJump?
  }

  /** `getNextProgramCounters(pc)`: where control may go from `b` at `pc`. A
      code point falls through, a fork falls through or jumps by `delta`, a
      jump only jumps, and Success goes nowhere. */
  function NextProgramCounters(b: BasicInstruction, pc: int): (r: set<int>)
    ensures b.BasicSuccess? <==> r == {}
    ensures |r| <= 2
    ensures !IsEphemeral(b) ==> r <= {pc + 1}
    ensures b.BasicFork? ==> (|r| == 1 <==> b.delta == 1)
  {
    match b
    case BasicCodePoint(_) => {pc + 1}
    case BasicFork(delta) =>
      assert delta != 1 ==> |{pc + 1, pc + delta}| == 2;
      {pc + 1, pc + delta}
    case BasicJump(delta) => {pc + delta}
    case BasicSuccess => {}
  }

  /** Successor sets are relative: moving an instruction by `shift` moves its
      successors by `shift`. */
  lemma NextProgramCountersShift(b: BasicInstruction, pc: int, shift: int)
    ensures NextProgramCounters(b, pc + shift) == set q | q in NextProgramCounters(b, pc) :: q + shift
  {
  }

  /** `toMatcher`: a matcher is returned as is; an ephemeral fails. */
  function ToMatcher(b: BasicInstruction): (r: Result<BasicInstruction>)
    ensures r.Ok? <==> !IsEphemeral(b)
    ensures r.Ok? ==> r.value == b
    ensures r.Err? ==> r.message == NOT_A_MATCHER
  {
    if IsEphemeral(b) then Err(NOT_A_MATCHER) else Ok(b)
  }

  /** `toEphemeral`: an ephemeral is returned as is; a matcher fails. */
  function ToEphemeral(b: BasicInstruction): (r: Result<BasicInstruction>)
    ensures r.Ok? <==> IsEphemeral(b)
    ensures r.Ok? ==> r.value == b
    ensures r.Err? ==> r.message == NOT_AN_EPHEMERAL
  {
    if IsEphemeral(b) then Ok(b) else Err(NOT_AN_EPHEMERAL)
  }

  /** `toInstruction(next)` of a matcher: a CodePoint instruction with the same
      code point and successors `next`; Success ignores `next`. */
  function ToInstruction(b: BasicInstruction, next: set<nat>): (r: Instruction)
    requires !IsEphemeral(b)
    ensures r.CodePoint? <==> b.BasicCodePoint?
    ensures r.CodePoint? ==> r.codePoint == b.codePoint && r.programCounters == next
    ensures r.Success? <==> b.BasicSuccess?
  {
    if b.BasicCodePoint? then CodePoint(b.codePoint, next) else Success
  }

  /** `DefaultBasicSubroutine`: a list of basic instructions that can be
      appended to another list. */
  datatype BasicSubroutine = BasicSubroutine(basicInstructions: seq<BasicInstruction>)
  {
    function Size(): nat
    {
      |basicInstructions|
    }

    /** `appendTo`: the target keeps its prefix and grows by `Size()` with this
        subroutine's instructions, in order. */
    function AppendTo(existing: seq<BasicInstruction>): (r: seq<BasicInstruction>)
      ensures |r| == |existing| + Size()
      ensures r[..|existing|] == existing
      ensures forall k | 0 <= k < Size() :: r[|existing| + k] == basicInstructions[k]
    {
      existing + basicInstructions
    }
  }
}
